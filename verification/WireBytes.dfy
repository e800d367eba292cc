/** The encoding byte by byte: tags, low byte first, length prefixes. */
module WireBytes {
  import opened HalValues
  import opened Wire
  import Snap = Snapshot

  lemma {:induction false} LowByteFirst(n: nat, k: nat, i: nat)
    requires i < k
    ensures LeBytes(n, k)[i] == n / Pow256(i) % 256
    decreases k
  {
    if i == 0 {
      assert Pow256(0) == 1;
    } else {
      LowByteFirst(n / 256, k - 1, i - 1);
      assert Pow256(i) == 256 * Pow256(i - 1);
      DivideTwice(n, Pow256(i - 1));
    }
  }

  lemma DivideTwice(n: nat, m: nat)
    requires m > 0
    ensures n / 256 / m == n / (256 * m)
  {
    var q, r := n / 256, n % 256;
    var s, u := q / m, q % m;
    assert (256 * m) * s == 256 * (m * s);
    Floor(n, 256 * m, s, 256 * u + r);
  }

  lemma Floor(x: nat, m: nat, q: nat, r: nat)
    requires m > 0 && x == m * q + r && r < m
    ensures x / m == q
  {
    var p, s := x / m, x % m;
    assert m * (p - q) == m * p - m * q;
    Multiple(m, p - q, r - s);
    assert m * (p - q) == 0;
  }

  /** A number is its tag and then its two's complement word, the low byte first. */
  lemma NumberBytes(t: IntType, n: int, i: nat)
    requires i < Size(t)
    ensures var e := Encode(WInt(t, n));
            && |e| == 1 + Size(t)
            && e[0] == (match t case I8 => 1 case U8 => 2 case I16 => 3 case U16 => 4
                                case I32 => 5 case U32 => 6 case I64 => 7 case U64 => 8)
            && e[1 + i] == Unsigned(t, n) / Pow256(i) % 256
  {
    hide LeBytes; hide Unsigned; hide Pow256;
    LowByteFirst(Unsigned(t, n), Size(t), i);
  }

  lemma ShortPrefix(len: nat)
    requires len < 0x1_0000_0000
    ensures LengthPrefix(len) == LeBytes(len, 4)
  {
    hide LeBytes;
  }

  /** The tag and the payload of every other value. */
  lemma OtherBytes(v: WireValue)
    requires !v.WInt?
    ensures Encode(v)[0] == match v
                            case WBool(_) => 0 case WF32(_) => 9 case WF64(_) => 10
                            case WBlob(_) => 11 case WString(_) => 12 case WArray(_, _) => 0xFE
    ensures v.WBool? ==> Encode(v)[1..] == [if v.b then 1 else 0]
    ensures v.WF32? ==> Encode(v)[1..] == LeBytes(v.bits, 4)
    ensures v.WF64? ==> Encode(v)[1..] == LeBytes(v.bits, 8)
  {
    hide LeBytes; hide LengthPrefix;
    assert Encode(v)[1..] == Payload(v);
  }

  /** A container's length stands in four bytes before its data; an array's element tag is
      between them. */
  lemma ContainerBytes(v: WireValue)
    requires (v.WBlob? && |v.data| < 0x1_0000_0000) || (v.WString? && |v.utf8| < 0x1_0000_0000)
    ensures var data := if v.WBlob? then v.data else v.utf8;
            Encode(v)[1..5] == LeBytes(|data|, 4) && Encode(v)[5..] == data
  {
    hide LeBytes; hide LengthPrefix;
    var data := if v.WBlob? then v.data else v.utf8;
    ShortPrefix(|data|);
    assert Encode(v)[1..] == Payload(v);
    Behind(Encode(v), LeBytes(|data|, 4), data);
  }

  lemma ArrayBytes(v: WireValue)
    requires v.WArray? && |v.data| < 0x1_0000_0000
    ensures Encode(v)[1..5] == LeBytes(|v.data|, 4) && Encode(v)[5..] == [PinDiscriminant(v.element)] + v.data
    ensures PinDiscriminant(PBool) == 0 && PinDiscriminant(PS32) == 5 && PinDiscriminant(PString) == 12
  {
    hide LeBytes; hide LengthPrefix;
    ShortPrefix(|v.data|);
    assert Encode(v)[1..] == Payload(v);
    var rest: Bytes := [PinDiscriminant(v.element)] + v.data;
    assert Payload(v) == LeBytes(|v.data|, 4) + rest;
    Behind(Encode(v), LeBytes(|v.data|, 4), rest);
  }

  lemma Behind(whole: Bytes, prefix: Bytes, rest: Bytes)
    requires |whole| > 0 && |prefix| == 4 && whole[1..] == prefix + rest
    ensures |whole| >= 5 && whole[1..5] == prefix && whole[5..] == rest
  {
    assert whole[1..][..4] == prefix && whole[1..][4..] == rest;
    assert whole[1..][..4] == whole[1..5] && whole[1..][4..] == whole[5..];
  }

  /** A snapshot of two Booleans, byte by byte: the count, then for each one the length of its
      name, the name and the value. */
  lemma SnapshotBytes(m: Bytes, a: bool, n: Bytes, b: bool)
    requires |m| < 0x1_0000 && |n| < 0x1_0000
    ensures Snap.Layout([Snap.Entry(m, WBool(a)), Snap.Entry(n, WBool(b))]) ==
            [2, 0] + ([|m| % 256, |m| / 256] + m + [0, if a then 1 else 0]) +
              ([|n| % 256, |n| / 256] + n + [0, if b then 1 else 0])
  {
    TwoBytes(2);
    BooleanEntry(m, a);
    BooleanEntry(n, b);
    hide LeBytes; hide Snap.EntryBytes;
    var es := [Snap.Entry(m, WBool(a)), Snap.Entry(n, WBool(b))];
    assert es[1..] == [es[1]] && es[1..][1..] == [];
    assert Snap.EntriesBytes(es[1..]) == Snap.EntryBytes(es[1]) + [];
    assert Snap.EntriesBytes(es) == Snap.EntryBytes(es[0]) + Snap.EntriesBytes(es[1..]);
  }

  lemma TwoBytes(n: nat)
    requires n < 0x1_0000
    ensures LeBytes(n, 2) == [n % 256, n / 256]
  {
    assert LeBytes(n / 256, 1) == [n / 256 % 256] + LeBytes(n / 256 / 256, 0);
  }

  lemma BooleanEntry(name: Bytes, b: bool)
    requires |name| < 0x1_0000
    ensures Snap.EntryBytes(Snap.Entry(name, WBool(b))) ==
            [|name| % 256, |name| / 256] + name + [0, if b then 1 else 0]
  {
    TwoBytes(|name|);
    hide LeBytes;
    assert Encode(WBool(b)) == [0, if b then 1 else 0];
  }
}
