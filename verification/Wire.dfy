/** The controller's binary value encoding and the snapshot response built from it. */
module Wire {
  import opened HalValues

  type Byte = x: int | 0 <= x < 256

  type Bytes = seq<Byte>

  datatype PinType =
    | PBool | PS8 | PU8 | PS16 | PU16 | PS32 | PU32 | PS64 | PU64 | PF32 | PF64 | PBlob | PString

  /** Values as they travel: floats by their bit patterns, strings by their UTF-8 bytes. */
  datatype WireValue =
    | WBool(b: bool)
    | WInt(ity: IntType, n: int)
    | WF32(bits: nat)
    | WF64(bits: nat)
    | WBlob(data: Bytes)
    | WString(utf8: Bytes)
    | WArray(element: PinType, data: Bytes)

  datatype WireError = EmptyValue | Need(n: nat,
                                         have: nat) | BadUtf8 | UnknownPin(d: Byte) | UnknownDiscriminant(d: Byte)
                     | SnapshotTooShort | TruncatedNameLen | TruncatedName

  datatype Result<+T> = Ok(value: T) | Err(error: WireError)

  const ARRAY_TAG: Byte := 0xFE

  function PinDiscriminant(p: PinType): Byte {
    match p
    case PBool => 0 case PS8 => 1 case PU8 => 2 case PS16 => 3 case PU16 => 4 case PS32 => 5 case PU32 => 6
    case PS64 => 7 case PU64 => 8 case PF32 => 9 case PF64 => 10 case PBlob => 11 case PString => 12
  }

  function PinFromDiscriminant(d: Byte): Option<PinType> {
    match d
    case 0 => Some(PBool) case 1 => Some(PS8) case 2 => Some(PU8) case 3 => Some(PS16) case 4 => Some(PU16)
    case 5 => Some(PS32) case 6 => Some(PU32) case 7 => Some(PS64) case 8 => Some(PU64) case 9 => Some(PF32)
    case 10 => Some(PF64) case 11 => Some(PBlob) case 12 => Some(PString)
    case _ => None
  }

  lemma PinsRoundTrip(p: PinType, d: Byte)
    ensures PinFromDiscriminant(PinDiscriminant(p)) == Some(p)
    ensures PinFromDiscriminant(d).Some? ==> PinDiscriminant(PinFromDiscriminant(d).value) == d
  {
  }

  // ----- little-endian words -----

  function Pow256(k: nat): nat
    ensures Pow256(k) > 0
  {
    if k == 0 then 1 else 256 * Pow256(k - 1)
  }

  function LeBytes(n: nat, k: nat): (r: Bytes)
    ensures |r| == k
    decreases k
  {
    if k == 0 then [] else [n % 256] + LeBytes(n / 256, k - 1)
  }

  function LeValue(bs: Bytes): nat {
    if bs == [] then 0 else bs[0] + 256 * LeValue(bs[1..])
  }

  lemma {:induction false} LeRoundTrip(n: nat, k: nat)
    requires n < Pow256(k)
    ensures LeValue(LeBytes(n, k)) == n
    decreases k
  {
    if k > 0 {
      LeRoundTrip(n / 256, k - 1);
      assert LeBytes(n, k)[1..] == LeBytes(n / 256, k - 1);
    }
  }

  lemma {:induction false} LeBack(bs: Bytes)
    ensures LeValue(bs) < Pow256(|bs|) && LeBytes(LeValue(bs), |bs|) == bs
  {
    if bs != [] {
      LeBack(bs[1..]);
      LowAndHigh(bs[0], LeValue(bs[1..]));
      assert bs == [bs[0]] + bs[1..];
    }
  }

  lemma LowAndHigh(low: Byte, high: nat)
    ensures (low + 256 * high) % 256 == low && (low + 256 * high) / 256 == high
  {
  }

  function Size(t: IntType): nat {
    match t
    case I8 => 1 case U8 => 1 case I16 => 2 case U16 => 2 case I32 => 4 case U32 => 4 case I64 => 8 case U64 => 8
  }

  lemma WordSizes()
    ensures Pow256(1) == 0x100 && Pow256(2) == 0x1_0000 && Pow256(4) == 0x1_0000_0000
    ensures Pow256(8) == 0x1_0000_0000_0000_0000
  {
    assert Pow256(2) == 256 * Pow256(1);
    assert Pow256(3) == 256 * Pow256(2);
    assert Pow256(4) == 256 * Pow256(3);
    assert Pow256(5) == 256 * Pow256(4);
    assert Pow256(6) == 256 * Pow256(5);
    assert Pow256(7) == 256 * Pow256(6);
    assert Pow256(8) == 256 * Pow256(7);
  }

  lemma RangeSize(t: IntType)
    ensures IntMax(t) - IntMin(t) + 1 == Pow256(Size(t))
    ensures IntMin(t) == 0 || IntMin(t) == -IntMax(t) - 1
    ensures IntMax(t) > 0
  {
    hide Pow256;
    WordSizes();
  }

  lemma ModOnce(x: int, m: int)
    requires m > 0
    ensures 0 <= x < m ==> x % m == x
    ensures m <= x < 2 * m ==> x % m == x - m
    ensures 0 <= x + m < m ==> x % m == x + m
    ensures 0 <= x % m < m
  {
    if m <= x < 2 * m { SameQuotient(x, m, 1, x - m); }
    if 0 <= x + m < m { SameQuotient(x, m, -1, x + m); }
  }

  lemma SameQuotient(x: int, m: int, q: int, r: int)
    requires m > 0 && x == m * q + r && 0 <= r < m
    ensures x % m == r
  {
    var p, s := x / m, x % m;
    assert x == m * p + s;
    assert m * (p - q) == m * p - m * q;
    Multiple(m, p - q, r - s);
  }

  lemma Multiple(m: int, k: int, d: int)
    requires m * k == d && -m < d < m
    ensures d == 0
  {
    assert k >= 1 ==> m * (k - 1) >= 0;
    assert k <= -1 ==> m * (-1 - k) >= 0;
  }

  /** Two's complement there and back. */
  lemma TwosComplement(t: IntType, n: int)
    ensures Unsigned(t, n) < Pow256(Size(t))
    ensures InRange(t, n) ==> Wrap(t, Unsigned(t, n)) == n
    ensures 0 <= n < Pow256(Size(t)) ==> Unsigned(t, Wrap(t, n)) == n
  {
    hide Pow256; hide IntMin; hide IntMax; hide Size;
    RangeSize(t);
    var m, lo := Pow256(Size(t)), IntMin(t);
    hide *;
    WordAndBack(n, m, lo);
    Unfolded(t, n);
    Unfolded(t, Wrap(t, n));
    WrapUnfolded(t, n);
    WrapUnfolded(t, Unsigned(t, n));
  }

  lemma Unfolded(t: IntType, n: int)
    ensures Unsigned(t, n) == n % HalValues.RangeSize(t)
  {
  }

  lemma WrapUnfolded(t: IntType, n: int)
    ensures Wrap(t, n) == (n - IntMin(t)) % HalValues.RangeSize(t) + IntMin(t)
    ensures HalValues.RangeSize(t) == IntMax(t) - IntMin(t) + 1 && (InRange(t, n) <==> IntMin(t) <= n <= IntMax(t))
  {
  }

  /** Reduced modulo the word's range and shifted back. */
  lemma WordAndBack(n: int, m: int, lo: int)
    requires m > 0 && -m < lo <= 0
    ensures 0 <= n % m < m
    ensures lo <= n < lo + m ==> (n % m - lo) % m + lo == n
    ensures 0 <= n < m ==> ((n - lo) % m + lo) % m == n
  {
    ModOnce(n, m);
    ModOnce(n % m - lo, m);
    ModOnce(n - lo, m);
    ModOnce((n - lo) % m + lo, m);
  }

  // ----- UTF-8 -----

  predicate Continues(b: Byte) { 0x80 <= b <= 0xBF }

  /** Bytes of the well-formed character at the front, 0 if there is none. */
  function CharSize(s: Bytes): nat
    requires s != []
  {
    var a := s[0];
    if a <= 0x7F then 1
    else if 0xC2 <= a <= 0xDF && |s| >= 2 && Continues(s[1]) then 2
    else if |s| >= 3 && Continues(s[2]) &&
            (|| (a == 0xE0 && 0xA0 <= s[1] <= 0xBF)
             || ((0xE1 <= a <= 0xEC || 0xEE <= a <= 0xEF) && Continues(s[1]))
             || (a == 0xED && 0x80 <= s[1] <= 0x9F)) then 3
    else if |s| >= 4 && Continues(s[2]) && Continues(s[3]) &&
            (|| (a == 0xF0 && 0x90 <= s[1] <= 0xBF)
             || (0xF1 <= a <= 0xF3 && Continues(s[1]))
             || (a == 0xF4 && 0x80 <= s[1] <= 0x8F)) then 4
    else 0
  }

  predicate ValidUtf8(s: Bytes)
    decreases |s|
  {
    s == [] || (CharSize(s) > 0 && ValidUtf8(s[CharSize(s)..]))
  }

  // ----- encoding -----

  function PinOf(v: WireValue): PinType {
    match v
    case WBool(_) => PBool
    case WInt(I8, _) => PS8 case WInt(U8, _) => PU8 case WInt(I16, _) => PS16 case WInt(U16, _) => PU16
    case WInt(I32, _) => PS32 case WInt(U32, _) => PU32 case WInt(I64, _) => PS64 case WInt(U64, _) => PU64
    case WF32(_) => PF32 case WF64(_) => PF64 case WBlob(_) => PBlob case WString(_) => PString
    case WArray(e, _) => e
  }

  /** A container's length prefix keeps the low 32 bits. */
  function LengthPrefix(len: nat): Bytes { LeBytes(len % 0x1_0000_0000, 4) }

  function Payload(v: WireValue): Bytes {
    match v
    case WBool(b) => [if b then 1 else 0]
    case WInt(t, n) => LeBytes(Unsigned(t, n), Size(t))
    case WF32(bits) => LeBytes(bits, 4)
    case WF64(bits) => LeBytes(bits, 8)
    case WBlob(data) => LengthPrefix(|data|) + data
    case WString(s) => LengthPrefix(|s|) + s
    case WArray(e, data) => LengthPrefix(|data|) + [PinDiscriminant(e)] + data
  }

  function Encode(v: WireValue): Bytes {
    [if v.WArray? then ARRAY_TAG else PinDiscriminant(PinOf(v))] + Payload(v)
  }

  method EncodeHalValue(v: WireValue) returns (buf: Bytes)
    ensures buf == Encode(v)
  {
    hide LengthPrefix; hide LeBytes; hide Unsigned; hide PinDiscriminant; hide PinOf;
    buf := [];
    if v.WArray? {
      buf := buf + [ARRAY_TAG];
      buf := buf + LengthPrefix(|v.data|);
      buf := buf + [PinDiscriminant(v.element)];
      buf := buf + v.data;
    } else {
      buf := buf + [PinDiscriminant(PinOf(v))];
      if v.WBool? {
        buf := buf + [if v.b then 1 else 0];
      } else if v.WInt? {
        buf := buf + LeBytes(Unsigned(v.ity, v.n), Size(v.ity));
      } else if v.WF32? {
        buf := buf + LeBytes(v.bits, 4);
      } else if v.WF64? {
        buf := buf + LeBytes(v.bits, 8);
      } else if v.WBlob? {
        buf := buf + LengthPrefix(|v.data|);
        buf := buf + v.data;
      } else {
        buf := buf + LengthPrefix(|v.utf8|);
        buf := buf + v.utf8;
      }
    }
  }

  // ----- decoding -----

  datatype Decoded = Decoded(v: WireValue, consumed: nat)

  function IntOf(p: PinType): Option<IntType> {
    match p
    case PS8 => Some(I8) case PU8 => Some(U8) case PS16 => Some(I16) case PU16 => Some(U16)
    case PS32 => Some(I32) case PU32 => Some(U32) case PS64 => Some(I64) case PU64 => Some(U64)
    case _ => None
  }

  function DecodeInt(t: IntType, rest: Bytes): Result<Decoded> {
    if |rest| < Size(t) then Err(Need(Size(t), |rest|))
    else Ok(Decoded(WInt(t, Wrap(t, LeValue(rest[..Size(t)]))), 1 + Size(t)))
  }

  function DecodeContainer(d: Byte, rest: Bytes): Result<Decoded>
    requires d == 11 || d == 12
  {
    if |rest| < 4 then Err(Need(4, |rest|))
    else
      var len := LeValue(rest[..4]);
      if |rest| < 4 + len then Err(Need(4 + len, |rest|))
      else if d == 11 then Ok(Decoded(WBlob(rest[4..4 + len]), 5 + len))
      else if ValidUtf8(rest[4..4 + len]) then Ok(Decoded(WString(rest[4..4 + len]), 5 + len))
      else Err(BadUtf8)
  }

  function DecodeArray(rest: Bytes): Result<Decoded> {
    if |rest| < 4 then Err(Need(4, |rest|))
    else
      var len := LeValue(rest[..4]);
      if |rest| < 5 + len then Err(Need(5 + len, |rest|))
      else
        match PinFromDiscriminant(rest[4])
        case Some(e) => Ok(Decoded(WArray(e, rest[5..5 + len]), 6 + len))
        case None => Err(UnknownPin(rest[4]))
  }

  /** A Boolean without its byte reads as false and still claims two bytes. */
  function Decode(data: Bytes): Result<Decoded> {
    if data == [] then Err(EmptyValue)
    else
      var d, rest := data[0], data[1..];
      if d == 0 then Ok(Decoded(WBool(rest != [] && rest[0] != 0), 2))
      else if d == 9 then
        if |rest| < 4 then Err(Need(4, |rest|)) else Ok(Decoded(WF32(LeValue(rest[..4])), 5))
      else if d == 10 then
        if |rest| < 8 then Err(Need(8, |rest|)) else Ok(Decoded(WF64(LeValue(rest[..8])), 9))
      else if d == 11 || d == 12 then DecodeContainer(d, rest)
      else if d == ARRAY_TAG then DecodeArray(rest)
      else if PinFromDiscriminant(d).Some? && IntOf(PinFromDiscriminant(d).value).Some? then
        DecodeInt(IntOf(PinFromDiscriminant(d).value).value, rest)
      else Err(UnknownDiscriminant(d))
  }

  // ----- round trips of one value -----

  /** A value of its type: numbers in range, strings of UTF-8. */
  predicate Typed(v: WireValue) {
    match v
    case WInt(t, n) => InRange(t, n)
    case WF32(bits) => bits < 0x1_0000_0000
    case WF64(bits) => bits < 0x1_0000_0000_0000_0000
    case WString(s) => ValidUtf8(s)
    case _ => true
  }

  function PayloadLength(v: WireValue): nat {
    match v
    case WBlob(data) => |data|
    case WString(s) => |s|
    case WArray(_, data) => |data|
    case _ => 0
  }

  /** A length prefix reads as the length, or, when that does not fit, as something smaller. */
  lemma LengthReads(len: nat, more: Bytes)
    ensures var s := LengthPrefix(len) + more;
            |s| >= 4 && s[4..] == more &&
            (if len < 0x1_0000_0000 then LeValue(s[..4]) == len else LeValue(s[..4]) < len)
  {
    hide LeBytes; hide LeValue;
    WordSizes();
    LeRoundTrip(len % 0x1_0000_0000, 4);
    var s := LengthPrefix(len) + more;
    assert s[..4] == LengthPrefix(len);
  }

  lemma NumberReads(n: nat, k: nat, more: Bytes)
    requires n < Pow256(k)
    ensures var s := LeBytes(n, k) + more; |s| >= k && LeValue(s[..k]) == n
  {
    LeRoundTrip(n, k);
    var s := LeBytes(n, k) + more;
    assert s[..k] == LeBytes(n, k);
  }

  lemma SplitEncoding(v: WireValue, more: Bytes)
    ensures (Encode(v) + more)[0] == Encode(v)[0] && (Encode(v) + more)[1..] == Payload(v) + more
  {
    hide Payload;
  }

  lemma IntRoundTrip(t: IntType, n: int, more: Bytes)
    requires Typed(WInt(t, n))
    ensures Decode(Encode(WInt(t, n)) + more) == Ok(Decoded(WInt(t, n), |Encode(WInt(t, n))|))
  {
    hide LeBytes; hide LeValue; hide Unsigned; hide Wrap;
    SplitEncoding(WInt(t, n), more);
    TwosComplement(t, n);
    NumberReads(Unsigned(t, n), Size(t), more);
  }

  lemma FloatRoundTrip(v: WireValue, more: Bytes)
    requires (v.WF32? || v.WF64?) && Typed(v)
    ensures Decode(Encode(v) + more) == Ok(Decoded(v, |Encode(v)|))
  {
    hide LeBytes; hide LeValue;
    SplitEncoding(v, more);
    WordSizes();
    NumberReads(v.bits, if v.WF32? then 4 else 8, more);
  }

  /** What a container with payload `data` is read as. */
  lemma ContainerReads(d: Byte, data: Bytes, more: Bytes)
    requires d == 11 || d == 12
    ensures var r := DecodeContainer(d, LengthPrefix(|data|) + (data + more));
            if |data| < 0x1_0000_0000 then
              r == if d == 11 then Ok(Decoded(WBlob(data), 5 + |data|))
                   else if ValidUtf8(data) then Ok(Decoded(WString(data), 5 + |data|)) else Err(BadUtf8)
            else r.Ok? ==> r.value.consumed < 5 + |data|
  {
    hide LengthPrefix; hide LeValue; hide ValidUtf8;
    var rest := LengthPrefix(|data|) + (data + more);
    LengthReads(|data|, data + more);
    BodySlice(rest, 4, data, more);
  }

  lemma BodySlice(rest: Bytes, k: nat, data: Bytes, more: Bytes)
    requires k <= |rest| && rest[k..] == data + more
    ensures k + |data| <= |rest| && rest[k..k + |data|] == data
  {
    assert rest[k..][..|data|] == rest[k..k + |data|];
  }

  lemma ContainerRoundTrip(v: WireValue, more: Bytes)
    requires (v.WBlob? || v.WString?) && Typed(v)
    ensures Decode(Encode(v) + more) == Ok(Decoded(v, |Encode(v)|)) <==> PayloadLength(v) < 0x1_0000_0000
  {
    hide LengthPrefix; hide ValidUtf8; hide DecodeContainer;
    SplitEncoding(v, more);
    var data := if v.WBlob? then v.data else v.utf8;
    assert Payload(v) + more == LengthPrefix(|data|) + (data + more);
    PrefixSize(|data|);
    ContainerReads(if v.WBlob? then 11 else 12, data, more);
  }

  lemma PrefixSize(len: nat)
    ensures |LengthPrefix(len)| == 4
  {
  }

  lemma ArrayReads(e: PinType, data: Bytes, more: Bytes)
    ensures var r := DecodeArray(LengthPrefix(|data|) + ([PinDiscriminant(e)] + data + more));
            if |data| < 0x1_0000_0000 then r == Ok(Decoded(WArray(e, data), 6 + |data|))
            else r.Ok? ==> r.value.consumed < 6 + |data|
  {
    hide LengthPrefix; hide LeValue; hide PinDiscriminant; hide PinFromDiscriminant;
    var tail := [PinDiscriminant(e)] + data + more;
    var rest := LengthPrefix(|data|) + tail;
    LengthReads(|data|, tail);
    PinsRoundTrip(e, 0);
    assert rest[4] == rest[4..][0] == PinDiscriminant(e);
    if |data| < 0x1_0000_0000 {
      assert rest[5..5 + |data|] == rest[4..][1..1 + |data|] == tail[1..1 + |data|] == data;
    }
  }

  lemma ArrayRoundTrip(e: PinType, data: Bytes, more: Bytes)
    ensures var v := WArray(e, data);
            Decode(Encode(v) + more) == Ok(Decoded(v, |Encode(v)|)) <==> |data| < 0x1_0000_0000
  {
    hide LengthPrefix; hide PinDiscriminant; hide DecodeArray;
    var v := WArray(e, data);
    SplitEncoding(v, more);
    assert Payload(v) + more == LengthPrefix(|data|) + ([PinDiscriminant(e)] + data + more);
    PrefixSize(|data|);
    ArrayReads(e, data, more);
  }

  /** Decoding an encoded value, whatever bytes follow, gives the value back and exactly
      the encoding's length, if and only if the payload's length fits its 32-bit prefix. */
  lemma WireRoundTrip(v: WireValue, more: Bytes)
    requires Typed(v)
    ensures Decode(Encode(v) + more) == Ok(Decoded(v, |Encode(v)|)) <==> PayloadLength(v) < 0x1_0000_0000
  {
    match v {
      case WBool(b) => SplitEncoding(v, more);
      case WInt(t, n) => hide *; SmallPayload(v); IntRoundTrip(t, n, more);
      case WF32(_) => hide *; SmallPayload(v); FloatRoundTrip(v, more);
      case WF64(_) => hide *; SmallPayload(v); FloatRoundTrip(v, more);
      case WBlob(_) => hide *; ContainerRoundTrip(v, more);
      case WString(_) => hide *; ContainerRoundTrip(v, more);
      case WArray(e, data) => hide *; ArrayRoundTrip(e, data, more); ArrayPayload(e, data);
    }
  }

  lemma SmallPayload(v: WireValue)
    requires !v.WBlob? && !v.WString? && !v.WArray?
    ensures PayloadLength(v) == 0
  {
  }

  lemma ArrayPayload(e: PinType, data: Bytes)
    ensures PayloadLength(WArray(e, data)) == |data|
  {
  }

  /** The decoder stays within its input but for one case: a Boolean cut off after its tag. */
  lemma ConsumesInput(data: Bytes)
    requires Decode(data).Ok?
    ensures Decode(data).value.consumed <= |data| <==> data != [0]
    ensures Decode(data).value.consumed <= |data| + 1
  {
    hide LeValue; hide ValidUtf8; hide Wrap;
    if |data| == 1 { assert data == [data[0]]; }
  }

  /** Encoding an accepted value again gives back the bytes it was read from, if and only if
      they are not a Boolean cut off behind its tag or with another byte than 0 and 1. */
  lemma Reencodes(data: Bytes)
    requires Decode(data).Ok?
    ensures var d := Decode(data).value;
            (d.consumed <= |data| && Encode(d.v) == data[..d.consumed]) <==>
              (data[0] == 0 ==> |data| >= 2 && data[1] <= 1)
    ensures Typed(Decode(data).value.v)
  {
    hide LeValue; hide ValidUtf8; hide LeBytes;
    if data[0] != 0 {
      WholeReencodes(data);
    } else if |data| >= 2 {
      assert data[..2] == [data[0], data[1]];
    }
  }

  lemma WholeReencodes(data: Bytes)
    requires Decode(data).Ok? && data[0] != 0
    ensures var d := Decode(data).value; Typed(d.v) && d.consumed <= |data| && Encode(d.v) == data[..d.consumed]
  {
    hide LeValue; hide ValidUtf8; hide LeBytes;
    var d, rest := data[0], data[1..];
    WordSizes();
    assert data == [d] + rest;
    if d == 9 {
      LeBack(rest[..4]);
    } else if d == 10 {
      LeBack(rest[..8]);
    } else if d == 11 || d == 12 {
      ContainerReencodes(d, rest);
    } else if d == ARRAY_TAG {
      ArrayReencodes(rest);
    } else {
      IntReencodes(d, rest);
    }
  }

  lemma ContainerReencodes(d: Byte, rest: Bytes)
    requires (d == 11 || d == 12) && DecodeContainer(d, rest).Ok?
    ensures var v := DecodeContainer(d, rest).value;
            && Typed(v.v) && v.consumed <= 1 + |rest| && Encode(v.v) == [d] + rest[..v.consumed - 1]
  {
    hide LeValue; hide ValidUtf8; hide LeBytes;
    LeBack(rest[..4]);
    WordSizes();
    var len := LeValue(rest[..4]);
    assert LengthPrefix(len) == rest[..4];
    assert rest[..4] + rest[4..4 + len] == rest[..4 + len];
  }

  lemma ArrayReencodes(rest: Bytes)
    requires DecodeArray(rest).Ok?
    ensures var v := DecodeArray(rest).value;
            && Typed(v.v) && v.consumed <= 1 + |rest| && Encode(v.v) == [ARRAY_TAG] + rest[..v.consumed - 1]
  {
    hide LeValue; hide LeBytes; hide PinDiscriminant; hide PinFromDiscriminant;
    LeBack(rest[..4]);
    WordSizes();
    PinsRoundTrip(PBool, rest[4]);
    var len := LeValue(rest[..4]);
    assert LengthPrefix(len) == rest[..4];
    assert rest[..4] + [rest[4]] + rest[5..5 + len] == rest[..5 + len];
  }

  lemma IntReencodes(d: Byte, rest: Bytes)
    requires PinFromDiscriminant(d).Some? && IntOf(PinFromDiscriminant(d).value).Some?
    requires DecodeInt(IntOf(PinFromDiscriminant(d).value).value, rest).Ok?
    ensures var v := DecodeInt(IntOf(PinFromDiscriminant(d).value).value, rest).value;
            && Typed(v.v) && v.consumed <= 1 + |rest| && Encode(v.v) == [d] + rest[..v.consumed - 1]
  {
    hide LeValue; hide LeBytes; hide Wrap; hide Unsigned;
    var t := IntOf(PinFromDiscriminant(d).value).value;
    LeBack(rest[..Size(t)]);
    TwosComplement(t, LeValue(rest[..Size(t)]));
  }
}
