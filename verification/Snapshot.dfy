/** The snapshot response: a count, then names and encoded values, decoded by a moving offset. */
module Snapshot {
  import opened Wire

  datatype Entry = Entry(name: Bytes, value: WireValue)

  /** One entry at `offset`: its name length, its name, its value. `lossy` replaces what is
      not UTF-8 in a name. */
  function EntryAt(data: Bytes, offset: nat, lossy: Bytes -> Bytes): Result<(Entry, nat)> {
    if offset + 2 > |data| then Err(TruncatedNameLen)
    else
      var len := LeValue(data[offset..offset + 2]);
      if offset + 2 + len > |data| then Err(TruncatedName)
      else
        var name := lossy(data[offset + 2..offset + 2 + len]);
        match Decode(data[offset + 2 + len..])
        case Err(e) => Err(e)
        case Ok(d) => Ok((Entry(name, d.v), offset + 2 + len + d.consumed))
  }

  function EntriesAt(data: Bytes, offset: nat, count: nat, lossy: Bytes -> Bytes, front: seq<Entry>): Result<seq<Entry>>
    decreases count
  {
    if count == 0 then Ok(front)
    else
      match EntryAt(data, offset, lossy)
      case Err(e) => Err(e)
      case Ok((entry, next)) => EntriesAt(data, next, count - 1, lossy, front + [entry])
  }

  function SnapshotOf(data: Bytes, lossy: Bytes -> Bytes): Result<seq<Entry>> {
    if |data| < 2 then Err(SnapshotTooShort)
    else EntriesAt(data, 2, LeValue(data[..2]), lossy, [])
  }

  method DecodeEntry(data: Bytes, offset: nat, lossy: Bytes -> Bytes) returns (r: Result<(Entry, nat)>)
    ensures r == EntryAt(data, offset, lossy)
    ensures r.Ok? ==> offset < r.value.1 <= |data| + 1
  {
    hide LeValue; hide Decode;
    if offset + 2 > |data| { return Err(TruncatedNameLen); }
    var nameLen := LeValue([data[offset], data[offset + 1]]);
    assert [data[offset], data[offset + 1]] == data[offset..offset + 2];
    var nameStart := offset + 2;
    if nameStart + nameLen > |data| { return Err(TruncatedName); }
    var name := lossy(data[nameStart..nameStart + nameLen]);
    var tail := data[nameStart + nameLen..];
    var decoded := Decode(tail);
    if decoded.Err? { return Err(decoded.error); }
    ConsumesInput(tail);
    r := Ok((Entry(name, decoded.value.v), nameStart + nameLen + decoded.value.consumed));
  }

  /** No slice or index leaves the data, on any bytes whatever; the offset itself may end one
      past them, behind a Boolean that was cut off. */
  method DecodeSnapshotResponse(data: Bytes, lossy: Bytes -> Bytes) returns (r: Result<seq<Entry>>)
    ensures r == SnapshotOf(data, lossy)
  {
    hide LeValue; hide EntryAt;
    if |data| < 2 { return Err(SnapshotTooShort); }
    var count := LeValue([data[0], data[1]]);
    assert [data[0], data[1]] == data[..2];
    var results, offset := [], 2;
    for i := 0 to count
      invariant 2 <= offset <= |data| + 1
      invariant EntriesAt(data, offset, count - i, lossy, results) == SnapshotOf(data, lossy)
    {
      var entry := DecodeEntry(data, offset, lossy);
      if entry.Err? { return Err(entry.error); }
      results, offset := results + [entry.value.0], entry.value.1;
    }
    r := Ok(results);
  }

  // ----- the documented layout -----

  function EntryBytes(e: Entry): Bytes {
    LeBytes(|e.name|, 2) + e.name + Encode(e.value)
  }

  function EntriesBytes(es: seq<Entry>): Bytes {
    if es == [] then [] else EntryBytes(es[0]) + EntriesBytes(es[1..])
  }

  function Layout(es: seq<Entry>): Bytes { LeBytes(|es|, 2) + EntriesBytes(es) }

  /** Entries that fit the layout: names of UTF-8 shorter than 64 KiB, values that fit their encoding. */
  predicate Fits(es: seq<Entry>) {
    |es| < 0x1_0000 && AllFit(es)
  }

  predicate AllFit(es: seq<Entry>) {
    forall i :: 0 <= i < |es| ==> EntryFits(es[i])
  }

  predicate EntryFits(e: Entry) {
    ValidUtf8(e.name) && |e.name| < 0x1_0000 && Typed(e.value) && PayloadLength(e.value) < 0x1_0000_0000
  }

  /** Lossy decoding leaves UTF-8 alone. */
  ghost predicate KeepsUtf8(lossy: Bytes -> Bytes) {
    forall s: Bytes :: ValidUtf8(s) ==> lossy(s) == s
  }

  lemma EntryReads(data: Bytes, offset: nat, e: Entry, more: Bytes, lossy: Bytes -> Bytes)
    requires EntryFits(e) && KeepsUtf8(lossy)
    requires offset <= |data| && data[offset..] == EntryBytes(e) + more
    ensures var next := offset + |EntryBytes(e)|;
            && EntryAt(data, offset, lossy) == Ok((e, next)) && next <= |data| && data[next..] == more
  {
    hide LeBytes; hide LeValue; hide Decode; hide Encode; hide ValidUtf8; hide Typed; hide PayloadLength;
    var n, code := |e.name|, Encode(e.value);
    var tail := e.name + (code + more);
    assert EntryBytes(e) + more == LeBytes(n, 2) + tail;
    WordSizes();
    LeRoundTrip(n, 2);
    Piece(data, offset, LeBytes(n, 2), tail);
    Piece(data, offset + 2, e.name, code + more);
    WireRoundTrip(e.value, more);
    Piece(data, offset + 2 + n, code, more);
  }

  lemma Piece(data: Bytes, offset: nat, a: Bytes, b: Bytes)
    requires offset <= |data| && data[offset..] == a + b
    ensures offset + |a| <= |data| && data[offset..offset + |a|] == a && data[offset + |a|..] == b
  {
    assert data[offset..][..|a|] == data[offset..offset + |a|];
    assert data[offset..][|a|..] == data[offset + |a|..];
  }

  lemma {:induction false} EntriesRead(data: Bytes, offset: nat, es: seq<Entry>, more: Bytes, lossy: Bytes -> Bytes,
                                       front: seq<Entry>)
    requires AllFit(es) && KeepsUtf8(lossy)
    requires offset <= |data| && data[offset..] == EntriesBytes(es) + more
    ensures EntriesAt(data, offset, |es|, lossy, front) == Ok(front + es)
    decreases |es|
  {
    hide EntryBytes; hide EntryAt; hide EntryFits; hide KeepsUtf8;
    if es == [] {
      assert front + [] == front;
    } else {
      assert EntriesBytes(es) + more == EntryBytes(es[0]) + (EntriesBytes(es[1..]) + more);
      EntryReads(data, offset, es[0], EntriesBytes(es[1..]) + more, lossy);
      EntriesRead(data, offset + |EntryBytes(es[0])|, es[1..], more, lossy, front + [es[0]]);
      assert front + [es[0]] + es[1..] == front + es;
    }
  }

  /** A snapshot laid out as documented decodes to the entries it was laid out from. */
  lemma SnapshotRoundTrip(es: seq<Entry>, more: Bytes, lossy: Bytes -> Bytes)
    requires Fits(es) && KeepsUtf8(lossy)
    ensures SnapshotOf(Layout(es) + more, lossy) == Ok(es)
  {
    hide LeBytes; hide LeValue; hide EntriesBytes; hide EntriesAt; hide AllFit; hide KeepsUtf8;
    var data := Layout(es) + more;
    WordSizes();
    LeRoundTrip(|es|, 2);
    assert data[..2] == LeBytes(|es|, 2);
    assert data[2..] == EntriesBytes(es) + more;
    EntriesRead(data, 2, es, more, lossy, []);
    assert [] + es == es;
  }
}
