/** The strings that the client accepts are the UTF-8 of some sequence of Unicode scalar values,
    and only those. */
module Utf8 {
  import opened HalValues
  import opened Wire

  predicate Scalar(c: nat) { c < 0xD800 || 0xE000 <= c < 0x11_0000 }

  /** Seven bits in one byte, eleven in two, sixteen in three, twenty-one in four, six of them in
      every byte behind the first. */
  function Utf8Char(c: nat): Bytes
    requires Scalar(c)
  {
    if c < 0x80 then [c]
    else if c < 0x800 then [0xC0 + c / 64, 0x80 + c % 64]
    else if c < 0x1_0000 then [0xE0 + c / 4096, 0x80 + c / 64 % 64, 0x80 + c % 64]
    else [0xF0 + c / 262144, 0x80 + c / 4096 % 64, 0x80 + c / 64 % 64, 0x80 + c % 64]
  }

  predicate Scalars(cs: seq<nat>) { forall i :: 0 <= i < |cs| ==> Scalar(cs[i]) }

  function Text(cs: seq<nat>): Bytes
    requires Scalars(cs)
  {
    if cs == [] then [] else Utf8Char(cs[0]) + Text(cs[1..])
  }

  lemma ShortEncoded(c: nat, more: Bytes)
    requires c < 0x800
    ensures CharSize(Utf8Char(c) + more) == |Utf8Char(c)|
  {
  }

  /** The middle byte of three tells the overlong and the surrogate forms. */
  lemma ThreeEncoded(c: nat, more: Bytes)
    requires Scalar(c) && 0x800 <= c < 0x1_0000
    ensures CharSize(Utf8Char(c) + more) == 3
  {
    var s := Utf8Char(c) + more;
    var a, b := c / 4096, c / 64 % 64;
    assert c / 64 == 64 * a + b;
    assert s[0] == 0xE0 + a && s[1] == 0x80 + b && s[2] == 0x80 + c % 64;
  }

  lemma FourEncoded(c: nat, more: Bytes)
    requires 0x1_0000 <= c < 0x11_0000
    ensures CharSize(Utf8Char(c) + more) == 4
  {
    var s := Utf8Char(c) + more;
    var a, b := c / 262144, c / 4096 % 64;
    assert c / 4096 == 64 * a + b;
    assert s[0] == 0xF0 + a && s[1] == 0x80 + b && s[2] == 0x80 + c / 64 % 64 && s[3] == 0x80 + c % 64;
  }

  lemma CharEncoded(c: nat, more: Bytes)
    requires Scalar(c)
    ensures CharSize(Utf8Char(c) + more) == |Utf8Char(c)| > 0
  {
    if c < 0x800 {
      ShortEncoded(c, more);
    } else if c < 0x1_0000 {
      ThreeEncoded(c, more);
    } else {
      FourEncoded(c, more);
    }
  }

  lemma {:induction false} TextIsValid(cs: seq<nat>)
    requires Scalars(cs)
    ensures ValidUtf8(Text(cs))
  {
    hide CharSize; hide Utf8Char;
    if cs != [] {
      var s, n := Text(cs), |Utf8Char(cs[0])|;
      CharEncoded(cs[0], Text(cs[1..]));
      TextIsValid(cs[1..]);
      assert s[n..] == Text(cs[1..]);
    }
  }

  lemma TwoDecoded(s: Bytes) returns (c: nat)
    requires s != [] && 0 < CharSize(s) <= 2
    ensures Scalar(c) && s[..CharSize(s)] == Utf8Char(c)
  {
    var x: int := s[0];
    if CharSize(s) == 1 { c := x; } else { c := 64 * (x - 0xC0) + (s[1] - 0x80); }
  }

  lemma ThreeDecoded(s: Bytes) returns (c: nat)
    requires s != [] && CharSize(s) == 3
    ensures Scalar(c) && s[..3] == Utf8Char(c)
  {
    var x: int, y: int, z: int := s[0] - 0xE0, s[1] - 0x80, s[2] - 0x80;
    c := 4096 * x + 64 * y + z;
    assert c / 64 == 64 * x + y && c % 64 == z;
    assert c / 4096 == x && c / 64 % 64 == y;
  }

  lemma FourDecoded(s: Bytes) returns (c: nat)
    requires s != [] && CharSize(s) > 3
    ensures CharSize(s) == 4 && Scalar(c) && s[..4] == Utf8Char(c)
  {
    var w: int, x: int, y: int, z: int := s[0] - 0xF0, s[1] - 0x80, s[2] - 0x80, s[3] - 0x80;
    c := 262144 * w + 4096 * x + 64 * y + z;
    assert c / 64 == 4096 * w + 64 * x + y && c % 64 == z;
    assert c / 4096 == 64 * w + x && c / 64 % 64 == y;
    assert c / 262144 == w && c / 4096 % 64 == x;
  }

  lemma CharDecoded(s: Bytes) returns (c: nat)
    requires s != [] && CharSize(s) > 0
    ensures CharSize(s) <= |s| && Scalar(c) && s[..CharSize(s)] == Utf8Char(c)
  {
    if CharSize(s) <= 2 {
      c := TwoDecoded(s);
    } else if CharSize(s) == 3 {
      c := ThreeDecoded(s);
    } else {
      c := FourDecoded(s);
    }
  }

  lemma {:induction false} ValidIsText(s: Bytes) returns (cs: seq<nat>)
    requires ValidUtf8(s)
    ensures Scalars(cs) && Text(cs) == s
    decreases |s|
  {
    hide CharSize; hide Utf8Char; hide Scalar;
    if s == [] {
      cs := [];
    } else {
      var c := CharDecoded(s);
      var n := CharSize(s);
      var rest := ValidIsText(s[n..]);
      cs := [c] + rest;
      assert cs[1..] == rest && s == s[..n] + s[n..];
    }
  }

  /** A byte string is accepted if and only if it is the UTF-8 of some scalar values. */
  lemma Utf8Exactly(s: Bytes)
    ensures ValidUtf8(s) <==> exists cs: seq<nat> :: Scalars(cs) && Text(cs) == s
  {
    if ValidUtf8(s) {
      var cs := ValidIsText(s);
    }
    forall cs: seq<nat> | Scalars(cs) && Text(cs) == s
      ensures ValidUtf8(s)
    {
      TextIsValid(cs);
    }
  }
}
