/** The value domain shared by every compiler and by the register VM.
    Integers carry their IEC width and wrap around as in a release build;
    REAL and LREAL are modelled by `real`. */
module HalValues {

  datatype Option<+T> = None | Some(value: T)

  datatype IntType = I8 | U8 | I16 | U16 | I32 | U32 | I64 | U64

  datatype FloatType = F32 | F64

  datatype HalValue =
    | Bool(b: bool)
    | Int(ity: IntType, n: int)
    | Float(fty: FloatType, r: real)
    | Blob(bytes: seq<int>)
    | Str(text: string)

  function S32(n: int): HalValue { Int(I32, n) }

  function IntU32(n: int): HalValue { Int(U32, n) }

  function IntMin(t: IntType): int {
    match t
    case I8 => -0x80
    case I16 => -0x8000
    case I32 => -0x8000_0000
    case I64 => -0x8000_0000_0000_0000
    case _ => 0
  }

  function IntMax(t: IntType): int {
    match t
    case I8 => 0x7F
    case U8 => 0xFF
    case I16 => 0x7FFF
    case U16 => 0xFFFF
    case I32 => 0x7FFF_FFFF
    case U32 => 0xFFFF_FFFF
    case I64 => 0x7FFF_FFFF_FFFF_FFFF
    case U64 => 0xFFFF_FFFF_FFFF_FFFF
  }

  predicate InRange(t: IntType, n: int) {
    IntMin(t) <= n <= IntMax(t)
  }

  function RangeSize(t: IntType): (m: nat)
    ensures m > 0
  {
    IntMax(t) - IntMin(t) + 1
  }

  /** Two's-complement wrap-around into the range of `t`. */
  function Wrap(t: IntType, n: int): (r: int)
    ensures InRange(t, r)
    ensures InRange(t, n) ==> r == n
  {
    (n - IntMin(t)) % RangeSize(t) + IntMin(t)
  }

  /** Wrapping adds or takes away whole ranges. */
  lemma WrapCongruent(t: IntType, n: int) returns (k: int)
    ensures Wrap(t, n) == n + k * RangeSize(t)
  {
    var m, x := RangeSize(t), n - IntMin(t);
    k := -(x / m);
    assert x == m * (x / m) + x % m;
  }

  /** Rust's `/` truncates toward zero; Dafny's is Euclidean. */
  function TruncDiv(a: int, b: int): (q: int)
    requires b != 0
  {
    var m := (if a < 0 then -a else a) / (if b < 0 then -b else b);
    if (a < 0) == (b < 0) then m else -m
  }

  function TruncRem(a: int, b: int): int
    requires b != 0
  {
    a - b * TruncDiv(a, b)
  }

  function RealTrunc(x: real): int {
    if x < 0.0 then -((-x).Floor) else x.Floor
  }

  function Times(x: real, y: real): real { x * y }

  datatype ArithOp = AddOp | SubOp | MulOp | DivOp | ModOp

  predicate IsZeroDivisor(v: HalValue) {
    v == S32(0) || (v.Float? && v.r == 0.0)
  }

  /** One arithmetic instruction. `None` is a run-time panic: an integer divisor
      of zero other than S32(0), or the quotient of the least signed value and -1. */
  function Arith(op: ArithOp, a: HalValue, b: HalValue): Option<HalValue> {
    if (op.DivOp? || op.ModOp?) && IsZeroDivisor(b) then Some(S32(0))
    else if a.Int? && b.Int? && a.ity == b.ity then
      match op
      case AddOp => Some(Int(a.ity, Wrap(a.ity, a.n + b.n)))
      case SubOp => Some(Int(a.ity, Wrap(a.ity, a.n - b.n)))
      case MulOp => Some(Int(a.ity, Wrap(a.ity, a.n * b.n)))
      case DivOp =>
        if b.n == 0 || (IntMin(a.ity) < 0 && a.n == IntMin(a.ity) && b.n == -1) then None
        else Some(Int(a.ity, Wrap(a.ity, TruncDiv(a.n, b.n))))
      case ModOp =>
        if b.n == 0 || (IntMin(a.ity) < 0 && a.n == IntMin(a.ity) && b.n == -1) then None
        else Some(Int(a.ity, Wrap(a.ity, TruncRem(a.n, b.n))))
    else if a.Float? && b.Float? && a.fty == b.fty then
      match op
      case AddOp => Some(Float(a.fty, a.r + b.r))
      case SubOp => Some(Float(a.fty, a.r - b.r))
      case MulOp => Some(Float(a.fty, Times(a.r, b.r)))
      case DivOp => Some(Float(a.fty, a.r / b.r))
      case ModOp => Some(Float(a.fty, a.r - b.r * (RealTrunc(a.r / b.r) as real)))
    else Some(S32(0))
  }

  function Negate(a: HalValue): HalValue {
    match a
    case Int(t, n) => if IntMin(t) < 0 then Int(t, Wrap(t, -n)) else S32(0)
    case Float(t, r) => Float(t, -r)
    case _ => S32(0)
  }

  datatype BitOp = AndOp | OrOp | XorOp

  function BoolOp(op: BitOp, a: bool, b: bool): bool {
    match op
    case AndOp => a && b
    case OrOp => a || b
    case XorOp => a != b
  }

  function Bits(t: IntType): nat {
    match t
    case I8 => 8 case U8 => 8 case I16 => 16 case U16 => 16
    case I32 => 32 case U32 => 32 case I64 => 64 case U64 => 64
  }

  /** Bit-by-bit combination of the low `k` bits of two unsigned words. */
  function BitwiseNat(op: BitOp, a: nat, b: nat, k: nat): nat
    decreases k
  {
    if k == 0 then 0
    else (if BoolOp(op, a % 2 == 1, b % 2 == 1) then 1 else 0) + 2 * BitwiseNat(op, a / 2, b / 2, k - 1)
  }

  function Unsigned(t: IntType, n: int): nat {
    n % (IntMax(t) - IntMin(t) + 1)
  }

  function Bitwise(op: BitOp, a: HalValue, b: HalValue): HalValue {
    if a.Bool? && b.Bool? then Bool(BoolOp(op, a.b, b.b))
    else if a.Int? && b.Int? && a.ity == b.ity then
      Int(a.ity, Wrap(a.ity, BitwiseNat(op, Unsigned(a.ity, a.n), Unsigned(a.ity, b.n), Bits(a.ity))))
    else S32(0)
  }

  function BitNot(a: HalValue): HalValue {
    match a
    case Bool(b) => Bool(!b)
    case Int(t, n) => Int(t, if IntMin(t) < 0 then -n - 1 else IntMax(t) - n)
    case _ => S32(0)
  }

  datatype CmpOp = EqOp | NeqOp | GtOp | LtOp | GteOp | LteOp

  /** Equality is structural; ordering holds only between numbers of one type. */
  predicate Compare(op: CmpOp, a: HalValue, b: HalValue) {
    match op
    case EqOp => a == b
    case NeqOp => a != b
    case GtOp => Less(b, a)
    case LtOp => Less(a, b)
    case GteOp => Less(b, a) || (Ordered(a, b) && a == b)
    case LteOp => Less(a, b) || (Ordered(a, b) && a == b)
  }

  predicate Ordered(a: HalValue, b: HalValue) {
    || (a.Int? && b.Int? && a.ity == b.ity)
    || (a.Float? && b.Float? && a.fty == b.fty)
  }

  predicate Less(a: HalValue, b: HalValue) {
    || (a.Int? && b.Int? && a.ity == b.ity && a.n < b.n)
    || (a.Float? && b.Float? && a.fty == b.fty && a.r < b.r)
  }

  /** The DINT values: what every register of a DINT variable holds. */
  predicate IsDint(v: HalValue) {
    v.Int? && v.ity == I32 && InRange(I32, v.n)
  }

  lemma ArithKeepsDint(op: ArithOp, a: HalValue, b: HalValue)
    requires IsDint(a) && IsDint(b)
    ensures Arith(op, a, b).Some? ==> IsDint(Arith(op, a, b).value)
    ensures Arith(op, a, b).None? <==> (op.DivOp? || op.ModOp?) && a.n == IntMin(I32) && b.n == -1
  {
  }

  lemma IntegerSums(t: IntType, x: int, y: int)
    ensures Arith(AddOp, Int(t, x), Int(t, y)) == Some(Int(t, Wrap(t, x + y)))
    ensures Arith(SubOp, Int(t, x), Int(t, y)) == Some(Int(t, Wrap(t, x - y)))
  {
    hide Wrap; hide Times;
  }

  lemma IntegerProduct(t: IntType, x: int, y: int)
    ensures Arith(MulOp, Int(t, x), Int(t, y)) == Some(Int(t, Wrap(t, x * y)))
  {
    hide Wrap; hide Times;
  }

  /** Loading a zero and adding a DINT to it copies the DINT. */
  lemma AddZeroCopies(v: HalValue)
    requires IsDint(v)
    ensures Arith(AddOp, v, S32(0)) == Some(v)
    ensures Arith(SubOp, S32(0), v) == Some(Negate(v))
    ensures IsDint(Negate(v))
  {
    hide Arith;
    IntegerSums(I32, v.n, 0);
    IntegerSums(I32, 0, v.n);
  }

  // ----- congruence -----

  predicate Number(v: HalValue) { v.Int? && InRange(v.ity, v.n) }

  lemma QuotientIs(z: int, m: int, q: int, r: int)
    requires m > 0 && z == m * q + r && 0 <= r < m
    ensures z % m == r
  {
    var d := q - z / m;
    assert m * q == m * (z / m) + m * d;
    AtLeastOne(m, d);
  }

  lemma AtLeastOne(m: int, d: int)
    requires m > 0
    ensures d >= 1 ==> m * d >= m
    ensures d <= -1 ==> m * d <= -m
  {
  }

  lemma SameRemainder(a: int, b: int, m: int)
    requires m > 0
    ensures a % m == b % m <==> (a - b) % m == 0
  {
    var p, q := a / m, b / m;
    assert m * p - m * q == m * (p - q);
    if a % m >= b % m {
      QuotientIs(a - b, m, p - q, a % m - b % m);
    } else {
      assert m * (p - q) == m * (p - q - 1) + m;
      QuotientIs(a - b, m, p - q - 1, a % m - b % m + m);
    }
  }

  /** Differences that wrapping does not see. */
  lemma WrapSame(t: IntType, x: int, y: int)
    ensures Wrap(t, x) == Wrap(t, y) <==> (x - y) % RangeSize(t) == 0
  {
    hide RangeSize; hide IntMin;
    SameRemainder(x - IntMin(t), y - IntMin(t), RangeSize(t));
  }

  lemma SmallDifference(t: IntType, x: int, y: int)
    requires InRange(t, x) && InRange(t, y)
    ensures (x - y) % RangeSize(t) == 0 <==> x == y
    ensures (y - x) % RangeSize(t) == 0 <==> x == y
  {
    var m := RangeSize(t);
    assert -m < x - y < m;
  }

  // ----- truncating division -----

  function Magnitude(n: int): nat { if n < 0 then -n else n }

  lemma OwnQuotient(c: int)
    requires c != 0
    ensures TruncDiv(c, c) == 1
  {
    SmallQuotients(Magnitude(c), Magnitude(c));
  }

  lemma SmallQuotients(a: nat, b: nat)
    requires a <= b && b > 0
    ensures a / b == if a == b then 1 else 0
  {
    if a < b { assert a / b == 0; }
  }

  lemma SmallQuotient(c: int, d: int)
    requires c != 0 && c != d && Magnitude(c) <= Magnitude(d)
    ensures TruncDiv(c, d) == if c == -d then -1 else 0
  {
    SmallQuotients(Magnitude(c), Magnitude(d));
    hide *;
    TruncDivIs(c, d);
  }

  lemma TruncDivIs(a: int, b: int)
    requires b != 0
    ensures TruncDiv(a, b) == if (a < 0) == (b < 0) then Magnitude(a) / Magnitude(b) else -(Magnitude(a) / Magnitude(b))
  {
  }

  lemma UnitQuotient(a: int, b: int)
    requires b != 0
    ensures TruncDiv(a, b) == 1 <==> (a < 0) == (b < 0) && Magnitude(b) <= Magnitude(a) < 2 * Magnitude(b)
  {
    var m, n := Magnitude(a), Magnitude(b);
    var q := m / n;
    assert m == n * q + m % n;
    assert q >= 2 ==> n * q >= 2 * n;
    hide *;
    TruncDivIs(a, b);
  }

  lemma NatQuotient(m: nat, n: nat)
    requires n > 0
    ensures m / n <= m && (n == 1 ==> m / n == m) && (n > 1 && m > 0 ==> m / n < m)
  {
    var q := m / n;
    assert m == n * q + m % n;
    AtLeastOne(q + 1, n - 1);
    assert (q + 1) * (n - 1) == n * q + n - q - 1;
  }

  /** Quotients of DINTs are DINTs but for the overflow. */
  lemma QuotientInRange(a: int, b: int)
    requires InRange(I32, a) && InRange(I32, b) && b != 0 && !(a == IntMin(I32) && b == -1)
    ensures InRange(I32, TruncDiv(a, b))
  {
    NatQuotient(Magnitude(a), Magnitude(b));
    TruncDivIs(a, b);
    hide TruncDiv;
  }

  lemma ZeroQuotient(b: int)
    requires b != 0
    ensures TruncDiv(0, b) == 0
  {
  }

  lemma NatRemainder(m: nat, n: nat)
    requires n > 0
    ensures m - n * (m / n) == m % n <= m
  {
    var q := m / n;
    assert m == n * q + m % n;
    assert n * q >= 0;
  }

  lemma SignedProduct(b: int, q: int)
    ensures b * q == (if b < 0 then -(Magnitude(b) * q) else Magnitude(b) * q)
    ensures b * (-q) == -(b * q)
  {
  }

  /** A remainder has the sign of the dividend and is no larger. */
  lemma TruncRemIs(a: int, b: int)
    requires b != 0
    ensures TruncRem(a, b) == if a < 0 then -(Magnitude(a) % Magnitude(b)) else Magnitude(a) % Magnitude(b)
    ensures Magnitude(TruncRem(a, b)) <= Magnitude(a)
  {
    NatRemainder(Magnitude(a), Magnitude(b));
    SignedProduct(b, Magnitude(a) / Magnitude(b));
    TruncDivIs(a, b);
    hide TruncDiv;
  }
}
