/** What single instructions of the machine compute, in plain arithmetic and logic. */
module MachineArith {
  import opened HalValues
  import opened Machine

  // ----- comparisons -----

  predicate IsComparison(op: Opcode) { op.Eq? || op.Neq? || op.Gt? || op.Lt? || op.Gte? || op.Lte? }

  /** Integers of one type are compared as numbers. */
  lemma ComparesIntegers(prog: seq<Instruction>, vm: Vm, op: Opcode, a: nat, b: nat, t: IntType, x: int, y: int)
    returns (flag: bool)
    requires IsComparison(op) && a < REGISTER_COUNT && b < REGISTER_COUNT && CodeAt(prog, vm.ip, [Cmp2(op, a, b)])
    requires vm.regs[a] == Int(t, x) && vm.regs[b] == Int(t, y)
    ensures Step(prog, vm) == Next(vm.(flag := flag, ip := vm.ip + 1))
    ensures (op.Eq? ==> flag == (x == y)) && (op.Neq? ==> flag == (x != y))
    ensures (op.Gt? ==> flag == (x > y)) && (op.Lt? ==> flag == (x < y))
    ensures (op.Gte? ==> flag == (x >= y)) && (op.Lte? ==> flag == (x <= y))
  {
    hide Step;
    StepCompare(prog, vm, op, a, b);
    flag := Step(prog, vm).vm.flag;
  }

  lemma ComparesReals(prog: seq<Instruction>, vm: Vm, op: Opcode, a: nat, b: nat, t: FloatType, x: real, y: real)
    returns (flag: bool)
    requires IsComparison(op) && a < REGISTER_COUNT && b < REGISTER_COUNT && CodeAt(prog, vm.ip, [Cmp2(op, a, b)])
    requires vm.regs[a] == Float(t, x) && vm.regs[b] == Float(t, y)
    ensures Step(prog, vm) == Next(vm.(flag := flag, ip := vm.ip + 1))
    ensures (op.Eq? ==> flag == (x == y)) && (op.Neq? ==> flag == (x != y))
    ensures (op.Gt? ==> flag == (x > y)) && (op.Lt? ==> flag == (x < y))
    ensures (op.Gte? ==> flag == (x >= y)) && (op.Lte? ==> flag == (x <= y))
  {
    hide Step;
    StepCompare(prog, vm, op, a, b);
    flag := Step(prog, vm).vm.flag;
  }

  predicate SameNumberType(a: HalValue, b: HalValue) {
    (a.Int? && b.Int? && a.ity == b.ity) || (a.Float? && b.Float? && a.fty == b.fty)
  }

  /** Anything else, numbers of two types or no numbers, has no order, not even with itself;
      equality is that of the values. */
  lemma ComparesOthers(prog: seq<Instruction>, vm: Vm, op: Opcode, a: nat, b: nat)
    returns (flag: bool)
    requires IsComparison(op) && a < REGISTER_COUNT && b < REGISTER_COUNT && CodeAt(prog, vm.ip, [Cmp2(op, a, b)])
    requires !SameNumberType(vm.regs[a], vm.regs[b])
    ensures Step(prog, vm) == Next(vm.(flag := flag, ip := vm.ip + 1))
    ensures (op.Eq? ==> flag == (vm.regs[a] == vm.regs[b]))
    ensures (op.Neq? ==> flag == (vm.regs[a] != vm.regs[b]))
    ensures (op.Gt? || op.Lt? || op.Gte? || op.Lte? ==> !flag)
  {
    hide Step;
    StepCompare(prog, vm, op, a, b);
    flag := Step(prog, vm).vm.flag;
  }

  // ----- arithmetic -----

  /** The eight integer types. */
  lemma Ranges(n: int)
    ensures (InRange(I8, n) <==> -128 <= n <= 127) && (InRange(U8, n) <==> 0 <= n <= 255)
    ensures (InRange(I16, n) <==> -32768 <= n <= 32767) && (InRange(U16, n) <==> 0 <= n <= 65535)
    ensures InRange(I32, n) <==> -2147483648 <= n <= 2147483647
    ensures InRange(U32, n) <==> 0 <= n <= 4294967295
    ensures InRange(I64, n) <==> -9223372036854775808 <= n <= 9223372036854775807
    ensures InRange(U64, n) <==> 0 <= n <= 18446744073709551615
  {
  }


  predicate IsArithmetic(op: Opcode) { op.Add? || op.Sub? || op.Mul? || op.Div? || op.Mod? }

  /** q and r are quotient and remainder, truncated toward zero: the remainder is smaller than
      the divisor and has the dividend's sign. */
  predicate Divides(x: int, y: int, q: int, r: int) {
    x == y * q + r && Magnitude(r) < Magnitude(y) && (r != 0 ==> (r < 0) == (x < 0))
  }

  lemma TruncatedDivision(x: int, y: int)
    requires y != 0
    ensures Divides(x, y, TruncDiv(x, y), TruncRem(x, y))
  {
    TruncRemIs(x, y);
    assert TruncRem(x, y) == x - y * TruncDiv(x, y);
  }

  /** Integers of one type: sums, differences and products wrap; a quotient or remainder
      truncates, and only that of the least number by -1 panics. */
  lemma ComputesIntegers(prog: seq<Instruction>, vm: Vm, op: Opcode, a: nat, b: nat, out: nat, x: int, y: int)
    requires IsArithmetic(op) && a < REGISTER_COUNT && b < REGISTER_COUNT && out < REGISTER_COUNT
    requires CodeAt(prog, vm.ip, [Arith3(op, a, b, out)]) && vm.regs[a] == S32(x) && vm.regs[b] == S32(y)
    requires InRange(I32, x) && InRange(I32, y)
    ensures var after := Step(prog, vm);
            && (after.Panic? <==> (op.Div? || op.Mod?) && x == -0x8000_0000 && y == -1)
            && (!after.Panic? ==>
                  && after.Next? && after.vm.regs[out].Int? && after.vm.regs[out].ity == I32
                  && after.vm == vm.(regs := vm.regs[out := after.vm.regs[out]], ip := vm.ip + 1)
                  && var n := after.vm.regs[out].n;
                  && (op.Add? ==> n == Wrap(I32, x + y)) && (op.Sub? ==> n == Wrap(I32, x - y))
                  && (op.Mul? ==> n == Wrap(I32, x * y))
                  && ((op.Div? || op.Mod?) && y == 0 ==> n == 0)
                  && (op.Div? && y != 0 ==> exists r :: Divides(x, y, n, r))
                  && (op.Mod? && y != 0 ==> exists q :: Divides(x, y, q, n)))
  {
    hide Step; hide Wrap; hide TruncDiv; hide TruncRem; hide Divides; hide Times;
    StepArith(prog, vm, op, a, b, out);
    if y != 0 && !(x == -0x8000_0000 && y == -1) {
      TruncatedDivision(x, y);
      QuotientInRange(x, y);
      RemainderInRange(x, y);
    }
  }

  lemma RemainderInRange(x: int, y: int)
    requires InRange(I32, x) && InRange(I32, y) && y != 0
    ensures InRange(I32, TruncRem(x, y))
  {
    TruncRemIs(x, y);
    TruncatedDivision(x, y);
    hide TruncRem;
  }

  /** A pair of quotient and remainder is the only one. */
  lemma OneDivision(x: int, y: int, q: int, r: int)
    requires y != 0 && Divides(x, y, q, r)
    ensures q == TruncDiv(x, y) && r == TruncRem(x, y)
  {
    TruncatedDivision(x, y);
    var p, s := TruncDiv(x, y), TruncRem(x, y);
    assert y * (q - p) == s - r;
    hide TruncDiv; hide TruncRem;
    if q > p {
      Far(y, q - p);
    } else if q < p {
      assert y * (p - q) == r - s;
      Far(y, p - q);
    }
  }

  lemma Far(y: int, d: int)
    requires d >= 1
    ensures Magnitude(y * d) >= Magnitude(y)
  {
    assert y >= 0 ==> y * d >= y;
    assert y < 0 ==> y * d <= y;
  }

  lemma ComputesReals(prog: seq<Instruction>, vm: Vm, op: Opcode, a: nat, b: nat, out: nat, t: FloatType, x: real,
                      y: real)
    requires (op.Add? || op.Sub? || op.Mul? || op.Div?) && a < REGISTER_COUNT && b < REGISTER_COUNT
    requires CodeAt(prog, vm.ip, [Arith3(op, a, b, out)]) && out < REGISTER_COUNT
    requires vm.regs[a] == Float(t, x) && vm.regs[b] == Float(t, y)
    ensures var z := if op.Add? then Float(t, x + y) else if op.Sub? then Float(t, x - y)
                     else if op.Mul? then Float(t, x * y) else if y == 0.0 then S32(0) else Float(t, x / y);
            Step(prog, vm) == Next(vm.(regs := vm.regs[out := z], ip := vm.ip + 1))
  {
    hide Step;
    StepArith(prog, vm, op, a, b, out);
  }

  // ----- logic -----

  /** Booleans. */
  lemma ComputesBooleans(prog: seq<Instruction>, vm: Vm, op: Opcode, a: nat, b: nat, out: nat, x: bool, y: bool)
    requires (op.And? || op.Or? || op.Xor? || op.Not?) && a < REGISTER_COUNT && b < REGISTER_COUNT
    requires out < REGISTER_COUNT && vm.regs[a] == Bool(x) && vm.regs[b] == Bool(y)
    requires op.Not? ==> CodeAt(prog, vm.ip, [NotReg(a, out)])
    requires !op.Not? ==> CodeAt(prog, vm.ip, [Arith3(op, a, b, out)])
    ensures var z := if op.And? then x && y else if op.Or? then x || y else if op.Xor? then x != y else !x;
            Step(prog, vm) == Next(vm.(regs := vm.regs[out := Bool(z)], ip := vm.ip + 1))
  {
    hide Step;
    if op.Not? { StepNot(prog, vm, a, out); } else { StepBits(prog, vm, op, a, b, out); }
  }

  function Pow2(k: nat): nat { if k == 0 then 1 else 2 * Pow2(k - 1) }

  /** Bit `i` of a number, counted from the lowest. */
  predicate Bit(n: nat, i: nat) { if i == 0 then n % 2 == 1 else Bit(n / 2, i - 1) }

  lemma {:induction false} BitByBit(op: BitOp, a: nat, b: nat, k: nat, i: nat)
    requires i < k
    ensures Bit(BitwiseNat(op, a, b, k), i) ==
            match op case AndOp => Bit(a, i) && Bit(b, i) case OrOp => Bit(a, i) || Bit(b, i)
                     case XorOp => Bit(a, i) != Bit(b, i)
    decreases k
  {
    var low, rest := if BoolOp(op, a % 2 == 1, b % 2 == 1) then 1 else 0, BitwiseNat(op, a / 2, b / 2, k - 1);
    assert BitwiseNat(op, a, b, k) == low + 2 * rest;
    assert (low + 2 * rest) / 2 == rest && (low + 2 * rest) % 2 == low;
    if i > 0 { BitByBit(op, a / 2, b / 2, k - 1, i - 1); }
  }

  lemma {:induction false} BitwiseFits(op: BitOp, a: nat, b: nat, k: nat)
    ensures BitwiseNat(op, a, b, k) < Pow2(k)
    decreases k
  {
    if k > 0 { BitwiseFits(op, a / 2, b / 2, k - 1); }
  }

  lemma WidthsArePowers(t: IntType)
    ensures RangeSize(t) == Pow2(Bits(t))
  {
    assert Pow2(8) == 0x100;
    assert Pow2(16) == 0x100 * Pow2(8) by {
      assert Pow2(12) == 16 * Pow2(8);
    }
    assert Pow2(24) == 0x100 * Pow2(16) by { assert Pow2(20) == 16 * Pow2(16); }
    assert Pow2(32) == 0x100 * Pow2(24) by { assert Pow2(28) == 16 * Pow2(24); }
    assert Pow2(40) == 0x100 * Pow2(32) by { assert Pow2(36) == 16 * Pow2(32); }
    assert Pow2(48) == 0x100 * Pow2(40) by { assert Pow2(44) == 16 * Pow2(40); }
    assert Pow2(56) == 0x100 * Pow2(48) by { assert Pow2(52) == 16 * Pow2(48); }
    assert Pow2(64) == 0x100 * Pow2(56) by { assert Pow2(60) == 16 * Pow2(56); }
  }

  lemma UnsignedIs(t: IntType, n: int)
    ensures Unsigned(t, n) == n % RangeSize(t)
  {
  }

  lemma WrapKeepsBits(t: IntType, n: nat)
    requires n < RangeSize(t)
    ensures Unsigned(t, Wrap(t, n)) == n
  {
    var k := WrapCongruent(t, n);
    UnsignedIs(t, Wrap(t, n));
    hide *;
    WholeRanges(Wrap(t, n), n, k, RangeSize(t));
  }

  lemma WholeRanges(w: int, n: nat, k: int, m: nat)
    requires n < m && w == n + k * m
    ensures w % m == n
  {
    QuotientIs(w, m, k, n);
  }

  /** Integers of one type are combined bit by bit, on two's complement words of their width. */
  lemma IntegersBitByBit(op: BitOp, t: IntType, x: int, y: int, i: nat)
    requires i < Bits(t)
    ensures var z := Bitwise(op, Int(t, x), Int(t, y));
            && z.Int? && z.ity == t && InRange(t, z.n)
            && var p, q := Bit(Unsigned(t, x), i), Bit(Unsigned(t, y), i);
               Bit(Unsigned(t, z.n), i) == match op case AndOp => p && q case OrOp => p || q case XorOp => p != q
  {
    hide Wrap; hide Bits; hide Unsigned; hide Bit;
    var a, b := Unsigned(t, x), Unsigned(t, y);
    BitByBit(op, a, b, Bits(t), i);
    BitwiseFits(op, a, b, Bits(t));
    WidthsArePowers(t);
    WrapKeepsBits(t, BitwiseNat(op, a, b, Bits(t)));
  }

  lemma {:induction false} Complement(n: nat, m: nat, k: nat, i: nat)
    requires n + m + 1 == Pow2(k) && i < k
    ensures Bit(m, i) == !Bit(n, i)
    decreases k
  {
    assert Pow2(k) == 2 * Pow2(k - 1);
    if i > 0 {
      assert n / 2 + m / 2 + 1 == Pow2(k - 1);
      Complement(n / 2, m / 2, k - 1, i - 1);
    }
  }

  /** NOT of an integer flips every bit. */
  lemma NotFlipsBits(t: IntType, x: int, i: nat)
    requires InRange(t, x) && i < Bits(t)
    ensures var z := BitNot(Int(t, x));
            z.Int? && z.ity == t && InRange(t, z.n) && Bit(Unsigned(t, z.n), i) == !Bit(Unsigned(t, x), i)
  {
    hide Bits; hide Bit;
    var z, m := BitNot(Int(t, x)).n, RangeSize(t);
    WidthsArePowers(t);
    if x < 0 { QuotientIs(x, m, -1, x + m); } else { QuotientIs(x, m, 0, x); }
    if z < 0 { QuotientIs(z, m, -1, z + m); } else { QuotientIs(z, m, 0, z); }
    Complement(Unsigned(t, x), Unsigned(t, z), Bits(t), i);
  }

  // ----- signs, signals and returns -----

  lemma Negates(prog: seq<Instruction>, vm: Vm, src: nat, dest: nat)
    requires CodeAt(prog, vm.ip, [Instruction(Neg, [Register(src), Register(dest)])])
    requires src < REGISTER_COUNT && dest < REGISTER_COUNT
    ensures var v, w := vm.regs[src], if Step(prog, vm).Next? then Step(prog, vm).vm.regs[dest] else S32(0);
            && Step(prog, vm) == Next(vm.(regs := vm.regs[dest := w], ip := vm.ip + 1))
            && (v.Float? ==> w == Float(v.fty, 0.0 - v.r))
            && (v.Int? && v.ity in {I8, I16, I32, I64} ==> w == Int(v.ity, Wrap(v.ity, 0 - v.n)))
            && (v.Int? && v.ity in {U8, U16, U32, U64} ==> w == S32(0))
            && (!v.Int? && !v.Float? ==> w == S32(0))
  {
    hide Wrap;
    assert prog[vm.ip] == prog[vm.ip..vm.ip + 1][0];
  }

  /** A signal that nobody has published reads as FALSE. */
  lemma UnpublishedIsFalse(prog: seq<Instruction>, vm: Vm, dest: nat, name: string)
    requires CodeAt(prog, vm.ip, [LoadSig(dest, name)]) && dest < REGISTER_COUNT
    ensures var v := if name in vm.signals then vm.signals[name] else Bool(false);
            Step(prog, vm) == Next(vm.(regs := vm.regs[dest := v], ip := vm.ip + 1))
  {
    hide Step;
    StepLoadSig(prog, vm, dest, name);
  }

  /** A return that names a register copies it to register 0, and goes on one behind the address
      on the call stack. */
  lemma ReturnsValue(prog: seq<Instruction>, vm: Vm, r: nat, stack: seq<nat>, back: nat)
    requires CodeAt(prog, vm.ip, [Instruction(Ret, [Register(r)])]) && r < REGISTER_COUNT
    requires vm.callStack == stack + [back]
    ensures Step(prog, vm) == Next(vm.(regs := vm.regs[0 := vm.regs[r]], callStack := stack, ip := back + 1))
  {
    assert prog[vm.ip] == prog[vm.ip..vm.ip + 1][0];
    assert vm.callStack[..|vm.callStack| - 1] == stack;
  }
}
