/** Blocking restoring divider (rtl/core/div_unit.sv).  Registers are 32-bit
    unsigned values kept as integers, so every truncation is written out. */
module DivUnit {
  import opened Rv32Types

  datatype DivPhase = DivIdle | DivRun | DivResp

  datatype DivState = DivState(
    phase: DivPhase, op: MduOp, divisor: Word, quotient: Word, remainder: Word,
    iter: nat, quotientNeg: bool, remainderNeg: bool, result: Word)

  const DIV_RESET := DivState(DivIdle, MduNone, 0, 0, 0, 0, false, false, 0)

  datatype DivIn = DivIn(rst: bool, kill: bool, reqValid: bool, op: MduOp, lhs: Word, rhs: Word, rspReady: bool)

  function Low32(x: nat): Word { x % TWO32 }
  function Sub32(a: Word, b: Word): Word { (a - b) % TWO32 }

  /** The 33-bit remainder after shifting in the top dividend bit. */
  function ShiftIn(r: Word, q: Word): nat { 2 * r + q / TWO31 }

  /** Bit 0 of a value just shifted left is clear, so setting it adds one. */
  function SetBit0(x: Word): Word { x - x % 2 + 1 }
  function Negate32(a: Word): Word { (TWO32 - a) % TWO32 }

  predicate SignedOp(op: MduOp) { op.MduDiv? || op.MduRem? }
  predicate QuotientOp(op: MduOp) { op.MduDiv? || op.MduDivu? }

  function Magnitude(op: MduOp, a: Word): Word {
    if SignedOp(op) && a >= TWO31 then Negate32(a) else a
  }

  predicate SignedOverflow(op: MduOp, a: Word, b: Word) {
    SignedOp(op) && a == TWO31 && b == TWO32 - 1
  }

  /** One restoring step: (quotient, remainder) after shifting in one dividend bit. */
  function StepQR(q: Word, r: Word, d: Word): (Word, Word) {
    var shifted := ShiftIn(r, q);
    if shifted >= d then (SetBit0(Low32(2 * q)), Sub32(Low32(shifted), d))
    else (Low32(2 * q), Low32(shifted))
  }

  /** Result of a request that completes without iterating, if it is one. */
  function Shortcut(op: MduOp, a: Word, b: Word): Option<Word> {
    if b == 0 then Some(if QuotientOp(op) then TWO32 - 1 else a)
    else if SignedOverflow(op, a, b) then Some(if QuotientOp(op) then TWO31 else 0)
    else if Magnitude(op, a) < Magnitude(op, b) then Some(if QuotientOp(op) then 0 else a)
    else None
  }

  function Launch(op: MduOp, a: Word, b: Word, old_result: Word): DivState {
    match Shortcut(op, a, b)
    case Some(v) => DivState(DivResp, op, 0, 0, 0, 0, false, false, v)
    case None => DivState(DivRun, op, Magnitude(op, b), Magnitude(op, a), 0, 0,
                          SignedOp(op) && (a >= TWO31) != (b >= TWO31), SignedOp(op) && a >= TWO31, old_result)
  }

  function RunStep(s: DivState): DivState {
    var (q, r) := StepQR(s.quotient, s.remainder, s.divisor);
    if s.iter == 31 then
      s.(quotient := q, remainder := r, phase := DivResp,
         result := if QuotientOp(s.op) then (if s.quotientNeg then Negate32(q) else q)
                   else (if s.remainderNeg then Negate32(r) else r))
    else s.(quotient := q, remainder := r, iter := s.iter + 1)
  }

  function DivNext(s: DivState, i: DivIn): DivState {
    if i.rst || i.kill then DIV_RESET
    else match s.phase
      case DivIdle => if i.reqValid then Launch(i.op, i.lhs, i.rhs, s.result) else s
      case DivRun => RunStep(s)
      case DivResp => if i.rspReady then s.(phase := DivIdle) else s
  }

  /** The divider as registers updated at each clock edge. */
  class Divider {
    var phase: DivPhase
    var op: MduOp
    var divisor: Word
    var quotient: Word
    var remainder: Word
    var iter: nat
    var quotientNeg: bool
    var remainderNeg: bool
    var result: Word

    function State(): DivState
      reads this
    {
      DivState(phase, op, divisor, quotient, remainder, iter, quotientNeg, remainderNeg, result)
    }

    constructor ()
      ensures State() == DIV_RESET
    {
      phase, op, divisor, quotient, remainder := DivIdle, MduNone, 0, 0, 0;
      iter, quotientNeg, remainderNeg, result := 0, false, false, 0;
    }

    method Tick(i: DivIn)
      modifies this
      ensures State() == DivNext(old(State()), i)
    {
      hide Launch, RunStep;
      if i.rst || i.kill {
        phase, op, divisor, quotient, remainder := DivIdle, MduNone, 0, 0, 0;
        iter, quotientNeg, remainderNeg, result := 0, false, false, 0;
        return;
      }
      match phase {
        case DivIdle =>
          if i.reqValid {
            Accept(i.op, i.lhs, i.rhs);
          }
        case DivRun =>
          Iterate();
        case DivResp =>
          if i.rspReady {
            phase := DivIdle;
          }
      }
    }

    method Accept(newOp: MduOp, lhs: Word, rhs: Word)
      modifies this
      ensures State() == Launch(newOp, lhs, rhs, old(result))
    {
      hide Magnitude, SignedOp, QuotientOp;
      var signed, isDiv := SignedOp(newOp), QuotientOp(newOp);
      var lhsMag, rhsMag := Magnitude(newOp, lhs), Magnitude(newOp, rhs);
      op, divisor, quotient, remainder, iter := newOp, 0, 0, 0, 0;
      quotientNeg, remainderNeg := false, false;
      if rhs == 0 {
        result, phase := if isDiv then TWO32 - 1 else lhs, DivResp;
      } else if signed && lhs == TWO31 && rhs == TWO32 - 1 {
        result, phase := if isDiv then TWO31 else 0, DivResp;
      } else if lhsMag < rhsMag {
        result, phase := if isDiv then 0 else lhs, DivResp;
      } else {
        divisor, quotient := rhsMag, lhsMag;
        quotientNeg := signed && (lhs >= TWO31) != (rhs >= TWO31);
        remainderNeg := signed && lhs >= TWO31;
        phase := DivRun;
      }
    }

    method Iterate()
      modifies this
      ensures State() == RunStep(old(State()))
    {
      hide Low32, ShiftIn, SetBit0, Sub32, Negate32;
      var shifted := ShiftIn(remainder, quotient);
      var remainderNext := Low32(shifted);
      var quotientNext := Low32(2 * quotient);
      if shifted >= divisor {
        remainderNext := Sub32(Low32(shifted), divisor);
        quotientNext := SetBit0(quotientNext);
      }
      quotient, remainder := quotientNext, remainderNext;
      if iter == 31 {
        if QuotientOp(op) {
          result := if quotientNeg then Negate32(quotientNext) else quotientNext;
        } else {
          result := if remainderNeg then Negate32(remainderNext) else remainderNext;
        }
        phase := DivResp;
      } else {
        iter := iter + 1;
      }
    }
  }

  // ----- the instruction-set meaning of the four operations

  function Signed(a: Word): int { if a >= TWO31 then a - TWO32 else a }

  /** Operand value the instruction divides: signed or unsigned. */
  function Operand(op: MduOp, a: Word): int {
    if SignedOp(op) then Signed(a) else a
  }

  function Abs(x: int): nat { if x < 0 then -x else x }

  /** Division rounding toward zero. */
  function TruncQuot(x: int, y: int): int
    requires y != 0
  {
    if (x < 0) == (y < 0) then Abs(x) / Abs(y) else -(Abs(x) / Abs(y))
  }

  function TruncRem(x: int, y: int): int
    requires y != 0
  {
    x - TruncQuot(x, y) * y
  }

  /** RISC-V unprivileged ISA, section 7.2, including its two special cases. */
  function IsaDiv(op: MduOp, a: Word, b: Word): Word {
    if b == 0 then (if QuotientOp(op) then TWO32 - 1 else a)
    else (if QuotientOp(op) then TruncQuot(Operand(op, a), Operand(op, b))
          else TruncRem(Operand(op, a), Operand(op, b))) % TWO32
  }

  /** Section 7.2 characterises the pair: dividend = quotient * divisor + remainder,
      the remainder is smaller than the divisor and has the sign of the dividend. */
  lemma TruncCharacterised(x: int, y: int)
    requires y != 0
    ensures x == TruncQuot(x, y) * y + TruncRem(x, y)
    ensures Abs(TruncRem(x, y)) < Abs(y)
    ensures TruncRem(x, y) == 0 || (TruncRem(x, y) < 0 <==> x < 0)
  {
    var q, m := Abs(x) / Abs(y), Abs(x) % Abs(y);
    SignedProduct(x, y, q, m);
  }

  lemma SignedProduct(x: int, y: int, q: nat, r: nat)
    requires Abs(x) == q * Abs(y) + r
    ensures x == (if (x < 0) == (y < 0) then q else 0 - q) * y + (if x < 0 then 0 - r else r)
  {
    Negated(q, y);
  }

  lemma Negated(q: int, y: int)
    ensures q * (0 - y) == 0 - q * y && (0 - q) * y == 0 - q * y && (0 - q) * (0 - y) == q * y
  {
  }

  lemma TruncUnique(x: int, y: int, q: int, r: int)
    requires y != 0 && x == q * y + r && Abs(r) < Abs(y) && (r == 0 || (r < 0 <==> x < 0))
    ensures q == TruncQuot(x, y) && r == TruncRem(x, y)
  {
    TruncCharacterised(x, y);
    MultipleBelow(q, r, TruncQuot(x, y), TruncRem(x, y), y, x);
  }

  /** Two remainders on the same side of zero and below the divisor are equal. */
  lemma MultipleBelow(q: int, r: int, q2: int, r2: int, y: int, x: int)
    requires y != 0 && x == q * y + r && x == q2 * y + r2
    requires Abs(r) < Abs(y) && Abs(r2) < Abs(y)
    requires r == 0 || (r < 0 <==> x < 0)
    requires r2 == 0 || (r2 < 0 <==> x < 0)
    ensures q == q2 && r == r2
  {
    var k := q - q2;
    assert k * y == r2 - r by { assert k * y == q * y - q2 * y; }
    assert Abs(r2 - r) < Abs(y);
    if k != 0 {
      BigMultiple(k, y);
      assert false;
    }
  }

  lemma BigMultiple(k: int, y: int)
    requires k != 0
    ensures Abs(k * y) >= Abs(y)
  {
    MulMono(1, Abs(k), Abs(y));
    var p := Abs(k) * Abs(y);
    Negated(k, y);
    assert k * y == p || k * y == 0 - p;
  }

  // ----- the restoring loop

  function Pow2(n: nat): (p: nat)
    ensures p >= 1
  {
    if n == 0 then 1 else 2 * Pow2(n - 1)
  }

  lemma {:induction false} Pow2Add(m: nat, n: nat)
    ensures Pow2(m + n) == Pow2(m) * Pow2(n)
  {
    if m != 0 {
      Pow2Add(m - 1, n);
      assert 2 * (Pow2(m - 1) * Pow2(n)) == (2 * Pow2(m - 1)) * Pow2(n);
    }
  }

  lemma Pow2Values()
    ensures Pow2(31) == TWO31 && Pow2(32) == TWO32 && Pow2(0) == 1
  {
    assert Pow2(8) == 256;
    Pow2Add(8, 8);
    Pow2Add(16, 16);
    assert Pow2(32) == 2 * Pow2(31);
  }

  /** After `k` steps on dividend magnitude `a`: the quotient register holds the
      unread low dividend bits above the `k` quotient bits found so far, and
      those quotient bits and the remainder divide the read high dividend bits. */
  ghost predicate LoopInv(a: nat, d: nat, k: nat, quotient: nat, remainder: nat) {
    k <= 32 && exists low: nat, q: nat {:trigger LoopSplit(a, d, k, quotient, remainder, low, q)} ::
      LoopSplit(a, d, k, quotient, remainder, low, q)
  }

  ghost predicate LoopSplit(a: nat, d: nat, k: nat, quotient: nat, remainder: nat, low: nat, q: nat) {
    && k <= 32
    && low < Pow2(32 - k) && q < Pow2(k)
    && remainder < d
    && quotient == low * Pow2(k) + q
    && a == (q * d + remainder) * Pow2(32 - k) + low
  }

  lemma LoopStart(a: Word, d: Word)
    requires d > 0
    ensures LoopInv(a, d, 0, a, 0)
  {
    Pow2Values();
    assert LoopSplit(a, d, 0, a, 0, a, 0);
  }

  /** Reading one dividend bit: the register's top bit is the next unread bit. */
  lemma TopBit(k: nat, quotient: nat, low: nat, q: nat) returns (bit: nat, rest: nat)
    requires k < 32 && low < Pow2(32 - k) && q < Pow2(k) && quotient == low * Pow2(k) + q
    ensures quotient < TWO32 && bit == quotient / TWO31 && bit <= 1 && rest < Pow2(31 - k)
    ensures low == bit * Pow2(31 - k) + rest
    ensures (2 * quotient) % TWO32 == rest * Pow2(k + 1) + 2 * q
  {
    Pow2Values();
    Pow2Add(k, 31 - k);
    var half := Pow2(31 - k);
    assert Pow2(32 - k) == 2 * half;
    bit := if low >= half then 1 else 0;
    rest := low - bit * half;
    assert Pow2(k + 1) == 2 * Pow2(k);
    SplitRegister(Pow2(k), half, bit, rest, q, quotient);
  }

  lemma SplitRegister(p: nat, half: nat, bit: nat, rest: nat, q: nat, quotient: nat)
    requires p * half == TWO31 && bit <= 1 && rest < half && q < p
    requires quotient == (bit * half + rest) * p + q
    ensures quotient < TWO32 && bit == quotient / TWO31
    ensures (2 * quotient) % TWO32 == rest * (2 * p) + 2 * q
  {
    Products(p, half, bit, rest);
    ShiftRegister(bit, rest * p, q, quotient);
  }

  lemma Products(p: nat, half: nat, bit: nat, rest: nat)
    requires rest < half && bit <= 1
    ensures rest * p + p <= p * half
    ensures (bit * half + rest) * p == (if bit == 1 then p * half else 0) + rest * p
    ensures rest * (2 * p) == 2 * (rest * p)
  {
    MulMono(rest + 1, half, p);
    assert (rest + 1) * p == rest * p + p;
  }

  lemma ShiftRegister(bit: nat, upper: nat, q: nat, quotient: nat)
    requires bit <= 1 && upper + q < TWO31 && quotient == (if bit == 1 then TWO31 else 0) + upper + q
    ensures quotient < TWO32 && bit == quotient / TWO31
    ensures (2 * quotient) % TWO32 == 2 * upper + 2 * q
  {
  }

  lemma MulMono(x: nat, y: nat, z: nat)
    requires x <= y
    ensures x * z <= y * z
  {
  }

  /** One step keeps the loop invariant; the 32-bit subtraction loses nothing. */
  lemma LoopStep(a: nat, d: Word, k: nat, quotient: Word, remainder: Word)
    requires k < 32 && d > 0 && LoopInv(a, d, k, quotient, remainder)
    ensures LoopInv(a, d, k + 1, StepQR(quotient, remainder, d).0, StepQR(quotient, remainder, d).1)
  {
    var low: nat, q: nat :| LoopSplit(a, d, k, quotient, remainder, low, q);
    var bit, rest := TopBit(k, quotient, low, q);
    StepQRMeans(quotient, remainder, d, bit, rest * Pow2(k + 1) + 2 * q);
    assert Pow2(k + 1) == 2 * Pow2(k) && Pow2(32 - k) == 2 * Pow2(31 - k);
    hide StepQR, Pow2;
    var half, p := Pow2(31 - k), Pow2(k + 1);
    var more := if 2 * remainder + bit >= d then 1 else 0;
    Regroup(a, q, d, remainder, bit, half, rest, more);
    var next, r2 := StepQR(quotient, remainder, d).0, StepQR(quotient, remainder, d).1;
    assert r2 == 2 * remainder + bit - more * d && next == rest * p + (2 * q + more);
    assert 32 - (k + 1) == 31 - k;
    assert LoopSplit(a, d, k + 1, next, r2, rest, 2 * q + more);
  }

  lemma StepQRMeans(quotient: Word, remainder: Word, d: Word, bit: nat, doubled: nat)
    requires remainder < d && bit == quotient / TWO31 <= 1
    requires (2 * quotient) % TWO32 == doubled
    ensures StepQR(quotient, remainder, d) ==
            if 2 * remainder + bit >= d then (doubled + 1, 2 * remainder + bit - d)
            else (doubled, 2 * remainder + bit)
  {
    assert doubled % 2 == 0;
  }

  lemma Regroup(a: nat, q: nat, d: nat, r: nat, bit: nat, half: nat, rest: nat, more: nat)
    requires more <= 1 && a == (q * d + r) * (2 * half) + (bit * half + rest)
    ensures a == ((2 * q + more) * d + (2 * r + bit - more * d)) * half + rest
  {
    var x := q * d + r;
    assert x * (2 * half) + bit * half == (2 * x + bit) * half;
    assert (2 * q + more) * d == 2 * (q * d) + more * d;
  }

  lemma LoopEnd(a: nat, d: nat, quotient: nat, remainder: nat)
    requires d > 0 && LoopInv(a, d, 32, quotient, remainder)
    ensures quotient == a / d && remainder == a % d
  {
    var low: nat, q: nat :| LoopSplit(a, d, 32, quotient, remainder, low, q);
    Pow2Values();
    assert low == 0 && quotient == q && a == q * d + remainder;
    DivModUnique(a, d, q, remainder);
  }

  lemma DivModUnique(a: nat, d: nat, q: nat, r: nat)
    requires d > 0 && r < d && a == q * d + r
    ensures q == a / d && r == a % d
  {
    var q2, r2 := a / d, a % d;
    assert a == q2 * d + r2;
    if q < q2 {
      assert (q2 - q) * d >= d by { MulMono(1, q2 - q, d); }
    } else if q2 < q {
      assert (q - q2) * d >= d by { MulMono(1, q - q2, d); }
    }
  }

  /** What the registers mean while the divider works on `op a b`. */
  ghost predicate DivOk(s: DivState, op: MduOp, a: Word, b: Word) {
    && s.op == op
    && match s.phase
       case DivIdle => true
       case DivResp => s.result == IsaDiv(op, a, b)
       case DivRun =>
         && Shortcut(op, a, b).None?
         && s.iter <= 31
         && s.divisor == Magnitude(op, b)
         && s.quotientNeg == (SignedOp(op) && (a >= TWO31) != (b >= TWO31))
         && s.remainderNeg == (SignedOp(op) && a >= TWO31)
         && LoopInv(Magnitude(op, a), Magnitude(op, b), s.iter, s.quotient, s.remainder)
  }

  lemma MagnitudeIsAbs(op: MduOp, a: Word)
    ensures Magnitude(op, a) == Abs(Operand(op, a))
  {
  }

  /** Sign correction turns the magnitude quotient and remainder into section 7.2's. */
  lemma SignCorrection(op: MduOp, a: Word, b: Word, q: Word, r: Word)
    requires IsDiv(op) && b != 0
    requires q == Magnitude(op, a) / Magnitude(op, b) && r == Magnitude(op, a) % Magnitude(op, b)
    ensures IsaDiv(op, a, b) ==
            if QuotientOp(op) then
              (if SignedOp(op) && (a >= TWO31) != (b >= TWO31) then Negate32(q) else q)
            else (if SignedOp(op) && a >= TWO31 then Negate32(r) else r)
  {
    MagnitudeIsAbs(op, a);
    MagnitudeIsAbs(op, b);
    var x, y := Operand(op, a), Operand(op, b);
    assert (x < 0) == (SignedOp(op) && a >= TWO31) && (y < 0) == (SignedOp(op) && b >= TWO31);
    hide Operand, Magnitude, TruncQuot;
    assert Abs(x) == q * Abs(y) + r;
    var qs: int := if (x < 0) == (y < 0) then q else 0 - q;
    var rs: int := if x < 0 then 0 - r else r;
    SignedProduct(x, y, q, r);
    TruncUnique(x, y, qs, rs);
    Wrap(q);
    Wrap(r);
  }

  lemma Wrap(q: Word)
    ensures q % TWO32 == q && (0 - q) % TWO32 == Negate32(q)
  {
  }

  lemma ShortcutIsIsa(op: MduOp, a: Word, b: Word)
    requires IsDiv(op) && Shortcut(op, a, b).Some?
    ensures Shortcut(op, a, b).value == IsaDiv(op, a, b)
  {
    if b != 0 {
      MagnitudeIsAbs(op, a);
      MagnitudeIsAbs(op, b);
      if SignedOverflow(op, a, b) {
        TruncUnique(-TWO31, -1, TWO31, 0);
      } else {
        assert Magnitude(op, a) / Magnitude(op, b) == 0 && Magnitude(op, a) % Magnitude(op, b) == Magnitude(op, a) by {
          DivModUnique(Magnitude(op, a), Magnitude(op, b), 0, Magnitude(op, a));
        }
        SignCorrection(op, a, b, 0, Magnitude(op, a));
      }
    }
  }

  /** A launched request establishes the meaning, whichever path it takes. */
  lemma LaunchOk(op: MduOp, a: Word, b: Word, v: Word)
    requires IsDiv(op)
    ensures !Launch(op, a, b, v).phase.DivIdle?
    ensures DivOk(Launch(op, a, b, v), op, a, b)
  {
    if Shortcut(op, a, b).Some? {
      ShortcutIsIsa(op, a, b);
    } else {
      LoopStart(Magnitude(op, a), Magnitude(op, b));
    }
  }

  /** Every clock edge keeps the meaning, and a response carries the ISA result. */
  lemma DivKeepsOk(s: DivState, i: DivIn, op: MduOp, a: Word, b: Word)
    requires IsDiv(op) && !s.phase.DivIdle? && DivOk(s, op, a, b)
    ensures DivNext(s, i).phase.DivIdle? || DivOk(DivNext(s, i), op, a, b)
  {
    if s.phase.DivRun? && !i.rst && !i.kill {
      LoopStep(Magnitude(op, a), s.divisor, s.iter, s.quotient, s.remainder);
      if s.iter == 31 {
        var (q, r) := StepQR(s.quotient, s.remainder, s.divisor);
        LoopEnd(Magnitude(op, a), Magnitude(op, b), q, r);
        SignCorrection(op, a, b, q, r);
      }
    }
  }

  /** The state after `n` unkilled edges from `s`. */
  function Run(s: DivState, n: nat): DivState
  {
    if n == 0 then s else RunStep(Run(s, n - 1))
  }

  lemma {:induction false} RunIters(s: DivState, n: nat)
    requires s.phase.DivRun? && s.iter == 0 && n <= 31
    ensures Run(s, n).phase.DivRun? && Run(s, n).iter == n
  {
    if n != 0 { RunIters(s, n - 1); }
  }

  lemma {:induction false} RunOk(op: MduOp, a: Word, b: Word, v: Word, n: nat)
    requires IsDiv(op) && Shortcut(op, a, b).None? && n <= 32
    ensures DivOk(Run(Launch(op, a, b, v), n), op, a, b)
    ensures n <= 31 ==> Run(Launch(op, a, b, v), n).phase.DivRun?
  {
    var s := Launch(op, a, b, v);
    LaunchOk(op, a, b, v);
    if n != 0 {
      RunOk(op, a, b, v, n - 1);
      RunIters(s, n - 1);
      DivKeepsOk(Run(s, n - 1), DivIn(false, false, false, op, a, b, false), op, a, b);
      if n <= 31 { RunIters(s, n); }
    }
  }

  /** A request with no shortcut runs for exactly 32 edges, then answers with the ISA result. */
  lemma ExactlyThirtyTwoSteps(op: MduOp, a: Word, b: Word, v: Word)
    requires IsDiv(op) && Shortcut(op, a, b).None?
    ensures forall n: nat :: n <= 31 ==> Run(Launch(op, a, b, v), n).phase.DivRun?
    ensures Run(Launch(op, a, b, v), 32).phase.DivResp?
    ensures Run(Launch(op, a, b, v), 32).result == IsaDiv(op, a, b)
  {
    forall n: nat | n <= 31
      ensures Run(Launch(op, a, b, v), n).phase.DivRun?
    {
      RunOk(op, a, b, v, n);
    }
    RunOk(op, a, b, v, 32);
    RunIters(Launch(op, a, b, v), 31);
  }
}
