/** Blocking two-stage multiplier (rtl/core/mul_unit.sv): operands are extended
    to 33 signed bits, multiplied, and the product is truncated to 64 bits. */
module MulUnit {
  import opened Rv32Types
  import opened DivUnit

  const TWO64 := 0x1_0000_0000_0000_0000
  type S33 = x: int | -0x1_0000_0000 <= x < 0x1_0000_0000

  datatype MulPhase = MulIdle | MulExec | MulResp

  datatype MulState = MulState(phase: MulPhase, lhs: S33, rhs: S33, op: MduOp, result: Word)
  const MUL_RESET := MulState(MulIdle, 0, 0, MduNone, 0)

  datatype MulIn = MulIn(rst: bool, kill: bool, reqValid: bool, op: MduOp, lhs: Word, rhs: Word, rspReady: bool)

  function ExtendLhs(op: MduOp, a: Word): S33 {
    if op.MduMulh? || op.MduMulhsu? then Signed(a) else a
  }

  function ExtendRhs(op: MduOp, b: Word): S33 {
    if op.MduMulh? then Signed(b) else b
  }

  /** The low 64 bits of a product, as bits. */
  function Trunc64(p: int): nat { p % TWO64 }

  function SelectHalf(op: MduOp, product: nat): Word
    requires product < TWO64
  {
    if op.MduMul? then product % TWO32 else product / TWO32
  }

  function MulNext(s: MulState, i: MulIn): MulState {
    if i.rst || i.kill then MUL_RESET
    else match s.phase
      case MulIdle =>
        if i.reqValid then s.(lhs := ExtendLhs(i.op, i.lhs), rhs := ExtendRhs(i.op, i.rhs), op := i.op, phase := MulExec)
        else s
      case MulExec => s.(result := SelectHalf(s.op, Trunc64(s.lhs * s.rhs)), phase := MulResp)
      case MulResp => if i.rspReady then s.(phase := MulIdle) else s
  }

  class Multiplier {
    var phase: MulPhase
    var lhs: S33
    var rhs: S33
    var op: MduOp
    var result: Word

    function State(): MulState
      reads this
    {
      MulState(phase, lhs, rhs, op, result)
    }

    constructor ()
      ensures State() == MUL_RESET
    {
      phase, lhs, rhs, op, result := MulIdle, 0, 0, MduNone, 0;
    }

    method Tick(i: MulIn)
      modifies this
      ensures State() == MulNext(old(State()), i)
    {
      if i.rst || i.kill {
        phase, lhs, rhs, op, result := MulIdle, 0, 0, MduNone, 0;
        return;
      }
      match phase {
        case MulIdle =>
          if i.reqValid {
            lhs, rhs, op := ExtendLhs(i.op, i.lhs), ExtendRhs(i.op, i.rhs), i.op;
            phase := MulExec;
          }
        case MulExec =>
          var product := Trunc64(lhs * rhs);
          result := SelectHalf(op, product);
          phase := MulResp;
        case MulResp =>
          if i.rspReady {
            phase := MulIdle;
          }
      }
    }
  }

  /** RISC-V unprivileged ISA, section 7.1: the low word of the product, or the
      high word of the signed, signed-unsigned, or unsigned product. */
  function IsaMul(op: MduOp, a: Word, b: Word): Word {
    if op.MduMul? then (Signed(a) * Signed(b)) % TWO32
    else if op.MduMulh? then (Signed(a) * Signed(b)) / TWO32 % TWO32
    else if op.MduMulhsu? then (Signed(a) * b) / TWO32 % TWO32
    else (a * b) / TWO32 % TWO32
  }

  lemma TruncatedHalves(p: int)
    ensures Trunc64(p) % TWO32 == p % TWO32
    ensures Trunc64(p) / TWO32 == p / TWO32 % TWO32
  {
    var k := p / TWO64;
    assert p == k * TWO64 + Trunc64(p);
  }

  /** The low word of a product does not depend on operand signedness. */
  lemma LowWordUnsigned(a: Word, b: Word)
    ensures (a * b) % TWO32 == (Signed(a) * Signed(b)) % TWO32
  {
    var i, j := if a >= TWO31 then 1 else 0, if b >= TWO31 then 1 else 0;
    Shifted(a, b, i, j);
  }

  lemma Shifted(a: int, b: int, i: int, j: int)
    ensures (a * b) % TWO32 == ((a - i * TWO32) * (b - j * TWO32)) % TWO32
  {
    var k := i * b + j * a - i * j * TWO32;
    assert (a - i * TWO32) * (b - j * TWO32) == a * b - k * TWO32;
    WholeMultiple(a * b, k);
  }

  lemma WholeMultiple(x: int, k: int)
    ensures (x - k * TWO32) % TWO32 == x % TWO32
  {
  }

  /** The captured half of the truncated 33-by-33-bit product is the ISA result. */
  lemma ProductIsIsa(op: MduOp, a: Word, b: Word)
    requires IsMul(op)
    ensures SelectHalf(op, Trunc64(ExtendLhs(op, a) * ExtendRhs(op, b))) == IsaMul(op, a, b)
  {
    TruncatedHalves(ExtendLhs(op, a) * ExtendRhs(op, b));
    LowWordUnsigned(a, b);
  }

  /** What the registers mean while the multiplier works on `op a b`. */
  ghost predicate MulOk(s: MulState, op: MduOp, a: Word, b: Word) {
    && s.op == op
    && match s.phase
       case MulIdle => true
       case MulExec => s.lhs == ExtendLhs(op, a) && s.rhs == ExtendRhs(op, b)
       case MulResp => s.result == IsaMul(op, a, b)
  }

  lemma MulKeepsOk(s: MulState, i: MulIn, op: MduOp, a: Word, b: Word)
    requires IsMul(op) && !s.phase.MulIdle? && MulOk(s, op, a, b)
    ensures MulNext(s, i).phase.MulIdle? || MulOk(MulNext(s, i), op, a, b)
  {
    ProductIsIsa(op, a, b);
  }
}
