/** Combinational instruction semantics shared by the pipeline and by the
    sequential reference machine: decoder.sv, imm_gen.sv, alu.sv, branch_unit.sv. */
module Decoder {
  import opened Rv32Types
  import opened DivUnit
  import opened Bits

  datatype Decoded = Decoded(rs1: Reg, rs2: Reg, rd: Reg, imm: Word, ctrl: Ctrl, illegal: bool)

  const LEGAL_NOP := ZERO_CTRL.(opASel := OpAZero, opBSel := OpBImm, memSize := MemWord)

  function Opcode(insn: Word): nat { insn % 0x80 }
  function Funct3(insn: Word): nat { insn / 0x1000 % 8 }
  function Funct7(insn: Word): nat { insn / 0x200_0000 }
  function CsrAddrOf(insn: Word): Word { insn / 0x10_0000 }

  function BranchKind(f3: nat): Branch {
    if f3 == 0 then BrBeq else if f3 == 1 then BrBne else if f3 == 4 then BrBlt
    else if f3 == 5 then BrBge else if f3 == 6 then BrBltu else if f3 == 7 then BrBgeu else BrNone
  }

  function OpImmAlu(f3: nat, f7: nat): AluOp {
    if f3 == 0 then AluAdd else if f3 == 2 then AluSlt else if f3 == 3 then AluSltu
    else if f3 == 4 then AluXor else if f3 == 6 then AluOr else if f3 == 7 then AluAnd
    else if f3 == 1 then (if f7 == 0 then AluSll else AluNone)
    else (if f7 == 0 then AluSrl else if f7 == 0x20 then AluSra else AluNone)
  }

  function OpAlu(f3: nat, f7: nat): AluOp {
    if f7 == 0 then
      (if f3 == 0 then AluAdd else if f3 == 1 then AluSll else if f3 == 2 then AluSlt
       else if f3 == 3 then AluSltu else if f3 == 4 then AluXor else if f3 == 5 then AluSrl
       else if f3 == 6 then AluOr else AluAnd)
    else if f7 == 0x20 then (if f3 == 0 then AluSub else if f3 == 5 then AluSra else AluNone)
    else AluNone
  }

  function OpMdu(f3: nat): MduOp {
    if f3 == 0 then MduMul else if f3 == 1 then MduMulh else if f3 == 2 then MduMulhsu
    else if f3 == 3 then MduMulhu else if f3 == 4 then MduDiv else if f3 == 5 then MduDivu
    else if f3 == 6 then MduRem else MduRemu
  }

  function CsrCommand(f3: nat): CsrCmd {
    if f3 == 1 then CsrRw else if f3 == 2 then CsrRs else if f3 == 3 then CsrRc
    else if f3 == 5 then CsrRwi else if f3 == 6 then CsrRsi else if f3 == 7 then CsrRci else CsrNone
  }

  /** The strict decoder: control bits and immediate format, or `None` if illegal. */
  function DecodeCtrl(insn: Word): Option<(Ctrl, ImmSel)> {
    var op, f3, f7 := Opcode(insn), Funct3(insn), Funct7(insn);
    var c := LEGAL_NOP;
    if op == 0x37 then
      Some((c.(regWrite := true, aluOp := AluAdd), ImmU))
    else if op == 0x17 then
      Some((c.(regWrite := true, aluOp := AluAdd, opASel := OpAPc), ImmU))
    else if op == 0x6f then
      Some((c.(regWrite := true, wbSel := WbPc4, branchKind := BrJal), ImmJ))
    else if op == 0x67 then
      if f3 == 0 then Some((c.(usesRs1 := true, regWrite := true, wbSel := WbPc4, branchKind := BrJalr), ImmI))
      else None
    else if op == 0x63 then
      if BranchKind(f3) != BrNone then
        Some((c.(usesRs1 := true, usesRs2 := true, branchKind := BranchKind(f3)), ImmB))
      else None
    else if op == 0x03 then
      if f3 == 0 || f3 == 1 || f3 == 2 || f3 == 4 || f3 == 5 then
        Some((c.(usesRs1 := true, regWrite := true, aluOp := AluAdd, opASel := OpARs1, wbSel := WbLoad,
                 memCmd := MemLoad, loadUnsigned := f3 == 4 || f3 == 5,
                 memSize := if f3 == 0 || f3 == 4 then MemByte else if f3 == 1 || f3 == 5 then MemHalf else MemWord),
              ImmI))
      else None
    else if op == 0x23 then
      if f3 == 0 || f3 == 1 || f3 == 2 then
        Some((c.(usesRs1 := true, usesRs2 := true, aluOp := AluAdd, opASel := OpARs1, memCmd := MemStore,
                 memSize := if f3 == 0 then MemByte else if f3 == 1 then MemHalf else MemWord),
              ImmS))
      else None
    else if op == 0x13 then
      if OpImmAlu(f3, f7) != AluNone then
        Some((c.(usesRs1 := true, regWrite := true, aluOp := OpImmAlu(f3, f7), opASel := OpARs1), ImmI))
      else None
    else if op == 0x33 then
      var r := c.(usesRs1 := true, usesRs2 := true, regWrite := true, opASel := OpARs1, opBSel := OpBRs2);
      if f7 == 1 then Some((r.(mduOp := OpMdu(f3)), ImmNone))
      else if OpAlu(f3, f7) != AluNone then Some((r.(aluOp := OpAlu(f3, f7)), ImmNone))
      else None
    else if op == 0x0f then
      if f3 == 0 then Some((c.(isFence := true), ImmNone)) else None
    else if op == 0x73 then
      if f3 == 0 then
        if insn == INSN_MRET then Some((c.(isMret := true), ImmNone))
        else if insn == INSN_ECALL || insn == INSN_EBREAK || insn == INSN_WFI then Some((c, ImmNone))
        else None
      else if CsrCommand(f3) != CsrNone then
        Some((c.(usesRs1 := f3 < 4, csrCmd := CsrCommand(f3), regWrite := true, wbSel := WbCsr), ImmNone))
      else None
    else None
  }

  /** Replicated sign bit above an immediate's own bits. */
  function SignFill(insn: Word, fill: Word): Word {
    if insn >= TWO31 then fill else 0
  }

  function Immediate(insn: Word, sel: ImmSel): Word {
    match sel
    case ImmNone => 0
    case ImmI => SignFill(insn, 0xffff_f000) + insn / 0x10_0000
    case ImmS => SignFill(insn, 0xffff_f000) + insn / 0x200_0000 * 32 + insn / 0x80 % 32
    case ImmB => SignFill(insn, 0xffff_f000) + insn / 0x80 % 2 * 2048
                 + insn / 0x200_0000 % 64 * 32 + insn / 0x100 % 16 * 2
    case ImmU => insn - insn % 0x1000
    case ImmJ => SignFill(insn, 0xfff0_0000) + insn / 0x1000 % 256 * 0x1000
                 + insn / 0x10_0000 % 2 * 2048 + insn / 0x20_0000 % 1024 * 2
  }

  function Decode(insn: Word): Decoded {
    var rs1, rs2, rd := insn / 0x8000 % 32, insn / 0x10_0000 % 32, insn / 0x80 % 32;
    match DecodeCtrl(insn)
    case Some((c, sel)) => Decoded(rs1, rs2, rd, Immediate(insn, sel), c, false)
    case None => Decoded(rs1, rs2, rd, 0, LEGAL_NOP, true)
  }

  /** Control-bit combinations the rest of the pipeline relies on. */
  predicate CtrlOk(c: Ctrl) {
    && (c.memCmd.MemLoad? <==> c.wbSel.WbLoad?)
    && (c.memCmd.MemLoad? ==> c.regWrite && !c.usesRs2)
    && (c.memCmd.MemStore? ==> !c.regWrite)
    && (!c.memCmd.MemNone? ==> c.aluOp.AluAdd? && c.opASel.OpARs1? && c.opBSel.OpBImm?
                               && c.csrCmd.CsrNone? && c.mduOp.MduNone? && c.branchKind.BrNone? && !c.isMret)
    && (!c.branchKind.BrNone? ==> c.regWrite == c.wbSel.WbPc4? && c.csrCmd.CsrNone? && c.mduOp.MduNone?)
    && (c.wbSel.WbPc4? ==> c.branchKind.BrJal? || c.branchKind.BrJalr?)
    && (c.wbSel.WbCsr? ==> !c.csrCmd.CsrNone?)
    && (!c.csrCmd.CsrNone? ==> c.wbSel.WbCsr? && c.regWrite && c.mduOp.MduNone? && c.branchKind.BrNone? && !c.isMret)
    && (!c.mduOp.MduNone? ==> c.wbSel.WbExResult? && c.regWrite && c.branchKind.BrNone? && !c.isMret
                              && c.usesRs1 && c.usesRs2)
    && (c.isMret ==> c.branchKind.BrNone? && !c.regWrite)
  }

  lemma DecodeCtrlOk(insn: Word)
    ensures CtrlOk(Decode(insn).ctrl)
  {
  }

  function Shl(a: Word, sh: nat): Word { (a * Pow2(sh)) % TWO32 }
  function Shr(a: Word, sh: nat): Word { ShrBound(a, Pow2(sh)); a / Pow2(sh) }
  function Sar(a: Word, sh: nat): Word { Signed(a) / Pow2(sh) % TWO32 }

  lemma ShrBound(a: Word, p: nat)
    requires p >= 1
    ensures 0 <= a / p < TWO32
  {
    assert a == a / p * p + a % p;
    if a / p > a { MulMono(a + 1, a / p, p); MulMono(1, p, a + 1); assert false; }
  }

  function Alu(op: AluOp, a: Word, b: Word): Word {
    match op
    case AluNone => 0
    case AluAdd => Add32(a, b)
    case AluSub => Sub32(a, b)
    case AluSll => Shl(a, b % 32)
    case AluSrl => Shr(a, b % 32)
    case AluSra => Sar(a, b % 32)
    case AluSlt => if Signed(a) < Signed(b) then 1 else 0
    case AluSltu => if a < b then 1 else 0
    case AluXor => Xor32(a, b)
    case AluOr => Or32(a, b)
    case AluAnd => And32(a, b)
  }

  function BranchTaken(k: Branch, a: Word, b: Word): bool {
    match k
    case BrNone => false
    case BrBeq => a == b
    case BrBne => a != b
    case BrBlt => Signed(a) < Signed(b)
    case BrBge => Signed(a) >= Signed(b)
    case BrBltu => a < b
    case BrBgeu => a >= b
    case BrJal => true
    case BrJalr => true
  }

  function BranchTarget(k: Branch, pc: Word, imm: Word, a: Word): Word {
    match k
    case BrNone => 0
    case BrJalr => var t := Add32(a, imm); t - t % 2
    case _ => Add32(pc, imm)
  }
}
