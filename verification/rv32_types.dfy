/** Shared words, control enumerations and pipeline packets of the core
    (rtl/core/rv32_pkg.sv).  A packed struct becomes a datatype; the all-zero
    value of a struct is a named constant. */
module Rv32Types {

  datatype Option<+T> = None | Some(value: T)

  const TWO31 := 0x8000_0000
  const TWO32 := 0x1_0000_0000

  /** A 32-bit value; every wrap-around is written out as a remainder. */
  type Word = x: int | 0 <= x < 0x1_0000_0000
  type Reg = x: int | 0 <= x < 32

  /** The register file: 32 words, of which entry 0 is never read. */
  type Regs = s: seq<Word> | |s| == 32 witness seq(32, i => 0)

  /** Byte strobes, one bit a lane. */
  type Strobe = x: int | 0 <= x < 16

  function Add32(a: Word, b: Word): Word { (a + b) % TWO32 }
  predicate Aligned4(a: Word) { a % 4 == 0 }
  function AlignDown4(a: Word): Word { a - a % 4 }

  /** Bit `k` of a word, for a power of two `weight` = 2^k. */
  predicate Bit(a: Word, weight: nat)
    requires weight > 0
  {
    (a / weight) % 2 == 1
  }

  datatype AluOp =
    | AluNone | AluAdd | AluSub | AluSll | AluSrl | AluSra
    | AluSlt | AluSltu | AluXor | AluOr | AluAnd

  datatype ImmSel = ImmNone | ImmI | ImmS | ImmB | ImmU | ImmJ
  datatype OpASel = OpARs1 | OpAPc | OpAZero
  datatype OpBSel = OpBRs2 | OpBImm
  datatype WbSel = WbExResult | WbLoad | WbPc4 | WbCsr
  datatype Branch = BrNone | BrBeq | BrBne | BrBlt | BrBge | BrBltu | BrBgeu | BrJal | BrJalr
  datatype MemCmd = MemNone | MemLoad | MemStore
  datatype MemSize = MemByte | MemHalf | MemWord
  datatype MduOp = MduNone | MduMul | MduMulh | MduMulhsu | MduMulhu | MduDiv | MduDivu | MduRem | MduRemu
  datatype CsrCmd = CsrNone | CsrRw | CsrRs | CsrRc | CsrRwi | CsrRsi | CsrRci
  datatype FwdSel = FwdRegfile | FwdExMem | FwdMemWb

  predicate IsMul(op: MduOp) {
    op.MduMul? || op.MduMulh? || op.MduMulhsu? || op.MduMulhu?
  }

  predicate IsDiv(op: MduOp) {
    op.MduDiv? || op.MduDivu? || op.MduRem? || op.MduRemu?
  }

  // Machine-mode CSR addresses.
  const CSR_MSTATUS: Word := 0x300
  const CSR_MISA: Word := 0x301
  const CSR_MIE: Word := 0x304
  const CSR_MTVEC: Word := 0x305
  const CSR_MSCRATCH: Word := 0x340
  const CSR_MEPC: Word := 0x341
  const CSR_MCAUSE: Word := 0x342
  const CSR_MTVAL: Word := 0x343
  const CSR_MIP: Word := 0x344
  const CSR_MCYCLE: Word := 0xb00
  const CSR_MINSTRET: Word := 0xb02
  const CSR_MCYCLEH: Word := 0xb80
  const CSR_MINSTRETH: Word := 0xb82
  const CSR_MVENDORID: Word := 0xf11
  const CSR_MARCHID: Word := 0xf12
  const CSR_MIMPID: Word := 0xf13
  const CSR_MHARTID: Word := 0xf14
  const CSR_MCONFIGPTR: Word := 0xf15

  const MISA_RV32IM: Word := 0x4000_1100
  const MSTATUS_MIE := 0x0000_0008
  const MSTATUS_MPIE := 0x0000_0080
  const MSTATUS_MPP_M := 0x0000_1800
  const MIE_MTIE := 0x0000_0080
  const MIP_MTIP := 0x0000_0080
  const MCAUSE_INTERRUPT := 0x8000_0000

  const INSN_ECALL: Word := 0x0000_0073
  const INSN_EBREAK: Word := 0x0010_0073
  const INSN_MRET: Word := 0x3020_0073
  const INSN_WFI: Word := 0x1050_0073

  // Synchronous exception causes and the machine-timer interrupt cause.
  const EXC_INST_ADDR_MISALIGNED: Word := 0
  const EXC_INST_ACCESS_FAULT: Word := 1
  const EXC_ILLEGAL_INSN: Word := 2
  const EXC_BREAKPOINT: Word := 3
  const EXC_LOAD_ADDR_MISALIGNED: Word := 4
  const EXC_LOAD_ACCESS_FAULT: Word := 5
  const EXC_STORE_ADDR_MISALIGNED: Word := 6
  const EXC_STORE_ACCESS_FAULT: Word := 7
  const EXC_ECALL_M: Word := 11
  const IRQ_M_TIMER: Word := 7

  /** Exception attached to a packet; `cause` is a five-bit code. */
  datatype Exc = Exc(valid: bool, isInterrupt: bool, cause: Word, tval: Word)
  const NO_EXC := Exc(false, false, 0, 0)

  function SyncExc(cause: Word, tval: Word): Exc {
    Exc(true, false, cause, tval)
  }

  const TIMER_EXC := Exc(true, true, IRQ_M_TIMER, 0)

  datatype Ctrl = Ctrl(
    usesRs1: bool, usesRs2: bool, regWrite: bool,
    aluOp: AluOp, opASel: OpASel, opBSel: OpBSel, wbSel: WbSel,
    branchKind: Branch, memCmd: MemCmd, memSize: MemSize, loadUnsigned: bool,
    mduOp: MduOp, csrCmd: CsrCmd, isMret: bool, isFence: bool)

  const ZERO_CTRL := Ctrl(false, false, false, AluNone, OpARs1, OpBRs2, WbExResult,
                          BrNone, MemNone, MemByte, false, MduNone, CsrNone, false, false)

  datatype IfId = IfId(valid: bool, pc: Word, insn: Word, exc: Exc)
  const IF_ID_BUBBLE := IfId(false, 0, 0, NO_EXC)

  datatype IdEx = IdEx(
    valid: bool, pc: Word, insn: Word, rs1: Reg, rs2: Reg, rd: Reg,
    rs1Value: Word, rs2Value: Word, imm: Word, ctrl: Ctrl, exc: Exc)
  const ID_EX_BUBBLE := IdEx(false, 0, 0, 0, 0, 0, 0, 0, 0, ZERO_CTRL, NO_EXC)

  datatype ExMem = ExMem(
    valid: bool, pc: Word, insn: Word, rd: Reg, regWrite: bool, wbSel: WbSel,
    exResult: Word, storeData: Word, memCmd: MemCmd, memSize: MemSize, loadUnsigned: bool,
    csrAddr: Word, csrWrite: bool, csrWdata: Word, csrOld: Word, isMret: bool,
    control: bool, controlTaken: bool, controlTarget: Word, exc: Exc)
  const EX_MEM_BUBBLE := ExMem(false, 0, 0, 0, false, WbExResult, 0, 0, MemNone, MemByte, false,
                               0, false, 0, 0, false, false, false, 0, NO_EXC)

  datatype MemWb = MemWb(
    valid: bool, pc: Word, insn: Word, rd: Reg, regWrite: bool, wbData: Word,
    csrWrite: bool, csrAddr: Word, csrWdata: Word, isMret: bool,
    memWrite: bool, memAddr: Word, memWstrb: Strobe, memWdata: Word,
    control: bool, controlTaken: bool, controlTarget: Word, exc: Exc)
  const MEM_WB_BUBBLE := MemWb(false, 0, 0, 0, false, 0, false, 0, 0, false,
                               false, 0, 0, 0, false, false, 0, NO_EXC)

  function ReadReg(regs: Regs, r: Reg): Word {
    if r == 0 then 0 else regs[r]
  }

  function WriteReg(regs: Regs, rd: Reg, v: Word): Regs {
    regs[rd := v]
  }

  /** One memory-port request and one response (rtl/core/rv32_mem_if.sv). */
  datatype MemReq = MemReq(addr: Word, write: bool, wdata: Word, wstrb: Strobe)
  datatype MemRsp = MemRsp(valid: bool, rdata: Word, err: bool)
}
