/** The sequential reference machine: one instruction, or one trap, at a time
    over an architectural state.  It shares decoding, ALU, branch and CSR tables
    with the pipeline, and nothing else. */
module Isa {
  import opened Rv32Types
  import opened Bits
  import opened Decoder
  import opened DivUnit
  import opened MulUnit
  import opened CsrFile
  import opened Lsu
  import opened FetchOrder

  datatype Arch = Arch(pc: Word, regs: Regs, csr: CsrArch)

  /** What an instruction learns from outside: whether the timer interrupt was
      pending at its boundary, what a read of `mcycle[h]` or `mip` returns, and
      the data memory's answer to its access. */
  datatype Oracle = Oracle(mtip: bool, timing: Word, rdata: Word, err: bool)

  /** Everything the retirement trace shows for one instruction or trap. */
  datatype Event = Event(
    pc: Word, insn: Word, trap: Option<Exc>, rdWrite: Option<(Reg, Word)>,
    memAddr: Word, memWstrb: Strobe, memWdata: Word, transfer: Option<(bool, Word)>)

  /** Result of one step; `access` is the data request the instruction makes, if any. */
  datatype IsaResult = IsaResult(next: Arch, ev: Event, access: Option<MemReq>)

  function MduFn(op: MduOp, a: Word, b: Word): Word {
    if IsMul(op) then IsaMul(op, a, b) else IsaDiv(op, a, b)
  }

  function Source(regs: Regs, uses: bool, rs: Reg): Word {
    if uses then ReadReg(regs, rs) else 0
  }

  function MipBits(timing: Word): Word { if Bit(timing, MIP_MTIP) then MIP_MTIP else 0 }

  /** A CSR read: `mcycle[h]` and `mip` come from the oracle, the rest from the state. */
  function CsrValue(c: CsrArch, addr: Word, timing: Word): Word {
    ReadTable(c, addr, timing, timing, MipBits(timing))
  }

  /** Take a trap: nothing but the trap CSRs and the PC changes. */
  function TakeTrap(a: Arch, insn: Word, x: Exc, memAddr: Word, access: Option<MemReq>): IsaResult {
    IsaResult(Arch(a.csr.mtvec, a.regs, TrapEntry(a.csr, a.pc, x)),
              Event(a.pc, insn, Some(x), None, memAddr, 0, 0, None), access)
  }

  /** Retire without a memory access. */
  function Retire(a: Arch, insn: Word, dec: Decoded, value: Word, csr: CsrArch, transfer: Option<(bool, Word)>): IsaResult {
    var writes := dec.ctrl.regWrite && dec.rd != 0;
    IsaResult(
      Arch(if transfer.Some? && transfer.value.0 then transfer.value.1 else Add32(a.pc, 4),
           if writes then WriteReg(a.regs, dec.rd, value) else a.regs, csr),
      Event(a.pc, insn, None, if writes then Some((dec.rd, value)) else None, 0, 0, 0, transfer), None)
  }

  function NewCsrValue(cmd: CsrCmd, rs1: Reg, x: Word, v: Word): Word {
    match cmd
    case CsrNone => 0
    case CsrRw => x
    case CsrRs => Or32(v, x)
    case CsrRc => AndNot32(v, x)
    case CsrRwi => rs1
    case CsrRsi => Or32(v, rs1)
    case CsrRci => AndNot32(v, rs1)
  }

  /** Section 9.1: read the old value, write the new one unless the form suppresses it. */
  function CsrInstruction(a: Arch, insn: Word, dec: Decoded, o: Oracle): IsaResult {
    var addr, cmd := CsrAddrOf(insn), dec.ctrl.csrCmd;
    var writes := CommandWrites(cmd, dec.rs1);
    if AccessIllegal(cmd, writes, addr) then TakeTrap(a, insn, SyncExc(EXC_ILLEGAL_INSN, insn), 0, None)
    else
      var v := CsrValue(a.csr, addr, o.timing);
      var update := if writes then Some((addr, NewCsrValue(cmd, dec.rs1, Source(a.regs, dec.ctrl.usesRs1, dec.rs1), v)))
                    else None;
      Retire(a, insn, dec, v, Retired(a.csr, update), None)
  }

  function Transfer(a: Arch, insn: Word, dec: Decoded): IsaResult {
    var x, y := Source(a.regs, dec.ctrl.usesRs1, dec.rs1), Source(a.regs, dec.ctrl.usesRs2, dec.rs2);
    var taken := BranchTaken(dec.ctrl.branchKind, x, y);
    var target := BranchTarget(dec.ctrl.branchKind, a.pc, dec.imm, x);
    if taken && !Aligned4(target) then TakeTrap(a, insn, SyncExc(EXC_INST_ADDR_MISALIGNED, target), 0, None)
    else Retire(a, insn, dec, Add32(a.pc, 4), Retired(a.csr, None), Some((taken, target)))
  }

  /** Section 2.6: a load or store makes one aligned bus access, unless its own
      address is misaligned; a bus error becomes an access fault. */
  function MemoryAccess(a: Arch, insn: Word, dec: Decoded, o: Oracle): IsaResult {
    var c := dec.ctrl;
    var x, y := Source(a.regs, c.usesRs1, dec.rs1), Source(a.regs, c.usesRs2, dec.rs2);
    var ea := Add32(x, dec.imm);
    if ea % SizeOf(c.memSize) != 0 then
      TakeTrap(a, insn, SyncExc(if c.memCmd.MemLoad? then EXC_LOAD_ADDR_MISALIGNED else EXC_STORE_ADDR_MISALIGNED, ea), ea, None)
    else
      var strb, lanes := StoreStrobe(c.memSize, ea), StoreLanes(c.memSize, ea, y);
      var req := BusRequest(c.memCmd, ea, strb, lanes);
      if o.err then
        TakeTrap(a, insn, SyncExc(if c.memCmd.MemLoad? then EXC_LOAD_ACCESS_FAULT else EXC_STORE_ACCESS_FAULT, ea), ea, Some(req))
      else
        var v := LoadResult(c.memCmd, ea, c.memSize, c.loadUnsigned, o.rdata, false);
        var r := Retire(a, insn, dec, v, Retired(a.csr, None), None);
        r.(access := Some(req),
           ev := r.ev.(memAddr := ea, memWstrb := if c.memCmd.MemStore? then strb else 0,
                       memWdata := if c.memCmd.MemStore? then lanes else 0))
  }

  function Integer(a: Arch, insn: Word, dec: Decoded): IsaResult {
    var c := dec.ctrl;
    var x, y := Source(a.regs, c.usesRs1, dec.rs1), Source(a.regs, c.usesRs2, dec.rs2);
    var v :=
      if !c.mduOp.MduNone? then MduFn(c.mduOp, x, y)
      else
        Alu(c.aluOp, match c.opASel case OpARs1 => x case OpAPc => a.pc case OpAZero => 0,
            match c.opBSel case OpBRs2 => y case OpBImm => dec.imm);
    Retire(a, insn, dec, v, Retired(a.csr, None), None)
  }

  function Execute(a: Arch, insn: Word, dec: Decoded, o: Oracle): IsaResult {
    if !dec.ctrl.csrCmd.CsrNone? then CsrInstruction(a, insn, dec, o)
    else if dec.ctrl.isMret then
      Retire(a, insn, dec, 0, Retired(TrapReturn(a.csr), None), Some((true, a.csr.mepc)))
    else if !dec.ctrl.branchKind.BrNone? then Transfer(a, insn, dec)
    else if IsMemory(dec.ctrl.memCmd) then MemoryAccess(a, insn, dec, o)
    else Integer(a, insn, dec)
  }

  /** One step.  A fetch or decode fault comes before the timer interrupt, which
      comes before execution; the interrupt is taken exactly when it is pending
      and both enable bits are set. */
  function IsaStep(prog: Program, a: Arch, o: Oracle): IsaResult {
    var f := prog(a.pc);
    if f.err then TakeTrap(a, 0, SyncExc(EXC_INST_ACCESS_FAULT, a.pc), 0, None)
    else
      var dec := Decode(f.rdata);
      if dec.illegal then TakeTrap(a, f.rdata, SyncExc(EXC_ILLEGAL_INSN, f.rdata), 0, None)
      else if f.rdata == INSN_ECALL then TakeTrap(a, f.rdata, SyncExc(EXC_ECALL_M, 0), 0, None)
      else if f.rdata == INSN_EBREAK then TakeTrap(a, f.rdata, SyncExc(EXC_BREAKPOINT, a.pc), 0, None)
      else if o.mtip && a.csr.mie && a.csr.mtie then TakeTrap(a, 0, TIMER_EXC, 0, None)
      else Execute(a, f.rdata, dec, o)
  }
}
