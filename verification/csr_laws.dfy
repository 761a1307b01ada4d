/** What software sees of the machine-mode CSRs: what a write stores, what reset leaves,
    which accesses are legal, and what a handler finds after a trap. */
module CsrLaws {
  import opened Rv32Types
  import opened Bits
  import opened Decoder
  import opened CsrFile
  import opened Lsu
  import opened FetchOrder
  import opened Isa
  import opened IsaProperties

  // ----- a write stores the value

  /** What a register keeps of a written value: word-aligned addresses, bits 3 and 7 of
      `mstatus` beside MPP = M, bit 7 of `mie`, bit 31 and five code bits of `mcause`. */
  function LegalValue(addr: Word, v: Word): Word {
    if addr == 0x300 then
      0x1800 + (if v / 8 % 2 == 1 then 8 else 0) + (if v / 128 % 2 == 1 then 128 else 0)
    else if addr == 0x304 then (if v / 128 % 2 == 1 then 128 else 0)
    else if addr == 0x305 || addr == 0x341 then v - v % 4
    else if addr == 0x342 then v / 0x8000_0000 * 0x8000_0000 + v % 32
    else v
  }

  /** Each stored register reads back the legal part of what was written to it. */
  lemma WriteStores(c: CsrArch, addr: Word, v: Word, timing: Word)
    requires Stored(addr)
    ensures CsrValue(WriteField(c, addr, v), addr, timing) == LegalValue(addr, v)
  {
    HalvesBack(c.minstret, v);
    hide SetLow, SetHigh, Low, High;
  }

  /** The registers by number. */
  lemma WriteStoresEach(c: CsrArch, v: Word, timing: Word)
    ensures CsrValue(WriteField(c, 0x340, v), 0x340, timing) == v
    ensures CsrValue(WriteField(c, 0x343, v), 0x343, timing) == v
    ensures CsrValue(WriteField(c, 0xb02, v), 0xb02, timing) == v
    ensures CsrValue(WriteField(c, 0xb82, v), 0xb82, timing) == v
    ensures CsrValue(WriteField(c, 0x305, v), 0x305, timing) == v - v % 4
    ensures CsrValue(WriteField(c, 0x341, v), 0x341, timing) == v - v % 4
    ensures CsrValue(WriteField(c, 0x304, v), 0x304, timing) == (if v / 128 % 2 == 1 then 128 else 0)
    ensures CsrValue(WriteField(c, 0x300, v), 0x300, timing) ==
            0x1800 + (if v / 8 % 2 == 1 then 8 else 0) + (if v / 128 % 2 == 1 then 128 else 0)
    ensures CsrValue(WriteField(c, 0x342, v), 0x342, timing) == v / 0x8000_0000 * 0x8000_0000 + v % 32
  {
    hide WriteField, CsrValue;
    WriteStores(c, 0x340, v, timing);
    WriteStores(c, 0x343, v, timing);
    WriteStores(c, 0xb02, v, timing);
    WriteStores(c, 0xb82, v, timing);
    WriteStores(c, 0x305, v, timing);
    WriteStores(c, 0x341, v, timing);
    WriteStores(c, 0x304, v, timing);
    WriteStores(c, 0x300, v, timing);
    WriteStores(c, 0x342, v, timing);
  }

  // ----- CSR instructions

  /** Section 9.1: CSRRW[I] always writes; the set and clear forms write unless their
      source field is zero. */
  lemma WritesIff(cmd: CsrCmd, source: Reg)
    ensures CommandWrites(cmd, source) <==> cmd.CsrRw? || cmd.CsrRwi? || (!cmd.CsrNone? && source != 0)
  {
  }

  /** The mask or value operand: a register, or the five-bit immediate. */
  function CsrOperand(a: Arch, dec: Decoded): Word {
    if dec.ctrl.csrCmd.CsrRwi? || dec.ctrl.csrCmd.CsrRsi? || dec.ctrl.csrCmd.CsrRci? then dec.rs1
    else Source(a.regs, dec.ctrl.usesRs1, dec.rs1)
  }

  /** The value a CSR instruction writes, bit by bit: the operand, the old value with the
      operand's bits set, or with them cleared. */
  predicate Writes(cmd: CsrCmd, before: Word, x: Word, v: Word) {
    match cmd
    case CsrNone => true
    case CsrRw => v == x
    case CsrRwi => v == x
    case CsrRs => forall k :: 0 <= k < 32 ==> (BitAt(v, k) <==> BitAt(before, k) || BitAt(x, k))
    case CsrRsi => forall k :: 0 <= k < 32 ==> (BitAt(v, k) <==> BitAt(before, k) || BitAt(x, k))
    case CsrRc => forall k :: 0 <= k < 32 ==> (BitAt(v, k) <==> BitAt(before, k) && !BitAt(x, k))
    case CsrRci => forall k :: 0 <= k < 32 ==> (BitAt(v, k) <==> BitAt(before, k) && !BitAt(x, k))
  }

  lemma NewValueWrites(cmd: CsrCmd, rs1: Reg, a: Word, before: Word)
    ensures Writes(cmd, before, if cmd.CsrRwi? || cmd.CsrRsi? || cmd.CsrRci? then rs1 else a, NewCsrValue(cmd, rs1, a, before))
  {
    var x: Word := if cmd.CsrRwi? || cmd.CsrRsi? || cmd.CsrRci? then rs1 else a;
    forall k | 0 <= k < 32
      ensures BitAt(Or32(before, x), k) <==> BitAt(before, k) || BitAt(x, k)
      ensures BitAt(AndNot32(before, x), k) <==> BitAt(before, k) && !BitAt(x, k)
    {
      WordBits(before, x, k);
    }
    hide Or32, AndNot32, BitAt;
  }

  /** A legal CSR instruction returns the old value in `rd` and, when it writes, leaves the
      legal part of the value its form prescribes; when it does not, nothing but the
      retirement count moves. */
  lemma CsrInstructionStores(a: Arch, insn: Word, dec: Decoded, o: Oracle, timing: Word)
    requires Stored(CsrAddrOf(insn)) && !dec.ctrl.csrCmd.CsrNone?
    ensures var addr, r := CsrAddrOf(insn), CsrInstruction(a, insn, dec, o);
      var before := CsrValue(a.csr, addr, o.timing);
      && r.ev.trap.None? && r.next.pc == Add32(a.pc, 4)
      && r.ev.rdWrite == (if dec.ctrl.regWrite && dec.rd != 0 then Some((dec.rd, before)) else None)
      && (CommandWrites(dec.ctrl.csrCmd, dec.rs1) ==>
            exists v: Word :: Writes(dec.ctrl.csrCmd, before, CsrOperand(a, dec), v)
                              && CsrValue(r.next.csr, addr, timing) == LegalValue(addr, v))
      && (!CommandWrites(dec.ctrl.csrCmd, dec.rs1) ==> r.next.csr == a.csr.(minstret := (a.csr.minstret + 1) % TWO64))
  {
    var addr, cmd := CsrAddrOf(insn), dec.ctrl.csrCmd;
    var before := CsrValue(a.csr, addr, o.timing);
    var v := NewCsrValue(cmd, dec.rs1, Source(a.regs, dec.ctrl.usesRs1, dec.rs1), before);
    NewValueWrites(cmd, dec.rs1, Source(a.regs, dec.ctrl.usesRs1, dec.rs1), before);
    WriteStores(a.csr, addr, v, timing);
    WriteStores(a.csr.(minstret := Inc64(a.csr.minstret)), addr, v, timing);
    hide WriteField, CsrValue, NewCsrValue, Source, LegalValue, Writes, Stored;
    assert Writable(addr) by { StoredWritable(addr); }
    hide Writable;
    if CommandWrites(cmd, dec.rs1) {
      assert Writes(cmd, before, CsrOperand(a, dec), v);
    }
  }

  lemma StoredWritable(addr: Word)
    requires Stored(addr)
    ensures Writable(addr)
  {
  }

  /** A write and then a read of the same register, as two instructions: `rd` of the
      second is the legal part of what the first prescribes. */
  lemma WriteThenRead(a: Arch, insn: Word, dec: Decoded, o: Oracle, insn2: Word, dec2: Decoded, o2: Oracle)
    requires Stored(CsrAddrOf(insn)) && CsrAddrOf(insn2) == CsrAddrOf(insn)
    requires CommandWrites(dec.ctrl.csrCmd, dec.rs1)
    requires dec2.ctrl.csrCmd.CsrRs? && dec2.rs1 == 0 && dec2.ctrl.regWrite && dec2.rd != 0
    ensures var addr, r := CsrAddrOf(insn), CsrInstruction(a, insn, dec, o);
      exists v: Word ::
        && Writes(dec.ctrl.csrCmd, CsrValue(a.csr, addr, o.timing), CsrOperand(a, dec), v)
        && CsrInstruction(r.next, insn2, dec2, o2).ev.rdWrite == Some((dec2.rd, LegalValue(addr, v)))
  {
    hide CsrInstruction, CsrValue, Writes, LegalValue, Stored, CsrAddrOf;
    CsrInstructionStores(a, insn, dec, o, o2.timing);
    var r := CsrInstruction(a, insn, dec, o);
    CsrInstructionStores(r.next, insn2, dec2, o2, o2.timing);
  }

  /** An access is illegal exactly when the register does not exist, or a write goes to
      one whose address marks it read-only. */
  lemma IllegalIff(cmd: CsrCmd, writes: bool, addr: Word)
    ensures AccessIllegal(cmd, writes, addr) <==>
            !cmd.CsrNone? && (addr !in {0x300, 0x301, 0x304, 0x305, 0x340, 0x341, 0x342, 0x343, 0x344, 0xb00, 0xb02, 0xb80, 0xb82,
                                        0xf11, 0xf12, 0xf13, 0xf14, 0xf15}
                              || (writes && addr / 0x400 == 3))
  {
  }

  // ----- reset and read-only registers

  /** Reset: interrupts off, MPP = M, traps go to the trap vector, everything else zero. */
  lemma ResetReads(trapVector: Word, timing: Word)
    ensures var c := CsrResetArch(trapVector);
      && CsrValue(c, 0x300, timing) == 0x1800 && CsrValue(c, 0x304, timing) == 0 && !c.mie && !c.mpie && !c.mtie
      && CsrValue(c, 0x305, timing) == trapVector - trapVector % 4
      && CsrValue(c, 0x340, timing) == 0 && CsrValue(c, 0x341, timing) == 0 && CsrValue(c, 0x342, timing) == 0
      && CsrValue(c, 0x343, timing) == 0 && CsrValue(c, 0xb02, timing) == 0 && CsrValue(c, 0xb82, timing) == 0
      && c.minstret == 0
  {
  }

  /** `misa` says RV32IM, the identity registers are zero, `mip` shows the timer line in
      bit 7, and the cycle counter reads by halves. */
  lemma FixedReads(c: CsrArch, mcycle: U64, mtip: bool)
    ensures CsrRead(c, mcycle, mtip, 0x301) == 0x4000_1100
    ensures forall addr :: 0xf11 <= addr <= 0xf15 ==> CsrRead(c, mcycle, mtip, addr) == 0
    ensures CsrRead(c, mcycle, mtip, 0x344) == (if mtip then 128 else 0)
    ensures CsrRead(c, mcycle, mtip, 0xb80) * TWO32 + CsrRead(c, mcycle, mtip, 0xb00) == mcycle
  {
  }

  /** The cycle counter over commits that do not write it: one a cycle, modulo 2^64. */
  function McycleEnd(mcycle: U64, ps: seq<CsrPorts>): U64
    decreases |ps|
  {
    if ps == [] then mcycle else McycleEnd(McycleNext(mcycle, ps[0]), ps[1..])
  }

  lemma {:induction false} McycleCounts(mcycle: U64, ps: seq<CsrPorts>)
    requires forall k :: 0 <= k < |ps| && NormalWrite(ps[k]) ==> ps[k].waddr != 0xb00 && ps[k].waddr != 0xb80
    ensures McycleEnd(mcycle, ps) == (mcycle + |ps|) % TWO64
    decreases |ps|
  {
    if ps != [] {
      assert NormalWrite(ps[0]) ==> ps[0].waddr != 0xb00 && ps[0].waddr != 0xb80;
      IncMod(mcycle, |ps| - 1);
      McycleCounts(Inc64(mcycle), ps[1..]);
    }
  }

  // ----- traps

  /** Exactly when the timer interrupt is taken: the line is high, both enables are set,
      and the instruction at the PC has no fetch, decode, ECALL or EBREAK exception. */
  lemma InterruptTakenIff(prog: Program, a: Arch, o: Oracle)
    ensures IsaStep(prog, a, o).ev.trap == Some(Exc(true, true, 7, 0)) <==>
            && o.mtip && a.csr.mie && a.csr.mtie
            && !prog(a.pc).err && !Decode(prog(a.pc).rdata).illegal
            && prog(a.pc).rdata != 0x0000_0073 && prog(a.pc).rdata != 0x0010_0073
  {
    hide Decode, CsrAddrOf, CsrValue, NewCsrValue, Source, Retired, TrapEntry, TrapReturn, Alu, MduFn, BranchTaken, BranchTarget,
         StoreStrobe, StoreLanes, LoadResult, BusRequest, Implemented, Writable, SizeOf;
  }

  /** Which exception a step raises before it executes, oldest stage first. */
  lemma FrontCauses(prog: Program, a: Arch, o: Oracle)
    ensures var (f, t) := (prog(a.pc), IsaStep(prog, a, o).ev.trap);
      && (f.err ==> t == Some(Exc(true, false, 1, a.pc)))
      && (!f.err && Decode(f.rdata).illegal ==> t == Some(Exc(true, false, 2, f.rdata)))
      && (!f.err && !Decode(f.rdata).illegal && f.rdata == 0x0000_0073 ==> t == Some(Exc(true, false, 11, 0)))
      && (!f.err && !Decode(f.rdata).illegal && f.rdata == 0x0010_0073 ==> t == Some(Exc(true, false, 3, a.pc)))
  {
    hide Decode, Execute;
  }

  /** Exactly which exception an executed instruction raises: an illegal CSR access, a
      misaligned access, a bus error, or a taken transfer to a misaligned target. */
  lemma ExecuteCauses(a: Arch, insn: Word, dec: Decoded, o: Oracle)
    requires CtrlOk(dec.ctrl)
    ensures var (t, c) := (Execute(a, insn, dec, o).ev.trap, dec.ctrl);
      var (x, y) := (Source(a.regs, c.usesRs1, dec.rs1), Source(a.regs, c.usesRs2, dec.rs2));
      var (ea, target) := (Add32(x, dec.imm), BranchTarget(c.branchKind, a.pc, dec.imm, x));
      t == if !c.csrCmd.CsrNone? then
             (if AccessIllegal(c.csrCmd, CommandWrites(c.csrCmd, dec.rs1), CsrAddrOf(insn))
              then Some(Exc(true, false, 2, insn)) else None)
           else if IsMemory(c.memCmd) then
             (if ea % SizeOf(c.memSize) != 0 then Some(Exc(true, false, if c.memCmd.MemLoad? then 4 else 6, ea))
              else if o.err then Some(Exc(true, false, if c.memCmd.MemLoad? then 5 else 7, ea)) else None)
           else if BranchTaken(c.branchKind, x, y) && target % 4 != 0 then Some(Exc(true, false, 0, target))
           else None
  {
    hide CsrAddrOf, CsrValue, NewCsrValue, Source, Retired, TrapEntry, TrapReturn, Alu, MduFn, BranchTarget,
         StoreStrobe, StoreLanes, LoadResult, BusRequest, Implemented, Writable, SizeOf, Add32;
  }

  /** The trace shows the word fetched, except for a fetch fault or an interrupt, which show zero. */
  lemma TracesInstruction(prog: Program, a: Arch, o: Oracle)
    ensures var ev := IsaStep(prog, a, o).ev;
      && ev.pc == a.pc
      && ev.insn == if prog(a.pc).err || ev.trap == Some(Exc(true, true, 7, 0)) then 0 else prog(a.pc).rdata
  {
    hide Decode, CsrAddrOf, CsrValue, NewCsrValue, Source, Retired, TrapEntry, TrapReturn, Alu, MduFn, BranchTaken, BranchTarget,
         StoreStrobe, StoreLanes, LoadResult, BusRequest, Implemented, Writable, SizeOf;
  }

  /** What a handler reads after a trap: `mepc` the trapped PC, `mcause` the code with bit
      31 for an interrupt, `mtval` the value, MPIE the old MIE, MIE clear; and it runs at `mtvec`. */
  lemma HandlerReads(prog: Program, a: Arch, o: Oracle, timing: Word)
    requires Traps(prog, a, o)
    ensures var (r, x) := (IsaStep(prog, a, o), IsaStep(prog, a, o).ev.trap.value);
      && CsrValue(r.next.csr, 0x341, timing) == a.pc
      && CsrValue(r.next.csr, 0x342, timing) == (if x.isInterrupt then 0x8000_0000 else 0) + x.cause
      && CsrValue(r.next.csr, 0x343, timing) == x.tval
      && CsrValue(r.next.csr, 0x300, timing) == 0x1800 + (if a.csr.mie then 128 else 0)
      && r.next.pc == a.csr.mtvec && r.next.regs == a.regs
  {
    StepKinds(prog, a, o);
    SmallCauses(prog, a, o);
    hide IsaStep, CsrUpdate, MretStep, Retired, TrapReturn;
  }

  lemma SmallCauses(prog: Program, a: Arch, o: Oracle)
    ensures var t := IsaStep(prog, a, o).ev.trap; t.Some? ==> t.value.cause < 32
  {
    hide Decode, CsrAddrOf, CsrValue, NewCsrValue, Source, Retired, TrapEntry, TrapReturn, Alu, MduFn, BranchTaken, BranchTarget,
         StoreStrobe, StoreLanes, LoadResult, BusRequest, Implemented, Writable, SizeOf;
  }
}
