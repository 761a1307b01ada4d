/** Machine-mode CSR state (rtl/core/csr_file.sv): combinational read and
    legality table, prioritised next state, counters, interrupt eligibility.
    `mstatus` and `mie` are held as their writable bits only: every update path
    of the source forces all other bits to their fixed value. */
module CsrFile {
  import opened Rv32Types

  const TWO64 := 0x1_0000_0000_0000_0000
  type U64 = x: int | 0 <= x < 0x1_0000_0000_0000_0000

  /** State a program can observe exactly; `mcycle` is kept apart because its
      value depends on timing. */
  datatype CsrArch = CsrArch(
    mie: bool, mpie: bool, mtie: bool,
    mtvec: Word, mscratch: Word, mepc: Word, mcause: Word, mtval: Word, minstret: U64)

  datatype CsrPorts = CsrPorts(
    commitWrite: bool, waddr: Word, wdata: Word, retire: bool, mretCommit: bool,
    trapValid: bool, trapPc: Word, trapIsInterrupt: bool, trapCause: Word, trapTval: Word)

  function CsrResetArch(trapVector: Word): CsrArch {
    CsrArch(false, false, false, AlignDown4(trapVector), 0, 0, 0, 0, 0)
  }

  function Low(x: U64): Word { x % TWO32 }
  function High(x: U64): Word { x / TWO32 }
  function SetLow(x: U64, v: Word): U64 { x / TWO32 * TWO32 + v }
  function SetHigh(x: U64, v: Word): U64 { v * TWO32 + x % TWO32 }
  function Inc64(x: U64): U64 { (x + 1) % TWO64 }
  function MipValue(mtip: bool): Word { if mtip then MIP_MTIP else 0 }
  function MieValue(mtie: bool): Word { if mtie then MIE_MTIE else 0 }

  function MstatusValue(mie: bool, mpie: bool): Word {
    MSTATUS_MPP_M + (if mie then MSTATUS_MIE else 0) + (if mpie then MSTATUS_MPIE else 0)
  }

  /** mcause keeps the interrupt bit and a five-bit code. */
  function McauseBits(v: Word): Word { (if v >= TWO31 then TWO31 else 0) + v % 32 }

  /** Read data; the timing-dependent entries are passed in. */
  function ReadTable(c: CsrArch, addr: Word, cycleLow: Word, cycleHigh: Word, mip: Word): Word {
    if addr == CSR_MSTATUS then MstatusValue(c.mie, c.mpie)
    else if addr == CSR_MISA then MISA_RV32IM
    else if addr == CSR_MIE then MieValue(c.mtie)
    else if addr == CSR_MTVEC then c.mtvec
    else if addr == CSR_MSCRATCH then c.mscratch
    else if addr == CSR_MEPC then c.mepc
    else if addr == CSR_MCAUSE then c.mcause
    else if addr == CSR_MTVAL then c.mtval
    else if addr == CSR_MIP then mip
    else if addr == CSR_MCYCLE then cycleLow
    else if addr == CSR_MCYCLEH then cycleHigh
    else if addr == CSR_MINSTRET then Low(c.minstret)
    else if addr == CSR_MINSTRETH then High(c.minstret)
    else 0
  }

  function CsrRead(c: CsrArch, mcycle: U64, mtip: bool, addr: Word): Word {
    ReadTable(c, addr, Low(mcycle), High(mcycle), MipValue(mtip))
  }

  predicate Writable(addr: Word) {
    addr == CSR_MSTATUS || addr == CSR_MISA || addr == CSR_MIE || addr == CSR_MTVEC || addr == CSR_MSCRATCH
    || addr == CSR_MEPC || addr == CSR_MCAUSE || addr == CSR_MTVAL || addr == CSR_MIP || addr == CSR_MCYCLE
    || addr == CSR_MCYCLEH || addr == CSR_MINSTRET || addr == CSR_MINSTRETH
  }

  predicate Implemented(addr: Word) {
    Writable(addr) || addr == CSR_MVENDORID || addr == CSR_MARCHID || addr == CSR_MIMPID
    || addr == CSR_MHARTID || addr == CSR_MCONFIGPTR
  }

  /** CSRRW[I] always writes; the set and clear forms write for a nonzero source. */
  predicate CommandWrites(cmd: CsrCmd, source: Reg) {
    match cmd
    case CsrNone => false
    case CsrRw => true
    case CsrRwi => true
    case _ => source != 0
  }

  predicate AccessIllegal(cmd: CsrCmd, writes: bool, addr: Word) {
    !cmd.CsrNone? && (!Implemented(addr) || (writes && !Writable(addr)))
  }

  /** A normal CSR write, apart from its effect on counting. */
  function WriteField(c: CsrArch, addr: Word, v: Word): CsrArch {
    if addr == CSR_MSTATUS then c.(mie := Bit(v, MSTATUS_MIE), mpie := Bit(v, MSTATUS_MPIE))
    else if addr == CSR_MIE then c.(mtie := Bit(v, MIE_MTIE))
    else if addr == CSR_MTVEC then c.(mtvec := AlignDown4(v))
    else if addr == CSR_MSCRATCH then c.(mscratch := v)
    else if addr == CSR_MEPC then c.(mepc := AlignDown4(v))
    else if addr == CSR_MCAUSE then c.(mcause := McauseBits(v))
    else if addr == CSR_MTVAL then c.(mtval := v)
    else if addr == CSR_MINSTRET then c.(minstret := SetLow(c.minstret, v))
    else if addr == CSR_MINSTRETH then c.(minstret := SetHigh(c.minstret, v))
    else c
  }

  predicate IsMinstret(addr: Word) { addr == CSR_MINSTRET || addr == CSR_MINSTRETH }
  predicate IsMcycle(addr: Word) { addr == CSR_MCYCLE || addr == CSR_MCYCLEH }
  predicate NormalWrite(p: CsrPorts) { !p.trapValid && !p.mretCommit && p.commitWrite }

  function McauseOf(isInterrupt: bool, cause: Word): Word {
    ((if isInterrupt then MCAUSE_INTERRUPT else 0) + cause) % TWO32
  }

  /** Prioritised next state: trap entry, then MRET, then a normal write. */
  function CsrNext(c: CsrArch, p: CsrPorts): CsrArch {
    var counted := if p.retire && !p.trapValid then c.(minstret := Inc64(c.minstret)) else c;
    if p.trapValid then
      c.(mepc := AlignDown4(p.trapPc), mcause := McauseOf(p.trapIsInterrupt, p.trapCause),
         mtval := p.trapTval, mpie := c.mie, mie := false)
    else if p.mretCommit then counted.(mie := c.mpie, mpie := true)
    else if p.commitWrite then WriteField(if IsMinstret(p.waddr) then c else counted, p.waddr, p.wdata)
    else counted
  }

  function McycleNext(mcycle: U64, p: CsrPorts): U64 {
    if NormalWrite(p) && p.waddr == CSR_MCYCLE then SetLow(mcycle, p.wdata)
    else if NormalWrite(p) && p.waddr == CSR_MCYCLEH then SetHigh(mcycle, p.wdata)
    else Inc64(mcycle)
  }

  /** Interrupts are enabled by the two architectural enable bits. */
  predicate IrqOn(c: CsrArch) { c.mtie && c.mie }

  class CsrRegisters {
    var mie: bool
    var mpie: bool
    var mtie: bool
    var mtvec: Word
    var mscratch: Word
    var mepc: Word
    var mcause: Word
    var mtval: Word
    var mcycle: U64
    var minstret: U64

    function Arch(): CsrArch
      reads this
    {
      CsrArch(mie, mpie, mtie, mtvec, mscratch, mepc, mcause, mtval, minstret)
    }

    constructor (trapVector: Word)
      ensures Arch() == CsrResetArch(trapVector) && mcycle == 0
    {
      mie, mpie, mtie, mtvec, mscratch := false, false, false, AlignDown4(trapVector), 0;
      mepc, mcause, mtval, mcycle, minstret := 0, 0, 0, 0, 0;
    }

    method Tick(rst: bool, trapVector: Word, p: CsrPorts)
      modifies this
      ensures Arch() == if rst then CsrResetArch(trapVector) else CsrNext(old(Arch()), p)
      ensures mcycle == if rst then 0 else McycleNext(old(mcycle), p)
    {
      hide AlignDown4, Inc64, SetLow, SetHigh, Bit, McauseBits, McauseOf;
      if rst {
        mie, mpie, mtie, mtvec, mscratch := false, false, false, AlignDown4(trapVector), 0;
        mepc, mcause, mtval, mcycle, minstret := 0, 0, 0, 0, 0;
        return;
      }
      var mcycleBefore, minstretBefore := mcycle, minstret;
      mcycle := Inc64(mcycle);
      if p.retire && !p.trapValid {
        minstret := Inc64(minstret);
      }
      if p.trapValid {
        mepc, mcause, mtval := AlignDown4(p.trapPc), McauseOf(p.trapIsInterrupt, p.trapCause), p.trapTval;
        mpie, mie := mie, false;
      } else if p.mretCommit {
        mie, mpie := mpie, true;
      } else if p.commitWrite {
        if IsMcycle(p.waddr) {
          mcycle := if p.waddr == CSR_MCYCLE then SetLow(mcycleBefore, p.wdata) else SetHigh(mcycleBefore, p.wdata);
        } else if IsMinstret(p.waddr) {
          minstret := if p.waddr == CSR_MINSTRET then SetLow(minstretBefore, p.wdata)
                      else SetHigh(minstretBefore, p.wdata);
        } else {
          WriteOther(p.waddr, p.wdata);
        }
      }
    }

    method WriteOther(addr: Word, v: Word)
      requires !IsMcycle(addr) && !IsMinstret(addr)
      modifies this
      ensures Arch() == WriteField(old(Arch()), addr, v) && mcycle == old(mcycle)
    {
      hide AlignDown4, Bit, McauseBits;
      if addr == CSR_MSTATUS {
        mie, mpie := Bit(v, MSTATUS_MIE), Bit(v, MSTATUS_MPIE);
      } else if addr == CSR_MIE {
        mtie := Bit(v, MIE_MTIE);
      } else if addr == CSR_MTVEC {
        mtvec := AlignDown4(v);
      } else if addr == CSR_MSCRATCH {
        mscratch := v;
      } else if addr == CSR_MEPC {
        mepc := AlignDown4(v);
      } else if addr == CSR_MCAUSE {
        mcause := McauseBits(v);
      } else if addr == CSR_MTVAL {
        mtval := v;
      }
    }
  }

  // ----- architectural reading of each update

  /** Both PC-valued registers hold aligned addresses. */
  predicate CsrWf(c: CsrArch) {
    Aligned4(c.mtvec) && Aligned4(c.mepc)
  }

  lemma CsrResetWf(trapVector: Word)
    ensures CsrWf(CsrResetArch(trapVector))
  {
  }

  lemma CsrNextWf(c: CsrArch, p: CsrPorts)
    requires CsrWf(c)
    ensures CsrWf(CsrNext(c, p))
  {
    hide SetLow, SetHigh, Inc64, Bit, McauseBits, McauseOf;
  }

  /** Privileged ISA section 3.1.6.1: trap entry pushes the interrupt-enable stack. */
  function TrapEntry(c: CsrArch, pc: Word, e: Exc): CsrArch {
    c.(mepc := pc, mtval := e.tval, mcause := McauseOf(e.isInterrupt, e.cause), mpie := c.mie, mie := false)
  }

  /** Section 3.1.6.1: MRET pops the stack and sets MPIE. */
  function TrapReturn(c: CsrArch): CsrArch {
    c.(mie := c.mpie, mpie := true)
  }

  /** One retirement counts once, except that an explicit write of either half
      of `minstret` takes the place of its implicit increment. */
  function Retired(c: CsrArch, write: Option<(Word, Word)>): CsrArch {
    if write.Some? && IsMinstret(write.value.0) then WriteField(c, write.value.0, write.value.1)
    else
      var counted := c.(minstret := Inc64(c.minstret));
      if write.Some? then WriteField(counted, write.value.0, write.value.1) else counted
  }

  lemma CsrNextTrap(c: CsrArch, p: CsrPorts, e: Exc)
    requires p.trapValid && Aligned4(p.trapPc)
    requires p.trapIsInterrupt == e.isInterrupt && p.trapCause == e.cause && p.trapTval == e.tval
    ensures CsrNext(c, p) == TrapEntry(c, p.trapPc, e)
  {
  }

  lemma CsrNextRetire(c: CsrArch, p: CsrPorts)
    requires p.retire && !p.trapValid && !(p.mretCommit && p.commitWrite)
    ensures CsrNext(c, p) ==
            if p.mretCommit then Retired(TrapReturn(c), None)
            else Retired(c, if p.commitWrite then Some((p.waddr, p.wdata)) else None)
  {
  }

  lemma CsrNextIdle(c: CsrArch, p: CsrPorts)
    requires !p.trapValid && !p.mretCommit && !p.commitWrite && !p.retire
    ensures CsrNext(c, p) == c
  {
  }

  /** Both halves of a counter are one state; other CSRs conflict on equal addresses. */
  predicate AddressesConflict(consumer: Word, producer: Word) {
    if IsMcycle(consumer) then IsMcycle(producer)
    else if IsMinstret(consumer) then IsMinstret(producer)
    else consumer == producer
  }

  /** A read of `addr` after an update sees the old value unless the update
      wrote that state, changed `mstatus`, or counted a retirement. */
  lemma ReadUnaffected(c: CsrArch, p: CsrPorts, addr: Word, lo: Word, hi: Word, mip: Word)
    requires !p.trapValid
    requires addr == CSR_MSTATUS ==> !p.mretCommit
    requires NormalWrite(p) ==> !AddressesConflict(addr, p.waddr)
    requires IsMinstret(addr) ==> !p.retire
    ensures ReadTable(CsrNext(c, p), addr, lo, hi, mip) == ReadTable(c, addr, lo, hi, mip)
  {
    hide SetLow, SetHigh, Inc64, Bit, McauseBits, McauseOf, AlignDown4, Low, High, MstatusValue, MieValue;
  }

  /** Neither enable bit changes unless the commit is a trap, an MRET, or a write
      of `mstatus` or `mie`. */
  lemma IrqOnUnaffected(c: CsrArch, p: CsrPorts)
    requires !p.trapValid && !p.mretCommit
    requires p.commitWrite ==> p.waddr != CSR_MSTATUS && p.waddr != CSR_MIE
    ensures CsrNext(c, p).mie == c.mie && CsrNext(c, p).mtie == c.mtie
  {
    hide SetLow, SetHigh, Inc64, Bit, McauseBits, McauseOf, AlignDown4;
  }
}
