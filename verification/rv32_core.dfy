/** The five-stage core (rtl/core/rv32_core.sv, rtl/core/pipeline_ctrl.sv): wires,
    age-priority action, and the next state of every pipeline register. */
module Rv32Core {
  import opened Rv32Types
  import opened Decoder
  import opened DivUnit
  import opened MulUnit
  import opened CsrFile
  import opened IfStage
  import opened Lsu
  import opened PipelineStages

  datatype Params = Params(resetVector: Word, trapVector: Word)

  datatype CoreState = CoreState(
    fe: IfState, d: IfId, e: IdEx, mul: MulState, div: DivState, m: ExMem, lsu: LsuState, w: MemWb,
    regs: Regs, csr: CsrArch, mcycle: U64, drain: bool)

  datatype CoreIn = CoreIn(rst: bool, mtip: bool, imReady: bool, imRsp: MemRsp, dmReady: bool, dmRsp: MemRsp)

  datatype Action =
    | ActAdvance | ActIdHazard | ActIrqStateWait | ActIdException | ActIdInterrupt | ActExRedirect
    | ActTrapDrain | ActExWait | ActExException | ActMemWait | ActMemException | ActWbTrap | ActReset

  /** Enable, flush and redirect decisions of one action. */
  datatype Controls = Controls(
    pcEnable: bool, ifIdEnable: bool, idExEnable: bool, exMemEnable: bool, memWbEnable: bool,
    ifIdFlush: bool, idExFlush: bool, exMemFlush: bool, memWbFlush: bool,
    redirectValid: bool, redirectPc: Word, drainNext: bool)

  function ControlTable(act: Action, drain: bool, target: Word, mtvec: Word): Controls {
    match act
    case ActReset => Controls(false, false, false, false, false, true, true, true, true, false, 0, false)
    case ActWbTrap => Controls(true, true, true, true, true, true, true, true, true, true, AlignDown4(mtvec), false)
    case ActMemException => Controls(false, true, true, true, true, true, true, true, false, false, 0, true)
    case ActMemWait => Controls(false, false, false, false, true, false, false, false, true, false, 0, drain)
    case ActExException => Controls(false, true, true, true, true, true, true, false, false, false, 0, true)
    case ActExWait => Controls(false, false, false, true, true, false, false, true, false, false, 0, drain)
    case ActTrapDrain => Controls(false, false, true, true, true, false, false, false, false, false, 0, drain)
    case ActExRedirect => Controls(true, true, true, true, true, true, true, false, false, true, target, drain)
    case ActIdException => Controls(false, true, true, true, true, true, false, false, false, false, 0, true)
    case ActIdInterrupt => Controls(false, true, true, true, true, true, false, false, false, false, 0, true)
    case ActIrqStateWait => Controls(false, false, true, true, true, false, true, false, false, false, 0, drain)
    case ActIdHazard => Controls(false, false, true, true, true, false, true, false, false, false, 0, drain)
    case ActAdvance => Controls(true, true, true, true, true, false, false, false, false, false, 0, drain)
  }

  // ----- MEM wires

  /** LSU inputs, with the response-ready bit passed in. */
  function LsuWires(s: CoreState, i: CoreIn, rspReady: bool): LsuIn {
    LsuIn(i.rst, WbTrap(s.w), MemIsMemory(s.m) && !WbTrap(s.w), s.m.memCmd, s.m.memSize, s.m.loadUnsigned,
          s.m.exResult, s.m.storeData, i.dmReady, i.dmRsp, rspReady)
  }

  /** The LSU's outputs do not depend on its response-ready input. */
  function LsuNow(s: CoreState, i: CoreIn): LsuOut { LsuOutput(s.lsu, LsuWires(s, i, false)) }

  predicate MemWait(s: CoreState, i: CoreIn) { MemIsMemory(s.m) && !LsuNow(s, i).rspValid }

  predicate MemException(s: CoreState, i: CoreIn) {
    MemIsMemory(s.m) && LsuNow(s, i).rspValid && LsuNow(s, i).exception.valid
  }

  // ----- EX wires

  predicate ExKill(s: CoreState, i: CoreIn) { WbTrap(s.w) || MemException(s, i) }
  predicate ExReady(s: CoreState, i: CoreIn) { !WbTrap(s.w) && !MemWait(s, i) && !MemException(s, i) }
  predicate ExActive(s: CoreState, i: CoreIn) { s.e.valid && !i.rst && !ExKill(s, i) }

  function FwdA(s: CoreState): Word { ForwardA(s.e, s.m, s.w) }
  function FwdB(s: CoreState): Word { ForwardB(s.e, s.m, s.w) }

  function MulWires(s: CoreState, i: CoreIn): MulIn {
    var go := ExActive(s, i) && IsMul(s.e.ctrl.mduOp) && ExReady(s, i);
    MulIn(i.rst, ExKill(s, i), go && s.mul.phase.MulIdle?, s.e.ctrl.mduOp, FwdA(s), FwdB(s), go)
  }

  function DivWires(s: CoreState, i: CoreIn): DivIn {
    var go := ExActive(s, i) && IsDiv(s.e.ctrl.mduOp) && ExReady(s, i);
    DivIn(i.rst, ExKill(s, i), go && s.div.phase.DivIdle?, s.e.ctrl.mduOp, FwdA(s), FwdB(s), go)
  }

  predicate MduRspValid(s: CoreState, i: CoreIn) {
    !ExKill(s, i) && if IsMul(s.e.ctrl.mduOp) then s.mul.phase.MulResp? else s.div.phase.DivResp?
  }

  function MduResult(s: CoreState): Word {
    if IsMul(s.e.ctrl.mduOp) then s.mul.result else s.div.result
  }

  predicate ExResultValid(s: CoreState, i: CoreIn) { ExActive(s, i) && (!IsMdu(s.e) || MduRspValid(s, i)) }
  predicate ExFire(s: CoreState, i: CoreIn) { ExResultValid(s, i) && ExReady(s, i) }
  predicate ExWait(s: CoreState, i: CoreIn) { ExActive(s, i) && !ExFire(s, i) }

  function CsrData(s: CoreState, i: CoreIn): Word {
    CsrRead(s.csr, s.mcycle, i.mtip, if ExActive(s, i) && !s.e.ctrl.csrCmd.CsrNone? then CsrAddrOf(s.e.insn) else 0)
  }

  function ExOut(s: CoreState, i: CoreIn): ExMem {
    if ExResultValid(s, i) then ExPacket(s.e, FwdA(s), FwdB(s), CsrData(s, i), s.csr.mepc, MduResult(s))
    else EX_MEM_BUBBLE
  }

  predicate ExException(s: CoreState, i: CoreIn) {
    ExResultValid(s, i) && ExOut(s, i).exc.valid && !s.e.exc.valid && ExReady(s, i)
  }

  predicate Redirect(s: CoreState, i: CoreIn) {
    ExFire(s, i) && IsControl(s.e.ctrl) && ControlTaken(s.e, FwdA(s), FwdB(s)) && !ExOut(s, i).exc.valid
  }

  function RedirectTarget(s: CoreState): Word { ControlTarget(s.e, FwdA(s), s.csr.mepc) }

  // ----- ID wires

  function IdDecoded(s: CoreState): IdEx { IdPacket(s.d, s.regs, s.w) }

  predicate IrqEligible(s: CoreState, i: CoreIn) { i.mtip && IrqOn(CsrAfter(s.csr, s.w)) }

  predicate IrqCandidate(s: CoreState, i: CoreIn) {
    !i.rst && !s.drain && IrqEligible(s, i) && !IrqStateWait(s.e, s.m)
    && IdDecoded(s).valid && !IdDecoded(s).exc.valid
  }

  function IdOut(s: CoreState, i: CoreIn): IdEx {
    if IrqCandidate(s, i) then TimerPacket(IdDecoded(s).pc) else IdDecoded(s)
  }

  predicate IdException(s: CoreState, i: CoreIn) {
    IdOut(s, i).valid && IdOut(s, i).exc.valid && !IdOut(s, i).exc.isInterrupt
  }

  predicate IdInterrupt(s: CoreState, i: CoreIn) {
    IdOut(s, i).valid && IdOut(s, i).exc.valid && IdOut(s, i).exc.isInterrupt
  }

  predicate IdHazard(s: CoreState, i: CoreIn) {
    LoadUse(IdOut(s, i), s.e) || CsrDependency(IdOut(s, i), s.e, s.m)
  }

  // ----- action and next state

  function SelectAction(s: CoreState, i: CoreIn): Action {
    if i.rst then ActReset
    else if WbTrap(s.w) then ActWbTrap
    else if MemException(s, i) then ActMemException
    else if MemWait(s, i) then ActMemWait
    else if ExException(s, i) then ActExException
    else if ExWait(s, i) then ActExWait
    else if s.drain then ActTrapDrain
    else if Redirect(s, i) then ActExRedirect
    else if IrqStateWait(s.e, s.m) then ActIrqStateWait
    else if IdException(s, i) then ActIdException
    else if IdInterrupt(s, i) then ActIdInterrupt
    else if IdHazard(s, i) then ActIdHazard
    else ActAdvance
  }

  function ControlsNow(s: CoreState, i: CoreIn): Controls {
    ControlTable(SelectAction(s, i), s.drain, RedirectTarget(s), s.csr.mtvec)
  }

  function FetchWires(s: CoreState, i: CoreIn): IfIn {
    var c := ControlsNow(s, i);
    IfIn(i.rst, c.pcEnable, c.ifIdEnable && !c.ifIdFlush, c.ifIdFlush, c.redirectValid, c.redirectPc,
         i.imReady, i.imRsp)
  }

  predicate LsuRspReady(s: CoreState, i: CoreIn) {
    ControlsNow(s, i).memWbEnable && !ControlsNow(s, i).memWbFlush && !WbTrap(s.w)
  }

  /** Operand refresh of a held packet whose producer is committing. */
  function Refresh(e: IdEx, w: MemWb): IdEx {
    if !(e.valid && WbRegWrite(w)) then e
    else e.(rs1Value := if e.ctrl.usesRs1 && e.rs1 == w.rd then w.wbData else e.rs1Value,
            rs2Value := if e.ctrl.usesRs2 && e.rs2 == w.rd then w.wbData else e.rs2Value)
  }

  function NextD(s: CoreState, i: CoreIn): IfId {
    var c := ControlsNow(s, i);
    if i.rst || c.ifIdFlush then IF_ID_BUBBLE
    else if c.ifIdEnable then FetchOut(s.fe, FetchWires(s, i)) else s.d
  }

  function NextE(s: CoreState, i: CoreIn): IdEx {
    var c := ControlsNow(s, i);
    if i.rst || c.idExFlush then ID_EX_BUBBLE
    else if c.idExEnable then IdOut(s, i) else Refresh(s.e, s.w)
  }

  function NextM(s: CoreState, i: CoreIn): ExMem {
    var c := ControlsNow(s, i);
    if i.rst || c.exMemFlush then EX_MEM_BUBBLE
    else if c.exMemEnable then ExOut(s, i) else s.m
  }

  function NextW(s: CoreState, i: CoreIn): MemWb {
    var c := ControlsNow(s, i);
    if i.rst || c.memWbFlush then MEM_WB_BUBBLE
    else if c.memWbEnable then MemPacket(s.m, LsuNow(s, i)) else s.w
  }

  function Next(s: CoreState, i: CoreIn, p: Params): CoreState {
    CoreState(
      IfNext(s.fe, FetchWires(s, i), p.resetVector),
      NextD(s, i), NextE(s, i),
      MulNext(s.mul, MulWires(s, i)), DivNext(s.div, DivWires(s, i)),
      NextM(s, i), LsuNext(s.lsu, LsuWires(s, i, LsuRspReady(s, i))), NextW(s, i),
      RegsAfter(s.regs, s.w),
      if i.rst then CsrResetArch(p.trapVector) else CsrAfter(s.csr, s.w),
      if i.rst then 0 else McycleNext(s.mcycle, CommitPorts(s.w)),
      if i.rst then false else ControlsNow(s, i).drainNext)
  }
}
