/** The core with its two memory ports and the history a proof needs: accepted,
    unanswered requests, and what each packet learned from outside. */
module System {
  import opened Rv32Types
  import opened Decoder
  import opened DivUnit
  import opened MulUnit
  import opened CsrFile
  import opened IfStage
  import opened Lsu
  import opened PipelineStages
  import opened Rv32Core
  import opened FetchOrder
  import opened Isa
  import opened Staged

  /** MTIP when the packet entered ID/EX, and the CSR data it read in EX. */
  datatype Tag = Tag(mtip: bool, timing: Word)

  /** One completed data-port transaction. */
  datatype Txn = Txn(req: MemReq, rdata: Word, err: bool)

  datatype Sys = Sys(core: CoreState, imOut: Option<Word>, dmOut: Option<MemReq>,
                     tipE: bool, tagM: Tag, tagW: Tag, txnW: Option<Txn>)

  predicate ImFire(s: CoreState, i: CoreIn) { IfFire(s.fe, FetchWires(s, i)) }
  function ImAddr(s: CoreState, i: CoreIn): Word { IfReqAddr(s.fe, FetchWires(s, i)) }
  predicate DmFire(s: CoreState, i: CoreIn) { LsuFire(s.lsu, LsuWires(s, i, false)) }
  function DmReq(s: CoreState, i: CoreIn): MemReq { LsuReq(s.lsu, LsuWires(s, i, false)) }

  /** What the two memories promise: a response answers an accepted request, in
      order and once; instruction words come from the program; and nothing is
      accepted on the data port during reset. */
  predicate Env(y: Sys, i: CoreIn, prog: Program) {
    && FetchEnv(y.core.fe, FetchWires(y.core, i), y.imOut, prog)
    && (i.dmRsp.valid ==> y.dmOut.Some? || DmFire(y.core, i))
    && (i.rst ==> !i.dmReady)
  }

  /** The request a data response in this cycle answers. */
  function Answered(y: Sys, i: CoreIn): MemReq {
    if y.dmOut.Some? then y.dmOut.value else DmReq(y.core, i)
  }

  /** The bus transaction completed by the packet that moves from EX/MEM to MEM/WB. */
  function TxnOf(y: Sys, i: CoreIn): Option<Txn> {
    var s := y.core;
    if !i.rst && MemIsMemory(s.m) && LsuNow(s, i).rspValid && !s.lsu.phase.LsuResp? then
      Some(Txn(Answered(y, i), i.dmRsp.rdata, i.dmRsp.err))
    else None
  }

  function SysNext(y: Sys, i: CoreIn, p: Params): Sys {
    var s, act := y.core, SelectAction(y.core, i);
    Sys(Next(s, i, p),
        OutNext(y.imOut, ImFire(s, i), ImAddr(s, i), i.imRsp.valid),
        OutNext(y.dmOut, DmFire(s, i), DmReq(s, i), i.dmRsp.valid),
        if Issues(act) then i.mtip else y.tipE,
        if act.ActMemWait? then y.tagM else Tag(y.tipE, CsrData(s, i)),
        y.tagM, TxnOf(y, i))
  }

  // ----- what each action does to the pipeline registers

  predicate Holds(act: Action) { act.ActMemWait? || act.ActExWait? }

  predicate Issues(act: Action) {
    act.ActTrapDrain? || act.ActIdException? || act.ActIdInterrupt? || act.ActAdvance?
  }

  predicate Passes(act: Action) {
    act.ActExException? || act.ActTrapDrain? || act.ActExRedirect? || act.ActIrqStateWait?
    || act.ActIdException? || act.ActIdInterrupt? || act.ActIdHazard? || act.ActAdvance?
  }

  predicate KeepsD(act: Action) {
    act.ActMemWait? || act.ActExWait? || act.ActTrapDrain? || act.ActIrqStateWait? || act.ActIdHazard?
  }

  lemma Shapes(s: CoreState, i: CoreIn, p: Params)
    requires !i.rst
    ensures var act := SelectAction(s, i);
      && !act.ActReset?
      && Next(s, i, p).d == (if act.ActAdvance? then FetchOut(s.fe, FetchWires(s, i)) else if KeepsD(act) then s.d else IF_ID_BUBBLE)
      && Next(s, i, p).e == (if Holds(act) then Refresh(s.e, s.w) else if Issues(act) then IdOut(s, i) else ID_EX_BUBBLE)
      && Next(s, i, p).m == (if act.ActMemWait? then s.m else if Passes(act) then ExOut(s, i) else EX_MEM_BUBBLE)
      && Next(s, i, p).w == (if act.ActWbTrap? || act.ActMemWait? then MEM_WB_BUBBLE else MemPacket(s.m, LsuNow(s, i)))
  {
    hide SelectAction, FetchOut, FetchWires, Refresh, IdOut, ExOut, MemPacket, LsuNow, IfNext, MulNext, DivNext,
         LsuNext, MulWires, DivWires, LsuWires, RegsAfter, CsrAfter, McycleNext, CommitPorts, RedirectTarget;
    var act := SelectAction(s, i);
    assert !act.ActReset? by { SelectNotReset(s, i); }
    match act {
      case ActReset =>
      case ActWbTrap =>
      case ActMemException =>
      case ActMemWait =>
      case ActExException =>
      case ActExWait =>
      case ActTrapDrain =>
      case ActExRedirect =>
      case ActIrqStateWait =>
      case ActIdException =>
      case ActIdInterrupt =>
      case ActIdHazard =>
      case ActAdvance =>
    }
  }

  lemma SelectNotReset(s: CoreState, i: CoreIn)
    requires !i.rst
    ensures !SelectAction(s, i).ActReset?
  {
  }

  /** What fetch and the drain flag see of each action. */
  lemma FetchShapes(s: CoreState, i: CoreIn, p: Params)
    requires !i.rst
    ensures var act, f := SelectAction(s, i), FetchWires(s, i);
      && !f.rst
      && f.redirectValid == (act.ActWbTrap? || act.ActExRedirect?)
      && (act.ActWbTrap? ==> f.redirectPc == AlignDown4(s.csr.mtvec))
      && (act.ActExRedirect? ==> f.redirectPc == RedirectTarget(s))
      && f.flush == (!act.ActAdvance? && !KeepsD(act))
      && f.consume == act.ActAdvance?
      && Next(s, i, p).fe == IfNext(s.fe, f, p.resetVector)
      && Next(s, i, p).drain ==
         if act.ActWbTrap? then false
         else if act.ActMemException? || act.ActExException? || act.ActIdException? || act.ActIdInterrupt? then true
         else s.drain
  {
    hide SelectAction, FetchOut, Refresh, IdOut, ExOut, MemPacket, LsuNow, IfNext, MulNext, DivNext,
         LsuNext, MulWires, DivWires, LsuWires, RegsAfter, CsrAfter, McycleNext, CommitPorts, RedirectTarget;
    SelectNotReset(s, i);
  }

  /** The guards an action implies, in age order. */
  lemma ActionMeans(s: CoreState, i: CoreIn)
    requires !i.rst
    ensures var act := SelectAction(s, i);
      && (act.ActWbTrap? <==> WbTrap(s.w))
      && (act.ActMemException? <==> !WbTrap(s.w) && MemException(s, i))
      && (act.ActMemWait? <==> !WbTrap(s.w) && MemWait(s, i))
      && (act.ActExException? ==> ExException(s, i))
      && (act.ActExWait? ==> ExWait(s, i) && !ExException(s, i))
      && (Passes(act) && !act.ActExException? ==> !ExWait(s, i) && !ExException(s, i))
      && (Passes(act) || act.ActExWait? ==> !WbTrap(s.w) && !MemWait(s, i) && !MemException(s, i))
      && (act.ActTrapDrain? ==> s.drain)
      && (act.ActExRedirect? ==> !s.drain && Redirect(s, i))
      && (Issues(act) && !act.ActTrapDrain? ==> !s.drain && !Redirect(s, i) && !IrqStateWait(s.e, s.m))
      && (act.ActIrqStateWait? || act.ActIdHazard? ==> !s.drain && !Redirect(s, i))
      && (act.ActIdException? ==> IdException(s, i))
      && (act.ActIdInterrupt? ==> IdInterrupt(s, i))
      && (act.ActAdvance? ==> !IdException(s, i) && !IdInterrupt(s, i) && !IdHazard(s, i))
      && (Passes(act) && !act.ActExException? && !s.drain && Redirect(s, i) ==> act.ActExRedirect?)
  {
    hide WbTrap, ExException, ExWait, Redirect, IrqStateWait, IdException, IdInterrupt, IdHazard;
    assert !(MemException(s, i) && MemWait(s, i));
  }
}
