/** Consequences of the invariant, each stated the way a user of the core would. */
module Properties {
  import opened Rv32Types
  import opened Decoder
  import opened DivUnit
  import opened MulUnit
  import opened CsrFile
  import opened IfStage
  import opened Lsu
  import opened PipelineStages
  import opened Rv32Core
  import opened FetchOrder
  import opened Isa
  import opened Staged
  import opened System
  import opened Invariant
  import opened Operands
  import opened LsuLink
  import opened DrainChain
  import opened Packets
  import opened ExStep
  import opened Refinement

  // ----- precise traps

  function Count(b: bool): nat { if b then 1 else 0 }

  /** Exception packets in ID/EX, EX/MEM and MEM/WB. */
  function Offenders(s: CoreState): nat {
    Count(s.e.valid && s.e.exc.valid) + Count(s.m.valid && s.m.exc.valid) + Count(WbTrap(s.w))
  }

  /** The drain flag holds exactly when one exception packet is in flight, there is
      never a second one, and every slot younger than it is a bubble. */
  lemma PreciseTraps(y: Sys, prog: Program)
    requires Inv(y, prog)
    ensures Offenders(y.core) == Count(y.core.drain)
    ensures y.core.drain ==> !y.core.d.valid
    ensures y.core.m.valid && y.core.m.exc.valid ==> !y.core.e.valid
    ensures WbTrap(y.core.w) ==> !y.core.e.valid && !y.core.m.valid
  {
    assert DrainOk(y.core.d, y.core.e, y.core.m, y.core.w, y.core.drain);
    hide Inv;
  }

  // ----- stores are never speculative

  /** A packet in EX/MEM is never squashed: it waits there or moves to MEM/WB, and a
      packet in MEM/WB commits at once. */
  lemma OnceInMemCommits(y: Sys, i: CoreIn, p: Params, prog: Program)
    requires Inv(y, prog) && !i.rst && y.core.m.valid
    ensures var s, t := y.core, Next(y.core, i, p);
      if MemWait(s, i) then t.m == s.m && !t.w.valid else t.w.valid && t.w.pc == s.m.pc
  {
    var s := y.core;
    assert DrainOk(s.d, s.e, s.m, s.w, s.drain);
    ActionMeans(s, i);
    Shapes(s, i, p);
    if !MemWait(s, i) { MemOutMeans(s, i); }
    hide Inv, Next, SelectAction, MemPacket, MemWait, MemException, LsuNow;
  }

  /** A request on the data port belongs to the packet in EX/MEM, keeps its address,
      direction, data and strobes until accepted, and is the only one outstanding. */
  lemma DataRequestStable(y: Sys, i: CoreIn, p: Params, prog: Program)
    requires Inv(y, prog) && Env(y, i, prog) && !i.rst && LsuReqValid(y.core.lsu, LsuWires(y.core, i, false))
    ensures Some(DmReq(y.core, i)) == RequestOf(y.core.m) && y.dmOut.None?
    ensures !i.dmReady ==>
              var t := SysNext(y, i, p);
              t.core.m == y.core.m && forall j: CoreIn :: !j.rst ==>
                LsuReqValid(t.core.lsu, LsuWires(t.core, j, false)) && DmReq(t.core, j) == DmReq(y.core, i)
  {
    var s := y.core;
    InvFacts(y, prog);
    assert LsuOk(s.lsu, s.m, y.dmOut) && (WbTrap(s.w) ==> !s.m.valid);
    OfferNeedsPacket(y, i, prog);
    WiresMatch(s, i, false);
    RequestStable(s.lsu, s.m, y.dmOut, i.dmReady, i.dmRsp, false);
    if !i.dmReady {
      ActionMeans(s, i);
      Shapes(s, i, p);
      InvStep(y, i, p, prog);
      InvFacts(SysNext(y, i, p), prog);
      var t := SysNext(y, i, p);
      TipNext(y, i, p);
      DataSide(y, i, p);
      RspReadyIs(s, i);
      WaitsWhileOffered(s, i, y.dmOut);
      assert LsuOk(t.core.lsu, t.core.m, t.dmOut) && (WbTrap(t.core.w) ==> !t.core.m.valid);
      forall j: CoreIn | !j.rst
        ensures LsuReqValid(t.core.lsu, LsuWires(t.core, j, false)) && DmReq(t.core, j) == DmReq(s, i)
      {
        hide Inv, Env, SysNext, Next, LsuNext, LsuOutput, RequestOf, TxnOf, SelectAction, MFacts, EFacts, WFacts, LsuOk, WbTrap,
             MemIsMemory, ExtractLoad, StoreStrobe, StoreLanes, Misaligned, BusRequest;
        SavedOffered(t.core, j);
        SavedIs(t.core.lsu, t.core.m, t.dmOut, LsuWires(t.core, j, false));
      }
    }
  }

  lemma SavedOffered(s: CoreState, j: CoreIn)
    requires s.lsu.phase.LsuBusy? && !s.lsu.requestSent
    ensures LsuReqValid(s.lsu, LsuWires(s, j, false))
  {
  }

  lemma SavedIs(l: LsuState, m: ExMem, dmOut: Option<MemReq>, w: LsuIn)
    requires LsuOk(l, m, dmOut) && MFacts(m) && l.phase.LsuBusy? && !l.requestSent
    ensures Some(LsuReq(l, w)) == RequestOf(m)
  {
    ZeroLanes(m.memSize, m.exResult);
    hide ExtractLoad, StoreStrobe, StoreLanes, Misaligned, AlignDown4;
  }

  lemma OfferNeedsPacket(y: Sys, i: CoreIn, prog: Program)
    requires Inv(y, prog) && !i.rst && LsuReqValid(y.core.lsu, LsuWires(y.core, i, false))
    ensures y.core.m.valid && !WbTrap(y.core.w)
  {
    var s := y.core;
    assert LsuOk(s.lsu, s.m, y.dmOut) && DrainOk(s.d, s.e, s.m, s.w, s.drain);
    hide Inv, StoreStrobe, StoreLanes, BusRequest;
  }

  lemma WaitsWhileOffered(s: CoreState, i: CoreIn, dmOut: Option<MemReq>)
    requires !i.rst && !WbTrap(s.w) && LsuOk(s.lsu, s.m, dmOut) && dmOut.None?
    requires LsuReqValid(s.lsu, LsuWires(s, i, false)) && !i.dmReady
    ensures MemWait(s, i)
  {
    hide ExtractLoad, StoreStrobe, StoreLanes, BusRequest, LoadResult, AccessExc;
  }

  // ----- redirects and alignment

  /** Every accepted redirect is carried out in its own cycle, never masked. */
  lemma RedirectCarriedOut(y: Sys, i: CoreIn, p: Params, prog: Program)
    requires Inv(y, prog) && Env(y, i, prog) && !i.rst && Redirect(y.core, i)
    ensures SelectAction(y.core, i).ActExRedirect?
    ensures FetchPc(Next(y.core, i, p).fe) == RedirectTarget(y.core) && Aligned4(RedirectTarget(y.core))
    ensures !Next(y.core, i, p).d.valid && !Next(y.core, i, p).e.valid
  {
    var s := y.core;
    assert DrainOk(s.d, s.e, s.m, s.w, s.drain);
    ActionMeans(s, i);
    RedirectFires(s, i);
    FireAction(s, i);
    ExOutMeans(s, i);
    Shapes(s, i, p);
    RedirectAligned(s, i);
    FrontStep(y, i, p, prog);
    hide Inv, Env, Next, SelectAction, Redirect, RedirectTarget, ExFire, MemWait, MemException, FetchInv, DOk, FetchPc, ExOut,
         ExPacket, SysNext;
  }

  lemma RedirectFires(s: CoreState, i: CoreIn)
    requires Redirect(s, i)
    ensures ExFire(s, i) && !ExOut(s, i).exc.valid
  {
    hide ExFire, ExOut;
  }

  /** Every PC held anywhere, and both PC-valued CSRs, are four-byte aligned. */
  lemma EveryPcAligned(y: Sys, prog: Program)
    requires Inv(y, prog)
    ensures Aligned4(FetchPc(y.core.fe)) && Aligned4(OldestPc(y.core))
    ensures Aligned4(y.core.csr.mtvec) && Aligned4(y.core.csr.mepc)
    ensures y.core.fe.busy ==> Aligned4(y.core.fe.requestPc)
  {
    assert AlignedOk(y.core) && FetchInv(y.core.fe, y.imOut, prog);
    FetchPcAligned(y.core.fe, y.imOut, prog);
  }

  /** So MRET never raises a misaligned-target fault. */
  lemma MretNeverMisaligned(y: Sys, prog: Program)
    requires Inv(y, prog) && y.core.e.valid && !y.core.e.exc.valid && y.core.e.ctrl.isMret
    ensures ExExc(y.core.e, FwdA(y.core), FwdB(y.core), y.core.csr.mepc) == y.core.e.exc
  {
    InvFacts(y, prog);
    assert CsrWf(y.core.csr);
    hide Inv, FwdA, FwdB, BranchTaken, BranchTarget, Implemented, Writable;
  }

  // ----- interrupts

  /** A fault-free instruction leaves ID as itself exactly when the timer interrupt is
      not both pending and enabled by the state after the committing packet; that state's
      enables are the program-order ones, since nothing between writes them. */
  lemma InterruptBoundary(y: Sys, i: CoreIn, p: Params, prog: Program)
    requires Inv(y, prog) && !i.rst && Issues(SelectAction(y.core, i)) && y.core.d.valid && !IdDecoded(y.core).exc.valid
    ensures var s, t := y.core, Next(y.core, i, p);
      && t.e == (if i.mtip && CsrAfter(s.csr, s.w).mie && CsrAfter(s.csr, s.w).mtie then TimerPacket(s.d.pc) else IdDecoded(s))
      && !IdExIrqWriter(s.e) && !ExMemIrqWriter(s.m)
  {
    var s := y.core;
    assert DrainOk(s.d, s.e, s.m, s.w, s.drain);
    ActionMeans(s, i);
    Shapes(s, i, p);
    IdOutMeans(s, i);
    hide Inv, Next, SelectAction, CsrAfter, Decode, IdOperand, IdExIrqWriter, ExMemIrqWriter, MemWait, MemException;
  }

  /** A timer packet in flight implies both enables are committed and stay so until it traps. */
  lemma InterruptEnabled(y: Sys, prog: Program)
    requires Inv(y, prog)
    ensures y.core.e.valid && y.core.e.exc.isInterrupt ==>
              var after := CsrAfter(y.core.csr, y.core.w);
              y.tipE && y.core.csr.mie && y.core.csr.mtie && after.mie && after.mtie
    ensures y.core.w.valid && y.core.w.exc.valid && y.core.w.exc.isInterrupt ==>
              y.tagW.mtip && y.core.csr.mie && y.core.csr.mtie
  {
    var s := y.core;
    assert EOk(prog, s.e, s.regs, s.csr, y.tipE) && WOk(prog, s.w, s.regs, s.csr, y.tagW, y.txnW);
    assert IrqSafe(s.e, s.m, s.w) && DrainOk(s.d, s.e, s.m, s.w, s.drain);
    hide Inv, CsrAfter, IdOperand, Decode;
    if s.e.valid { IrqOnKept(s.csr, s.w); }
    InterruptOnlyTimer(prog, s.e.pc, s.regs, IrqOn(s.csr), y.tipE);
    InterruptOnlyTimer(prog, s.w.pc, s.regs, IrqOn(s.csr), y.tagW.mtip);
    hide StagedE;
    if s.w.valid {
      CarriesExc(StagedE(prog, s.w.pc, s.regs, IrqOn(s.csr), y.tagW.mtip), s.csr, y.tagW.timing,
                 TxnRdata(y.txnW), TxnErr(y.txnW));
    }
  }

  lemma InterruptOnlyTimer(prog: Program, pc: Word, regs: Regs, irqOn: bool, mtip: bool)
    ensures StagedE(prog, pc, regs, irqOn, mtip).exc.isInterrupt ==> mtip && irqOn
    ensures StagedE(prog, pc, regs, irqOn, mtip).valid
  {
    hide Decode, IdOperand;
  }

  lemma CarriesExc(e: IdEx, c: CsrArch, timing: Word, rdata: Word, err: bool)
    requires e.valid
    ensures StagedW(StagedM(e, c, timing), rdata, err).exc.isInterrupt ==> e.exc.isInterrupt
  {
    hide Alu, CsrValue, BranchTaken, BranchTarget, AccessIllegal, MduFn, LoadResult, Misaligned, StoreStrobe, StoreLanes;
  }

  // ----- multiplier and divider

  /** A busy unit works for the fault-free packet in ID/EX, one unit at a time, and its
      answer is the ISA function of that packet's own operands. */
  lemma MduOwned(y: Sys, prog: Program)
    requires Inv(y, prog)
    ensures !y.core.mul.phase.MulIdle? || !y.core.div.phase.DivIdle? ==>
              y.core.e.valid && IsMdu(y.core.e)
              && (y.core.mul.phase.MulIdle? || y.core.div.phase.DivIdle?)
    ensures y.core.mul.phase.MulResp? ==> y.core.mul.result == IsaMul(y.core.e.ctrl.mduOp, FwdA(y.core), FwdB(y.core))
    ensures y.core.div.phase.DivResp? ==> y.core.div.result == IsaDiv(y.core.e.ctrl.mduOp, FwdA(y.core), FwdB(y.core))
  {
    assert MduOk(y.core);
    hide Inv, FwdA, FwdB, IsaMul, IsaDiv;
  }

  // ----- reset and the data port

  /** The LSU tells its outstanding requests apart from the port's across a reset edge
      exactly when no saved, unsent request is accepted, unanswered, during it. */
  lemma ResetNeedsQuietPort(l: LsuState, w: LsuIn, dmOut: Option<MemReq>)
    requires w.rst && (dmOut.Some? <==> l.phase.LsuBusy? && l.requestSent)
    ensures var l2, out2 := LsuNext(l, w), OutNext(dmOut, LsuFire(l, w), LsuReq(l, w), w.rsp.valid);
      (out2.Some? <==> l2.phase.LsuBusy? && l2.requestSent) <==> !(IssueSaved(l) && w.reqReady && !w.rsp.valid)
  {
  }

  /** The exclusion is needed: such an acceptance leaves an answer nobody expects. */
  lemma ResetAcceptanceLosesTrack()
    ensures exists l: LsuState, w: LsuIn ::
      w.rst && l.phase.LsuBusy? && !l.requestSent && LsuFire(l, w)
      && OutNext(None, LsuFire(l, w), LsuReq(l, w), w.rsp.valid).Some? && LsuNext(l, w).phase.LsuIdle?
  {
    var l := LSU_RESET.(phase := LsuBusy, cmd := MemLoad);
    var w := LsuIn(true, false, false, MemNone, MemWord, false, 0, 0, true, MemRsp(false, 0, false), false);
    assert LsuFire(l, w) && LsuNext(l, w).phase.LsuIdle?;
  }
}
