/** The LSU and EX/MEM: one accepted request an instruction, answered once, never
    on behalf of another instruction. */
module LsuLink {
  import opened Rv32Types
  import opened CsrFile
  import opened IfStage
  import opened DivUnit
  import opened MulUnit
  import opened Lsu
  import opened PipelineStages
  import opened Rv32Core
  import opened FetchOrder
  import opened Staged
  import opened System
  import opened Invariant

  /** LSU inputs outside reset while no older trap commits. */
  function Wires(m: ExMem, ready: bool, rsp: MemRsp, rspReady: bool): LsuIn {
    LsuIn(false, false, MemIsMemory(m), m.memCmd, m.memSize, m.loadUnsigned, m.exResult, m.storeData, ready, rsp, rspReady)
  }

  /** A load carries zero store data, so its lanes are zero too. */
  lemma ZeroLanes(size: MemSize, addr: Word)
    ensures StoreLanes(size, addr, 0) == 0
  {
  }

  /** A response handed to EX/MEM is the answer to its own request. */
  lemma AnswerIsOwn(l: LsuState, m: ExMem, dmOut: Option<MemReq>, ready: bool, rsp: MemRsp)
    requires LsuOk(l, m, dmOut) && MemIsMemory(m) && MFacts(m)
    ensures var w := Wires(m, ready, rsp, false); var o := LsuOutput(l, w);
      o.rspValid ==>
        if l.phase.LsuResp? then RequestOf(m) == None && o == Answer(m, 0, false)
        else && o == Answer(m, rsp.rdata, rsp.err)
             && RequestOf(m) == Some(if dmOut.Some? then dmOut.value else LsuReq(l, w))
             && (dmOut.Some? || LsuFire(l, w))
  {
    ZeroLanes(m.memSize, m.exResult);
    hide ExtractLoad, StoreStrobe, StoreLanes, Misaligned, MisalignedExc, AccessExc, AlignDown4;
  }

  /** Stable requests: an unaccepted request is offered again unchanged, and at
      most one request is outstanding. */
  lemma RequestStable(l: LsuState, m: ExMem, dmOut: Option<MemReq>, ready: bool, rsp: MemRsp, rspReady: bool)
    requires LsuOk(l, m, dmOut) && MFacts(m)
    ensures var w := Wires(m, ready, rsp, rspReady);
      && (LsuReqValid(l, w) ==> Some(LsuReq(l, w)) == RequestOf(m) && dmOut.None?)
      && (LsuReqValid(l, w) && !ready ==> LsuNext(l, w).phase.LsuBusy? && !LsuNext(l, w).requestSent)
  {
    ZeroLanes(m.memSize, m.exResult);
    hide ExtractLoad, StoreStrobe, StoreLanes, Misaligned, MisalignedExc, AccessExc, AlignDown4;
  }

  /** EX/MEM waits: the LSU keeps working for the same packet. */
  lemma LsuWaits(l: LsuState, m: ExMem, dmOut: Option<MemReq>, ready: bool, rsp: MemRsp)
    requires LsuOk(l, m, dmOut) && MemIsMemory(m) && MFacts(m)
    requires !LsuOutput(l, Wires(m, ready, rsp, false)).rspValid
    requires rsp.valid ==> dmOut.Some? || LsuFire(l, Wires(m, ready, rsp, false))
    ensures var w := Wires(m, ready, rsp, false);
      LsuOk(LsuNext(l, w), m, OutNext(dmOut, LsuFire(l, w), LsuReq(l, w), rsp.valid))
  {
    ZeroLanes(m.memSize, m.exResult);
    hide ExtractLoad, StoreStrobe, StoreLanes, Misaligned, MisalignedExc, AccessExc, AlignDown4;
  }

  /** EX/MEM moves on, or holds no memory operation: the LSU is left idle or draining. */
  lemma LsuFrees(l: LsuState, m: ExMem, dmOut: Option<MemReq>, ready: bool, rsp: MemRsp, m2: ExMem)
    requires LsuOk(l, m, dmOut)
    requires MemIsMemory(m) ==> LsuOutput(l, Wires(m, ready, rsp, true)).rspValid
    requires rsp.valid ==> dmOut.Some? || LsuFire(l, Wires(m, ready, rsp, true))
    ensures var w := Wires(m, ready, rsp, true);
      LsuOk(LsuNext(l, w), m2, OutNext(dmOut, LsuFire(l, w), LsuReq(l, w), rsp.valid))
  {
    hide ExtractLoad, StoreStrobe, StoreLanes, Misaligned, MisalignedExc, AccessExc, BusRequest;
  }

  /** A committing trap finds EX/MEM empty, so the kill input drops no live access. */
  lemma LsuKilled(l: LsuState, w: LsuIn, dmOut: Option<MemReq>, m: ExMem, m2: ExMem)
    requires LsuOk(l, m, dmOut) && !MemIsMemory(m)
    requires !w.rst && w.kill && !w.reqValid
    requires w.rsp.valid ==> dmOut.Some? || LsuFire(l, w)
    ensures LsuOk(LsuNext(l, w), m2, OutNext(dmOut, LsuFire(l, w), LsuReq(l, w), w.rsp.valid))
    ensures !LsuFire(l, w)
  {
    hide ExtractLoad, StoreStrobe, StoreLanes, Misaligned, MisalignedExc, AccessExc, BusRequest;
  }

  /** Reset keeps an accepted request only to drop its answer. */
  lemma LsuResets(l: LsuState, w: LsuIn, dmOut: Option<MemReq>, m2: ExMem)
    requires w.rst && !w.reqReady && (dmOut.Some? <==> l.phase.LsuBusy? && l.requestSent)
    ensures LsuOk(LsuNext(l, w), m2, OutNext(dmOut, LsuFire(l, w), LsuReq(l, w), w.rsp.valid))
  {
  }

  // ----- at the level of the core

  lemma WiresMatch(s: CoreState, i: CoreIn, ready: bool)
    requires !i.rst && !WbTrap(s.w)
    ensures LsuWires(s, i, ready) == Wires(s.m, i.dmReady, i.dmRsp, ready)
    ensures LsuOutput(s.lsu, LsuWires(s, i, ready)) == LsuNow(s, i)
    ensures LsuFire(s.lsu, LsuWires(s, i, ready)) == DmFire(s, i)
    ensures LsuReq(s.lsu, LsuWires(s, i, ready)) == DmReq(s, i)
  {
    hide ExtractLoad, StoreStrobe, StoreLanes, Misaligned, MisalignedExc, AccessExc, BusRequest;
  }

  lemma RspReadyIs(s: CoreState, i: CoreIn)
    requires !i.rst
    ensures LsuRspReady(s, i) == (!WbTrap(s.w) && !MemWait(s, i))
  {
    ActionMeans(s, i);
    SelectNotReset(s, i);
    hide SelectAction, WbTrap, MemWait, MemException, ExException, ExWait, Redirect, IrqStateWait,
         IdException, IdInterrupt, IdHazard, RedirectTarget, Passes;
  }

  /** Every clock edge outside reset keeps the link between the LSU and EX/MEM. */
  lemma LsuStep(y: Sys, i: CoreIn, p: Params, prog: Program)
    requires Inv(y, prog) && Env(y, i, prog) && !i.rst
    ensures LsuOk(Next(y.core, i, p).lsu, Next(y.core, i, p).m, SysNext(y, i, p).dmOut)
  {
    var s := y.core;
    var m2 := Next(s, i, p).m;
    RspReadyIs(s, i);
    ActionMeans(s, i);
    Shapes(s, i, p);
    assert LsuOk(s.lsu, s.m, y.dmOut);
    InvFacts(y, prog);
    assert WbTrap(s.w) ==> !s.m.valid;
    hide Inv, Env, MFacts, EFacts, WFacts, SelectAction, NextD, NextE, NextW, NextM, IfNext, MulNext, DivNext,
         CsrAfter, RegsAfter, LsuOk, LsuNext,
         LsuOutput, LsuFire, LsuReq, ControlsNow, LsuRspReady, ImFire, ImAddr, CsrData, FetchOut, IdOut, ExOut, MemPacket;
    assert i.dmRsp.valid ==> y.dmOut.Some? || DmFire(s, i) by { EnvData(y, i, prog); }
    if WbTrap(s.w) {
      KilledFire(s, i);
      LsuKilled(s.lsu, LsuWires(s, i, false), y.dmOut, s.m, m2);
    } else {
      WiresMatch(s, i, false);
      WiresMatch(s, i, true);
      if MemWait(s, i) {
        LsuWaits(s.lsu, s.m, y.dmOut, i.dmReady, i.dmRsp);
      } else {
        LsuFrees(s.lsu, s.m, y.dmOut, i.dmReady, i.dmRsp, m2);
      }
    }
  }

  lemma EnvData(y: Sys, i: CoreIn, prog: Program)
    requires Env(y, i, prog)
    ensures i.dmRsp.valid ==> y.dmOut.Some? || DmFire(y.core, i)
  {
  }

  lemma KilledFire(s: CoreState, i: CoreIn)
    requires WbTrap(s.w)
    ensures LsuWires(s, i, false).kill && !LsuWires(s, i, false).reqValid
  {
  }

  /** What moves into MEM/WB is the stages' result for the answer on the port. */
  lemma MemStageStep(y: Sys, i: CoreIn, prog: Program)
    requires Inv(y, prog) && !i.rst && !WbTrap(y.core.w) && !MemWait(y.core, i) && y.core.m.valid
    ensures var t := TxnOf(y, i);
      && MemPacket(y.core.m, LsuNow(y.core, i)) == StagedW(y.core.m, TxnRdata(t), TxnErr(t))
      && TxnReq(t) == RequestOf(y.core.m)
  {
    var s := y.core;
    assert LsuOk(s.lsu, s.m, y.dmOut);
    InvFacts(y, prog);
    hide Inv, MFacts, EFacts, WFacts;
    WiresMatch(s, i, false);
    if MemIsMemory(s.m) {
      AnswerIsOwn(s.lsu, s.m, y.dmOut, i.dmReady, i.dmRsp);
      hide LsuOk, LsuOutput, Answer, RequestOf, MemoryPacket, LsuReq, LsuFire;
    } else {
      hide LsuOk, LsuOutput, Answer, MemoryPacket, LsuReq, LsuFire;
    }
  }
}
