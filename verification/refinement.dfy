/** The core refines the sequential machine: the invariant holds in every
    reachable state, and the commit stream of every run is a sequential run. */
module Refinement {
  import opened Rv32Types
  import opened Decoder
  import opened DivUnit
  import opened MulUnit
  import opened CsrFile
  import opened IfStage
  import opened Lsu
  import opened PipelineStages
  import opened Rv32Core
  import opened FetchOrder
  import opened Isa
  import opened Staged
  import opened System
  import opened Invariant
  import opened LsuLink
  import opened DrainChain
  import opened Packets
  import opened ExStep

  /** The two ports account for what was accepted and not answered. */
  predicate PortsOk(y: Sys) {
    && (y.imOut.Some? <==> y.core.fe.busy && y.core.fe.requestSent)
    && (y.dmOut.Some? <==> y.core.lsu.phase.LsuBusy? && y.core.lsu.requestSent)
  }

  lemma InvPorts(y: Sys, prog: Program)
    requires Inv(y, prog)
    ensures PortsOk(y)
  {
    var s := y.core;
    assert FetchInv(s.fe, y.imOut, prog) && LsuOk(s.lsu, s.m, y.dmOut);
    hide Inv;
  }

  // ----- invariance

  lemma InvStep(y: Sys, i: CoreIn, p: Params, prog: Program)
    requires Inv(y, prog) && Env(y, i, prog) && !i.rst
    ensures Inv(SysNext(y, i, p), prog)
  {
    var s := y.core;
    DrainStep(y, i, p, prog);
    ChainStep(y, i, p, prog);
    AlignedOkStep(y, i, p, prog);
    FrontInv(y, i, p, prog);
    WStep(y, i, p, prog);
    MStep(y, i, p, prog);
    EStep(y, i, p, prog);
    SafeStep(y, i, p, prog);
    MduStep(y, i, p, prog);
    LsuStep(y, i, p, prog);
    CommitsState(s, i, p);
    CsrNextWf(s.csr, CommitPorts(s.w)) by { InvCsr(y, prog); }
    TipNext(y, i, p);
    hide Next, SysNext, Env, SelectAction, FetchInv, DrainOk, ChainOk, AlignedOk, DOk, EOk, MOk, WOk, NoLoadUse, CsrSafe, IrqSafe,
         MduOk, LsuOk, RegsAfter, CsrNext, CommitPorts, CsrWf, CsrData, TxnOf;
    assert CsrAfter(s.csr, s.w) == CsrNext(s.csr, CommitPorts(s.w));
  }

  lemma InvCsr(y: Sys, prog: Program)
    requires Inv(y, prog)
    ensures CsrWf(y.core.csr)
  {
  }

  lemma FrontInv(y: Sys, i: CoreIn, p: Params, prog: Program)
    requires Inv(y, prog) && Env(y, i, prog) && !i.rst
    ensures FetchInv(Next(y.core, i, p).fe, SysNext(y, i, p).imOut, prog) && DOk(prog, Next(y.core, i, p).d)
  {
    ActionMeans(y.core, i);
    if Redirect(y.core, i) { RedirectAligned(y.core, i); }
    FrontStep(y, i, p, prog);
    hide Inv, Env, SelectAction, Next, SysNext, FetchInv, DOk, FetchPc, HeadD, RedirectTarget, Redirect;
  }

  /** Reset of any length, at any moment, with any request in flight, restores the
      invariant: no old response can reach a new request. */
  lemma InvReset(y: Sys, i: CoreIn, p: Params, prog: Program)
    requires i.rst && !i.dmReady && PortsOk(y) && Aligned4(p.resetVector)
    ensures Inv(SysNext(y, i, p), prog)
    ensures Abs(SysNext(y, i, p)) == Arch(p.resetVector, RegsAfter(y.core.regs, y.core.w), CsrResetArch(p.trapVector))
  {
    var s := y.core;
    CsrResetWf(p.trapVector);
    ResetShape(y, i, p);
    ResetWires(s, i);
    var t := SysNext(y, i, p);
    hide SysNext, Next, FetchWires, LsuWires, IfNext, LsuNext, CsrResetArch, RegsAfter, CsrWf, CsrNext, PortsOk, LsuOk, Inv;
    PortsEach(y);
    FetchReset(s.fe, FetchWires(s, i), y.imOut, p.resetVector, prog);
    LsuResets(s.lsu, LsuWires(s, i, false), y.dmOut, EX_MEM_BUBBLE);
    hide FetchInv, FetchPc, IfFire, IfReqAddr, LsuFire, LsuReq, FetchOut, IfReqValid;
    EmptyIsInv(t, prog);
  }

  lemma PortsEach(y: Sys)
    requires PortsOk(y)
    ensures y.imOut.Some? <==> y.core.fe.busy && y.core.fe.requestSent
    ensures y.dmOut.Some? <==> y.core.lsu.phase.LsuBusy? && y.core.lsu.requestSent
  {
  }

  /** An empty pipeline satisfies every packet predicate. */
  lemma EmptyIsInv(t: Sys, prog: Program)
    requires t.core.d == IF_ID_BUBBLE && t.core.e == ID_EX_BUBBLE && t.core.m == EX_MEM_BUBBLE
    requires t.core.w == MEM_WB_BUBBLE && t.core.mul == MUL_RESET && t.core.div == DIV_RESET && !t.core.drain
    requires t.txnW == None && CsrWf(t.core.csr) && FetchInv(t.core.fe, t.imOut, prog)
    requires LsuOk(t.core.lsu, EX_MEM_BUBBLE, t.dmOut)
    ensures Inv(t, prog)
  {
    hide FetchInv, FetchPc, LsuOk, CsrWf, CsrNext, IrqOn, FwdA, FwdB;
    assert CsrAfter(t.core.csr, MEM_WB_BUBBLE) == CsrNext(t.core.csr, CommitPorts(MEM_WB_BUBBLE));
  }

  lemma ResetWires(s: CoreState, i: CoreIn)
    ensures FetchWires(s, i).rst == i.rst && FetchWires(s, i).rsp == i.imRsp
    ensures LsuWires(s, i, false).rst == i.rst && LsuWires(s, i, false).reqReady == i.dmReady
    ensures LsuWires(s, i, false).rsp == i.dmRsp
  {
    hide ControlsNow;
  }

  lemma ResetShape(y: Sys, i: CoreIn, p: Params)
    requires i.rst
    ensures var t := SysNext(y, i, p);
      && t.core.fe == IfNext(y.core.fe, FetchWires(y.core, i), p.resetVector)
      && t.core.d == IF_ID_BUBBLE && t.core.e == ID_EX_BUBBLE && t.core.m == EX_MEM_BUBBLE && t.core.w == MEM_WB_BUBBLE
      && t.core.mul == MUL_RESET && t.core.div == DIV_RESET
      && t.core.lsu == LsuNext(y.core.lsu, LsuWires(y.core, i, false))
      && t.core.regs == RegsAfter(y.core.regs, y.core.w) && t.core.csr == CsrResetArch(p.trapVector) && !t.core.drain
      && t.imOut == OutNext(y.imOut, ImFire(y.core, i), ImAddr(y.core, i), i.imRsp.valid)
      && t.dmOut == OutNext(y.dmOut, DmFire(y.core, i), DmReq(y.core, i), i.dmRsp.valid)
      && t.txnW == None
  {
    hide SelectAction, IfNext, FetchWires, RegsAfter, CsrAfter, LsuNow, CsrData, IfFire, IfReqAddr, LsuFire, LsuReq, FwdA, FwdB,
         MemException, WbTrap, MemIsMemory, ExReady, Launch, McycleNext;
  }

  // ----- one clock edge against the sequential machine

  /** The architectural state: committed registers and CSRs, and the oldest uncommitted PC. */
  function Abs(y: Sys): Arch { Arch(OldestPc(y.core), y.core.regs, y.core.csr) }

  /** What the committing packet learned from outside. */
  function OracleOf(y: Sys): Oracle {
    Oracle(y.tagW.mtip, y.tagW.timing, TxnRdata(y.txnW), TxnErr(y.txnW))
  }

  /** What the invariant says about the commit slot. */
  lemma CommitSlot(y: Sys, prog: Program)
    requires Inv(y, prog)
    ensures CsrWf(y.core.csr) && WOk(prog, y.core.w, y.core.regs, y.core.csr, y.tagW, y.txnW)
    ensures y.core.w.valid ==> Aligned4(y.core.w.pc)
    ensures WbRetire(y.core.w) ==> HeadM(y.core) == SuccW(y.core.w)
  {
    assert AlignedOk(y.core) && ChainOk(y.core);
    hide FetchInv, DrainOk, DOk, EOk, MOk, NoLoadUse, CsrSafe, IrqSafe, MduOk, LsuOk, HeadM, HeadE, HeadD;
  }

  lemma StagedCommit(prog: Program, a: Arch, o: Oracle, w: MemWb, tag: Tag, txn: Option<Txn>)
    requires CsrWf(a.csr) && Aligned4(a.pc) && w.valid && w.pc == a.pc && WOk(prog, w, a.regs, a.csr, tag, txn)
    requires o == Oracle(tag.mtip, tag.timing, TxnRdata(txn), TxnErr(txn))
    ensures CommitResult(a, w, TxnReq(txn)) == IsaStep(prog, a, o)
  {
    StagedIsIsa(prog, a, o);
    hide IsaStep, StagedW, StagedM, StagedE, RequestOf, CommitResult, CsrWf, IrqOn;
  }

  /** A packet in MEM/WB is one sequential step, seen in full on the trace port;
      a bubble there changes nothing. */
  lemma CommitIsStep(y: Sys, i: CoreIn, p: Params, prog: Program)
    requires Inv(y, prog) && Env(y, i, prog) && !i.rst
    ensures var r := IsaStep(prog, Abs(y), OracleOf(y));
      y.core.w.valid ==>
        TraceOf(y.core.w) == r.ev && Abs(SysNext(y, i, p)) == r.next && TxnReq(y.txnW) == r.access
    ensures !y.core.w.valid ==> Abs(SysNext(y, i, p)) == Abs(y) && y.txnW == None
  {
    var s := y.core;
    CommitSlot(y, prog);
    ChainStep(y, i, p, prog);
    CommitsState(s, i, p);
    TipNext(y, i, p);
    hide Inv, Env, Next, SysNext, SelectAction, IsaStep, RegsAfter, CsrAfter, TraceOf, HeadM, CsrWf, SpecM, StagedW;
    if s.w.valid {
      StagedCommit(prog, Abs(y), OracleOf(y), s.w, y.tagW, y.txnW);
    } else {
      NoCommit(s);
    }
  }

  lemma NoCommit(s: CoreState)
    requires !s.w.valid
    ensures RegsAfter(s.regs, s.w) == s.regs && CsrAfter(s.csr, s.w) == s.csr
  {
    CsrNextIdle(s.csr, CommitPorts(s.w));
    hide CsrNext;
  }

  // ----- whole runs

  /** A run whose environment keeps its promises; resets may occur anywhere. */
  predicate RunEnv(y: Sys, ins: seq<CoreIn>, p: Params, prog: Program)
    decreases |ins|
  {
    ins == [] || (Env(y, ins[0], prog) && RunEnv(SysNext(y, ins[0], p), ins[1..], p, prog))
  }

  predicate NoReset(ins: seq<CoreIn>) { forall k :: 0 <= k < |ins| ==> !ins[k].rst }

  function RunEnd(y: Sys, ins: seq<CoreIn>, p: Params): Sys
    decreases |ins|
  {
    if ins == [] then y else RunEnd(SysNext(y, ins[0], p), ins[1..], p)
  }

  /** The retirement trace of a run: one event for every cycle with a valid MEM/WB packet. */
  function Trace(y: Sys, ins: seq<CoreIn>, p: Params): seq<Event>
    decreases |ins|
  {
    if ins == [] then []
    else (if y.core.w.valid then [TraceOf(y.core.w)] else []) + Trace(SysNext(y, ins[0], p), ins[1..], p)
  }

  function Oracles(y: Sys, ins: seq<CoreIn>, p: Params): seq<Oracle>
    decreases |ins|
  {
    if ins == [] then []
    else (if y.core.w.valid then [OracleOf(y)] else []) + Oracles(SysNext(y, ins[0], p), ins[1..], p)
  }

  /** Data requests accepted by the memory during a run. */
  function Accepted(y: Sys, ins: seq<CoreIn>, p: Params): seq<MemReq>
    decreases |ins|
  {
    if ins == [] then []
    else (if DmFire(y.core, ins[0]) then [DmReq(y.core, ins[0])] else []) + Accepted(SysNext(y, ins[0], p), ins[1..], p)
  }

  /** The sequential machine run over a list of oracles. */
  function SeqEnd(prog: Program, a: Arch, os: seq<Oracle>): Arch
    decreases |os|
  {
    if os == [] then a else SeqEnd(prog, IsaStep(prog, a, os[0]).next, os[1..])
  }

  function SeqTrace(prog: Program, a: Arch, os: seq<Oracle>): seq<Event>
    decreases |os|
  {
    if os == [] then [] else [IsaStep(prog, a, os[0]).ev] + SeqTrace(prog, IsaStep(prog, a, os[0]).next, os[1..])
  }

  function OptList(r: Option<MemReq>): seq<MemReq> { if r.Some? then [r.value] else [] }

  function SeqAccesses(prog: Program, a: Arch, os: seq<Oracle>): seq<MemReq>
    decreases |os|
  {
    if os == [] then []
    else OptList(IsaStep(prog, a, os[0]).access) + SeqAccesses(prog, IsaStep(prog, a, os[0]).next, os[1..])
  }

  /** The invariant holds after any run, with resets of any length anywhere in it. */
  lemma {:induction false} RunKeepsInv(y: Sys, ins: seq<CoreIn>, p: Params, prog: Program)
    requires Inv(y, prog) && RunEnv(y, ins, p, prog) && Aligned4(p.resetVector)
    ensures Inv(RunEnd(y, ins, p), prog)
    decreases |ins|
  {
    if ins != [] {
      if ins[0].rst {
        InvPorts(y, prog);
        InvReset(y, ins[0], p, prog);
      } else {
        InvStep(y, ins[0], p, prog);
      }
      hide Inv, Env, SysNext;
      RunKeepsInv(SysNext(y, ins[0], p), ins[1..], p, prog);
    }
  }

  /** From power-on: any state whose ports are accounted for, then a reset cycle. */
  lemma PowerOnRun(y: Sys, ins: seq<CoreIn>, p: Params, prog: Program)
    requires PortsOk(y) && RunEnv(y, ins, p, prog) && Aligned4(p.resetVector) && ins != [] && ins[0].rst
    ensures Inv(RunEnd(y, ins, p), prog)
  {
    assert !ins[0].dmReady;
    InvReset(y, ins[0], p, prog);
    hide Inv, Env, SysNext;
    RunKeepsInv(SysNext(y, ins[0], p), ins[1..], p, prog);
  }

  /** Refinement: for every program, memory timing and interrupt timing, the trace
      of a run is the trace of the sequential machine, instruction for instruction. */
  lemma {:induction false} RunRefinesIsa(y: Sys, ins: seq<CoreIn>, p: Params, prog: Program)
    requires Inv(y, prog) && RunEnv(y, ins, p, prog) && NoReset(ins)
    ensures Trace(y, ins, p) == SeqTrace(prog, Abs(y), Oracles(y, ins, p))
    ensures Abs(RunEnd(y, ins, p)) == SeqEnd(prog, Abs(y), Oracles(y, ins, p))
    decreases |ins|
  {
    hide Inv, Env, SysNext, IsaStep, Abs, OracleOf, TraceOf;
    if ins != [] {
      var z := SysNext(y, ins[0], p);
      InvStep(y, ins[0], p, prog);
      CommitIsStep(y, ins[0], p, prog);
      RunRefinesIsa(z, ins[1..], p, prog);
      var os := Oracles(y, ins, p);
      if y.core.w.valid {
        assert os[1..] == Oracles(z, ins[1..], p);
      } else {
        assert os == Oracles(z, ins[1..], p);
      }
    }
  }

  // ----- data requests: each exactly once, in program order, never speculative

  /** Requests accepted for packets that have not committed yet. */
  function InFlight(y: Sys): seq<MemReq> {
    OptList(TxnReq(y.txnW)) + Owed(y.core.lsu, y.dmOut)
  }

  lemma Regroup(x: seq<MemReq>, o: seq<MemReq>, f: seq<MemReq>, r: seq<MemReq>)
    requires o + f == r
    ensures (x + o) + f == x + r
  {
    assert (x + o) + f == x + (o + f);
  }

  lemma Chain(l: seq<MemReq>, f: seq<MemReq>, n: seq<MemReq>, m: seq<MemReq>, a: seq<MemReq>, s: seq<MemReq>, e: seq<MemReq>)
    requires l + f == n + m && m + a == s + e
    ensures l + (f + a) == (n + s) + e
  {
    assert l + (f + a) == (l + f) + a;
    assert (n + m) + a == n + (m + a);
    assert n + (s + e) == (n + s) + e;
  }

  /** Requests of the live transaction at the LSU: what was owed plus what is
      accepted is what completes plus what is still owed. */
  lemma PortBalance(l: LsuState, m: ExMem, dmOut: Option<MemReq>, ready: bool, rsp: MemRsp, rspReady: bool)
    requires LsuOk(l, m, dmOut) && MFacts(m)
    requires rspReady == !(MemIsMemory(m) && !LsuOutput(l, Wires(m, ready, rsp, false)).rspValid)
    requires rsp.valid ==> dmOut.Some? || LsuFire(l, Wires(m, ready, rsp, false))
    ensures var w := Wires(m, ready, rsp, rspReady);
      var done := if MemIsMemory(m) && LsuOutput(l, w).rspValid && !l.phase.LsuResp? then
                    Some(if dmOut.Some? then dmOut.value else LsuReq(l, w)) else None;
      Owed(l, dmOut) + (if LsuFire(l, w) then [LsuReq(l, w)] else []) ==
      OptList(done) + Owed(LsuNext(l, w), OutNext(dmOut, LsuFire(l, w), LsuReq(l, w), rsp.valid))
  {
    hide ExtractLoad, StoreStrobe, StoreLanes, Misaligned, MisalignedExc, AccessExc, BusRequest, LoadResult, MFacts;
  }

  function Owed(l: LsuState, dmOut: Option<MemReq>): seq<MemReq> {
    if l.discard then [] else OptList(dmOut)
  }

  /** A committing trap owes nothing and accepts nothing. */
  lemma KilledBalance(l: LsuState, w: LsuIn, dmOut: Option<MemReq>, m: ExMem)
    requires LsuOk(l, m, dmOut) && !MemIsMemory(m) && !w.rst && w.kill && !w.reqValid
    ensures !LsuFire(l, w) && Owed(l, dmOut) == []
    ensures Owed(LsuNext(l, w), OutNext(dmOut, LsuFire(l, w), LsuReq(l, w), w.rsp.valid)) == []
  {
    hide ExtractLoad, StoreStrobe, StoreLanes, Misaligned, MisalignedExc, AccessExc, BusRequest, LoadResult;
  }

  lemma PortRequests(y: Sys, i: CoreIn, p: Params, prog: Program)
    requires Inv(y, prog) && Env(y, i, prog) && !i.rst
    ensures var t := SysNext(y, i, p);
      Owed(y.core.lsu, y.dmOut) + (if DmFire(y.core, i) then [DmReq(y.core, i)] else []) ==
      OptList(TxnReq(TxnOf(y, i))) + Owed(t.core.lsu, t.dmOut)
  {
    var s := y.core;
    InvFacts(y, prog);
    assert LsuOk(s.lsu, s.m, y.dmOut);
    assert WbTrap(s.w) ==> !s.m.valid;
    EnvData(y, i, prog);
    RspReadyIs(s, i);
    DataSide(y, i, p);
    TxnReqIs(y, i);
    hide Inv, Env, SysNext, Next, EFacts, WFacts, MFacts, LsuRspReady, TxnOf, Owed, LsuOk, LsuNext, LsuOutput, LsuFire, LsuReq;
    if WbTrap(s.w) {
      KilledFire(s, i);
      KilledReady(s, i);
      KilledBalance(s.lsu, LsuWires(s, i, false), y.dmOut, s.m);
    } else {
      WiresMatch(s, i, false);
      WiresMatch(s, i, true);
      PortBalance(s.lsu, s.m, y.dmOut, i.dmReady, i.dmRsp, LsuRspReady(s, i));
    }
  }

  lemma KilledReady(s: CoreState, i: CoreIn)
    requires WbTrap(s.w)
    ensures !LsuRspReady(s, i)
  {
  }

  lemma TxnReqIs(y: Sys, i: CoreIn)
    ensures TxnReq(TxnOf(y, i)) ==
            if !i.rst && MemIsMemory(y.core.m) && LsuNow(y.core, i).rspValid && !y.core.lsu.phase.LsuResp? then
              Some(if y.dmOut.Some? then y.dmOut.value else DmReq(y.core, i)) else None
  {
    hide LsuNow, DmReq;
  }

  /** One edge moves requests along without losing, repeating or reordering any. */
  lemma RequestsConserved(y: Sys, i: CoreIn, p: Params, prog: Program)
    requires Inv(y, prog) && Env(y, i, prog) && !i.rst
    ensures InFlight(y) + (if DmFire(y.core, i) then [DmReq(y.core, i)] else []) ==
            OptList(TxnReq(y.txnW)) + InFlight(SysNext(y, i, p))
  {
    PortRequests(y, i, p, prog);
    DataSide(y, i, p);
    hide Inv, Env, SysNext, TxnOf, DmFire, DmReq, TxnReq, OptList, Owed;
    var t := SysNext(y, i, p);
    var fired := if DmFire(y.core, i) then [DmReq(y.core, i)] else [];
    Regroup(OptList(TxnReq(y.txnW)), Owed(y.core.lsu, y.dmOut), fired, InFlight(t));
  }

  lemma DataSide(y: Sys, i: CoreIn, p: Params)
    ensures var t := SysNext(y, i, p);
      && t.core.lsu == LsuNext(y.core.lsu, LsuWires(y.core, i, LsuRspReady(y.core, i)))
      && t.dmOut == OutNext(y.dmOut, DmFire(y.core, i), DmReq(y.core, i), i.dmRsp.valid)
      && t.txnW == TxnOf(y, i)
  {
    hide LsuNext, SelectAction, LsuRspReady, LsuWires, CsrData, TxnOf, DmFire, DmReq, ImFire, ImAddr;
  }

  /** The requests the memory accepted are those of the committed instructions, in
      program order and once each, then those of at most two packets still in
      MEM/WB and EX/MEM; no wrong-path or squashed access ever reached memory. */
  lemma {:induction false} RequestsAreProgramOrder(y: Sys, ins: seq<CoreIn>, p: Params, prog: Program)
    requires Inv(y, prog) && RunEnv(y, ins, p, prog) && NoReset(ins)
    ensures InFlight(y) + Accepted(y, ins, p) ==
            SeqAccesses(prog, Abs(y), Oracles(y, ins, p)) + InFlight(RunEnd(y, ins, p))
    decreases |ins|
  {
    hide Inv, Env, SysNext, IsaStep, Abs, OracleOf, TraceOf, InFlight, DmFire, DmReq, OptList, TxnReq;
    if ins == [] {
      assert InFlight(y) + [] == [] + InFlight(y);
    } else {
      var z, rest := SysNext(y, ins[0], p), ins[1..];
      InvStep(y, ins[0], p, prog);
      CommitIsStep(y, ins[0], p, prog);
      RequestsConserved(y, ins[0], p, prog);
      RequestsAreProgramOrder(z, rest, p, prog);
      var fired := if DmFire(y.core, ins[0]) then [DmReq(y.core, ins[0])] else [];
      var os, now := Oracles(y, ins, p), OptList(TxnReq(y.txnW));
      Chain(InFlight(y), fired, now, InFlight(z), Accepted(z, rest, p),
            SeqAccesses(prog, Abs(z), Oracles(z, rest, p)), InFlight(RunEnd(z, rest, p)));
      if y.core.w.valid {
        assert os[1..] == Oracles(z, rest, p);
      } else {
        assert os == Oracles(z, rest, p);
        NoRequest();
      }
    }
  }

  lemma NoRequest()
    ensures OptList(TxnReq(None)) == []
  {
  }
}
