/** The SoC refines a sequential machine that owns its memory: every load sees the
    stores before it in program order, although requests leave the pipeline early,
    stay outstanding, and share one array with instruction fetch. */
module SocMemory {
  import opened Rv32Types
  import opened Decoder
  import opened CsrFile
  import opened IfStage
  import opened Lsu
  import opened PipelineStages
  import opened Rv32Core
  import opened FetchOrder
  import opened Isa
  import opened Staged
  import opened System
  import opened Invariant
  import opened LsuLink
  import opened Refinement
  import opened MemDemux
  import opened Tcm
  import opened Soc

  // ----- the sequential machine with a memory

  datatype MemArch = MemArch(a: Arch, mem: seq<Word>)

  /** No aperture claims the address. */
  predicate ToTcm(p: SocParams, r: MemReq) { Belongs(p.demux, TargetTcm, r.addr) }

  function AfterReq(p: SocParams, mem: seq<Word>, r: Option<MemReq>): seq<Word> {
    if r.Some? && ToTcm(p, r.value) then MemAfter(mem, p.base, r.value) else mem
  }

  /** What an access is told: the memory's own answer, or for a peripheral the oracle's. */
  function Told(p: SocParams, mem: seq<Word>, r: Option<MemReq>, o: Oracle): Oracle {
    if r.Some? && ToTcm(p, r.value) then
      o.(rdata := TcmAnswer(mem, p.base, r.value).0, err := TcmAnswer(mem, p.base, r.value).1)
    else o
  }

  /** One sequential step: the access is a function of the state, the answer of the memory. */
  function MemStep(p: SocParams, prog: Program, s: MemArch, o: Oracle): (MemArch, Event) {
    var access := IsaStep(prog, s.a, o).access;
    var r := IsaStep(prog, s.a, Told(p, s.mem, access, o));
    (MemArch(r.next, AfterReq(p, s.mem, access)), r.ev)
  }

  /** An instruction's request does not depend on the answer it will get. */
  lemma AccessFirst(prog: Program, a: Arch, o: Oracle, rdata: Word, err: bool)
    ensures IsaStep(prog, a, o).access == IsaStep(prog, a, o.(rdata := rdata, err := err)).access
  {
    hide Decode, CsrInstruction, Transfer, Integer, Retired, Source, Misaligned, StoreStrobe, StoreLanes, LoadResult, BusRequest,
         TrapEntry;
    assert CsrInstruction(a, prog(a.pc).rdata, Decode(prog(a.pc).rdata), o).access.None?
        && CsrInstruction(a, prog(a.pc).rdata, Decode(prog(a.pc).rdata), o.(rdata := rdata, err := err)).access.None? by {
      NoCsrAccess(a, prog(a.pc).rdata, Decode(prog(a.pc).rdata), o);
      NoCsrAccess(a, prog(a.pc).rdata, Decode(prog(a.pc).rdata), o.(rdata := rdata, err := err));
    }
  }

  lemma NoCsrAccess(a: Arch, insn: Word, dec: Decoded, o: Oracle)
    ensures CsrInstruction(a, insn, dec, o).access.None?
  {
    hide Retired, TrapEntry, CsrValue, NewCsrValue, AccessIllegal;
  }

  // ----- the TCM against program order

  /** `seqMem` is the memory after the committed instructions.  The array is ahead of it
      by the access in MEM/WB and the one outstanding, and each of those two has been,
      or will be, given the answer of the memory in front of it. */
  predicate MemInv(p: SocParams, z: SocState, seqMem: seq<Word>) {
    var txn, out := z.y.txnW, z.y.dmOut;
    var m1 := AfterReq(p, seqMem, TxnReq(txn));
    && z.mem == AfterReq(p, m1, out)
    && (txn.Some? && ToTcm(p, txn.value.req) ==> (txn.value.rdata, txn.value.err) == TcmAnswer(seqMem, p.base, txn.value.req))
    && (out.Some? && ToTcm(p, out.value) ==>
          (z.fabric.rsp.tcm.rdata, z.fabric.rsp.tcm.err) == TcmAnswer(m1, p.base, out.value))
    && Refinement.Owed(z.y.core.lsu, out) == OptList(out)
  }

  /** What one cycle does to the data side: an outstanding request is answered and moves
      to MEM/WB; a new one is accepted or not. */
  lemma DataMoves(p: SocParams, z: SocState, x: SocIn, prog: Program)
    requires Inv(z.y, prog) && SocInv(p, z, prog) && CodeIntact(p, z, x, prog) && !x.rst
    requires Refinement.Owed(z.y.core.lsu, z.y.dmOut) == OptList(z.y.dmOut)
    ensures var i, t := Wired(p, z, x), SocNext(p, z, x);
      && TxnReq(t.y.txnW) == z.y.dmOut
      && (t.y.txnW.Some? ==> (t.y.txnW.value.rdata, t.y.txnW.value.err) == (i.dmRsp.rdata, i.dmRsp.err))
      && t.y.dmOut == (if DmFire(z.y.core, i) then Some(DmReq(z.y.core, i)) else None)
      && Refinement.Owed(t.y.core.lsu, t.y.dmOut) == OptList(t.y.dmOut)
  {
    hide Inv, SocInv, CodeIntact, Wired, ToFabric, SocNext, SysNext, DmFire, DmReq, TxnOf, FabricReady, FabricRsp, FabricNext,
         FabricInv, Env, LsuNext, LsuWires, LsuRspReady, Refinement.Owed;
    var i, t := Wired(p, z, x), SocNext(p, z, x);
    SameTransfer(p, z, x);
    SocKeepsPromises(p, z, x, prog);
    AnswersNow(p, z, x, prog);
    PortRequests(z.y, i, p.core, prog);
    DataSide(z.y, i, p.core);
    TxnAnswers(z.y, i);
    NextIs(p, z, x);
    OwedCases(t.y.core.lsu, t.y.dmOut);
    Balance(z.y.dmOut, DmFire(z.y.core, i), DmReq(z.y.core, i), TxnReq(t.y.txnW), t.y.dmOut,
            Refinement.Owed(t.y.core.lsu, t.y.dmOut));
    OwedShort(t.y.core.lsu, t.y.dmOut);
  }

  lemma NextIs(p: SocParams, z: SocState, x: SocIn)
    ensures SocNext(p, z, x).y == SysNext(z.y, Wired(p, z, x), p.core)
  {
    hide SysNext, Wired, ToFabric, FabricNext;
  }

  /** The fabric answers an outstanding request in the next cycle, always. */
  lemma AnswersNow(p: SocParams, z: SocState, x: SocIn, prog: Program)
    requires SocInv(p, z, prog)
    ensures Wired(p, z, x).dmRsp.valid <==> z.y.dmOut.Some?
  {
    hide FabricInv, Wired, ToFabric, FabricNext, FabricRsp, FabricReady, DmFire, DmReq;
    SameTransfer(p, z, x);
    FabricMoves(p.demux, z.fabric, ToFabric(p, z, x), z.y.dmOut);
  }

  lemma OwedCases(l: LsuState, out: Option<MemReq>)
    ensures Refinement.Owed(l, out) == [] || Refinement.Owed(l, out) == OptList(out)
  {
  }

  lemma OwedShort(l: LsuState, out: Option<MemReq>)
    ensures |Refinement.Owed(l, out)| == |OptList(out)| ==> Refinement.Owed(l, out) == OptList(out)
  {
  }

  /** With the outstanding request answered, the balance of requests leaves no choice. */
  lemma Balance(out: Option<MemReq>, fire: bool, req: MemReq, done: Option<MemReq>, out2: Option<MemReq>, owed2: seq<MemReq>)
    requires OptList(out) + (if fire then [req] else []) == OptList(done) + owed2
    requires out2 == OutNext(out, fire, req, out.Some?) && (out.None? ==> done.None?)
    requires owed2 == [] || owed2 == OptList(out2)
    ensures done == out && |owed2| == |OptList(out2)| && out2 == if fire then Some(req) else None
  {
    var both := OptList(out) + (if fire then [req] else []);
    assert |both| == |OptList(out)| + (if fire then 1 else 0);
    if out.Some? {
      assert both[0] == out.value;
      if done.Some? { assert (OptList(done) + owed2)[0] == done.value; }
    }
  }

  lemma TxnAnswers(y: Sys, i: CoreIn)
    ensures var t := TxnOf(y, i);
      t.Some? ==> t.value.rdata == i.dmRsp.rdata && t.value.err == i.dmRsp.err && i.dmRsp.valid
  {
    hide MemIsMemory, ExtractLoad, StoreStrobe, StoreLanes, Misaligned, Answered, BusReply, ResponseDiscard, IssueInput;
  }

  /** The array changes exactly on an accepted TCM request, whose answer is latched. */
  lemma ArrayMoves(p: SocParams, z: SocState, x: SocIn)
    ensures var i, t := Wired(p, z, x), SocNext(p, z, x);
      && t.mem == AfterReq(p, z.mem, if DmFire(z.y.core, i) then Some(DmReq(z.y.core, i)) else None)
      && (DmFire(z.y.core, i) && ToTcm(p, DmReq(z.y.core, i)) ==>
            (t.fabric.rsp.tcm.rdata, t.fabric.rsp.tcm.err) == TcmAnswer(z.mem, p.base, DmReq(z.y.core, i)))
  {
    SameTransfer(p, z, x);
    TcmIsFallback(p.demux, DmReq(z.y.core, Wired(p, z, x)).addr);
    hide Belongs, SysNext, DmReq, DmFire, MemAfter, FetchRspAfter, ImAddr, LsuReqValid, LsuWires, RspAfter, Matches, Select, Wired,
         FetchWires, IfReqValid;
  }

  lemma AnswerIsOwners(p: SocParams, z: SocState, x: SocIn, prog: Program)
    requires SocInv(p, z, prog) && z.y.dmOut.Some? && ToTcm(p, z.y.dmOut.value)
    ensures Wired(p, z, x).dmRsp.rdata == z.fabric.rsp.tcm.rdata && Wired(p, z, x).dmRsp.err == z.fabric.rsp.tcm.err
  {
    SameTransfer(p, z, x);
    FabricMoves(p.demux, z.fabric, ToFabric(p, z, x), z.y.dmOut);
    TcmIsFallback(p.demux, z.y.dmOut.value.addr);
    hide Wired, ToFabric, FabricReady, FabricRsp, FabricNext, FabricInv, Select, Belongs;
  }

  /** One cycle keeps the array in step with program order. */
  lemma MemInvStep(p: SocParams, z: SocState, x: SocIn, prog: Program, seqMem: seq<Word>)
    requires Inv(z.y, prog) && SocInv(p, z, prog) && CodeIntact(p, z, x, prog) && !x.rst && MemInv(p, z, seqMem)
    ensures MemInv(p, SocNext(p, z, x), AfterReq(p, seqMem, TxnReq(z.y.txnW)))
  {
    DataMoves(p, z, x, prog);
    ArrayMoves(p, z, x);
    if z.y.dmOut.Some? && ToTcm(p, z.y.dmOut.value) { AnswerIsOwners(p, z, x, prog); }
    hide Inv, SocInv, CodeIntact, Wired, SocNext, DmFire, DmReq, AfterReq, TcmAnswer, ToTcm, Refinement.Owed;
    assert AfterReq(p, z.mem, None) == z.mem by { NoRequestNoChange(p, z.mem); }
    assert AfterReq(p, AfterReq(p, seqMem, TxnReq(z.y.txnW)), None) == AfterReq(p, seqMem, TxnReq(z.y.txnW)) by {
      NoRequestNoChange(p, AfterReq(p, seqMem, TxnReq(z.y.txnW)));
    }
  }

  lemma NoRequestNoChange(p: SocParams, mem: seq<Word>)
    ensures AfterReq(p, mem, None) == mem
  {
  }

  /** A commit is one step of the sequential machine with its own memory. */
  lemma CommitIsMemStep(p: SocParams, z: SocState, x: SocIn, prog: Program, seqMem: seq<Word>)
    requires Inv(z.y, prog) && SocInv(p, z, prog) && CodeIntact(p, z, x, prog) && !x.rst && MemInv(p, z, seqMem)
    ensures var t := SocNext(p, z, x);
      && (z.y.core.w.valid ==>
            MemStep(p, prog, MemArch(Abs(z.y), seqMem), OracleOf(z.y)) ==
            (MemArch(Abs(t.y), AfterReq(p, seqMem, TxnReq(z.y.txnW))), TraceOf(z.y.core.w)))
      && (!z.y.core.w.valid ==> Abs(t.y) == Abs(z.y) && z.y.txnW == None)
  {
    var i := Wired(p, z, x);
    var o := OracleOf(z.y);
    SocKeepsPromises(p, z, x, prog);
    SameTransfer(p, z, x);
    CommitIsStep(z.y, i, p.core, prog);
    assert SocNext(p, z, x).y == SysNext(z.y, i, p.core) by { hide SysNext, FabricNext, FetchRspAfter, MemAfter, Wired, OffersTo; }
    hide Inv, SocInv, CodeIntact, Wired, SocNext, SysNext, Env, IsaStep, Abs, TraceOf, TcmAnswer, ToTcm, FabricRsp, FabricReady, ToFabric;
    if z.y.core.w.valid {
      assert Told(p, seqMem, TxnReq(z.y.txnW), o) == o by { ToldAlready(p, z, seqMem); }
    }
  }

  /** The answer a committing access was given is the sequential memory's. */
  lemma ToldAlready(p: SocParams, z: SocState, seqMem: seq<Word>)
    requires MemInv(p, z, seqMem)
    ensures Told(p, seqMem, TxnReq(z.y.txnW), OracleOf(z.y)) == OracleOf(z.y)
  {
    hide TcmAnswer, ToTcm, AfterReq, Refinement.Owed;
  }

  // ----- whole runs

  /** No reset, and fetched code never overwritten, along a run. */
  predicate SocRun(p: SocParams, z: SocState, xs: seq<SocIn>, prog: Program)
    decreases |xs|
  {
    xs == [] || (!xs[0].rst && CodeIntact(p, z, xs[0], prog) && SocRun(p, SocNext(p, z, xs[0]), xs[1..], prog))
  }

  function SocEnd(p: SocParams, z: SocState, xs: seq<SocIn>): SocState
    decreases |xs|
  {
    if xs == [] then z else SocEnd(p, SocNext(p, z, xs[0]), xs[1..])
  }

  function SocTrace(p: SocParams, z: SocState, xs: seq<SocIn>): seq<Event>
    decreases |xs|
  {
    if xs == [] then []
    else (if z.y.core.w.valid then [TraceOf(z.y.core.w)] else []) + SocTrace(p, SocNext(p, z, xs[0]), xs[1..])
  }

  /** Interrupt and timing observations, and peripheral answers, of the committed instructions. */
  function SocOracles(p: SocParams, z: SocState, xs: seq<SocIn>): seq<Oracle>
    decreases |xs|
  {
    if xs == [] then []
    else (if z.y.core.w.valid then [OracleOf(z.y)] else []) + SocOracles(p, SocNext(p, z, xs[0]), xs[1..])
  }

  function MemEnd(p: SocParams, prog: Program, s: MemArch, os: seq<Oracle>): MemArch
    decreases |os|
  {
    if os == [] then s else MemEnd(p, prog, MemStep(p, prog, s, os[0]).0, os[1..])
  }

  function MemTrace(p: SocParams, prog: Program, s: MemArch, os: seq<Oracle>): seq<Event>
    decreases |os|
  {
    if os == [] then []
    else [MemStep(p, prog, s, os[0]).1] + MemTrace(p, prog, MemStep(p, prog, s, os[0]).0, os[1..])
  }

  /** For every program and every timing of interrupts and peripherals: the retirement
      trace of the SoC is that of the sequential machine executing on its own memory, and
      the TCM ends as that machine's memory, up to the accesses still in flight. */
  lemma {:induction false} SocRefinesMemoryMachine(
    p: SocParams, z: SocState, xs: seq<SocIn>, prog: Program, seqMem: seq<Word>)
    requires Inv(z.y, prog) && SocInv(p, z, prog) && MemInv(p, z, seqMem) && SocRun(p, z, xs, prog)
    ensures var s, os, e := MemArch(Abs(z.y), seqMem), SocOracles(p, z, xs), SocEnd(p, z, xs);
      && SocTrace(p, z, xs) == MemTrace(p, prog, s, os)
      && Abs(e.y) == MemEnd(p, prog, s, os).a
      && MemInv(p, e, MemEnd(p, prog, s, os).mem)
    decreases |xs|
  {
    hide Inv, SocInv, CodeIntact, SocNext, Abs, OracleOf, TraceOf, MemStep, MemInv, AfterReq, TxnReq;
    if xs != [] {
      var t, seqMem2 := SocNext(p, z, xs[0]), AfterReq(p, seqMem, TxnReq(z.y.txnW));
      SocStep(p, z, xs[0], prog);
      MemInvStep(p, z, xs[0], prog, seqMem);
      CommitIsMemStep(p, z, xs[0], prog, seqMem);
      SocRefinesMemoryMachine(p, t, xs[1..], prog, seqMem2);
      var os := SocOracles(p, z, xs);
      if z.y.core.w.valid {
        assert os[1..] == SocOracles(p, t, xs[1..]);
      } else {
        assert os == SocOracles(p, t, xs[1..]);
        assert seqMem2 == seqMem by { NoTxn(p, seqMem); }
      }
    }
  }

  lemma NoTxn(p: SocParams, mem: seq<Word>)
    ensures AfterReq(p, mem, TxnReq(None)) == mem
  {
  }

  lemma SocStep(p: SocParams, z: SocState, x: SocIn, prog: Program)
    requires Inv(z.y, prog) && SocInv(p, z, prog) && CodeIntact(p, z, x, prog) && !x.rst
    ensures Inv(SocNext(p, z, x).y, prog) && SocInv(p, SocNext(p, z, x), prog)
  {
    SocKeepsPromises(p, z, x, prog);
    SameTransfer(p, z, x);
    hide Inv, SocInv, CodeIntact, Wired, SysNext, Env, FabricRsp, FabricReady, ToFabric, FabricNext, FetchRspAfter, MemAfter, DmFire,
         DmReq, OffersTo;
    InvStep(z.y, Wired(p, z, x), p.core, prog);
  }

  /** One reset cycle, at any moment and with any requests in flight, leaves both units
      idle, nothing outstanding, and the array equal to what the sequential machine
      starts from: no old response is left to meet a new request. */
  lemma SocResets(p: SocParams, z: SocState, x: SocIn, before: Program, prog: Program)
    requires PortsOk(z.y) && SocInv(p, z, before) && x.rst && Aligned4(p.core.resetVector)
    ensures var t := SocNext(p, z, x);
      && Inv(t.y, prog) && SocInv(p, t, prog) && t.y.dmOut.None? && t.y.imOut.None?
      && t.y.core.lsu.phase.LsuIdle? && !t.y.core.fe.busy
      && t.mem == z.mem && MemInv(p, t, z.mem) && Abs(t.y).pc == p.core.resetVector
  {
    hide Inv, SocInv, CodeIntact, Wired, SocNext, SysNext, Env, FabricRsp, FabricReady, ToFabric, FabricNext, DmFire, DmReq, ImFire,
         ImAddr, Abs, CsrResetArch, RegsAfter, FabricInv, PortsOk;
    AnswersNow(p, z, x, before);
    FetchAnswersNow(p, z, x, before);
    SocInvFits(p, z, before);
    SocClears(p, z, x, prog);
  }

  lemma SocInvFits(p: SocParams, z: SocState, prog: Program)
    requires SocInv(p, z, prog)
    ensures TcmFits(p, z.mem)
  {
  }

  /** A reset cycle in which nothing outstanding stays unanswered. */
  lemma SocClears(p: SocParams, z: SocState, x: SocIn, prog: Program)
    requires PortsOk(z.y) && TcmFits(p, z.mem) && x.rst && Aligned4(p.core.resetVector)
    requires z.y.dmOut.Some? ==> Wired(p, z, x).dmRsp.valid
    requires z.y.imOut.Some? ==> Wired(p, z, x).imRsp.valid
    ensures var t := SocNext(p, z, x);
      && Inv(t.y, prog) && SocInv(p, t, prog) && t.y.dmOut.None? && t.y.imOut.None?
      && t.y.core.lsu.phase.LsuIdle? && !t.y.core.fe.busy
      && t.mem == z.mem && MemInv(p, t, z.mem) && Abs(t.y).pc == p.core.resetVector
  {
    hide Inv, CodeIntact, Wired, SocNext, SysNext, Env, FabricRsp, FabricReady, ToFabric, FabricNext, DmFire, DmReq, ImFire, ImAddr,
         Abs, CsrResetArch, RegsAfter, FabricInv, PortsOk;
    var i := Wired(p, z, x);
    var t := SocNext(p, z, x);
    SameTransfer(p, z, x);
    FabricResets(p.demux, z.fabric, ToFabric(p, z, x));
    ResetResponse(p, z, x);
    NoFetchInReset(z.y.core, i);
    ArrayMoves(p, z, x);
    OutsAre(z.y, i, p.core);
    NextIs(p, z, x);
    InvReset(z.y, i, p.core, prog);
    InvPorts(t.y, prog);
    IdleAfterReset(z.y, i, p.core);
    ResetPc(z.y, i, p.core);
    ResetTxn(z.y, i, p.core);
    NoRequestNoChange(p, z.mem);
    assert Refinement.Owed(t.y.core.lsu, None) == OptList(None);
  }

  lemma FetchAnswersNow(p: SocParams, z: SocState, x: SocIn, prog: Program)
    requires SocInv(p, z, prog)
    ensures Wired(p, z, x).imRsp.valid <==> z.y.imOut.Some?
  {
    hide FabricInv, ToFabric, FabricReady, DmRspNow;
  }

  /** After a reset edge a unit is idle unless it still waits for an accepted request's answer. */
  lemma IdleAfterReset(y: Sys, i: CoreIn, p: Params)
    requires i.rst && PortsOk(SysNext(y, i, p))
    ensures var t := SysNext(y, i, p);
      (t.dmOut.None? ==> t.core.lsu.phase.LsuIdle?) && (t.imOut.None? ==> !t.core.fe.busy)
  {
    ResetShape(y, i, p);
    ResetWires(y.core, i);
    hide SysNext, FetchWires, LsuWires;
  }

  /** The same from power-on: with neither unit waiting for an answer, one reset cycle
      suffices whatever every other register of core, fabric and TCM ports holds. */
  lemma SocPowersOn(p: SocParams, z: SocState, x: SocIn, prog: Program)
    requires PortsOk(z.y) && z.y.dmOut.None? && z.y.imOut.None? && TcmFits(p, z.mem) && x.rst && Aligned4(p.core.resetVector)
    ensures var t := SocNext(p, z, x);
      && Inv(t.y, prog) && SocInv(p, t, prog) && t.y.dmOut.None? && t.y.imOut.None?
      && t.y.core.lsu.phase.LsuIdle? && !t.y.core.fe.busy
      && t.mem == z.mem && MemInv(p, t, z.mem) && Abs(t.y).pc == p.core.resetVector
  {
    hide Inv, SocInv, Wired, SocNext, PortsOk, Abs, MemInv, TcmFits;
    SocClears(p, z, x, prog);
  }

  lemma ResetResponse(p: SocParams, z: SocState, x: SocIn)
    requires x.rst
    ensures SocNext(p, z, x).fabric == FabricNext(p.demux, z.fabric, ToFabric(p, z, x)) && !SocNext(p, z, x).imRsp.valid
  {
    hide SysNext, FabricNext, ToFabric, ImAddr, OffersTo, MemAfter, FabricReady, ControlsNow, DmRspNow;
  }

  lemma ResetPc(y: Sys, i: CoreIn, p: Params)
    requires Abs(SysNext(y, i, p)) == Arch(p.resetVector, RegsAfter(y.core.regs, y.core.w), CsrResetArch(p.trapVector))
    ensures Abs(SysNext(y, i, p)).pc == p.resetVector
  {
    hide Abs, SysNext, RegsAfter, CsrResetArch;
  }

  lemma ResetTxn(y: Sys, i: CoreIn, p: Params)
    requires i.rst
    ensures SysNext(y, i, p).txnW == None
  {
    hide Next, SelectAction, CsrData, ImFire, ImAddr, DmFire, DmReq;
  }

  lemma NoFetchInReset(s: CoreState, i: CoreIn)
    requires i.rst
    ensures !ImFire(s, i)
  {
    hide ControlsNow;
  }

  /** From any reset: the SoC runs the program exactly as the sequential machine does from
      the reset vector, on the memory the reset found. */
  lemma BootRefines(p: SocParams, z: SocState, x: SocIn, xs: seq<SocIn>, before: Program, prog: Program)
    requires PortsOk(z.y) && SocInv(p, z, before) && x.rst && Aligned4(p.core.resetVector)
    requires SocRun(p, SocNext(p, z, x), xs, prog)
    ensures var t := SocNext(p, z, x);
      var s, os, e := MemArch(Abs(t.y), z.mem), SocOracles(p, t, xs), SocEnd(p, t, xs);
      && s.a.pc == p.core.resetVector
      && SocTrace(p, t, xs) == MemTrace(p, prog, s, os)
      && (e.y.txnW.None? && e.y.dmOut.None? ==> e.mem == MemEnd(p, prog, s, os).mem)
  {
    hide Inv, SocInv, SocNext, SocRun, SocEnd, SocTrace, SocOracles, MemTrace, MemEnd, Abs, MemInv, PortsOk;
    SocResets(p, z, x, before, prog);
    SocRefinesMemoryMachine(p, SocNext(p, z, x), xs, prog, z.mem);
    var t := SocNext(p, z, x);
    var s, os, e := MemArch(Abs(t.y), z.mem), SocOracles(p, t, xs), SocEnd(p, t, xs);
    if e.y.txnW.None? && e.y.dmOut.None? { QuietArray(p, e, MemEnd(p, prog, s, os).mem); }
  }

  // ----- programs that do not write their own code

  /** In this cycle only code is fetched, and no accepted store is to code. */
  predicate Separate(p: SocParams, z: SocState, x: SocIn, code: Word -> bool) {
    var i := Wired(p, z, x);
    && (ImFire(z.y.core, i) ==> code(ImAddr(z.y.core, i)))
    && (DmFire(z.y.core, i) ==> !code(AlignDown4(DmReq(z.y.core, i).addr)) || !DmReq(z.y.core, i).write)
  }

  predicate SeparateRun(p: SocParams, z: SocState, xs: seq<SocIn>, code: Word -> bool)
    decreases |xs|
  {
    xs == [] || (!xs[0].rst && Separate(p, z, xs[0], code) && SeparateRun(p, SocNext(p, z, xs[0]), xs[1..], code))
  }

  /** The program is what the memory's bytes say at every code address. */
  ghost predicate HoldsCode(p: SocParams, mem: seq<Word>, code: Word -> bool, prog: Program) {
    forall a: Word :: code(a) ==> CodeAt(mem, p.base, a) == prog(a)
  }

  lemma SeparateStep(p: SocParams, z: SocState, x: SocIn, code: Word -> bool, prog: Program)
    requires TcmFits(p, z.mem) && Separate(p, z, x, code) && HoldsCode(p, z.mem, code, prog)
    ensures CodeIntact(p, z, x, prog)
    ensures TcmFits(p, SocNext(p, z, x).mem) && HoldsCode(p, SocNext(p, z, x).mem, code, prog)
  {
    hide Wired, SocNext, ImFire, ImAddr, DmFire, DmReq, CodeAt, MemAfter, ToTcm;
    var i := Wired(p, z, x);
    var req := DmReq(z.y.core, i);
    ArrayMoves(p, z, x);
    FetchesBytes(p, z, x);
    forall a: Word | code(a)
      ensures CodeAt(SocNext(p, z, x).mem, p.base, a) == CodeAt(z.mem, p.base, a)
    {
      if DmFire(z.y.core, i) && ToTcm(p, req) { WriteKeepsCode(z.mem, p.base, req, a); }
    }
  }

  lemma WriteKeepsCode(mem: seq<Word>, base: Word, r: MemReq, a: Word)
    requires Aligned4(base) && 4 * |mem| <= TWO32 && (AlignDown4(r.addr) != a || !r.write)
    ensures CodeAt(MemAfter(mem, base, r), base, a) == CodeAt(mem, base, a)
  {
    hide CodeWord, Offset33, InRange, Merge, AlignDown4;
    if Fetchable(4 * |mem|, base, a) && r.write { WriteMissesCode(mem, base, r, a); }
  }

  lemma {:induction false} SeparateIsRun(p: SocParams, z: SocState, xs: seq<SocIn>, code: Word -> bool, prog: Program)
    requires TcmFits(p, z.mem) && HoldsCode(p, z.mem, code, prog) && SeparateRun(p, z, xs, code)
    ensures SocRun(p, z, xs, prog)
    decreases |xs|
  {
    hide TcmFits, HoldsCode, Separate, SocNext, CodeIntact;
    if xs != [] {
      SeparateStep(p, z, xs[0], code, prog);
      SeparateIsRun(p, SocNext(p, z, xs[0]), xs[1..], code, prog);
    }
  }

  /** The program a memory holds. */
  function ProgramOf(p: SocParams, mem: seq<Word>): Program { (a: Word) => CodeAt(mem, p.base, a) }

  /** From any reset, as long as no store is to code, the SoC runs the little-endian
      instructions the TCM's bytes held at the reset, each at its own address. */
  lemma BootRunsMemory(p: SocParams, z: SocState, x: SocIn, xs: seq<SocIn>, before: Program, code: Word -> bool)
    requires PortsOk(z.y) && SocInv(p, z, before) && x.rst && Aligned4(p.core.resetVector)
    requires SeparateRun(p, SocNext(p, z, x), xs, code)
    ensures var t, prog := SocNext(p, z, x), ProgramOf(p, z.mem);
      var s, os, e := MemArch(Abs(t.y), z.mem), SocOracles(p, t, xs), SocEnd(p, t, xs);
      && s.a.pc == p.core.resetVector
      && SocTrace(p, t, xs) == MemTrace(p, prog, s, os)
      && (e.y.txnW.None? && e.y.dmOut.None? ==> e.mem == MemEnd(p, prog, s, os).mem)
  {
    hide Inv, SocInv, SocNext, SocRun, SeparateRun, SocEnd, SocTrace, SocOracles, MemTrace, MemEnd, Abs, MemInv, PortsOk, CodeAt;
    var t, prog := SocNext(p, z, x), ProgramOf(p, z.mem);
    SocResets(p, z, x, before, prog);
    SocInvFits(p, t, prog);
    assert HoldsCode(p, t.mem, code, prog);
    SeparateIsRun(p, t, xs, code, prog);
    BootRefines(p, z, x, xs, before, prog);
  }

  /** With no access in flight the array is the sequential memory. */
  lemma QuietArray(p: SocParams, z: SocState, seqMem: seq<Word>)
    requires MemInv(p, z, seqMem) && z.y.txnW.None? && z.y.dmOut.None?
    ensures z.mem == seqMem
  {
    hide TcmAnswer, ToTcm, Refinement.Owed;
  }

  /** The access a load or store instruction makes, in terms of bytes. */
  function AccessOf(a: Arch, dec: Decoded): Access {
    var ea := Add32(Source(a.regs, dec.ctrl.usesRs1, dec.rs1), dec.imm);
    if dec.ctrl.memCmd.MemLoad? then Load(dec.ctrl.memSize, dec.ctrl.loadUnsigned, ea)
    else Store(dec.ctrl.memSize, ea, Source(a.regs, dec.ctrl.usesRs2, dec.rs2))
  }

  /** On its memory the sequential machine's loads and stores are those of a little-endian
      byte memory: same value, same fault, same bytes afterwards. */
  lemma LoadStoreIsByteAccess(p: SocParams, a: Arch, insn: Word, dec: Decoded, o: Oracle, mem: seq<Word>)
    requires IsMemory(dec.ctrl.memCmd) && Aligned4(p.base) && 4 * |mem| <= TWO32
    requires var req := MemoryAccess(a, insn, dec, o).access; req.Some? ==> ToTcm(p, req.value)
    ensures var (acc, req) := (AccessOf(a, dec), MemoryAccess(a, insn, dec, o).access);
      var (r, bytes) := (MemoryAccess(a, insn, dec, Told(p, mem, req, o)), ByteStep(Bytes(mem), p.base, acc));
      && Bytes(AfterReq(p, mem, req)) == bytes.0
      && match bytes.1
         case Faulted(x) => r == TakeTrap(a, insn, x, acc.addr, req)
         case Stored => r.ev.trap.None? && r.next.pc == Add32(a.pc, 4)
         case Loaded(v) =>
           r.ev.trap.None? && r.next.pc == Add32(a.pc, 4)
           && r.next.regs == if dec.ctrl.regWrite && dec.rd != 0 then WriteReg(a.regs, dec.rd, v) else a.regs
  {
    var acc, c := AccessOf(a, dec), dec.ctrl;
    var req := MemoryAccess(a, insn, dec, o).access;
    WordStepRefines(mem, p.base, acc);
    hide Bytes, ByteStep, Add32, Source, Misaligned, StoreStrobe, StoreLanes, ToTcm, Retired, TrapEntry, ExtractLoad, WriteReg,
         MisalignedExc;
    if !Misaligned(acc.size, acc.addr) {
      var data := if acc.Store? then acc.data else 0;
      var bus := BusRequest(c.memCmd, acc.addr, StoreStrobe(acc.size, acc.addr), StoreLanes(acc.size, acc.addr, data));
      SameOnBus(mem, p.base, bus, req.value);
      hide MemAfter, RspAfter, BusRequest;
    }
  }

  /** Of a read, the memory sees the address alone. */
  lemma SameOnBus(mem: seq<Word>, base: Word, r: MemReq, q: MemReq)
    requires r.addr == q.addr && r.write == q.write && (r.write ==> r == q)
    ensures RspAfter(mem, base, true, r) == RspAfter(mem, base, true, q) && MemAfter(mem, base, r) == MemAfter(mem, base, q)
  {
    hide Offset33, InRange, Merge;
  }
}
