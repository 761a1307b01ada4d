/** Bounded progress: if the memories accept and answer within `n` cycles, then
    from every reachable state some instruction retires or traps within a number of
    cycles that depends on `n` alone. */
module Progress {
  import opened Rv32Types
  import opened Decoder
  import opened DivUnit
  import opened MulUnit
  import opened CsrFile
  import opened IfStage
  import opened Lsu
  import opened PipelineStages
  import opened Rv32Core
  import opened FetchOrder
  import opened Isa
  import opened Staged
  import opened System
  import opened Invariant
  import opened LsuLink
  import opened DrainChain
  import opened Packets
  import opened ExStep
  import opened Refinement

  /** The system with, for each port, the cycles its present wait has lasted. */
  datatype Timed = Timed(y: Sys, imAge: nat, dmAge: nat)

  /** A wait is either for acceptance of an offered request or for an answer. */
  function AgeNext<T>(age: nat, out: Option<T>, offered: bool, ready: bool, rspValid: bool): nat {
    if out.Some? then (if !rspValid then age + 1 else if offered && !ready then 1 else 0)
    else if offered && !ready then age + 1 else 0
  }

  /** No wait on a port lasts more than `n` cycles. */
  predicate Prompt<T>(n: nat, age: nat, out: Option<T>, offered: bool, ready: bool, rspValid: bool) {
    age >= n ==> (out.Some? ==> rspValid) && (out.None? && offered ==> ready)
  }

  predicate ImOffered(s: CoreState, i: CoreIn) { IfReqValid(s.fe, FetchWires(s, i)) }
  predicate DmOffered(s: CoreState, i: CoreIn) { LsuReqValid(s.lsu, LsuWires(s, i, false)) }

  predicate PromptEnv(n: nat, t: Timed, i: CoreIn) {
    && Prompt(n, t.imAge, t.y.imOut, ImOffered(t.y.core, i), i.imReady, i.imRsp.valid)
    && Prompt(n, t.dmAge, t.y.dmOut, DmOffered(t.y.core, i), i.dmReady, i.dmRsp.valid)
  }

  function TimedNext(t: Timed, i: CoreIn, p: Params): Timed {
    Timed(SysNext(t.y, i, p),
          AgeNext(t.imAge, t.y.imOut, ImOffered(t.y.core, i), i.imReady, i.imRsp.valid),
          AgeNext(t.dmAge, t.y.dmOut, DmOffered(t.y.core, i), i.dmReady, i.dmRsp.valid))
  }

  predicate AgesOk(n: nat, t: Timed) { t.imAge <= n && t.dmAge <= n }

  lemma AgesKept(n: nat, t: Timed, i: CoreIn, p: Params)
    requires n >= 1 && AgesOk(n, t) && PromptEnv(n, t, i)
    ensures AgesOk(n, TimedNext(t, i, p))
  {
    hide SysNext, ImOffered, DmOffered;
  }

  // ----- what is left to wait for, per stage

  function Left(n: nat, age: nat): nat { if age <= n then n - age else 0 }

  /** Fetch with nothing else in the pipeline. */
  function FetchRank(n: nat, f: IfState, age: nat): nat {
    if f.packetValid then 0
    else if !f.busy then 2 * n + 4
    else if !f.discard then (if f.requestSent then 1 + Left(n, age) else n + 2 + Left(n, age))
    else if f.requestSent then 2 * n + 5 + Left(n, age)
    else 3 * n + 6 + Left(n, age)
  }

  /** A memory access in EX/MEM. */
  function LsuRank(n: nat, l: LsuState, m: ExMem, age: nat): nat {
    if !MemIsMemory(m) then 0
    else match l.phase
      case LsuResp => 0
      case LsuIdle => 2 * n + 4
      case LsuBusy =>
        if l.discard then 2 * n + 5 + Left(n, age)
        else if l.requestSent then 1 + Left(n, age) else n + 2 + Left(n, age)
  }

  /** Multiplier or divider work of the packet in ID/EX. */
  function MduRank(s: CoreState): nat {
    if !IsMdu(s.e) then 0
    else if IsMul(s.e.ctrl.mduOp) then
      (match s.mul.phase case MulIdle => 2 case MulExec => 1 case MulResp => 0)
    else
      (match s.div.phase case DivIdle => 33 case DivRun => (if s.div.iter <= 31 then 32 - s.div.iter else 0) case DivResp => 0)
  }

  function BaseE(n: nat): nat { 3 * n + 8 }
  function BaseD(n: nat): nat { BaseE(n) + 34 }

  /** Cycles until the next commit, at most; zero exactly when one is in MEM/WB. */
  function Rank(n: nat, t: Timed): nat {
    var s := t.y.core;
    if s.w.valid then 0
    else if s.m.valid then 1 + LsuRank(n, s.lsu, s.m, t.dmAge)
    else if s.e.valid then BaseE(n) + MduRank(s)
    else if s.d.valid then BaseD(n)
    else BaseD(n) + 1 + FetchRank(n, s.fe, t.imAge)
  }

  function Bound(n: nat): nat { BaseD(n) + 1 + 4 * n + 6 }

  lemma RankBounded(n: nat, t: Timed)
    ensures Rank(n, t) <= Bound(n)
  {
  }

  // ----- each stage moves

  /** Fetch alone in the pipeline either delivers or comes nearer to delivering. */
  lemma FetchAdvances(n: nat, f: IfState, i: IfIn, out: Option<Word>, age: nat, v: Word, prog: Program)
    requires n >= 1 && FetchInv(f, out, prog) && FetchEnv(f, i, out, prog) && age <= n
    requires !i.rst && i.enable && i.consume && !i.flush && !i.redirectValid
    requires Prompt(n, age, out, IfReqValid(f, i), i.reqReady, i.rsp.valid)
    ensures FetchOut(f, i).valid ||
            FetchRank(n, IfNext(f, i, v), AgeNext(age, out, IfReqValid(f, i), i.reqReady, i.rsp.valid)) < FetchRank(n, f, age)
  {
    hide Add32, Aligned4;
  }

  /** A waiting access comes nearer to its answer. */
  lemma LsuAdvances(n: nat, l: LsuState, m: ExMem, out: Option<MemReq>, ready: bool, rsp: MemRsp, age: nat)
    requires n >= 1 && LsuOk(l, m, out) && MemIsMemory(m) && age <= n
    requires rsp.valid ==> out.Some? || LsuFire(l, Wires(m, ready, rsp, false))
    requires !LsuOutput(l, Wires(m, ready, rsp, false)).rspValid
    requires Prompt(n, age, out, LsuReqValid(l, Wires(m, ready, rsp, false)), ready, rsp.valid)
    ensures var w := Wires(m, ready, rsp, false);
      LsuRank(n, LsuNext(l, w), m, AgeNext(age, out, LsuReqValid(l, w), ready, rsp.valid)) < LsuRank(n, l, m, age)
  {
    hide ExtractLoad, StoreStrobe, StoreLanes, Misaligned, MisalignedExc, AccessExc, BusRequest, LoadResult;
  }

  /** With nothing older, EX fires or its unit takes a step. */
  lemma MduAdvances(s: CoreState, i: CoreIn, t: CoreState)
    requires !i.rst && s.e.valid && !s.m.valid && !s.w.valid && MduOk(s)
    requires t.mul == MulNext(s.mul, MulWires(s, i)) && t.div == DivNext(s.div, DivWires(s, i))
    requires t.e.ctrl == s.e.ctrl && t.e.exc == s.e.exc
    requires !ExFire(s, i)
    ensures MduRank(t) < MduRank(s)
  {
    hide FwdA, FwdB, IsaMul, ExtendLhs, ExtendRhs, SelectHalf, StepQR, Shortcut, Magnitude, SignedOp, QuotientOp, IsaDiv, LoopInv;
  }

  /** With ID alone, the instruction is let in: no interlock has anything to wait for. */
  lemma IdAdvances(s: CoreState, i: CoreIn, p: Params)
    requires !i.rst && !s.w.valid && !s.m.valid && !s.e.valid && !s.drain
    ensures Issues(SelectAction(s, i)) && !SelectAction(s, i).ActTrapDrain?
    ensures !s.d.valid ==> SelectAction(s, i).ActAdvance?
  {
    hide IdPacket, TimerPacket, LsuOutput, IrqEligible;
    IdOutMeans(s, i);
  }

  // ----- one cycle

  /** While a memory access waits, nothing commits but the access comes nearer to its answer. */
  lemma MemoryStage(n: nat, t: Timed, i: CoreIn, p: Params, prog: Program)
    requires n >= 1 && Inv(t.y, prog) && Env(t.y, i, prog) && !i.rst && AgesOk(n, t) && PromptEnv(n, t, i)
    requires !t.y.core.w.valid && t.y.core.m.valid
    ensures Rank(n, TimedNext(t, i, p)) < Rank(n, t)
  {
    var y := t.y;
    var s := y.core;
    InvFacts(y, prog);
    assert LsuOk(s.lsu, s.m, y.dmOut);
    ActionMeans(s, i);
    Shapes(s, i, p);
    EnvData(y, i, prog);
    RspReadyIs(s, i);
    DataSide(y, i, p);
    TipNext(y, i, p);
    WiresMatch(s, i, false);
    if MemWait(s, i) {
      assert Prompt(n, t.dmAge, y.dmOut, DmOffered(s, i), i.dmReady, i.dmRsp.valid);
      hide Inv, Env, Next, SysNext, LsuOk, LsuOutput, LsuFire, LsuReqValid, LsuNext, LsuReq, Prompt, SelectAction, EFacts, MFacts,
           WFacts, AgeNext, LsuRspReady, ImOffered, LsuRank, MduRank, FetchRank, PromptEnv, TxnOf, CsrData, DmFire;
      LsuAdvances(n, s.lsu, s.m, y.dmOut, i.dmReady, i.dmRsp, t.dmAge);
    } else {
      MemOutMeans(s, i);
      hide Inv, Env, Next, SysNext, LsuOk, LsuOutput, LsuFire, LsuReqValid, LsuNext, LsuReq, Prompt, SelectAction, EFacts, MFacts,
           WFacts, AgeNext, LsuRspReady, ImOffered, DmOffered, LsuRank, MduRank, FetchRank, PromptEnv, TxnOf, CsrData, DmFire, MemPacket;
    }
  }

  /** With nothing older, the packet in ID/EX fires, or its unit takes a step. */
  lemma ExecuteStage(n: nat, t: Timed, i: CoreIn, p: Params, prog: Program)
    requires n >= 1 && Inv(t.y, prog) && !i.rst && AgesOk(n, t)
    requires !t.y.core.w.valid && !t.y.core.m.valid && t.y.core.e.valid
    ensures Rank(n, TimedNext(t, i, p)) < Rank(n, t)
  {
    var y := t.y;
    var s := y.core;
    assert MduOk(s);
    ActionMeans(s, i);
    Shapes(s, i, p);
    CommitsState(s, i, p);
    ExOutMeans(s, i);
    MemOutMeans(s, i);
    RefreshMeans(s.e, s.w);
    TipNext(y, i, p);
    AgesBound(n, t, i, p);
    var u := TimedNext(t, i, p).y.core;
    hide Inv, Next, SysNext, SelectAction, LsuNow, MemException, FwdA, FwdB, ExPacket, CsrData, MduResult, AgeNext, ImOffered,
         DmOffered, FetchRank, IdOut, ExOut, MemPacket, Refresh, FetchOut, FetchWires, ExException, Redirect, RedirectTarget, TxnOf;
    if !ExFire(s, i) {
      hide MulNext, DivNext, MulWires, DivWires, MduOk, ExFire, ExWait;
      MduAdvances(s, i, u);
      hide MduRank;
    } else {
      LsuRankBounded(n, u.lsu, u.m, TimedNext(t, i, p).dmAge);
      hide MduRank, LsuRank, MduOk, ExFire, ExWait;
    }
  }

  lemma LsuRankBounded(n: nat, l: LsuState, m: ExMem, age: nat)
    ensures LsuRank(n, l, m, age) <= 3 * n + 5
  {
  }

  lemma AgesBound(n: nat, t: Timed, i: CoreIn, p: Params)
    ensures TimedNext(t, i, p).y == SysNext(t.y, i, p)
  {
  }

  /** With only ID and fetch left, the instruction in ID is let in, or the next one arrives. */
  lemma FrontStage(n: nat, t: Timed, i: CoreIn, p: Params, prog: Program)
    requires n >= 1 && Inv(t.y, prog) && Env(t.y, i, prog) && !i.rst && AgesOk(n, t) && PromptEnv(n, t, i)
    requires !t.y.core.w.valid && !t.y.core.m.valid && !t.y.core.e.valid
    ensures Rank(n, TimedNext(t, i, p)) < Rank(n, t)
  {
    var y := t.y;
    var s := y.core;
    assert FetchInv(s.fe, y.imOut, prog) && !s.drain by { assert DrainOk(s.d, s.e, s.m, s.w, s.drain); }
    IdAdvances(s, i, p);
    ActionMeans(s, i);
    Shapes(s, i, p);
    FetchShapes(s, i, p);
    if !s.d.valid { FetchEnabled(s, i); }
    IdOutMeans(s, i);
    ExOutMeans(s, i);
    MemOutMeans(s, i);
    EnvFetch(y, i, prog);
    TipNext(y, i, p);
    MduRankBounded(TimedNext(t, i, p).y.core);
    var f := FetchWires(s, i);
    assert Prompt(n, t.imAge, y.imOut, ImOffered(s, i), i.imReady, i.imRsp.valid);
    hide Inv, Env, Next, SysNext, SelectAction, LsuNow, MemException, MemWait, ExPacket, CsrData, FetchWires, FetchOut, IfNext,
         FetchInv, FetchEnv, IfReqValid, Prompt, AgeNext, FetchRank, MduRank, LsuRank, IdOut, ExOut, MemPacket, Refresh, DmOffered,
         ExFire, ExWait, ExException, Redirect, PromptEnv, RedirectTarget, TxnOf;
    if !s.d.valid {
      FetchAdvances(n, s.fe, f, y.imOut, t.imAge, p.resetVector, prog);
    }
  }

  lemma MduRankBounded(s: CoreState)
    ensures MduRank(s) <= 33
  {
  }

  lemma FetchEnabled(s: CoreState, i: CoreIn)
    requires !i.rst && SelectAction(s, i).ActAdvance?
    ensures FetchWires(s, i).enable && FetchWires(s, i).reqReady == i.imReady && FetchWires(s, i).rsp == i.imRsp
  {
    hide SelectAction, RedirectTarget;
  }

  /** Without a commit this cycle, the next commit is strictly nearer. */
  lemma ProgressStep(n: nat, t: Timed, i: CoreIn, p: Params, prog: Program)
    requires n >= 1 && Inv(t.y, prog) && Env(t.y, i, prog) && !i.rst && AgesOk(n, t) && PromptEnv(n, t, i)
    requires !t.y.core.w.valid
    ensures Rank(n, TimedNext(t, i, p)) < Rank(n, t)
  {
    hide Inv, Env, TimedNext, Rank, PromptEnv;
    if t.y.core.m.valid { MemoryStage(n, t, i, p, prog); }
    else if t.y.core.e.valid { ExecuteStage(n, t, i, p, prog); }
    else { FrontStage(n, t, i, p, prog); }
  }

  // ----- whole runs

  predicate PromptRun(n: nat, t: Timed, ins: seq<CoreIn>, p: Params)
    decreases |ins|
  {
    ins == [] || (PromptEnv(n, t, ins[0]) && PromptRun(n, TimedNext(t, ins[0], p), ins[1..], p))
  }

  lemma {:induction false} CommitWithinRank(n: nat, t: Timed, ins: seq<CoreIn>, p: Params, prog: Program)
    requires n >= 1 && Inv(t.y, prog) && AgesOk(n, t) && Aligned4(p.resetVector)
    requires RunEnv(t.y, ins, p, prog) && NoReset(ins) && PromptRun(n, t, ins, p)
    requires |ins| > Rank(n, t)
    ensures |Trace(t.y, ins, p)| >= 1
    decreases |ins|
  {
    hide Inv, Env, SysNext, TimedNext, Rank, PromptEnv, TraceOf, AgesOk;
    if !t.y.core.w.valid {
      ProgressStep(n, t, ins[0], p, prog);
      InvStep(t.y, ins[0], p, prog);
      AgesKept(n, t, ins[0], p);
      AgesBound(n, t, ins[0], p);
      CommitWithinRank(n, TimedNext(t, ins[0], p), ins[1..], p, prog);
    }
  }

  /** Some instruction retires or traps in every window longer than `Bound(n)`. */
  lemma BoundedProgress(n: nat, t: Timed, ins: seq<CoreIn>, p: Params, prog: Program)
    requires n >= 1 && Inv(t.y, prog) && AgesOk(n, t) && Aligned4(p.resetVector)
    requires RunEnv(t.y, ins, p, prog) && NoReset(ins) && PromptRun(n, t, ins, p)
    requires |ins| > Bound(n)
    ensures |Trace(t.y, ins, p)| >= 1 && Bound(n) == 7 * n + 49
  {
    RankBounded(n, t);
    hide Inv, RunEnv, PromptRun, Rank, Trace;
    CommitWithinRank(n, t, ins, p, prog);
  }
}
