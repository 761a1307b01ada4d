/** Bounded progress of the SoC: the TCM answers at once, so the only waits are for a
    peripheral to accept, and those are bounded by the slowest one. */
module SocProgress {
  import opened Rv32Types
  import opened IfStage
  import opened Lsu
  import opened Rv32Core
  import opened FetchOrder
  import opened Staged
  import opened System
  import opened Invariant
  import opened Refinement
  import opened Progress
  import opened MemDemux
  import opened Soc
  import opened SocMemory

  /** No peripheral refuses the same request for more than `n` cycles. */
  predicate PeripheralsAccept(n: nat, p: SocParams, z: SocState, x: SocIn, dmAge: nat) {
    dmAge >= n ==> Willing(p, x, ToFabric(p, z, x).req.addr)
  }

  /** The peripheral an address belongs to accepts in this cycle; the TCM always does. */
  predicate Willing(p: SocParams, x: SocIn, address: Word) {
    && (Belongs(p.demux, TargetTimer, address) ==> x.timerReady)
    && (Belongs(p.demux, TargetUart, address) ==> x.uartReady)
    && (Belongs(p.demux, TargetGpio, address) ==> x.gpioReady)
  }

  lemma SocIsPrompt(n: nat, p: SocParams, z: SocState, x: SocIn, prog: Program, imAge: nat, dmAge: nat)
    requires SocInv(p, z, prog) && !x.rst && PeripheralsAccept(n, p, z, x, dmAge)
    ensures PromptEnv(n, Timed(z.y, imAge, dmAge), Wired(p, z, x))
  {
    var i, f := Wired(p, z, x), ToFabric(p, z, x);
    SameTransfer(p, z, x);
    FabricMoves(p.demux, z.fabric, f, z.y.dmOut);
    if dmAge >= n && z.y.dmOut.None? { ReadyWhenFree(p, z, x, f, z.y.dmOut); }
    hide Wired, ToFabric, FabricReady, FabricRsp, FabricNext, FabricInv, DmReq, DmFire, ImOffered, DmOffered, Select;
  }

  lemma ReadyWhenFree(p: SocParams, z: SocState, x: SocIn, f: FabricIn, out: Option<MemReq>)
    requires FabricInv(p.demux, z.fabric, out) && out.None? && !f.rst && f == ToFabric(p, z, x)
    requires Willing(p, x, f.req.addr)
    ensures FabricReady(p.demux, z.fabric, f)
  {
    hide Matches, DmReq, LsuReqValid, Before, TcmAnswer;
  }

  /** The core inputs of a run of the SoC. */
  function CoreInputs(p: SocParams, z: SocState, xs: seq<SocIn>): (ins: seq<CoreIn>)
    ensures |ins| == |xs|
    decreases |xs|
  {
    if xs == [] then [] else [Wired(p, z, xs[0])] + CoreInputs(p, SocNext(p, z, xs[0]), xs[1..])
  }

  /** Peripherals accept in time along a run. */
  predicate AcceptRun(n: nat, p: SocParams, z: SocState, t: Timed, xs: seq<SocIn>)
    decreases |xs|
  {
    xs == [] ||
    (PeripheralsAccept(n, p, z, xs[0], t.dmAge)
     && AcceptRun(n, p, SocNext(p, z, xs[0]), TimedNext(t, Wired(p, z, xs[0]), p.core), xs[1..]))
  }

  /** A run of the SoC is a run of the core whose memories keep their promises and are prompt. */
  lemma {:induction false} SocIsRun(n: nat, p: SocParams, z: SocState, t: Timed, xs: seq<SocIn>, prog: Program)
    requires Inv(z.y, prog) && SocInv(p, z, prog) && SocRun(p, z, xs, prog) && t.y == z.y && AcceptRun(n, p, z, t, xs)
    ensures var ins := CoreInputs(p, z, xs);
      RunEnv(z.y, ins, p.core, prog) && NoReset(ins) && PromptRun(n, t, ins, p.core) && Trace(z.y, ins, p.core) == SocTrace(p, z, xs)
    decreases |xs|
  {
    hide Inv, SocInv, CodeIntact, SocNext, Wired, SysNext, TimedNext, Env, PromptEnv, PeripheralsAccept, TraceOf;
    if xs != [] {
      OneCycle(n, p, z, t, xs[0], prog);
      var next, t2 := SocNext(p, z, xs[0]), TimedNext(t, Wired(p, z, xs[0]), p.core);
      SocIsRun(n, p, next, t2, xs[1..], prog);
      var ins := CoreInputs(p, z, xs);
      assert ins[1..] == CoreInputs(p, next, xs[1..]);
    }
  }

  lemma OneCycle(n: nat, p: SocParams, z: SocState, t: Timed, x: SocIn, prog: Program)
    requires Inv(z.y, prog) && SocInv(p, z, prog) && CodeIntact(p, z, x, prog) && !x.rst
    requires t.y == z.y && PeripheralsAccept(n, p, z, x, t.dmAge)
    ensures var i, next := Wired(p, z, x), SocNext(p, z, x);
      && Env(z.y, i, prog) && !i.rst && PromptEnv(n, t, i) && next.y == SysNext(z.y, i, p.core)
      && TimedNext(t, i, p.core).y == next.y && Inv(next.y, prog) && SocInv(p, next, prog)
  {
    hide Inv, SocInv, CodeIntact, SocNext, SysNext, TimedNext, Env, PromptEnv, PeripheralsAccept, ToFabric, FabricReady,
         FabricRsp, DmFire, DmReq;
    SocStep(p, z, x, prog);
    SocKeepsPromises(p, z, x, prog);
    SocIsPrompt(n, p, z, x, prog, t.imAge, t.dmAge);
    AgesBound(n, t, Wired(p, z, x), p.core);
    NextIs(p, z, x);
    assert Timed(z.y, t.imAge, t.dmAge) == t;
  }

  /** The SoC commits an instruction or trap in every window longer than `Bound(n)`,
      where `n` bounds how long any peripheral makes a request wait. */
  lemma SocProgresses(n: nat, p: SocParams, z: SocState, xs: seq<SocIn>, prog: Program)
    requires n >= 1 && Inv(z.y, prog) && SocInv(p, z, prog) && SocRun(p, z, xs, prog) && Aligned4(p.core.resetVector)
    requires AcceptRun(n, p, z, Timed(z.y, 0, 0), xs)
    requires |xs| > Bound(n)
    ensures |SocTrace(p, z, xs)| >= 1
  {
    hide Inv, SocInv, SocRun, AcceptRun, RunEnv, PromptRun, Trace, SocTrace, CoreInputs, NoReset;
    SocIsRun(n, p, z, Timed(z.y, 0, 0), xs, prog);
    BoundedProgress(n, Timed(z.y, 0, 0), CoreInputs(p, z, xs), p.core, prog);
  }
}
