/** The main results for every reachable state: power-on, a reset, and then any run. */
module Reachability {
  import opened Rv32Types
  import opened IfStage
  import opened Lsu
  import opened PipelineStages
  import opened Rv32Core
  import opened FetchOrder
  import opened Isa
  import opened System
  import opened Invariant
  import opened Refinement
  import opened Progress
  import opened Properties

  /** `y` is where a run leads that starts with reset from some power-on state with
      accounted ports, with conforming memories and further resets anywhere in it. */
  ghost predicate Reachable(y: Sys, p: Params, prog: Program) {
    exists y0: Sys, ins: seq<CoreIn> :: LeadsTo(y0, ins, y, p, prog)
  }

  predicate LeadsTo(y0: Sys, ins: seq<CoreIn>, y: Sys, p: Params, prog: Program) {
    PortsOk(y0) && ins != [] && ins[0].rst && RunEnv(y0, ins, p, prog) && RunEnd(y0, ins, p) == y
  }

  lemma ReachableInv(y: Sys, p: Params, prog: Program)
    requires Reachable(y, p, prog) && Aligned4(p.resetVector)
    ensures Inv(y, prog)
  {
    hide Inv, PortsOk, RunEnv, RunEnd;
    var y0: Sys, ins: seq<CoreIn> :| LeadsTo(y0, ins, y, p, prog);
    PowerOnRun(y0, ins, p, prog);
  }

  /** From every reachable state, every reset-free run retires and traps exactly as the
      sequential machine does, and its accepted data requests are that machine's accesses. */
  lemma CoreRefinesIsa(y: Sys, ins: seq<CoreIn>, p: Params, prog: Program)
    requires Reachable(y, p, prog) && Aligned4(p.resetVector) && RunEnv(y, ins, p, prog) && NoReset(ins)
    ensures Trace(y, ins, p) == SeqTrace(prog, Abs(y), Oracles(y, ins, p))
    ensures Abs(RunEnd(y, ins, p)) == SeqEnd(prog, Abs(y), Oracles(y, ins, p))
    ensures InFlight(y) + Accepted(y, ins, p) ==
            SeqAccesses(prog, Abs(y), Oracles(y, ins, p)) + InFlight(RunEnd(y, ins, p))
  {
    hide Inv, Reachable, RunEnv, Trace, Oracles, Accepted, RunEnd, InFlight, Abs, SeqTrace, SeqEnd, SeqAccesses, NoReset;
    ReachableInv(y, p, prog);
    RunRefinesIsa(y, ins, p, prog);
    RequestsAreProgramOrder(y, ins, p, prog);
  }

  /** From every reachable state something commits within `Bound(n)` cycles. */
  lemma CoreProgresses(n: nat, t: Timed, ins: seq<CoreIn>, p: Params, prog: Program)
    requires Reachable(t.y, p, prog) && Aligned4(p.resetVector) && n >= 1 && AgesOk(n, t)
    requires RunEnv(t.y, ins, p, prog) && NoReset(ins) && PromptRun(n, t, ins, p) && |ins| > Bound(n)
    ensures |Trace(t.y, ins, p)| >= 1
  {
    hide Inv, Reachable, RunEnv, Trace, PromptRun, NoReset;
    ReachableInv(t.y, p, prog);
    BoundedProgress(n, t, ins, p, prog);
  }

  /** In every reachable state: one offender while draining and bubbles behind it, aligned
      PCs, one owner of the multiplier and divider, interrupts only while enabled. */
  lemma ReachableStates(y: Sys, p: Params, prog: Program)
    requires Reachable(y, p, prog) && Aligned4(p.resetVector)
    ensures Offenders(y.core) == Count(y.core.drain) && (y.core.drain ==> !y.core.d.valid)
    ensures Aligned4(FetchPc(y.core.fe)) && Aligned4(OldestPc(y.core))
    ensures Aligned4(y.core.csr.mtvec) && Aligned4(y.core.csr.mepc)
    ensures !y.core.mul.phase.MulIdle? || !y.core.div.phase.DivIdle? ==> y.core.e.valid && IsMdu(y.core.e)
    ensures y.core.w.valid && y.core.w.exc.valid && y.core.w.exc.isInterrupt ==> y.core.csr.mie && y.core.csr.mtie
  {
    hide Inv, Reachable, FetchPc, OldestPc, Offenders, IsMdu, FwdA, FwdB;
    ReachableInv(y, p, prog);
    PreciseTraps(y, prog);
    EveryPcAligned(y, prog);
    MduOwned(y, prog);
    InterruptEnabled(y, prog);
  }
}
