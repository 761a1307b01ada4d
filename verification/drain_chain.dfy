/** Precise traps and program order: the drain flag, squashing of younger
    packets, and the chain of PCs from fetch to commit. */
module DrainChain {
  import opened Rv32Types
  import opened Decoder
  import opened DivUnit
  import opened MulUnit
  import opened CsrFile
  import opened IfStage
  import opened Lsu
  import opened PipelineStages
  import opened Rv32Core
  import opened FetchOrder
  import opened Isa
  import opened Staged
  import opened System
  import opened Invariant

  // ----- what EX and MEM hand on

  /** EX hands a packet on exactly when it fires; a fault it discovers is new. */
  lemma ExOutMeans(s: CoreState, i: CoreIn)
    requires !i.rst && !WbTrap(s.w) && !MemWait(s, i) && !MemException(s, i)
    ensures ExOut(s, i).valid == ExFire(s, i) == (s.e.valid && !ExWait(s, i))
    ensures s.e.valid && s.e.exc.valid ==> ExFire(s, i)
    ensures ExFire(s, i) ==>
      && ExOut(s, i) == ExPacket(s.e, FwdA(s), FwdB(s), CsrData(s, i), s.csr.mepc, MduResult(s))
      && ExOut(s, i).pc == s.e.pc
      && (s.e.exc.valid ==> ExOut(s, i).exc.valid)
      && (ExException(s, i) <==> ExOut(s, i).exc.valid && !s.e.exc.valid)
      && (!ExOut(s, i).exc.valid ==>
            (Redirect(s, i) <==> ExOut(s, i).controlTaken)
            && ExOut(s, i).controlTarget == RedirectTarget(s))
    ensures !ExFire(s, i) ==> ExOut(s, i) == EX_MEM_BUBBLE && !ExException(s, i) && !Redirect(s, i)
  {
    hide MemWait, MemException, WbTrap, MduRspValid, ForwardA, ForwardB, CsrRead, MduResult, AccessIllegal,
         AluResult, CsrWdata, BranchTarget, Signed;
  }

  lemma MemOutMeans(s: CoreState, i: CoreIn)
    requires !MemWait(s, i)
    ensures MemPacket(s.m, LsuNow(s, i)).valid == s.m.valid
    ensures s.m.valid ==>
      && MemPacket(s.m, LsuNow(s, i)).pc == s.m.pc
      && SuccW(MemPacket(s.m, LsuNow(s, i))) == SuccM(s.m)
      && (WbTrap(MemPacket(s.m, LsuNow(s, i))) <==> s.m.exc.valid || MemException(s, i))
  {
    hide LsuNow, ExMemValue;
  }

  lemma IdOutMeans(s: CoreState, i: CoreIn)
    ensures IdOut(s, i).valid == s.d.valid
    ensures s.d.valid ==> IdOut(s, i).pc == s.d.pc
    ensures IdException(s, i) || IdInterrupt(s, i) <==> IdOut(s, i).valid && IdOut(s, i).exc.valid
  {
    hide Decode, IdOperand, IrqEligible, IrqStateWait;
  }

  lemma RefreshMeans(e: IdEx, w: MemWb)
    ensures Refresh(e, w).valid == e.valid && Refresh(e, w).pc == e.pc && Refresh(e, w).exc == e.exc
    ensures Refresh(e, w).ctrl == e.ctrl && Refresh(e, w).insn == e.insn
    ensures Refresh(e, w).rs1 == e.rs1 && Refresh(e, w).rs2 == e.rs2 && Refresh(e, w).rd == e.rd
  {
  }

  // ----- precise traps

  lemma DrainStep(y: Sys, i: CoreIn, p: Params, prog: Program)
    requires Inv(y, prog) && !i.rst
    ensures var t := Next(y.core, i, p); DrainOk(t.d, t.e, t.m, t.w, t.drain)
  {
    hide Inv, SelectAction, Next, FetchOut, FetchWires, Refresh, IdOut, ExOut, MemPacket, LsuNow, RedirectTarget,
         ExException, ExFire, ExWait, Redirect, IrqStateWait, IdException, IdInterrupt, IdHazard, ExPacket,
         FwdA, FwdB, MduResult, CsrData, SuccM, SuccW;
    var s := y.core;
    InvDrain(y, prog);
    ActionMeans(s, i);
    Shapes(s, i, p);
    FetchShapes(s, i, p);
    SelectNotReset(s, i);
    IdOutMeans(s, i);
    RefreshMeans(s.e, s.w);
    if !MemWait(s, i) { MemOutMeans(s, i); }
    if !WbTrap(s.w) && !MemWait(s, i) && !MemException(s, i) { ExOutMeans(s, i); }
    NoFetchInDrain(s, i);
  }

  lemma InvDrain(y: Sys, prog: Program)
    requires Inv(y, prog)
    ensures DrainOk(y.core.d, y.core.e, y.core.m, y.core.w, y.core.drain)
  {
    hide EOk, NoLoadUse, FetchInv, DrainOk, ChainOk, AlignedOk, DOk, MOk, WOk, CsrSafe, IrqSafe, MduOk, LsuOk;
  }

  lemma NoFetchInDrain(s: CoreState, i: CoreIn)
    requires !i.rst
    ensures SelectAction(s, i).ActAdvance? ==> !s.drain
  {
    ActionMeans(s, i);
    hide SelectAction, MemWait, MemException, ExException, ExWait, Redirect, IrqStateWait,
         IdException, IdInterrupt, IdHazard;
  }

  // ----- the front end

  /** Fetch keeps its invariant, and the head of the decode side moves with it. */
  lemma FrontStep(y: Sys, i: CoreIn, p: Params, prog: Program)
    requires Inv(y, prog) && Env(y, i, prog) && !i.rst
    requires SelectAction(y.core, i).ActExRedirect? ==> Aligned4(RedirectTarget(y.core))
    ensures var s, act, t := y.core, SelectAction(y.core, i), Next(y.core, i, p);
      && FetchInv(t.fe, SysNext(y, i, p).imOut, prog)
      && DOk(prog, t.d) && (t.d.valid ==> Aligned4(t.d.pc))
      && (KeepsD(act) ==> t.d == s.d && FetchPc(t.fe) == FetchPc(s.fe))
      && (act.ActWbTrap? ==> !t.d.valid && FetchPc(t.fe) == AlignDown4(s.csr.mtvec))
      && (act.ActExRedirect? ==> !t.d.valid && FetchPc(t.fe) == RedirectTarget(s))
      && (act.ActAdvance? ==> HeadD(t) == FetchPc(s.fe) && (t.d.valid ==> FetchPc(t.fe) == Add32(t.d.pc, 4)))
  {
    hide Inv, Env, SysNext, FetchPc, ImFire, ImAddr, SelectAction, Next, FetchWires, Refresh, IdOut, ExOut, MemPacket,
         LsuNow, RedirectTarget, FetchEnv, IfNext, IfFire, IfReqAddr, FetchOut, FetchInv;
    var s := y.core;
    InvFront(y, prog);
    Shapes(s, i, p);
    FetchShapes(s, i, p);
    EnvFetch(y, i, prog);
    OutsMove(y, i, p);
    AlignedVector(s.csr.mtvec);
    FetchStep(s.fe, FetchWires(s, i), y.imOut, p.resetVector, prog);
    FetchDelivers(s.fe, FetchWires(s, i), y.imOut, p.resetVector, prog);
    FetchPcAligned(s.fe, y.imOut, prog);
  }

  lemma AlignedVector(v: Word)
    ensures Aligned4(AlignDown4(v))
  {
  }

  lemma InvFront(y: Sys, prog: Program)
    requires Inv(y, prog)
    ensures FetchInv(y.core.fe, y.imOut, prog) && DOk(prog, y.core.d) && (y.core.d.valid ==> Aligned4(y.core.d.pc))
  {
    hide EOk, NoLoadUse, FetchInv, DrainOk, ChainOk, DOk, MOk, WOk, CsrSafe, IrqSafe, MduOk, LsuOk;
  }

  lemma OutsMove(y: Sys, i: CoreIn, p: Params)
    ensures SysNext(y, i, p).imOut ==
            OutNext(y.imOut, IfFire(y.core.fe, FetchWires(y.core, i)), IfReqAddr(y.core.fe, FetchWires(y.core, i)), i.imRsp.valid)
    ensures FetchWires(y.core, i).rsp == i.imRsp
  {
    hide Next, SelectAction, CsrData, TxnOf, IfFire, IfReqAddr, DmFire, DmReq, ControlTable;
  }

  lemma FetchPcAligned(f: IfState, out: Option<Word>, prog: Program)
    requires FetchInv(f, out, prog)
    ensures Aligned4(FetchPc(f))
  {
  }

  lemma EnvFetch(y: Sys, i: CoreIn, prog: Program)
    requires Env(y, i, prog)
    ensures FetchEnv(y.core.fe, FetchWires(y.core, i), y.imOut, prog)
  {
  }

  /** A redirect is taken only to an aligned target. */
  lemma RedirectAligned(s: CoreState, i: CoreIn)
    requires Redirect(s, i)
    ensures Aligned4(RedirectTarget(s))
  {
    hide MemWait, MemException, WbTrap, MduRspValid, ForwardA, ForwardB, CsrRead, MduResult, AccessIllegal,
         AluResult, CsrWdata, BranchTarget, Signed, BranchTaken;
  }

  /** The decode side after the edge: what follows the packet that leaves ID/EX. */
  lemma HeadEStep(y: Sys, i: CoreIn, p: Params, prog: Program)
    requires Inv(y, prog) && Env(y, i, prog) && !i.rst
    ensures var s, act, t := y.core, SelectAction(y.core, i), Next(y.core, i, p);
      && (t.d.valid && !t.drain ==> FetchPc(t.fe) == Add32(t.d.pc, 4))
      && (Holds(act) ==> HeadD(t) == HeadD(s) && HeadE(t) == HeadE(s))
      && (Passes(act) && !act.ActExException? && !act.ActExRedirect? ==> HeadE(t) == HeadD(s))
      && (act.ActExRedirect? ==> HeadE(t) == RedirectTarget(s))
      && (act.ActWbTrap? ==> HeadE(t) == AlignDown4(s.csr.mtvec))
      && (t.e.valid && !t.e.exc.valid ==> HeadD(t) == Add32(t.e.pc, 4))
  {
    var s := y.core;
    assert ChainOk(s) && DrainOk(s.d, s.e, s.m, s.w, s.drain);
    ActionMeans(s, i);
    Shapes(s, i, p);
    FetchShapes(s, i, p);
    SelectNotReset(s, i);
    IdOutMeans(s, i);
    RefreshMeans(s.e, s.w);
    if Redirect(s, i) { RedirectAligned(s, i); }
    FrontStep(y, i, p, prog);
    hide Inv, Env, SelectAction, Next, FetchOut, FetchWires, Refresh, IdOut, ExOut, MemPacket, LsuNow, RedirectTarget,
         MemWait, MemException, ExException, ExFire, ExWait, Redirect, IrqStateWait, IdException, IdInterrupt, IdHazard,
         FetchPc, FetchInv, DOk, SuccM, SuccW, AlignDown4, SysNext;
  }

  /** Program order is kept, and the oldest uncommitted PC only moves by a commit. */
  lemma ChainStep(y: Sys, i: CoreIn, p: Params, prog: Program)
    requires Inv(y, prog) && Env(y, i, prog) && !i.rst
    ensures ChainOk(Next(y.core, i, p))
    ensures OldestPc(Next(y.core, i, p)) == if WbTrap(y.core.w) then AlignDown4(y.core.csr.mtvec) else HeadM(y.core)
  {
    var s := y.core;
    assert ChainOk(s) && DrainOk(s.d, s.e, s.m, s.w, s.drain);
    ActionMeans(s, i);
    Shapes(s, i, p);
    HeadEStep(y, i, p, prog);
    RefreshMeans(s.e, s.w);
    if !MemWait(s, i) { MemOutMeans(s, i); }
    if !WbTrap(s.w) && !MemWait(s, i) && !MemException(s, i) { ExOutMeans(s, i); }
    hide Inv, Env, SelectAction, Next, FetchOut, FetchWires, Refresh, IdOut, ExOut, MemPacket, LsuNow, RedirectTarget,
         MemWait, MemException, ExException, ExFire, ExWait, Redirect, IrqStateWait, IdException, IdInterrupt, IdHazard,
         FetchPc, AlignDown4, HeadD, ExPacket, FwdA, FwdB, MduResult, CsrData, SuccW;
  }

  lemma AlignedOkStep(y: Sys, i: CoreIn, p: Params, prog: Program)
    requires Inv(y, prog) && Env(y, i, prog) && !i.rst
    ensures AlignedOk(Next(y.core, i, p))
  {
    var s := y.core;
    assert AlignedOk(s);
    ActionMeans(s, i);
    Shapes(s, i, p);
    IdOutMeans(s, i);
    RefreshMeans(s.e, s.w);
    if Redirect(s, i) { RedirectAligned(s, i); }
    FrontStep(y, i, p, prog);
    if !MemWait(s, i) { MemOutMeans(s, i); }
    if !WbTrap(s.w) && !MemWait(s, i) && !MemException(s, i) { ExOutMeans(s, i); }
    hide Inv, Env, SelectAction, Next, FetchOut, FetchWires, Refresh, IdOut, ExOut, MemPacket, LsuNow, RedirectTarget,
         MemWait, MemException, ExException, ExFire, ExWait, Redirect, IrqStateWait, IdException, IdInterrupt, IdHazard,
         FetchPc, AlignDown4, HeadD, ExPacket, FwdA, FwdB, MduResult, CsrData, SuccW, SuccM, FetchInv, DOk, SysNext;
  }
}
