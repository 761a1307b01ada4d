/** The execute stage across time: operands of a held packet do not change, the
    multiplier and divider belong to that packet, and what fires is the packet the
    reference machine would compute after every older instruction. */
module ExStep {
  import opened Rv32Types
  import opened Decoder
  import opened DivUnit
  import opened MulUnit
  import opened CsrFile
  import opened IfStage
  import opened Lsu
  import opened PipelineStages
  import opened Rv32Core
  import opened FetchOrder
  import opened Isa
  import opened Staged
  import opened System
  import opened Invariant
  import opened Operands
  import opened DrainChain
  import opened Packets

  // ----- operands of a held packet

  /** In either hold both operands of a fault-free packet keep their values. */
  lemma HeldOperands(y: Sys, i: CoreIn, p: Params, prog: Program)
    requires Inv(y, prog) && !i.rst && Holds(SelectAction(y.core, i))
    requires y.core.e.valid && !y.core.e.exc.valid
    ensures FwdA(Next(y.core, i, p)) == FwdA(y.core) && FwdB(Next(y.core, i, p)) == FwdB(y.core)
  {
    var s := y.core;
    var t := Next(s, i, p);
    InvFacts(y, prog);
    assert NoLoadUse(s.e, s.m);
    OperandsCorrect(y, prog);
    ActionMeans(s, i);
    Shapes(s, i, p);
    CommitsState(s, i, p);
    RefreshMeans(s.e, s.w);
    RefreshKeepsSnapshot(s.e, s.regs, s.w);
    var e, f := s.e, t.e;
    if SelectAction(s, i).ActMemWait? {
      ViewAfterWait(e.ctrl.usesRs1, e.rs1, s.regs, s.m, s.w);
      ViewAfterWait(e.ctrl.usesRs2, e.rs2, s.regs, s.m, s.w);
    } else {
      var o := LsuNow(s, i);
      ViewAfterMove(e, e.ctrl.usesRs1, e.rs1, s.regs, s.m, s.w, o);
      ViewAfterMove(e, e.ctrl.usesRs2, e.rs2, s.regs, s.m, s.w, o);
      BubbleView(e.ctrl.usesRs1, e.rs1, t.regs, t.w);
      BubbleView(e.ctrl.usesRs2, e.rs2, t.regs, t.w);
    }
    hide Inv, Next, SelectAction, RegsAfter, OperandView, SnapshotOk, Refresh, Forward, MemPacket, LsuNow, Source,
         MFacts, EFacts, WFacts;
    ForwardIsView(f, f.ctrl.usesRs1, f.rs1, f.rs1Value, t.regs, t.m, t.w);
    ForwardIsView(f, f.ctrl.usesRs2, f.rs2, f.rs2Value, t.regs, t.m, t.w);
  }

  lemma BubbleView(uses: bool, rs: Reg, regs: Regs, w: MemWb)
    ensures OperandView(uses, rs, regs, EX_MEM_BUBBLE, w) == Source(RegsAfter(regs, w), uses, rs)
  {
  }

  // ----- ownership of the multiplier and divider

  lemma MduStep(y: Sys, i: CoreIn, p: Params, prog: Program)
    requires Inv(y, prog) && !i.rst
    ensures MduOk(Next(y.core, i, p))
  {
    var s := y.core;
    var t, act := Next(s, i, p), SelectAction(s, i);
    InvFacts(y, prog);
    assert MduOk(s);
    ActionMeans(s, i);
    Shapes(s, i, p);
    CommitsState(s, i, p);
    RefreshMeans(s.e, s.w);
    if Holds(act) && s.e.valid && !s.e.exc.valid { HeldOperands(y, i, p, prog); }
    if !WbTrap(s.w) && !MemWait(s, i) && !MemException(s, i) { ExOutMeans(s, i); }
    hide Inv, Next, SelectAction, FwdA, FwdB, Refresh, IdOut, ExOut, MemPacket, LsuNow, MemWait, MemException,
         ExException, Redirect, IrqStateWait, MFacts, WFacts, WbTrap, FetchOut, ExPacket, CsrData, MduResult, RedirectTarget;
    MulStep(s, i, t);
    DivStep(s, i, t);
  }

  lemma MulStep(s: CoreState, i: CoreIn, t: CoreState)
    requires !i.rst && EFacts(s.e) && MduOk(s) && t.mul == MulNext(s.mul, MulWires(s, i))
    requires ExKill(s, i) || MemWait(s, i) || ExWait(s, i) || ExFire(s, i) || !s.e.valid
    requires !ExKill(s, i) && (MemWait(s, i) || ExWait(s, i)) ==>
               t.e.valid == s.e.valid && t.e.exc == s.e.exc && t.e.ctrl == s.e.ctrl
               && (s.e.valid && !s.e.exc.valid ==> FwdA(t) == FwdA(s) && FwdB(t) == FwdB(s))
    ensures !t.mul.phase.MulIdle? ==>
              t.e.valid && !t.e.exc.valid && IsMul(t.e.ctrl.mduOp) && MulOk(t.mul, t.e.ctrl.mduOp, FwdA(t), FwdB(t))
  {
    hide FwdA, FwdB, MemWait, MemException, WbTrap, SelectHalf, IsaMul, ExtendLhs, ExtendRhs, CtrlOk, DivOk;
    if !s.mul.phase.MulIdle? {
      MulKeepsOk(s.mul, MulWires(s, i), s.e.ctrl.mduOp, FwdA(s), FwdB(s));
    }
  }

  lemma DivStep(s: CoreState, i: CoreIn, t: CoreState)
    requires !i.rst && EFacts(s.e) && MduOk(s) && t.div == DivNext(s.div, DivWires(s, i))
    requires ExKill(s, i) || MemWait(s, i) || ExWait(s, i) || ExFire(s, i) || !s.e.valid
    requires !ExKill(s, i) && (MemWait(s, i) || ExWait(s, i)) ==>
               t.e.valid == s.e.valid && t.e.exc == s.e.exc && t.e.ctrl == s.e.ctrl
               && (s.e.valid && !s.e.exc.valid ==> FwdA(t) == FwdA(s) && FwdB(t) == FwdB(s))
    ensures !t.div.phase.DivIdle? ==>
              t.e.valid && !t.e.exc.valid && IsDiv(t.e.ctrl.mduOp) && DivOk(t.div, t.e.ctrl.mduOp, FwdA(t), FwdB(t))
  {
    hide FwdA, FwdB, MemWait, MemException, WbTrap, DivOk, Launch, RunStep, CtrlOk, MulOk;
    var op, a, b := s.e.ctrl.mduOp, FwdA(s), FwdB(s);
    if !s.div.phase.DivIdle? {
      DivKeepsOk(s.div, DivWires(s, i), op, a, b);
    } else if DivWires(s, i).reqValid {
      LaunchOk(op, a, b, s.div.result);
    }
  }

  // ----- EX/MEM

  /** EX reads nothing of its packet but fields, operands, CSR data and the unit's result. */
  lemma ExPacketSame(e: IdEx, f: IdEx, a: Word, b: Word, v: Word, v2: Word, mepc: Word, mepc2: Word, r: Word, r2: Word)
    requires f.(rs1Value := 0, rs2Value := 0) == e.(rs1Value := 0, rs2Value := 0)
    requires !e.ctrl.csrCmd.CsrNone? ==> v == v2
    requires e.ctrl.isMret ==> mepc == mepc2
    requires IsMdu(e) ==> r == r2
    ensures ExPacket(e, a, b, v, mepc, r) == ExPacket(f, a, b, v2, mepc2, r2)
  {
    hide Alu, AccessIllegal, CsrAddrOf, BranchTaken, BranchTarget;
  }

  /** The CSR data and return address read in EX are those after every older commit. */
  lemma CsrReadsProgramOrder(y: Sys, i: CoreIn, p: Params, prog: Program)
    requires Inv(y, prog) && !i.rst && ExFire(y.core, i) && !y.core.e.exc.valid
    ensures var s, t := y.core, Next(y.core, i, p); var c2 := CsrAfter(t.csr, t.w);
      && (!s.e.ctrl.csrCmd.CsrNone? ==> CsrData(s, i) == CsrValue(c2, CsrAddrOf(s.e.insn), CsrData(s, i)))
      && (s.e.ctrl.isMret ==> c2.mepc == s.csr.mepc)
  {
    var s := y.core;
    var t := Next(s, i, p);
    InvFacts(y, prog);
    assert DrainOk(s.d, s.e, s.m, s.w, s.drain) && CsrSafe(s.e, s.m, s.w) && IrqSafe(s.e, s.m, s.w);
    FireAction(s, i);
    Shapes(s, i, p);
    CommitsState(s, i, p);
    MemOutMeans(s, i);
    WriterMoves(s.m, LsuNow(s, i));
    var addr := CsrAddrOf(s.e.insn);
    if !s.e.ctrl.csrCmd.CsrNone? { CsrDataIs(s, i); }
    assert !WbTrap(s.w) && !WbTrap(t.w);
    hide Inv, Next, SelectAction, FetchOut, IdOut, ExOut, Refresh, CsrAddrOf, CsrAfter, MemPacket, LsuNow,
         AddressesConflict, CsrValue, CsrData, MFacts, EFacts, WFacts, ExFire, MemWait, MemException, MemWbIrqWriter, ExMemIrqWriter;
    if !s.e.ctrl.csrCmd.CsrNone? {
      ReadKept(s.csr, s.w, addr, CsrData(s, i));
      ReadKept(t.csr, t.w, addr, CsrData(s, i));
    }
    if s.e.ctrl.isMret {
      MepcKept(s.csr, s.w);
      MepcKept(t.csr, t.w);
    }
  }

  lemma FireAction(s: CoreState, i: CoreIn)
    requires !i.rst && ExFire(s, i)
    ensures !WbTrap(s.w) && !MemWait(s, i) && !MemException(s, i) && s.e.valid && Passes(SelectAction(s, i))
  {
    hide WbTrap, MemWait, MemException, ExException, Redirect, IrqStateWait, IdException, IdInterrupt, IdHazard, MduRspValid;
  }

  lemma CsrDataIs(s: CoreState, i: CoreIn)
    requires ExFire(s, i) && !s.e.ctrl.csrCmd.CsrNone?
    ensures CsrData(s, i) == CsrValue(s.csr, CsrAddrOf(s.e.insn), CsrData(s, i))
  {
    TimingRead(s.csr, s.mcycle, i.mtip, CsrAddrOf(s.e.insn));
    hide CsrRead, CsrValue, MduRspValid, WbTrap, MemWait, MemException;
  }

  /** The unit's answer is the ISA function of the operands in EX now. */
  lemma MduAnswers(y: Sys, i: CoreIn, prog: Program)
    requires Inv(y, prog) && ExFire(y.core, i) && IsMdu(y.core.e)
    ensures MduResult(y.core) == MduFn(y.core.e.ctrl.mduOp, FwdA(y.core), FwdB(y.core))
  {
    var s := y.core;
    assert MduOk(s);
    hide Inv, FwdA, FwdB, IsaMul, IsaDiv, WbTrap, MemWait, MemException;
  }

  /** A fault-free packet: forwarding makes up for the older snapshot. */
  lemma ForwardedIsRestaged(prog: Program, e: IdEx, regs: Regs, irqOn: bool, mtip: bool, m: ExMem, w: MemWb, o: LsuOut)
    requires e.valid && !e.exc.valid && e == StagedE(prog, e.pc, regs, irqOn, mtip)
    requires MFacts(m) && NoLoadUse(e, m) && (MemIsMemory(m) ==> o.rspValid)
    ensures var f := StagedE(prog, e.pc, RegsAfter(RegsAfter(regs, w), MemPacket(m, o)), irqOn, mtip);
      && f.(rs1Value := 0, rs2Value := 0) == e.(rs1Value := 0, rs2Value := 0)
      && f.rs1Value == ForwardA(e, m, w) && f.rs2Value == ForwardB(e, m, w)
  {
    var regs2 := RegsAfter(RegsAfter(regs, w), MemPacket(m, o));
    hide StagedE, RegsAfter, MemPacket, OperandView, Source, MFacts, Forward;
    StagedShape(prog, e.pc, regs, regs2, irqOn, mtip);
    StagedSnapshot(prog, e.pc, regs, irqOn, mtip);
    StagedSnapshot(prog, e.pc, regs2, irqOn, mtip);
    ForwardIsView(e, e.ctrl.usesRs1, e.rs1, e.rs1Value, regs, m, w);
    ForwardIsView(e, e.ctrl.usesRs2, e.rs2, e.rs2Value, regs, m, w);
    ViewAfterMove(e, e.ctrl.usesRs1, e.rs1, regs, m, w, o);
    ViewAfterMove(e, e.ctrl.usesRs2, e.rs2, regs, m, w, o);
  }

  /** A faulting packet carries no operands. */
  lemma FaultIsRestaged(prog: Program, s: CoreState, regs2: Regs, irqOn: bool, mtip: bool)
    requires s.e.valid && s.e.exc.valid && s.e == StagedE(prog, s.e.pc, s.regs, irqOn, mtip)
    ensures var f := StagedE(prog, s.e.pc, regs2, irqOn, mtip);
      && f.(rs1Value := 0, rs2Value := 0) == s.e.(rs1Value := 0, rs2Value := 0)
      && f.rs1Value == FwdA(s) && f.rs2Value == FwdB(s)
  {
    hide StagedE, FwdA, FwdB;
    ExcForward(s);
    StagedShape(prog, s.e.pc, s.regs, regs2, irqOn, mtip);
    StagedExcCtrl(prog, s.e.pc, s.regs, irqOn, mtip);
    StagedExcCtrl(prog, s.e.pc, regs2, irqOn, mtip);
  }

  lemma InvEx(y: Sys, prog: Program)
    requires Inv(y, prog)
    ensures EOk(prog, y.core.e, y.core.regs, y.core.csr, y.tipE) && NoLoadUse(y.core.e, y.core.m)
  {
    hide EOk, NoLoadUse, FetchInv, DrainOk, ChainOk, AlignedOk, DOk, MOk, WOk, CsrSafe, IrqSafe, MduOk, LsuOk;
  }

  /** The packet that fires is the staged packet for the registers after every
      older instruction. */
  lemma FiredOperands(y: Sys, i: CoreIn, p: Params, prog: Program)
    requires Inv(y, prog) && !i.rst && ExFire(y.core, i)
    ensures var s, t := y.core, Next(y.core, i, p);
      var f := StagedE(prog, s.e.pc, RegsAfter(t.regs, t.w), IrqOn(s.csr), y.tipE);
      && f.(rs1Value := 0, rs2Value := 0) == s.e.(rs1Value := 0, rs2Value := 0)
      && f.rs1Value == FwdA(s) && f.rs2Value == FwdB(s)
  {
    var s := y.core;
    var t := Next(s, i, p);
    hide Inv, Next, SelectAction, StagedE, RegsAfter, MemPacket, LsuNow, ExFire, MemException, MFacts, EFacts, WFacts, IrqOn, ExOut,
         IdOut, Refresh, FetchOut, NoLoadUse, ForwardA, ForwardB, MemIsMemory;
    InvEx(y, prog);
    InvFacts(y, prog);
    FireAction(s, i);
    Shapes(s, i, p);
    CommitsState(s, i, p);
    if s.e.exc.valid {
      FaultIsRestaged(prog, s, RegsAfter(t.regs, t.w), IrqOn(s.csr), y.tipE);
    } else {
      ForwardedIsRestaged(prog, s.e, s.regs, IrqOn(s.csr), y.tipE, s.m, s.w, LsuNow(s, i));
    }
  }

  /** The enable bits an in-flight packet was judged by are those it will commit under. */
  lemma FiredEnables(y: Sys, i: CoreIn, p: Params, prog: Program)
    requires Inv(y, prog) && !i.rst && ExFire(y.core, i)
    ensures IrqOn(CsrAfter(Next(y.core, i, p).csr, Next(y.core, i, p).w)) == IrqOn(y.core.csr)
    ensures !WbTrap(Next(y.core, i, p).w)
  {
    var s := y.core;
    var t := Next(s, i, p);
    InvFacts(y, prog);
    assert IrqSafe(s.e, s.m, s.w) && DrainOk(s.d, s.e, s.m, s.w, s.drain);
    FireAction(s, i);
    Shapes(s, i, p);
    CommitsState(s, i, p);
    MemOutMeans(s, i);
    WriterMoves(s.m, LsuNow(s, i));
    assert !WbTrap(s.w) && !WbTrap(t.w);
    hide Inv, Next, SelectAction, CsrAfter, MemPacket, LsuNow, ExFire, MemWait, MemException, MFacts, EFacts, WFacts, IrqOn,
         MemWbIrqWriter, ExMemIrqWriter, ExOut, IdOut, Refresh, FetchOut;
    IrqOnKept(s.csr, s.w);
    IrqOnKept(t.csr, t.w);
  }

  /** What EX hands on is the staged packet for the registers and CSRs after every
      older instruction. */
  lemma FiredIsStaged(y: Sys, i: CoreIn, p: Params, prog: Program)
    requires Inv(y, prog) && !i.rst && ExFire(y.core, i)
    ensures var s, t := y.core, Next(y.core, i, p);
      t.m == SpecM(prog, s.e.pc, RegsAfter(t.regs, t.w), CsrAfter(t.csr, t.w), Tag(y.tipE, CsrData(s, i)))
  {
    hide Inv, Next, SelectAction, StagedE, RegsAfter, CsrAfter, ExPacket, FwdA, FwdB, CsrData, MduResult, ExOut,
         CsrValue, MduFn, ExFire, MFacts, EFacts, WFacts, IrqOn, FetchOut, IdOut, Refresh, MemPacket, LsuNow;
    var s := y.core;
    var t := Next(s, i, p);
    var c2 := CsrAfter(t.csr, t.w);
    InvFacts(y, prog);
    FireAction(s, i);
    Shapes(s, i, p);
    ExOutMeans(s, i);
    FiredOperands(y, i, p, prog);
    FiredEnables(y, i, p, prog);
    var f := StagedE(prog, s.e.pc, RegsAfter(t.regs, t.w), IrqOn(s.csr), y.tipE);
    if s.e.exc.valid {
      ZeroCtrl(s.e);
    } else {
      CsrReadsProgramOrder(y, i, p, prog);
      if IsMdu(s.e) { MduAnswers(y, i, prog); }
    }
    ExPacketSame(s.e, f, f.rs1Value, f.rs2Value, CsrData(s, i),
                 if f.ctrl.csrCmd.CsrNone? then 0 else CsrValue(c2, CsrAddrOf(f.insn), CsrData(s, i)),
                 s.csr.mepc, c2.mepc, MduResult(s),
                 if IsMdu(f) then MduFn(f.ctrl.mduOp, f.rs1Value, f.rs2Value) else 0);
  }

  lemma ZeroCtrl(e: IdEx)
    requires e.valid && e.exc.valid && EFacts(e)
    ensures e.ctrl.csrCmd.CsrNone? && !e.ctrl.isMret && !IsMdu(e)
  {
  }

  lemma ExcForward(s: CoreState)
    requires s.e.exc.valid
    ensures FwdA(s) == s.e.rs1Value && FwdB(s) == s.e.rs2Value
  {
  }

  lemma MStep(y: Sys, i: CoreIn, p: Params, prog: Program)
    requires Inv(y, prog) && !i.rst
    ensures var t := Next(y.core, i, p);
      MOk(prog, t.m, RegsAfter(t.regs, t.w), CsrAfter(t.csr, t.w), SysNext(y, i, p).tagM)
  {
    var s := y.core;
    var t := Next(s, i, p);
    assert MOk(prog, s.m, RegsAfter(s.regs, s.w), CsrAfter(s.csr, s.w), y.tagM);
    ActionMeans(s, i);
    Shapes(s, i, p);
    CommitsState(s, i, p);
    TipNext(y, i, p);
    BubbleCommits(t.regs, t.csr);
    if !WbTrap(s.w) && !MemWait(s, i) && !MemException(s, i) { ExOutMeans(s, i); }
    if ExFire(s, i) { FireAction(s, i); FiredIsStaged(y, i, p, prog); }
    hide Inv, Next, SysNext, SelectAction, RegsAfter, CsrAfter, SpecM, ExOut, ExFire, MemPacket, LsuNow, MemWait, MemException,
         ExPacket, CsrData, FwdA, FwdB, MduResult, ExException, ExWait, Redirect, RedirectTarget, FetchOut, IdOut, Refresh;
  }
}
