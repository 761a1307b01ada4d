/** Blocking load/store unit (rtl/core/lsu.sv): byte lanes, load extraction,
    local alignment faults, and one memory transaction at a time. */
module Lsu {
  import opened Rv32Types

  datatype LsuPhase = LsuIdle | LsuBusy | LsuResp

  datatype LsuState = LsuState(
    phase: LsuPhase, cmd: MemCmd, size: MemSize, loadUnsigned: bool, addr: Word,
    storeWstrb: Strobe, storeWdata: Word, requestSent: bool, discard: bool, loadData: Word, exception: Exc)

  const LSU_RESET := LsuState(LsuIdle, MemNone, MemWord, false, 0, 0, 0, false, false, 0, NO_EXC)

  datatype LsuIn = LsuIn(
    rst: bool, kill: bool, reqValid: bool, cmd: MemCmd, size: MemSize, loadUnsigned: bool, addr: Word,
    storeData: Word, reqReady: bool, rsp: MemRsp, rspReady: bool)

  predicate Misaligned(size: MemSize, addr: Word) {
    match size
    case MemByte => false
    case MemHalf => addr % 2 != 0
    case MemWord => addr % 4 != 0
  }

  /** Bytes an access covers. */
  function SizeOf(size: MemSize): nat {
    match size case MemByte => 1 case MemHalf => 2 case MemWord => 4
  }

  /** Misaligned means: not a multiple of the access's own size. */
  lemma MisalignedIff(size: MemSize, addr: Word)
    ensures Misaligned(size, addr) <==> addr % SizeOf(size) != 0
  {
  }

  /** 256 to the power of a byte offset. */
  function LaneWeight(offset: nat): nat
    requires offset < 4
  {
    if offset == 0 then 1 else if offset == 1 then 0x100 else if offset == 2 then 0x1_0000 else 0x100_0000
  }

  function StoreStrobe(size: MemSize, addr: Word): Strobe {
    match size
    case MemByte => if addr % 4 == 0 then 1 else if addr % 4 == 1 then 2 else if addr % 4 == 2 then 4 else 8
    case MemHalf => if addr % 4 < 2 then 3 else 12
    case MemWord => 15
  }

  function StoreLanes(size: MemSize, addr: Word, data: Word): Word {
    match size
    case MemByte => data % 0x100 * LaneWeight(addr % 4)
    case MemHalf => data % 0x1_0000 * LaneWeight(if addr % 4 < 2 then 0 else 2)
    case MemWord => data
  }

  function ExtractLoad(rdata: Word, offset: nat, size: MemSize, loadUnsigned: bool): Word
    requires offset < 4
  {
    var shifted := rdata / LaneWeight(offset);
    match size
    case MemByte =>
      var b := shifted % 0x100;
      if loadUnsigned || b < 0x80 then b else 0xffff_ff00 + b
    case MemHalf =>
      var h := shifted % 0x1_0000;
      if loadUnsigned || h < 0x8000 then h else 0xffff_0000 + h
    case MemWord => shifted
  }

  function MisalignedExc(cmd: MemCmd, addr: Word): Exc {
    SyncExc(if cmd.MemLoad? then EXC_LOAD_ADDR_MISALIGNED else EXC_STORE_ADDR_MISALIGNED, addr)
  }

  function AccessExc(cmd: MemCmd, addr: Word, err: bool): Exc {
    if err then SyncExc(if cmd.MemLoad? then EXC_LOAD_ACCESS_FAULT else EXC_STORE_ACCESS_FAULT, addr) else NO_EXC
  }

  /** The word-aligned bus request of an aligned access. */
  function BusRequest(cmd: MemCmd, addr: Word, wstrb: Strobe, wdata: Word): MemReq {
    MemReq(AlignDown4(addr), cmd.MemStore?, wdata, if cmd.MemStore? then wstrb else 0)
  }

  function LoadResult(cmd: MemCmd, addr: Word, size: MemSize, loadUnsigned: bool, rdata: Word, err: bool): Word {
    if cmd.MemLoad? && !err then ExtractLoad(rdata, addr % 4, size, loadUnsigned) else 0
  }

  // ----- request channel

  predicate IsMemory(cmd: MemCmd) { cmd.MemLoad? || cmd.MemStore? }
  predicate Accepts(s: LsuState, i: LsuIn) { i.reqValid && s.phase.LsuIdle? && !i.rst && !i.kill }

  predicate IssueInput(s: LsuState, i: LsuIn) {
    Accepts(s, i) && IsMemory(i.cmd) && !Misaligned(i.size, i.addr)
  }

  predicate IssueSaved(s: LsuState) { s.phase.LsuBusy? && !s.requestSent }
  predicate LsuReqValid(s: LsuState, i: LsuIn) { IssueInput(s, i) || IssueSaved(s) }

  function LsuReq(s: LsuState, i: LsuIn): MemReq {
    if IssueInput(s, i) then
      BusRequest(i.cmd, i.addr, StoreStrobe(i.size, i.addr), StoreLanes(i.size, i.addr, i.storeData))
    else BusRequest(s.cmd, s.addr, s.storeWstrb, s.storeWdata)
  }

  predicate LsuFire(s: LsuState, i: LsuIn) { LsuReqValid(s, i) && i.reqReady }

  // ----- response channel

  predicate ResponseSeen(s: LsuState, i: LsuIn) {
    i.rsp.valid && ((s.phase.LsuBusy? && (s.requestSent || LsuFire(s, i))) || (s.phase.LsuIdle? && LsuFire(s, i)))
  }

  predicate ResponseDiscard(s: LsuState, i: LsuIn) { i.kill || (s.phase.LsuBusy? && s.discard) }

  /** (load data, exception) of a bus response in this cycle. */
  function BusReply(s: LsuState, i: LsuIn): (Word, Exc) {
    if s.phase.LsuIdle? then
      (LoadResult(i.cmd, i.addr, i.size, i.loadUnsigned, i.rsp.rdata, i.rsp.err), AccessExc(i.cmd, i.addr, i.rsp.err))
    else
      (LoadResult(s.cmd, s.addr, s.size, s.loadUnsigned, i.rsp.rdata, i.rsp.err), AccessExc(s.cmd, s.addr, i.rsp.err))
  }

  datatype LsuOut = LsuOut(rspValid: bool, loadData: Word, exception: Exc, traceWstrb: Strobe, traceWdata: Word)

  function LsuOutput(s: LsuState, i: LsuIn): LsuOut {
    var (strb, wdata) :=
      if s.phase.LsuIdle? then
        (if IssueInput(s, i) && i.cmd.MemStore?
         then (StoreStrobe(i.size, i.addr), StoreLanes(i.size, i.addr, i.storeData)) else (0, 0))
      else (if s.cmd.MemStore? then (s.storeWstrb, s.storeWdata) else (0, 0));
    if s.phase.LsuResp? then
      (if i.kill then LsuOut(false, 0, NO_EXC, strb, wdata)
       else LsuOut(true, s.loadData, s.exception, strb, wdata))
    else if ResponseSeen(s, i) && !ResponseDiscard(s, i) then
      LsuOut(true, BusReply(s, i).0, BusReply(s, i).1, strb, wdata)
    else LsuOut(false, 0, NO_EXC, strb, wdata)
  }

  // ----- next state

  function Capture(s: LsuState, i: LsuIn): LsuState {
    var keep := i.cmd.MemStore? && !Misaligned(i.size, i.addr);
    s.(cmd := i.cmd, size := i.size, loadUnsigned := i.loadUnsigned, addr := i.addr,
       storeWstrb := if keep then StoreStrobe(i.size, i.addr) else 0,
       storeWdata := if keep then StoreLanes(i.size, i.addr, i.storeData) else 0,
       loadData := 0, exception := NO_EXC)
  }

  function IdleNext(s: LsuState, i: LsuIn): LsuState {
    var t := s.(discard := false);
    if !Accepts(s, i) then t
    else
      var c := Capture(t, i);
      if !IsMemory(i.cmd) then c.(phase := LsuResp)
      else if Misaligned(i.size, i.addr) then c.(phase := LsuResp, exception := MisalignedExc(i.cmd, i.addr))
      else if LsuFire(s, i) && i.rsp.valid then
        (if i.rspReady then c
         else c.(phase := LsuResp, loadData := BusReply(s, i).0, exception := BusReply(s, i).1))
      else c.(phase := LsuBusy, requestSent := LsuFire(s, i))
  }

  function BusyNext(s: LsuState, i: LsuIn): LsuState {
    if !ResponseSeen(s, i) then s.(discard := s.discard || i.kill, requestSent := s.requestSent || LsuFire(s, i))
    else if ResponseDiscard(s, i) || i.rspReady then s.(phase := LsuIdle, requestSent := false, discard := false)
    else s.(phase := LsuResp, requestSent := false, discard := false,
            loadData := BusReply(s, i).0, exception := BusReply(s, i).1)
  }

  function LsuNext(s: LsuState, i: LsuIn): LsuState {
    if i.rst then
      // An accepted request cannot be cancelled: keep it only to drop its response.
      var drain := s.phase.LsuBusy? && s.requestSent && !i.rsp.valid;
      LSU_RESET.(phase := if drain then LsuBusy else LsuIdle, requestSent := drain, discard := drain)
    else match s.phase
      case LsuIdle => IdleNext(s, i)
      case LsuBusy => BusyNext(s, i)
      case LsuResp => if i.kill || i.rspReady then s.(phase := LsuIdle) else s
  }

  class LoadStoreUnit {
    var phase: LsuPhase
    var cmd: MemCmd
    var size: MemSize
    var loadUnsigned: bool
    var addr: Word
    var storeWstrb: Strobe
    var storeWdata: Word
    var requestSent: bool
    var discard: bool
    var loadData: Word
    var exception: Exc

    function State(): LsuState
      reads this
    {
      LsuState(phase, cmd, size, loadUnsigned, addr, storeWstrb, storeWdata, requestSent, discard, loadData, exception)
    }

    constructor ()
      ensures State() == LSU_RESET
    {
      phase, cmd, size, loadUnsigned, addr := LsuIdle, MemNone, MemWord, false, 0;
      storeWstrb, storeWdata, requestSent, discard := 0, 0, false, false;
      loadData, exception := 0, NO_EXC;
    }

    method Tick(i: LsuIn)
      modifies this
      ensures State() == LsuNext(old(State()), i)
    {
      hide Accepts, Misaligned, LsuFire, ResponseSeen, ResponseDiscard, BusReply, Capture;
      if i.rst {
        var drain := phase.LsuBusy? && requestSent && !i.rsp.valid;
        phase, cmd, size, loadUnsigned, addr := LsuIdle, MemNone, MemWord, false, 0;
        storeWstrb, storeWdata, requestSent, discard, loadData, exception := 0, 0, false, false, 0, NO_EXC;
        if drain {
          phase, requestSent, discard := LsuBusy, true, true;
        }
        return;
      }
      match phase {
        case LsuIdle => TickIdle(i);
        case LsuBusy => TickBusy(i);
        case LsuResp =>
          if i.kill || i.rspReady {
            phase := LsuIdle;
          }
      }
    }

    method TickIdle(i: LsuIn)
      requires !i.rst && phase.LsuIdle?
      modifies this
      ensures State() == IdleNext(old(State()), i)
    {
      var s := State();
      hide Accepts, Misaligned, LsuFire, BusReply, Capture, MisalignedExc;
      discard := false;
      if Accepts(s, i) {
        Latch(i);
        if !IsMemory(i.cmd) || Misaligned(i.size, i.addr) {
          if IsMemory(i.cmd) {
            exception := MisalignedExc(i.cmd, i.addr);
          }
          phase := LsuResp;
        } else if LsuFire(s, i) && i.rsp.valid {
          if !i.rspReady {
            loadData, exception := BusReply(s, i).0, BusReply(s, i).1;
            phase := LsuResp;
          }
        } else {
          requestSent := LsuFire(s, i);
          phase := LsuBusy;
        }
      }
    }

    method Latch(i: LsuIn)
      modifies this
      ensures State() == Capture(old(State()), i)
    {
      hide Misaligned, StoreStrobe, StoreLanes;
      cmd, size, loadUnsigned, addr := i.cmd, i.size, i.loadUnsigned, i.addr;
      storeWstrb, storeWdata := 0, 0;
      if i.cmd.MemStore? && !Misaligned(i.size, i.addr) {
        storeWstrb, storeWdata := StoreStrobe(i.size, i.addr), StoreLanes(i.size, i.addr, i.storeData);
      }
      loadData, exception := 0, NO_EXC;
    }

    method TickBusy(i: LsuIn)
      requires !i.rst && phase.LsuBusy?
      modifies this
      ensures State() == BusyNext(old(State()), i)
    {
      var s := State();
      hide LsuFire, ResponseSeen, ResponseDiscard, BusReply;
      if i.kill {
        discard := true;
      }
      if LsuFire(s, i) {
        requestSent := true;
      }
      if ResponseSeen(s, i) {
        requestSent, discard := false, false;
        if ResponseDiscard(s, i) || i.rspReady {
          phase := LsuIdle;
        } else {
          loadData, exception := BusReply(s, i).0, BusReply(s, i).1;
          phase := LsuResp;
        }
      }
    }
  }
}
