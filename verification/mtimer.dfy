/** Machine timer (rtl/soc/rv32_mtimer.sv) and the two routines that access its
    64-bit registers by halves while it ticks (sw/bsp/rv32_soc.c). */
module Mtimer {
  import opened Rv32Types
  import opened CsrFile

  datatype TimerParams = TimerParams(base: Word, mtimeReset: U64, mtimecmpReset: U64)
  datatype TimerState = TimerState(mtime: U64, mtimecmp: U64, rsp: MemRsp)
  datatype TimerIn = TimerIn(rst: bool, reqValid: bool, req: MemReq)

  const CMP_LO := 0x4000
  const CMP_HI := 0x4004
  const TIME_LO := 0xbff8
  const TIME_HI := 0xbffc

  function TimerReset(p: TimerParams): TimerState {
    TimerState(p.mtimeReset, p.mtimecmpReset, MemRsp(false, 0, false))
  }

  /** A request addresses the register at `offset` in the aperture. */
  predicate At(p: TimerParams, r: MemReq, offset: Word) { r.addr == Add32(p.base, offset) }

  predicate AccessOk(p: TimerParams, r: MemReq) {
    && Aligned4(r.addr)
    && (At(p, r, CMP_LO) || At(p, r, CMP_HI) || At(p, r, TIME_LO) || At(p, r, TIME_HI))
    && r.wstrb == if r.write then 15 else 0
  }

  predicate Fires(i: TimerIn) { i.reqValid && !i.rst }
  predicate Writes(p: TimerParams, i: TimerIn, offset: Word) {
    Fires(i) && AccessOk(p, i.req) && i.req.write && At(p, i.req, offset)
  }

  /** The level interrupt. */
  predicate Mtip(s: TimerState) { s.mtime >= s.mtimecmp }

  function ReadHalf(p: TimerParams, mtime: U64, mtimecmp: U64, r: MemReq): Word {
    if At(p, r, CMP_LO) then Low(mtimecmp)
    else if At(p, r, CMP_HI) then High(mtimecmp)
    else if At(p, r, TIME_LO) then Low(mtime)
    else if At(p, r, TIME_HI) then High(mtime)
    else 0
  }

  function TimerRsp(p: TimerParams, s: TimerState, i: TimerIn): MemRsp {
    if !Fires(i) then MemRsp(false, 0, false)
    else if !AccessOk(p, i.req) then MemRsp(true, 0, true)
    else MemRsp(true, if i.req.write then 0 else ReadHalf(p, s.mtime, s.mtimecmp, i.req), false)
  }

  /** A write to either half of `mtime` suppresses the tick of the whole register. */
  function TimerNext(p: TimerParams, s: TimerState, i: TimerIn): TimerState {
    if i.rst then TimerReset(p)
    else
      TimerState(
        if Writes(p, i, TIME_LO) then SetLow(s.mtime, i.req.wdata)
        else if Writes(p, i, TIME_HI) then SetHigh(s.mtime, i.req.wdata)
        else Inc64(s.mtime),
        if Writes(p, i, CMP_LO) then SetLow(s.mtimecmp, i.req.wdata)
        else if Writes(p, i, CMP_HI) then SetHigh(s.mtimecmp, i.req.wdata)
        else s.mtimecmp,
        TimerRsp(p, s, i))
  }

  /** A write of one half leaves the other exactly as it was; the tick of that edge is lost
      to `mtime`, and the next read of the half returns what was written. */
  lemma WriteKeepsOtherHalf(p: TimerParams, s: TimerState, i: TimerIn)
    requires !i.rst
    ensures var t := TimerNext(p, s, i);
      && (Writes(p, i, TIME_LO) ==> High(t.mtime) == High(s.mtime) && Low(t.mtime) == i.req.wdata)
      && (Writes(p, i, TIME_HI) && !Writes(p, i, TIME_LO) ==> Low(t.mtime) == Low(s.mtime) && High(t.mtime) == i.req.wdata)
      && (Writes(p, i, CMP_LO) ==> High(t.mtimecmp) == High(s.mtimecmp) && Low(t.mtimecmp) == i.req.wdata)
      && (Writes(p, i, CMP_HI) && !Writes(p, i, CMP_LO) ==> Low(t.mtimecmp) == Low(s.mtimecmp) && High(t.mtimecmp) == i.req.wdata)
  {
    SetHalves(s.mtime, i.req.wdata);
    SetHalves(s.mtimecmp, i.req.wdata);
    hide SetLow, SetHigh, Low, High, Inc64, Writes;
  }

  lemma SetHalves(x: U64, v: Word)
    ensures High(SetLow(x, v)) == High(x) && Low(SetLow(x, v)) == v
    ensures Low(SetHigh(x, v)) == Low(x) && High(SetHigh(x, v)) == v
  {
  }

  function TimerRun(p: TimerParams, s: TimerState, ins: seq<TimerIn>): TimerState
    decreases |ins|
  {
    if ins == [] then s else TimerRun(p, TimerNext(p, s, ins[0]), ins[1..])
  }

  function ReadOf(p: TimerParams, offset: Word): TimerIn {
    TimerIn(false, true, MemReq(Add32(p.base, offset), false, 0, 0))
  }

  function WriteOf(p: TimerParams, offset: Word, v: Word): TimerIn {
    TimerIn(false, true, MemReq(Add32(p.base, offset), true, v, 15))
  }

  class Timer {
    const params: TimerParams
    var mtime: U64
    var mtimecmp: U64
    var rsp: MemRsp

    function State(): TimerState
      reads this
    {
      TimerState(mtime, mtimecmp, rsp)
    }

    constructor (params: TimerParams)
      ensures this.params == params && State() == TimerReset(params)
    {
      this.params, mtime, mtimecmp, rsp := params, params.mtimeReset, params.mtimecmpReset, MemRsp(false, 0, false);
    }

    method Tick(i: TimerIn)
      modifies this
      ensures State() == TimerNext(params, old(State()), i)
    {
      hide At, Low, High, SetLow, SetHigh, Inc64, ReadHalf;
      if i.rst {
        mtime, mtimecmp, rsp := params.mtimeReset, params.mtimecmpReset, MemRsp(false, 0, false);
        return;
      }
      var fire, ok := i.reqValid, AccessOk(params, i.req);
      rsp := MemRsp(fire, 0, false);
      if fire && !ok {
        rsp := MemRsp(true, 0, true);
      } else if fire && !i.req.write {
        rsp := MemRsp(true, ReadHalf(params, mtime, mtimecmp, i.req), false);
      }
      var held := mtime;
      mtime := Inc64(mtime);
      if fire && ok && i.req.write {
        if At(params, i.req, CMP_LO) {
          mtimecmp := SetLow(mtimecmp, i.req.wdata);
        } else if At(params, i.req, CMP_HI) {
          mtimecmp := SetHigh(mtimecmp, i.req.wdata);
        }
        if At(params, i.req, TIME_LO) {
          mtime := SetLow(held, i.req.wdata);
        } else if At(params, i.req, TIME_HI) {
          mtime := SetHigh(held, i.req.wdata);
        }
      }
    }

    /** Cycles in which software does something else. */
    method Pause(ins: seq<TimerIn>)
      modifies this
      ensures State() == TimerRun(params, old(State()), ins)
    {
      hide TimerNext;
      var k := 0;
      while k < |ins|
        invariant 0 <= k <= |ins|
        invariant TimerRun(params, State(), ins[k..]) == TimerRun(params, old(State()), ins)
      {
        assert ins[k..][1..] == ins[k + 1..];
        Tick(ins[k]);
        k := k + 1;
      }
    }

    /** A volatile 32-bit load of the register at `offset`, after some cycles. */
    method Read32(offset: Word, pause: seq<TimerIn>) returns (v: Word)
      modifies this
      ensures var before := TimerRun(params, old(State()), pause);
        v == TimerRsp(params, before, ReadOf(params, offset)).rdata
        && State() == TimerNext(params, before, ReadOf(params, offset))
    {
      Pause(pause);
      Tick(ReadOf(params, offset));
      hide At, AccessOk, ReadHalf, SetLow, SetHigh, Inc64;
      v := rsp.rdata;
    }

    method Write32(offset: Word, v: Word, pause: seq<TimerIn>)
      modifies this
      ensures State() == TimerNext(params, TimerRun(params, old(State()), pause), WriteOf(params, offset, v))
    {
      Pause(pause);
      Tick(WriteOf(params, offset, v));
    }
  }
}
