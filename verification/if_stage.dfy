/** Instruction fetch (rtl/core/if_stage.sv): one outstanding request, one
    fall-through packet slot, and a stale tag for requests that a flush, a
    redirect or a reset has invalidated. */
module IfStage {
  import opened Rv32Types

  datatype IfState = IfState(
    busy: bool, nextPc: Word, requestPc: Word, requestSent: bool, discard: bool, redirectPending: bool,
    packetValid: bool, packetPc: Word, packetInsn: Word, packetExc: Exc)

  datatype IfIn = IfIn(
    rst: bool, enable: bool, consume: bool, flush: bool, redirectValid: bool, redirectPc: Word,
    reqReady: bool, rsp: MemRsp)

  function IfReset(resetVector: Word): IfState {
    IfState(false, resetVector, resetVector, false, false, false, false, 0, 0, NO_EXC)
  }

  predicate KillEvent(i: IfIn) { i.flush || i.redirectValid }
  predicate HeldRequest(s: IfState) { s.busy && !s.requestSent }
  function LaunchPc(s: IfState, i: IfIn): Word { if i.redirectValid then i.redirectPc else s.nextPc }

  predicate LaunchRequest(s: IfState, i: IfIn) {
    && !i.rst
    && (i.redirectValid || (!i.flush && (i.enable || s.redirectPending)))
    && if !s.busy then KillEvent(i) || !s.packetValid || i.consume
       else s.requestSent && i.rsp.valid
            && (i.redirectValid || (!i.flush && !s.packetValid && (s.discard || i.consume)))
  }

  predicate IfReqValid(s: IfState, i: IfIn) { !i.rst && (HeldRequest(s) || LaunchRequest(s, i)) }
  function IfReqAddr(s: IfState, i: IfIn): Word { if HeldRequest(s) then s.requestPc else LaunchPc(s, i) }
  predicate IfFire(s: IfState, i: IfIn) { IfReqValid(s, i) && i.reqReady }

  /** A response to a request that no flush or redirect has made stale. */
  predicate ResponseLive(s: IfState, i: IfIn) {
    if s.busy then i.rsp.valid && (s.requestSent || IfFire(s, i)) && !s.discard && !KillEvent(i)
    else LaunchRequest(s, i) && IfFire(s, i) && i.rsp.valid
  }

  function ResponsePc(s: IfState, i: IfIn): Word { if s.busy then s.requestPc else LaunchPc(s, i) }

  /** The packet a response turns into: its word, or an access fault. */
  function FetchPacket(pc: Word, rdata: Word, err: bool): IfId {
    if err then IfId(true, pc, 0, SyncExc(EXC_INST_ACCESS_FAULT, pc)) else IfId(true, pc, rdata, NO_EXC)
  }

  function ResponsePacket(s: IfState, i: IfIn): IfId {
    FetchPacket(ResponsePc(s, i), i.rsp.rdata, i.rsp.err)
  }

  function HeldPacket(s: IfState): IfId { IfId(true, s.packetPc, s.packetInsn, s.packetExc) }

  /** What the pipeline sees this cycle: the held packet first, else a live response. */
  function FetchOut(s: IfState, i: IfIn): IfId {
    if i.rst || KillEvent(i) then IF_ID_BUBBLE
    else if s.packetValid then HeldPacket(s)
    else if ResponseLive(s, i) then ResponsePacket(s, i)
    else IF_ID_BUBBLE
  }

  /** The held slot after the edge. */
  function SlotNext(s: IfState, i: IfIn): IfState {
    if ResponseLive(s, i) && !(!s.packetValid && !KillEvent(i) && i.consume) then
      var p := ResponsePacket(s, i);
      s.(packetValid := true, packetPc := p.pc, packetInsn := p.insn, packetExc := p.exc)
    else s.(packetValid := s.packetValid && !KillEvent(i) && !i.consume)
  }

  /** The newest redirect target replaces the next PC; a plain flush forgets a pending redirect. */
  function TargetNext(s: IfState, i: IfIn): IfState {
    if i.redirectValid then s.(nextPc := i.redirectPc, redirectPending := true)
    else if i.flush then s.(redirectPending := false)
    else s
  }

  function AfterIdle(s: IfState, t: IfState, i: IfIn): IfState {
    if !LaunchRequest(s, i) then t.(discard := false, requestSent := false)
    else if !IfFire(s, i) then
      t.(discard := false, requestSent := false, requestPc := LaunchPc(s, i), busy := true)
    else
      t.(discard := false, requestPc := LaunchPc(s, i), nextPc := Add32(LaunchPc(s, i), 4),
         redirectPending := false, busy := !i.rsp.valid, requestSent := !i.rsp.valid)
  }

  function AfterHeld(s: IfState, t: IfState, i: IfIn): IfState {
    var stale := s.discard || KillEvent(i);
    if !IfFire(s, i) then t.(discard := stale)
    else
      var u := if stale then t else t.(nextPc := Add32(s.requestPc, 4), redirectPending := false);
      if i.rsp.valid then u.(busy := false, requestSent := false, discard := false)
      else u.(requestSent := true, discard := stale)
  }

  function AfterSent(s: IfState, t: IfState, i: IfIn): IfState {
    if !i.rsp.valid then t.(discard := s.discard || KillEvent(i))
    else if !LaunchRequest(s, i) then t.(busy := false, requestSent := false, discard := false)
    else if !IfFire(s, i) then t.(requestPc := LaunchPc(s, i), requestSent := false, discard := false)
    else t.(requestPc := LaunchPc(s, i), discard := false,
            nextPc := Add32(LaunchPc(s, i), 4), redirectPending := false)
  }

  function IfNext(s: IfState, i: IfIn, resetVector: Word): IfState {
    if i.rst then
      // An accepted request cannot be cancelled: keep it only to drop its response.
      var drain := s.busy && s.requestSent && !i.rsp.valid;
      IfReset(resetVector).(busy := drain, requestSent := drain, discard := drain)
    else
      var t := TargetNext(SlotNext(s, i), i);
      if !s.busy then AfterIdle(s, t, i)
      else if !s.requestSent then AfterHeld(s, t, i)
      else AfterSent(s, t, i)
  }

  class Fetcher {
    var busy: bool
    var nextPc: Word
    var requestPc: Word
    var requestSent: bool
    var discard: bool
    var redirectPending: bool
    var packetValid: bool
    var packetPc: Word
    var packetInsn: Word
    var packetExc: Exc

    function State(): IfState
      reads this
    {
      IfState(busy, nextPc, requestPc, requestSent, discard, redirectPending,
              packetValid, packetPc, packetInsn, packetExc)
    }

    constructor (resetVector: Word)
      ensures State() == IfReset(resetVector)
    {
      busy, requestSent, discard, redirectPending, packetValid := false, false, false, false, false;
      nextPc, requestPc, packetPc, packetInsn, packetExc := resetVector, resetVector, 0, 0, NO_EXC;
    }

    method Reset(rspValid: bool, resetVector: Word)
      modifies this
      ensures forall i: IfIn :: i.rst && i.rsp.valid == rspValid ==> State() == IfNext(old(State()), i, resetVector)
    {
      var drain := busy && requestSent && !rspValid;
      busy, nextPc, requestPc, requestSent, discard := false, resetVector, resetVector, false, false;
      redirectPending, packetValid, packetPc, packetInsn, packetExc := false, false, 0, 0, NO_EXC;
      if drain {
        busy, requestSent, discard := true, true, true;
      }
    }

    /** The outputs of a cycle and the request decisions its edge uses. */
    method Outputs(i: IfIn) returns (fetch: IfId, reqValid: bool, reqAddr: Word, launch: bool, live: bool, response: IfId)
      ensures fetch == FetchOut(State(), i)
      ensures reqValid == IfReqValid(State(), i) && reqAddr == IfReqAddr(State(), i)
      ensures launch == LaunchRequest(State(), i) && live == ResponseLive(State(), i)
      ensures response == ResponsePacket(State(), i)
    {
      hide FetchPacket;
      var kill := i.flush || i.redirectValid;
      var launchPc := if i.redirectValid then i.redirectPc else nextPc;
      var held := busy && !requestSent;
      launch := false;
      if !i.rst && (i.redirectValid || (!i.flush && (i.enable || redirectPending))) {
        if !busy {
          launch := kill || !packetValid || i.consume;
        } else if requestSent && i.rsp.valid {
          launch := i.redirectValid || (!i.flush && !packetValid && (discard || i.consume));
        }
      }
      reqValid := !i.rst && (held || launch);
      reqAddr := if held then requestPc else launchPc;
      var fire := reqValid && i.reqReady;
      if busy {
        live := i.rsp.valid && (requestSent || fire) && !(discard || kill);
      } else {
        live := launch && fire && i.rsp.valid;
      }
      response := FetchPacket(if busy then requestPc else launchPc, i.rsp.rdata, i.rsp.err);
      fetch := IF_ID_BUBBLE;
      if !i.rst && !kill {
        if packetValid {
          fetch := IfId(true, packetPc, packetInsn, packetExc);
        } else if live {
          fetch := response;
        }
      }
    }

    /** One clock edge, as the ordered overriding assignments of the source. */
    method Tick(i: IfIn, resetVector: Word) returns (fetch: IfId, reqValid: bool, reqAddr: Word)
      modifies this
      ensures fetch == FetchOut(old(State()), i)
      ensures reqValid == IfReqValid(old(State()), i) && reqAddr == IfReqAddr(old(State()), i)
      ensures State() == IfNext(old(State()), i, resetVector)
    {
      hide LaunchRequest, IfReqValid, IfReqAddr, ResponseLive, ResponsePacket, FetchOut, SlotNext, TargetNext, AfterIdle,
           AfterHeld, AfterSent;
      ghost var s := State();
      var launch, live, response;
      fetch, reqValid, reqAddr, launch, live, response := Outputs(i);
      if i.rst {
        Reset(i.rsp.valid, resetVector);
        return;
      }
      var wasBusy, launchPc := busy, if i.redirectValid then i.redirectPc else nextPc;
      Slot(i, live, response);
      Target(i);
      if !wasBusy {
        AdvanceIdle(i, launch, launchPc, reqValid && i.reqReady, s);
      } else if !requestSent {
        AdvanceHeld(i, reqValid && i.reqReady, s);
      } else {
        AdvanceSent(i, launch, launchPc, reqValid && i.reqReady, s);
      }
    }

    /** The packet slot. */
    method Slot(i: IfIn, live: bool, response: IfId)
      requires live == ResponseLive(State(), i) && response == ResponsePacket(State(), i)
      modifies `packetValid, `packetPc, `packetInsn, `packetExc
      ensures State() == SlotNext(old(State()), i)
    {
      hide ResponseLive, ResponsePacket;
      var kill := i.flush || i.redirectValid;
      var responseConsumed := live && !packetValid && !kill && i.consume;
      if kill || (packetValid && i.consume) {
        packetValid := false;
      }
      if live && !responseConsumed {
        packetValid, packetPc, packetInsn, packetExc := true, response.pc, response.insn, response.exc;
      }
    }

    method Target(i: IfIn)
      modifies `nextPc, `redirectPending
      ensures State() == TargetNext(old(State()), i)
    {
      if i.redirectValid {
        nextPc, redirectPending := i.redirectPc, true;
      } else if i.flush {
        redirectPending := false;
      }
    }

    /** The request half of the edge, with no request in flight. */
    method AdvanceIdle(i: IfIn, launch: bool, launchPc: Word, fire: bool, ghost s: IfState)
      requires launch == LaunchRequest(s, i) && launchPc == LaunchPc(s, i) && fire == IfFire(s, i) && !busy
      modifies this
      ensures State() == AfterIdle(s, old(State()), i)
    {
      hide LaunchRequest, IfFire, LaunchPc, Add32;
      discard, requestSent := false, false;
      if launch {
        requestPc := launchPc;
        if fire {
          nextPc, redirectPending := Add32(launchPc, 4), false;
          if !i.rsp.valid {
            busy, requestSent := true, true;
          }
        } else {
          busy := true;
        }
      }
    }

    /** With a request offered but not accepted. */
    method AdvanceHeld(i: IfIn, fire: bool, ghost s: IfState)
      requires fire == IfFire(s, i) && discard == s.discard && requestPc == s.requestPc
      modifies this
      ensures State() == AfterHeld(s, old(State()), i)
    {
      hide IfFire, Add32;
      var stale := discard || i.flush || i.redirectValid;
      if i.flush || i.redirectValid {
        discard := true;
      }
      if fire {
        if !stale {
          nextPc, redirectPending := Add32(requestPc, 4), false;
        }
        if i.rsp.valid {
          busy, requestSent, discard := false, false, false;
        } else {
          requestSent, discard := true, stale;
        }
      }
    }

    /** With an accepted request outstanding: its response may free the port for the next. */
    method AdvanceSent(i: IfIn, launch: bool, launchPc: Word, fire: bool, ghost s: IfState)
      requires launch == LaunchRequest(s, i) && launchPc == LaunchPc(s, i) && fire == IfFire(s, i)
      requires busy && requestSent && discard == s.discard
      modifies this
      ensures State() == AfterSent(s, old(State()), i)
    {
      hide LaunchRequest, IfFire, LaunchPc, Add32;
      if i.flush || i.redirectValid {
        discard := true;
      }
      if i.rsp.valid {
        busy, requestSent, discard := false, false, false;
        if launch {
          requestPc, busy := launchPc, true;
          if fire {
            requestSent, nextPc, redirectPending := true, Add32(launchPc, 4), false;
          }
        }
      }
    }
  }
}
