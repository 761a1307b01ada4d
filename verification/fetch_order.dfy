/** Fetch order: the packets consumed from the fetch unit are the words at
    consecutive PCs since the last redirect or reset, one each, whatever the
    memory's timing. */
module FetchOrder {
  import opened Rv32Types
  import opened IfStage

  /** Answer of instruction memory at an address. */
  datatype Fetched = Fetched(rdata: Word, err: bool)
  type Program = Word -> Fetched

  function PacketAt(prog: Program, pc: Word): IfId {
    FetchPacket(pc, prog(pc).rdata, prog(pc).err)
  }

  /** The PC of the next packet the fetch unit will deliver. */
  function FetchPc(s: IfState): Word {
    if s.packetValid then s.packetPc
    else if s.busy && !s.discard then s.requestPc
    else s.nextPc
  }

  /** Requests accepted by the port and not yet answered, at most one: `out` is its address. */
  function OutNext<T>(out: Option<T>, fire: bool, req: T, rspValid: bool): Option<T> {
    if out.Some? && !rspValid then out
    else if fire && (out.Some? || !rspValid) then Some(req)
    else None
  }

  /** The port's environment: a response answers the outstanding request, or the
      one accepted in the same cycle, with the word the program has there. */
  predicate FetchEnv(s: IfState, i: IfIn, out: Option<Word>, prog: Program) {
    i.rsp.valid ==>
      && (out.Some? || IfFire(s, i))
      && var a := if out.Some? then out.value else IfReqAddr(s, i);
         i.rsp.rdata == prog(a).rdata && i.rsp.err == prog(a).err
  }

  predicate FetchInv(s: IfState, out: Option<Word>, prog: Program) {
    && (s.packetValid ==> !s.busy && HeldPacket(s) == PacketAt(prog, s.packetPc) && s.nextPc == Add32(s.packetPc, 4))
    && (s.discard ==> s.busy)
    && (s.requestSent ==> s.busy)
    && (s.busy && !s.discard ==> s.nextPc == if s.requestSent then Add32(s.requestPc, 4) else s.requestPc)
    && (out.Some? <==> s.busy && s.requestSent)
    && (out.Some? && !s.discard ==> out.value == s.requestPc)
    && Aligned4(s.nextPc) && Aligned4(s.requestPc) && (s.packetValid ==> Aligned4(s.packetPc))
  }

  lemma AlignedStep(pc: Word)
    requires Aligned4(pc)
    ensures Aligned4(Add32(pc, 4))
  {
  }

  /** Reset of any length at any moment restores the invariant at the reset vector. */
  lemma FetchReset(s: IfState, i: IfIn, out: Option<Word>, v: Word, prog: Program)
    requires i.rst && (out.Some? <==> s.busy && s.requestSent) && Aligned4(v)
    ensures FetchInv(IfNext(s, i, v), OutNext(out, IfFire(s, i), IfReqAddr(s, i), i.rsp.valid), prog)
    ensures FetchPc(IfNext(s, i, v)) == v && !FetchOut(s, i).valid && !IfReqValid(s, i)
  {
    hide Add32, FetchPacket, LaunchRequest;
  }

  /** A delivered word is the program's word at the delivered PC. */
  lemma LiveResponse(s: IfState, i: IfIn, out: Option<Word>, prog: Program)
    requires FetchInv(s, out, prog) && FetchEnv(s, i, out, prog) && ResponseLive(s, i)
    ensures ResponsePacket(s, i) == PacketAt(prog, ResponsePc(s, i))
    ensures !s.packetValid || !s.busy
  {
    hide Add32, LaunchRequest;
  }

  /** Nothing buffered while a request is in flight, and the chain of PCs is kept. */
  lemma FetchStep(s: IfState, i: IfIn, out: Option<Word>, v: Word, prog: Program)
    requires !i.rst && FetchInv(s, out, prog) && FetchEnv(s, i, out, prog)
    requires i.redirectValid ==> Aligned4(i.redirectPc)
    ensures FetchInv(IfNext(s, i, v), OutNext(out, IfFire(s, i), IfReqAddr(s, i), i.rsp.valid), prog)
  {
    if ResponseLive(s, i) { LiveResponse(s, i, out, prog); }
    AlignedStep(LaunchPc(s, i));
    AlignedStep(s.requestPc);
    hide Add32, FetchPacket, ResponsePacket, FetchEnv;
  }

  /** What one cycle delivers and where the next fetch stands. */
  lemma FetchDelivers(s: IfState, i: IfIn, out: Option<Word>, v: Word, prog: Program)
    requires !i.rst && FetchInv(s, out, prog) && FetchEnv(s, i, out, prog)
    ensures FetchOut(s, i).valid ==> FetchOut(s, i) == PacketAt(prog, FetchPc(s)) && !KillEvent(i)
    ensures i.redirectValid ==> FetchPc(IfNext(s, i, v)) == i.redirectPc
    ensures !KillEvent(i) ==>
              FetchPc(IfNext(s, i, v)) == if i.consume && FetchOut(s, i).valid then Add32(FetchPc(s), 4) else FetchPc(s)
  {
    if ResponseLive(s, i) { LiveResponse(s, i, out, prog); }
    hide Add32, FetchPacket, ResponsePacket, FetchEnv;
  }

  /** A request not yet accepted is offered again with the same address, whatever flush,
      redirect or response comes in between, and a second one is never outstanding. */
  lemma FetchRequestStable(s: IfState, i: IfIn, j: IfIn, out: Option<Word>, v: Word, prog: Program)
    requires FetchInv(s, out, prog) && !i.rst && !j.rst && IfReqValid(s, i)
    ensures !i.reqReady ==> IfReqValid(IfNext(s, i, v), j) && IfReqAddr(IfNext(s, i, v), j) == IfReqAddr(s, i)
    ensures IfFire(s, i) && out.Some? ==> i.rsp.valid
  {
    hide Add32, FetchPacket, ResponsePacket, Aligned4;
  }

  // ----- runs

  /** A run without reset or kill, whose responses are the program's. */
  predicate SteadyRun(s: IfState, ins: seq<IfIn>, out: Option<Word>, v: Word, prog: Program)
    decreases |ins|
  {
    ins == [] ||
    (!ins[0].rst && !KillEvent(ins[0]) && FetchEnv(s, ins[0], out, prog)
     && SteadyRun(IfNext(s, ins[0], v), ins[1..],
                  OutNext(out, IfFire(s, ins[0]), IfReqAddr(s, ins[0]), ins[0].rsp.valid), v, prog))
  }

  /** The packets the pipeline takes over a run. */
  function Consumed(s: IfState, ins: seq<IfIn>, v: Word): seq<IfId>
    decreases |ins|
  {
    if ins == [] then []
    else (if ins[0].consume && FetchOut(s, ins[0]).valid then [FetchOut(s, ins[0])] else [])
         + Consumed(IfNext(s, ins[0], v), ins[1..], v)
  }

  function PcPlus(pc: Word, k: nat): Word { (pc + 4 * k) % TWO32 }

  lemma PcPlusStep(pc: Word, k: nat)
    ensures PcPlus(Add32(pc, 4), k) == PcPlus(pc, k + 1) && PcPlus(pc, 0) == pc
  {
  }

  /** With no kill in between, the packets taken are those of consecutive PCs from where
      fetch stands: no gap, no repeat, no loss, each with the word of its own PC. */
  lemma {:induction false} ConsecutivePcs(s: IfState, ins: seq<IfIn>, out: Option<Word>, v: Word, prog: Program, k: nat)
    requires FetchInv(s, out, prog) && SteadyRun(s, ins, out, v, prog) && k < |Consumed(s, ins, v)|
    ensures Consumed(s, ins, v)[k] == PacketAt(prog, PcPlus(FetchPc(s), k))
    decreases |ins|
  {
    var i := ins[0];
    FetchStep(s, i, out, v, prog);
    FetchDelivers(s, i, out, v, prog);
    PcPlusStep(FetchPc(s), 0);
    hide FetchInv, IfNext, IfFire, IfReqAddr, FetchEnv, FetchOut, FetchPc, FetchPacket, Add32, PcPlus;
    var t, out2 := IfNext(s, i, v), OutNext(out, IfFire(s, i), IfReqAddr(s, i), i.rsp.valid);
    if i.consume && FetchOut(s, i).valid {
      if k > 0 {
        ConsecutivePcs(t, ins[1..], out2, v, prog, k - 1);
        PcPlusStep(FetchPc(s), k - 1);
      }
    } else {
      ConsecutivePcs(t, ins[1..], out2, v, prog, k);
    }
  }

  /** After a redirect the packets taken start at its target; nothing requested or
      buffered before it is ever delivered. */
  lemma AfterRedirect(s: IfState, i: IfIn, ins: seq<IfIn>, out: Option<Word>, v: Word, prog: Program, k: nat)
    requires !i.rst && i.redirectValid && Aligned4(i.redirectPc) && FetchInv(s, out, prog) && FetchEnv(s, i, out, prog)
    requires SteadyRun(IfNext(s, i, v), ins, OutNext(out, IfFire(s, i), IfReqAddr(s, i), i.rsp.valid), v, prog)
    requires k < |Consumed(IfNext(s, i, v), ins, v)|
    ensures !FetchOut(s, i).valid && Consumed(IfNext(s, i, v), ins, v)[k] == PacketAt(prog, PcPlus(i.redirectPc, k))
  {
    FetchStep(s, i, out, v, prog);
    FetchDelivers(s, i, out, v, prog);
    hide FetchInv, IfNext, IfFire, IfReqAddr, FetchEnv, FetchPc, FetchPacket, SteadyRun, Consumed, PcPlus;
    ConsecutivePcs(IfNext(s, i, v), ins, OutNext(out, IfFire(s, i), IfReqAddr(s, i), i.rsp.valid), v, prog, k);
  }

  /** After a reset, from any state, they start at the reset vector. */
  lemma FromReset(s: IfState, i: IfIn, ins: seq<IfIn>, out: Option<Word>, v: Word, prog: Program, k: nat)
    requires i.rst && (out.Some? <==> s.busy && s.requestSent) && Aligned4(v)
    requires SteadyRun(IfNext(s, i, v), ins, OutNext(out, IfFire(s, i), IfReqAddr(s, i), i.rsp.valid), v, prog)
    requires k < |Consumed(IfNext(s, i, v), ins, v)|
    ensures Consumed(IfNext(s, i, v), ins, v)[k] == PacketAt(prog, PcPlus(v, k))
  {
    FetchReset(s, i, out, v, prog);
    hide FetchInv, IfNext, IfFire, IfReqAddr, FetchEnv, FetchPc, FetchPacket, SteadyRun, Consumed, PcPlus, FetchOut, IfReqValid;
    ConsecutivePcs(IfNext(s, i, v), ins, OutNext(out, IfFire(s, i), IfReqAddr(s, i), i.rsp.valid), v, prog, k);
  }

  // ----- nothing stale is delivered

  /** History: how many flushes, redirects and resets there have been, and that count when
      the current request was first offered and when the buffered packet's request was. */
  datatype Epochs = Epochs(now: nat, request: nat, packet: nat)

  predicate Kills(i: IfIn) { i.rst || KillEvent(i) }

  function EpochsNext(s: IfState, i: IfIn, g: Epochs): Epochs {
    var now := if Kills(i) then g.now + 1 else g.now;
    Epochs(now, if LaunchRequest(s, i) then now else g.request,
           if ResponseLive(s, i) then (if s.busy then g.request else now) else g.packet)
  }

  /** The epoch in which the packet delivered in this cycle was requested. */
  function RequestedIn(s: IfState, i: IfIn, g: Epochs): nat {
    if s.packetValid then g.packet else if s.busy then g.request else EpochsNext(s, i, g).request
  }

  predicate Fresh(s: IfState, g: Epochs) {
    (s.packetValid ==> g.packet == g.now) && (s.busy && !s.discard ==> g.request == g.now)
  }

  lemma FreshStep(s: IfState, i: IfIn, g: Epochs, v: Word)
    requires Fresh(s, g)
    ensures Fresh(IfNext(s, i, v), EpochsNext(s, i, g))
    ensures FetchOut(s, i).valid ==> !Kills(i) && RequestedIn(s, i, g) == g.now
  {
    hide Add32, FetchPacket;
  }

  /** For each delivery of a run: the epoch of its request and its own. */
  function Deliveries(s: IfState, ins: seq<IfIn>, g: Epochs, v: Word): seq<(nat, nat)>
    decreases |ins|
  {
    if ins == [] then []
    else (if FetchOut(s, ins[0]).valid then [(RequestedIn(s, ins[0], g), g.now)] else [])
         + Deliveries(IfNext(s, ins[0], v), ins[1..], EpochsNext(s, ins[0], g), v)
  }

  /** Whatever the memory does, nothing requested before a flush, a redirect or a reset is
      delivered after it. */
  lemma {:induction false} NothingStale(s: IfState, ins: seq<IfIn>, g: Epochs, v: Word)
    requires Fresh(s, g)
    ensures forall d :: d in Deliveries(s, ins, g, v) ==> d.0 == d.1
    decreases |ins|
  {
    if ins != [] {
      FreshStep(s, ins[0], g, v);
      hide Fresh, IfNext, EpochsNext, FetchOut, RequestedIn;
      NothingStale(IfNext(s, ins[0], v), ins[1..], EpochsNext(s, ins[0], g), v);
    }
  }
}
