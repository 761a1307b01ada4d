/** Data-memory demultiplexer (rtl/soc/rv32_mem_demux.sv): address decode, one
    latched owner, retire-and-accept slot, and its composition with slaves that
    answer one cycle after acceptance. */
module MemDemux {
  import opened Rv32Types
  import opened DivUnit
  import opened Bits
  import opened FetchOrder

  datatype Target = TargetTcm | TargetTimer | TargetUart | TargetGpio

  /** One masked aperture: an address matches when it agrees with `base` under `mask`. */
  datatype Region = Region(base: Word, mask: Word)
  datatype DemuxParams = DemuxParams(timer: Region, uart: Region, gpio: Region)

  predicate Matches(r: Region, address: Word) { And32(Xor32(address, r.base), r.mask) == 0 }
  predicate RegionsOverlap(a: Region, b: Region) { And32(And32(Xor32(a.base, b.base), a.mask), b.mask) == 0 }

  /** A match is agreement on every bit the mask selects. */
  lemma MatchesBits(r: Region, address: Word)
    ensures Matches(r, address) <==>
            forall k :: 0 <= k < 32 && BitAt(r.mask, k) ==> BitAt(address, k) == BitAt(r.base, k)
  {
    ZeroBits(And32(Xor32(address, r.base), r.mask));
    forall k | 0 <= k < 32
      ensures BitAt(And32(Xor32(address, r.base), r.mask), k) <==>
              BitAt(r.mask, k) && BitAt(address, k) != BitAt(r.base, k)
    {
      WordBits(Xor32(address, r.base), r.mask, k);
      WordBits(address, r.base, k);
    }
    hide And32, Xor32;
  }

  lemma OverlapBits(a: Region, b: Region)
    ensures RegionsOverlap(a, b) <==>
            forall k :: 0 <= k < 32 && BitAt(a.mask, k) && BitAt(b.mask, k) ==> BitAt(a.base, k) == BitAt(b.base, k)
  {
    var x := And32(Xor32(a.base, b.base), a.mask);
    ZeroBits(And32(x, b.mask));
    forall k | 0 <= k < 32
      ensures BitAt(And32(x, b.mask), k) <==>
              BitAt(a.mask, k) && BitAt(b.mask, k) && BitAt(a.base, k) != BitAt(b.base, k)
    {
      WordBits(x, b.mask, k);
      WordBits(Xor32(a.base, b.base), a.mask, k);
      WordBits(a.base, b.base, k);
    }
    hide And32, Xor32;
  }

  /** The elaboration-time overlap test is exact. */
  lemma OverlapExact(a: Region, b: Region)
    ensures RegionsOverlap(a, b) <==> exists address: Word :: Matches(a, address) && Matches(b, address)
  {
    hide RegionsOverlap, Matches;
    OverlapBits(a, b);
    if RegionsOverlap(a, b) {
      var address := OverlapWitness(a, b);
      assert Matches(a, address) && Matches(b, address);
    }
    if address: Word :| Matches(a, address) && Matches(b, address) {
      MatchesBits(a, address);
      MatchesBits(b, address);
    }
  }

  /** Take `a`'s base where `a` decodes, and `b`'s elsewhere. */
  lemma OverlapWitness(a: Region, b: Region) returns (address: Word)
    requires RegionsOverlap(a, b)
    ensures Matches(a, address) && Matches(b, address)
  {
    hide RegionsOverlap, Matches, And32, Or32, AndNot32;
    var (mine, rest) := (And32(a.base, a.mask), AndNot32(b.base, a.mask));
    address := Or32(mine, rest);
    forall k | 0 <= k < 32
      ensures BitAt(address, k) == if BitAt(a.mask, k) then BitAt(a.base, k) else BitAt(b.base, k)
    {
      WordBits(a.base, a.mask, k);
      WordBits(b.base, a.mask, k);
      WordBits(mine, rest, k);
    }
    OverlapBits(a, b);
    MatchesBits(a, address);
    MatchesBits(b, address);
  }

  /** The aperture that ignores the low `k` address bits. */
  predicate Aperture(r: Region, k: nat) {
    k <= 32 && r.mask == Pow2(32) - Pow2(k) && r.base % Pow2(k) == 0
  }

  /** Such an aperture is the 2^k bytes from its base. */
  lemma ApertureIsRange(r: Region, k: nat, address: Word)
    requires Aperture(r, k)
    ensures Matches(r, address) <==> r.base <= address < r.base + Pow2(k)
  {
    Pow2Values();
    hide Pow2, Matches;
    MatchesBits(r, address);
    forall j | 0 <= j < 32
      ensures BitAt(r.mask, j) <==> k <= j
    {
      MaskBits(32, k, j);
    }
    HighBits(32, k, address, r.base);
    assert Matches(r, address) <==> Agree(k, 32, address, r.base);
    SameQuotient(address, r.base, Pow2(k));
  }

  lemma SameQuotient(x: nat, base: nat, size: nat)
    requires size > 0 && base % size == 0
    ensures x / size == base / size <==> base <= x < base + size
  {
    var q := base / size;
    assert base == q * size && x == x / size * size + x % size;
    if base <= x < base + size { DivModUnique(x, size, q, x - base); }
  }

  /** The TCM is the fallback for every address no aperture claims. */
  function Select(p: DemuxParams, address: Word): Target {
    if Matches(p.timer, address) then TargetTimer
    else if Matches(p.uart, address) then TargetUart
    else if Matches(p.gpio, address) then TargetGpio
    else TargetTcm
  }

  /** What the source rejects at elaboration: two apertures claiming one address. */
  predicate Disjoint(p: DemuxParams) {
    !RegionsOverlap(p.timer, p.uart) && !RegionsOverlap(p.timer, p.gpio) && !RegionsOverlap(p.uart, p.gpio)
  }

  /** Which slave an address belongs to, without any order among the apertures. */
  predicate Belongs(p: DemuxParams, t: Target, address: Word) {
    match t
    case TargetTimer => Matches(p.timer, address)
    case TargetUart => Matches(p.uart, address)
    case TargetGpio => Matches(p.gpio, address)
    case TargetTcm => !Matches(p.timer, address) && !Matches(p.uart, address) && !Matches(p.gpio, address)
  }

  /** Decoding routes every address to the one slave it belongs to. */
  lemma SelectIsOwner(p: DemuxParams, address: Word, t: Target)
    requires Disjoint(p)
    ensures Select(p, address) == t <==> Belongs(p, t, address)
  {
    hide RegionsOverlap, Matches;
    NotBoth(p.timer, p.uart, address);
    NotBoth(p.timer, p.gpio, address);
    NotBoth(p.uart, p.gpio, address);
  }

  /** The slave an address belongs to; with disjoint apertures there is exactly one. */
  function Owner(p: DemuxParams, address: Word): (t: Target)
    requires Disjoint(p)
    ensures Belongs(p, t, address) && forall u: Target :: Belongs(p, u, address) ==> u == t
  {
    hide RegionsOverlap, Matches;
    SelectIsOwner(p, address, TargetTcm);
    SelectIsOwner(p, address, TargetTimer);
    SelectIsOwner(p, address, TargetUart);
    SelectIsOwner(p, address, TargetGpio);
    Select(p, address)
  }

  lemma NotBoth(a: Region, b: Region, address: Word)
    requires !RegionsOverlap(a, b)
    ensures !(Matches(a, address) && Matches(b, address))
  {
    hide RegionsOverlap, Matches;
    OverlapExact(a, b);
  }

  /** The default map: three 64-KiB apertures (lines 14-19 of the source). */
  const DEFAULT_MAP := DemuxParams(Region(0x0200_0000, 0xffff_0000), Region(0x1000_0000, 0xffff_0000),
                                   Region(0x1001_0000, 0xffff_0000))

  lemma DefaultMap(address: Word)
    ensures Disjoint(DEFAULT_MAP)
    ensures Select(DEFAULT_MAP, address) ==
            if 0x0200_0000 <= address < 0x0201_0000 then TargetTimer
            else if 0x1000_0000 <= address < 0x1001_0000 then TargetUart
            else if 0x1001_0000 <= address < 0x1002_0000 then TargetGpio
            else TargetTcm
  {
    hide Matches, RegionsOverlap, Pow2;
    DefaultRange(0x0200_0000, address);
    DefaultRange(0x1000_0000, address);
    DefaultRange(0x1001_0000, address);
    Apart(0x0200_0000, 0x1000_0000);
    Apart(0x0200_0000, 0x1001_0000);
    Apart(0x1000_0000, 0x1001_0000);
  }

  lemma DefaultRange(base: Word, address: Word)
    requires base % 0x1_0000 == 0
    ensures Matches(Region(base, 0xffff_0000), address) <==> base <= address < base + 0x1_0000
  {
    Pow2Values();
    assert Pow2(8) == 256;
    Pow2Add(8, 8);
    hide Matches, Pow2;
    ApertureIsRange(Region(base, 0xffff_0000), 16, address);
  }

  lemma Apart(a: Word, b: Word)
    requires a % 0x1_0000 == 0 && b % 0x1_0000 == 0 && a + 0x1_0000 <= b
    ensures !RegionsOverlap(Region(a, 0xffff_0000), Region(b, 0xffff_0000))
  {
    hide RegionsOverlap, Matches;
    var (x, y) := (Region(a, 0xffff_0000), Region(b, 0xffff_0000));
    OverlapExact(x, y);
    if address: Word :| Matches(x, address) && Matches(y, address) {
      DefaultRange(a, address);
      DefaultRange(b, address);
      assert false;
    }
  }

  datatype PerTarget<T> = PerTarget(tcm: T, timer: T, uart: T, gpio: T) {
    function At(t: Target): T {
      match t
      case TargetTcm => tcm
      case TargetTimer => timer
      case TargetUart => uart
      case TargetGpio => gpio
    }
  }

  datatype DemuxState = DemuxState(pending: bool, target: Target)
  const DEMUX_RESET := DemuxState(false, TargetTcm)

  /** Core request, and what the four slaves drive. */
  datatype DemuxIn = DemuxIn(rst: bool, reqValid: bool, req: MemReq, ready: PerTarget<bool>, rsp: PerTarget<MemRsp>)

  function OwnerRsp(s: DemuxState, i: DemuxIn): MemRsp {
    if s.pending then i.rsp.At(s.target) else MemRsp(false, 0, false)
  }

  predicate IssueAllowed(s: DemuxState, i: DemuxIn) { !i.rst && (!s.pending || OwnerRsp(s, i).valid) }

  predicate CoreReady(p: DemuxParams, s: DemuxState, i: DemuxIn) {
    IssueAllowed(s, i) && i.ready.At(Select(p, i.req.addr))
  }

  /** Which slave, if any, is offered the request. */
  predicate OffersTo(p: DemuxParams, s: DemuxState, i: DemuxIn, t: Target) {
    IssueAllowed(s, i) && i.reqValid && Select(p, i.req.addr) == t
  }

  function CoreRsp(s: DemuxState, i: DemuxIn): MemRsp {
    if OwnerRsp(s, i).valid then OwnerRsp(s, i) else MemRsp(false, 0, false)
  }

  predicate DemuxFire(p: DemuxParams, s: DemuxState, i: DemuxIn) { i.reqValid && CoreReady(p, s, i) }

  function DemuxNext(p: DemuxParams, s: DemuxState, i: DemuxIn): DemuxState {
    if i.rst then DEMUX_RESET
    else if DemuxFire(p, s, i) then DemuxState(true, Select(p, i.req.addr))
    else if CoreRsp(s, i).valid then s.(pending := false)
    else s
  }

  class Demux {
    const params: DemuxParams
    var pending: bool
    var target: Target

    function State(): DemuxState
      reads this
    {
      DemuxState(pending, target)
    }

    constructor (params: DemuxParams)
      ensures State() == DEMUX_RESET && this.params == params
    {
      this.params, pending, target := params, false, TargetTcm;
    }

    method Tick(i: DemuxIn) returns (ready: bool, rsp: MemRsp, offers: PerTarget<bool>)
      modifies this
      ensures ready == CoreReady(params, old(State()), i) && rsp == CoreRsp(old(State()), i)
      ensures forall t: Target :: offers.At(t) == OffersTo(params, old(State()), i, t)
      ensures Disjoint(params) ==> forall t: Target :: offers.At(t) ==> Belongs(params, t, i.req.addr)
      ensures State() == DemuxNext(params, old(State()), i)
    {
      hide Matches, RegionsOverlap;
      if Disjoint(params) { SelectIsOwner(params, i.req.addr, Select(params, i.req.addr)); }
      hide Select, Disjoint, Belongs;
      var selected := Select(params, i.req.addr);
      var owner := MemRsp(false, 0, false);
      if pending {
        owner := i.rsp.At(target);
      }
      var allowed := !i.rst && (!pending || owner.valid);
      ready := allowed && i.ready.At(selected);
      offers := PerTarget(false, false, false, false);
      if allowed && i.reqValid {
        match selected {
          case TargetTcm => offers := offers.(tcm := true);
          case TargetTimer => offers := offers.(timer := true);
          case TargetUart => offers := offers.(uart := true);
          case TargetGpio => offers := offers.(gpio := true);
        }
      }
      rsp := if pending && owner.valid then owner else MemRsp(false, 0, false);
      var fire := i.reqValid && ready;
      if i.rst {
        pending, target := false, TargetTcm;
      } else if fire {
        pending, target := true, selected;
      } else if rsp.valid {
        pending := false;
      }
    }
  }

  // ----- composition with the four slaves

  /** A slave answers one cycle after it accepts: its response is a register loaded on
      acceptance.  `data` is what it answers with; the TCM alone has no reset, and is
      offered nothing during one. */
  function SlaveRspNext(accepted: bool, rst: bool, data: (Word, bool)): MemRsp {
    if accepted && !rst then MemRsp(true, data.0, data.1) else MemRsp(false, 0, false)
  }

  function TcmRspNext(offered: bool, data: (Word, bool)): MemRsp {
    if offered then MemRsp(true, data.0, data.1) else MemRsp(false, 0, false)
  }

  /** The fabric: the demux and the four response registers. */
  datatype Fabric = Fabric(demux: DemuxState, rsp: PerTarget<MemRsp>)

  /** One cycle of input: the core's request, readiness of the three peripherals, and the
      answers slaves give to what they accept now. */
  datatype FabricIn = FabricIn(
    rst: bool, reqValid: bool, req: MemReq, timerReady: bool, uartReady: bool, gpioReady: bool,
    answers: PerTarget<(Word, bool)>)

  function ToDemux(f: Fabric, i: FabricIn): DemuxIn {
    DemuxIn(i.rst, i.reqValid, i.req, PerTarget(true, i.timerReady, i.uartReady, i.gpioReady), f.rsp)
  }

  function FabricNext(p: DemuxParams, f: Fabric, i: FabricIn): Fabric {
    var d := ToDemux(f, i);
    Fabric(DemuxNext(p, f.demux, d),
           PerTarget(TcmRspNext(OffersTo(p, f.demux, d, TargetTcm), i.answers.tcm),
                     SlaveRspNext(OffersTo(p, f.demux, d, TargetTimer) && i.timerReady, i.rst, i.answers.timer),
                     SlaveRspNext(OffersTo(p, f.demux, d, TargetUart) && i.uartReady, i.rst, i.answers.uart),
                     SlaveRspNext(OffersTo(p, f.demux, d, TargetGpio) && i.gpioReady, i.rst, i.answers.gpio)))
  }

  const FABRIC_RESET := Fabric(DEMUX_RESET, PerTarget(MemRsp(false, 0, false), MemRsp(false, 0, false),
                                                      MemRsp(false, 0, false), MemRsp(false, 0, false)))

  /** A slave has an answer exactly when it owns the pending request, and the owner is
      the slave the request's address selects. */
  predicate FabricInv(p: DemuxParams, f: Fabric, out: Option<MemReq>) {
    && (forall t: Target :: f.rsp.At(t).valid <==> f.demux.pending && f.demux.target == t)
    && (out.Some? <==> f.demux.pending)
    && (out.Some? ==> f.demux.target == Select(p, out.value.addr))
  }

  predicate FabricReady(p: DemuxParams, f: Fabric, i: FabricIn) { CoreReady(p, f.demux, ToDemux(f, i)) }
  function FabricRsp(f: Fabric, i: FabricIn): MemRsp { CoreRsp(f.demux, ToDemux(f, i)) }

  /** One reset cycle accepts nothing and clears the slot and every response, whatever
      the state before. */
  lemma FabricResets(p: DemuxParams, f: Fabric, i: FabricIn)
    requires i.rst
    ensures !FabricReady(p, f, i) && FabricNext(p, f, i) == FABRIC_RESET && FabricInv(p, FABRIC_RESET, None)
  {
    hide Matches, Select;
  }

  /** One cycle in terms of the decoder's selection. */
  lemma FabricMoves(p: DemuxParams, f: Fabric, i: FabricIn, out: Option<MemReq>)
    requires FabricInv(p, f, out)
    ensures var fire := i.reqValid && FabricReady(p, f, i);
      && FabricInv(p, FabricNext(p, f, i), OutNext(out, fire, i.req, FabricRsp(f, i).valid))
      && (FabricRsp(f, i).valid <==> out.Some?)
      && (out.Some? ==> FabricRsp(f, i) == f.rsp.At(Select(p, out.value.addr)))
      && (i.rst ==> !FabricReady(p, f, i))
      && (fire ==> FabricNext(p, f, i).rsp.At(Select(p, i.req.addr)) ==
                   MemRsp(true, i.answers.At(Select(p, i.req.addr)).0, i.answers.At(Select(p, i.req.addr)).1))
  {
    hide Matches, Select;
    var g := FabricNext(p, f, i);
    assert f.rsp.At(f.demux.target).valid <==> f.demux.pending;
    forall t: Target
      ensures g.rsp.At(t).valid <==> g.demux.pending && g.demux.target == t
    {
      match t {
        case TargetTcm =>
        case TargetTimer =>
        case TargetUart =>
        case TargetGpio =>
      }
    }
  }

  /** In any cycle, with or without reset, ownership and answers stay in step; an
      outstanding request is answered in this very cycle, by the slave its address belongs
      to, even when reset clears the slot; and nothing is accepted during reset. */
  lemma FabricStep(p: DemuxParams, f: Fabric, i: FabricIn, out: Option<MemReq>)
    requires Disjoint(p) && FabricInv(p, f, out)
    ensures var fire := i.reqValid && FabricReady(p, f, i);
      && FabricInv(p, FabricNext(p, f, i), OutNext(out, fire, i.req, FabricRsp(f, i).valid))
      && (FabricRsp(f, i).valid <==> out.Some?)
      && (out.Some? ==> FabricRsp(f, i) == f.rsp.At(Owner(p, out.value.addr)))
      && (i.rst ==> !FabricReady(p, f, i))
      && (fire ==> FabricNext(p, f, i).rsp.At(Owner(p, i.req.addr)) == Served(p, i))
  {
    hide FabricInv, FabricNext, FabricReady, FabricRsp, RegionsOverlap, Matches, Disjoint;
    FabricMoves(p, f, i, out);
    OwnerIsSelect(p, i.req.addr);
    if out.Some? { OwnerIsSelect(p, out.value.addr); }
  }

  /** The slot costs no cycle: outside reset the core is ready exactly when the slave its
      request belongs to is, whether or not an older request is being answered. */
  lemma ReadyIff(p: DemuxParams, f: Fabric, i: FabricIn, out: Option<MemReq>)
    requires Disjoint(p) && FabricInv(p, f, out)
    ensures FabricReady(p, f, i) <==>
            !i.rst && PerTarget(true, i.timerReady, i.uartReady, i.gpioReady).At(Owner(p, i.req.addr))
  {
    OwnerIsSelect(p, i.req.addr);
    assert f.demux.pending ==> f.rsp.At(f.demux.target).valid;
    hide Select, Matches, RegionsOverlap, Disjoint, Belongs, Owner;
  }

  /** The answer of the slave the offered request belongs to. */
  function Served(p: DemuxParams, i: FabricIn): MemRsp
    requires Disjoint(p)
  {
    var a := i.answers.At(Owner(p, i.req.addr));
    MemRsp(true, a.0, a.1)
  }

  lemma OwnerIsSelect(p: DemuxParams, address: Word)
    requires Disjoint(p)
    ensures Owner(p, address) == Select(p, address)
  {
    hide RegionsOverlap, Matches, Disjoint, Belongs;
    SelectIsOwner(p, address, Owner(p, address));
  }

  /** A request is offered to a slave exactly when its address belongs to it. */
  lemma OfferedToOwner(p: DemuxParams, s: DemuxState, i: DemuxIn, t: Target)
    requires Disjoint(p)
    ensures OffersTo(p, s, i, t) <==> IssueAllowed(s, i) && i.reqValid && Belongs(p, t, i.req.addr)
  {
    hide RegionsOverlap, Matches, Disjoint, Select, Belongs;
    SelectIsOwner(p, i.req.addr, t);
  }

  /** The fallback needs no disjointness: the TCM gets what matches no aperture. */
  lemma TcmIsFallback(p: DemuxParams, address: Word)
    ensures Select(p, address) == TargetTcm <==> Belongs(p, TargetTcm, address)
  {
    hide Matches;
  }

  // ----- whole runs

  /** Answers delivered to the core over a run, oldest first. */
  function Answers(p: DemuxParams, f: Fabric, ins: seq<FabricIn>): seq<MemRsp>
    decreases |ins|
  {
    if ins == [] then []
    else (if FabricRsp(f, ins[0]).valid then [FabricRsp(f, ins[0])] else []) + Answers(p, FabricNext(p, f, ins[0]), ins[1..])
  }

  /** The answers the requests accepted over a run got from the slaves they belong to. */
  function Expected(p: DemuxParams, f: Fabric, ins: seq<FabricIn>): seq<MemRsp>
    requires Disjoint(p)
    decreases |ins|
  {
    if ins == [] then []
    else
      var i := ins[0];
      (if i.reqValid && FabricReady(p, f, i) then [Served(p, i)] else []) + Expected(p, FabricNext(p, f, i), ins[1..])
  }

  function FabricEnd(p: DemuxParams, f: Fabric, ins: seq<FabricIn>): Fabric
    decreases |ins|
  {
    if ins == [] then f else FabricEnd(p, FabricNext(p, f, ins[0]), ins[1..])
  }

  function Owed(f: Fabric): seq<MemRsp> {
    if f.demux.pending then [f.rsp.At(f.demux.target)] else []
  }

  /** Every accepted request is answered exactly once, in order, with the answer of the
      slave whose aperture its address is in; resets in between lose and add nothing. */
  lemma {:induction false} AnsweredExactlyOnce(p: DemuxParams, f: Fabric, ins: seq<FabricIn>, out: Option<MemReq>)
    requires Disjoint(p) && FabricInv(p, f, out)
    ensures Owed(f) + Expected(p, f, ins) == Answers(p, f, ins) + Owed(FabricEnd(p, f, ins))
    decreases |ins|
  {
    hide Disjoint, Owner, Served, Owed, FabricNext, FabricReady, FabricRsp, FabricInv, Select;
    if ins == [] {
      assert Owed(f) + [] == [] + Owed(f);
    } else {
      var i, g, rest := ins[0], FabricNext(p, f, ins[0]), ins[1..];
      FabricStep(p, f, i, out);
      OwedStep(p, f, i, out);
      var took := if i.reqValid && FabricReady(p, f, i) then [Served(p, i)] else [];
      var gave := if FabricRsp(f, i).valid then [FabricRsp(f, i)] else [];
      AnsweredExactlyOnce(p, g, rest, OutNext(out, i.reqValid && FabricReady(p, f, i), i.req, FabricRsp(f, i).valid));
      Rejoin(gave, took, Expected(p, g, rest), Answers(p, g, rest), Owed(FabricEnd(p, g, rest)));
    }
  }

  lemma Rejoin(gave: seq<MemRsp>, took: seq<MemRsp>, e: seq<MemRsp>, a: seq<MemRsp>, o: seq<MemRsp>)
    requires took + e == a + o
    ensures gave + (took + e) == (gave + a) + o
  {
    assert (gave + a) + o == gave + (a + o);
  }

  lemma OwedStep(p: DemuxParams, f: Fabric, i: FabricIn, out: Option<MemReq>)
    requires Disjoint(p) && FabricInv(p, f, out)
    ensures Owed(f) == (if FabricRsp(f, i).valid then [FabricRsp(f, i)] else [])
    ensures Owed(FabricNext(p, f, i)) == (if i.reqValid && FabricReady(p, f, i) then [Served(p, i)] else [])
  {
    hide Matches, Select, Disjoint, Owner;
    FabricMoves(p, f, i, out);
    OwnerIsSelect(p, i.req.addr);
  }
}
