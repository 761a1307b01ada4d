/** The SoC around the core: data port through the demultiplexer, instruction port on
    the TCM, one TCM array behind both.  It keeps the promises the core's proof asks of
    its memories, and with it the core refines a sequential machine that owns a memory. */
module Soc {
  import opened Rv32Types
  import opened CsrFile
  import opened IfStage
  import opened Lsu
  import opened PipelineStages
  import opened Rv32Core
  import opened FetchOrder
  import opened Isa
  import opened Staged
  import opened System
  import opened Invariant
  import opened Refinement
  import opened MemDemux
  import opened Tcm

  datatype SocParams = SocParams(core: Params, demux: DemuxParams, base: Word)

  /** `mem` is the TCM array, `imRsp` its instruction-port response register. */
  datatype SocState = SocState(y: Sys, fabric: Fabric, imRsp: MemRsp, mem: seq<Word>)

  /** What the rest of the SoC drives: reset, interrupt, peripheral readiness and answers. */
  datatype SocIn = SocIn(rst: bool, mtip: bool, timerReady: bool, uartReady: bool, gpioReady: bool,
                         timer: (Word, bool), uart: (Word, bool), gpio: (Word, bool))

  function DmRspNow(f: Fabric): MemRsp {
    if f.demux.pending && f.rsp.At(f.demux.target).valid then f.rsp.At(f.demux.target) else MemRsp(false, 0, false)
  }

  /** The core's inputs before the data port's ready is known; its requests need no more. */
  function Before(z: SocState, x: SocIn): CoreIn {
    CoreIn(x.rst, x.mtip, true, z.imRsp, false, DmRspNow(z.fabric))
  }

  function TcmAnswer(mem: seq<Word>, base: Word, r: MemReq): (Word, bool) {
    (RspAfter(mem, base, true, r).rdata, RspAfter(mem, base, true, r).err)
  }

  function ToFabric(p: SocParams, z: SocState, x: SocIn): FabricIn {
    var i := Before(z, x);
    var r := DmReq(z.y.core, i);
    FabricIn(x.rst, LsuReqValid(z.y.core.lsu, LsuWires(z.y.core, i, false)), r, x.timerReady, x.uartReady, x.gpioReady,
             PerTarget(TcmAnswer(z.mem, p.base, r), x.timer, x.uart, x.gpio))
  }

  function Wired(p: SocParams, z: SocState, x: SocIn): CoreIn {
    Before(z, x).(dmReady := FabricReady(p.demux, z.fabric, ToFabric(p, z, x)))
  }

  function FetchReq(a: Word): MemReq { MemReq(a, false, 0, 0) }

  function SocNext(p: SocParams, z: SocState, x: SocIn): SocState {
    var i, f := Wired(p, z, x), ToFabric(p, z, x);
    SocState(
      SysNext(z.y, i, p.core),
      FabricNext(p.demux, z.fabric, f),
      FetchRspAfter(z.mem, p.base, IfReqValid(z.y.core.fe, FetchWires(z.y.core, i)), FetchReq(ImAddr(z.y.core, i))),
      if OffersTo(p.demux, z.fabric.demux, ToDemux(z.fabric, f), TargetTcm) then MemAfter(z.mem, p.base, f.req) else z.mem)
  }

  /** The instruction the TCM's bytes hold at an address, or a fault where they hold none. */
  function CodeAt(mem: seq<Word>, base: Word, a: Word): Fetched {
    if Fetchable(4 * |mem|, base, a) then Fetched(CodeWord(Bytes(mem), base, a), false) else Fetched(0, true)
  }

  /** The word fetched in this cycle is the program's: no store has replaced its bytes. */
  predicate CodeIntact(p: SocParams, z: SocState, x: SocIn, prog: Program) {
    var i := Wired(p, z, x);
    ImFire(z.y.core, i) ==> CodeAt(z.mem, p.base, ImAddr(z.y.core, i)) == prog(ImAddr(z.y.core, i))
  }

  /** A TCM that fits the address space, at a word-aligned base. */
  predicate TcmFits(p: SocParams, mem: seq<Word>) { Aligned4(p.base) && 4 * |mem| <= TWO32 }

  predicate ImPortOk(rsp: MemRsp, out: Option<Word>, prog: Program) {
    && (rsp.valid <==> out.Some?)
    && (out.Some? ==> rsp.rdata == prog(out.value).rdata && rsp.err == prog(out.value).err)
  }

  predicate SocInv(p: SocParams, z: SocState, prog: Program) {
    TcmFits(p, z.mem) && FabricInv(p.demux, z.fabric, z.y.dmOut) && ImPortOk(z.imRsp, z.y.imOut, prog)
  }

  /** The core's requests do not depend on the ready they are met with. */
  lemma RequestsFirst(s: CoreState, i: CoreIn, j: CoreIn)
    requires i.rst == j.rst
    ensures LsuReqValid(s.lsu, LsuWires(s, i, false)) == LsuReqValid(s.lsu, LsuWires(s, j, false))
    ensures DmReq(s, i) == DmReq(s, j)
  {
    hide StoreStrobe, StoreLanes, BusRequest, Misaligned, MemIsMemory, WbTrap;
  }

  lemma RspIs(f: Fabric, i: FabricIn)
    ensures FabricRsp(f, i) == DmRspNow(f)
  {
  }

  /** The core's view of a cycle and the fabric's are the same transfer. */
  lemma SameTransfer(p: SocParams, z: SocState, x: SocIn)
    ensures var i, f := Wired(p, z, x), ToFabric(p, z, x);
      && i.rst == x.rst == f.rst && i.dmRsp == FabricRsp(z.fabric, f) && i.imRsp == z.imRsp && i.imReady
      && i.dmReady == FabricReady(p.demux, z.fabric, f)
      && f.req == DmReq(z.y.core, i)
      && DmFire(z.y.core, i) == (f.reqValid && FabricReady(p.demux, z.fabric, f))
  {
    RequestsFirst(z.y.core, Before(z, x), Wired(p, z, x));
    RspIs(z.fabric, ToFabric(p, z, x));
    hide FabricReady, DmReq, LsuReqValid, FabricRsp, DmRspNow, TcmAnswer;
    assert LsuWires(z.y.core, Wired(p, z, x), false).reqReady == Wired(p, z, x).dmReady by { hide MemIsMemory, WbTrap; }
    hide LsuWires;
  }

  lemma OutsAre(y: Sys, i: CoreIn, p: Params)
    ensures SysNext(y, i, p).imOut == OutNext(y.imOut, ImFire(y.core, i), ImAddr(y.core, i), i.imRsp.valid)
    ensures SysNext(y, i, p).dmOut == OutNext(y.dmOut, DmFire(y.core, i), DmReq(y.core, i), i.dmRsp.valid)
  {
    hide Next, ImFire, ImAddr, DmFire, DmReq, SelectAction, CsrData, TxnOf;
  }

  lemma FetchReady(s: CoreState, i: CoreIn)
    requires i.imReady
    ensures ImFire(s, i) == IfReqValid(s.fe, FetchWires(s, i)) && FetchWires(s, i).rsp == i.imRsp
  {
    hide ControlsNow, IfReqValid;
  }

  /** What the instruction port holds after a cycle: nothing, or the instruction the TCM's
      bytes held at the address fetched. */
  lemma FetchesBytes(p: SocParams, z: SocState, x: SocIn)
    requires TcmFits(p, z.mem)
    ensures var (i, t) := (Wired(p, z, x), SocNext(p, z, x)); var a := ImAddr(z.y.core, i);
      && (t.imRsp.valid <==> ImFire(z.y.core, i))
      && (ImFire(z.y.core, i) ==>
            t.imRsp == MemRsp(true, CodeAt(z.mem, p.base, a).rdata, CodeAt(z.mem, p.base, a).err))
      && |t.mem| == |z.mem|
  {
    hide Wired, ToFabric, FabricNext, SysNext, ImAddr, IfReqValid, FetchWires, IfFire, Offset33, InRange, MemAfter, OffersTo,
         CodeWord, Fetchable;
    var i := Wired(p, z, x);
    WiredReady(p, z, x);
    FetchReady(z.y.core, i);
    FetchIsLittleEndian(z.mem, p.base, ImAddr(z.y.core, i));
  }

  lemma WiredReady(p: SocParams, z: SocState, x: SocIn)
    ensures Wired(p, z, x).imReady && Wired(p, z, x).imRsp == z.imRsp && Wired(p, z, x).rst == x.rst
  {
    hide FabricReady, ToFabric, DmRspNow;
  }

  /** One cycle of the SoC keeps every promise the core's proof makes conditions of:
      answers only to accepted requests, once, in order, with the program's words, and
      nothing accepted on the data port during reset. */
  lemma SocKeepsPromises(p: SocParams, z: SocState, x: SocIn, prog: Program)
    requires SocInv(p, z, prog) && CodeIntact(p, z, x, prog)
    ensures Env(z.y, Wired(p, z, x), prog)
    ensures SocInv(p, SocNext(p, z, x), prog)
  {
    hide Wired, ToFabric, FabricReady, FabricRsp, FabricNext, FabricInv, SysNext, DmReq, DmFire, ImAddr, ImFire, FetchWires,
         FetchRspAfter, CodeAt, OffersTo, MemAfter, Env, Aligned4;
    var i, f := Wired(p, z, x), ToFabric(p, z, x);
    SameTransfer(p, z, x);
    FabricMoves(p.demux, z.fabric, f, z.y.dmOut);
    OutsAre(z.y, i, p.core);
    FetchReady(z.y.core, i);
    FetchesBytes(p, z, x);
    PromisesKept(z.y, i, prog);
  }

  lemma PromisesKept(y: Sys, i: CoreIn, prog: Program)
    requires ImPortOk(i.imRsp, y.imOut, prog) && FetchWires(y.core, i).rsp == i.imRsp
    requires i.dmRsp.valid ==> y.dmOut.Some?
    requires i.rst ==> !i.dmReady
    ensures Env(y, i, prog)
  {
    hide FetchWires, IfFire, IfReqAddr, DmFire;
  }
}
