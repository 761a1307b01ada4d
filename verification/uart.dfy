/** Memory-mapped 8-N-1 UART (rtl/soc/rv32_uart.sv): transmitter, two-flop
    synchroniser, mid-bit sampling receiver, one-byte holding register. */
module Uart {
  import opened Rv32Types
  import opened DivUnit

  type Byte = s: seq<bool> | |s| == 8 witness [false, false, false, false, false, false, false, false]
  type Frame = s: seq<bool> | |s| == 10
    witness [true, true, true, true, true, true, true, true, true, true]

  datatype RxPhase = RxIdle | RxStart | RxData | RxStop

  /** The transmitter's registers, and the receiver's behind the synchroniser. */
  datatype TxRegs = TxRegs(shift: Frame, bit: nat, count: nat, busy: bool)
  datatype RxRegs = RxRegs(phase: RxPhase, count: nat, bit: nat, shift: Byte,
                           data: Byte, valid: bool, overrun: bool, frameError: bool)

  datatype UartState = UartState(tx: TxRegs, rxMeta: bool, rxSync: bool, rx: RxRegs, rsp: MemRsp)

  const ALL_ONES: Frame := [true, true, true, true, true, true, true, true, true, true]
  const ZERO_BYTE: Byte := [false, false, false, false, false, false, false, false]

  const TX_RESET := TxRegs(ALL_ONES, 0, 0, false)
  const RX_RESET := RxRegs(RxIdle, 0, 0, ZERO_BYTE, ZERO_BYTE, false, false, false)
  const UART_RESET := UartState(TX_RESET, true, true, RX_RESET, MemRsp(false, 0, false))

  /** `clks` is the number of clocks in a serial bit; the source rejects fewer than four. */
  datatype UartParams = UartParams(base: Word, clks: nat)
  datatype UartIn = UartIn(rst: bool, reqValid: bool, req: MemReq, rxLine: bool)

  /** The low eight bits of a word, least significant first. */
  function ByteBits(w: Word): Byte {
    var (h1, h2, h3) := (w / 2, w / 2 / 2, w / 2 / 2 / 2);
    var (h4, h5, h6, h7) := (h3 / 2, h3 / 2 / 2, h3 / 2 / 2 / 2, h3 / 2 / 2 / 2 / 2);
    [w % 2 == 1, h1 % 2 == 1, h2 % 2 == 1, h3 % 2 == 1, h4 % 2 == 1, h5 % 2 == 1, h6 % 2 == 1, h7 % 2 == 1]
  }

  function Weighted(b: bool, weight: nat): nat { if b then weight else 0 }

  function Nibble(a: bool, b: bool, c: bool, d: bool): (v: nat)
    ensures v < 16
  {
    Weighted(a, 1) + Weighted(b, 2) + Weighted(c, 4) + Weighted(d, 8)
  }

  function ByteValue(b: Byte): (v: Word)
    ensures v < 256
  {
    Nibble(b[0], b[1], b[2], b[3]) + 16 * Nibble(b[4], b[5], b[6], b[7])
  }

  /** A byte's bits give its value back. */
  lemma ByteRoundTrip(w: Word)
    ensures ByteValue(ByteBits(w)) == w % 256
  {
    var h3 := w / 2 / 2 / 2;
    var h7 := h3 / 2 / 2 / 2 / 2;
    NibbleUp(w, h3);
    NibbleUp(h3 / 2, h7);
    var b := ByteBits(w);
    var (low, high) := (Nibble(b[0], b[1], b[2], b[3]), Nibble(b[4], b[5], b[6], b[7]));
    hide Nibble;
    LowByte(w, low, h3 / 2, high, h7 / 2);
  }

  lemma LowByte(w: nat, low: nat, mid: nat, high: nat, rest: nat)
    requires w == low + 16 * mid && mid == high + 16 * rest && low < 16 && high < 16
    ensures low + 16 * high == w % 256
  {
    assert w == (low + 16 * high) + 256 * rest;
  }

  lemma NibbleUp(v: nat, h: nat)
    requires h == v / 2 / 2 / 2
    ensures v == Nibble(v % 2 == 1, v / 2 % 2 == 1, v / 2 / 2 % 2 == 1, h % 2 == 1) + 16 * (h / 2)
  {
  }

  /** Start bit, eight data bits least significant first, stop bit. */
  function FrameOf(b: Byte): Frame { [false] + b + [true] }

  // ----- bus side

  function TxDataAddr(p: UartParams): Word { p.base }
  function RxDataAddr(p: UartParams): Word { Add32(p.base, 4) }
  function StatusAddr(p: UartParams): Word { Add32(p.base, 8) }
  function BaudDivAddr(p: UartParams): Word { Add32(p.base, 12) }

  predicate ReadShape(r: MemReq) { !r.write && r.wstrb == 0 }
  predicate WriteShape(r: MemReq) { r.write && (r.wstrb == 1 || r.wstrb == 3 || r.wstrb == 15) }

  predicate AccessValid(p: UartParams, r: MemReq) {
    && Aligned4(r.addr)
    && if r.addr == TxDataAddr(p) then ReadShape(r) || WriteShape(r)
       else if r.addr == RxDataAddr(p) then ReadShape(r)
       else if r.addr == StatusAddr(p) then ReadShape(r) || WriteShape(r)
       else r.addr == BaudDivAddr(p) && ReadShape(r)
  }

  predicate LegalTxWrite(p: UartParams, r: MemReq) { r.addr == TxDataAddr(p) && WriteShape(r) && Aligned4(r.addr) }

  predicate UartReady(p: UartParams, s: UartState, i: UartIn) {
    !i.rst && (!LegalTxWrite(p, i.req) || !s.tx.busy)
  }

  predicate UartFire(p: UartParams, s: UartState, i: UartIn) { i.reqValid && UartReady(p, s, i) }

  predicate TxAccept(p: UartParams, s: UartState, i: UartIn) {
    UartFire(p, s, i) && AccessValid(p, i.req) && i.req.write && i.req.addr == TxDataAddr(p)
  }

  predicate RxPop(p: UartParams, s: UartState, i: UartIn) {
    UartFire(p, s, i) && AccessValid(p, i.req) && !i.req.write && i.req.addr == RxDataAddr(p) && s.rx.valid
  }

  predicate StatusWrite(p: UartParams, s: UartState, i: UartIn) {
    UartFire(p, s, i) && AccessValid(p, i.req) && i.req.write && i.req.addr == StatusAddr(p)
  }

  function ReadData(p: UartParams, s: UartState, addr: Word): Word {
    if addr == TxDataAddr(p) then (if s.tx.busy then TWO31 else 0)
    else if addr == RxDataAddr(p) then (if s.rx.valid then 0 else TWO31) + ByteValue(s.rx.data)
    else if addr == StatusAddr(p) then
      (if s.tx.busy then 2 else 1) + (if s.rx.valid then 4 else 0)
      + (if s.rx.overrun then 8 else 0) + (if s.rx.frameError then 16 else 0)
    else if addr == BaudDivAddr(p) then p.clks % TWO32
    else 0
  }

  function RspNext(p: UartParams, s: UartState, i: UartIn): MemRsp {
    var fire := UartFire(p, s, i);
    MemRsp(fire, if fire && AccessValid(p, i.req) && !i.req.write then ReadData(p, s, i.req.addr) else 0,
           fire && !AccessValid(p, i.req))
  }

  // ----- transmitter

  function TxLine(s: UartState, rst: bool): bool { if !rst && s.tx.busy then s.tx.shift[0] else true }

  function TxNext(p: UartParams, s: UartState, i: UartIn): TxRegs
    requires p.clks >= 4
  {
    if TxAccept(p, s, i) then TxRegs(FrameOf(ByteBits(i.req.wdata)), 0, p.clks - 1, true)
    else TxStepped(p.clks, s.tx)
  }

  function TxStepped(clks: nat, t: TxRegs): TxRegs
    requires clks >= 4
  {
    if !t.busy then t
    else if t.count != 0 then t.(count := t.count - 1)
    else if t.bit == 9 then TxRegs(ALL_ONES, 0, clks - 1, false)
    else TxRegs(t.shift[1..] + [true], t.bit + 1, clks - 1, true)
  }

  // ----- receiver

  predicate RxCompletes(s: UartState) { s.rx.phase.RxStop? && s.rx.count == 0 }

  /** What software did in this cycle: popped the byte, cleared the sticky errors. */
  datatype RxOps = RxOps(pop: bool, clearOverrun: bool, clearFrame: bool)

  function RxOpsOf(p: UartParams, s: UartState, i: UartIn): RxOps {
    var clear := StatusWrite(p, s, i);
    RxOps(RxPop(p, s, i), clear && Bit(i.req.wdata, 8), clear && Bit(i.req.wdata, 16))
  }

  function RxNext(p: UartParams, s: UartState, i: UartIn): RxRegs
    requires p.clks >= 4
  {
    RxStepped(p.clks, s.rx, s.rxSync, RxOpsOf(p, s, i))
  }

  /** Software clears first; a receive event in the same cycle wins, and a pop in the
      cycle of a completion frees the slot for it. */
  function RxStepped(clks: nat, r: RxRegs, sync: bool, o: RxOps): RxRegs
    requires clks >= 4
  {
    var t := r.(valid := r.valid && !o.pop, overrun := r.overrun && !o.clearOverrun,
                frameError := r.frameError && !o.clearFrame);
    match r.phase
    case RxIdle => if !sync then t.(phase := RxStart, count := clks / 2 - 1) else t
    case RxStart =>
      if r.count != 0 then t.(count := r.count - 1)
      else if !sync then t.(phase := RxData, count := clks - 1, bit := 0)
      else t.(phase := RxIdle)
    case RxData =>
      if r.count != 0 then t.(count := r.count - 1)
      else
        var u := t.(shift := if r.bit < 8 then r.shift[r.bit := sync] else r.shift, count := clks - 1);
        if r.bit == 7 then u.(phase := RxStop) else u.(bit := r.bit + 1)
    case RxStop =>
      if r.count != 0 then t.(count := r.count - 1)
      else
        var u := if !r.valid || o.pop then t.(data := r.shift, valid := true) else t.(overrun := true);
        u.(frameError := u.frameError || !sync, phase := RxIdle, count := 0, bit := 0)
  }

  function UartNext(p: UartParams, s: UartState, i: UartIn): UartState
    requires p.clks >= 4
  {
    if i.rst then UART_RESET
    else
      UartState(TxNext(p, s, i), i.rxLine, s.rxMeta, RxNext(p, s, i), RspNext(p, s, i))
  }

  /** The device as registers updated at each clock edge. */
  class Device {
    const params: UartParams
    var txShift: Frame
    var txBit: nat
    var txCount: nat
    var txBusy: bool
    var rxMeta: bool
    var rxSync: bool
    var rxPhase: RxPhase
    var rxCount: nat
    var rxBit: nat
    var rxShift: Byte
    var rxData: Byte
    var rxValid: bool
    var rxOverrun: bool
    var rxFrameError: bool
    var rsp: MemRsp

    function Tx(): TxRegs
      reads `txShift, `txBit, `txCount, `txBusy
    {
      TxRegs(txShift, txBit, txCount, txBusy)
    }

    function Rx(): RxRegs
      reads `rxPhase, `rxCount, `rxBit, `rxShift, `rxData, `rxValid, `rxOverrun, `rxFrameError
    {
      RxRegs(rxPhase, rxCount, rxBit, rxShift, rxData, rxValid, rxOverrun, rxFrameError)
    }

    function State(): UartState
      reads this
    {
      UartState(Tx(), rxMeta, rxSync, Rx(), rsp)
    }

    constructor (params: UartParams)
      ensures this.params == params && State() == UART_RESET
    {
      this.params := params;
      txShift, txBit, txCount, txBusy := ALL_ONES, 0, 0, false;
      rxPhase, rxCount, rxBit, rxShift := RxIdle, 0, 0, ZERO_BYTE;
      rxData, rxValid, rxOverrun, rxFrameError := ZERO_BYTE, false, false, false;
      rxMeta, rxSync, rsp := true, true, MemRsp(false, 0, false);
    }

    method ResetTx()
      modifies `txShift, `txBit, `txCount, `txBusy
      ensures Tx() == TX_RESET
    {
      txShift, txBit, txCount, txBusy := ALL_ONES, 0, 0, false;
    }

    method ResetRx()
      modifies `rxPhase, `rxCount, `rxBit, `rxShift, `rxData, `rxValid, `rxOverrun, `rxFrameError
      ensures Rx() == RX_RESET
    {
      rxPhase, rxCount, rxBit, rxShift := RxIdle, 0, 0, ZERO_BYTE;
      rxData, rxValid, rxOverrun, rxFrameError := ZERO_BYTE, false, false, false;
    }

    /** One clock edge. */
    method Tick(i: UartIn)
      requires params.clks >= 4
      modifies this
      ensures State() == UartNext(params, old(State()), i)
    {
      hide TxAccept, RspNext, TxStepped, RxStepped, RxOpsOf, FrameOf, ByteBits, Tx, Rx;
      if i.rst {
        ResetTx();
        ResetRx();
        rxMeta, rxSync, rsp := true, true, MemRsp(false, 0, false);
      } else {
        var s := State();
        Transmit(TxAccept(params, s, i), i.req.wdata);
        Receive(s.rxSync, RxOpsOf(params, s, i));
        rxMeta, rxSync, rsp := i.rxLine, s.rxMeta, RspNext(params, s, i);
      }
    }

    method Transmit(accept: bool, wdata: Word)
      requires params.clks >= 4
      modifies `txShift, `txBit, `txCount, `txBusy
      ensures Tx() == if accept then TxRegs(FrameOf(ByteBits(wdata)), 0, params.clks - 1, true)
                      else TxStepped(params.clks, old(Tx()))
    {
      hide ByteBits, FrameOf;
      if accept {
        txShift, txBit, txCount, txBusy := FrameOf(ByteBits(wdata)), 0, params.clks - 1, true;
      } else if txBusy {
        if txCount == 0 {
          txCount := params.clks - 1;
          if txBit == 9 {
            txBusy, txShift, txBit := false, ALL_ONES, 0;
          } else {
            txShift, txBit := txShift[1..] + [true], txBit + 1;
          }
        } else {
          txCount := txCount - 1;
        }
      }
    }

    /** The receiver: software's effects first, then the state machine. */
    method Receive(sync: bool, o: RxOps)
      requires params.clks >= 4
      modifies `rxPhase, `rxCount, `rxBit, `rxShift, `rxData, `rxValid, `rxOverrun, `rxFrameError
      ensures Rx() == RxStepped(params.clks, old(Rx()), sync, o)
    {
      var wasValid := rxValid;
      SoftwareOps(o);
      if rxPhase.RxIdle? {
        if !sync {
          rxPhase, rxCount := RxStart, params.clks / 2 - 1;
        }
      } else if rxCount != 0 {
        rxCount := rxCount - 1;
      } else if rxPhase.RxStart? {
        if !sync {
          rxPhase, rxCount, rxBit := RxData, params.clks - 1, 0;
        } else {
          rxPhase := RxIdle;
        }
      } else if rxPhase.RxData? {
        TakeBit(sync);
      } else {
        Complete(wasValid, sync, o.pop);
      }
    }

    method SoftwareOps(o: RxOps)
      modifies `rxValid, `rxOverrun, `rxFrameError
      ensures Rx() == var r := old(Rx());
                      r.(valid := r.valid && !o.pop, overrun := r.overrun && !o.clearOverrun,
                         frameError := r.frameError && !o.clearFrame)
    {
      if o.clearOverrun {
        rxOverrun := false;
      }
      if o.clearFrame {
        rxFrameError := false;
      }
      if o.pop {
        rxValid := false;
      }
    }

    method TakeBit(sync: bool)
      requires params.clks >= 4
      modifies `rxPhase, `rxCount, `rxBit, `rxShift
      ensures Rx() == var r := old(Rx());
                      var u := r.(shift := if r.bit < 8 then r.shift[r.bit := sync] else r.shift, count := params.clks - 1);
                      if r.bit == 7 then u.(phase := RxStop) else u.(bit := r.bit + 1)
    {
      if rxBit < 8 {
        rxShift := rxShift[rxBit := sync];
      }
      rxCount := params.clks - 1;
      if rxBit == 7 {
        rxPhase := RxStop;
      } else {
        rxBit := rxBit + 1;
      }
    }

    /** The stop bit's sample. */
    method Complete(wasValid: bool, sync: bool, pop: bool)
      modifies `rxPhase, `rxCount, `rxBit, `rxData, `rxValid, `rxOverrun, `rxFrameError
      ensures Rx() == var r := old(Rx());
                      var u := if !wasValid || pop then r.(data := r.shift, valid := true) else r.(overrun := true);
                      u.(frameError := u.frameError || !sync, phase := RxIdle, count := 0, bit := 0)
    {
      if !wasValid || pop {
        rxData, rxValid := rxShift, true;
      } else {
        rxOverrun := true;
      }
      if !sync {
        rxFrameError := true;
      }
      rxPhase, rxCount, rxBit := RxIdle, 0, 0;
    }
  }

  /** Every counter stays within its register, for any clock ratio and any input: both
      bit counters in their ranges and both baud counters below the ratio. */
  predicate Widths(p: UartParams, s: UartState) {
    s.tx.bit <= 9 && s.rx.bit <= 7 && s.tx.count < p.clks && s.rx.count < p.clks
  }

  lemma WidthsKept(p: UartParams, s: UartState, i: UartIn)
    requires p.clks >= 4 && (i.rst || Widths(p, s))
    ensures Widths(p, UartNext(p, s, i))
  {
    hide TxAccept, RxOpsOf, RspNext, ByteBits, FrameOf;
  }

  /** Cycles until the transmitter is free. */
  function TxLeft(p: UartParams, t: TxRegs): nat {
    if t.busy && t.bit <= 9 then (9 - t.bit) * p.clks + t.count + 1 else 0
  }

  /** A store to TXDATA is held back for at most one frame: the wait shrinks every cycle. */
  lemma TxFreesUp(p: UartParams, s: UartState, i: UartIn)
    requires p.clks >= 4 && !i.rst && Widths(p, s) && s.tx.busy
    ensures TxLeft(p, UartNext(p, s, i).tx) == TxLeft(p, s.tx) - 1 && TxLeft(p, s.tx) <= 10 * p.clks
    ensures UartReady(p, s, i) || TxLeft(p, s.tx) > 0
  {
    AcceptIdle(p, s, i);
    hide RxNext, RspNext, TxAccept, AccessValid, LegalTxWrite;
    MulStep(9 - s.tx.bit, 9, p.clks);
    if s.tx.bit < 9 { MulStep(9 - s.tx.bit, 9 - s.tx.bit, p.clks); }
  }

  // ----- the receiver on any line

  /** What the receiver sees in one cycle: the synchronised line and software's operations. */
  datatype RxIn = RxIn(sync: bool, ops: RxOps)

  function RxRun(c: nat, r: RxRegs, ins: seq<RxIn>): RxRegs
    requires c >= 4
    decreases |ins|
  {
    if ins == [] then r else RxRun(c, RxStepped(c, r, ins[0].sync, ins[0].ops), ins[1..])
  }

  predicate NoPop(ins: seq<RxIn>) { forall k :: 0 <= k < |ins| ==> !ins[k].ops.pop }
  predicate NoClearOverrun(ins: seq<RxIn>) { forall k :: 0 <= k < |ins| ==> !ins[k].ops.clearOverrun }
  predicate NoClearFrame(ins: seq<RxIn>) { forall k :: 0 <= k < |ins| ==> !ins[k].ops.clearFrame }

  /** Software's effects alone. */
  function AfterOps(r: RxRegs, ins: seq<RxIn>): RxRegs {
    r.(valid := r.valid && NoPop(ins), overrun := r.overrun && NoClearOverrun(ins), frameError := r.frameError && NoClearFrame(ins))
  }

  lemma OpsJoin(r: RxRegs, a: seq<RxIn>, b: seq<RxIn>)
    ensures AfterOps(AfterOps(r, a), b) == AfterOps(r, a + b)
  {
    assert forall k :: 0 <= k < |a| ==> (a + b)[k] == a[k];
    assert forall k :: 0 <= k < |b| ==> (a + b)[|a| + k] == b[k];
  }

  lemma {:induction false} RunJoin(c: nat, r: RxRegs, a: seq<RxIn>, b: seq<RxIn>)
    requires c >= 4
    ensures RxRun(c, r, a + b) == RxRun(c, RxRun(c, r, a), b)
    decreases |a|
  {
    hide RxStepped;
    if a == [] {
      assert a + b == b;
    } else {
      RunJoin(c, RxStepped(c, r, a[0].sync, a[0].ops), a[1..], b);
      assert (a + b)[1..] == a[1..] + b;
    }
  }

  /** Between samples only the counter and software move. */
  lemma {:induction false} Waits(c: nat, r: RxRegs, ins: seq<RxIn>)
    requires c >= 4 && !r.phase.RxIdle? && |ins| <= r.count
    ensures RxRun(c, r, ins) == AfterOps(r, ins).(count := r.count - |ins|)
    decreases |ins|
  {
    if ins != [] {
      var t := RxStepped(c, r, ins[0].sync, ins[0].ops);
      assert t == AfterOps(r, ins[..1]).(count := r.count - 1);
      hide RxStepped;
      Waits(c, t, ins[1..]);
      OpsJoin(r, ins[..1], ins[1..]);
      assert ins == ins[..1] + ins[1..];
      hide AfterOps;
      OpsKeepCount(r, ins[..1], ins[1..], r.count - 1, r.count - |ins|);
    }
  }

  lemma OpsKeepCount(r: RxRegs, a: seq<RxIn>, b: seq<RxIn>, m: nat, n: nat)
    ensures AfterOps(AfterOps(r, a).(count := m), b).(count := n) == AfterOps(AfterOps(r, a), b).(count := n)
  {
  }

  /** Waiting out the counter and then sampling. */
  lemma WaitThenStep(c: nat, r: RxRegs, ins: seq<RxIn>)
    requires c >= 4 && !r.phase.RxIdle? && |ins| == r.count + 1
    ensures RxRun(c, r, ins) ==
            RxStepped(c, AfterOps(r, ins[..r.count]).(count := 0), ins[r.count].sync, ins[r.count].ops)
  {
    var n := r.count;
    assert ins == ins[..n] + [ins[n]];
    RunJoin(c, r, ins[..n], [ins[n]]);
    Waits(c, r, ins[..n]);
    var m := RxRun(c, r, ins[..n]);
    hide RxStepped, AfterOps;
    assert [ins[n]][1..] == [];
    assert RxRun(c, m, [ins[n]]) == RxRun(c, RxStepped(c, m, ins[n].sync, ins[n].ops), []);
  }

  /** One data bit: `c` cycles, the line sampled in the last. */
  lemma BitStored(c: nat, r: RxRegs, ins: seq<RxIn>)
    requires c >= 4 && r.phase.RxData? && r.bit <= 7 && r.count == c - 1 && |ins| == c
    ensures RxRun(c, r, ins) ==
            AfterOps(r, ins).(shift := r.shift[r.bit := ins[c - 1].sync],
                              phase := if r.bit == 7 then RxStop else RxData, bit := if r.bit == 7 then 7 else r.bit + 1)
  {
    WaitThenStep(c, r, ins);
    assert ins == ins[..c - 1] + [ins[c - 1]];
    OpsJoin(r, ins[..c - 1], [ins[c - 1]]);
    hide RxRun, NoPop, NoClearOverrun, NoClearFrame;
    LastOp(ins[c - 1]);
  }

  lemma LastOp(x: RxIn)
    ensures NoPop([x]) == !x.ops.pop && NoClearOverrun([x]) == !x.ops.clearOverrun && NoClearFrame([x]) == !x.ops.clearFrame
  {
    assert [x][0] == x;
  }

  /** The data bits from bit `r.bit` on. */
  lemma {:induction false} BitsStored(c: nat, r: RxRegs, ins: seq<RxIn>)
    requires c >= 4 && r.phase.RxData? && r.bit <= 7 && r.count == c - 1 && |ins| == (8 - r.bit) * c
    ensures var t := RxRun(c, r, ins);
      && t == AfterOps(r, ins).(shift := t.shift, phase := RxStop, bit := 7)
      && (forall k :: 0 <= k < r.bit ==> t.shift[k] == r.shift[k])
      && (forall k :: r.bit <= k < 8 ==> SampledAt(ins, (k - r.bit) * c + c - 1, t.shift[k]))
    decreases 8 - r.bit
  {
    var b := r.bit;
    if b == 7 {
      BitStored(c, r, ins);
    } else {
      hide RxRun, AfterOps, RxStepped, SampledAt;
      Chunk(8 - b, c);
      var first, rest := ins[..c], ins[c..];
      assert ins == first + rest;
      BitStored(c, r, first);
      AfterOpsShape(r, first);
      RunJoin(c, r, first, rest);
      var m := RxRun(c, r, first);
      BitsStored(c, m, rest);
      OpsJoin(r, first, rest);
      var t := RxRun(c, m, rest);
      OpsKeepShift(r, first, rest, m, t);
      SamplesJoin(ins, c, b, t.shift);
    }
  }

  /** The first chunk's sample and those of the rest are those of the whole. */
  lemma SamplesJoin(ins: seq<RxIn>, c: nat, b: nat, shift: Byte)
    requires 0 < c <= |ins| && b < 8 && ins[c - 1].sync == shift[b]
    requires forall k :: b + 1 <= k < 8 ==> SampledAt(ins[c..], (k - (b + 1)) * c + c - 1, shift[k])
    ensures forall k :: b <= k < 8 ==> SampledAt(ins, (k - b) * c + c - 1, shift[k])
  {
    forall k | b <= k < 8
      ensures SampledAt(ins, (k - b) * c + c - 1, shift[k])
    {
      if k > b {
        var x := (k - (b + 1)) * c + c - 1;
        assert SampledAt(ins[c..], x, shift[k]);
        InSlice(ins, c, |ins|, x, shift[k]);
        NextChunk(k - b, c);
      } else {
        FirstSample(ins, c, shift[b]);
      }
    }
  }

  lemma FirstSample(ins: seq<RxIn>, c: nat, v: bool)
    requires 0 < c <= |ins| && ins[c - 1].sync == v
    ensures SampledAt(ins, c - 1, v)
  {
  }

  lemma NextChunk(n: nat, c: nat)
    requires n >= 1
    ensures n * c == (n - 1) * c + c
  {
  }

  lemma Chunk(n: nat, c: nat)
    requires n >= 2
    ensures n * c == (n - 1) * c + c && (n - 1) * c >= c
  {
    MulStep(1, n - 1, c);
  }

  lemma OpsKeepShift(r: RxRegs, a: seq<RxIn>, b: seq<RxIn>, m: RxRegs, t: RxRegs)
    requires m == AfterOps(r, a).(shift := m.shift, phase := RxData, bit := m.bit)
    requires t == AfterOps(m, b).(shift := t.shift, phase := RxStop, bit := 7)
    ensures t == AfterOps(AfterOps(r, a), b).(shift := t.shift, phase := RxStop, bit := 7)
  {
  }

  predicate SampledAt(ins: seq<RxIn>, k: int, v: bool) { 0 <= k < |ins| && ins[k].sync == v }

  /** A low line that is high again half a bit later is no start bit: nothing is received. */
  lemma FalseStart(c: nat, r: RxRegs, ins: seq<RxIn>)
    requires c >= 4 && r.phase.RxIdle? && |ins| == c / 2 + 1 && !ins[0].sync && ins[c / 2].sync
    ensures RxRun(c, r, ins) == AfterOps(r, ins).(count := 0)
  {
    var h := c / 2;
    StartSeen(c, r, ins);
    assert ins == ins[..h] + [ins[h]];
    OpsJoin(r, ins[..h], [ins[h]]);
    LastOp(ins[h]);
    hide RxRun, NoPop, NoClearOverrun, NoClearFrame;
  }

  /** From a falling line to the middle of the start bit. */
  lemma StartSeen(c: nat, r: RxRegs, ins: seq<RxIn>)
    requires c >= 4 && r.phase.RxIdle? && |ins| == c / 2 + 1 && !ins[0].sync
    ensures RxRun(c, r, ins) ==
            RxStepped(c, AfterOps(r, ins[..c / 2]).(phase := RxStart, count := 0), ins[c / 2].sync, ins[c / 2].ops)
  {
    var h := c / 2;
    var m := RxStepped(c, r, false, ins[0].ops);
    assert m == AfterOps(r, ins[..1]).(phase := RxStart, count := h - 1);
    WaitThenStep(c, m, ins[1..]);
    assert ins[1..][..h - 1] == ins[1..h];
    assert ins[..h] == ins[..1] + ins[1..h];
    OpsJoin(r, ins[..1], ins[1..h]);
    OpsKeepPhase(r, ins[..1], ins[1..h], h - 1);
    hide RxStepped, AfterOps;
  }

  lemma OpsKeepPhase(r: RxRegs, a: seq<RxIn>, b: seq<RxIn>, n: nat)
    ensures AfterOps(AfterOps(r, a).(phase := RxStart, count := n), b).(count := 0) ==
            AfterOps(AfterOps(r, a), b).(phase := RxStart, count := 0)
  {
  }

  /** A start bit that lasts: the receiver goes on to the data bits. */
  lemma StartAccepted(c: nat, r: RxRegs, ins: seq<RxIn>)
    requires c >= 4 && r.phase.RxIdle? && |ins| == c / 2 + 1 && !ins[0].sync && !ins[c / 2].sync
    ensures RxRun(c, r, ins) == AfterOps(r, ins).(phase := RxData, count := c - 1, bit := 0)
  {
    var h := c / 2;
    StartSeen(c, r, ins);
    assert ins == ins[..h] + [ins[h]];
    OpsJoin(r, ins[..h], [ins[h]]);
    LastOp(ins[h]);
    hide RxRun, NoPop, NoClearOverrun, NoClearFrame;
  }

  /** The stop bit: the byte enters the holding register if it is free, or is dropped with
      the overrun flag raised; a low stop bit raises the framing flag.  Either event wins
      over a clear in its own cycle. */
  lemma StopTaken(c: nat, r: RxRegs, ins: seq<RxIn>)
    requires c >= 4 && r.phase.RxStop? && r.count == c - 1 && |ins| == c
    ensures var full := r.valid && NoPop(ins);
      RxRun(c, r, ins) ==
      RxRegs(RxIdle, 0, 0, r.shift, if full then r.data else r.shift, true,
             full || (r.overrun && NoClearOverrun(ins)), !ins[c - 1].sync || (r.frameError && NoClearFrame(ins)))
  {
    WaitThenStep(c, r, ins);
    assert ins == ins[..c - 1] + [ins[c - 1]];
    OpsJoin(r, ins[..c - 1], [ins[c - 1]]);
    LastOp(ins[c - 1]);
    StopSample(c, AfterOps(r, ins[..c - 1]).(count := 0), ins[c - 1]);
    hide RxRun, RxStepped, NoPop, NoClearOverrun, NoClearFrame;
    assert AfterOps(r, ins) == AfterOps(AfterOps(r, ins[..c - 1]), [ins[c - 1]]);
  }

  lemma StopSample(c: nat, r: RxRegs, x: RxIn)
    requires c >= 4 && r.phase.RxStop? && r.count == 0
    ensures var full := r.valid && !x.ops.pop;
      RxStepped(c, r, x.sync, x.ops) ==
      RxRegs(RxIdle, 0, 0, r.shift, if full then r.data else r.shift, true,
             full || (r.overrun && !x.ops.clearOverrun), !x.sync || (r.frameError && !x.ops.clearFrame))
  {
  }

  /** A whole frame on any line, with any software activity: after `c/2 + 9c + 1` cycles
      from the falling edge the receiver is idle again; data bit `k` is the line at
      `c/2 + (k+1)c`; the byte is kept unless one is still held, which raises overrun and
      leaves the held byte; the framing flag rises exactly for a low stop sample; and a flag
      not raised now stays only if software did not clear it. */
  lemma FrameReceived(c: nat, r: RxRegs, ins: seq<RxIn>)
    requires c >= 4 && r.phase.RxIdle? && |ins| == c / 2 + 9 * c + 1 && !ins[0].sync && !ins[c / 2].sync
    ensures var (e, full, h) := (RxRun(c, r, ins), r.valid && NoPop(ins), c / 2);
      && e.phase.RxIdle? && e.valid
      && (forall k :: 0 <= k < 8 ==> SampledAt(ins, h + k * c + c, e.shift[k]))
      && e.data == (if full then r.data else e.shift)
      && e.overrun == (full || (r.overrun && NoClearOverrun(ins)))
      && e.frameError == (!ins[h + 9 * c].sync || (r.frameError && NoClearFrame(ins)))
  {
    hide RxRun, NoPop, NoClearOverrun, NoClearFrame, SampledAt;
    var h, n := c / 2, 8 * c;
    var start, data, stop := ins[..h + 1], ins[h + 1..h + 1 + n], ins[h + 1 + n..];
    assert start + data + stop == ins;
    FrameParts(c, r, start, data, stop);
    var e := RxRun(c, r, ins);
    forall k | 0 <= k < 8
      ensures SampledAt(ins, h + k * c + c, e.shift[k])
    {
      var x := k * c + c - 1;
      assert SampledAt(data, x, e.shift[k]);
      InSlice(ins, h + 1, h + 1 + n, x, e.shift[k]);
    }
  }

  lemma InSlice(ins: seq<RxIn>, lo: nat, hi: nat, x: int, v: bool)
    requires lo <= hi <= |ins| && SampledAt(ins[lo..hi], x, v)
    ensures SampledAt(ins, lo + x, v)
  {
  }

  lemma FrameParts(c: nat, r: RxRegs, start: seq<RxIn>, data: seq<RxIn>, stop: seq<RxIn>)
    requires c >= 4 && r.phase.RxIdle? && |start| == c / 2 + 1 && !start[0].sync && !start[c / 2].sync
    requires |data| == 8 * c && |stop| == c
    ensures var ins := start + data + stop; var (e, full) := (RxRun(c, r, ins), r.valid && NoPop(ins));
      && e.phase.RxIdle? && e.valid
      && (forall k :: 0 <= k < 8 ==> SampledAt(data, k * c + c - 1, e.shift[k]))
      && e.data == (if full then r.data else e.shift)
      && e.overrun == (full || (r.overrun && NoClearOverrun(ins)))
      && e.frameError == (!stop[c - 1].sync || (r.frameError && NoClearFrame(ins)))
  {
    hide RxRun, AfterOps, NoPop, NoClearOverrun, NoClearFrame;
    StartAccepted(c, r, start);
    var m := RxRun(c, r, start);
    AfterOpsShape(r, start);
    BitsFrom0(c, m, data);
    var n := RxRun(c, m, data);
    AfterOpsShape(m, data);
    StopTaken(c, n, stop);
    RunJoin(c, r, start, data);
    RunJoin(c, r, start + data, stop);
    OpsThrice(r, start, data, stop, m, n);
  }

  lemma AfterOpsShape(r: RxRegs, ins: seq<RxIn>)
    ensures var t := AfterOps(r, ins); t.phase == r.phase && t.count == r.count && t.bit == r.bit && t.data == r.data
  {
  }

  lemma BitsFrom0(c: nat, m: RxRegs, data: seq<RxIn>)
    requires c >= 4 && m.phase.RxData? && m.bit == 0 && m.count == c - 1 && |data| == 8 * c
    ensures var t := RxRun(c, m, data);
      && t == AfterOps(m, data).(shift := t.shift, phase := RxStop, bit := 7)
      && forall k :: 0 <= k < 8 ==> SampledAt(data, k * c + c - 1, t.shift[k])
  {
    hide RxRun, AfterOps;
    BitsStored(c, m, data);
    var t := RxRun(c, m, data);
    forall k | 0 <= k < 8
      ensures SampledAt(data, k * c + c - 1, t.shift[k])
    {
      assert SampledAt(data, (k - 0) * c + c - 1, t.shift[k]);
    }
  }

  lemma OpsThrice(r: RxRegs, a: seq<RxIn>, b: seq<RxIn>, d: seq<RxIn>, m: RxRegs, n: RxRegs)
    requires m == AfterOps(r, a).(phase := m.phase, count := m.count, bit := m.bit)
    requires n == AfterOps(m, b).(phase := n.phase, shift := n.shift, bit := n.bit)
    ensures n.data == r.data
    ensures (n.valid && NoPop(d)) == (r.valid && NoPop(a + b + d))
    ensures (n.overrun && NoClearOverrun(d)) == (r.overrun && NoClearOverrun(a + b + d))
    ensures (n.frameError && NoClearFrame(d)) == (r.frameError && NoClearFrame(a + b + d))
  {
    OpsJoin(r, a, b);
    OpsJoin(r, a + b, d);
    hide NoPop, NoClearOverrun, NoClearFrame;
    assert AfterOps(AfterOps(r, a + b), d) == AfterOps(r, a + b + d);
  }

  /** The device's receiver is this one, fed by the synchroniser and the bus. */
  lemma DeviceReceives(p: UartParams, s: UartState, i: UartIn)
    requires p.clks >= 4 && !i.rst
    ensures UartNext(p, s, i).rx == RxRun(p.clks, s.rx, [RxIn(s.rxSync, RxOpsOf(p, s, i))])
    ensures UartNext(p, s, i).rxSync == s.rxMeta && UartNext(p, s, i).rxMeta == i.rxLine
  {
    hide RxStepped, RxOpsOf, TxNext, RspNext;
    var x := RxIn(s.rxSync, RxOpsOf(p, s, i));
    assert [x][0] == x && [x][1..] == [];
    assert RxRun(p.clks, s.rx, [x]) == RxRun(p.clks, RxStepped(p.clks, s.rx, x.sync, x.ops), []);
  }

  // ----- the register map, by bits

  /** STATUS: ready, busy, received, overrun and framing in bits 0 to 4; RXDATA: the byte,
      with bit 31 set when there is none; TXDATA reads back busy in bit 31. */
  lemma RegisterBits(p: UartParams, s: UartState)
    ensures var v := ReadData(p, s, StatusAddr(p));
      && v / 1 % 2 == (if s.tx.busy then 0 else 1) && v / 2 % 2 == (if s.tx.busy then 1 else 0)
      && v / 4 % 2 == (if s.rx.valid then 1 else 0) && v / 8 % 2 == (if s.rx.overrun then 1 else 0)
      && v / 16 % 2 == (if s.rx.frameError then 1 else 0) && v < 32
    ensures var v := ReadData(p, s, RxDataAddr(p));
      v / 0x8000_0000 == (if s.rx.valid then 0 else 1) && v % 0x8000_0000 == ByteValue(s.rx.data)
    ensures ReadData(p, s, TxDataAddr(p)) / 0x8000_0000 == (if s.tx.busy then 1 else 0)
  {
    UartOffsets(p.base);
    hide Add32, ByteValue;
  }

  lemma UartOffsets(base: Word)
    ensures base != Add32(base, 4) && base != Add32(base, 8) && Add32(base, 4) != Add32(base, 8)
  {
  }

  /** Writing STATUS clears exactly the sticky flags whose bits 3 and 4 are set, reading
      RXDATA pops exactly when a byte is held, and nothing else software does reaches the
      receiver. */
  lemma SoftwareReaches(p: UartParams, s: UartState, i: UartIn)
    requires UartFire(p, s, i) && Aligned4(p.base)
    ensures var (o, offset) := (RxOpsOf(p, s, i), (i.req.addr - p.base) % TWO32);
      var small := i.req.wstrb == 1 || i.req.wstrb == 3 || i.req.wstrb == 15;
      && o.pop == (offset == 4 && !i.req.write && i.req.wstrb == 0 && s.rx.valid)
      && o.clearOverrun == (offset == 8 && i.req.write && small && i.req.wdata / 8 % 2 == 1)
      && o.clearFrame == (offset == 8 && i.req.write && small && i.req.wdata / 16 % 2 == 1)
  {
    UartOffset(p.base, i.req.addr);
    UartOffsets(p.base);
    hide Add32, UartReady;
  }

  /** The legal accesses: TXDATA and STATUS read as words and written from lane 0 by any
      store width, RXDATA and BAUDDIV read as words; every other access is answered with
      an error, one cycle after it is accepted. */
  lemma UartFaults(p: UartParams, s: UartState, i: UartIn)
    requires UartFire(p, s, i) && Aligned4(p.base)
    ensures var offset := (i.req.addr - p.base) % TWO32;
      var isRead := !i.req.write && i.req.wstrb == 0;
      var isWrite := i.req.write && (i.req.wstrb == 1 || i.req.wstrb == 3 || i.req.wstrb == 15);
      && RspNext(p, s, i).valid
      && (RspNext(p, s, i).err <==>
            !((isRead && (offset == 0 || offset == 4 || offset == 8 || offset == 12)) || (isWrite && (offset == 0 || offset == 8))))
  {
    UartOffset(p.base, i.req.addr);
    UartOffsets(p.base);
    hide Add32, UartReady, ReadData;
  }

  lemma UartOffset(base: Word, addr: Word)
    ensures (addr == base <==> (addr - base) % TWO32 == 0) && (addr == Add32(base, 4) <==> (addr - base) % TWO32 == 4)
    ensures (addr == Add32(base, 8) <==> (addr - base) % TWO32 == 8) && (addr == Add32(base, 12) <==> (addr - base) % TWO32 == 12)
    ensures Aligned4(base) && (addr - base) % TWO32 % 4 == 0 ==> Aligned4(addr)
  {
  }

  // ----- loopback

  /** The UART with its output wired to its input, and the bytes that went through:
      accepted for sending and popped by software.  `age` counts cycles since the last
      accepted byte entered the shift register. */
  datatype Loop = Loop(u: UartState, sent: seq<Byte>, popped: seq<Byte>, current: Byte, age: nat)

  datatype LoopIn = LoopIn(reqValid: bool, req: MemReq)

  function InOf(l: Loop, i: LoopIn): UartIn { UartIn(false, i.reqValid, i.req, TxLine(l.u, false)) }

  function LoopReset(p: UartParams): Loop { Loop(UART_RESET, [], [], ZERO_BYTE, 10 * p.clks + 2) }

  function LoopNext(p: UartParams, l: Loop, i: LoopIn): Loop
    requires p.clks >= 4
  {
    var w := InOf(l, i);
    var accept := TxAccept(p, l.u, w);
    Loop(UartNext(p, l.u, w),
         if accept then l.sent + [ByteBits(i.req.wdata)] else l.sent,
         if RxPop(p, l.u, w) then l.popped + [l.u.rx.data] else l.popped,
         if accept then ByteBits(i.req.wdata) else l.current,
         if accept then 0 else l.age + 1)
  }

  /** Software pops a held byte no later than the cycle in which the next one completes. */
  predicate Timely(p: UartParams, l: Loop, i: LoopIn) {
    RxCompletes(l.u) ==> !l.u.rx.valid || RxPop(p, l.u, InOf(l, i))
  }

  /** The line `x` cycles into the frame of `b`. */
  function LineAt(c: nat, b: Byte, x: nat): bool
    requires c >= 4
  {
    if x < 10 * c then FrameBit(b, x / c) else true
  }

  function FrameBit(b: Byte, k: nat): bool { if k < 10 then FrameOf(b)[k] else true }

  /** The byte still on its way to the holding register. */
  function OnWire(c: nat, l: Loop): seq<Byte> {
    if l.age <= c / 2 + 9 * c + 2 then [l.current] else []
  }

  function Held(l: Loop): seq<Byte> { if l.u.rx.valid then [l.u.rx.data] else [] }

  predicate TxInv(c: nat, l: Loop) {
    var u := l.u;
    if l.age < 10 * c then
      && u.tx.busy && u.tx.bit <= 9 && u.tx.count < c && l.age == u.tx.bit * c + (c - 1 - u.tx.count)
      && forall k :: 0 <= k < 10 - u.tx.bit ==> u.tx.shift[k] == FrameOf(l.current)[u.tx.bit + k]
    else !u.tx.busy
  }

  predicate SyncInv(c: nat, l: Loop)
    requires c >= 4
  {
    && l.u.rxMeta == (if l.age >= 1 then LineAt(c, l.current, l.age - 1) else true)
    && l.u.rxSync == (if l.age >= 2 then LineAt(c, l.current, l.age - 2) else true)
  }

  /** The receiver's state as a function of how far the frame has got. */
  predicate RxInv(c: nat, l: Loop) {
    var u, h := l.u, c / 2;
    match u.rx.phase
    case RxIdle => l.age <= 2 || l.age > h + 9 * c + 2
    case RxStart => 3 <= l.age && u.rx.count < c && l.age + u.rx.count == h + 2
    case RxData =>
      && u.rx.bit <= 7 && u.rx.count < c
      && l.age + u.rx.count == h + 2 + u.rx.bit * c + c
      && forall k :: 0 <= k < u.rx.bit ==> u.rx.shift[k] == l.current[k]
    case RxStop =>
      u.rx.count < c && l.age + u.rx.count == h + 2 + 9 * c && u.rx.shift == l.current
  }

  predicate LoopInv(p: UartParams, l: Loop)
    requires p.clks >= 4
  {
    && TxInv(p.clks, l) && SyncInv(p.clks, l) && RxInv(p.clks, l)
    && !l.u.rx.frameError && !l.u.rx.overrun
    && l.popped + Held(l) + OnWire(p.clks, l) == l.sent
  }

  lemma DivIs(q: nat, c: nat, r: nat)
    requires r < c
    ensures (q * c + r) / c == q
  {
    var d := (q * c + r) / c;
    assert (q * c + r) == d * c + (q * c + r) % c;
    if d < q { MulStep(d + 1, q, c); } else if d > q { MulStep(q + 1, d, c); }
  }

  lemma MulStep(a: nat, b: nat, c: nat)
    requires a <= b
    ensures a * c <= b * c
    ensures (a - 1) * c == a * c - c
  {
    assert (b - a) * c >= 0;
  }

  /** Mid-bit sampling: `c/2` cycles into frame bit `k`, the line carries bit `k`. */
  lemma Sample(c: nat, b: Byte, k: nat, r: nat)
    requires c >= 4 && k <= 9 && r < c
    ensures LineAt(c, b, k * c + r) == FrameOf(b)[k]
  {
    DivIs(k, c, r);
    MulStep(k + 1, 10, c);
    assert (k + 1) * c == k * c + c;
  }

  lemma IdleLine(c: nat, b: Byte, x: nat)
    requires c >= 4 && x >= 9 * c
    ensures LineAt(c, b, x)
  {
    if x < 10 * c { Sample(c, b, 9, x - 9 * c); }
  }

  /** The transmitter drives the line the frame prescribes. */
  lemma TxDrives(c: nat, l: Loop)
    requires c >= 4 && TxInv(c, l)
    ensures TxLine(l.u, false) == LineAt(c, l.current, l.age)
  {
    if l.age < 10 * c {
      Sample(c, l.current, l.u.tx.bit, c - 1 - l.u.tx.count);
      assert l.u.tx.shift[0] == FrameOf(l.current)[l.u.tx.bit + 0];
    }
  }

  lemma TxStep(p: UartParams, l: Loop, i: LoopIn)
    requires p.clks >= 4 && TxInv(p.clks, l)
    ensures TxInv(p.clks, LoopNext(p, l, i))
    ensures TxAccept(p, l.u, InOf(l, i)) ==> l.age >= 10 * p.clks
  {
    var c, u, t := p.clks, l.u, LoopNext(p, l, i);
    hide AccessValid, RxNext, RspNext, ByteBits, ReadShape, FrameOf;
    if TxAccept(p, u, InOf(l, i)) {
      AcceptIdle(p, u, InOf(l, i));
      assert 0 * c == 0;
    } else if u.tx.busy && u.tx.count == 0 {
      assert (u.tx.bit + 1) * c == u.tx.bit * c + c;
      if u.tx.bit == 9 {
        assert l.age == 10 * c - 1;
      } else {
        MulStep(u.tx.bit + 2, 10, c);
        assert (u.tx.bit + 2) * c == u.tx.bit * c + 2 * c;
      }
    }
  }

  lemma AcceptIdle(p: UartParams, u: UartState, i: UartIn)
    ensures TxAccept(p, u, i) ==> !u.tx.busy
  {
  }

  lemma SyncStep(p: UartParams, l: Loop, i: LoopIn)
    requires p.clks >= 4 && TxInv(p.clks, l) && SyncInv(p.clks, l)
    ensures SyncInv(p.clks, LoopNext(p, l, i))
  {
    TxDrives(p.clks, l);
    TxStep(p, l, i);
    if TxAccept(p, l.u, InOf(l, i)) {
      IdleLine(p.clks, l.current, l.age);
      IdleLine(p.clks, l.current, l.age - 1);
    }
    hide TxAccept, RxNext, TxNext, RspNext, LineAt, TxInv, RxPop, ByteBits, TxLine;
  }

  /** The receiver follows the frame: false starts never happen, each data sample is
      taken `c/2` cycles into its bit, and the stop sample is high. */
  lemma RxStep(p: UartParams, l: Loop, i: LoopIn)
    requires p.clks >= 4 && TxInv(p.clks, l) && SyncInv(p.clks, l) && RxInv(p.clks, l)
    requires TxAccept(p, l.u, InOf(l, i)) ==> l.age >= 10 * p.clks
    ensures RxInv(p.clks, LoopNext(p, l, i))
    ensures RxCompletes(l.u) ==> l.u.rxSync && l.u.rx.shift == l.current && l.age == p.clks / 2 + 9 * p.clks + 2
  {
    var c, u := p.clks, l.u;
    var h := c / 2;
    match u.rx.phase {
      case RxIdle => IdleReceiver(p, l, i);
      case RxStart =>
        if u.rx.count == 0 {
          Sample(c, l.current, 0, h);
          assert 0 * c == 0;
        }
        hide LineAt, TxAccept, RxPop, StatusWrite, TxInv, ByteBits, RspNext, TxNext, TxLine;
      case RxData => DataReceiver(p, l, i);
      case RxStop =>
        if u.rx.count == 0 {
          assert l.age - 2 == 9 * c + h;
          Sample(c, l.current, 9, h);
        }
        hide LineAt, TxAccept, RxPop, StatusWrite, TxInv, ByteBits, RspNext, TxNext, TxLine;
    }
  }

  lemma IdleReceiver(p: UartParams, l: Loop, i: LoopIn)
    requires p.clks >= 4 && SyncInv(p.clks, l) && RxInv(p.clks, l) && l.u.rx.phase.RxIdle?
    requires TxAccept(p, l.u, InOf(l, i)) ==> l.age >= 10 * p.clks
    ensures RxInv(p.clks, LoopNext(p, l, i))
  {
    var c := p.clks;
    if l.age == 2 {
      Sample(c, l.current, 0, 0);
      assert 0 * c + 0 == 0;
    } else if l.age > 2 {
      IdleLine(c, l.current, l.age - 2);
    }
    hide LineAt, TxAccept, RxPop, StatusWrite, ByteBits, RspNext, TxNext, TxLine;
  }

  lemma DataReceiver(p: UartParams, l: Loop, i: LoopIn)
    requires p.clks >= 4 && SyncInv(p.clks, l) && RxInv(p.clks, l) && l.u.rx.phase.RxData?
    requires TxAccept(p, l.u, InOf(l, i)) ==> l.age >= 10 * p.clks
    ensures RxInv(p.clks, LoopNext(p, l, i))
  {
    var c, u := p.clks, l.u;
    var t := LoopNext(p, l, i);
    ReceiverNext(p, l, i);
    MulStep(u.rx.bit + 1, 8, c);
    assert (u.rx.bit + 1) * c == u.rx.bit * c + c;
    if u.rx.count == 0 {
      Sample(c, l.current, u.rx.bit + 1, c / 2);
      assert u.rxSync == l.current[u.rx.bit];
    }
    hide LineAt, LoopNext, FrameOf, SyncInv, TxAccept;
    if u.rx.count == 0 && u.rx.bit == 7 { AllEight(t.u.rx.shift, l.current); }
  }

  lemma ReceiverNext(p: UartParams, l: Loop, i: LoopIn)
    requires p.clks >= 4 && l.u.rx.phase.RxData? && l.u.rx.bit <= 7
    ensures var u, t := l.u, LoopNext(p, l, i);
      && (!TxAccept(p, u, InOf(l, i)) ==> t.age == l.age + 1 && t.current == l.current)
      && t.u.rx.count == (if u.rx.count != 0 then u.rx.count - 1 else p.clks - 1)
      && t.u.rx.shift == (if u.rx.count == 0 then u.rx.shift[u.rx.bit := u.rxSync] else u.rx.shift)
      && t.u.rx.bit == (if u.rx.count == 0 && u.rx.bit < 7 then u.rx.bit + 1 else u.rx.bit)
      && t.u.rx.phase == (if u.rx.count == 0 && u.rx.bit == 7 then RxStop else RxData)
  {
    hide TxAccept, RxPop, StatusWrite, ByteBits, RspNext, TxNext, TxLine;
  }

  lemma AllEight(a: Byte, b: Byte)
    requires forall k :: 0 <= k < 8 ==> a[k] == b[k]
    ensures a == b
  {
  }

  /** Round trip, one cycle: bytes move from the wire to the holding register to
      software in order, without loss, repetition or error. */
  lemma LoopStep(p: UartParams, l: Loop, i: LoopIn)
    requires p.clks >= 4 && LoopInv(p, l) && Timely(p, l, i)
    ensures LoopInv(p, LoopNext(p, l, i))
  {
    TxStep(p, l, i);
    SyncStep(p, l, i);
    RxStep(p, l, i);
    CompletesWhen(p, l);
    HeldStep(p, l, i);
    hide TxInv, SyncInv, RxInv, LineAt, RxPop, UartNext, TxAccept, ByteBits, InOf, Timely, RxCompletes, Held;
  }

  lemma CompletesWhen(p: UartParams, l: Loop)
    requires p.clks >= 4 && RxInv(p.clks, l)
    ensures l.age == p.clks / 2 + 9 * p.clks + 2 ==> RxCompletes(l.u)
  {
    var k := l.u.rx.bit;
    if l.u.rx.phase.RxData? {
      MulStep(k + 1, 8, p.clks);
      assert (k + 1) * p.clks == k * p.clks + p.clks;
    }
  }

  /** The holding register and the sticky flags after one cycle without overrun. */
  lemma HoldingRegister(p: UartParams, u: UartState, w: UartIn)
    requires p.clks >= 4 && !w.rst && !u.rx.frameError && !u.rx.overrun
    requires RxCompletes(u) ==> u.rxSync && (!u.rx.valid || RxPop(p, u, w))
    ensures var t := UartNext(p, u, w);
      && !t.rx.frameError && !t.rx.overrun
      && t.rx.valid == (RxCompletes(u) || (u.rx.valid && !RxPop(p, u, w)))
      && t.rx.data == (if RxCompletes(u) then u.rx.shift else u.rx.data)
  {
    hide TxAccept, RxPop, StatusWrite, RspNext, TxNext;
  }

  lemma HeldStep(p: UartParams, l: Loop, i: LoopIn)
    requires p.clks >= 4 && Timely(p, l, i) && (RxCompletes(l.u) ==> l.u.rx.shift == l.current && l.u.rxSync)
    requires !l.u.rx.frameError && !l.u.rx.overrun
    ensures var t := LoopNext(p, l, i);
      && t.popped + Held(t) == l.popped + Held(l) + (if RxCompletes(l.u) then [l.current] else [])
      && !t.u.rx.frameError && !t.u.rx.overrun
  {
    PopNeedsByte(p, l.u, InOf(l, i));
    HoldingRegister(p, l.u, InOf(l, i));
    hide TxAccept, RxPop, ByteBits, UartNext, RxCompletes;
  }

  lemma PopNeedsByte(p: UartParams, u: UartState, i: UartIn)
    ensures RxPop(p, u, i) ==> u.rx.valid
  {
  }

  /** What is on the line `x` cycles into a frame: low for a bit time, then the stored
      value's bits 0 to 7, least significant first, then high. */
  lemma WireCarries(c: nat, l: Loop, w: Word, k: nat)
    requires c >= 4 && TxInv(c, l) && l.current == ByteBits(w)
    requires k < 10 && k * c <= l.age < k * c + c && l.age < 10 * c
    ensures TxLine(l.u, false) == WireBit(w, k)
  {
    hide ByteBits, Pow2, TxLine, LineAt;
    TxDrives(c, l);
    SameBitTime(l.u.tx.bit, k, c, c - 1 - l.u.tx.count, l.age);
    Sample(c, l.current, k, l.age - k * c);
    if 1 <= k <= 8 { BitOfByte(w, k - 1); }
  }

  lemma SameBitTime(b: nat, k: nat, c: nat, r: nat, age: nat)
    requires r < c && age == b * c + r && k * c <= age < k * c + c
    ensures b == k
  {
    DivIs(b, c, r);
    DivIs(k, c, age - k * c);
  }

  function WireBit(w: Word, k: nat): bool {
    if k == 0 then false else if k >= 9 then true else w / Pow2(k - 1) % 2 == 1
  }

  lemma BitOfByte(w: Word, k: nat)
    requires k < 8
    ensures ByteBits(w)[k] == (w / Pow2(k) % 2 == 1)
  {
    assert Pow2(1) == 2 && Pow2(2) == 4 && Pow2(3) == 8;
    assert Pow2(4) == 16 && Pow2(5) == 32;
    assert Pow2(6) == 64 && Pow2(7) == 128;
    HalvesOf(w);
  }

  lemma HalvesOf(w: nat)
    ensures w / 2 / 2 == w / 4 && w / 2 / 2 / 2 == w / 8 && w / 8 / 2 == w / 16 && w / 8 / 2 / 2 == w / 32
    ensures w / 8 / 2 / 2 / 2 == w / 64 && w / 8 / 2 / 2 / 2 / 2 == w / 128
  {
  }

  // ----- whole runs

  function LoopEnd(p: UartParams, l: Loop, ins: seq<LoopIn>): Loop
    requires p.clks >= 4
    decreases |ins|
  {
    if ins == [] then l else LoopEnd(p, LoopNext(p, l, ins[0]), ins[1..])
  }

  predicate TimelyRun(p: UartParams, l: Loop, ins: seq<LoopIn>)
    requires p.clks >= 4
    decreases |ins|
  {
    ins == [] || (Timely(p, l, ins[0]) && TimelyRun(p, LoopNext(p, l, ins[0]), ins[1..]))
  }

  lemma {:induction false} LoopRun(p: UartParams, l: Loop, ins: seq<LoopIn>)
    requires p.clks >= 4 && LoopInv(p, l) && TimelyRun(p, l, ins)
    ensures LoopInv(p, LoopEnd(p, l, ins))
    decreases |ins|
  {
    if ins != [] {
      LoopStep(p, l, ins[0]);
      hide LoopInv, LoopNext, Timely;
      LoopRun(p, LoopNext(p, l, ins[0]), ins[1..]);
    }
  }

  lemma ResetLoop(p: UartParams)
    requires p.clks >= 4
    ensures LoopInv(p, LoopReset(p))
  {
    IdleLine(p.clks, ZERO_BYTE, 10 * p.clks + 1);
    IdleLine(p.clks, ZERO_BYTE, 10 * p.clks);
  }

  /** For every clock ratio of at least four, every sequence of bytes and every idle gap,
      what software pops, then what is held, then what is on the wire, is what was sent;
      no error flag ever rises; and a byte has arrived once its frame is sampled. */
  lemma SerialRoundTrip(p: UartParams, ins: seq<LoopIn>)
    requires p.clks >= 4 && TimelyRun(p, LoopReset(p), ins)
    ensures var l := LoopEnd(p, LoopReset(p), ins);
      && l.popped + Held(l) + OnWire(p.clks, l) == l.sent
      && !l.u.rx.frameError && !l.u.rx.overrun
      && (l.age > p.clks / 2 + 9 * p.clks + 2 ==> l.popped + Held(l) == l.sent)
  {
    ResetLoop(p);
    LoopRun(p, LoopReset(p), ins);
    var l := LoopEnd(p, LoopReset(p), ins);
    assert l.popped + Held(l) + [] == l.popped + Held(l);
  }

  // ----- what software writes and reads

  function Values(bs: seq<Byte>): (v: seq<Word>)
    ensures |v| == |bs|
  {
    seq(|bs|, k requires 0 <= k < |bs| => ByteValue(bs[k]))
  }

  lemma ValuesJoin(a: seq<Byte>, b: seq<Byte>)
    ensures Values(a + b) == Values(a) + Values(b)
  {
  }

  /** The bytes software stores to TXDATA over a run. */
  function Written(p: UartParams, l: Loop, ins: seq<LoopIn>): seq<Word>
    requires p.clks >= 4
    decreases |ins|
  {
    if ins == [] then []
    else (if TxAccept(p, l.u, InOf(l, ins[0])) then [ins[0].req.wdata % 256] else []) + Written(p, LoopNext(p, l, ins[0]), ins[1..])
  }

  /** The words software gets from RXDATA over a run, apart from reads of an empty register. */
  function Got(p: UartParams, l: Loop, ins: seq<LoopIn>): seq<Word>
    requires p.clks >= 4
    decreases |ins|
  {
    if ins == [] then []
    else (if RxPop(p, l.u, InOf(l, ins[0])) then [RspNext(p, l.u, InOf(l, ins[0])).rdata] else [])
         + Got(p, LoopNext(p, l, ins[0]), ins[1..])
  }

  lemma PoppedWord(p: UartParams, u: UartState, i: UartIn)
    requires RxPop(p, u, i)
    ensures RspNext(p, u, i) == MemRsp(true, ByteValue(u.rx.data), false)
  {
    assert TxDataAddr(p) != RxDataAddr(p);
  }

  lemma {:induction false} Ledger(p: UartParams, l: Loop, ins: seq<LoopIn>)
    requires p.clks >= 4
    ensures Values(LoopEnd(p, l, ins).sent) == Values(l.sent) + Written(p, l, ins)
    ensures Values(LoopEnd(p, l, ins).popped) == Values(l.popped) + Got(p, l, ins)
    decreases |ins|
  {
    if ins == [] {
      assert Values(l.sent) + [] == Values(l.sent);
      assert Values(l.popped) + [] == Values(l.popped);
    } else {
      var w, t := InOf(l, ins[0]), LoopNext(p, l, ins[0]);
      Ledger(p, t, ins[1..]);
      if TxAccept(p, l.u, w) { ByteRoundTrip(ins[0].req.wdata); }
      if RxPop(p, l.u, w) { PoppedWord(p, l.u, w); }
      hide TxAccept, RxPop, UartNext, ByteBits, ByteValue, RspNext, InOf, Values;
      LedgerStep(l.sent, t.sent, ByteBits(ins[0].req.wdata), TxAccept(p, l.u, w), Written(p, t, ins[1..]));
      LedgerStep(l.popped, t.popped, l.u.rx.data, RxPop(p, l.u, w), Got(p, t, ins[1..]));
    }
  }

  lemma LedgerStep(before: seq<Byte>, after: seq<Byte>, b: Byte, moved: bool, rest: seq<Word>)
    requires after == if moved then before + [b] else before
    ensures Values(after) + rest == Values(before) + ((if moved then [ByteValue(b)] else []) + rest)
  {
    if moved {
      ValuesJoin(before, [b]);
      assert Values([b]) == [ByteValue(b)];
    }
    hide Values, ByteValue;
  }

  /** At the bus: the words read are, in order, the low bytes of the words written; what
      is missing is what still sits in the holding register or on the wire. */
  lemma ReadsWhatWasWritten(p: UartParams, ins: seq<LoopIn>)
    requires p.clks >= 4 && TimelyRun(p, LoopReset(p), ins)
    ensures var l := LoopEnd(p, LoopReset(p), ins);
      Got(p, LoopReset(p), ins) + Values(Held(l)) + Values(OnWire(p.clks, l)) == Written(p, LoopReset(p), ins)
  {
    var l := LoopEnd(p, LoopReset(p), ins);
    SerialRoundTrip(p, ins);
    Ledger(p, LoopReset(p), ins);
    ValuesJoin(l.popped + Held(l), OnWire(p.clks, l));
    ValuesJoin(l.popped, Held(l));
    assert Values([]) + Got(p, LoopReset(p), ins) == Got(p, LoopReset(p), ins);
    assert Values([]) + Written(p, LoopReset(p), ins) == Written(p, LoopReset(p), ins);
  }
}
