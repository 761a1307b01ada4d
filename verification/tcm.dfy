/** Tightly coupled memory (rtl/soc/rv32_tcm.sv) and the byte memory that it and
    the load/store unit implement together. */
module Tcm {
  import opened Rv32Types
  import opened Lsu

  const TWO33 := 0x2_0000_0000
  type Octet = x: int | 0 <= x < 256

  /** Byte offset of an address from the base, in 33 bits. */
  function Offset33(addr: Word, base: Word): nat { (addr - base) % TWO33 }

  predicate InRange(words: nat, base: Word, addr: Word) {
    Offset33(addr, base) < 4 * words && Aligned4(addr)
  }

  function ByteOf(w: Word, k: nat): Octet
    requires k < 4
  {
    w / LaneWeight(k) % 256
  }

  function FromBytes(b0: Octet, b1: Octet, b2: Octet, b3: Octet): Word {
    b0 as int + 0x100 * b1 as int + 0x1_0000 * b2 as int + 0x100_0000 * b3 as int
  }

  predicate Lane(s: Strobe, k: nat)
    requires k < 4
  {
    (if k == 0 then s else if k == 1 then s / 2 else if k == 2 then s / 4 else s / 8) % 2 == 1
  }

  /** A word after a strobed write: each lane is written on its own. */
  function Merge(old_word: Word, data: Word, s: Strobe): Word {
    FromBytes(if Lane(s, 0) then ByteOf(data, 0) else ByteOf(old_word, 0),
              if Lane(s, 1) then ByteOf(data, 1) else ByteOf(old_word, 1),
              if Lane(s, 2) then ByteOf(data, 2) else ByteOf(old_word, 2),
              if Lane(s, 3) then ByteOf(data, 3) else ByteOf(old_word, 3))
  }

  /** Memory contents after one data-port request. */
  function MemAfter(mem: seq<Word>, base: Word, r: MemReq): (after: seq<Word>)
    ensures |after| == |mem|
  {
    if InRange(|mem|, base, r.addr) && r.write then
      var k := Offset33(r.addr, base) / 4;
      mem[k := Merge(mem[k], r.wdata, r.wstrb)]
    else mem
  }

  /** The registered response: the old word, or an error outside the range. */
  function RspAfter(mem: seq<Word>, base: Word, valid: bool, r: MemReq): MemRsp {
    if !valid then MemRsp(false, 0, false)
    else if InRange(|mem|, base, r.addr) then MemRsp(true, mem[Offset33(r.addr, base) / 4], false)
    else MemRsp(true, 0, true)
  }

  /** Instruction port: reads only. */
  function FetchRspAfter(mem: seq<Word>, base: Word, valid: bool, r: MemReq): MemRsp {
    if !valid then MemRsp(false, 0, false)
    else if InRange(|mem|, base, r.addr) && !r.write && r.wstrb == 0 then
      MemRsp(true, mem[Offset33(r.addr, base) / 4], false)
    else MemRsp(true, 0, true)
  }

  /** Dual-port block RAM with registered responses, always ready. */
  class Memory {
    const base: Word
    const mem: array<Word>
    var imemRsp: MemRsp
    var dmemRsp: MemRsp

    constructor (base: Word, words: nat)
      ensures this.base == base && mem.Length == words && fresh(mem)
      ensures !imemRsp.valid && !dmemRsp.valid
    {
      this.base := base;
      mem := new Word[words];
      imemRsp, dmemRsp := MemRsp(false, 0, false), MemRsp(false, 0, false);
    }

    /** Both ports at one clock edge; the data port reads before it writes. */
    method Tick(imemValid: bool, imem: MemReq, dmemValid: bool, dmem: MemReq)
      modifies this, mem
      ensures imemRsp == FetchRspAfter(old(mem[..]), base, imemValid, imem)
      ensures dmemRsp == RspAfter(old(mem[..]), base, dmemValid, dmem)
      ensures mem[..] == if dmemValid then MemAfter(old(mem[..]), base, dmem) else old(mem[..])
    {
      hide Merge, Offset33;
      imemRsp := MemRsp(imemValid, 0, false);
      if imemValid {
        if InRange(mem.Length, base, imem.addr) && !imem.write && imem.wstrb == 0 {
          imemRsp := MemRsp(true, mem[Offset33(imem.addr, base) / 4], false);
        } else {
          imemRsp := MemRsp(true, 0, true);
        }
      }
      dmemRsp := MemRsp(dmemValid, 0, false);
      if dmemValid {
        if InRange(mem.Length, base, dmem.addr) {
          var k := Offset33(dmem.addr, base) / 4;
          dmemRsp := MemRsp(true, mem[k], false);
          if dmem.write {
            mem[k] := Merge(mem[k], dmem.wdata, dmem.wstrb);
          }
        } else {
          dmemRsp := MemRsp(true, 0, true);
        }
      }
    }
  }

  // ----- the byte memory

  /** The memory as bytes, little-endian within words. */
  function Bytes(mem: seq<Word>): (b: seq<Octet>)
    ensures |b| == 4 * |mem|
  {
    seq(4 * |mem|, j requires 0 <= j < 4 * |mem| => ByteOf(mem[j / 4], j % 4))
  }

  datatype Access =
    | Load(size: MemSize, loadUnsigned: bool, addr: Word)
    | Store(size: MemSize, addr: Word, data: Word)

  datatype Outcome = Loaded(value: Word) | Stored | Faulted(exc: Exc)

  /** Two's-complement extension of an `n`-byte value. */
  function Extend(v: nat, size: MemSize, loadUnsigned: bool): Word
    requires size.MemByte? ==> v < 0x100
    requires size.MemHalf? ==> v < 0x1_0000
    requires v < TWO32
  {
    match size
    case MemByte => if loadUnsigned || v < 0x80 then v else v + TWO32 - 0x100
    case MemHalf => if loadUnsigned || v < 0x8000 then v else v + TWO32 - 0x1_0000
    case MemWord => v
  }

  /** Little-endian value of `n` bytes at `k`. */
  function LittleEndian(b: seq<Octet>, k: nat, n: nat): nat
    requires k + n <= |b|
    decreases n
  {
    if n == 0 then 0 else b[k] as int + 256 * LittleEndian(b, k + 1, n - 1)
  }

  /** The low `n` bytes of `data` written at `k`. */
  function WriteBytes(b: seq<Octet>, k: nat, n: nat, data: nat): (r: seq<Octet>)
    requires k + n <= |b|
    ensures |r| == |b|
    decreases n
  {
    if n == 0 then b else WriteBytes(b[k := data % 256], k + 1, n - 1, data / 256)
  }

  lemma {:induction false} LittleEndianBound(b: seq<Octet>, k: nat, n: nat)
    requires k + n <= |b|
    ensures n == 1 ==> LittleEndian(b, k, n) < 0x100
    ensures n == 2 ==> LittleEndian(b, k, n) < 0x1_0000
    ensures n == 4 ==> LittleEndian(b, k, n) < TWO32
  {
    if n == 2 {
      assert LittleEndian(b, k, 2) == b[k] as int + 256 * LittleEndian(b, k + 1, 1);
    } else if n == 4 {
      assert LittleEndian(b, k, 4) == b[k] as int + 256 * LittleEndian(b, k + 1, 3);
      assert LittleEndian(b, k + 1, 3) == b[k + 1] as int + 256 * LittleEndian(b, k + 2, 2);
      assert LittleEndian(b, k + 2, 2) == b[k + 2] as int + 256 * LittleEndian(b, k + 3, 1);
    }
  }

  /** One access of a byte-addressed memory starting at `base`: an address that is not a
      multiple of the size faults with cause 4 (load) or 6 (store), one outside the memory
      with cause 5 or 7, and the fault carries the address. */
  function ByteStep(b: seq<Octet>, base: Word, a: Access): (seq<Octet>, Outcome) {
    if a.addr % SizeOf(a.size) != 0 then (b, Faulted(SyncExc(if a.Load? then 4 else 6, a.addr)))
    else if !(base <= a.addr && a.addr - base + SizeOf(a.size) <= |b|) then
      (b, Faulted(SyncExc(if a.Load? then 5 else 7, a.addr)))
    else
      var k := a.addr - base;
      match a
      case Load(size, u, _) =>
        LittleEndianBound(b, k, SizeOf(size));
        (b, Loaded(Extend(LittleEndian(b, k, SizeOf(size)), size, u)))
      case Store(size, _, data) => (WriteBytes(b, k, SizeOf(size), data), Stored)
  }

  /** The same access through the LSU's lanes and the TCM's strobed words. */
  function WordStep(mem: seq<Word>, base: Word, a: Access): (seq<Word>, Outcome) {
    var cmd := if a.Load? then MemLoad else MemStore;
    if Misaligned(a.size, a.addr) then (mem, Faulted(MisalignedExc(cmd, a.addr)))
    else
      var data := if a.Store? then a.data else 0;
      var req := BusRequest(cmd, a.addr, StoreStrobe(a.size, a.addr), StoreLanes(a.size, a.addr, data));
      var rsp := RspAfter(mem, base, true, req);
      var exc := AccessExc(cmd, a.addr, rsp.err);
      (MemAfter(mem, base, req),
       if exc.valid then Faulted(exc)
       else if a.Load? then Loaded(LoadResult(cmd, a.addr, a.size, a.loadUnsigned, rsp.rdata, rsp.err))
       else Stored)
  }

  lemma FromBytesBack(b0: Octet, b1: Octet, b2: Octet, b3: Octet)
    ensures ByteOf(FromBytes(b0, b1, b2, b3), 0) == b0 && ByteOf(FromBytes(b0, b1, b2, b3), 1) == b1
    ensures ByteOf(FromBytes(b0, b1, b2, b3), 2) == b2 && ByteOf(FromBytes(b0, b1, b2, b3), 3) == b3
  {
    var w := FromBytes(b0, b1, b2, b3);
    assert w / 0x100 == b1 as int + 0x100 * b2 as int + 0x1_0000 * b3 as int;
    assert w / 0x1_0000 == b2 as int + 0x100 * b3 as int;
    assert w / 0x100_0000 == b3;
  }

  lemma MergeBytes(o: Word, d: Word, s: Strobe, k: nat)
    requires k < 4
    ensures ByteOf(Merge(o, d, s), k) == if Lane(s, k) then ByteOf(d, k) else ByteOf(o, k)
  {
    hide ByteOf, Lane, FromBytes;
    FromBytesBack(if Lane(s, 0) then ByteOf(d, 0) else ByteOf(o, 0),
                  if Lane(s, 1) then ByteOf(d, 1) else ByteOf(o, 1),
                  if Lane(s, 2) then ByteOf(d, 2) else ByteOf(o, 2),
                  if Lane(s, 3) then ByteOf(d, 3) else ByteOf(o, 3));
    assert k == 0 || k == 1 || k == 2 || k == 3;
  }

  /** The strobed lanes are the accessed bytes, and carry the data in order. */
  lemma LanesCarry(size: MemSize, addr: Word, data: Word, k: nat)
    requires k < 4 && !Misaligned(size, addr)
    ensures var o := addr % 4;
      && (Lane(StoreStrobe(size, addr), k) <==> o <= k < o + SizeOf(size))
      && (o <= k < o + SizeOf(size) ==> ByteOf(StoreLanes(size, addr, data), k) == ByteOf(data, k - o))
  {
    var o := addr % 4;
    match size {
      case MemByte => ShiftedByte(data % 0x100, o);
      case MemHalf => ShiftedHalf(data, o);
      case MemWord =>
    }
  }

  lemma ShiftedByte(b: nat, o: nat)
    requires b < 256 && o < 4
    ensures b * LaneWeight(o) < TWO32 && ByteOf(b * LaneWeight(o), o) == b
  {
  }

  lemma ShiftedHalf(d: Word, o: nat)
    requires o == 0 || o == 2
    ensures d % 0x1_0000 * LaneWeight(o) < TWO32
    ensures ByteOf(d % 0x1_0000 * LaneWeight(o), o) == ByteOf(d, 0)
    ensures ByteOf(d % 0x1_0000 * LaneWeight(o), o + 1) == ByteOf(d, 1)
  {
    var h := d % 0x1_0000;
    assert h % 0x100 == d % 0x100;
    assert h / 0x100 == d / 0x100 % 0x100;
    if o == 2 {
      assert h * 0x1_0000 / 0x1_0000 == h;
      assert h * 0x1_0000 / 0x100_0000 == h / 0x100;
    }
  }

  /** Byte `i` of a value, by repeated division. */
  function DataByte(data: nat, i: nat): nat {
    if i == 0 then data % 256 else DataByte(data / 256, i - 1)
  }

  lemma DataByteIs(data: Word, i: nat)
    requires i < 4
    ensures DataByte(data, i) == ByteOf(data, i)
  {
    assert data / 256 / 256 == data / 0x1_0000;
    assert data / 256 / 256 / 256 == data / 0x100_0000;
    if i == 1 { assert DataByte(data, 1) == DataByte(data / 256, 0); }
    else if i == 2 { assert DataByte(data, 2) == DataByte(data / 256, 1) == DataByte(data / 256 / 256, 0); }
    else if i == 3 {
      assert DataByte(data, 3) == DataByte(data / 256, 2) == DataByte(data / 256 / 256, 1)
          == DataByte(data / 256 / 256 / 256, 0);
    }
  }

  lemma {:induction false} WriteBytesAt(b: seq<Octet>, k: nat, n: nat, data: nat, j: nat)
    requires k + n <= |b| && j < |b|
    ensures WriteBytes(b, k, n, data)[j] == if k <= j < k + n then DataByte(data, j - k) else b[j]
    decreases n
  {
    if n != 0 {
      WriteBytesAt(b[k := data % 256], k + 1, n - 1, data / 256, j);
    }
  }

  /** A word is the little-endian value of its bytes. */
  lemma WordIsBytes(w: Word)
    ensures w == FromBytes(ByteOf(w, 0), ByteOf(w, 1), ByteOf(w, 2), ByteOf(w, 3))
    ensures w % 0x1_0000 == ByteOf(w, 0) as int + 256 * ByteOf(w, 1) as int
    ensures w / 0x1_0000 % 0x1_0000 == ByteOf(w, 2) as int + 256 * ByteOf(w, 3) as int
  {
    var (h1, h2, h3) := (w / 0x100, w / 0x1_0000, w / 0x100_0000);
    assert h1 == h2 * 0x100 + h1 % 0x100;
    assert h2 == h3 * 0x100 + h2 % 0x100;
  }

  lemma LittleEndianUnfolds(b: seq<Octet>, k: nat)
    ensures k + 1 <= |b| ==> LittleEndian(b, k, 1) == b[k]
    ensures k + 2 <= |b| ==> LittleEndian(b, k, 2) == b[k] as int + 256 * b[k + 1] as int
    ensures k + 4 <= |b| ==>
              LittleEndian(b, k, 4) ==
                b[k] as int + 256 * (b[k + 1] as int + 256 * (b[k + 2] as int + 256 * b[k + 3] as int))
  {
    if k + 4 <= |b| {
      assert LittleEndian(b, k, 4) == b[k] as int + 256 * LittleEndian(b, k + 1, 3);
      assert LittleEndian(b, k + 1, 3) == b[k + 1] as int + 256 * LittleEndian(b, k + 2, 2);
      assert LittleEndian(b, k + 2, 2) == b[k + 2] as int + 256 * LittleEndian(b, k + 3, 1);
    }
    if k + 2 <= |b| {
      assert LittleEndian(b, k, 2) == b[k] as int + 256 * LittleEndian(b, k + 1, 1);
    }
  }

  /** The TCM's word-level range check is the byte memory's bound. */
  lemma RangeAgrees(words: nat, base: Word, size: MemSize, addr: Word)
    requires Aligned4(base) && 4 * words <= TWO32 && !Misaligned(size, addr)
    ensures InRange(words, base, AlignDown4(addr)) <==> base <= addr && addr - base + SizeOf(size) <= 4 * words
    ensures base <= addr ==> Offset33(AlignDown4(addr), base) == addr - base - addr % 4 && (addr - base) % 4 == addr % 4
  {
    var a, aq, bq := AlignDown4(addr), addr / 4, base / 4;
    assert addr == 4 * aq + addr % 4 && base == 4 * bq && a == 4 * aq;
    OffsetIs(a, base);
    FitsInWord(size, addr);
    if base <= addr {
      assert addr - base == 4 * (aq - bq) + addr % 4;
      assert a >= base;
    }
    hide Offset33, Misaligned;
  }

  lemma OffsetIs(a: Word, base: Word)
    ensures Offset33(a, base) == if base <= a then a - base else a - base + TWO33
  {
    if a < base {
      assert (a - base) % TWO33 == (a - base + TWO33) % TWO33;
    }
  }

  lemma BytesAt(mem: seq<Word>, q: nat, r: nat)
    requires q < |mem| && r < 4
    ensures Bytes(mem)[4 * q + r] == ByteOf(mem[q], r)
  {
    assert (4 * q + r) / 4 == q && (4 * q + r) % 4 == r;
  }

  /** The accessed bytes of a word as one value. */
  function Gather(w: Word, r: nat, size: MemSize): Word
    requires r + SizeOf(size) <= 4
  {
    match size
    case MemByte => ByteOf(w, r)
    case MemHalf => ByteOf(w, r) as int + 256 * ByteOf(w, r + 1) as int
    case MemWord => w
  }

  lemma ExtractAgrees(w: Word, r: nat, size: MemSize, loadUnsigned: bool)
    requires r < 4 && !Misaligned(size, r)
    ensures size.MemHalf? ==> Gather(w, r, size) < 0x1_0000
    ensures ExtractLoad(w, r, size, loadUnsigned) == Extend(Gather(w, r, size), size, loadUnsigned)
    ensures size.MemWord? ==>
              w == ByteOf(w, 0) as int + 256 * (ByteOf(w, 1) as int + 256 * (ByteOf(w, 2) as int + 256 * ByteOf(w, 3) as int))
  {
    match size {
      case MemByte =>
      case MemHalf =>
        assert r == 0 || r == 2;
        HalfAt(w, r);
        hide ByteOf, LaneWeight;
      case MemWord =>
        assert r == 0 && w / LaneWeight(0) == w;
        WordIsBytes(w);
        hide ByteOf, LaneWeight;
    }
  }

  /** The little-endian bytes of an access inside one word are that word's gathered bytes. */
  lemma Gathers(mem: seq<Word>, q: nat, r: nat, size: MemSize)
    requires q < |mem| && r < 4 && !Misaligned(size, r) && r + SizeOf(size) <= 4
    ensures LittleEndian(Bytes(mem), 4 * q + r, SizeOf(size)) == Gather(mem[q], r, size)
  {
    hide ByteOf, Bytes;
    match size {
      case MemByte =>
        BytesAt(mem, q, r);
        LittleEndianUnfolds(Bytes(mem), 4 * q + r);
      case MemHalf =>
        GathersHalf(mem, q, r);
      case MemWord =>
        assert r == 0;
        GathersWord(mem, q);
    }
  }

  lemma GathersHalf(mem: seq<Word>, q: nat, r: nat)
    requires q < |mem| && r < 3
    ensures LittleEndian(Bytes(mem), 4 * q + r, 2) == ByteOf(mem[q], r) as int + 256 * ByteOf(mem[q], r + 1) as int
  {
    BytesAt(mem, q, r);
    BytesAt(mem, q, r + 1);
    LittleEndianUnfolds(Bytes(mem), 4 * q + r);
    hide Bytes, ByteOf, LittleEndian;
  }

  lemma GathersWord(mem: seq<Word>, q: nat)
    requires q < |mem|
    ensures LittleEndian(Bytes(mem), 4 * q, 4) == mem[q]
  {
    BytesAt(mem, q, 0);
    BytesAt(mem, q, 1);
    BytesAt(mem, q, 2);
    BytesAt(mem, q, 3);
    LittleEndianUnfolds(Bytes(mem), 4 * q);
    ExtractAgrees(mem[q], 0, MemWord, true);
    hide Bytes, ByteOf, LittleEndian, ExtractLoad, Extend;
  }

  /** A load through the lanes reads the little-endian bytes, extended. */
  lemma LoadAgrees(mem: seq<Word>, q: nat, r: nat, size: MemSize, loadUnsigned: bool)
    requires q < |mem| && r < 4 && !Misaligned(size, r) && r + SizeOf(size) <= 4
    ensures var v := LittleEndian(Bytes(mem), 4 * q + r, SizeOf(size));
      && v < TWO32 && (size.MemByte? ==> v < 0x100) && (size.MemHalf? ==> v < 0x1_0000)
      && ExtractLoad(mem[q], r, size, loadUnsigned) == Extend(v, size, loadUnsigned)
  {
    Gathers(mem, q, r, size);
    ExtractAgrees(mem[q], r, size, loadUnsigned);
    LittleEndianBound(Bytes(mem), 4 * q + r, SizeOf(size));
    hide Bytes, LittleEndian, ByteOf, ExtractLoad, Extend, Gather;
  }

  /** The half-word at offset 0 or 2 of a word. */
  lemma HalfAt(w: Word, r: nat)
    requires r == 0 || r == 2
    ensures w / LaneWeight(r) % 0x1_0000 == ByteOf(w, r) as int + 256 * ByteOf(w, r + 1) as int
  {
    WordIsBytes(w);
    hide ByteOf;
    if r == 0 { assert w / LaneWeight(0) == w; } else { assert w / LaneWeight(2) == w / 0x1_0000; }
  }

  /** A strobed word write changes exactly the accessed bytes. */
  lemma StoreAgrees(mem: seq<Word>, addr: Word, k: nat, size: MemSize, data: Word)
    requires k + SizeOf(size) <= 4 * |mem| && !Misaligned(size, addr) && k % 4 == addr % 4
    ensures Bytes(mem[k / 4 := Merge(mem[k / 4], StoreLanes(size, addr, data), StoreStrobe(size, addr))]) ==
            WriteBytes(Bytes(mem), k, SizeOf(size), data)
  {
    var o, q := k % 4, k / 4;
    var after := mem[q := Merge(mem[q], StoreLanes(size, addr, data), StoreStrobe(size, addr))];
    var written := WriteBytes(Bytes(mem), k, SizeOf(size), data);
    forall j: nat | j < 4 * |mem|
      ensures Bytes(after)[j] == written[j]
    {
      WriteBytesAt(Bytes(mem), k, SizeOf(size), data, j);
      StoredByte(mem, addr, k, size, data, j);
    }
  }

  lemma StoredByte(mem: seq<Word>, addr: Word, k: nat, size: MemSize, data: Word, j: nat)
    requires k + SizeOf(size) <= 4 * |mem| && !Misaligned(size, addr) && k % 4 == addr % 4 && j < 4 * |mem|
    ensures var after := mem[k / 4 := Merge(mem[k / 4], StoreLanes(size, addr, data), StoreStrobe(size, addr))];
      ByteOf(after[j / 4], j % 4) == if k <= j < k + SizeOf(size) then DataByte(data, j - k) else ByteOf(mem[j / 4], j % 4)
  {
    var o := k % 4;
    FitsInWord(size, addr);
    if j / 4 == k / 4 {
      MergeBytes(mem[k / 4], StoreLanes(size, addr, data), StoreStrobe(size, addr), j % 4);
      LanesCarry(size, addr, data, j % 4);
      if o <= j % 4 < o + SizeOf(size) { DataByteIs(data, j - k); }
    }
    hide ByteOf, Merge, StoreLanes, StoreStrobe, DataByte, Lane, Misaligned;
  }

  lemma FitsInWord(size: MemSize, addr: Word)
    requires !Misaligned(size, addr)
    ensures addr % 4 + SizeOf(size) <= 4
  {
  }

  /** Where an aligned, in-range access lands: word `q`, lane `r`. */
  predicate Lands(words: nat, base: Word, size: MemSize, addr: Word, q: nat, r: nat) {
    && q < words && r < 4 && r + SizeOf(size) <= 4 && !Misaligned(size, r) && !Misaligned(size, addr)
    && addr % SizeOf(size) == 0
    && base <= addr && addr - base == 4 * q + r && r == addr % 4
    && InRange(words, base, AlignDown4(addr)) && Offset33(AlignDown4(addr), base) / 4 == q
  }

  lemma LandsSomewhere(words: nat, base: Word, size: MemSize, addr: Word)
    requires Aligned4(base) && 4 * words <= TWO32 && !Misaligned(size, addr)
    requires base <= addr && addr - base + SizeOf(size) <= 4 * words
    ensures Lands(words, base, size, addr, (addr - base) / 4, (addr - base) % 4)
  {
    RangeAgrees(words, base, size, addr);
    AlignedSame(size, addr, addr % 4);
    FitsInWord(size, addr);
    MisalignedIff(size, addr);
    hide Misaligned, Offset33, SizeOf;
  }

  /** Where the lanes fault, so does the byte memory. */
  lemma FaultsAgree(mem: seq<Word>, base: Word, a: Access)
    requires Aligned4(base) && 4 * |mem| <= TWO32
    requires Misaligned(a.size, a.addr) || !(base <= a.addr && a.addr - base + SizeOf(a.size) <= 4 * |mem|)
    ensures WordStep(mem, base, a) == (mem, ByteStep(Bytes(mem), base, a).1)
    ensures ByteStep(Bytes(mem), base, a).0 == Bytes(mem)
  {
    MisalignedIff(a.size, a.addr);
    if !Misaligned(a.size, a.addr) { RangeAgrees(|mem|, base, a.size, a.addr); }
    hide Bytes, Misaligned, InRange, Aligned4, AlignDown4, StoreStrobe, StoreLanes, SizeOf;
  }

  lemma LoadRefines(mem: seq<Word>, base: Word, size: MemSize, u: bool, addr: Word, q: nat, r: nat)
    requires Lands(|mem|, base, size, addr, q, r)
    ensures WordStep(mem, base, Load(size, u, addr)) == (mem, ByteStep(Bytes(mem), base, Load(size, u, addr)).1)
  {
    LoadAgrees(mem, q, r, size, u);
    hide Bytes, StoreLanes, StoreStrobe, Misaligned, ExtractLoad, LittleEndian, Extend, Offset33, InRange, Aligned4, AlignDown4;
  }

  lemma StoreRefines(mem: seq<Word>, base: Word, size: MemSize, addr: Word, data: Word, q: nat, r: nat)
    requires Lands(|mem|, base, size, addr, q, r)
    ensures Bytes(WordStep(mem, base, Store(size, addr, data)).0) == ByteStep(Bytes(mem), base, Store(size, addr, data)).0
    ensures WordStep(mem, base, Store(size, addr, data)).1 == Stored
  {
    var k := addr - base;
    assert k / 4 == q && k % 4 == r;
    StoreAgrees(mem, addr, k, size, data);
    hide Bytes, Merge, StoreLanes, StoreStrobe, Misaligned, WriteBytes, Offset33, InRange, Aligned4, AlignDown4;
  }

  /** LSU lanes and TCM strobes together implement a byte-addressed little-endian memory. */
  lemma WordStepRefines(mem: seq<Word>, base: Word, a: Access)
    requires Aligned4(base) && 4 * |mem| <= TWO32
    ensures Bytes(WordStep(mem, base, a).0) == ByteStep(Bytes(mem), base, a).0
    ensures WordStep(mem, base, a).1 == ByteStep(Bytes(mem), base, a).1
  {
    if !Misaligned(a.size, a.addr) && base <= a.addr && a.addr - base + SizeOf(a.size) <= 4 * |mem| {
      LandsSomewhere(|mem|, base, a.size, a.addr);
      var q, r := (a.addr - base) / 4, (a.addr - base) % 4;
      hide Lands, Bytes, WordStep, Misaligned, WriteBytes, Extend, LittleEndian;
      match a {
        case Load(size, u, addr) => LoadRefines(mem, base, size, u, addr, q, r);
        case Store(size, addr, data) => StoreRefines(mem, base, size, addr, data, q, r);
      }
    } else {
      FaultsAgree(mem, base, a);
      hide Bytes, WordStep, ByteStep, Misaligned;
    }
  }

  lemma AlignedSame(size: MemSize, addr: Word, r: nat)
    requires r == addr % 4
    ensures Misaligned(size, r) == Misaligned(size, addr)
  {
    assert addr == 4 * (addr / 4) + r;
  }

  // ----- sequences of accesses

  function ByteRun(b: seq<Octet>, base: Word, accs: seq<Access>): (seq<Octet>, seq<Outcome>)
    decreases |accs|
  {
    if accs == [] then (b, [])
    else
      var (b1, o) := ByteStep(b, base, accs[0]);
      var (b2, os) := ByteRun(b1, base, accs[1..]);
      (b2, [o] + os)
  }

  function WordRun(mem: seq<Word>, base: Word, accs: seq<Access>): (seq<Word>, seq<Outcome>)
    decreases |accs|
  {
    if accs == [] then (mem, [])
    else
      var (m1, o) := WordStep(mem, base, accs[0]);
      var (m2, os) := WordRun(m1, base, accs[1..]);
      (m2, [o] + os)
  }

  lemma WordStepSize(mem: seq<Word>, base: Word, a: Access)
    ensures |WordStep(mem, base, a).0| == |mem|
  {
  }

  /** Over any sequence of byte, half-word and word accesses, aligned or not, in range or
      not: the same values, the same faults, the same bytes, and no change on a fault. */
  lemma {:induction false} ByteMemory(mem: seq<Word>, base: Word, accs: seq<Access>)
    requires Aligned4(base) && 4 * |mem| <= TWO32
    ensures Bytes(WordRun(mem, base, accs).0) == ByteRun(Bytes(mem), base, accs).0
    ensures WordRun(mem, base, accs).1 == ByteRun(Bytes(mem), base, accs).1
    decreases |accs|
  {
    hide Bytes, WordStep, ByteStep;
    if accs != [] {
      WordStepRefines(mem, base, accs[0]);
      WordStepSize(mem, base, accs[0]);
      ByteMemory(WordStep(mem, base, accs[0]).0, base, accs[1..]);
    }
  }

  /** A faulting access leaves memory unchanged. */
  lemma FaultChangesNothing(mem: seq<Word>, base: Word, a: Access)
    ensures WordStep(mem, base, a).1.Faulted? ==> WordStep(mem, base, a).0 == mem
  {
    hide Merge, StoreLanes, StoreStrobe, Misaligned, Offset33;
  }

  // ----- instruction fetch

  /** An address that holds an instruction: aligned, with all four bytes in the memory. */
  predicate Fetchable(size: nat, base: Word, a: Word) { a % 4 == 0 && base <= a && a - base + 4 <= size }

  /** The instruction at an address: four bytes, least significant first. */
  function CodeWord(b: seq<Octet>, base: Word, a: Word): Word
    requires Fetchable(|b|, base, a)
  {
    LittleEndianBound(b, a - base, 4);
    LittleEndian(b, a - base, 4)
  }

  /** The instruction port answers every fetch with the little-endian word of the bytes
      at its address, and with an error exactly where there is none. */
  lemma FetchIsLittleEndian(mem: seq<Word>, base: Word, a: Word)
    requires Aligned4(base) && 4 * |mem| <= TWO32
    ensures FetchRspAfter(mem, base, true, MemReq(a, false, 0, 0)) ==
            if Fetchable(4 * |mem|, base, a) then MemRsp(true, CodeWord(Bytes(mem), base, a), false)
            else MemRsp(true, 0, true)
  {
    hide Bytes, LittleEndian, Offset33, CodeWord;
    if Aligned4(a) {
      RangeAgrees(|mem|, base, MemWord, a);
      if Fetchable(4 * |mem|, base, a) { CodeIsWord(mem, base, a); }
    }
  }

  /** The word a fetchable address names. */
  lemma CodeIsWord(mem: seq<Word>, base: Word, a: Word)
    requires Aligned4(base) && Fetchable(4 * |mem|, base, a)
    ensures (a - base) / 4 < |mem| && a - base == 4 * ((a - base) / 4)
    ensures CodeWord(Bytes(mem), base, a) == mem[(a - base) / 4]
  {
    hide Bytes, LittleEndian;
    GathersWord(mem, (a - base) / 4);
  }

  /** A data write of other words leaves an instruction as it was. */
  lemma WriteMissesCode(mem: seq<Word>, base: Word, r: MemReq, a: Word)
    requires Aligned4(base) && 4 * |mem| <= TWO32 && Fetchable(4 * |mem|, base, a) && AlignDown4(r.addr) != a
    ensures CodeWord(Bytes(MemAfter(mem, base, r)), base, a) == CodeWord(Bytes(mem), base, a)
  {
    hide Bytes, LittleEndian, Offset33, Merge, CodeWord;
    var after := MemAfter(mem, base, r);
    CodeIsWord(mem, base, a);
    CodeIsWord(after, base, a);
    if InRange(|mem|, base, r.addr) && r.write {
      OtherIndex(|mem|, base, r.addr, a);
    }
  }

  lemma OtherIndex(words: nat, base: Word, addr: Word, a: Word)
    requires Aligned4(base) && 4 * words <= TWO32 && Fetchable(4 * words, base, a) && AlignDown4(addr) != a
    requires InRange(words, base, addr)
    ensures Offset33(addr, base) / 4 != (a - base) / 4
  {
    OffsetIs(addr, base);
    hide Offset33;
  }
}
