/** Race-free access to the 64-bit timer by 32-bit halves (sw/bsp/rv32_soc.c): the
    timer keeps ticking, and other bus traffic may fall, between any two accesses. */
module TimerSoftware {
  import opened Rv32Types
  import opened CsrFile
  import opened Mtimer

  predicate KeepsTime(p: TimerParams, i: TimerIn) { !i.rst && !Writes(p, i, TIME_LO) && !Writes(p, i, TIME_HI) }
  predicate KeepsCompare(p: TimerParams, i: TimerIn) { !i.rst && !Writes(p, i, CMP_LO) && !Writes(p, i, CMP_HI) }
  predicate QuietTime(p: TimerParams, ins: seq<TimerIn>) { forall k :: 0 <= k < |ins| ==> KeepsTime(p, ins[k]) }
  predicate QuietCompare(p: TimerParams, ins: seq<TimerIn>) { forall k :: 0 <= k < |ins| ==> KeepsCompare(p, ins[k]) }

  function Joined(high: Word, low: Word): U64 { high * TWO32 + low }

  lemma Halves(x: U64)
    ensures Joined(High(x), Low(x)) == x
  {
  }

  /** Distinct offsets are distinct addresses, whatever the base. */
  lemma Distinct(base: Word, a: Word, b: Word)
    requires a != b
    ensures Add32(base, a) != Add32(base, b)
  {
  }

  lemma Registers(p: TimerParams)
    requires Aligned4(p.base)
    ensures var (c0, c1, t0, t1) := (Add32(p.base, CMP_LO), Add32(p.base, CMP_HI), Add32(p.base, TIME_LO), Add32(p.base, TIME_HI));
      && c0 != c1 && c0 != t0 && c0 != t1 && c1 != t0 && c1 != t1 && t0 != t1
      && Aligned4(c0) && Aligned4(c1) && Aligned4(t0) && Aligned4(t1)
  {
    AlignedOffset(p.base, CMP_LO);
    AlignedOffset(p.base, CMP_HI);
    AlignedOffset(p.base, TIME_LO);
    AlignedOffset(p.base, TIME_HI);
    Distinct(p.base, CMP_LO, CMP_HI);
    Distinct(p.base, CMP_LO, TIME_LO);
    Distinct(p.base, CMP_LO, TIME_HI);
    Distinct(p.base, CMP_HI, TIME_LO);
    Distinct(p.base, CMP_HI, TIME_HI);
    Distinct(p.base, TIME_LO, TIME_HI);
    hide Add32, Aligned4;
  }

  lemma AlignedOffset(base: Word, offset: Word)
    requires Aligned4(base) && Aligned4(offset)
    ensures Aligned4(Add32(base, offset))
  {
  }

  /** A load of either half of `mtime` returns it as of acceptance and disturbs nothing. */
  lemma ReadsTime(p: TimerParams, s: TimerState)
    requires Aligned4(p.base)
    ensures TimerRsp(p, s, ReadOf(p, TIME_LO)) == MemRsp(true, Low(s.mtime), false)
    ensures TimerRsp(p, s, ReadOf(p, TIME_HI)) == MemRsp(true, High(s.mtime), false)
    ensures KeepsTime(p, ReadOf(p, TIME_LO)) && KeepsTime(p, ReadOf(p, TIME_HI))
  {
    Registers(p);
    hide Add32, Aligned4, Low, High;
  }

  /** A load of either half of the compare register returns it; any access that is not an
      aligned word of the four registers is answered with an error and changes nothing. */
  lemma ReadsCompare(p: TimerParams, s: TimerState)
    requires Aligned4(p.base)
    ensures TimerRsp(p, s, ReadOf(p, CMP_LO)) == MemRsp(true, Low(s.mtimecmp), false)
    ensures TimerRsp(p, s, ReadOf(p, CMP_HI)) == MemRsp(true, High(s.mtimecmp), false)
  {
    Registers(p);
    hide Add32, Aligned4, Low, High;
  }

  lemma FaultsOtherwise(p: TimerParams, s: TimerState, r: MemReq)
    requires var offset := (r.addr - p.base) % TWO32;
      offset !in {0x4000, 0x4004, 0xbff8, 0xbffc} || r.addr % 4 != 0 || r.wstrb != (if r.write then 15 else 0)
    ensures var t := TimerNext(p, s, TimerIn(false, true, r));
      t.rsp == MemRsp(true, 0, true) && t.mtime == (s.mtime + 1) % TWO64 && t.mtimecmp == s.mtimecmp
  {
    OffsetOf(p.base, CMP_LO);
    OffsetOf(p.base, CMP_HI);
    OffsetOf(p.base, TIME_LO);
    OffsetOf(p.base, TIME_HI);
    hide Add32, SetLow, SetHigh;
  }

  lemma OffsetOf(base: Word, offset: Word)
    ensures (Add32(base, offset) - base) % TWO32 == offset
  {
  }

  // ----- time

  lemma {:induction false} Ticks(p: TimerParams, s: TimerState, ins: seq<TimerIn>)
    requires QuietTime(p, ins) && s.mtime + |ins| < TWO64
    ensures TimerRun(p, s, ins).mtime == s.mtime + |ins|
    decreases |ins|
  {
    if ins != [] {
      assert KeepsTime(p, ins[0]);
      Ticks(p, TimerNext(p, s, ins[0]), ins[1..]);
    }
  }

  /** Over any stretch `mtime` counts its cycles modulo 2^64. */
  lemma {:induction false} TicksModulo(p: TimerParams, s: TimerState, ins: seq<TimerIn>)
    requires QuietTime(p, ins)
    ensures TimerRun(p, s, ins).mtime == (s.mtime + |ins|) % TWO64
    decreases |ins|
  {
    if ins != [] {
      assert KeepsTime(p, ins[0]);
      Wraps(s.mtime, |ins| - 1);
      TicksModulo(p, TimerNext(p, s, ins[0]), ins[1..]);
    }
  }

  lemma Wraps(m: U64, n: nat)
    ensures (Inc64(m) + n) % TWO64 == (m + n + 1) % TWO64
  {
  }

  /** Cycles from the call to the end of the `k`-th access. */
  function Ended(pauses: seq<seq<TimerIn>>, k: nat): nat
    requires k <= |pauses|
  {
    if k == 0 then 0 else Ended(pauses, k - 1) + |pauses[k - 1]| + 1
  }

  /** Cycles from the call to the acceptance of access `k`. */
  function Accepted(pauses: seq<seq<TimerIn>>, k: nat): nat
    requires k < |pauses|
  {
    Ended(pauses, k) + |pauses[k]|
  }

  lemma {:induction false} Later(pauses: seq<seq<TimerIn>>, j: nat, k: nat)
    requires j < k <= |pauses|
    ensures Accepted(pauses, j) < Ended(pauses, k)
    ensures k < |pauses| ==> Accepted(pauses, j) < Accepted(pauses, k)
  {
    if j + 1 < k { Later(pauses, j, k - 1); }
  }

  /** The first attempt whose two high reads agree. */
  function FirstStable(start: U64, pauses: seq<seq<TimerIn>>, k: nat): Option<nat>
    requires 3 * k <= |pauses| && start + Ended(pauses, |pauses|) < TWO64
    decreases |pauses| - 3 * k
  {
    if 3 * k + 3 > |pauses| then None
    else
      Later(pauses, 3 * k, |pauses|);
      Later(pauses, 3 * k + 2, |pauses|);
      if High(start + Accepted(pauses, 3 * k)) == High(start + Accepted(pauses, 3 * k + 2)) then Some(k)
      else FirstStable(start, pauses, k + 1)
  }

  /** `rv32_soc_mtime_read`, with a pause before each access.  A returned value is the
      true 64-bit time at the acceptance of its low read; no value is returned only
      when the high word changed within every attempt made. */
  method MtimeRead(t: Timer, pauses: seq<seq<TimerIn>>) returns (value: Option<U64>, tries: nat)
    requires Aligned4(t.params.base) && forall j :: 0 <= j < |pauses| ==> QuietTime(t.params, pauses[j])
    requires t.mtime + Ended(pauses, |pauses|) < TWO64
    modifies t
    ensures FirstStable(old(t.mtime), pauses, 0) == if value.Some? then Some(tries) else None
    ensures value.Some? ==> 3 * tries + 3 <= |pauses| && value.value == old(t.mtime) + Accepted(pauses, 3 * tries + 1)
  {
    hide TimerRsp, TimerNext, TimerRun, High, Low, Joined, Accepted;
    ghost var start := t.mtime;
    tries := 0;
    while 3 * tries + 3 <= |pauses|
      invariant 3 * tries <= |pauses| && t.mtime == start + Ended(pauses, 3 * tries)
      invariant FirstStable(start, pauses, 0) == FirstStable(start, pauses, tries)
    {
      var highBefore := ReadTime(t, TIME_HI, pauses, 3 * tries, start);
      var low := ReadTime(t, TIME_LO, pauses, 3 * tries + 1, start);
      var highAfter := ReadTime(t, TIME_HI, pauses, 3 * tries + 2, start);
      if highBefore == highAfter {
        Later(pauses, 3 * tries, 3 * tries + 1);
        Later(pauses, 3 * tries + 1, 3 * tries + 2);
        Stable(start + Accepted(pauses, 3 * tries), start + Accepted(pauses, 3 * tries + 1), start + Accepted(pauses, 3 * tries + 2));
        return Some(Joined(highBefore, low)), tries;
      }
      tries := tries + 1;
    }
    return None, tries;
  }

  /** One access of the routine: the half it reads is that of the time at acceptance. */
  method ReadTime(t: Timer, offset: Word, pauses: seq<seq<TimerIn>>, k: nat, ghost start: U64) returns (v: Word)
    requires Aligned4(t.params.base) && forall j :: 0 <= j < |pauses| ==> QuietTime(t.params, pauses[j])
    requires k < |pauses| && start + Ended(pauses, |pauses|) < TWO64 && t.mtime == start + Ended(pauses, k)
    requires offset == TIME_LO || offset == TIME_HI
    modifies t
    ensures start + Accepted(pauses, k) < TWO64
    ensures v == if offset == TIME_LO then Low(start + Accepted(pauses, k)) else High(start + Accepted(pauses, k))
    ensures t.mtime == start + Ended(pauses, k + 1)
  {
    Later(pauses, k, |pauses|);
    ghost var before := TimerRun(t.params, t.State(), pauses[k]);
    Ticks(t.params, t.State(), pauses[k]);
    ReadsTime(t.params, before);
    v := t.Read32(offset, pauses[k]);
    hide TimerRsp, TimerRun, Low, High, Writes, Add32;
  }

  /** Between two equal high words, the low word belongs to that high word. */
  lemma Stable(t0: U64, t1: U64, t2: U64)
    requires t0 <= t1 <= t2 && High(t0) == High(t2)
    ensures Joined(High(t0), Low(t1)) == t1
  {
    Halves(t1);
  }

  /** An attempt fails exactly when a carry into the high word falls inside it. */
  lemma FailsOnCarry(t0: U64, t2: U64)
    requires t0 <= t2
    ensures High(t0) != High(t2) <==> exists h: nat {:trigger h * TWO32} :: t0 < h * TWO32 <= t2
  {
    var h := High(t2);
    if High(t0) != h {
      assert t0 < h * TWO32 <= t2;
    }
  }

  /** Two attempts suffice when six accesses take fewer than 2^32 cycles. */
  lemma TwoTriesSuffice(start: U64, pauses: seq<seq<TimerIn>>)
    requires |pauses| >= 6 && start + Ended(pauses, |pauses|) < TWO64
    requires Accepted(pauses, 5) - Accepted(pauses, 0) < TWO32
    ensures FirstStable(start, pauses, 0).Some? && FirstStable(start, pauses, 0).value <= 1
  {
    Later(pauses, 0, 2);
    Later(pauses, 2, 3);
    Later(pauses, 3, 5);
    Later(pauses, 5, |pauses|);
    hide Accepted, Ended;
    OneCarry(start + Accepted(pauses, 0), start + Accepted(pauses, 2), start + Accepted(pauses, 3), start + Accepted(pauses, 5));
    assert FirstStable(start, pauses, 0).Some? && FirstStable(start, pauses, 0).value <= 1 by {
      assert FirstStable(start, pauses, 1) == if High(start + Accepted(pauses, 3)) == High(start + Accepted(pauses, 5)) then Some(1)
                                              else FirstStable(start, pauses, 2);
    }
  }

  lemma OneCarry(a: U64, b: U64, c: U64, d: U64)
    requires a <= b <= c <= d && d - a < TWO32
    ensures High(a) == High(b) || High(c) == High(d)
  {
  }

  /** The loop is needed: one high read and one low read can be 2^32 ticks apart. */
  lemma SinglePassTears()
    ensures exists t0: U64, t1: U64 :: t1 == t0 + 1 && Joined(High(t0), Low(t1)) + TWO32 == t1
  {
    var t0: U64 := TWO32 - 1;
    var t1: U64 := TWO32;
    assert t1 == t0 + 1 && Joined(High(t0), Low(t1)) + TWO32 == t1;
  }

  // ----- compare

  /** Whenever MTIP is high along a run, `mtime` has reached `floor`. */
  predicate NeverEarly(p: TimerParams, s: TimerState, ins: seq<TimerIn>, floor: U64)
    decreases |ins|
  {
    && (Mtip(s) ==> s.mtime >= floor)
    && (ins == [] || NeverEarly(p, TimerNext(p, s, ins[0]), ins[1..], floor))
  }

  lemma {:induction false} NeverEarlyAt(p: TimerParams, s: TimerState, ins: seq<TimerIn>, floor: U64, k: nat)
    requires NeverEarly(p, s, ins, floor) && k <= |ins|
    ensures Mtip(TimerRun(p, s, ins[..k])) ==> TimerRun(p, s, ins[..k]).mtime >= floor
    decreases |ins|
  {
    if k != 0 {
      NeverEarlyAt(p, TimerNext(p, s, ins[0]), ins[1..], floor, k - 1);
      assert ins[..k][1..] == ins[1..][..k - 1];
    }
  }

  /** A quiet stretch keeps the compare value, and with it the floor. */
  lemma {:induction false} QuietStretch(p: TimerParams, s: TimerState, ins: seq<TimerIn>, floor: U64)
    requires QuietCompare(p, ins) && s.mtimecmp >= floor
    ensures NeverEarly(p, s, ins, floor) && TimerRun(p, s, ins).mtimecmp == s.mtimecmp
    decreases |ins|
  {
    if ins != [] {
      assert KeepsCompare(p, ins[0]);
      assert TimerNext(p, s, ins[0]).mtimecmp == s.mtimecmp;
      hide TimerNext;
      QuietStretch(p, TimerNext(p, s, ins[0]), ins[1..], floor);
    }
  }

  lemma {:induction false} Joins(p: TimerParams, s: TimerState, a: seq<TimerIn>, b: seq<TimerIn>, floor: U64)
    ensures TimerRun(p, s, a + b) == TimerRun(p, TimerRun(p, s, a), b)
    ensures NeverEarly(p, s, a, floor) && NeverEarly(p, TimerRun(p, s, a), b, floor) ==> NeverEarly(p, s, a + b, floor)
    decreases |a|
  {
    hide TimerNext, Mtip;
    if a == [] {
      assert a + b == b;
    } else {
      Joins(p, TimerNext(p, s, a[0]), a[1..], b, floor);
      assert (a + b)[1..] == a[1..] + b;
    }
  }

  /** The interrupt line is exact: while software leaves both registers alone, it is high
      after `k` cycles if and only if `k` ticks have brought the time to the compare value. */
  lemma MtipExact(p: TimerParams, s: TimerState, ins: seq<TimerIn>)
    requires QuietTime(p, ins) && QuietCompare(p, ins) && s.mtime + |ins| < TWO64
    ensures Mtip(TimerRun(p, s, ins)) <==> s.mtime + |ins| >= s.mtimecmp
  {
    Ticks(p, s, ins);
    QuietStretch(p, s, ins, 0);
  }

  /** A pause and one write of a compare half, from a state above the floor to another. */
  lemma WriteStage(p: TimerParams, s: TimerState, pause: seq<TimerIn>, offset: Word, v: Word, floor: U64)
    requires Aligned4(p.base) && QuietCompare(p, pause) && (offset == CMP_LO || offset == CMP_HI)
    requires s.mtimecmp >= floor
    requires (if offset == CMP_LO then SetLow(s.mtimecmp, v) else SetHigh(s.mtimecmp, v)) >= floor
    ensures var t := TimerRun(p, s, pause + [WriteOf(p, offset, v)]);
      && NeverEarly(p, s, pause + [WriteOf(p, offset, v)], floor)
      && t.mtimecmp == if offset == CMP_LO then SetLow(s.mtimecmp, v) else SetHigh(s.mtimecmp, v)
  {
    QuietStretch(p, s, pause, floor);
    var m, w := TimerRun(p, s, pause), WriteOf(p, offset, v);
    Registers(p);
    hide Add32, SetLow, SetHigh, Aligned4;
    var t := TimerNext(p, m, w);
    assert t.mtimecmp == if offset == CMP_LO then SetLow(s.mtimecmp, v) else SetHigh(s.mtimecmp, v);
    hide TimerNext;
    assert [w][1..] == [];
    assert NeverEarly(p, t, [], floor);
    assert NeverEarly(p, m, [w], floor);
    assert TimerRun(p, m, [w]) == TimerRun(p, t, []) == t;
    Joins(p, s, pause, [w], floor);
  }

  function CompareInputs(p: TimerParams, v: U64, a: seq<TimerIn>, b: seq<TimerIn>, c: seq<TimerIn>): seq<TimerIn> {
    (a + [WriteOf(p, CMP_LO, TWO32 - 1)]) + ((b + [WriteOf(p, CMP_HI, High(v))]) + (c + [WriteOf(p, CMP_LO, Low(v))]))
  }

  function Min(a: U64, b: U64): U64 { if a < b then a else b }

  /** The three-write sequence never raises MTIP before the time has reached the old or
      the new compare value, and installs the new one. */
  lemma CompareNeverEarly(p: TimerParams, s: TimerState, v: U64, a: seq<TimerIn>, b: seq<TimerIn>, c: seq<TimerIn>)
    requires Aligned4(p.base) && QuietCompare(p, a) && QuietCompare(p, b) && QuietCompare(p, c)
    ensures NeverEarly(p, s, CompareInputs(p, v, a, b, c), Min(s.mtimecmp, v))
    ensures var t := TimerRun(p, s, CompareInputs(p, v, a, b, c)); t.mtimecmp == v && (Mtip(t) <==> t.mtime >= v)
  {
    var floor := Min(s.mtimecmp, v);
    var top: Word := TWO32 - 1;
    Intermediate(s.mtimecmp, v);
    WriteStage(p, s, a, CMP_LO, top, floor);
    var s1 := TimerRun(p, s, a + [WriteOf(p, CMP_LO, top)]);
    WriteStage(p, s1, b, CMP_HI, High(v), floor);
    var s2 := TimerRun(p, s1, b + [WriteOf(p, CMP_HI, High(v))]);
    WriteStage(p, s2, c, CMP_LO, Low(v), floor);
    hide TimerRun, NeverEarly, SetLow, SetHigh, High, Low, WriteOf, QuietCompare;
    Joins(p, s1, b + [WriteOf(p, CMP_HI, High(v))], c + [WriteOf(p, CMP_LO, Low(v))], floor);
    Joins(p, s, a + [WriteOf(p, CMP_LO, top)],
          (b + [WriteOf(p, CMP_HI, High(v))]) + (c + [WriteOf(p, CMP_LO, Low(v))]), floor);
  }

  lemma Intermediate(old_value: U64, v: U64)
    ensures var x := SetLow(old_value, TWO32 - 1); var y := SetHigh(x, High(v));
      x >= old_value && y >= v && SetLow(y, Low(v)) == v
  {
  }

  /** `rv32_soc_mtimecmp_write`, with a pause before each write. */
  method MtimecmpWrite(t: Timer, v: U64, a: seq<TimerIn>, b: seq<TimerIn>, c: seq<TimerIn>)
    requires Aligned4(t.params.base) && QuietCompare(t.params, a) && QuietCompare(t.params, b) && QuietCompare(t.params, c)
    modifies t
    ensures t.State() == TimerRun(t.params, old(t.State()), CompareInputs(t.params, v, a, b, c))
    ensures NeverEarly(t.params, old(t.State()), CompareInputs(t.params, v, a, b, c), Min(old(t.mtimecmp), v))
    ensures t.mtimecmp == v
  {
    ghost var p, s := t.params, t.State();
    hide TimerNext, High, Low, QuietCompare, CompareInputs;
    CompareNeverEarly(p, s, v, a, b, c);
    t.Write32(CMP_LO, TWO32 - 1, a);
    AfterWrite(p, s, a, WriteOf(p, CMP_LO, TWO32 - 1));
    ghost var s1 := t.State();
    t.Write32(CMP_HI, High(v), b);
    AfterWrite(p, s1, b, WriteOf(p, CMP_HI, High(v)));
    ghost var s2 := t.State();
    t.Write32(CMP_LO, Low(v), c);
    AfterWrite(p, s2, c, WriteOf(p, CMP_LO, Low(v)));
    Sequence(p, s, v, a, b, c);
  }

  lemma AfterWrite(p: TimerParams, s: TimerState, pause: seq<TimerIn>, w: TimerIn)
    ensures TimerNext(p, TimerRun(p, s, pause), w) == TimerRun(p, s, pause + [w])
  {
    hide TimerNext;
    Joins(p, s, pause, [w], 0);
    var m := TimerRun(p, s, pause);
    assert TimerRun(p, m, [w]) == TimerRun(p, TimerNext(p, m, w), []) by { assert [w][1..] == []; }
  }

  lemma Sequence(p: TimerParams, s: TimerState, v: U64, a: seq<TimerIn>, b: seq<TimerIn>, c: seq<TimerIn>)
    ensures var s1 := TimerRun(p, s, a + [WriteOf(p, CMP_LO, TWO32 - 1)]);
      var s2 := TimerRun(p, s1, b + [WriteOf(p, CMP_HI, High(v))]);
      TimerRun(p, s2, c + [WriteOf(p, CMP_LO, Low(v))]) == TimerRun(p, s, CompareInputs(p, v, a, b, c))
  {
    hide TimerRun, WriteOf, High, Low;
    var x, y, z := a + [WriteOf(p, CMP_LO, TWO32 - 1)], b + [WriteOf(p, CMP_HI, High(v))], c + [WriteOf(p, CMP_LO, Low(v))];
    Joins(p, s, x, y + z, 0);
    Joins(p, TimerRun(p, s, x), y, z, 0);
  }

  /** Writing the two halves directly, low first, can raise MTIP for neither value. */
  lemma DirectWritesAreEarly(p: TimerParams)
    requires Aligned4(p.base)
    ensures exists s: TimerState, v: U64 ::
      var s1 := TimerNext(p, s, WriteOf(p, CMP_LO, Low(v)));
      Mtip(s1) && s1.mtime < s.mtimecmp && s1.mtime < v
  {
    var old_value: U64 := TWO32 + TWO31;
    var v: U64 := 2 * TWO32;
    var s := TimerState(TWO32 + 16, old_value, MemRsp(false, 0, false));
    Registers(p);
    assert SetLow(old_value, Low(v)) == TWO32;
    var s1 := TimerNext(p, s, WriteOf(p, CMP_LO, Low(v)));
    assert s1.mtime == TWO32 + 17 && s1.mtimecmp == TWO32 by { hide Add32; }
    assert Mtip(s1) && s1.mtime < s.mtimecmp && s1.mtime < v;
  }
}
