/** What the feedback counters say about a run, when each block's datagrams come before the next block's. */
module Signals {
  import opened Bytes
  import opened Erasure
  import opened Stream
  import opened Receiver
  import opened Arrival
  import opened BlockArrival
  import opened Session
  import opened BlockOrder
  import opened EndToEnd

  function Blocks(ts: seq<Tally>): (n: nat) {
    if ts == [] then 0 else Blocks(ts[..|ts| - 1]) + ts[|ts| - 1].blocks
  }

  function OutOfOrder(ts: seq<Tally>): (n: nat) {
    if ts == [] then 0 else OutOfOrder(ts[..|ts| - 1]) + ts[|ts| - 1].outOfOrder
  }

  function Failures(ts: seq<Tally>): (n: nat) {
    if ts == [] then 0 else Failures(ts[..|ts| - 1]) + ts[|ts| - 1].failures
  }

  function Lost(ts: seq<Tally>): (n: nat) {
    if ts == [] then 0 else Lost(ts[..|ts| - 1]) + ts[|ts| - 1].lost
  }

  /** The receiver starts in block 0; it enters another block when a datagram of it arrives. */
  predicate Entered(slots: seq<Slot>, m: nat) {
    m == 0 || Got(slots, m) != {}
  }

  /** How many m below n satisfy p. */
  ghost function Number(p: nat -> bool, n: nat): (count: nat) {
    if n == 0 then 0 else Number(p, n - 1) + if p(n - 1) then 1 else 0
  }

  lemma {:induction false} NumberSame(p: nat -> bool, q: nat -> bool, n: nat)
    requires forall m: nat :: m < n ==> p(m) == q(m)
    ensures Number(p, n) == Number(q, n)
  {
    if n > 0 {
      NumberSame(p, q, n - 1);
    }
  }

  lemma {:induction false} NumberNone(p: nat -> bool, m: nat, n: nat)
    requires m <= n && forall i: nat :: m <= i < n ==> !p(i)
    ensures Number(p, n) == Number(p, m)
  {
    if m < n {
      NumberNone(p, m, n - 1);
    }
  }

  /** Number is the size of the set it counts. */
  lemma {:induction false} NumberIsSize(p: nat -> bool, n: nat, s: set<nat>)
    requires forall m: nat :: m in s <==> m < n && p(m)
    ensures Number(p, n) == |s|
  {
    if n == 0 {
      assert s == {};
    } else {
      NumberIsSize(p, n - 1, s - {n - 1});
    }
  }

  /** A block the receiver entered. */
  ghost function IsEntered(slots: seq<Slot>): (p: nat -> bool) {
    (m: nat) => Entered(slots, m)
  }

  /** One of them that missed an original. */
  ghost function IsIncomplete(k: nat, slots: seq<Slot>): (p: nat -> bool) {
    (m: nat) => Entered(slots, m) && !(Indices(k) <= Got(slots, m))
  }

  /** One of them of which fewer than k datagrams arrived. */
  ghost function IsUndecodable(k: nat, slots: seq<Slot>): (p: nat -> bool) {
    (m: nat) => Entered(slots, m) && |Got(slots, m)| < k
  }

  lemma {:induction false} GotOneMore(front: seq<Slot>, s: Slot, m: nat)
    ensures Got(front + [s], m) == if s.block == m then Got(front, m) + {s.place} else Got(front, m)
  {
    OneMoreSlot(front, s, m);
    GotPlaces(front + [s], m);
    GotPlaces(front, m);
  }

  /** A predicate of what arrived of a block: the same for blocks before the newest, false for skipped ones. */
  lemma {:induction false} NumberMovesOn(p: nat -> bool, q: nat -> bool, m: nat, n: nat)
    requires m < n
    requires forall i: nat :: i <= m ==> q(i) == p(i)
    requires forall i: nat :: m < i < n ==> !q(i)
    ensures Number(q, n) == Number(p, m) + if p(m) then 1 else 0
  {
    NumberNone(q, m + 1, n);
    NumberSame(p, q, m);
  }

  lemma {:induction false} EarlierUnchanged(front: seq<Slot>, s: Slot, n: nat)
    requires n <= s.block
    ensures forall i: nat :: i < n ==> Got(front + [s], i) == Got(front, i)
  {
    forall i: nat | i < n ensures Got(front + [s], i) == Got(front, i) {
      GotOneMore(front, s, i);
    }
  }

  lemma {:induction false} CurrentIsEntered(slots: seq<Slot>)
    ensures Entered(slots, Current(slots))
  {
    if slots != [] {
      assert slots[|slots| - 1] in slots;
      assert slots[|slots| - 1].place in Got(slots, Current(slots));
    }
  }

  lemma {:induction false} SkippedNotEntered(front: seq<Slot>, s: Slot, i: nat)
    requires BlockByBlock(front) && Current(front) < i < s.block
    ensures !Entered(front + [s], i)
  {
    NothingAfter(front, i);
    GotPlaces(front, i);
    GotOneMore(front, s, i);
  }

  lemma {:induction false} ArrivedCounts(k: nat, slots: seq<Slot>, m: nat)
    requires BlockByBlock(slots)
    ensures |PlacesIn(slots, m)| == |Got(slots, m)|
    ensures Count(k, PlacesIn(slots, m)) < k <==> !(Indices(k) <= Got(slots, m))
  {
    var a := PlacesIn(slots, m);
    PlacesDistinct(slots, m);
    GotPlaces(slots, m);
    ElementsSize(a);
    CountAtMost(k, a);
    if Indices(k) <= Elements(a) {
      OriginalSetOf(k, a);
      SetSizes(k, a);
      assert OriginalSet(k, a) == Indices(k);
    }
  }

  /** The three numbers over the blocks before n. */
  ghost predicate Tell(k: nat, slots: seq<Slot>, n: nat, blocks: nat, outOfOrder: nat, failures: nat) {
    && blocks == Number(IsEntered(slots), n)
    && outOfOrder == Number(IsIncomplete(k, slots), n)
    && failures == Number(IsUndecodable(k, slots), n)
  }

  lemma {:induction false} TellSame(k: nat, front: seq<Slot>, s: Slot, blocks: nat, outOfOrder: nat, failures: nat)
    requires Tell(k, front, s.block, blocks, outOfOrder, failures)
    ensures Tell(k, front + [s], s.block, blocks, outOfOrder, failures)
  {
    EarlierUnchanged(front, s, s.block);
    NumberSame(IsEntered(front), IsEntered(front + [s]), s.block);
    NumberSame(IsIncomplete(k, front), IsIncomplete(k, front + [s]), s.block);
    NumberSame(IsUndecodable(k, front), IsUndecodable(k, front + [s]), s.block);
  }

  lemma {:induction false} TellMovesOn(
    k: nat, front: seq<Slot>, s: Slot, m: nat, blocks: nat, outOfOrder: nat, failures: nat)
    requires BlockByBlock(front) && m == Current(front) < s.block
    requires Tell(k, front, m, blocks, outOfOrder, failures)
    ensures Tell(k, front + [s], s.block, blocks + 1,
                 outOfOrder + if Indices(k) <= Got(front, m) then 0 else 1,
                 failures + if |Got(front, m)| < k then 1 else 0)
  {
    var slots := front + [s];
    EarlierUnchanged(front, s, s.block);
    CurrentIsEntered(front);
    forall i: nat | m < i < s.block ensures !Entered(slots, i) {
      SkippedNotEntered(front, s, i);
    }
    NumberMovesOn(IsEntered(front), IsEntered(slots), m, s.block);
    NumberMovesOn(IsIncomplete(k, front), IsIncomplete(k, slots), m, s.block);
    NumberMovesOn(IsUndecodable(k, front), IsUndecodable(k, slots), m, s.block);
  }

  lemma {:induction false} SumsOneMore(ts: seq<Tally>, t: Tally)
    ensures Blocks(ts + [t]) == Blocks(ts) + t.blocks
    ensures OutOfOrder(ts + [t]) == OutOfOrder(ts) + t.outOfOrder
    ensures Failures(ts + [t]) == Failures(ts) + t.failures
    ensures Lost(ts + [t]) == Lost(ts) + t.lost
  {
    assert (ts + [t])[..|ts|] == ts;
  }

  /** What a datagram adds to the three numbers. */
  lemma {:induction false} TallyIs(k: nat, front: seq<Slot>, s: Slot) returns (t: Tally)
    requires 0 < k < 0x1_0000_0000 && BlockByBlock(front)
    ensures t == TallyOf(k, front, s)
    ensures s.block == Current(front) ==> t.blocks == t.outOfOrder == t.failures == 0
    ensures s.block != Current(front) ==>
      && t.blocks == 1
      && t.outOfOrder == (if Indices(k) <= Got(front, Current(front)) then 0 else 1)
      && t.failures == if |Got(front, Current(front))| < k then 1 else 0
  {
    hide BlockByBlock, PlacesIn, Visit, Tracker, LostAt, TrackerAfter, Count, Got, Indices;
    t := TallyOf(k, front, s);
    VisitIsPlaces(front);
    ArrivedCounts(k, front, Current(front));
  }

  /**
   The congestion signals mean what their names say: over the blocks entered and left, out-of-order counts
   those that missed an original, failures those of which fewer than k datagrams arrived.
   */
  lemma {:induction false} CongestionSignals(k: nat, slots: seq<Slot>)
    requires 0 < k < 0x1_0000_0000 && BlockByBlock(slots)
    ensures Blocks(Tallies(k, slots)) == Number(IsEntered(slots), Current(slots))
    ensures OutOfOrder(Tallies(k, slots)) == Number(IsIncomplete(k, slots), Current(slots))
    ensures Failures(Tallies(k, slots)) == Number(IsUndecodable(k, slots), Current(slots))
  {
    if slots != [] {
      var front, s := slots[..|slots| - 1], slots[|slots| - 1];
      assert slots == front + [s];
      FrontBlockByBlock(front, s);
      hide Number, IsEntered, IsIncomplete, IsUndecodable, Tallies, BlockByBlock, Blocks, OutOfOrder, Failures, Lost,
        TallyOf, Got, Indices;
      CongestionSignals(k, front);
      TallyOneMore(k, front, s);
      var ts := Tallies(k, front);
      var t := TallyIs(k, front, s);
      SumsOneMore(ts, t);
      if s.block == Current(front) {
        TellSame(k, front, s, Blocks(ts), OutOfOrder(ts), Failures(ts));
      } else {
        TellMovesOn(k, front, s, Current(front), Blocks(ts), OutOfOrder(ts), Failures(ts));
      }
    }
  }

  // ---- Any stretch of the run ----------------------------------------------------------------------

  /** How many m from lo up to hi satisfy p. */
  ghost function NumberIn(p: nat -> bool, lo: nat, hi: nat): (count: nat) {
    if hi <= lo then 0 else NumberIn(p, lo, hi - 1) + if p(hi - 1) then 1 else 0
  }

  lemma {:induction false} NumberSplit(p: nat -> bool, lo: nat, hi: nat)
    requires lo <= hi
    ensures Number(p, hi) == Number(p, lo) + NumberIn(p, lo, hi)
  {
    if lo < hi {
      NumberSplit(p, lo, hi - 1);
    }
  }

  lemma {:induction false} NumberInPositive(p: nat -> bool, lo: nat, hi: nat)
    ensures NumberIn(p, lo, hi) > 0 <==> exists m: nat :: lo <= m < hi && p(m)
  {
    if lo < hi {
      NumberInPositive(p, lo, hi - 1);
    }
  }

  lemma {:induction false} SumsConcat(ts: seq<Tally>, us: seq<Tally>)
    ensures Blocks(ts + us) == Blocks(ts) + Blocks(us)
    ensures OutOfOrder(ts + us) == OutOfOrder(ts) + OutOfOrder(us)
    ensures Failures(ts + us) == Failures(ts) + Failures(us)
  {
    if us == [] {
      assert ts + us == ts;
    } else {
      hide Blocks, OutOfOrder, Failures, Lost;
      var front, u := us[..|us| - 1], us[|us| - 1];
      assert us == front + [u] && ts + us == (ts + front) + [u];
      SumsConcat(ts, front);
      SumsOneMore(ts + front, u);
      SumsOneMore(front, u);
    }
  }

  lemma {:induction false} TalliesPrefix(k: nat, slots: seq<Slot>, n: nat)
    requires 0 < k < 0x1_0000_0000 && n <= |slots|
    ensures Tallies(k, slots[..n]) == Tallies(k, slots)[..n]
  {
    hide TallyOf;
    if n < |slots| {
      TalliesPrefix(k, slots[..|slots| - 1], n);
      assert slots[..|slots| - 1][..n] == slots[..n];
    } else {
      assert slots[..n] == slots;
    }
  }

  lemma {:induction false} PrefixBlockByBlock(slots: seq<Slot>, n: nat)
    requires BlockByBlock(slots) && n <= |slots|
    ensures BlockByBlock(slots[..n])
  {
  }

  /** A block that has been left gets nothing more. */
  lemma {:induction false} LeftIsDone(slots: seq<Slot>, n: nat, m: nat)
    requires BlockByBlock(slots) && n <= |slots| && m < Current(slots[..n])
    ensures Got(slots[..n], m) == Got(slots, m)
  {
    forall o | o in Got(slots, m) ensures o in Got(slots[..n], m) {
      var i :| 0 <= i < |slots| && slots[i] == Slot(m, o);
      assert i < n;
      assert slots[..n][i] == slots[i];
    }
  }

  /** The three numbers after n datagrams, over the blocks that had been left then, are those of the whole run. */
  lemma {:induction false} PrefixSignals(k: nat, slots: seq<Slot>, n: nat)
    requires 0 < k < 0x1_0000_0000 && BlockByBlock(slots) && n <= |slots|
    ensures Blocks(Tallies(k, slots)[..n]) == Number(IsEntered(slots), Current(slots[..n]))
    ensures OutOfOrder(Tallies(k, slots)[..n]) == Number(IsIncomplete(k, slots), Current(slots[..n]))
    ensures Failures(Tallies(k, slots)[..n]) == Number(IsUndecodable(k, slots), Current(slots[..n]))
  {
    hide Blocks, OutOfOrder, Failures, Tallies, Number, BlockByBlock, Got;
    var front, m := slots[..n], Current(slots[..n]);
    PrefixBlockByBlock(slots, n);
    TalliesPrefix(k, slots, n);
    CongestionSignals(k, front);
    forall i: nat | i < m ensures Got(front, i) == Got(slots, i) {
      LeftIsDone(slots, n, i);
    }
    NumberSame(IsEntered(front), IsEntered(slots), m);
    NumberSame(IsIncomplete(k, front), IsIncomplete(k, slots), m);
    NumberSame(IsUndecodable(k, front), IsUndecodable(k, slots), m);
  }

  lemma {:induction false} CurrentGrows(slots: seq<Slot>, from: nat, upto: nat)
    requires BlockByBlock(slots) && from <= upto <= |slots|
    ensures Current(slots[..from]) <= Current(slots[..upto])
  {
    if 0 < from < upto {
      assert slots[from - 1].block <= slots[upto - 1].block;
    }
  }

  /**
   In every stretch of the run: the signals counted in it are the numbers of blocks left in it that had been entered,
   that missed an original, and of which fewer than k datagrams arrived.
   */
  lemma {:induction false} WindowSignals(k: nat, slots: seq<Slot>, from: nat, upto: nat)
    requires 0 < k < 0x1_0000_0000 && BlockByBlock(slots) && from <= upto <= |slots|
    ensures var ts, lo, hi := Tallies(k, slots)[from..upto], Current(slots[..from]), Current(slots[..upto]);
      && Blocks(ts) == NumberIn(IsEntered(slots), lo, hi)
      && OutOfOrder(ts) == NumberIn(IsIncomplete(k, slots), lo, hi)
      && Failures(ts) == NumberIn(IsUndecodable(k, slots), lo, hi)
  {
    hide Blocks, OutOfOrder, Failures, Tallies, Number, NumberIn, IsEntered, IsIncomplete, IsUndecodable, BlockByBlock,
      Current;
    var ts, lo, hi := Tallies(k, slots), Current(slots[..from]), Current(slots[..upto]);
    CurrentGrows(slots, from, upto);
    PrefixSignals(k, slots, from);
    PrefixSignals(k, slots, upto);
    assert ts[..upto] == ts[..from] + ts[from..upto];
    SumsConcat(ts[..from], ts[from..upto]);
    NumberSplit(IsEntered(slots), lo, hi);
    NumberSplit(IsIncomplete(k, slots), lo, hi);
    NumberSplit(IsUndecodable(k, slots), lo, hi);
  }

  // ---- Lost packets ------------------------------------------------------------------------------

  /** The originals of a block that did not arrive, though a later one did. */
  ghost function MissingBelow(k: nat, got: set<nat>): (missing: set<nat>) {
    set f: nat | f < k && f !in got && exists g :: g in got && f < g < k
  }

  /** Over the blocks before n. */
  ghost function MissingInAll(k: nat, slots: seq<Slot>, n: nat): (count: nat) {
    if n == 0 then 0 else MissingInAll(k, slots, n - 1) + |MissingBelow(k, Got(slots, n - 1))|
  }

  ghost function Interval(lo: nat, hi: nat): (s: set<nat>)
    ensures forall i :: i in s <==> lo <= i < hi
    ensures |s| == if lo <= hi then hi - lo else 0
  {
    if lo < hi then Interval(lo, hi - 1) + {hi - 1} else {}
  }

  /** Without reordering the subtraction in the count never underflows. */
  lemma {:induction false} NoUnderflow(k: nat, a: seq<nat>, o: nat)
    requires 0 < k < 0x1_0000_0000 && Increasing(a + [o]) && o < k
    ensures Expected(k, Last(k, k - 1, a)) <= o && LostAt(k, k - 1, a, o) == o - Expected(k, Last(k, k - 1, a))
    ensures forall f :: f in a && f < k ==> f < Expected(k, Last(k, k - 1, a))
    ensures forall f :: f in a ==> f < o
    ensures Count(k, a) > 0 ==> Expected(k, Last(k, k - 1, a)) > 0 && Expected(k, Last(k, k - 1, a)) - 1 in a
    ensures Count(k, a) == 0 ==> Expected(k, Last(k, k - 1, a)) == 0
  {
    hide InTurn, Count, Last;
    IncreasingFront(a + [o]);
    assert (a + [o])[..|a|] == a;
    IncreasingLast(k, k - 1, a);
  }

  lemma {:induction false} MissingIs(k: nat, got: set<nat>, e: nat, o: nat)
    requires e <= o < k && (forall f :: f in got ==> f < o)
    requires (forall f :: f in got && f < k ==> f < e) && (e > 0 ==> e - 1 in got)
    ensures forall f :: f in MissingBelow(k, got) <==> 0 <= f < e && f !in got
    ensures forall f :: f in MissingBelow(k, got + {o}) <==> 0 <= f < o && f !in got
  {
    forall f: nat | f < e && f !in got ensures f in MissingBelow(k, got) {
      assert e - 1 in got && f < e - 1 < k;
    }
    forall f: nat | f < o && f !in got ensures f in MissingBelow(k, got + {o}) {
      assert o in got + {o} && f < o < k;
    }
  }

  lemma {:induction false} MissingGrows(k: nat, got: set<nat>, e: nat, o: nat)
    requires e <= o < k && (forall f :: f in got ==> f < o)
    requires (forall f :: f in got && f < k ==> f < e) && (e > 0 ==> e - 1 in got)
    ensures |MissingBelow(k, got + {o})| == |MissingBelow(k, got)| + (o - e)
  {
    hide MissingBelow;
    MissingIs(k, got, e, o);
    var was, gap := MissingBelow(k, got), Interval(e, o);
    assert MissingBelow(k, got + {o}) == was + gap && was !! gap;
  }

  /** An original adds to the count exactly the originals between it and the one before. */
  lemma {:induction false} LostIsMissing(k: nat, a: seq<nat>, o: nat)
    requires 0 < k < 0x1_0000_0000 && Increasing(a + [o])
    ensures |MissingBelow(k, Elements(a + [o]))| == |MissingBelow(k, Elements(a))| + LostAt(k, k - 1, a, o)
  {
    var got, more := Elements(a), Elements(a + [o]);
    assert more == got + {o};
    if o < k {
      NoUnderflow(k, a, o);
      MissingGrows(k, got, Expected(k, Last(k, k - 1, a)), o);
    } else {
      assert MissingBelow(k, more) == MissingBelow(k, got);
    }
  }

  lemma {:induction false} MissingStays(k: nat, front: seq<Slot>, s: Slot, n: nat)
    requires n <= s.block
    ensures MissingInAll(k, front + [s], n) == MissingInAll(k, front, n)
  {
    if n > 0 {
      MissingStays(k, front, s, n - 1);
      GotOneMore(front, s, n - 1);
    }
  }

  lemma {:induction false} NothingMissing(k: nat, slots: seq<Slot>, m: nat, n: nat)
    requires BlockByBlock(slots) && Current(slots) < m <= n
    ensures MissingInAll(k, slots, n) == MissingInAll(k, slots, m)
  {
    if m < n {
      NothingMissing(k, slots, m, n - 1);
      NothingAfter(slots, n - 1);
      GotPlaces(slots, n - 1);
      assert MissingBelow(k, Got(slots, n - 1)) == {};
    }
  }

  /** Without reordering the receiver remembers fragment k - 1 when it enters a block. */
  lemma {:induction false} LostNow(k: nat, front: seq<Slot>, s: Slot)
    requires 0 < k < 0x1_0000_0000 && LossOnly(front + [s])
    ensures TallyOf(k, front, s).lost == LostAt(k, k - 1, PlacesIn(front, s.block), s.place)
  {
    hide LossOnly, Visit, PlacesIn, BlockByBlock, LostAt, AllSteady, Tracker, TrackerAfter;
    LossOnlyFront(front, s);
    LossOnlySteady(k, front);
    LossOnlySteady(k, front + [s]);
    FrontBlockByBlock(front, s);
    SteadyTracker(k, front);
    SteadyTracker(k, front + [s]);
    VisitIsPlaces(front);
    if s.block != Current(front) {
      OneMoreElsewhere(k, [], front, s);
      NothingAfter(front, s.block);
    }
  }

  lemma {:induction false} LostOneMore(k: nat, front: seq<Slot>, s: Slot)
    requires 0 < k < 0x1_0000_0000 && LossOnly(front + [s])
    ensures TallyOf(k, front, s).lost == LostAt(k, k - 1, PlacesIn(front, s.block), s.place)
    ensures |MissingBelow(k, Got(front + [s], s.block))|
         == |MissingBelow(k, Got(front, s.block))| + TallyOf(k, front, s).lost
  {
    hide LossOnly, Tracker, Visit, PlacesIn, BlockByBlock, LostAt, AllSteady, MissingBelow, Got, TrackerAfter;
    LostNow(k, front, s);
    LossOnlyIncreasing(front + [s], s.block);
    OneMoreSlot(front, s, s.block);
    LostIsMissing(k, PlacesIn(front, s.block), s.place);
    GotPlaces(front, s.block);
    GotPlaces(front + [s], s.block);
  }

  /**
   Loss accounting: the lost packets counted in a run are, block by block, the originals missing below the
   highest one received. Originals lost at the end of a block are not counted.
   */
  lemma {:induction false} LossAccounting(k: nat, slots: seq<Slot>)
    requires 0 < k < 0x1_0000_0000 && LossOnly(slots)
    ensures Lost(Tallies(k, slots)) == MissingInAll(k, slots, Current(slots) + 1)
  {
    if slots == [] {
      assert Got(slots, 0) == {};
      assert MissingBelow(k, {}) == {};
    } else {
      var front, s := slots[..|slots| - 1], slots[|slots| - 1];
      hide Tallies, Lost, TallyOf, LossOnly, BlockByBlock, MissingBelow, Got, AllSteady;
      assert slots == front + [s];
      LossOnlySteady(k, slots);
      FrontBlockByBlock(front, s);
      LossOnlyFront(front, s);
      LossAccounting(k, front);
      TallyOneMore(k, front, s);
      SumsOneMore(Tallies(k, front), TallyOf(k, front, s));
      LostOneMore(k, front, s);
      MissingStays(k, front, s, s.block);
      NothingMissing(k, front, Current(front) + 1, s.block + 1);
    }
  }

  /** The originals that have turned out missing so far. */
  ghost function MissingSoFar(k: nat, slots: seq<Slot>): (count: nat) {
    MissingInAll(k, slots, Current(slots) + 1)
  }

  lemma {:induction false} LostConcat(ts: seq<Tally>, us: seq<Tally>)
    ensures Lost(ts + us) == Lost(ts) + Lost(us)
  {
    if us == [] {
      assert ts + us == ts;
    } else {
      hide Lost, Blocks, OutOfOrder, Failures;
      var front, u := us[..|us| - 1], us[|us| - 1];
      assert us == front + [u] && ts + us == (ts + front) + [u];
      LostConcat(ts, front);
      SumsOneMore(ts + front, u);
      SumsOneMore(front, u);
    }
  }

  lemma {:induction false} PrefixLossOnly(slots: seq<Slot>, n: nat)
    requires LossOnly(slots) && n <= |slots|
    ensures LossOnly(slots[..n])
  {
  }

  /** In every stretch of a run without reordering: the originals that turn out missing in it. */
  lemma {:induction false} WindowLoss(k: nat, slots: seq<Slot>, from: nat, upto: nat)
    requires 0 < k < 0x1_0000_0000 && LossOnly(slots) && from <= upto <= |slots|
    ensures Lost(Tallies(k, slots)[from..upto])
         == MissingSoFar(k, slots[..upto]) - MissingSoFar(k, slots[..from])
  {
    hide Lost, Tallies, LossOnly, MissingInAll, Current;
    var ts := Tallies(k, slots);
    PrefixLossOnly(slots, from);
    PrefixLossOnly(slots, upto);
    TalliesPrefix(k, slots, from);
    TalliesPrefix(k, slots, upto);
    LossAccounting(k, slots[..from]);
    LossAccounting(k, slots[..upto]);
    assert ts[..upto] == ts[..from] + ts[from..upto];
    LostConcat(ts[..from], ts[from..upto]);
  }

  // ---- Lost packets in any order -------------------------------------------------------------------

  /** k for each original that came right after fragment k - 1. */
  function Rounds(k: nat, p: nat, a: seq<nat>): (n: nat) {
    if a == [] then 0
    else
      var front, o := a[..|a| - 1], a[|a| - 1];
      Rounds(k, p, front) + if o < k && Last(k, p, front) == k - 1 then k else 0
  }

  /**
   The distances of the originals of a visit from those expected, summed up: from the fragment remembered before it to
   the last one, less the originals that came, plus k for each time the count went round.
   */
  function Telescoped(k: nat, p: nat, a: seq<nat>): (sum: int) {
    Last(k, p, a) - p - Count(k, a) + Rounds(k, p, a)
  }

  /** Over the visits before the current one. */
  function Settled(k: nat, slots: seq<Slot>): (sum: int)
    requires k > 0
  {
    if slots == [] then 0
    else
      var front, s := slots[..|slots| - 1], slots[|slots| - 1];
      Settled(k, front) + if s.block == Current(front) then 0 else Telescoped(k, Tracker(k, front), Visit(front))
  }

  /** Equal as u32. */
  predicate SameAsU32(x: int, y: int) {
    (x - y) % 0x1_0000_0000 == 0
  }

  lemma {:induction false} SameSums(lost: int, sum: int, d: int, e: int, o: int, more: int)
    requires SameAsU32(lost, sum) && (d + e) % 0x1_0000_0000 == o && 0 <= o < 0x1_0000_0000 && more == sum + o - e
    ensures SameAsU32(lost + d, more)
  {
  }

  lemma {:induction false} RoundsOneMore(k: nat, p: nat, a: seq<nat>, o: nat)
    ensures Rounds(k, p, a + [o]) == Rounds(k, p, a) + if o < k && Last(k, p, a) == k - 1 then k else 0
  {
    assert (a + [o])[..|a|] == a;
  }

  lemma {:induction false} TelescopedOneMore(k: nat, p: nat, a: seq<nat>, o: nat)
    requires p < k
    ensures Telescoped(k, p, a + [o]) == Telescoped(k, p, a) + if o < k then o - Expected(k, Last(k, p, a)) else 0
  {
    hide InTurn, Rounds, Last, Count;
    OneMore(k, a, o);
    OneMoreInTurn(k, p, a, o);
    RoundsOneMore(k, p, a, o);
  }

  lemma {:induction false} AddsDistance(k: nat, p: nat, a: seq<nat>, o: nat, d: u32)
    requires p < k < 0x1_0000_0000 && o < k && Adds(k, p, a, o, d)
    ensures (d + Expected(k, Last(k, p, a))) % 0x1_0000_0000 == o
  {
    ExpectedIsNext(k, Last(k, p, a));
    hide InTurn, Count, Last;
  }

  lemma {:induction false} VisitOneMore(k: nat, p: nat, a: seq<nat>, o: nat, lost: int, sum: int)
    requires p < k < 0x1_0000_0000 && SameAsU32(lost, sum + Telescoped(k, p, a))
    ensures SameAsU32(lost + LostAt(k, p, a, o), sum + Telescoped(k, p, a + [o]))
  {
    LostAtAdds(k, p, a, o);
    TelescopedOneMore(k, p, a, o);
    hide InTurn, Count, Last, LostAt, Telescoped, SameAsU32, IsNext, Expected, Adds;
    if o < k {
      AddsDistance(k, p, a, o, LostAt(k, p, a, o));
      SameSums(lost, sum + Telescoped(k, p, a), LostAt(k, p, a, o), Expected(k, Last(k, p, a)), o,
               sum + Telescoped(k, p, a + [o]));
    } else {
      RecoveryIsNotNext(k, p, a, o);
    }
  }

  lemma {:induction false} TelescopedNothing(k: nat, p: nat)
    ensures Telescoped(k, p, []) == 0
  {
  }

  lemma {:induction false} SettledOneMore(k: nat, front: seq<Slot>, s: Slot)
    requires k > 0
    ensures Settled(k, front + [s])
         == Settled(k, front) + if s.block == Current(front) then 0 else Telescoped(k, Tracker(k, front), Visit(front))
  {
    assert (front + [s])[..|front|] == front;
  }

  lemma {:induction false} LostOf(k: nat, front: seq<Slot>, s: Slot)
    requires 0 < k < 0x1_0000_0000
    ensures s.block == Current(front) ==> TallyOf(k, front, s).lost == LostAt(k, Tracker(k, front), Visit(front), s.place)
    ensures s.block != Current(front) ==>
      TallyOf(k, front, s).lost == LostAt(k, TrackerAfter(k, Tracker(k, front), Visit(front)), [], s.place)
  {
    hide LostAt, TrackerAfter, Tracker, Visit;
  }

  /** The lost packets counted are, as a u32, the distances of the originals from those expected, visit by visit. */
  predicate LostTold(k: nat, slots: seq<Slot>, lost: nat)
    requires k > 0
  {
    SameAsU32(lost, Settled(k, slots) + Telescoped(k, Tracker(k, slots), Visit(slots)))
  }

  lemma {:induction false} LostToldHere(k: nat, front: seq<Slot>, s: Slot, lost: nat)
    requires 0 < k < 0x1_0000_0000 && LostTold(k, front, lost) && s.block == Current(front)
    ensures LostTold(k, front + [s], lost + TallyOf(k, front, s).lost)
  {
    hide TallyOf, Settled, Telescoped, Tracker, Visit, LostAt, SameAsU32, Current;
    SettledOneMore(k, front, s);
    LostOf(k, front, s);
    OneMoreHere(k, [], front, s);
    VisitOneMore(k, Tracker(k, front), Visit(front), s.place, lost, Settled(k, front));
  }

  lemma {:induction false} LostToldElsewhere(k: nat, front: seq<Slot>, s: Slot, lost: nat)
    requires 0 < k < 0x1_0000_0000 && LostTold(k, front, lost) && s.block != Current(front)
    ensures LostTold(k, front + [s], lost + TallyOf(k, front, s).lost)
  {
    hide TallyOf, Settled, Telescoped, Tracker, Visit, LostAt, SameAsU32, Current, TrackerAfter;
    var p, a := Tracker(k, front), Visit(front);
    SettledOneMore(k, front, s);
    LostOf(k, front, s);
    OneMoreElsewhere(k, [], front, s);
    TelescopedNothing(k, TrackerAfter(k, p, a));
    VisitOneMore(k, TrackerAfter(k, p, a), [], s.place, lost, Settled(k, front) + Telescoped(k, p, a));
    assert [] + [s.place] == [s.place];
  }

  /** In any order of arrival, within blocks and across them. The sum can be below zero, and then wraps round. */
  lemma {:induction false} LostTelescopes(k: nat, slots: seq<Slot>)
    requires 0 < k < 0x1_0000_0000
    ensures SameAsU32(Lost(Tallies(k, slots)), Settled(k, slots) + Telescoped(k, Tracker(k, slots), Visit(slots)))
  {
    assert LostTold(k, slots, Lost(Tallies(k, slots))) by { LostToldAlways(k, slots); }
  }

  lemma {:induction false} NothingLost(k: nat)
    requires 0 < k < 0x1_0000_0000
    ensures LostTold(k, [], Lost(Tallies(k, [])))
  {
  }

  lemma {:induction false} LostToldAlways(k: nat, slots: seq<Slot>)
    requires 0 < k < 0x1_0000_0000
    ensures LostTold(k, slots, Lost(Tallies(k, slots)))
  {
    hide Lost, Tallies, TallyOf, LostTold, Current;
    if slots == [] {
      NothingLost(k);
    } else {
      var front, s := slots[..|slots| - 1], slots[|slots| - 1];
      assert slots == front + [s];
      LostToldAlways(k, front);
      TallyOneMore(k, front, s);
      SumsOneMore(Tallies(k, front), TallyOf(k, front, s));
      if s.block == Current(front) {
        LostToldHere(k, front, s, Lost(Tallies(k, front)));
      } else {
        LostToldElsewhere(k, front, s, Lost(Tallies(k, front)));
      }
    }
  }

  lemma {:induction false} RoundsAre(k: nat, p: nat, a: seq<nat>)
    requires p < k && Distinct(a)
    ensures Rounds(k, p, a)
         == (if p == k - 1 && Count(k, a) > 0 then k else 0) + (if k - 1 in a && Last(k, p, a) != k - 1 then k else 0)
    ensures Count(k, a) == 0 ==> k - 1 !in a && Last(k, p, a) == p
  {
    if a != [] {
      var front, o := a[..|a| - 1], a[|a| - 1];
      assert a == front + [o];
      FrontDistinct(a);
      RoundsAre(k, p, front);
      LastArrived(k, p, front);
    }
  }

  lemma {:induction false} LastArrived(k: nat, p: nat, a: seq<nat>)
    requires p < k
    ensures Count(k, a) > 0 ==> Last(k, p, a) in a
  {
    if a != [] && a[|a| - 1] >= k {
      LastArrived(k, p, a[..|a| - 1]);
    }
  }

  /** In closed form, when no place came twice. */
  lemma {:induction false} TelescopedIs(k: nat, p: nat, a: seq<nat>)
    requires p < k && Distinct(a)
    ensures Telescoped(k, p, a) ==
      if Count(k, a) == 0 then 0
      else
        Last(k, p, a) - p - Count(k, a)
        + (if p == k - 1 then k else 0) + (if k - 1 in a && Last(k, p, a) != k - 1 then k else 0)
  {
    RoundsAre(k, p, a);
  }
}
