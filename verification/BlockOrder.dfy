/** Runs in which each block's datagrams come before the next block's: what the run hands on, block by block. */
module BlockOrder {
  import opened Bytes
  import opened Stream
  import opened Video
  import opened Receiver
  import opened Arrival
  import opened BlockRun
  import opened BlockArrival
  import opened Session

  /** The places of block m among the datagrams that arrived, in order of arrival. */
  function PlacesIn(slots: seq<Slot>, m: nat): (a: seq<nat>) {
    if slots == [] then []
    else PlacesIn(slots[..|slots| - 1], m) + if slots[|slots| - 1].block == m then [slots[|slots| - 1].place] else []
  }

  /** Blocks arrive one after the other, and nothing arrives twice; within a block any order is allowed. */
  ghost predicate BlockByBlock(slots: seq<Slot>) {
    forall i, j :: 0 <= i < j < |slots| ==> slots[i].block <= slots[j].block && slots[i] != slots[j]
  }

  lemma {:induction false} OneMoreSlot(slots: seq<Slot>, s: Slot, m: nat)
    ensures PlacesIn(slots + [s], m) == if s.block == m then PlacesIn(slots, m) + [s.place] else PlacesIn(slots, m)
    ensures Current(slots + [s]) == s.block
  {
    assert (slots + [s])[..|slots|] == slots;
  }

  lemma {:induction false} PlacesOf(slots: seq<Slot>, m: nat, o: nat)
    ensures o in PlacesIn(slots, m) <==> Slot(m, o) in slots
  {
    if slots != [] {
      PlacesOf(slots[..|slots| - 1], m, o);
      assert slots == slots[..|slots| - 1] + [slots[|slots| - 1]];
    }
  }

  lemma {:induction false} PlacesDistinct(slots: seq<Slot>, m: nat)
    requires BlockByBlock(slots)
    ensures Distinct(PlacesIn(slots, m))
  {
    if slots != [] {
      var front, s := slots[..|slots| - 1], slots[|slots| - 1];
      PlacesDistinct(front, m);
      PlacesOf(front, m, s.place);
      assert slots == front + [s];
    }
  }

  /** Then a block is visited once. */
  lemma {:induction false} VisitIsPlaces(slots: seq<Slot>)
    requires BlockByBlock(slots)
    ensures Visit(slots) == PlacesIn(slots, Current(slots))
    ensures NoRepeat(slots)
  {
    if slots != [] {
      hide BlockByBlock, PlacesIn;
      var front, s := slots[..|slots| - 1], slots[|slots| - 1];
      assert slots == front + [s];
      FrontBlockByBlock(front, s);
      VisitIsPlaces(front);
      OneMoreSlot(front, s, s.block);
      if s.block == Current(front) {
        OneMoreHere(1, [], front, s);
        PlacesOf(front, s.block, s.place);
      } else {
        OneMoreElsewhere(1, [], front, s);
        NothingAfter(front, s.block);
      }
    }
  }

  lemma {:induction false} NothingAfter(slots: seq<Slot>, m: nat)
    requires BlockByBlock(slots) && Current(slots) < m
    ensures PlacesIn(slots, m) == []
  {
    if slots != [] {
      var front := slots[..|slots| - 1];
      if front != [] {
        assert front[|front| - 1] == slots[|front| - 1];
      }
      NothingAfter(front, m);
    }
  }

  lemma {:induction false} FrontBlockByBlock(front: seq<Slot>, s: Slot)
    requires BlockByBlock(front + [s])
    ensures BlockByBlock(front) && Current(front) <= s.block && s !in front
  {
    var slots := front + [s];
    assert slots[|front|] == s;
    assert forall i :: 0 <= i < |front| ==> slots[i] == front[i];
  }

  /** A stream that reaches block n has all of every earlier block. */
  lemma {:induction false} EarlierComplete(k: nat, pkts: seq<Packet>, m: nat, n: nat)
    requires m < n && Block(k, pkts, n) != []
    ensures |Block(k, pkts, m)| == k
    decreases m
  {
    if m > 0 {
      EarlierComplete(k, pkts[k..], m - 1, n - 1);
    }
  }

  /** parts(0) + parts(1) + ... + parts(m - 1) */
  function Joined(parts: nat -> seq<Packet>, m: nat): (ps: seq<Packet>) {
    if m == 0 then [] else Joined(parts, m - 1) + parts(m - 1)
  }

  lemma {:induction false} JoinedSame(parts: nat -> seq<Packet>, other: nat -> seq<Packet>, m: nat)
    requires forall i: nat :: i < m ==> parts(i) == other(i)
    ensures Joined(parts, m) == Joined(other, m)
  {
    if m > 0 {
      JoinedSame(parts, other, m - 1);
    }
  }

  lemma {:induction false} JoinedNothing(parts: nat -> seq<Packet>, m: nat, n: nat)
    requires m <= n && forall i: nat :: m <= i < n ==> parts(i) == []
    ensures Joined(parts, n) == Joined(parts, m)
  {
    if m < n {
      JoinedNothing(parts, m, n - 1);
    }
  }

  /** The first n packets, or all of them. */
  function Upto(ps: seq<Packet>, n: nat): (front: seq<Packet>)
    ensures |front| <= n
  {
    if n <= |ps| then ps[..n] else ps
  }

  /** Every block left so far ended with its last fragment, or some original of it was missing. */
  ghost predicate AllSteady(k: nat, slots: seq<Slot>)
    requires k > 0
  {
    forall m :: 0 <= m < Current(slots) ==> Steady(k, k - 1, PlacesIn(slots, m))
  }

  lemma {:induction false} FrontSteady(k: nat, front: seq<Slot>, s: Slot)
    requires k > 0 && BlockByBlock(front + [s]) && AllSteady(k, front + [s])
    ensures AllSteady(k, front)
    ensures Current(front) < s.block ==> Steady(k, k - 1, PlacesIn(front, Current(front)))
  {
    FrontBlockByBlock(front, s);
    forall m: nat | m < s.block ensures PlacesIn(front + [s], m) == PlacesIn(front, m) {
      OneMoreSlot(front, s, m);
    }
    assert Current(front + [s]) == s.block;
  }

  /** Then every block is entered after fragment k - 1. */
  lemma {:induction false} SteadyTracker(k: nat, slots: seq<Slot>)
    requires k > 0 && BlockByBlock(slots) && AllSteady(k, slots)
    ensures Tracker(k, slots) == k - 1
  {
    if slots != [] {
      hide BlockByBlock, AllSteady, PlacesIn, Visit;
      var front, s := slots[..|slots| - 1], slots[|slots| - 1];
      assert slots == front + [s];
      FrontBlockByBlock(front, s);
      FrontSteady(k, front, s);
      SteadyTracker(k, front);
      VisitIsPlaces(front);
      PlacesDistinct(front, Current(front));
      CountAtMost(k, PlacesIn(front, Current(front)));
    }
  }

  /** The arrivals of a block are places it has. */
  ghost predicate Fits(k: nat, ps: seq<Packet>, a: seq<nat>) {
    (forall f :: f in a && f < k ==> f < |ps|) && (k <= |a| ==> |ps| == k)
  }

  lemma {:induction false} InTurnFits(k: nat, a: seq<nat>, ps: seq<Packet>)
    requires k > 0 && Fits(k, ps, a)
    ensures |InTurn(k, k - 1, a)| <= |ps|
    ensures Chosen(ps, InTurn(k, k - 1, a)) == ps[..|InTurn(k, k - 1, a)|]
  {
    var t := InTurn(k, k - 1, a);
    InOrderPrefix(k, a);
    if |t| > 0 {
      assert t[|t| - 1] == |t| - 1 && |t| - 1 in a;
    }
  }

  lemma {:induction false} RestOfBlock(k: nat, t: seq<nat>, ps: seq<Packet>, queue: seq<Packet>)
    requires |t| <= k == |ps| == |queue| && t == seq(|t|, f => f)
    ensures ps[..|t|] + From(Mixed(ps, queue, t), |t|) == ps
  {
    assert forall j :: |t| <= j < k ==> j !in t;
    assert From(Mixed(ps, queue, t), |t|) == ps[|t|..];
  }

  /** A block entered after fragment k - 1 gives its first Yield(k, a) packets, whatever is in the queue. */
  lemma {:induction false} SteadyHanded(k: nat, a: seq<nat>, ps: seq<Packet>, queue: seq<Packet>)
    requires k > 0 && |queue| == k && Fits(k, ps, a)
    ensures Yield(k, a) <= |ps| && Handed(k, k - 1, a, ps, queue) == ps[..Yield(k, a)]
  {
    hide InTurn, Count, Handed, Mixed, From, Chosen;
    var t := InTurn(k, k - 1, a);
    InTurnFits(k, a, ps);
    InOrderPrefix(k, a);
    if Count(k, a) < k <= |a| {
      HandedRestored(k, k - 1, a, ps, queue);
      RestOfBlock(k, t, ps, queue);
    } else {
      HandedInTurn(k, k - 1, a, ps, queue);
    }
  }

  /** What a block that has been left gave the decoder. */
  function Part(k: nat, pkts: seq<Packet>, slots: seq<Slot>): (part: nat -> seq<Packet>)
    requires k > 0
  {
    (m: nat) => Upto(Block(k, pkts, m), Yield(k, PlacesIn(slots, m)))
  }

  ghost predicate AllFitIn(k: nat, pkts: seq<Packet>, slots: seq<Slot>) {
    forall m: nat :: m <= Current(slots) ==> Fits(k, Block(k, pkts, m), PlacesIn(slots, m))
  }

  lemma {:induction false} PartsStay(k: nat, pkts: seq<Packet>, front: seq<Slot>, s: Slot, m: nat)
    requires k > 0 && m <= s.block
    ensures Joined(Part(k, pkts, front + [s]), m) == Joined(Part(k, pkts, front), m)
  {
    forall i: nat | i < m ensures PlacesIn(front + [s], i) == PlacesIn(front, i) {
      OneMoreSlot(front, s, i);
    }
    JoinedSame(Part(k, pkts, front + [s]), Part(k, pkts, front), m);
  }

  lemma {:induction false} NothingYields(k: nat, ps: seq<Packet>)
    requires k > 0
    ensures Upto(ps, Yield(k, [])) == []
  {
  }

  /** Blocks of which nothing arrived give nothing. */
  lemma {:induction false} SkippedBlocks(k: nat, pkts: seq<Packet>, slots: seq<Slot>, m: nat, n: nat)
    requires k > 0 && BlockByBlock(slots) && Current(slots) < m <= n
    ensures Joined(Part(k, pkts, slots), n) == Joined(Part(k, pkts, slots), m)
  {
    forall i: nat | m <= i < n ensures Part(k, pkts, slots)(i) == [] {
      NothingAfter(slots, i);
      NothingYields(k, Block(k, pkts, i));
    }
    JoinedNothing(Part(k, pkts, slots), m, n);
  }

  lemma {:induction false} FrontFits(k: nat, pkts: seq<Packet>, front: seq<Slot>, s: Slot)
    requires BlockByBlock(front + [s]) && AllFitIn(k, pkts, front + [s])
    ensures AllFitIn(k, pkts, front)
  {
    FrontBlockByBlock(front, s);
    OneMoreSlot(front, s, 0);
    forall m: nat | m <= Current(front) ensures Fits(k, Block(k, pkts, m), PlacesIn(front, m)) {
      OneMoreSlot(front, s, m);
      assert Fits(k, Block(k, pkts, m), PlacesIn(front + [s], m));
      forall f | f in PlacesIn(front, m) ensures f in PlacesIn(front + [s], m) {
      }
    }
  }

  /** What was delivered before the current block, block by block. */
  lemma {:induction false} SteadyDelivered(k: nat, pkts: seq<Packet>, slots: seq<Slot>)
    requires k > 0 && BlockByBlock(slots) && AllSteady(k, slots) && AllFitIn(k, pkts, slots)
    ensures Delivered(k, pkts, slots) == Joined(Part(k, pkts, slots), Current(slots))
  {
    if slots != [] {
      hide BlockByBlock, AllSteady, AllFitIn, PlacesIn, Visit, Queue, Tracker, Handed, Fits, Yield;
      var front, s := slots[..|slots| - 1], slots[|slots| - 1];
      var m := Current(front);
      assert slots == front + [s];
      FrontBlockByBlock(front, s);
      FrontSteady(k, front, s);
      FrontFits(k, pkts, front, s);
      SteadyDelivered(k, pkts, front);
      PartsStay(k, pkts, front, s, s.block);
      if s.block == m {
        OneMoreHere(k, pkts, front, s);
      } else {
        OneMoreElsewhere(k, pkts, front, s);
        SteadyTracker(k, front);
        VisitIsPlaces(front);
        FitsAt(k, pkts, front, m);
        SteadyHanded(k, PlacesIn(front, m), Block(k, pkts, m), Queue(k, pkts, front));
        SkippedBlocks(k, pkts, front, m + 1, s.block);
      }
    }
  }

  lemma {:induction false} FitsAt(k: nat, pkts: seq<Packet>, slots: seq<Slot>, m: nat)
    requires AllFitIn(k, pkts, slots) && m <= Current(slots)
    ensures Fits(k, Block(k, pkts, m), PlacesIn(slots, m))
  {
  }

  lemma {:induction false} CarriedPlace(env: Env, pkts: seq<Packet>, slots: seq<Slot>, received: seq<seq<byte>>, s: Slot)
    requires Sound(env) && Carry(env, pkts, slots, received) && s in slots
    ensures AllFit(env, Block(env.k, pkts, s.block)) && Place(env, Block(env.k, pkts, s.block), s.place)
  {
    hide Rebuilt, Datagram, Place, AllFit, Block;
    if slots[|slots| - 1] != s {
      assert slots == slots[..|slots| - 1] + [slots[|slots| - 1]];
      CarriedPlace(env, pkts, slots[..|slots| - 1], received[..|slots| - 1], s);
    }
  }

  lemma {:induction false} ManyPlaces(k: nat, a: seq<nat>)
    requires Distinct(a) && k > 0 && k <= |a|
    ensures k - 1 in a || exists o :: o in a && k <= o
  {
    CountAtMost(k, a);
    if Count(k, a) == k {
      assert k - 1 in a;
    } else {
      NotAllOriginals(k, a);
    }
  }

  lemma {:induction false} NotAllOriginals(k: nat, a: seq<nat>)
    requires Count(k, a) < |a|
    ensures exists o :: o in a && k <= o
  {
    var front, o := a[..|a| - 1], a[|a| - 1];
    if o < k {
      NotAllOriginals(k, front);
      var p :| p in front && k <= p;
      assert p in a;
    } else {
      assert o in a;
    }
  }

  /** Datagrams of a stream have places in it. */
  lemma {:induction false} CarryFits(env: Env, pkts: seq<Packet>, slots: seq<Slot>, received: seq<seq<byte>>)
    requires Sound(env) && BlockByBlock(slots) && Carry(env, pkts, slots, received)
    ensures AllFitIn(env.k, pkts, slots)
  {
    hide Carry, BlockByBlock;
    forall m: nat | m <= Current(slots)
      ensures Fits(env.k, Block(env.k, pkts, m), PlacesIn(slots, m))
    {
      var ps, a := Block(env.k, pkts, m), PlacesIn(slots, m);
      forall f | f in a ensures Place(env, ps, f) {
        PlacesOf(slots, m, f);
        CarriedPlace(env, pkts, slots, received, Slot(m, f));
      }
      if env.k <= |a| {
        PlacesDistinct(slots, m);
        ManyPlaces(env.k, a);
      }
    }
  }

  /**
   Block by block, with any order inside a block as long as a complete one ends with its last fragment: what was handed
   to the decoder is what each block left yields, and then the packets of the current block that came in order.
   */
  lemma {:induction false} RunHandsBlocks(env: Env, pkts: seq<Packet>, slots: seq<Slot>, received: seq<seq<byte>>)
    requires Sound(env) && GoodPackets(env, pkts)
    requires BlockByBlock(slots) && AllSteady(env.k, slots) && Carry(env, pkts, slots, received)
    ensures Run(env, received).Ran?
    ensures HandedInAll(env.k, pkts, slots) ==
      Joined(Part(env.k, pkts, slots), Current(slots))
      + Upto(Block(env.k, pkts, Current(slots)), |InTurn(env.k, env.k - 1, PlacesIn(slots, Current(slots)))|)
    ensures HandAll(env, NEW_PLAYER, HandedInAll(env.k, pkts, slots)) == Played(Run(env, received).rx.player)
  {
    hide Run, Carry, BlockByBlock, AllSteady, AllFitIn, Delivered, Tracker, Visit, InTurn, HandAll, GoodPackets, Chosen,
      Joined, PlacesIn, Fits;
    var k, m := env.k, Current(slots);
    VisitIsPlaces(slots);
    RunHands(env, pkts, slots, received);
    CarryFits(env, pkts, slots, received);
    SteadyDelivered(k, pkts, slots);
    SteadyTracker(k, slots);
    FitsAt(k, pkts, slots, m);
    InTurnFits(k, PlacesIn(slots, m), Block(k, pkts, m));
  }
}
