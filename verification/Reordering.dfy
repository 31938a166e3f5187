/**
 What reordering inside a block does: what a block gives the decoder, whatever fragment the receiver remembered when it
 entered the block, and runs in which that goes wrong.
 */
module Reordering {
  import opened Arith
  import opened Bytes
  import opened Stream
  import opened Video
  import opened Receiver
  import opened Arrival
  import opened BlockRun
  import opened BlockArrival
  import opened Session
  import opened BlockOrder
  import opened EndToEnd

  /** The first n packets of the block itself. */
  function Prefix(n: nat): (s: seq<Piece>)
    ensures |s| == n
  {
    seq(n, f requires f >= 0 => Own(f))
  }

  /** Entered after fragment k - 1: the first Yield(k, a) packets. */
  lemma {:induction false} YieldsSteady(k: nat, a: seq<nat>)
    requires k > 0
    ensures Yields(k, k - 1, a) == Prefix(Yield(k, a))
  {
    var t := InTurn(k, k - 1, a);
    InOrderPrefix(k, a);
    if Count(k, a) < k <= |a| {
      forall i | 0 <= i < k ensures Yields(k, k - 1, a)[i] == Own(i) {
        if i >= |t| {
          assert i !in t;
          assert Rest(k, t)[i - |t|] == Own(i);
        }
      }
    }
  }

  /** Entered after another fragment p, the first original not being p + 1: the whole block if restored, else nothing. */
  lemma {:induction false} YieldsMissed(k: nat, p: nat, a: seq<nat>)
    requires p < k - 1
    requires Count(k, a) == 0 || Originals(k, a)[0] != p + 1
    ensures Yields(k, p, a) == if Count(k, a) < k <= |a| then Prefix(k) else []
  {
    InTurnFirst(k, p, a);
    assert InTurn(k, p, a) == [];
    assert Rest(k, []) == Prefix(k);
  }

  /** The first original being p + 1: it starts with that, not with the block's first packet. */
  lemma {:induction false} YieldsCaught(k: nat, p: nat, a: seq<nat>)
    requires p < k - 1
    requires Count(k, a) > 0 && Originals(k, a)[0] == p + 1
    ensures Yields(k, p, a) != [] && Yields(k, p, a)[0] == Own(p + 1)
    ensures InTurn(k, p, a) != [] && InTurn(k, p, a)[0] == p + 1
  {
    InTurnFirst(k, p, a);
    assert InTurn(k, p, a)[0] == Originals(k, a)[0];
  }

  /** The block was entered after fragment k - 1, or what came first was not the fragment after the one remembered. */
  predicate Safe(k: nat, p: nat, a: seq<nat>)
    requires p < k
  {
    p == k - 1 || Count(k, a) == 0 || Originals(k, a)[0] != p + 1
  }

  /**
   In every order of arrival, and whatever came before: a block gives the decoder a gap-free prefix of itself, or all of
   it, if and only if it was entered after fragment k - 1 or its first original to arrive was not the one after p.
   */
  lemma {:induction false} PrefixExactlyWhen(k: nat, p: nat, a: seq<nat>)
    requires p < k
    ensures Yields(k, p, a) == Prefix(|Yields(k, p, a)|) <==> Safe(k, p, a)
  {
    hide Yields, InTurn, Count, Originals;
    if p == k - 1 {
      YieldsSteady(k, a);
    } else if Safe(k, p, a) {
      YieldsMissed(k, p, a);
    } else {
      YieldsCaught(k, p, a);
    }
  }

  /** What it gives in each of the safe cases. */
  lemma {:induction false} SafeYields(k: nat, p: nat, a: seq<nat>)
    requires p < k && Safe(k, p, a)
    ensures Yields(k, p, a) ==
      if Count(k, a) < k <= |a| then Prefix(k) else if p == k - 1 then Prefix(|InTurn(k, k - 1, a)|) else []
  {
    if p == k - 1 {
      YieldsSteady(k, a);
    } else {
      YieldsMissed(k, p, a);
    }
  }

  /** A slot the block did not fill is handed on exactly when the block is restored and unsafe. */
  lemma {:induction false} StaleExactlyWhen(k: nat, p: nat, a: seq<nat>)
    requires p < k
    ensures (exists i :: 0 <= i < |Yields(k, p, a)| && Yields(k, p, a)[i].Old?) <==>
            Count(k, a) < k <= |a| && !Safe(k, p, a)
  {
    if Safe(k, p, a) {
      PrefixExactlyWhen(k, p, a);
    } else if Count(k, a) < k <= |a| {
      YieldsCaught(k, p, a);
      StaleSlot(k, p, a);
    }
  }

  lemma {:induction false} StaleSlot(k: nat, p: nat, a: seq<nat>)
    requires p < k - 1 && Count(k, a) < k <= |a| && InTurn(k, p, a) != []
    ensures exists i :: 0 <= i < |Yields(k, p, a)| && Yields(k, p, a)[i].Old?
  {
    hide InTurn, Count;
    var t := InTurn(k, p, a);
    InTurnNth(k, p, a);
    var i := if p + |t| < k then |t| - 1 else k - 2 - p;
    var j := t[i];
    assert j in t && |t| <= j < k;
    assert Yields(k, p, a)[j] == Rest(k, t)[j - |t|] == Old(j);
  }

  /**
   In every order of arrival, and whatever came before: a block left behind was delivered whole if and only if k of its
   datagrams arrived and, all k originals among them, it was entered after fragment k - 1 and they came in order, or else,
   some original missing, it was entered safely.
   */
  lemma {:induction false} WholeExactlyWhen(k: nat, p: nat, a: seq<nat>)
    requires p < k && Distinct(a)
    ensures Yields(k, p, a) == Prefix(k) <==>
      |a| >= k && if Count(k, a) == k then p == k - 1 && Originals(k, a) == seq(k, f => f) else Safe(k, p, a)
  {
    CountAtMost(k, a);
    if Count(k, a) < k <= |a| {
      PrefixExactlyWhen(k, p, a);
      assert |Yields(k, p, a)| == k;
    } else if Count(k, a) == k {
      WholeInTurn(k, p, a);
    } else {
      assert |Yields(k, p, a)| < k;
    }
  }

  lemma {:induction false} WholeInTurn(k: nat, p: nat, a: seq<nat>)
    requires p < k && Count(k, a) == k
    ensures Yields(k, p, a) == Prefix(k) <==> p == k - 1 && Originals(k, a) == seq(k, f => f)
    ensures |a| >= k
  {
    var t := InTurn(k, p, a);
    InTurnFirst(k, p, a);
    InTurnNth(k, p, a);
    if Yields(k, p, a) == Prefix(k) {
      assert |t| == k && Owns(t)[0] == Own(0) && t[0] == Nth(k, p, 0);
      forall f | 0 <= f < k ensures Originals(k, a)[f] == f {
        assert Owns(t)[f] == Own(f);
      }
      assert Originals(k, a) == seq(k, f => f);
    }
    if p == k - 1 && Originals(k, a) == seq(k, f => f) {
      AllInTurn(k, a);
      forall f | 0 <= f < k ensures Yields(k, p, a)[f] == Own(f) {
        assert t[f] == f;
      }
      assert Yields(k, p, a) == Prefix(k);
    }
  }

  lemma {:induction false} AllInTurn(k: nat, a: seq<nat>)
    requires k > 0 && Count(k, a) <= k && Originals(k, a) == seq(Count(k, a), f => f)
    ensures |InTurn(k, k - 1, a)| == Count(k, a)
  {
    if a != [] {
      var front, o := a[..|a| - 1], a[|a| - 1];
      var n := Count(k, front);
      assert Originals(k, a)[..n] == Originals(k, front);
      assert seq(Count(k, a), f => f)[..n] == seq(n, f => f);
      AllInTurn(k, front);
      InTurnNth(k, k - 1, front);
      if o < k {
        assert Originals(k, a)[n] == o;
      }
    }
  }

  /** A complete block entered after fragment k - 1, another original coming before the first: nothing of it comes out. */
  lemma {:induction false} ReorderedBlockLost(k: nat, a: seq<nat>)
    requires Count(k, a) == k > 0 && Originals(k, a)[0] != 0
    ensures Yields(k, k - 1, a) == []
  {
    InTurnFirst(k, k - 1, a);
  }

  // ---- Runs that stay in order ---------------------------------------------------------------------

  /** A block entered safely gives its first packets, whatever is in the queue. */
  lemma {:induction false} SafeHanded(k: nat, p: nat, a: seq<nat>, ps: seq<Packet>, queue: seq<Packet>)
    returns (n: nat)
    requires p < k == |queue| && Safe(k, p, a) && Fits(k, ps, a)
    ensures n == |Yields(k, p, a)| <= |ps| && Handed(k, p, a, ps, queue) == ps[..n]
  {
    hide InTurn, Count, Originals, Yields;
    n := |Yields(k, p, a)|;
    PrefixExactlyWhen(k, p, a);
    SafeYields(k, p, a);
    InTurnFits(k, a, ps);
  }

  /** What has come in turn so far of a block entered safely: its first packets. */
  lemma {:induction false} SafeTurn(k: nat, p: nat, a: seq<nat>, ps: seq<Packet>) returns (n: nat)
    requires p < k && Safe(k, p, a) && Fits(k, ps, a)
    ensures n == |InTurn(k, p, a)| <= |ps| && Chosen(ps, InTurn(k, p, a)) == ps[..n]
  {
    n := |InTurn(k, p, a)|;
    if p == k - 1 {
      InTurnFits(k, a, ps);
    } else {
      InTurnFirst(k, p, a);
    }
  }

  /** Every block left so far was safe. */
  predicate LeftSafely(k: nat, slots: seq<Slot>)
    requires k > 0
  {
    if slots == [] then true
    else
      var front, s := slots[..|slots| - 1], slots[|slots| - 1];
      LeftSafely(k, front) && (s.block != Current(front) ==> Safe(k, Tracker(k, front), Visit(front)))
  }

  lemma {:induction false} LeftSafelyFront(k: nat, front: seq<Slot>, s: Slot)
    requires k > 0 && LeftSafely(k, front + [s])
    ensures LeftSafely(k, front) && (s.block != Current(front) ==> Safe(k, Tracker(k, front), Visit(front)))
  {
    assert (front + [s])[..|front|] == front;
  }

  lemma {:induction false} NothingPicked(k: nat, pkts: seq<Packet>) returns (idx: seq<nat>)
    requires k > 0
    ensures idx == [] && Picks(pkts, idx, Delivered(k, pkts, []))
  {
    idx := [];
  }

  lemma {:induction false} SafeDelivered(k: nat, pkts: seq<Packet>, slots: seq<Slot>) returns (idx: seq<nat>)
    requires k > 0 && BlockByBlock(slots) && AllFitIn(k, pkts, slots) && LeftSafely(k, slots)
    ensures Picks(pkts, idx, Delivered(k, pkts, slots))
    ensures forall i :: 0 <= i < |idx| ==> idx[i] < Current(slots) * k
  {
    hide BlockByBlock, AllFitIn, LeftSafely, Visit, Tracker, Queue, Handed, Picks, PlacesIn, Safe, Fits, Yields, Block,
      Delivered;
    if slots == [] {
      idx := NothingPicked(k, pkts);
    } else {
      var front, s := slots[..|slots| - 1], slots[|slots| - 1];
      var m := Current(front);
      assert slots == front + [s];
      FrontBlockByBlock(front, s);
      FrontFits(k, pkts, front, s);
      LeftSafelyFront(k, front, s);
      idx := SafeDelivered(k, pkts, front);
      if s.block == m {
        OneMoreHere(k, pkts, front, s);
      } else {
        OneMoreElsewhere(k, pkts, front, s);
        VisitIsPlaces(front);
        FitsAt(k, pkts, front, m);
        var n := SafeHanded(k, Tracker(k, front), Visit(front), Block(k, pkts, m), Queue(k, pkts, front));
        idx := PickBlock(k, pkts, m, idx, Delivered(k, pkts, front), n);
        MulGap(m, s.block, k);
      }
    }
  }

  /**
   Block by block, in any order inside a block: as long as every block, the current one too, is safe, the decoder sees
   packets of the stream in their order, none twice, however many blocks end out of order.
   */
  lemma {:induction false} SafeOrder(env: Env, pkts: seq<Packet>, slots: seq<Slot>, received: seq<seq<byte>>)
    returns (idx: seq<nat>)
    requires Sound(env) && GoodPackets(env, pkts)
    requires BlockByBlock(slots) && Carry(env, pkts, slots, received)
    requires LeftSafely(env.k, slots) && Safe(env.k, Tracker(env.k, slots), Visit(slots))
    ensures Run(env, received).Ran? && Picks(pkts, idx, Run(env, received).rx.player.handed)
  {
    hide Run, Carry, GoodPackets, BlockByBlock, AllFitIn, LeftSafely, Visit, Tracker, Picks, PlacesIn, Safe, Fits, InTurn,
      Block, Delivered, HandAll, Sound;
    var k, m := env.k, Current(slots);
    VisitIsPlaces(slots);
    RunHands(env, pkts, slots, received);
    CarryFits(env, pkts, slots, received);
    FitsAt(k, pkts, slots, m);
    idx := SafeDelivered(k, pkts, slots);
    var n := SafeTurn(k, Tracker(k, slots), Visit(slots), Block(k, pkts, m));
    idx := PickBlock(k, pkts, m, idx, Delivered(k, pkts, slots), n);
    assert HandedInAll(k, pkts, slots) == Delivered(k, pkts, slots) + Block(k, pkts, m)[..n];
    HandedLog(env, NEW_PLAYER, HandedInAll(k, pkts, slots));
    assert NEW_PLAYER.handed + HandedInAll(k, pkts, slots) == HandedInAll(k, pkts, slots);
  }

  // ---- Runs that do not -------------------------------------------------------------------------------------

  /** The datagrams of a visit to block m, in order of arrival. */
  function OfBlock(m: nat, a: seq<nat>): (slots: seq<Slot>)
    ensures |slots| == |a|
  {
    seq(|a|, i requires 0 <= i < |a| => Slot(m, a[i]))
  }

  lemma {:induction false} OfBlockOneMore(m: nat, a: seq<nat>)
    requires a != []
    ensures OfBlock(m, a) == OfBlock(m, a[..|a| - 1]) + [Slot(m, a[|a| - 1])]
  {
  }

  lemma {:induction false} OneOfBlock(m: nat, a: seq<nat>)
    requires |a| == 1
    ensures OfBlock(m, a) == [Slot(m, a[0])]
  {
  }

  /** A visit to another block. */
  lemma {:induction false} VisitOf(k: nat, pkts: seq<Packet>, front: seq<Slot>, m: nat, a: seq<nat>)
    requires k > 0 && a != [] && m != Current(front) && NoRepeat(front) && Distinct(a)
    ensures var slots, p := front + OfBlock(m, a), Tracker(k, front);
      && NoRepeat(slots) && Current(slots) == m && Visit(slots) == a
      && Tracker(k, slots) == TrackerAfter(k, p, Visit(front))
      && Queue(k, pkts, slots) == QueueAfter(k, p, Visit(front), Block(k, pkts, Current(front)), Queue(k, pkts, front))
      && Delivered(k, pkts, slots)
         == Delivered(k, pkts, front)
            + Handed(k, p, Visit(front), Block(k, pkts, Current(front)), Queue(k, pkts, front))
  {
    hide Tracker, Queue, Delivered, Visit, TrackerAfter, QueueAfter, Handed, NoRepeat, Distinct, OfBlock, Block;
    OfBlockOneMore(m, a);
    var last := |a| - 1;
    if last == 0 {
      assert OfBlock(m, a) == [Slot(m, a[0])] && a == [a[0]] by { OneOfBlock(m, a); }
      OneMoreElsewhere(k, pkts, front, Slot(m, a[0]));
      RepeatNot(front, Slot(m, a[0]));
    } else {
      FrontDistinct(a);
      VisitOf(k, pkts, front, m, a[..last]);
      var before := front + OfBlock(m, a[..last]);
      assert a == a[..last] + [a[last]];
      assert front + OfBlock(m, a) == before + [Slot(m, a[last])];
      OneMoreHere(k, pkts, before, Slot(m, a[last]));
      RepeatNot(before, Slot(m, a[last]));
    }
  }

  lemma {:induction false} RepeatNot(front: seq<Slot>, s: Slot)
    requires NoRepeat(front) && (s.block == Current(front) ==> s.place !in Visit(front))
    ensures NoRepeat(front + [s])
  {
    assert (front + [s])[..|front|] == front;
  }

  /** The first visit, to the block the receiver starts in. */
  lemma {:induction false} FirstVisit(k: nat, pkts: seq<Packet>, a: seq<nat>)
    requires k > 0 && Distinct(a)
    ensures var slots := OfBlock(0, a);
      && NoRepeat(slots) && Current(slots) == 0 && Visit(slots) == a && Tracker(k, slots) == k - 1
      && Queue(k, pkts, slots) == seq(k, _ => NO_PACKET) && Delivered(k, pkts, slots) == []
  {
    if a != [] {
      hide Tracker, Queue, Delivered, Visit;
      var last := |a| - 1;
      FrontDistinct(a);
      OfBlockOneMore(0, a);
      FirstVisit(k, pkts, a[..last]);
      OneMoreHere(k, pkts, OfBlock(0, a[..last]), Slot(0, a[last]));
      RepeatNot(OfBlock(0, a[..last]), Slot(0, a[last]));
    }
  }

  lemma {:induction false} Arrives(k: nat, p: nat, a: seq<nat>, o: nat, more: seq<nat>, n: nat, t: seq<nat>, l: nat)
    requires p < k && more == a + [o]
    requires Count(k, a) == n && InTurn(k, p, a) == t && Last(k, p, a) == l < k
    ensures Count(k, more) == n + if o < k then 1 else 0
    ensures InTurn(k, p, more) == if o < k && |t| == n < k && o == Expected(k, l) then t + [o] else t
    ensures Last(k, p, more) == if o < k then o else l
  {
    OneMore(k, a, o);
    OneMoreInTurn(k, p, a, o);
  }

  lemma {:induction false} NothingArrived(k: nat, p: nat)
    requires p < k
    ensures Count(k, []) == 0 && InTurn(k, p, []) == [] && Last(k, p, []) == p
  {
  }

  /** A block in order, but for packets in between that were late: 0, 2, 3, 1. */
  lemma {:induction false} Late()
    ensures Count(4, [0, 2, 3, 1]) == 4 && InTurn(4, 3, [0, 2, 3, 1]) == [0] && Last(4, 3, [0, 2, 3, 1]) == 1
  {
    hide InTurn, Count, Last, Originals;
    NothingArrived(4, 3);
    Arrives(4, 3, [], 0, [0], 0, [], 3);
    Arrives(4, 3, [0], 2, [0, 2], 1, [0], 0);
    Arrives(4, 3, [0, 2], 3, [0, 2, 3], 2, [0], 2);
    Arrives(4, 3, [0, 2, 3], 1, [0, 2, 3, 1], 3, [0], 3);
  }

  /** The next one, its first two packets lost: 2, 3 and both recovery datagrams. */
  lemma {:induction false} Caught()
    ensures Count(4, [2, 3, 4, 5]) == 2 && InTurn(4, 1, [2, 3, 4, 5]) == [2, 3]
  {
    hide InTurn, Count, Last, Originals;
    NothingArrived(4, 1);
    Arrives(4, 1, [], 2, [2], 0, [], 1);
    Arrives(4, 1, [2], 3, [2, 3], 1, [2], 2);
    Arrives(4, 1, [2, 3], 4, [2, 3, 4], 2, [2, 3], 3);
    Arrives(4, 1, [2, 3, 4], 5, [2, 3, 4, 5], 2, [2, 3], 3);
  }

  lemma {:induction false} Swapped()
    ensures Count(4, [0, 1, 3, 2, 4, 5]) == 4 && InTurn(4, 3, [0, 1, 3, 2, 4, 5]) == [0, 1]
    ensures Last(4, 3, [0, 1, 3, 2, 4, 5]) == 2
  {
    hide InTurn, Count, Last, Originals;
    NothingArrived(4, 3);
    Arrives(4, 3, [], 0, [0], 0, [], 3);
    Arrives(4, 3, [0], 1, [0, 1], 1, [0], 0);
    Arrives(4, 3, [0, 1], 3, [0, 1, 3], 2, [0, 1], 1);
    Arrives(4, 3, [0, 1, 3], 2, [0, 1, 3, 2], 3, [0, 1], 3);
    Arrives(4, 3, [0, 1, 3, 2], 4, [0, 1, 3, 2, 4], 4, [0, 1], 2);
    Arrives(4, 3, [0, 1, 3, 2, 4], 5, [0, 1, 3, 2, 4, 5], 4, [0, 1], 2);
  }

  lemma {:induction false} InOrder()
    ensures Count(4, [0, 1, 2, 3, 4, 5]) == 4 && InTurn(4, 2, [0, 1, 2, 3, 4, 5]) == []
    ensures Last(4, 2, [0, 1, 2, 3, 4, 5]) == 3
  {
    hide InTurn, Count, Last, Originals;
    NothingArrived(4, 2);
    Arrives(4, 2, [], 0, [0], 0, [], 2);
    Arrives(4, 2, [0], 1, [0, 1], 1, [], 0);
    Arrives(4, 2, [0, 1], 2, [0, 1, 2], 2, [], 1);
    Arrives(4, 2, [0, 1, 2], 3, [0, 1, 2, 3], 3, [], 2);
    Arrives(4, 2, [0, 1, 2, 3], 4, [0, 1, 2, 3, 4], 4, [], 3);
    Arrives(4, 2, [0, 1, 2, 3, 4], 5, [0, 1, 2, 3, 4, 5], 4, [], 3);
  }

  /** A block complete and in order, entered after another fragment than k - 1, gives nothing; after it all is well. */
  lemma {:induction false} NextBlockSpoiled(k: nat, p: nat, a: seq<nat>)
    requires p < k - 1 && Originals(k, a) == seq(k, f => f)
    ensures Yields(k, p, a) == [] && TrackerAfter(k, p, a) == k - 1
  {
    InTurnFirst(k, p, a);
    assert |Originals(k, a)| == k;
    YieldsMissed(k, p, a);
  }

  lemma {:induction false} FirstBlocks(pkts: seq<Packet>)
    requires |pkts| >= 9
    ensures Block(4, pkts, 0) == pkts[..4] && Block(4, pkts, 1) == pkts[4..8]
    ensures |Block(4, pkts, 2)| > 0 && Block(4, pkts, 2)[0] == pkts[8]
  {
    BlockIsStretch(4, pkts, 0);
    BlockIsStretch(4, pkts, 1);
    BlockIsStretch(4, pkts, 2);
  }

  /** The first packet of block 2, the block before having been left with the tracker at 3. */
  lemma {:induction false} ThirdBlock(pkts: seq<Packet>, front: seq<Slot>, ps: seq<Packet>) returns (slots: seq<Slot>)
    requires |pkts| >= 9 && NoRepeat(front) && Current(front) == 1 && ps == Block(4, pkts, 1)
    requires TrackerAfter(4, Tracker(4, front), Visit(front)) == 3
    ensures slots == front + [Slot(2, 0)] && NoRepeat(slots)
    ensures HandedInAll(4, pkts, slots)
         == Delivered(4, pkts, front) + Handed(4, Tracker(4, front), Visit(front), ps, Queue(4, pkts, front)) + [pkts[8]]
  {
    hide Tracker, Queue, Delivered, Visit, TrackerAfter, QueueAfter, Handed, Block, NoRepeat, InTurn, Chosen;
    slots := front + [Slot(2, 0)];
    FirstBlocks(pkts);
    OneMoreElsewhere(4, pkts, front, Slot(2, 0));
    RepeatNot(front, Slot(2, 0));
    FirstInTurn(Block(4, pkts, 2));
  }

  lemma {:induction false} FirstInTurn(ps: seq<Packet>)
    requires |ps| > 0
    ensures InTurn(4, 3, [0]) == [0] && Chosen(ps, [0]) == [ps[0]]
  {
    assert [] + [0] == [0];
    OneMoreInTurn(4, 3, [], 0);
  }

  /** Two visits and the first packet of a third block: what all of it delivers. */
  lemma {:induction false} TwoVisits(pkts: seq<Packet>, a: seq<nat>, b: seq<nat>, p: nat)
    returns (slots: seq<Slot>, queue: seq<Packet>)
    requires |pkts| >= 9 && Distinct(a) && Distinct(b) && b != [] && p == TrackerAfter(4, 3, a)
    requires TrackerAfter(4, p, b) == 3
    ensures slots == OfBlock(0, a) + OfBlock(1, b) + [Slot(2, 0)] && NoRepeat(slots)
    ensures queue == QueueAfter(4, 3, a, pkts[..4], seq(4, _ => NO_PACKET))
    ensures HandedInAll(4, pkts, slots)
         == Handed(4, 3, a, pkts[..4], seq(4, _ => NO_PACKET)) + Handed(4, p, b, pkts[4..8], queue) + [pkts[8]]
  {
    hide Tracker, Queue, Delivered, Visit, TrackerAfter, QueueAfter, Handed, Block, NoRepeat, OfBlock, HandedInAll, Current,
      Distinct;
    FirstBlocks(pkts);
    FirstVisit(4, pkts, a);
    VisitOf(4, pkts, OfBlock(0, a), 1, b);
    slots := ThirdBlock(pkts, OfBlock(0, a) + OfBlock(1, b), pkts[4..8]);
    queue := QueueAfter(4, 3, a, pkts[..4], seq(4, _ => NO_PACKET));
    NothingBefore(Handed(4, 3, a, pkts[..4], seq(4, _ => NO_PACKET)));
  }

  lemma {:induction false} NothingBefore(ps: seq<Packet>)
    ensures [] + ps == ps
  {
  }

  lemma {:induction false} LateBlock(ps: seq<Packet>, queue: seq<Packet>)
    requires |ps| == |queue| == 4
    ensures Handed(4, 3, [0, 2, 3, 1], ps, queue) == [ps[0]]
    ensures QueueAfter(4, 3, [0, 2, 3, 1], ps, queue) == [queue[0], ps[1], ps[2], ps[3]]
    ensures TrackerAfter(4, 3, [0, 2, 3, 1]) == 1
  {
    hide InTurn, Count, Last, Originals, OriginalSet;
    Late();
    HandedInTurn(4, 3, [0, 2, 3, 1], ps, queue);
    OriginalSetOf(4, [0, 2, 3, 1]);
  }

  lemma {:induction false} CaughtBlock(ps: seq<Packet>, queue: seq<Packet>)
    requires |ps| == |queue| == 4
    ensures Handed(4, 1, [2, 3, 4, 5], ps, queue) == [ps[2], ps[3], queue[2], queue[3]]
    ensures TrackerAfter(4, 1, [2, 3, 4, 5]) == 3
  {
    hide InTurn, Count, Last;
    Caught();
    HandedRestored(4, 1, [2, 3, 4, 5], ps, queue);
  }

  lemma {:induction false} StaleSlots(pkts: seq<Packet>) returns (slots: seq<Slot>)
    requires |pkts| >= 9
    ensures slots == OfBlock(0, [0, 2, 3, 1]) + OfBlock(1, [2, 3, 4, 5]) + [Slot(2, 0)] && NoRepeat(slots)
    ensures HandedInAll(4, pkts, slots) == [pkts[0], pkts[6], pkts[7], pkts[2], pkts[3], pkts[8]]
  {
    hide HandedInAll, Handed, QueueAfter, TrackerAfter, OfBlock, NoRepeat;
    LateBlock(pkts[..4], seq(4, _ => NO_PACKET));
    CaughtBlock(pkts[4..8], [NO_PACKET, pkts[1], pkts[2], pkts[3]]);
    var queue;
    slots, queue := TwoVisits(pkts, [0, 2, 3, 1], [2, 3, 4, 5], 1);
  }

  /**
   Stale delivery, from the start: block 0 arrives as 0, 2, 3, 1, block 1 as 2, 3 and both recovery datagrams, then
   block 2. Packets 2 and 3 of block 0 come out after block 1 was restored, its own first two never.
   */
  lemma {:induction false} StaleRun(env: Env, pkts: seq<Packet>, received: seq<seq<byte>>)
    requires Sound(env) && env.k == 4 && GoodPackets(env, pkts) && |pkts| >= 9
    requires Carry(env, pkts, OfBlock(0, [0, 2, 3, 1]) + OfBlock(1, [2, 3, 4, 5]) + [Slot(2, 0)], received)
    ensures Run(env, received).Ran?
    ensures Run(env, received).rx.player.handed == [pkts[0], pkts[6], pkts[7], pkts[2], pkts[3], pkts[8]]
  {
    hide Run, Carry, HandAll, HandedInAll, GoodPackets, OfBlock, NoRepeat, Sound;
    var slots := StaleSlots(pkts);
    RunHands(env, pkts, slots, received);
    HandedLog(env, NEW_PLAYER, HandedInAll(4, pkts, slots));
  }

  lemma {:induction false} SwappedBlock(ps: seq<Packet>, queue: seq<Packet>)
    requires |ps| == |queue| == 4
    ensures Handed(4, 3, [0, 1, 3, 2, 4, 5], ps, queue) == [ps[0], ps[1]]
    ensures TrackerAfter(4, 3, [0, 1, 3, 2, 4, 5]) == 2
  {
    hide InTurn, Count, Last;
    Swapped();
    HandedInTurn(4, 3, [0, 1, 3, 2, 4, 5], ps, queue);
  }

  lemma {:induction false} InOrderBlock(ps: seq<Packet>, queue: seq<Packet>)
    ensures Handed(4, 2, [0, 1, 2, 3, 4, 5], ps, queue) == []
    ensures TrackerAfter(4, 2, [0, 1, 2, 3, 4, 5]) == 3
  {
    hide InTurn, Count, Last;
    InOrder();
    HandedInTurn(4, 2, [0, 1, 2, 3, 4, 5], ps, queue);
  }

  lemma {:induction false} SpoiledSlots(pkts: seq<Packet>) returns (slots: seq<Slot>)
    requires |pkts| >= 9
    ensures slots == OfBlock(0, [0, 1, 3, 2, 4, 5]) + OfBlock(1, [0, 1, 2, 3, 4, 5]) + [Slot(2, 0)] && NoRepeat(slots)
    ensures HandedInAll(4, pkts, slots) == [pkts[0], pkts[1], pkts[8]]
  {
    hide HandedInAll, Handed, QueueAfter, TrackerAfter, OfBlock, NoRepeat;
    SwappedBlock(pkts[..4], seq(4, _ => NO_PACKET));
    InOrderBlock(pkts[4..8], pkts[4..8]);
    var queue;
    slots, queue := TwoVisits(pkts, [0, 1, 3, 2, 4, 5], [0, 1, 2, 3, 4, 5], 2);
    InOrderBlock(pkts[4..8], queue);
  }

  /** No datagram is lost; two neighbours change places at the end of block 0, and the next block is lost as well. */
  lemma {:induction false} SpoiledRun(env: Env, pkts: seq<Packet>, received: seq<seq<byte>>)
    requires Sound(env) && env.k == 4 && GoodPackets(env, pkts) && |pkts| >= 9
    requires Carry(env, pkts, OfBlock(0, [0, 1, 3, 2, 4, 5]) + OfBlock(1, [0, 1, 2, 3, 4, 5]) + [Slot(2, 0)], received)
    ensures Run(env, received).Ran?
    ensures Run(env, received).rx.player.handed == [pkts[0], pkts[1], pkts[8]]
  {
    hide Run, Carry, HandAll, HandedInAll, GoodPackets, OfBlock, NoRepeat, Sound;
    var slots := SpoiledSlots(pkts);
    RunHands(env, pkts, slots, received);
    HandedLog(env, NEW_PLAYER, HandedInAll(4, pkts, slots));
  }
}
