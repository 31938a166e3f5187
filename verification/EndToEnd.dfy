/** The stream at the decoder, when datagrams are lost but not reordered. */
module EndToEnd {
  import opened Bytes
  import opened Erasure
  import opened Stream
  import opened Video
  import opened Receiver
  import opened Arrival
  import opened BlockArrival
  import opened Session
  import opened BlockOrder

  /** The places of block m that arrived. */
  function Got(slots: seq<Slot>, m: nat): (got: set<nat>)
  {
    set s | s in slots && s.block == m :: s.place
  }

  lemma {:induction false} GotPlaces(slots: seq<Slot>, m: nat)
    ensures Got(slots, m) == Elements(PlacesIn(slots, m))
  {
    forall o ensures o in Got(slots, m) <==> o in Elements(PlacesIn(slots, m)) {
      PlacesOf(slots, m, o);
      if Slot(m, o) in slots {
        assert Slot(m, o).place in Got(slots, m);
      }
    }
  }

  lemma {:induction false} LossOnlyFront(front: seq<Slot>, s: Slot)
    requires LossOnly(front + [s])
    ensures LossOnly(front)
    ensures forall i :: 0 <= i < |front| ==> Before(front[i], s)
  {
    var slots := front + [s];
    assert slots[|front|] == s;
    assert forall i :: 0 <= i < |front| ==> slots[i] == front[i];
  }

  lemma {:induction false} IncreasingOneMore(a: seq<nat>, o: nat)
    requires Increasing(a) && forall p :: p in a ==> p < o
    ensures Increasing(a + [o])
  {
    forall i | 0 <= i < |a| ensures a[i] < o {
      assert a[i] in a;
    }
  }

  lemma {:induction false} LossOnlyIncreasing(slots: seq<Slot>, m: nat)
    requires LossOnly(slots)
    ensures Increasing(PlacesIn(slots, m))
  {
    if slots != [] {
      var front, s := slots[..|slots| - 1], slots[|slots| - 1];
      assert slots == front + [s];
      LossOnlyFront(front, s);
      LossOnlyIncreasing(front, m);
      OneMoreSlot(front, s, m);
      if s.block == m {
        forall o | o in PlacesIn(front, m) ensures o < s.place {
          PlacesOf(front, m, o);
          var i :| 0 <= i < |front| && front[i] == Slot(m, o);
          assert Before(front[i], s);
        }
        IncreasingOneMore(PlacesIn(front, m), s.place);
      }
    }
  }

  lemma {:induction false} LossOnlySteady(k: nat, slots: seq<Slot>)
    requires k > 0 && LossOnly(slots)
    ensures BlockByBlock(slots) && AllSteady(k, slots)
  {
    forall m: nat | m < Current(slots) ensures Steady(k, k - 1, PlacesIn(slots, m)) {
      LossOnlyIncreasing(slots, m);
      IncreasingSteady(k, k - 1, PlacesIn(slots, m));
    }
    assert forall i, j :: 0 <= i < j < |slots| ==> Before(slots[i], slots[j]);
  }

  /** What a finished block owes the decoder: all of it if k datagrams arrived, otherwise its gap-free prefix. */
  function Due(k: nat, blk: seq<Packet>, got: set<nat>): (due: seq<Packet>) {
    if |got| >= k then blk else Upto(blk, Gap(k, got))
  }

  function DueParts(k: nat, pkts: seq<Packet>, slots: seq<Slot>): (parts: nat -> seq<Packet>) {
    (m: nat) => Due(k, Block(k, pkts, m), Got(slots, m))
  }

  /** The whole specification: what each finished block owes, then the gap-free prefix of the current one. */
  function Specified(k: nat, pkts: seq<Packet>, slots: seq<Slot>): (ps: seq<Packet>) {
    var m := Current(slots);
    Joined(DueParts(k, pkts, slots), m) + Upto(Block(k, pkts, m), Gap(k, Got(slots, m)))
  }

  lemma {:induction false} HandedIsDue(k: nat, ps: seq<Packet>, slots: seq<Slot>, m: nat)
    requires k > 0 && LossOnly(slots) && |ps| <= k
    ensures Upto(ps, Yield(k, PlacesIn(slots, m))) == Due(k, ps, Got(slots, m))
    ensures |InTurn(k, k - 1, PlacesIn(slots, m))| == Gap(k, Got(slots, m))
  {
    var a := PlacesIn(slots, m);
    LossOnlyIncreasing(slots, m);
    IncreasingYield(k, a);
    IncreasingInOrder(k, a);
    GotPlaces(slots, m);
    ElementsSize(a);
  }

  lemma {:induction false} PartsAreDue(k: nat, pkts: seq<Packet>, slots: seq<Slot>)
    requires k > 0 && LossOnly(slots)
    ensures Joined(Part(k, pkts, slots), Current(slots)) == Joined(DueParts(k, pkts, slots), Current(slots))
  {
    forall i: nat | i < Current(slots) ensures Part(k, pkts, slots)(i) == DueParts(k, pkts, slots)(i) {
      HandedIsDue(k, Block(k, pkts, i), slots, i);
    }
    JoinedSame(Part(k, pkts, slots), DueParts(k, pkts, slots), Current(slots));
  }

  /**
   Exact refinement: for every stream and every loss of datagrams, the receiver does not stop, and hands the
   decoder exactly what the specification says, each packet once and in order.
   */
  lemma {:induction false} Refinement(env: Env, pkts: seq<Packet>, slots: seq<Slot>, received: seq<seq<byte>>)
    requires Sound(env) && GoodPackets(env, pkts)
    requires LossOnly(slots) && Carry(env, pkts, slots, received)
    ensures Run(env, received).Ran?
    ensures Run(env, received).rx.player.handed == Specified(env.k, pkts, slots)
    ensures HandAll(env, NEW_PLAYER, Specified(env.k, pkts, slots)) == Played(Run(env, received).rx.player)
  {
    hide Run, Carry, HandAll, HandedInAll, LossOnly, BlockByBlock, AllSteady, GoodPackets, Joined, InTurn, PlacesIn;
    var k, m := env.k, Current(slots);
    LossOnlySteady(k, slots);
    RunHandsBlocks(env, pkts, slots, received);
    PartsAreDue(k, pkts, slots);
    HandedIsDue(k, Block(k, pkts, m), slots, m);
    HandedLog(env, NEW_PLAYER, Specified(env.k, pkts, slots));
  }

  /** At most r datagrams of the block were lost. */
  ghost predicate Tolerable(k: nat, r: nat, got: set<nat>) {
    |Indices(k + r) - got| <= r
  }

  lemma {:induction false} TolerableIsEnough(k: nat, r: nat, got: set<nat>)
    requires Tolerable(k, r, got)
    ensures |got| >= k
  {
    var all := Indices(k + r);
    assert all == (all - got) + (all * got);
    SubsetSize(all * got, got);
  }

  /** The packets sent before block m. */
  function SentBefore(k: nat, pkts: seq<Packet>, m: nat): (ps: seq<Packet>) {
    if m * k <= |pkts| then pkts[..m * k] else pkts
  }

  lemma {:induction false} JoinedBlocks(k: nat, pkts: seq<Packet>, parts: nat -> seq<Packet>, m: nat)
    requires forall i: nat :: i < m ==> parts(i) == Block(k, pkts, i) && |parts(i)| == k
    ensures m * k <= |pkts| && Joined(parts, m) == SentBefore(k, pkts, m)
  {
    if m > 0 {
      JoinedBlocks(k, pkts, parts, m - 1);
      assert m * k == (m - 1) * k + k;
      BlockIsStretch(k, pkts, m - 1);
      assert |parts(m - 1)| == k;
    }
  }

  lemma {:induction false} CurrentBlockNonEmpty(env: Env, pkts: seq<Packet>, slots: seq<Slot>, received: seq<seq<byte>>)
    requires Sound(env) && Carry(env, pkts, slots, received) && slots != []
    ensures Block(env.k, pkts, Current(slots)) != []
  {
  }

  /**
   Tolerance: if no finished block lost more than r of its k + r datagrams, everything sent before the current
   block reaches the decoder, each packet once and in order, followed by the current block up to its first gap.
   */
  lemma {:induction false} Tolerance(env: Env, pkts: seq<Packet>, slots: seq<Slot>, received: seq<seq<byte>>)
    requires Sound(env) && GoodPackets(env, pkts)
    requires LossOnly(slots) && Carry(env, pkts, slots, received)
    requires forall m: nat :: m < Current(slots) ==> Tolerable(env.k, env.r, Got(slots, m))
    ensures Run(env, received).Ran?
    ensures Current(slots) * env.k <= |pkts|
    ensures Run(env, received).rx.player.handed
         == SentBefore(env.k, pkts, Current(slots))
            + Upto(Block(env.k, pkts, Current(slots)), Gap(env.k, Got(slots, Current(slots))))
  {
    var m, parts := Current(slots), DueParts(env.k, pkts, slots);
    Refinement(env, pkts, slots, received);
    forall i: nat | i < m ensures parts(i) == Block(env.k, pkts, i) && |parts(i)| == env.k {
      TolerableIsEnough(env.k, env.r, Got(slots, i));
      CurrentBlockNonEmpty(env, pkts, slots, received);
      EarlierComplete(env.k, pkts, i, m);
    }
    JoinedBlocks(env.k, pkts, parts, m);
  }

  /** ps is pkts at the increasing positions idx. */
  ghost predicate Picks(pkts: seq<Packet>, idx: seq<nat>, ps: seq<Packet>) {
    && Increasing(idx) && |idx| == |ps|
    && forall i :: 0 <= i < |idx| ==> idx[i] < |pkts| && ps[i] == pkts[idx[i]]
  }

  lemma {:induction false} PickStretch(pkts: seq<Packet>, from: nat, n: nat, idx: seq<nat>, ps: seq<Packet>)
    returns (longer: seq<nat>)
    requires Picks(pkts, idx, ps) && (forall i :: 0 <= i < |idx| ==> idx[i] < from)
    requires from + n <= |pkts|
    ensures Picks(pkts, longer, ps + pkts[from..from + n])
    ensures forall i :: 0 <= i < |longer| ==> longer[i] < from + n
  {
    longer := idx + seq(n, i => from + i);
  }

  lemma {:induction false} BlockPrefix(k: nat, pkts: seq<Packet>, m: nat, n: nat)
    requires n <= |Block(k, pkts, m)|
    ensures n == 0 || (m * k + n <= |pkts| && Block(k, pkts, m)[..n] == pkts[m * k..m * k + n])
  {
    hide Block;
    BlockIsStretch(k, pkts, m);
    if n > 0 {
      StretchPrefix(pkts, m * k, Block(k, pkts, m), n);
    }
  }

  lemma {:induction false} StretchPrefix(pkts: seq<Packet>, from: nat, blk: seq<Packet>, n: nat)
    requires n <= |blk| && from + |blk| <= |pkts| && blk == pkts[from..from + |blk|]
    ensures blk[..n] == pkts[from..from + n]
  {
  }

  lemma {:induction false} PickBlock(k: nat, pkts: seq<Packet>, m: nat, idx: seq<nat>, ps: seq<Packet>, n: nat)
    returns (longer: seq<nat>)
    requires Picks(pkts, idx, ps) && (forall i :: 0 <= i < |idx| ==> idx[i] < m * k)
    requires n <= |Block(k, pkts, m)|
    ensures Picks(pkts, longer, ps + Block(k, pkts, m)[..n])
    ensures forall i :: 0 <= i < |longer| ==> longer[i] < m * k + k
  {
    BlockPrefix(k, pkts, m, n);
    if n == 0 {
      longer := idx;
      assert ps + Block(k, pkts, m)[..0] == ps;
    } else {
      longer := PickStretch(pkts, m * k, n, idx, ps);
    }
  }

  lemma {:induction false} DueIsPrefix(k: nat, pkts: seq<Packet>, slots: seq<Slot>, m: nat)
    returns (blk: seq<Packet>, n: nat)
    ensures blk == Block(k, pkts, m) && n <= |blk| && DueParts(k, pkts, slots)(m) == blk[..n]
  {
    blk := Block(k, pkts, m);
    var due := Due(k, blk, Got(slots, m));
    n := |due|;
  }

  lemma {:induction false} PickJoined(k: nat, pkts: seq<Packet>, slots: seq<Slot>, m: nat) returns (idx: seq<nat>)
    ensures Picks(pkts, idx, Joined(DueParts(k, pkts, slots), m))
    ensures forall i :: 0 <= i < |idx| ==> idx[i] < m * k
  {
    if m == 0 {
      idx := [];
    } else {
      hide Picks, Block, DueParts;
      idx := PickJoined(k, pkts, slots, m - 1);
      var blk, n := DueIsPrefix(k, pkts, slots, m - 1);
      assert m * k == (m - 1) * k + k;
      idx := PickBlock(k, pkts, m - 1, idx, Joined(DueParts(k, pkts, slots), m - 1), n);
    }
  }

  /** Whatever is lost, the decoder sees packets of the stream in their order, none twice. */
  lemma {:induction false} OrderedSubsequence(env: Env, pkts: seq<Packet>, slots: seq<Slot>, received: seq<seq<byte>>)
    returns (idx: seq<nat>)
    requires Sound(env) && GoodPackets(env, pkts)
    requires LossOnly(slots) && Carry(env, pkts, slots, received)
    ensures Run(env, received).Ran? && Picks(pkts, idx, Run(env, received).rx.player.handed)
  {
    hide Run, Carry, GoodPackets, LossOnly, Joined, DueParts, Block, Gap, Got, Picks, Current, HandAll, Sound;
    Refinement(env, pkts, slots, received);
    var m := Current(slots);
    var last := Upto(Block(env.k, pkts, m), Gap(env.k, Got(slots, m)));
    idx := PickJoined(env.k, pkts, slots, m);
    assert last == Block(env.k, pkts, m)[..|last|];
    idx := PickBlock(env.k, pkts, m, idx, Joined(DueParts(env.k, pkts, slots), m), |last|);
  }
}
