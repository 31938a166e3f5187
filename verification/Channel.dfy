/** Sender, lossy channel and receiver together: the datagrams put on the wire, some dropped, into the receiver. */
module Channel {
  import opened Bytes
  import opened Erasure
  import opened Stream
  import opened Video
  import opened Receiver
  import opened Arrival
  import opened BlockArrival
  import opened Session
  import opened BlockOrder
  import opened Reordering
  import opened EndToEnd
  import opened Schedule

  /** What the channel delivers: the datagrams at these positions of the wire, in this order. */
  ghost predicate Kept(kept: seq<nat>, n: nat) {
    Increasing(kept) && forall i :: 0 <= i < |kept| ==> kept[i] < n
  }

  function Picked<T>(s: seq<T>, kept: seq<nat>): (picked: seq<T>)
    requires forall i :: 0 <= i < |kept| ==> kept[i] < |s|
    ensures |picked| == |kept|
  {
    seq(|kept|, i requires 0 <= i < |kept| => s[kept[i]])
  }

  /** received is what survives of the wire when the channel keeps these positions. */
  ghost predicate Survives(wire: seq<seq<byte>>, kept: seq<nat>, received: seq<seq<byte>>) {
    Kept(kept, |wire|) && received == Picked(wire, kept)
  }

  /** If this is a whole block, the sender's cut of its recovery shards loses nothing. */
  ghost predicate CutFitsIn(env: Env, blk: seq<Packet>)
    requires env.Built()
  {
    AllFit(env, blk) && |blk| == env.k ==> CutsFit(env, blk)
  }

  /** Hypothesis on the blocks of which a recovery datagram arrives: the sender's cut of their shards loses nothing. */
  ghost predicate CutsFitIn(env: Env, pkts: seq<Packet>, slots: seq<Slot>)
    requires env.Built()
  {
    forall s :: s in slots && env.k <= s.place ==> CutFitsIn(env, Block(env.k, pkts, s.block))
  }

  /** The same, for the datagrams of the sender's schedule at these positions. */
  ghost predicate CutsFitKept(env: Env, pkts: seq<Packet>, kept: seq<nat>)
    requires env.Built()
  {
    var slots := Slots(env.k, env.r, |pkts|);
    (forall i :: 0 <= i < |kept| ==> kept[i] < |slots|) ==> CutsFitIn(env, pkts, Picked(slots, kept))
  }

  lemma {:induction false} PlaceRebuilt(env: Env, blk: seq<Packet>, o: nat)
    requires env.Built() && Shapes(env.code) && AllFit(env, blk) && |blk| <= env.k && Place(env, blk, o)
    requires env.k <= o ==> CutsFit(env, blk)
    ensures Rebuilt(env, blk, o)
  {
    if o < env.k {
      PacketRebuilt(env, blk, o);
    } else {
      RecoveryRebuilt(env, blk, o - env.k);
      assert env.k + (o - env.k) == o;
    }
  }

  lemma {:induction false} WireCarries(env: Env, pkts: seq<Packet>, slots: seq<Slot>, wire: seq<seq<byte>>, i: nat)
    requires Sound(env) && IsWire(env, pkts, slots, wire) && i < |slots|
    requires env.k <= slots[i].place ==> CutFitsIn(env, Block(env.k, pkts, slots[i].block))
    ensures CarriesSlot(env, Block(env.k, pkts, slots[i].block), slots[i], wire[i])
  {
    hide Rebuilt, CutsFit, Block;
    PlaceRebuilt(env, Block(env.k, pkts, slots[i].block), slots[i].place);
  }

  lemma {:induction false} PickedOneMore<T>(s: seq<T>, kept: seq<nat>)
    requires kept != [] && forall i :: 0 <= i < |kept| ==> kept[i] < |s|
    ensures Picked(s, kept) == Picked(s, kept[..|kept| - 1]) + [s[kept[|kept| - 1]]]
    ensures Picked(s, kept)[..|kept| - 1] == Picked(s, kept[..|kept| - 1])
  {
  }

  /** Whatever is kept of the sender's wire is what the receiver's theorems speak of. */
  lemma {:induction false} PickedCarry(
    env: Env, pkts: seq<Packet>, slots: seq<Slot>, wire: seq<seq<byte>>, kept: seq<nat>)
    requires Sound(env) && IsWire(env, pkts, slots, wire)
    requires forall i :: 0 <= i < |kept| ==> kept[i] < |slots|
    requires CutsFitIn(env, pkts, Picked(slots, kept))
    ensures Carry(env, pkts, Picked(slots, kept), Picked(wire, kept))
  {
    if kept != [] {
      hide CarriesSlot, IsDatagram, CutFitsIn, Picked, Block, Sound;
      var front, i := kept[..|kept| - 1], kept[|kept| - 1];
      PickedOneMore(slots, kept);
      PickedOneMore(wire, kept);
      assert slots[i] in Picked(slots, kept);
      PickedCarry(env, pkts, slots, wire, front);
      WireCarries(env, pkts, slots, wire, i);
    }
  }

  lemma {:induction false} PickedLossOnly(slots: seq<Slot>, kept: seq<nat>)
    requires LossOnly(slots) && Kept(kept, |slots|)
    ensures LossOnly(Picked(slots, kept))
  {
  }

  /** The sender's schedule, as far as it survives. */
  lemma {:induction false} SurvivingSlots(
    env: Env, pkts: seq<Packet>, wire: seq<seq<byte>>, kept: seq<nat>, received: seq<seq<byte>>)
    returns (slots: seq<Slot>, picked: seq<Slot>)
    requires Sound(env) && CutsFitKept(env, pkts, kept)
    requires IsWire(env, pkts, Slots(env.k, env.r, |pkts|), wire) && Survives(wire, kept, received)
    ensures slots == Slots(env.k, env.r, |pkts|) && |slots| == |wire| && InClosedForm(env.k + env.r, slots)
    ensures picked == Picked(slots, kept) && LossOnly(picked)
    ensures Carry(env, pkts, picked, received)
  {
    hide CutsFitIn, InClosedForm, LossOnly, Carry, Slots, IsDatagram, Lawful, Shapes, Picked, Block;
    slots := Slots(env.k, env.r, |pkts|);
    picked := Picked(slots, kept);
    ClosedForm(env.k, env.r, |pkts|);
    ScheduleInOrder(env.k, env.r, |pkts|);
    PickedLossOnly(slots, kept);
    PickedCarry(env, pkts, slots, wire, kept);
  }

  /**
   Every stream, every loss: fed the datagrams that survive of what the sender emits, the receiver does not stop and
   hands the decoder exactly what is specified.
   */
  lemma {:induction false} WireRefinement(
    env: Env, pkts: seq<Packet>, wire: seq<seq<byte>>, kept: seq<nat>, received: seq<seq<byte>>)
    returns (picked: seq<Slot>)
    requires Sound(env) && GoodPackets(env, pkts) && CutsFitKept(env, pkts, kept)
    requires IsWire(env, pkts, Slots(env.k, env.r, |pkts|), wire) && Survives(wire, kept, received)
    ensures |Slots(env.k, env.r, |pkts|)| == |wire| && picked == Picked(Slots(env.k, env.r, |pkts|), kept)
    ensures Run(env, received).Ran?
    ensures Run(env, received).rx.player.handed == Specified(env.k, pkts, picked)
    ensures HandAll(env, NEW_PLAYER, Specified(env.k, pkts, picked)) == Played(Run(env, received).rx.player)
  {
    var slots;
    slots, picked := SurvivingSlots(env, pkts, wire, kept, received);
    Refinement(env, pkts, picked, received);
  }

  /**
   What the H.264 decoder is given, whatever the channel drops: the depacketized bytes of the packets specified,
   cut only where partition heads start (Video.Reassembled).
   */
  lemma {:induction false} DecoderFed(
    env: Env, pkts: seq<Packet>, wire: seq<seq<byte>>, kept: seq<nat>, received: seq<seq<byte>>)
    returns (picked: seq<Slot>, outs: seq<seq<byte>>)
    requires Sound(env) && GoodPackets(env, pkts) && CutsFitKept(env, pkts, kept)
    requires IsWire(env, pkts, Slots(env.k, env.r, |pkts|), wire) && Survives(wire, kept, received)
    ensures |Slots(env.k, env.r, |pkts|)| == |wire| && picked == Picked(Slots(env.k, env.r, |pkts|), kept)
    ensures Run(env, received).Ran?
    ensures Depacketized(env, Specified(env.k, pkts, picked)).Some?
    ensures outs == Depacketized(env, Specified(env.k, pkts, picked)).value.1
    ensures Reassembled(env, Specified(env.k, pkts, picked), outs, Run(env, received).rx.player)
  {
    hide Run, Slots, IsWire, Reassembled, Specified, CutsFitKept, GoodPackets, Depacketized, HandAll;
    picked := WireRefinement(env, pkts, wire, kept, received);
    DecoderInputs(env, Specified(env.k, pkts, picked));
    outs := Depacketized(env, Specified(env.k, pkts, picked)).value.1;
  }

  /** The datagrams of block m that the channel dropped, by their place; w is the number of datagrams of a block. */
  ghost function Dropped(w: nat, kept: seq<nat>, m: nat): (dropped: set<nat>) {
    set o | o in Indices(w) && m * w + o !in kept
  }

  lemma {:induction false} SlotAtIsAt(w: nat, i: nat)
    requires w > 0
    ensures i == SlotAt(w, i).block * w + SlotAt(w, i).place
  {
  }

  lemma {:induction false} KeptIsGot(w: nat, slots: seq<Slot>, kept: seq<nat>, m: nat, o: nat, i: nat)
    requires w > 0 && InClosedForm(w, slots) && forall i :: 0 <= i < |kept| ==> kept[i] < |slots|
    requires SlotAt(w, i) == Slot(m, o) && i == m * w + o
    ensures i in kept <==> o in Got(Picked(slots, kept), m)
  {
    hide SlotAt;
    var picked := Picked(slots, kept);
    if i in kept {
      var n :| 0 <= n < |kept| && kept[n] == i;
      assert picked[n] == Slot(m, o) && picked[n] in picked;
    }
    if o in Got(picked, m) {
      var s :| s in picked && s.block == m && s.place == o;
      var n :| 0 <= n < |picked| && picked[n] == s;
      assert SlotAt(w, kept[n]) == s;
      SlotAtIsAt(w, kept[n]);
    }
  }

  lemma {:induction false} DroppedIsNotGot(w: nat, slots: seq<Slot>, kept: seq<nat>, m: nat)
    requires w > 0 && InClosedForm(w, slots) && forall i :: 0 <= i < |kept| ==> kept[i] < |slots|
    ensures Dropped(w, kept, m) == Indices(w) - Got(Picked(slots, kept), m)
  {
    hide SlotAt, Got, InClosedForm, Picked, Dropped;
    forall o: nat | o in Indices(w) ensures o in Dropped(w, kept, m) <==> o !in Got(Picked(slots, kept), m) {
      PlaceOf(w, m, o);
      KeptIsGot(w, slots, kept, m, o, m * w + o);
      DroppedAt(w, kept, m, o);
    }
    DroppedBelow(w, kept, m);
  }

  lemma {:induction false} DroppedAt(w: nat, kept: seq<nat>, m: nat, o: nat)
    ensures o in Dropped(w, kept, m) <==> o in Indices(w) && m * w + o !in kept
  {
  }

  lemma {:induction false} DroppedBelow(w: nat, kept: seq<nat>, m: nat)
    ensures Dropped(w, kept, m) <= Indices(w)
  {
  }

  /** The block the last surviving datagram belongs to. */
  function Reached(w: nat, kept: seq<nat>): (m: nat)
    requires w > 0
  {
    if kept == [] then 0 else kept[|kept| - 1] / w
  }

  /** Every block before the one reached lost at most r datagrams. */
  ghost predicate Tolerated(w: nat, r: nat, kept: seq<nat>)
    requires w > 0
  {
    forall m :: 0 <= m < Reached(w, kept) ==> |Dropped(w, kept, m)| <= r
  }

  /** n is the first of the k packets that was dropped, or k. */
  ghost predicate FirstDropped(k: nat, dropped: set<nat>, n: nat) {
    n <= k && (forall o :: 0 <= o < n ==> o !in dropped) && (n < k ==> n in dropped)
  }

  lemma {:induction false} ToleratedIsTolerable(k: nat, r: nat, slots: seq<Slot>, kept: seq<nat>)
    requires k + r > 0 && InClosedForm(k + r, slots) && (forall i :: 0 <= i < |kept| ==> kept[i] < |slots|)
    requires Tolerated(k + r, r, kept)
    ensures Current(Picked(slots, kept)) == Reached(k + r, kept)
    ensures forall m: nat :: m < Reached(k + r, kept) ==> Tolerable(k, r, Got(Picked(slots, kept), m))
  {
    forall m: nat | m < Reached(k + r, kept) ensures Tolerable(k, r, Got(Picked(slots, kept), m)) {
      assert |Dropped(k + r, kept, m)| <= r;
      DroppedIsNotGot(k + r, slots, kept, m);
    }
  }

  lemma {:induction false} GapIsFirstDropped(k: nat, r: nat, slots: seq<Slot>, kept: seq<nat>, m: nat)
    requires k + r > 0 && InClosedForm(k + r, slots) && (forall i :: 0 <= i < |kept| ==> kept[i] < |slots|)
    requires r > 0
    ensures FirstDropped(k, Dropped(k + r, kept, m), Gap(k, Got(Picked(slots, kept), m)))
  {
    DroppedIsNotGot(k + r, slots, kept, m);
  }

  lemma {:induction false} PrefixOfStream(k: nat, pkts: seq<Packet>, m: nat, n: nat)
    requires m * k <= |pkts| && n <= |Block(k, pkts, m)|
    ensures m * k + n <= |pkts|
    ensures SentBefore(k, pkts, m) + Upto(Block(k, pkts, m), n) == pkts[..m * k + n]
  {
    BlockPrefix(k, pkts, m, n);
    if n > 0 {
      Adjacent(pkts, 0, m * k, m * k + n);
    }
  }

  /** What arrived of a block is in it, so its gap-free prefix is too. */
  lemma {:induction false} GapInBlock(env: Env, pkts: seq<Packet>, slots: seq<Slot>, received: seq<seq<byte>>, m: nat)
    requires Sound(env) && Carry(env, pkts, slots, received)
    ensures Gap(env.k, Got(slots, m)) <= |Block(env.k, pkts, m)|
  {
    var n := |Block(env.k, pkts, m)|;
    if n < Gap(env.k, Got(slots, m)) {
      assert n in Got(slots, m);
      var s :| s in slots && s.block == m && s.place == n;
      CarriedPlace(env, pkts, slots, received, s);
    }
  }

  /**
   Tolerance on the wire: if the channel dropped at most r of the w = k + r datagrams of every block before the one
   it has reached, all packets of those blocks come out, each once and in order, and then those of the block reached
   up to the first one dropped.
   */
  lemma {:induction false} WireTolerance(
    env: Env, pkts: seq<Packet>, wire: seq<seq<byte>>, kept: seq<nat>, received: seq<seq<byte>>, w: nat)
    returns (n: nat, total: nat)
    requires Sound(env) && GoodPackets(env, pkts) && CutsFitKept(env, pkts, kept)
    requires IsWire(env, pkts, Slots(env.k, env.r, |pkts|), wire) && Survives(wire, kept, received)
    requires w == env.k + env.r && Tolerated(w, env.r, kept)
    ensures FirstDropped(env.k, Dropped(w, kept, Reached(w, kept)), n)
    ensures total == Reached(w, kept) * env.k + n <= |pkts|
    ensures Run(env, received).Ran? && Run(env, received).rx.player.handed == pkts[..total]
  {
    hide Run, Carry, IsWire, Slots, Got, Dropped, FirstDropped, Tolerable, Tolerated, GoodPackets, CutsFitKept,
      InClosedForm, Reached, Block, Upto, SentBefore, Gap, LossOnly, Lawful, Shapes;
    var slots, picked := SurvivingSlots(env, pkts, wire, kept, received);
    var m := Reached(w, kept);
    ToleratedIsTolerable(env.k, env.r, slots, kept);
    Tolerance(env, pkts, picked, received);
    n := Gap(env.k, Got(picked, m));
    total := m * env.k + n;
    GapIsFirstDropped(env.k, env.r, slots, kept, m);
    GapInBlock(env, pkts, picked, received, m);
    PrefixOfStream(env.k, pkts, m, n);
  }

  // ---- Datagrams out of order --------------------------------------------------------------------

  lemma {:induction false} FirstSlots(n: nat) returns (slots: seq<Slot>)
    requires n >= 9
    ensures slots == Slots(4, 2, n) && |slots| >= 13
    ensures forall o :: 0 <= o < 6 ==> slots[o] == Slot(0, o) && slots[6 + o] == Slot(1, o)
    ensures slots[12] == Slot(2, 0)
  {
    hide Slots;
    slots := Slots(4, 2, n);
    ClosedForm(4, 2, n);
    assert 9 <= n && |slots| == WireLength(4, 2, n / 4, n % 4);
    forall o: nat | o < 6 ensures SlotAt(6, o) == Slot(0, o) && SlotAt(6, 6 + o) == Slot(1, o) {
      PlaceOf(6, 0, o);
      PlaceOf(6, 1, o);
    }
    PlaceOf(6, 2, 0);
  }

  /** The first datagrams of the wire in this order, as slots. */
  lemma {:induction false} PickedBlocks(slots: seq<Slot>, a: seq<nat>, b: seq<nat>, kept: seq<nat>)
    requires |slots| >= 13 && slots[12] == Slot(2, 0)
    requires forall o :: 0 <= o < 6 ==> slots[o] == Slot(0, o) && slots[6 + o] == Slot(1, o)
    requires (forall i :: 0 <= i < |a| ==> a[i] < 6) && (forall i :: 0 <= i < |b| ==> b[i] < 6)
    requires kept == a + seq(|b|, i requires 0 <= i < |b| => 6 + b[i]) + [12]
    ensures forall i :: 0 <= i < |kept| ==> kept[i] < |slots|
    ensures Picked(slots, kept) == OfBlock(0, a) + OfBlock(1, b) + [Slot(2, 0)]
  {
  }

  lemma {:induction false} CutsOfBlocks(env: Env, pkts: seq<Packet>, a: seq<nat>, b: seq<nat>)
    requires env.Built() && env.k == 4
    requires (forall o :: o in a ==> o < 4) || CutFitsIn(env, Block(4, pkts, 0))
    requires CutFitsIn(env, Block(4, pkts, 1))
    ensures CutsFitIn(env, pkts, OfBlock(0, a) + OfBlock(1, b) + [Slot(2, 0)])
  {
    hide CutFitsIn, Block;
    forall s | s in OfBlock(0, a) + OfBlock(1, b) + [Slot(2, 0)] && 4 <= s.place
      ensures CutFitsIn(env, Block(4, pkts, s.block))
    {
      if s in OfBlock(0, a) {
        assert s.block == 0 && s.place in a;
      }
    }
  }

  /** What the sender put on the wire, in this order, is what the receiver's theorems speak of. */
  lemma {:induction false} OutOfOrderCarry(
    env: Env, pkts: seq<Packet>, wire: seq<seq<byte>>, a: seq<nat>, b: seq<nat>, kept: seq<nat>)
    requires Sound(env) && env.k == 4 && env.r == 2 && |pkts| >= 9
    requires IsWire(env, pkts, Slots(4, 2, |pkts|), wire)
    requires (forall i :: 0 <= i < |a| ==> a[i] < 6) && (forall i :: 0 <= i < |b| ==> b[i] < 6)
    requires kept == a + seq(|b|, i requires 0 <= i < |b| => 6 + b[i]) + [12]
    requires (forall o :: o in a ==> o < 4) || CutFitsIn(env, Block(4, pkts, 0))
    requires CutFitsIn(env, Block(4, pkts, 1))
    ensures |wire| >= 13 && forall i :: 0 <= i < |kept| ==> kept[i] < |wire|
    ensures Carry(env, pkts, OfBlock(0, a) + OfBlock(1, b) + [Slot(2, 0)], Picked(wire, kept))
  {
    hide Slots, Carry, Block, CutFitsIn, CutsFitIn, OfBlock, Picked, IsDatagram, Lawful, Shapes;
    var slots := FirstSlots(|pkts|);
    PickedBlocks(slots, a, b, kept);
    CutsOfBlocks(env, pkts, a, b);
    PickedCarry(env, pkts, slots, wire, kept);
  }

  /**
   Stale delivery with the sender's own datagrams: nothing but the order of the first block's, and the loss of the
   second block's first two, makes the receiver hand on packets 2 and 3 after 6 and 7.
   */
  lemma {:induction false} StaleOnTheWire(env: Env, pkts: seq<Packet>, wire: seq<seq<byte>>)
    returns (received: seq<seq<byte>>)
    requires Sound(env) && env.k == 4 && env.r == 2 && GoodPackets(env, pkts) && |pkts| >= 9
    requires IsWire(env, pkts, Slots(4, 2, |pkts|), wire) && CutFitsIn(env, Block(4, pkts, 1))
    ensures |wire| >= 13 && received
         == [wire[0], wire[2], wire[3], wire[1], wire[8], wire[9], wire[10], wire[11], wire[12]]
    ensures Run(env, received).Ran?
    ensures Run(env, received).rx.player.handed == [pkts[0], pkts[6], pkts[7], pkts[2], pkts[3], pkts[8]]
  {
    hide Run, IsWire, Slots, Carry, OfBlock, GoodPackets, CutFitsIn, Block, Lawful, Shapes;
    var kept := [0, 2, 3, 1, 8, 9, 10, 11, 12];
    OutOfOrderCarry(env, pkts, wire, [0, 2, 3, 1], [2, 3, 4, 5], kept);
    received := Picked(wire, kept);
    StaleRun(env, pkts, received);
  }

  /** And with none lost: two neighbours of the first block exchanged cost their own and the whole next block. */
  lemma {:induction false} SpoiledOnTheWire(env: Env, pkts: seq<Packet>, wire: seq<seq<byte>>)
    returns (received: seq<seq<byte>>)
    requires Sound(env) && env.k == 4 && env.r == 2 && GoodPackets(env, pkts) && |pkts| >= 9
    requires IsWire(env, pkts, Slots(4, 2, |pkts|), wire) && CutFitsIn(env, Block(4, pkts, 0)) && CutFitsIn(env, Block(4, pkts, 1))
    ensures |wire| >= 13 && received
         == wire[..2] + [wire[3], wire[2]] + wire[4..13]
    ensures Run(env, received).Ran?
    ensures Run(env, received).rx.player.handed == [pkts[0], pkts[1], pkts[8]]
  {
    hide Run, IsWire, Slots, Carry, OfBlock, GoodPackets, CutFitsIn, Block, Lawful, Shapes;
    var kept := [0, 1, 3, 2, 4, 5, 6, 7, 8, 9, 10, 11, 12];
    OutOfOrderCarry(env, pkts, wire, [0, 1, 3, 2, 4, 5], [0, 1, 2, 3, 4, 5], kept);
    received := Picked(wire, kept);
    SpoiledRun(env, pkts, received);
  }
}
