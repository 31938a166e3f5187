/** One block at the receiver: what its state means after any of the block's datagrams arrived, in any order. */
module BlockRun {
  import opened Bytes
  import opened Erasure
  import opened Stream
  import opened Video
  import opened Receiver
  import opened Arrival
  import Header

  /** A block as both ends see it; recoveries is empty until the block is complete. */
  datatype Coded = Coded(packets: seq<Packet>, shards: seq<Shard>, recoveries: seq<Shard>, sizes: seq<u16>)

  ghost predicate Shaped(env: Env, d: Coded) {
    match d
    case Coded(packets, shards, recoveries, sizes) =>
      && |shards| == |sizes| == |packets| <= env.k
      && (recoveries != [] ==> |packets| == env.k && |recoveries| == env.r)
  }

  /** The decoder holds these of the block's own shards, and nothing else. */
  ghost predicate Holds(held: map<nat, Shard>, shards: seq<Shard>, arrived: set<nat>) {
    && held.Keys == arrived
    && forall i :: i in arrived ==> i < |shards| && held[i] == shards[i]
  }

  lemma {:induction false} HoldsGiven(held: map<nat, Shard>, shards: seq<Shard>, arrived: set<nat>)
    requires Holds(held, shards, arrived)
    ensures held == Given(shards, arrived)
  {
  }

  lemma {:induction false} HoldsSize(held: map<nat, Shard>, shards: seq<Shard>, arrived: set<nat>)
    requires Holds(held, shards, arrived)
    ensures |held| == |arrived|
  {
    assert |held| == |held.Keys|;
  }

  lemma {:induction false} HoldsOneMore(held: map<nat, Shard>, shards: seq<Shard>, arrived: set<nat>, i: nat)
    requires Holds(held, shards, arrived) && i < |shards|
    ensures Holds(held[i := shards[i]], shards, arrived + {i})
  {
  }

  /** Packets picked out of a block, in this order. */
  function Chosen(ps: seq<Packet>, turn: seq<nat>): (chosen: seq<Packet>)
    ensures |chosen| == |turn|
  {
    seq(|turn|, i requires 0 <= i < |turn| => if turn[i] < |ps| then ps[turn[i]] else NO_PACKET)
  }

  lemma {:induction false} ChosenOneMore(ps: seq<Packet>, turn: seq<nat>, f: nat)
    requires f < |ps|
    ensures Chosen(ps, turn + [f]) == Chosen(ps, turn) + [ps[f]]
  {
  }

  /** The receiver when it enters a block: the player, and what is left in the queue from earlier blocks. */
  datatype Start = Start(player: Player, queue: seq<Packet>)

  /**
   What arrived of a block: the originals, the recovery shards, the originals handed on as they came, and the
   fragment remembered as the previous one.
   */
  datatype Seen = Seen(originals: set<nat>, recoveries: set<nat>, turn: seq<nat>, last: nat)

  function SeenOf(k: nat, p: nat, a: seq<nat>): (s: Seen)
    requires p < k
  {
    Seen(OriginalSet(k, a), RecoverySet(k, a), InTurn(k, p, a), Last(k, p, a))
  }

  /** Every packet that arrived but was not handed on is in its queue slot; every other slot is as it was before. */
  ghost predicate Queued(d: Coded, originals: set<nat>, turn: seq<nat>, queue: seq<Packet>, sendq: seq<Packet>) {
    && |sendq| == |queue|
    && forall j :: 0 <= j < |sendq| ==>
      sendq[j] == if j in originals && j !in turn && j < |d.packets| then d.packets[j] else queue[j]
  }

  ghost predicate TurnArrived(originals: set<nat>, turn: seq<nat>) {
    forall i :: 0 <= i < |turn| ==> turn[i] in originals
  }

  /** The receiver's state when this much of block m has arrived. */
  ghost predicate InBlock(env: Env, d: Coded, m: nat, s: Seen, start: Start, rx: Rx) {
    match s
    case Seen(originals, recoveries, turn, last) =>
      && WellFormed(env, rx)
      && rx.blockId == m
      && Holds(rx.originals, d.shards, originals)
      && Holds(rx.recoveries, d.recoveries, recoveries)
      && rx.inorder == |turn|
      && rx.prev == last
      && TurnArrived(originals, turn)
      && Queued(d, originals, turn, start.queue, rx.sendq)
      && (recoveries != {} ==> rx.sizes == d.sizes)
      && HandAll(env, start.player, Chosen(d.packets, turn)) == Played(rx.player)
  }

  lemma {:induction false} EnterEmpty(env: Env, d: Coded, m: u32, rx: Rx)
    requires env.Built() && WellFormed(env, rx)
    ensures InBlock(env, d, m, Seen({}, {}, [], rx.prev), Start(rx.player, rx.sendq), Fresh(rx, m))
  {
  }

  lemma {:induction false} InBlockSized(env: Env, d: Coded, m: nat, s: Seen, start: Start, rx: Rx)
    requires InBlock(env, d, m, s, start, rx)
    ensures WellFormed(env, rx) && Sized(env, rx) && rx.blockId == m && rx.prev == s.last
  {
  }

  function SawRecovery(s: Seen, j: nat): (t: Seen) {
    s.(recoveries := s.recoveries + {j})
  }

  function SawOther(s: Seen, f: nat): (t: Seen) {
    s.(originals := s.originals + {f}, last := f)
  }

  function SawNext(s: Seen, f: nat): (t: Seen) {
    s.(originals := s.originals + {f}, turn := s.turn + [f], last := f)
  }

  /** A recovery datagram of the block arrives. */
  lemma {:induction false} RecoveryArrives(
    env: Env, d: Coded, m: u32, s: Seen, t: Seen, start: Start, rx: Rx, j: nat, h: Header.Info, shard: Shard)
    returns (next: Rx)
    requires env.Built() && Sized(env, rx) && |h.pktSizes| == env.k
    requires j < |d.recoveries| && j !in s.recoveries && t == SawRecovery(s, j)
    requires h.fragmentIndex == j && h.pktSizes == d.sizes && shard == d.recoveries[j]
    requires Shaped(env, d) && InBlock(env, d, m, s, start, rx)
    ensures AcceptRecovery(env, rx, h, shard) == Passed(next, Tally(1, 0, 0, 0, 0), None)
    ensures InBlock(env, d, m, t, start, next)
  {
    hide HandAll, Queued, TurnArrived, WellFormed;
    next := AcceptRecovery(env, rx, h, shard).rx;
    AcceptRecoveryWellFormed(env, rx, h, shard);
    HoldsOneMore(rx.recoveries, d.recoveries, s.recoveries, j);
  }

  lemma {:induction false} TurnOneMore(
    d: Coded, originals: set<nat>, turn: seq<nat>, queue: seq<Packet>, sendq: seq<Packet>, f: nat)
    requires TurnArrived(originals, turn) && Queued(d, originals, turn, queue, sendq) && f !in originals
    ensures TurnArrived(originals + {f}, turn + [f]) && Queued(d, originals + {f}, turn + [f], queue, sendq)
  {
    forall j | 0 <= j < |sendq| ensures j in turn + [f] <==> j in turn || j == f {
    }
  }

  lemma {:induction false} QueuedOneMore(
    d: Coded, originals: set<nat>, turn: seq<nat>, queue: seq<Packet>, sendq: seq<Packet>, f: nat)
    requires TurnArrived(originals, turn) && Queued(d, originals, turn, queue, sendq)
    requires f !in originals && f < |d.packets| && f < |sendq|
    ensures TurnArrived(originals + {f}, turn)
    ensures Queued(d, originals + {f}, turn, queue, sendq[f := d.packets[f]])
  {
  }

  /** A packet was taken into the shards held. */
  lemma {:induction false} OriginalCounts(env: Env, d: Coded, m: nat, s: Seen, start: Start, rx: Rx, f: nat)
    requires InBlock(env, d, m, s, start, rx) && f !in s.originals
    ensures f !in rx.originals
    ensures rx.oorder == |s.originals| - |s.turn|
  {
    HoldsSize(rx.originals, d.shards, s.originals);
  }

  lemma {:induction false} HandNext(env: Env, v: Player, ps: seq<Packet>, turn: seq<nat>, f: nat, w: Player)
    requires f < |ps| && HandAll(env, v, Chosen(ps, turn)) == Played(w) && Depacketizes(env, ps[f])
    ensures Hand(env, w, ps[f]).Played?
    ensures HandAll(env, v, Chosen(ps, turn + [f])) == Hand(env, w, ps[f])
  {
    HandOneMore(env, v, Chosen(ps, turn), ps[f]);
    ChosenOneMore(ps, turn, f);
  }

  /** The next packet in turn arrives, and none was put aside before: it is handed on at once. */
  lemma {:induction false} NextArrives(
    env: Env, d: Coded, m: u32, s: Seen, t: Seen, start: Start, rx: Rx, f: nat, h: Header.Info, shard: Shard,
    body: seq<byte>) returns (next: Rx, ack: Ack)
    requires env.Built() && Sized(env, rx) && s.last < env.k
    requires f < |d.packets| == |d.shards| && f !in s.originals
    requires |s.turn| == |s.originals| && f == Expected(env.k, s.last)
    requires t == SawNext(s, f)
    requires h.fragmentIndex == f && shard == d.shards[f] && env.unmarshal(body) == Some(d.packets[f])
    requires Depacketizes(env, d.packets[f])
    requires Shaped(env, d) && InBlock(env, d, m, s, start, rx)
    ensures ack == Ack(d.packets[f].sequenceNumber, h.sendTimestamp)
    ensures AcceptOriginal(env, rx, h, shard, body) == Passed(next, Tally(1, 0, 0, 0, 0), Some(ack))
    ensures InBlock(env, d, m, t, start, next)
  {
    hide HandAll, Hand, Queued, TurnArrived, WellFormed, Chosen, Depacketizes;
    OriginalCounts(env, d, m, s, start, rx, f);
    HandNext(env, start.player, d.packets, s.turn, f, rx.player);
    next := AcceptOriginal(env, rx, h, shard, body).rx;
    ack := Ack(d.packets[f].sequenceNumber, h.sendTimestamp);
    AcceptOriginalWellFormed(env, rx, h, shard, body);
    HoldsOneMore(rx.originals, d.shards, s.originals, f);
    TurnOneMore(d, s.originals, s.turn, start.queue, rx.sendq, f);
  }

  /** Any other packet arrives: it is put in its queue slot. */
  lemma {:induction false} OtherArrives(
    env: Env, d: Coded, m: u32, s: Seen, t: Seen, start: Start, rx: Rx, f: nat, e: u32, h: Header.Info, shard: Shard,
    body: seq<byte>) returns (next: Rx, tally: Tally)
    requires env.Built() && Sized(env, rx) && s.last < env.k
    requires f < |d.packets| == |d.shards| && f !in s.originals && f < 0x1_0000_0000 && e == Expected(env.k, s.last)
    requires |s.turn| < |s.originals| || f != e
    requires t == SawOther(s, f)
    requires h.fragmentIndex == f && shard == d.shards[f] && env.unmarshal(body) == Some(d.packets[f])
    requires Shaped(env, d) && InBlock(env, d, m, s, start, rx)
    ensures tally == Tally(1, 0, 0, Minus32(f, e), 0)
    ensures InBlock(env, d, m, t, start, next)
    ensures AcceptOriginal(env, rx, h, shard, body) == Passed(next, tally, None)
  {
    hide HandAll, Hand, Minus32, Queued, TurnArrived, WellFormed, Chosen;
    OriginalCounts(env, d, m, s, start, rx, f);
    var p := AcceptOriginal(env, rx, h, shard, body);
    next, tally := p.rx, p.tally;
    AcceptOriginalWellFormed(env, rx, h, shard, body);
    HoldsOneMore(rx.originals, d.shards, s.originals, f);
    QueuedOneMore(d, s.originals, s.turn, start.queue, rx.sendq, f);
  }

  // ---- Leaving a block ---------------------------------------------------------------------------

  /** Cutting a restored shard to its size and unmarshalling it gives back the packet. */
  ghost predicate ReadsBack(env: Env, d: Coded) {
    match d
    case Coded(packets, shards, _, sizes) =>
      && |shards| == |sizes| == |packets|
      && forall f :: 0 <= f < |packets| ==>
        sizes[f] <= |shards[f]| && env.unmarshal(shards[f][..sizes[f]]) == Some(packets[f])
  }

  /** The restored packets fill the slots of the missing ones; the others keep what they hold. */
  lemma {:induction false} RestoreFills(
    env: Env, d: Coded, sendq: seq<Packet>, missing: set<nat>, restored: map<nat, Shard>, n: nat)
    requires n <= |sendq| == |d.packets| && ReadsBack(env, d)
    requires Holds(restored, d.shards, missing)
    ensures Restore(env, sendq, d.sizes, restored, n).Some?
    ensures forall f :: 0 <= f < |sendq| ==>
      Restore(env, sendq, d.sizes, restored, n).value[f] == if f < n && f in missing then d.packets[f] else sendq[f]
  {
    if n > 0 {
      RestoreFills(env, d, sendq, missing, restored, n - 1);
    }
  }

  /** The code's laws at this block. */
  ghost predicate Decodes(env: Env, d: Coded, s: Seen) {
    env.code.decode(Given(d.shards, s.originals), Given(d.recoveries, s.recoveries)) ==
    if env.k <= |s.originals| + |s.recoveries| then Some(Given(d.shards, Indices(env.k) - s.originals)) else None
  }

  /** The queue once a block has been restored: its own packets, but for the slots of those handed on at once. */
  function Mixed(ps: seq<Packet>, queue: seq<Packet>, turn: seq<nat>): (q: seq<Packet>)
    requires |ps| == |queue|
    ensures |q| == |queue|
  {
    seq(|queue|, j requires 0 <= j < |queue| => if j in turn then queue[j] else ps[j])
  }

  /** Restoring a block fills every slot, but those of packets handed on at once keep what earlier blocks left there. */
  lemma {:induction false} RestoredQueue(env: Env, d: Coded, s: Seen, queue: seq<Packet>, sendq: seq<Packet>)
    requires |sendq| == |queue| == |d.packets| == env.k && ReadsBack(env, d)
    requires TurnArrived(s.originals, s.turn) && Queued(d, s.originals, s.turn, queue, sendq)
    ensures Restore(env, sendq, d.sizes, Given(d.shards, Indices(env.k) - s.originals), env.k)
         == Some(Mixed(d.packets, queue, s.turn))
  {
    var missing := Indices(env.k) - s.originals;
    var restored := Given(d.shards, missing);
    assert Holds(restored, d.shards, missing);
    RestoreFills(env, d, sendq, missing, restored, env.k);
    var q := Restore(env, sendq, d.sizes, restored, env.k).value;
    forall j | 0 <= j < env.k ensures q[j] == Mixed(d.packets, queue, s.turn)[j] {
      assert j in s.turn ==> j in s.originals;
    }
    assert q == Mixed(d.packets, queue, s.turn);
  }

  /** The packets handed on at once are 0, 1, 2, ..., or there are none. */
  ghost predicate FromStart(turn: seq<nat>) {
    forall i :: 0 <= i < |turn| ==> turn[i] == i
  }

  /**
   No stale delivery: in a block whose packets were handed on from the first on, as they are when it is entered
   after fragment k - 1, every slot from the first gap on holds this block's packet after restoring.
   */
  lemma {:induction false} NoStaleSlot(env: Env, d: Coded, s: Seen, queue: seq<Packet>, sendq: seq<Packet>)
    returns (q: seq<Packet>)
    requires |sendq| == |queue| == |d.packets| == env.k && ReadsBack(env, d)
    requires TurnArrived(s.originals, s.turn) && Queued(d, s.originals, s.turn, queue, sendq)
    requires FromStart(s.turn) && |s.turn| <= env.k
    ensures Restore(env, sendq, d.sizes, Given(d.shards, Indices(env.k) - s.originals), env.k) == Some(q)
    ensures |q| == env.k && q[|s.turn|..] == d.packets[|s.turn|..]
  {
    RestoredQueue(env, d, s, queue, sendq);
    q := Mixed(d.packets, queue, s.turn);
    forall j | |s.turn| <= j < env.k ensures j !in s.turn {
    }
  }

  ghost predicate AllDepacketize(env: Env, ps: seq<Packet>) {
    forall i :: 0 <= i < |ps| ==> Depacketizes(env, ps[i])
  }

  /** Handing on more packets. */
  lemma {:induction false} HandMore(env: Env, v: Player, ps: seq<Packet>, w: Player, qs: seq<Packet>)
    returns (after: Player)
    requires HandAll(env, v, ps) == Played(w) && AllDepacketize(env, qs)
    ensures HandAll(env, w, qs) == Played(after)
    ensures HandAll(env, v, ps + qs) == Played(after)
  {
    HandAllPlays(env, w, qs);
    after := HandAll(env, w, qs).player;
    HandConcat(env, v, ps, qs);
  }

  lemma {:induction false} CountersOf(env: Env, d: Coded, m: u32, s: Seen, start: Start, rx: Rx)
    requires env.Built() && InBlock(env, d, m, s, start, rx)
    ensures rx.total - rx.recovery == |s.originals| <= env.k
    ensures rx.recovery == |s.recoveries| <= env.r
    ensures rx.originals == Given(d.shards, s.originals) && rx.recoveries == Given(d.recoveries, s.recoveries)
    ensures rx.inorder == |s.turn| <= |s.originals|
  {
    hide HandAll, Queued, TurnArrived, Chosen;
    HoldsSize(rx.originals, d.shards, s.originals);
    HoldsSize(rx.recoveries, d.recoveries, s.recoveries);
    HoldsGiven(rx.originals, d.shards, s.originals);
    HoldsGiven(rx.recoveries, d.recoveries, s.recoveries);
  }

  /** Leaving with an original missing and enough shards: everything in the queue after as many slots as were handed on. */
  lemma {:induction false} LeaveRestored(env: Env, d: Coded, m: u32, s: Seen, start: Start, rx: Rx)
    returns (next: Rx, rest: seq<Packet>)
    requires env.Built() && InBlock(env, d, m, s, start, rx)
    requires |start.queue| == |d.packets| == env.k && ReadsBack(env, d) && Decodes(env, d, s)
    requires |s.originals| < env.k <= |s.originals| + |s.recoveries|
    requires AllDepacketize(env, From(Mixed(d.packets, start.queue, s.turn), |s.turn|))
    ensures rest == From(Mixed(d.packets, start.queue, s.turn), |s.turn|)
    ensures Recover(env, rx) == Left(next, 1, 0)
    ensures WellFormed(env, next) && next.prev == env.k - 1
    ensures next.sendq == Mixed(d.packets, start.queue, s.turn)
    ensures HandAll(env, start.player, Chosen(d.packets, s.turn) + rest) == Played(next.player)
  {
    hide HandAll, Chosen, From, Mixed, Holds, Given, AllDepacketize, ReadsBack;
    CountersOf(env, d, m, s, start, rx);
    var q := Mixed(d.packets, start.queue, s.turn);
    rest := From(q, |s.turn|);
    assert s.recoveries != {};
    RestoredQueue(env, d, s, start.queue, rx.sendq);
    var w := HandMore(env, start.player, Chosen(d.packets, s.turn), rx.player, rest);
    next := rx.(prev := env.k - 1, sendq := q, player := w);
    assert HandRestored(env, rx, Given(d.shards, Indices(env.k) - s.originals)) == Left(next, 1, 0);
  }

  /** Leaving with too few shards: nothing more of the block is handed on. */
  lemma {:induction false} LeaveFailed(env: Env, d: Coded, m: u32, s: Seen, start: Start, rx: Rx)
    requires env.Built() && InBlock(env, d, m, s, start, rx)
    requires Decodes(env, d, s)
    requires |s.originals| + |s.recoveries| < env.k
    ensures Recover(env, rx) == Left(rx.(prev := env.k - 1), 1, 1)
  {
    CountersOf(env, d, m, s, start, rx);
  }

  /** Leaving with every original there: there is nothing to do. */
  lemma {:induction false} LeaveComplete(env: Env, d: Coded, m: u32, s: Seen, start: Start, rx: Rx)
    requires env.Built() && InBlock(env, d, m, s, start, rx)
    requires |s.originals| == env.k
    ensures Recover(env, rx) == Left(rx, 0, 0)
  {
    CountersOf(env, d, m, s, start, rx);
  }
}
