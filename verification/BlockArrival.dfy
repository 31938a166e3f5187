/** The sender's datagrams of one block, arriving at the receiver in any order, and the block being left. */
module BlockArrival {
  import opened Bytes
  import opened Erasure
  import opened Stream
  import opened Video
  import opened Receiver
  import opened Arrival
  import opened BlockRun
  import Header

  ghost predicate Sound(env: Env) {
    env.Built() && Lawful(env.code)
  }

  /** What is assumed of the packets: they fit, can be read back, and are accepted by the depacketizer. */
  ghost predicate GoodPackets(env: Env, ps: seq<Packet>) {
    forall i :: 0 <= i < |ps| ==> env.Sendable(ps[i]) && Depacketizes(env, ps[i])
  }

  lemma {:induction false} GoodFit(env: Env, ps: seq<Packet>)
    requires GoodPackets(env, ps)
    ensures AllFit(env, ps)
  {
  }

  ghost function CodedBlock(env: Env, blk: seq<Packet>): (coded: Coded)
    requires Sound(env) && AllFit(env, blk)
  {
    Coded(blk, Shards(env, blk), if |blk| == env.k then Recovery(env, blk) else [], Sizes(env, blk))
  }

  lemma {:induction false} CodedReadsBack(env: Env, blk: seq<Packet>)
    requires Sound(env) && GoodPackets(env, blk) && AllFit(env, blk) && |blk| <= env.k
    ensures Shaped(env, CodedBlock(env, blk)) && ReadsBack(env, CodedBlock(env, blk))
  {
    var d := CodedBlock(env, blk);
    forall f | 0 <= f < |blk|
      ensures d.sizes[f] <= |d.shards[f]| && env.unmarshal(d.shards[f][..d.sizes[f]]) == Some(blk[f])
    {
      assert env.Sendable(blk[f]);
      assert d.shards[f][..d.sizes[f]] == env.marshal(blk[f]);
    }
  }

  lemma {:induction false} CodedDecodes(env: Env, blk: seq<Packet>, s: Seen)
    requires Sound(env) && AllFit(env, blk) && |blk| == env.k
    requires s.originals <= Indices(env.k) && s.recoveries <= Indices(env.r)
    ensures Decodes(env, CodedBlock(env, blk), s)
  {
    assert AllOfSize(Shards(env, blk), env.code.k, env.code.size);
  }

  /** An unfinished block has too few shards, whatever comes of it later. */
  lemma {:induction false} UnfinishedDecodes(env: Env, blk: seq<Packet>, s: Seen)
    requires Sound(env) && AllFit(env, blk) && |blk| < env.k
    requires s.originals <= Indices(|blk|) && s.recoveries == {}
    ensures Decodes(env, CodedBlock(env, blk), s) && |s.originals| < env.k
  {
    hide Lawful, Shapes;
    var shards := Shards(env, blk);
    var ext := shards + seq(env.k - |blk|, _ => Zeros(env.code.size));
    assert AllOfSize(ext, env.code.k, env.code.size);
    SubsetSize(s.originals, Indices(|blk|));
    SubsetSize(s.originals, Indices(env.k));
    GivenOfLonger(ext, shards, s.originals);
    RefusedAlone(env.code, ext, s.originals);
  }

  lemma {:induction false} GivenOfLonger(ext: seq<Shard>, shards: seq<Shard>, s: set<nat>)
    requires shards <= ext && s <= Indices(|shards|)
    ensures Given(ext, s) == Given(shards, s)
  {
  }

  /** Fewer than k originals and nothing else. */
  lemma {:induction false} RefusedAlone(code: Code, block: seq<Shard>, s: set<nat>)
    requires Lawful(code) && AllOfSize(block, code.k, code.size) && s <= Indices(code.k) && |s| < code.k
    ensures code.decode(Given(block, s), Given([], {})) == None
  {
    assert Given(code.encode(block), {}) == Given([], {});
    assert code.decode(Given(block, s), Given(code.encode(block), {})) == None;
  }

  /** What a datagram at place o adds to the count of lost packets when the places a have arrived. */
  function LostAt(k: nat, p: nat, a: seq<nat>, o: nat): (lost: u32)
    requires p < k < 0x1_0000_0000
  {
    if o < k && !IsNext(k, p, a, o)
    then Minus32(o, Expected(k, Last(k, p, a)))
    else 0
  }

  /** The packet at place o is the next in turn, and nothing of the block came out of turn before it. */
  predicate IsNext(k: nat, p: nat, a: seq<nat>, o: nat)
    requires p < k
  {
    o < k && |InTurn(k, p, a)| == Count(k, a) && o == Expected(k, Last(k, p, a))
  }

  /** The amount d is, modulo 2^32, how far an original put aside is from the one expected; nothing else adds any. */
  predicate Adds(k: nat, p: nat, a: seq<nat>, o: nat, d: u32)
    requires p < k
  {
    if o < k && !IsNext(k, p, a, o) then (d + (Last(k, p, a) + 1) % k) % 0x1_0000_0000 == o else d == 0
  }

  /** In any order of arrival. */
  lemma {:induction false} LostAtAdds(k: nat, p: nat, a: seq<nat>, o: nat)
    requires p < k < 0x1_0000_0000
    ensures Adds(k, p, a, o, LostAt(k, p, a, o))
  {
    ExpectedIsNext(k, Last(k, p, a));
    hide InTurn, Count, Last, Expected, Minus32;
    if o < k {
      Minus32Adds(o, Expected(k, Last(k, p, a)));
    }
  }

  lemma {:induction false} RecoveryIsNotNext(k: nat, p: nat, a: seq<nat>, o: nat)
    requires p < k < 0x1_0000_0000 && k <= o
    ensures !IsNext(k, p, a, o) && LostAt(k, p, a, o) == 0
  {
  }

  /** A packet behind the one expected wraps round; no other does. */
  lemma {:induction false} WrapsExactlyWhen(k: nat, p: nat, a: seq<nat>, o: nat)
    requires p < k < 0x1_0000_0000 && o < k
    ensures var e := (Last(k, p, a) + 1) % k;
      LostAt(k, p, a, o) as int == if e <= o then o - e else 0x1_0000_0000 - (e - o)
  {
    ExpectedIsNext(k, Last(k, p, a));
    hide InTurn, Count, Last, Expected;
  }

  /** Header, padded shard and body are those of place o. */
  ghost predicate Carries(env: Env, d: Coded, o: nat, h: Header.Info, shard: Shard, body: seq<byte>) {
    match d
    case Coded(packets, shards, recoveries, sizes) =>
      && Shaped(env, d)
      && h.recoveryPkt == (env.k <= o)
      && (o < env.k ==>
        o < |packets| && h.fragmentIndex == o && shard == shards[o] && env.unmarshal(body) == Some(packets[o])
        && Depacketizes(env, packets[o]))
      && (env.k <= o ==>
        o - env.k < |recoveries| && h.fragmentIndex == o - env.k && h.pktSizes == sizes
        && shard == recoveries[o - env.k])
  }

  lemma {:induction false} OriginalArrives(
    env: Env, d: Coded, m: u32, p: nat, a: seq<nat>, start: Start, rx: Rx, f: nat, h: Header.Info, shard: Shard,
    body: seq<byte>) returns (next: Rx, ack: Option<Ack>)
    requires env.Built() && Sized(env, rx) && p < env.k && Distinct(a) && f !in a && f < env.k
    requires InBlock(env, d, m, SeenOf(env.k, p, a), start, rx)
    requires Carries(env, d, f, h, shard, body)
    ensures InBlock(env, d, m, SeenOf(env.k, p, a + [f]), start, next)
    ensures AcceptOriginal(env, rx, h, shard, body) == Passed(next, Tally(1, 0, 0, LostAt(env.k, p, a, f), 0), ack)
    ensures ack == if IsNext(env.k, p, a, f) then Some(Ack(d.packets[f].sequenceNumber, h.sendTimestamp)) else None
  {
    hide InBlock, AcceptOriginal, OriginalSet, RecoverySet, InTurn, Count, Last, Distinct, Expected, Minus32;
    var s, t := SeenOf(env.k, p, a), SeenOf(env.k, p, a + [f]);
    assert f !in s.originals by { OriginalSetOf(env.k, a); }
    assert |s.originals| == Count(env.k, a) by { SetSizes(env.k, a); }
    CountAtMost(env.k, a);
    OneMoreOriginal(env.k, p, a, f);
    if IsNext(env.k, p, a, f) {
      var ack1;
      next, ack1 := NextArrives(env, d, m, s, t, start, rx, f, h, shard, body);
      ack := Some(ack1);
    } else {
      var tally;
      next, tally := OtherArrives(env, d, m, s, t, start, rx, f, Expected(env.k, s.last), h, shard, body);
      ack := None;
    }
  }

  lemma {:induction false} RecoveryArrivesAt(
    env: Env, d: Coded, m: u32, p: nat, a: seq<nat>, start: Start, rx: Rx, o: nat, h: Header.Info, shard: Shard,
    body: seq<byte>) returns (next: Rx)
    requires env.Built() && Sized(env, rx) && p < env.k && o !in a && env.k <= o && |h.pktSizes| == env.k
    requires InBlock(env, d, m, SeenOf(env.k, p, a), start, rx)
    requires Carries(env, d, o, h, shard, body)
    ensures InBlock(env, d, m, SeenOf(env.k, p, a + [o]), start, next)
    ensures AcceptRecovery(env, rx, h, shard) == Passed(next, Tally(1, 0, 0, 0, 0), None)
  {
    hide InBlock, AcceptRecovery, OriginalSet, RecoverySet, InTurn, Count, Last;
    var j := o - env.k;
    RecoverySetOf(env.k, a, j);
    OneMoreRecovery(env.k, p, a, j);
    assert env.k + j == o;
    next := RecoveryArrives(env, d, m, SeenOf(env.k, p, a), SeenOf(env.k, p, a + [o]), start, rx, j, h, shard);
  }

  /**
   A datagram of the block the receiver is in arrives. The next packet in turn is acknowledged, with its own number and
   time; a packet put aside adds its distance from the one expected to the lost count.
   */
  lemma {:induction false} DatagramArrives(
    env: Env, d: Coded, m: u32, p: nat, a: seq<nat>, start: Start, rx: Rx, o: nat, h: Header.Info, body: seq<byte>)
    returns (next: Rx, ack: Option<Ack>)
    requires env.Built() && p < env.k && Distinct(a) && o !in a
    requires InBlock(env, d, m, SeenOf(env.k, p, a), start, rx)
    requires |h.pktSizes| == env.k && Sized(env, rx)
    requires |body| <= env.code.size && Carries(env, d, o, h, Padded(body, env.code.size), body)
    ensures InBlock(env, d, m, SeenOf(env.k, p, a + [o]), start, next)
    ensures Accept(env, rx, h, body) == Passed(next, Tally(1, 0, 0, LostAt(env.k, p, a, o), 0), ack)
    ensures Adds(env.k, p, a, o, LostAt(env.k, p, a, o))
    ensures ack == if IsNext(env.k, p, a, o) then Some(Ack(d.packets[o].sequenceNumber, h.sendTimestamp)) else None
  {
    LostAtAdds(env.k, p, a, o);
    hide InBlock, AcceptOriginal, AcceptRecovery, SeenOf, Carries, Distinct, Padded, Adds, IsNext, LostAt;
    var shard := Padded(body, env.code.size);
    assert h.recoveryPkt == (env.k <= o) by { CarriesKind(env, d, o, h, shard, body); }
    if o < env.k {
      next, ack := OriginalArrives(env, d, m, p, a, start, rx, o, h, shard, body);
    } else {
      next := RecoveryArrivesAt(env, d, m, p, a, start, rx, o, h, shard, body);
      RecoveryIsNotNext(env.k, p, a, o);
      ack := None;
    }
  }

  lemma {:induction false} CarriesKind(env: Env, d: Coded, o: nat, h: Header.Info, shard: Shard, body: seq<byte>)
    requires Carries(env, d, o, h, shard, body)
    ensures h.recoveryPkt == (env.k <= o)
  {
  }

  /** A datagram of which the receiver holds the shard is refused, and the loop ends. */
  lemma {:induction false} RepeatRefused(
    env: Env, d: Coded, m: u32, p: nat, a: seq<nat>, start: Start, rx: Rx, o: nat, h: Header.Info, body: seq<byte>)
    requires env.Built() && p < env.k && o in a
    requires InBlock(env, d, m, SeenOf(env.k, p, a), start, rx)
    requires |h.pktSizes| == env.k && Sized(env, rx)
    requires |body| <= env.code.size && Carries(env, d, o, h, Padded(body, env.code.size), body)
    ensures Accept(env, rx, h, body) == Halted(ShardRejected, rx.player)
  {
    hide OriginalSet, RecoverySet, InTurn, Count, Last, Padded, HandAll, Queued, WellFormed;
    OriginalSetOf(env.k, a);
    if env.k <= o {
      RecoverySetOf(env.k, a, o - env.k);
      assert env.k + (o - env.k) == o;
    }
  }

  // ---- Leaving the block -------------------------------------------------------------------------

  function PacketOf(ps: seq<Packet>, queue: seq<Packet>, x: Piece): (p: Packet) {
    match x
    case Own(f) => if f < |ps| then ps[f] else NO_PACKET
    case Old(j) => if j < |queue| then queue[j] else NO_PACKET
  }

  /** What a block gives the decoder once it is left; ps are its packets, queue is what it found in the queue. */
  function Handed(k: nat, p: nat, a: seq<nat>, ps: seq<Packet>, queue: seq<Packet>): (handed: seq<Packet>)
    requires p < k
    ensures |handed| == |Yields(k, p, a)|
  {
    var pieces := Yields(k, p, a);
    seq(|pieces|, i requires 0 <= i < |pieces| => PacketOf(ps, queue, pieces[i]))
  }

  /** What a block leaves in the queue. */
  function QueueAfter(k: nat, p: nat, a: seq<nat>, ps: seq<Packet>, queue: seq<Packet>): (q: seq<Packet>)
    requires p < k
    ensures |q| == |queue|
  {
    var t, s := InTurn(k, p, a), OriginalSet(k, a);
    seq(|queue|, j requires 0 <= j < |queue| =>
      if j !in t && (j in s || Count(k, a) < k <= |a|) && j < |ps| then ps[j] else queue[j])
  }

  /** The slots after the tracker hold packets the depacketizer accepts. */
  ghost predicate Usable(env: Env, p: nat, queue: seq<Packet>) {
    forall j :: p < j < |queue| ==> Depacketizes(env, queue[j])
  }

  lemma {:induction false} HandedInTurn(k: nat, p: nat, a: seq<nat>, ps: seq<Packet>, queue: seq<Packet>)
    requires p < k && !(Count(k, a) < k <= |a|)
    ensures Handed(k, p, a, ps, queue) == Chosen(ps, InTurn(k, p, a))
  {
  }

  lemma {:induction false} HandedRestored(k: nat, p: nat, a: seq<nat>, ps: seq<Packet>, queue: seq<Packet>)
    requires p < k && Count(k, a) < k <= |a| && |ps| == |queue| == k
    ensures var t := InTurn(k, p, a);
      Handed(k, p, a, ps, queue) == Chosen(ps, t) + From(Mixed(ps, queue, t), |t|)
    ensures QueueAfter(k, p, a, ps, queue) == Mixed(ps, queue, InTurn(k, p, a))
  {
    hide InTurn, Count;
    var t, handed := InTurn(k, p, a), Handed(k, p, a, ps, queue);
    RestIs(k, t, ps, queue);
    assert Yields(k, p, a) == Owns(t) + Rest(k, t);
    forall i | 0 <= i < |t| ensures handed[i] == Chosen(ps, t)[i] {
      assert Yields(k, p, a)[i] == Own(t[i]);
    }
    forall i | 0 <= i < k - |t| ensures handed[|t| + i] == From(Mixed(ps, queue, t), |t|)[i] {
      assert Yields(k, p, a)[|t| + i] == Rest(k, t)[i];
    }
    assert handed == Chosen(ps, t) + From(Mixed(ps, queue, t), |t|);
  }

  lemma {:induction false} RestIs(k: nat, t: seq<nat>, ps: seq<Packet>, queue: seq<Packet>)
    requires |t| <= k == |ps| == |queue|
    ensures forall i :: 0 <= i < k - |t| ==> PacketOf(ps, queue, Rest(k, t)[i]) == From(Mixed(ps, queue, t), |t|)[i]
  {
  }

  lemma {:induction false} RestUsable(env: Env, p: nat, a: seq<nat>, ps: seq<Packet>, queue: seq<Packet>)
    requires p < env.k && |ps| == |queue| == env.k && AllDepacketize(env, ps) && Usable(env, p, queue)
    ensures var t := InTurn(env.k, p, a); AllDepacketize(env, From(Mixed(ps, queue, t), |t|))
  {
    hide InTurn, Depacketizes;
    var t := InTurn(env.k, p, a);
    var q := Mixed(ps, queue, t);
    forall j | |t| <= j < |q| ensures Depacketizes(env, q[j]) {
      if j in t {
        OldAfterTracker(env.k, p, a, j);
      }
    }
  }

  lemma {:induction false} UsableAfter(env: Env, p: nat, a: seq<nat>, ps: seq<Packet>, queue: seq<Packet>)
    requires p < env.k && |queue| == env.k && AllDepacketize(env, ps) && Usable(env, p, queue) && Distinct(a)
    requires Count(env.k, a) == env.k ==> |ps| == env.k
    ensures Usable(env, TrackerAfter(env.k, p, a), QueueAfter(env.k, p, a, ps, queue))
  {
    hide InTurn, Depacketizes, Count, Distinct, Last;
    CountAtMost(env.k, a);
    OriginalSetOf(env.k, a);
    var q := QueueAfter(env.k, p, a, ps, queue);
    forall j | TrackerAfter(env.k, p, a) < j < |q| ensures Depacketizes(env, q[j]) {
      if j in InTurn(env.k, p, a) {
        OldAfterLast(env.k, p, a, j);
      }
    }
  }

  lemma {:induction false} QueueInTurn(env: Env, d: Coded, m: nat, p: nat, a: seq<nat>, start: Start, rx: Rx)
    requires p < env.k && InBlock(env, d, m, SeenOf(env.k, p, a), start, rx)
    requires !(Count(env.k, a) < env.k <= |a|)
    ensures rx.sendq == QueueAfter(env.k, p, a, d.packets, start.queue)
  {
    hide InTurn, Count, HandAll, Holds, WellFormed, OriginalSet;
  }

  lemma {:induction false} PlayerInTurn(env: Env, d: Coded, m: nat, s: Seen, start: Start, rx: Rx)
    requires InBlock(env, d, m, s, start, rx)
    ensures HandAll(env, start.player, Chosen(d.packets, s.turn)) == Played(rx.player)
  {
  }

  /**
   The block is left, after any order of arrival and whatever came before it: what it yields has been handed on, the
   counters say how it went, and tracker and queue are what it leaves to the next block.
   */
  lemma {:induction false} BlockLeft(env: Env, d: Coded, m: u32, p: nat, a: seq<nat>, start: Start, rx: Rx)
    returns (next: Rx)
    requires env.Built() && p < env.k && Distinct(a)
    requires InBlock(env, d, m, SeenOf(env.k, p, a), start, rx)
    requires |start.queue| == env.k && Usable(env, p, start.queue)
    requires env.k <= |a| ==> |d.packets| == env.k
    requires ReadsBack(env, d) && Decodes(env, d, SeenOf(env.k, p, a)) && AllDepacketize(env, d.packets)
    ensures Recover(env, rx) == Left(next, if Count(env.k, a) < env.k then 1 else 0, if |a| < env.k then 1 else 0)
    ensures WellFormed(env, next)
    ensures next.prev == TrackerAfter(env.k, p, a)
    ensures next.sendq == QueueAfter(env.k, p, a, d.packets, start.queue)
    ensures HandAll(env, start.player, Handed(env.k, p, a, d.packets, start.queue)) == Played(next.player)
  {
    hide InBlock, Decodes, ReadsBack, AllDepacketize, Recover, HandAll, InTurn, Handed, QueueAfter, Usable, Chosen, From,
      Mixed, Depacketizes, Count, Last, OriginalSet, RecoverySet, Distinct;
    var s := SeenOf(env.k, p, a);
    SetSizes(env.k, a);
    CountAtMost(env.k, a);
    InBlockSized(env, d, m, s, start, rx);
    if env.k <= |a| && Count(env.k, a) < env.k {
      HandedRestored(env.k, p, a, d.packets, start.queue);
      RestUsable(env, p, a, d.packets, start.queue);
      var rest;
      next, rest := LeaveRestored(env, d, m, s, start, rx);
    } else {
      HandedInTurn(env.k, p, a, d.packets, start.queue);
      QueueInTurn(env, d, m, p, a, start, rx);
      PlayerInTurn(env, d, m, s, start, rx);
      if Count(env.k, a) == env.k {
        LeaveComplete(env, d, m, s, start, rx);
        next := rx;
      } else {
        LeaveFailed(env, d, m, s, start, rx);
        next := rx.(prev := env.k - 1);
        MovedTracker(env, rx);
      }
    }
  }

  lemma {:induction false} MovedTracker(env: Env, rx: Rx)
    requires env.Built() && WellFormed(env, rx)
    ensures WellFormed(env, rx.(prev := env.k - 1))
  {
  }

  // ---- The sender's datagrams are such datagrams -------------------------------------------------

  lemma {:induction false} SenderCarries(env: Env, blk: seq<Packet>, m: u32, o: nat, time: u128)
    requires Sound(env) && GoodPackets(env, blk) && AllFit(env, blk) && |blk| <= env.k
    requires Place(env, blk, o) && Rebuilt(env, blk, o)
    ensures |PayloadAt(env, blk, o)| <= env.code.size
    ensures Carries(env, CodedBlock(env, blk), o, InfoAt(env, blk, m, o, time),
                    Padded(PayloadAt(env, blk, o), env.code.size), PayloadAt(env, blk, o))
  {
    CodedReadsBack(env, blk);
    if o < env.k {
      assert env.Sendable(blk[o]) && Depacketizes(env, blk[o]);
    }
  }

  /** The code's laws apply to whatever the receiver holds of a block, finished or not. */
  lemma {:induction false} ArrivedDecodes(env: Env, blk: seq<Packet>, m: nat, p: nat, a: seq<nat>, start: Start, rx: Rx)
    requires Sound(env) && AllFit(env, blk) && |blk| <= env.k && p < env.k && Distinct(a)
    requires InBlock(env, CodedBlock(env, blk), m, SeenOf(env.k, p, a), start, rx)
    ensures Decodes(env, CodedBlock(env, blk), SeenOf(env.k, p, a))
    ensures env.k <= |a| ==> |blk| == env.k
  {
    hide InTurn, Last, HandAll, Queued, Decodes;
    OriginalSetOf(env.k, a);
    SetSizes(env.k, a);
    assert rx.recoveries.Keys == RecoverySet(env.k, a);
    if |blk| == env.k {
      CodedDecodes(env, blk, SeenOf(env.k, p, a));
    } else {
      UnfinishedDecodes(env, blk, SeenOf(env.k, p, a));
    }
  }
}
