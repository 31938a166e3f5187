/**
 A whole run: the sender's datagrams, some of them lost and the rest in any order, and what the receiver makes of them.
 */
module Session {
  import opened Bytes
  import opened Stream
  import opened Video
  import opened Receiver
  import opened Arrival
  import opened BlockRun
  import opened BlockArrival
  import Header

  /** The block the receiver is in. */
  function Current(slots: seq<Slot>): (m: nat) {
    if slots == [] then 0 else slots[|slots| - 1].block
  }

  /** The places that have arrived since the receiver entered that block. */
  function Visit(slots: seq<Slot>): (a: seq<nat>) {
    if slots == [] then []
    else
      var front, s := slots[..|slots| - 1], slots[|slots| - 1];
      if s.block == Current(front) then Visit(front) + [s.place] else [s.place]
  }

  /** No datagram comes twice while the receiver is in its block. Blocks and places may come in any order. */
  predicate NoRepeat(slots: seq<Slot>) {
    if slots == [] then true
    else
      var front, s := slots[..|slots| - 1], slots[|slots| - 1];
      NoRepeat(front) && (s.block == Current(front) ==> s.place !in Visit(front))
  }

  /** The fragment remembered as the previous one when the receiver entered the block it is in. */
  function Tracker(k: nat, slots: seq<Slot>): (p: nat)
    requires k > 0
    ensures p < k
  {
    if slots == [] then k - 1
    else
      var front, s := slots[..|slots| - 1], slots[|slots| - 1];
      if s.block == Current(front) then Tracker(k, front) else TrackerAfter(k, Tracker(k, front), Visit(front))
  }

  /** The queue it found then. */
  function Queue(k: nat, pkts: seq<Packet>, slots: seq<Slot>): (q: seq<Packet>)
    requires k > 0
    ensures |q| == k
  {
    if slots == [] then seq(k, _ => NO_PACKET)
    else
      var front, s := slots[..|slots| - 1], slots[|slots| - 1];
      if s.block == Current(front) then Queue(k, pkts, front)
      else QueueAfter(k, Tracker(k, front), Visit(front), Block(k, pkts, Current(front)), Queue(k, pkts, front))
  }

  /** What it had handed to the decoder by then. */
  function Delivered(k: nat, pkts: seq<Packet>, slots: seq<Slot>): (ps: seq<Packet>)
    requires k > 0
  {
    if slots == [] then []
    else
      var front, s := slots[..|slots| - 1], slots[|slots| - 1];
      if s.block == Current(front) then Delivered(k, pkts, front)
      else
        Delivered(k, pkts, front)
        + Handed(k, Tracker(k, front), Visit(front), Block(k, pkts, Current(front)), Queue(k, pkts, front))
  }

  lemma {:induction false} OneMoreHere(k: nat, pkts: seq<Packet>, front: seq<Slot>, s: Slot)
    requires k > 0 && s.block == Current(front)
    ensures Current(front + [s]) == s.block
    ensures Visit(front + [s]) == Visit(front) + [s.place]
    ensures Tracker(k, front + [s]) == Tracker(k, front)
    ensures Queue(k, pkts, front + [s]) == Queue(k, pkts, front)
    ensures Delivered(k, pkts, front + [s]) == Delivered(k, pkts, front)
  {
    assert (front + [s])[..|front|] == front;
  }

  lemma {:induction false} OneMoreElsewhere(k: nat, pkts: seq<Packet>, front: seq<Slot>, s: Slot)
    requires k > 0 && s.block != Current(front)
    ensures Current(front + [s]) == s.block
    ensures Visit(front + [s]) == [s.place]
    ensures Tracker(k, front + [s]) == TrackerAfter(k, Tracker(k, front), Visit(front))
    ensures Queue(k, pkts, front + [s])
         == QueueAfter(k, Tracker(k, front), Visit(front), Block(k, pkts, Current(front)), Queue(k, pkts, front))
    ensures Delivered(k, pkts, front + [s])
         == Delivered(k, pkts, front)
            + Handed(k, Tracker(k, front), Visit(front), Block(k, pkts, Current(front)), Queue(k, pkts, front))
  {
    assert (front + [s])[..|front|] == front;
  }

  lemma {:induction false} VisitDistinct(slots: seq<Slot>)
    requires NoRepeat(slots)
    ensures Distinct(Visit(slots))
  {
    if slots != [] {
      VisitDistinct(slots[..|slots| - 1]);
    }
  }

  lemma {:induction false} BlockGood(env: Env, pkts: seq<Packet>, m: nat)
    requires GoodPackets(env, pkts)
    ensures GoodPackets(env, Block(env.k, pkts, m)) && AllFit(env, Block(env.k, pkts, m))
    decreases m
  {
    if m > 0 && env.k <= |pkts| {
      BlockGood(env, pkts[env.k..], m - 1);
    }
    GoodFit(env, Block(env.k, pkts, m));
  }

  lemma {:induction false} GoodDepacketize(env: Env, ps: seq<Packet>)
    requires GoodPackets(env, ps)
    ensures AllDepacketize(env, ps)
  {
  }

  /** What the passes count: each slot in turn, given those before it. */
  function TallyOf(k: nat, front: seq<Slot>, s: Slot): (t: Tally)
    requires 0 < k < 0x1_0000_0000
  {
    var p, a := Tracker(k, front), Visit(front);
    if s.block == Current(front) then Tally(1, 0, 0, LostAt(k, p, a, s.place), 0)
    else
      Tally(1, 1, if Count(k, a) < k then 1 else 0, LostAt(k, TrackerAfter(k, p, a), [], s.place), if |a| < k then 1 else 0)
  }

  function Tallies(k: nat, slots: seq<Slot>): (ts: seq<Tally>)
    requires 0 < k < 0x1_0000_0000
    ensures |ts| == |slots|
  {
    if slots == [] then []
    else Tallies(k, slots[..|slots| - 1]) + [TallyOf(k, slots[..|slots| - 1], slots[|slots| - 1])]
  }

  lemma {:induction false} TallyOneMore(k: nat, front: seq<Slot>, s: Slot)
    requires 0 < k < 0x1_0000_0000
    ensures Tallies(k, front + [s]) == Tallies(k, front) + [TallyOf(k, front, s)]
  {
    assert (front + [s])[..|front|] == front;
  }

  /** The receiver's state in block m, given what it found and has done when it entered it. */
  ghost predicate Inside(
    env: Env, blk: seq<Packet>, m: nat, p: nat, a: seq<nat>, queue: seq<Packet>, delivered: seq<Packet>, rx: Rx) {
    && Sound(env) && p < env.k && |queue| == env.k && Usable(env, p, queue)
    && AllFit(env, blk)
    && HandAll(env, NEW_PLAYER, delivered).Played?
    && InBlock(env, CodedBlock(env, blk), m, SeenOf(env.k, p, a),
               Start(HandAll(env, NEW_PLAYER, delivered).player, queue), rx)
  }

  /** The receiver's state after these slots arrived. */
  ghost predicate After(env: Env, pkts: seq<Packet>, slots: seq<Slot>, o: Outcome)
    requires Sound(env)
  {
    match o
    case Ended(_, _) => false
    case Ran(rx, tallies) =>
      var m := Current(slots);
      && Inside(env, Block(env.k, pkts, m), m, Tracker(env.k, slots), Visit(slots), Queue(env.k, pkts, slots),
                Delivered(env.k, pkts, slots), rx)
      && tallies == Tallies(env.k, slots)
  }

  /** These bytes are the datagrams of these slots, with any timestamps. */
  ghost predicate Carry(env: Env, pkts: seq<Packet>, slots: seq<Slot>, received: seq<seq<byte>>)
    requires Sound(env)
  {
    if slots == [] then received == []
    else
      var last := |slots| - 1;
      && |received| == |slots|
      && Carry(env, pkts, slots[..last], received[..last])
      && CarriesSlot(env, Block(env.k, pkts, slots[last].block), slots[last], received[last])
  }

  /** The same, and the receiver can turn it back into the sender's shard. */
  ghost predicate CarriesSlot(env: Env, blk: seq<Packet>, s: Slot, data: seq<byte>)
    requires Sound(env)
  {
    IsDatagram(env, blk, s, data) && Rebuilt(env, blk, s.place)
  }

  lemma {:induction false} AfterNothing(env: Env, pkts: seq<Packet>)
    requires Sound(env) && AllFit(env, Block(env.k, pkts, 0))
    ensures After(env, pkts, [], Run(env, []))
  {
    InitialWellFormed(env);
    EnterEmpty(env, CodedBlock(env, Block(env.k, pkts, 0)), 0, Initial(env));
    assert Fresh(Initial(env), 0) == Initial(env);
    assert Chosen(Block(env.k, pkts, 0), []) == [];
  }

  /** The receiver splits a datagram into the header and payload the sender put together. */
  lemma {:induction false} SplitsAsSent(env: Env, blk: seq<Packet>, m: u32, o: nat, time: u128, rx: Rx)
    requires Sound(env) && AllFit(env, blk) && |blk| <= env.k && Place(env, blk, o) && WellFormed(env, rx)
    ensures Step(env, rx, Datagram(env, blk, m, o, time))
         == StepOn(env, rx, InfoAt(env, blk, m, o, time), PayloadAt(env, blk, o))
  {
    Header.DecodedOfEncoded(InfoAt(env, blk, m, o, time), PayloadAt(env, blk, o));
  }

  /** What is known of a block and a datagram of it. */
  lemma {:induction false} SlotCarries(env: Env, pkts: seq<Packet>, s: Slot, data: seq<byte>, rx: Rx)
    returns (d: Coded, h: Header.Info, body: seq<byte>)
    requires Sound(env) && GoodPackets(env, pkts) && WellFormed(env, rx)
    requires CarriesSlot(env, Block(env.k, pkts, s.block), s, data)
    ensures AllFit(env, Block(env.k, pkts, s.block)) && d == CodedBlock(env, Block(env.k, pkts, s.block))
    ensures |h.pktSizes| == env.k && h.blockId == s.block < 0x1_0000_0000
    ensures |body| <= env.code.size && Carries(env, d, s.place, h, Padded(body, env.code.size), body)
    ensures Step(env, rx, data) == StepOn(env, rx, h, body)
    ensures Block(env.k, pkts, s.block) != []
    ensures s.place < env.k + env.r
  {
    var blk := Block(env.k, pkts, s.block);
    BlockGood(env, pkts, s.block);
    var time :| data == Datagram(env, blk, s.block, s.place, time);
    d, h, body := CodedBlock(env, blk), InfoAt(env, blk, s.block, s.place, time), PayloadAt(env, blk, s.place);
    SenderCarries(env, blk, s.block, s.place, time);
    SplitsAsSent(env, blk, s.block, s.place, time, rx);
  }

  /** A datagram of the block the receiver is in. */
  lemma {:induction false} StaysInside(
    env: Env, blk: seq<Packet>, m: u32, p: nat, a: seq<nat>, queue: seq<Packet>, delivered: seq<Packet>, rx: Rx, o: nat,
    h: Header.Info, body: seq<byte>) returns (next: Rx, ack: Option<Ack>)
    requires Inside(env, blk, m, p, a, queue, delivered, rx)
    requires Distinct(a) && o !in a && h.blockId == m && |h.pktSizes| == env.k
    requires Sized(env, rx)
    requires |body| <= env.code.size && Carries(env, CodedBlock(env, blk), o, h, Padded(body, env.code.size), body)
    ensures Inside(env, blk, m, p, a + [o], queue, delivered, next)
    ensures StepOn(env, rx, h, body) == Passed(next, Tally(1, 0, 0, LostAt(env.k, p, a, o), 0), ack)
  {
    hide InBlock, Accept, HandAll, SeenOf, Carries, CodedBlock, Usable, LostAt, Distinct, Padded;
    var start := Start(HandAll(env, NEW_PLAYER, delivered).player, queue);
    assert rx.blockId == m by { InBlockSized(env, CodedBlock(env, blk), m, SeenOf(env.k, p, a), start, rx); }
    next, ack := DatagramArrives(env, CodedBlock(env, blk), m, p, a, start, rx, o, h, body);
  }

  /** What is known of the block the receiver is in when it leaves it. */
  lemma {:induction false} BlockBehind(
    env: Env, blk: seq<Packet>, m: u32, p: nat, a: seq<nat>, queue: seq<Packet>, delivered: seq<Packet>, rx: Rx)
    returns (d: Coded, start: Start)
    requires Inside(env, blk, m, p, a, queue, delivered, rx)
    requires GoodPackets(env, blk) && |blk| <= env.k && Distinct(a)
    ensures d == CodedBlock(env, blk) && start == Start(HandAll(env, NEW_PLAYER, delivered).player, queue)
    ensures ReadsBack(env, d) && Decodes(env, d, SeenOf(env.k, p, a)) && AllDepacketize(env, d.packets)
    ensures env.k <= |a| ==> |d.packets| == env.k
  {
    hide InBlock, Decodes, ReadsBack, SeenOf, GoodPackets, AllDepacketize, Usable, Distinct;
    d, start := CodedBlock(env, blk), Start(HandAll(env, NEW_PLAYER, delivered).player, queue);
    CodedReadsBack(env, blk);
    ArrivedDecodes(env, blk, m, p, a, start, rx);
    GoodDepacketize(env, blk);
  }

  /** The block is left and another entered. */
  lemma {:induction false} EntersBlock(
    env: Env, blk: seq<Packet>, m: u32, p: nat, a: seq<nat>, queue: seq<Packet>, delivered: seq<Packet>, rx: Rx,
    e: Coded, n: u32) returns (w: Start, entered: Rx)
    requires Inside(env, blk, m, p, a, queue, delivered, rx)
    requires GoodPackets(env, blk) && |blk| <= env.k && Distinct(a) && n != m
    requires Sized(env, rx)
    ensures w.queue == QueueAfter(env.k, p, a, blk, queue) && Usable(env, TrackerAfter(env.k, p, a), w.queue)
    ensures HandAll(env, NEW_PLAYER, delivered + Handed(env.k, p, a, blk, queue)) == Played(w.player)
    ensures InBlock(env, e, n, SeenOf(env.k, TrackerAfter(env.k, p, a), []), w, entered)
    ensures Enter(env, rx, n) ==
      Left(entered, if Count(env.k, a) < env.k then 1 else 0, if |a| < env.k then 1 else 0)
  {
    hide InBlock, Decodes, ReadsBack, GoodPackets, AllDepacketize, Usable, Distinct, Recover, HandAll, Handed, QueueAfter,
      TrackerAfter, WellFormed, CodedBlock;
    var d, start := BlockBehind(env, blk, m, p, a, queue, delivered, rx);
    assert d.packets == blk by { CodedPackets(env, blk); }
    InBlockSized(env, d, m, SeenOf(env.k, p, a), start, rx);
    var left := BlockLeft(env, d, m, p, a, start, rx);
    HandConcat(env, NEW_PLAYER, delivered, Handed(env.k, p, a, blk, queue));
    CountAtMost(env.k, a);
    WholeOriginals(env, blk, m, p, a, queue, delivered, rx);
    UsableAfter(env, p, a, blk, queue);
    EnterEmpty(env, e, n, left);
    w, entered := Start(left.player, left.sendq), Fresh(left, n);
  }

  lemma {:induction false} CodedPackets(env: Env, blk: seq<Packet>)
    requires Sound(env) && AllFit(env, blk)
    ensures CodedBlock(env, blk).packets == blk
  {
  }

  /** k originals arrive only of a whole block. */
  lemma {:induction false} WholeOriginals(
    env: Env, blk: seq<Packet>, m: u32, p: nat, a: seq<nat>, queue: seq<Packet>, delivered: seq<Packet>, rx: Rx)
    requires Inside(env, blk, m, p, a, queue, delivered, rx) && |blk| <= env.k && Distinct(a)
    ensures Count(env.k, a) == env.k ==> |blk| == env.k
  {
    hide Decodes, SeenOf, Usable, HandAll;
    var d, start := CodedBlock(env, blk), Start(HandAll(env, NEW_PLAYER, delivered).player, queue);
    ArrivedDecodes(env, blk, m, p, a, start, rx);
  }

  /** A datagram of another block. */
  lemma {:induction false} MovesOn(
    env: Env, blk: seq<Packet>, m: u32, p: nat, a: seq<nat>, queue: seq<Packet>, delivered: seq<Packet>, rx: Rx,
    other: seq<Packet>, n: u32, o: nat, h: Header.Info, body: seq<byte>) returns (next: Rx, ack: Option<Ack>)
    requires Inside(env, blk, m, p, a, queue, delivered, rx)
    requires GoodPackets(env, blk) && |blk| <= env.k && Distinct(a) && n != m
    requires AllFit(env, other)
    requires h.blockId == n && |h.pktSizes| == env.k && Sized(env, rx)
    requires |body| <= env.code.size && Carries(env, CodedBlock(env, other), o, h, Padded(body, env.code.size), body)
    ensures Inside(env, other, n, TrackerAfter(env.k, p, a), [o], QueueAfter(env.k, p, a, blk, queue),
                   delivered + Handed(env.k, p, a, blk, queue), next)
    ensures StepOn(env, rx, h, body) ==
      Passed(next,
             Tally(1, 1, if Count(env.k, a) < env.k then 1 else 0, LostAt(env.k, TrackerAfter(env.k, p, a), [], o),
                   if |a| < env.k then 1 else 0),
             ack)
  {
    hide InBlock, Accept, Enter, HandAll, SeenOf, Carries, CodedBlock, Usable, LostAt, Distinct, Padded, TrackerAfter,
      QueueAfter, Handed, GoodPackets, Count, WellFormed;
    var q := TrackerAfter(env.k, p, a);
    var w, entered := EntersBlock(env, blk, m, p, a, queue, delivered, rx, CodedBlock(env, other), n);
    InBlockSized(env, CodedBlock(env, other), n, SeenOf(env.k, q, []), w, entered);
    assert rx.blockId == m by {
      InBlockSized(env, CodedBlock(env, blk), m, SeenOf(env.k, p, a),
                   Start(HandAll(env, NEW_PLAYER, delivered).player, queue), rx);
    }
    assert [] + [o] == [o] && Distinct([]) by { EmptyDistinct(); }
    next, ack := DatagramArrives(env, CodedBlock(env, other), n, q, [], w, entered, o, h, body);
  }

  lemma {:induction false} EmptyDistinct()
    ensures Distinct([])
  {
  }

  lemma {:induction false} InsideSized(
    env: Env, blk: seq<Packet>, m: nat, p: nat, a: seq<nat>, queue: seq<Packet>, delivered: seq<Packet>, rx: Rx)
    requires Inside(env, blk, m, p, a, queue, delivered, rx)
    ensures WellFormed(env, rx) && Sized(env, rx) && rx.blockId == m && m < 0x1_0000_0000
  {
    InBlockSized(env, CodedBlock(env, blk), m, SeenOf(env.k, p, a),
                 Start(HandAll(env, NEW_PLAYER, delivered).player, queue), rx);
  }

  /** One more slot, of the block the receiver is in. */
  lemma {:induction false} SameBlock(env: Env, pkts: seq<Packet>, front: seq<Slot>, s: Slot, before: Outcome, data: seq<byte>)
    requires Sound(env) && GoodPackets(env, pkts)
    requires NoRepeat(front) && s.block == Current(front) && s.place !in Visit(front)
    requires After(env, pkts, front, before) && CarriesSlot(env, Block(env.k, pkts, s.block), s, data)
    ensures After(env, pkts, front + [s], Advance(env, before, data))
  {
    hide Inside, Queue, Delivered, Tracker, Visit, NoRepeat, Step, StepOn, CarriesSlot, GoodPackets, Carries, CodedBlock,
      LostAt, Padded, Distinct, Tallies;
    var k, m := env.k, s.block;
    var p, a, q, ds := Tracker(k, front), Visit(front), Queue(k, pkts, front), Delivered(k, pkts, front);
    InsideSized(env, Block(k, pkts, m), m, p, a, q, ds, before.rx);
    VisitDistinct(front);
    OneMoreHere(k, pkts, front, s);
    TallyOneMore(k, front, s);
    var d, h, body := SlotCarries(env, pkts, s, data, before.rx);
    var next, ack := StaysInside(env, Block(k, pkts, m), m, p, a, q, ds, before.rx, s.place, h, body);
    assert Advance(env, before, data) == Ran(next, before.tallies + [TallyOf(k, front, s)]);
  }

  /** One more slot, of another block. */
  lemma {:induction false} OtherBlock(
    env: Env, pkts: seq<Packet>, front: seq<Slot>, s: Slot, before: Outcome, data: seq<byte>)
    requires Sound(env) && GoodPackets(env, pkts)
    requires NoRepeat(front) && s.block != Current(front)
    requires After(env, pkts, front, before) && CarriesSlot(env, Block(env.k, pkts, s.block), s, data)
    ensures After(env, pkts, front + [s], Advance(env, before, data))
  {
    hide Inside, Queue, Delivered, Tracker, Visit, NoRepeat, Step, StepOn, CarriesSlot, GoodPackets, Carries, CodedBlock,
      LostAt, Padded, Distinct, Tallies, TrackerAfter, QueueAfter, Handed, Count;
    var k, m := env.k, Current(front);
    var p, a, q, ds := Tracker(k, front), Visit(front), Queue(k, pkts, front), Delivered(k, pkts, front);
    InsideSized(env, Block(k, pkts, m), m, p, a, q, ds, before.rx);
    VisitDistinct(front);
    OneMoreElsewhere(k, pkts, front, s);
    TallyOneMore(k, front, s);
    BlockGood(env, pkts, m);
    var e, h, body := SlotCarries(env, pkts, s, data, before.rx);
    var next, ack := MovesOn(
      env, Block(k, pkts, m), m, p, a, q, ds, before.rx, Block(k, pkts, s.block), s.block, s.place, h, body);
    assert Advance(env, before, data) == Ran(next, before.tallies + [TallyOf(k, front, s)]);
  }

  /**
   For every stream and every order of arrival, within blocks and across them, as long as nothing comes twice while the
   receiver is in its block: the receiver ends in the state the arrivals determine.
   */
  lemma {:induction false} RunFollows(env: Env, pkts: seq<Packet>, slots: seq<Slot>, received: seq<seq<byte>>)
    requires Sound(env) && GoodPackets(env, pkts)
    requires NoRepeat(slots) && Carry(env, pkts, slots, received)
    ensures After(env, pkts, slots, Run(env, received))
    decreases |slots|
  {
    hide Inside, CarriesSlot, Run, Advance, After, GoodPackets, Visit;
    if slots == [] {
      BlockGood(env, pkts, 0);
      AfterNothing(env, pkts);
      assert received == [];
    } else {
      var last := |slots| - 1;
      var front, s, before, data := slots[..last], slots[last], received[..last], received[last];
      assert slots == front + [s] && received == before + [data];
      RunFollows(env, pkts, front, before);
      AfterRan(env, pkts, front, Run(env, before));
      RunOneMore(env, before, data);
      if s.block == Current(front) {
        SameBlock(env, pkts, front, s, Run(env, before), data);
      } else {
        OtherBlock(env, pkts, front, s, Run(env, before), data);
      }
    }
  }

  lemma {:induction false} AfterRan(env: Env, pkts: seq<Packet>, slots: seq<Slot>, o: Outcome)
    requires Sound(env) && After(env, pkts, slots, o)
    ensures o.Ran?
  {
  }

  /** What the whole run hands to the decoder: what was delivered before the current block, and what of it came in turn. */
  function HandedInAll(k: nat, pkts: seq<Packet>, slots: seq<Slot>): (ps: seq<Packet>)
    requires k > 0
  {
    Delivered(k, pkts, slots) + Chosen(Block(k, pkts, Current(slots)), InTurn(k, Tracker(k, slots), Visit(slots)))
  }

  /**
   For every order of arrival: what was handed to the decoder is what the blocks left behind yielded, in the order they
   were left, followed by the packets of the current block that came in turn.
   */
  lemma {:induction false} RunHands(env: Env, pkts: seq<Packet>, slots: seq<Slot>, received: seq<seq<byte>>)
    requires Sound(env) && GoodPackets(env, pkts)
    requires NoRepeat(slots) && Carry(env, pkts, slots, received)
    ensures Run(env, received).Ran?
    ensures HandAll(env, NEW_PLAYER, HandedInAll(env.k, pkts, slots)) == Played(Run(env, received).rx.player)
    ensures Run(env, received).tallies == Tallies(env.k, slots)
  {
    hide Run, Carry, Queue, Delivered, Tracker, Visit, InTurn, HandAll, Tallies, NoRepeat, GoodPackets, Chosen, Inside;
    RunFollows(env, pkts, slots, received);
    var k, m := env.k, Current(slots);
    InsidePlayer(env, Block(k, pkts, m), m, Tracker(k, slots), Visit(slots), Queue(k, pkts, slots),
                 Delivered(k, pkts, slots), Run(env, received).rx);
  }

  lemma {:induction false} InsidePlayer(
    env: Env, blk: seq<Packet>, m: nat, p: nat, a: seq<nat>, queue: seq<Packet>, delivered: seq<Packet>, rx: Rx)
    requires Inside(env, blk, m, p, a, queue, delivered, rx)
    ensures HandAll(env, NEW_PLAYER, delivered + Chosen(blk, InTurn(env.k, p, a))) == Played(rx.player)
  {
    hide InBlock, HandAll, Chosen, InTurn;
    PlayerInTurn(env, CodedBlock(env, blk), m, SeenOf(env.k, p, a),
                 Start(HandAll(env, NEW_PLAYER, delivered).player, queue), rx);
    HandConcat(env, NEW_PLAYER, delivered, Chosen(blk, InTurn(env.k, p, a)));
  }

  // ---- Repetition --------------------------------------------------------------------------------

  /** A datagram the receiver has had since it entered the block ends the loop. */
  lemma {:induction false} RepeatEnds(env: Env, pkts: seq<Packet>, front: seq<Slot>, s: Slot, before: Outcome, data: seq<byte>)
    requires Sound(env) && GoodPackets(env, pkts)
    requires s.block == Current(front) && s.place in Visit(front)
    requires After(env, pkts, front, before) && CarriesSlot(env, Block(env.k, pkts, s.block), s, data)
    ensures before.Ran? && Sized(env, before.rx) && Advance(env, before, data) == Ended(ShardRejected, before.rx.player)
  {
    hide Inside, Queue, Delivered, Tracker, Visit, Step, CarriesSlot, GoodPackets, Carries, CodedBlock,
      Padded, Tallies, Accept;
    var k, m := env.k, s.block;
    var p, a, q, ds := Tracker(k, front), Visit(front), Queue(k, pkts, front), Delivered(k, pkts, front);
    InsideSized(env, Block(k, pkts, m), m, p, a, q, ds, before.rx);
    var d, h, body := SlotCarries(env, pkts, s, data, before.rx);
    RepeatInside(env, Block(k, pkts, m), m, p, a, q, ds, before.rx, s.place, h, body);
  }

  lemma {:induction false} RepeatInside(
    env: Env, blk: seq<Packet>, m: u32, p: nat, a: seq<nat>, queue: seq<Packet>, delivered: seq<Packet>, rx: Rx, o: nat,
    h: Header.Info, body: seq<byte>)
    requires Inside(env, blk, m, p, a, queue, delivered, rx) && o in a && |h.pktSizes| == env.k && Sized(env, rx)
    requires |body| <= env.code.size && Carries(env, CodedBlock(env, blk), o, h, Padded(body, env.code.size), body)
    ensures Accept(env, rx, h, body) == Halted(ShardRejected, rx.player)
  {
    hide InBlock, SeenOf, HandAll, CodedBlock, Carries, Accept, Padded;
    RepeatRefused(env, CodedBlock(env, blk), m, p, a, Start(HandAll(env, NEW_PLAYER, delivered).player, queue), rx, o, h, body);
  }

  /** The run goes on to the end exactly when nothing comes twice while the receiver is in its block. */
  lemma {:induction false} RunsExactlyWhen(env: Env, pkts: seq<Packet>, slots: seq<Slot>, received: seq<seq<byte>>)
    requires Sound(env) && GoodPackets(env, pkts) && Carry(env, pkts, slots, received)
    ensures Run(env, received).Ran? <==> NoRepeat(slots)
    decreases |slots|
  {
    hide Run, Advance, After, GoodPackets, Visit, CarriesSlot;
    if NoRepeat(slots) {
      RunFollows(env, pkts, slots, received);
      AfterRan(env, pkts, slots, Run(env, received));
    } else {
      var last := |slots| - 1;
      var front, s, before, data := slots[..last], slots[last], received[..last], received[last];
      assert received == before + [data];
      RunsExactlyWhen(env, pkts, front, before);
      RunOneMore(env, before, data);
      if NoRepeat(front) {
        RunFollows(env, pkts, front, before);
        RepeatEnds(env, pkts, front, s, Run(env, before), data);
      }
    }
  }
}
