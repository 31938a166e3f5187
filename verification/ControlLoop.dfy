/** From the network to the bitrate: when a report makes the controller lower the rate. */
module ControlLoop {
  import opened Bytes
  import opened Stream
  import opened Receiver
  import opened BlockArrival
  import opened Session
  import opened BlockOrder
  import opened EndToEnd
  import opened Signals
  import opened Feedback
  import opened Turns
  import Controller

  /** What the controller reads of a feedback packet. */
  function AtServer(p: FeedbackPacket): (r: Controller.Report) {
    Controller.Report(p.totalBlocks, p.outOfOrderBlocks, p.eccDecoderFailures)
  }

  /** The numbers of blocks from lo up to hi that were entered, missed an original, and could not be repaired. */
  ghost predicate Says(k: nat, slots: seq<Slot>, lo: nat, hi: nat, p: Controller.Report) {
    && p.totalBlocks == NumberIn(IsEntered(slots), lo, hi)
    && p.outOfOrderBlocks == NumberIn(IsIncomplete(k, slots), lo, hi)
    && p.eccDecoderFailures == NumberIn(IsUndecodable(k, slots), lo, hi)
  }

  lemma {:induction false} ReportOfSums(ts: seq<Tally>, first: bool)
    requires AllNested(ts) && |ts| < 0x1_0000
    ensures Failures(ts) <= OutOfOrder(ts) <= Blocks(ts) < 0x1_0000
    ensures AtServer(ReportOf(ts, first)) == Controller.Report(Blocks(ts), OutOfOrder(ts), Failures(ts))
  {
    SumsNested(ts);
  }

  /** A report on fewer than 1000 blocks is congestion exactly when some block was left out of order. */
  lemma {:induction false} CongestedExactlyWhen(ts: seq<Tally>, first: bool)
    requires AllNested(ts) && |ts| < 0x1_0000 && Blocks(ts) < 1000
    ensures Controller.Congested(AtServer(ReportOf(ts, first))) <==> OutOfOrder(ts) > 0
  {
    hide ReportOf, AtServer;
    ReportOfSums(ts, first);
  }

  lemma {:induction false} TalliesNested(k: nat, slots: seq<Slot>)
    requires 0 < k < 0x1_0000_0000
    ensures AllNested(Tallies(k, slots))
  {
    hide LostAt;
    if slots != [] {
      TalliesNested(k, slots[..|slots| - 1]);
      assert Nested(TallyOf(k, slots[..|slots| - 1], slots[|slots| - 1])) by {
        VisitCounts(k, slots[..|slots| - 1]);
      }
    }
  }

  lemma {:induction false} VisitCounts(k: nat, slots: seq<Slot>)
    ensures Arrival.Count(k, Visit(slots)) <= |Visit(slots)|
  {
  }

  /**
   From the network to a report: whatever the turns of the two threads, a report counts the blocks the receiver left in
   the stretch of the run it covers, those of them that missed an original, and those that could not be repaired, unless
   the stretch has 0x10000 datagrams.
   */
  lemma {:induction false} ReportSays(env: Env, pkts: seq<Packet>, slots: seq<Slot>, turns: seq<Turn>, i: nat)
    returns (w: Window, p: Controller.Report)
    requires Sound(env) && GoodPackets(env, pkts)
    requires BlockByBlock(slots) && Carry(env, pkts, slots, Heard(turns))
    requires i < |Windows(Events(env, turns))|
    requires var w := Windows(Events(env, turns))[i]; w.upto - w.from < 0x1_0000
    ensures w == Windows(Events(env, turns))[i] && w.from <= w.upto <= |slots|
    ensures i < |Reports(Events(env, turns))| && p == AtServer(Reports(Events(env, turns))[i])
    ensures Says(env.k, slots, Current(slots[..w.from]), Current(slots[..w.upto]), p)
    ensures p.eccDecoderFailures <= p.outOfOrderBlocks <= p.totalBlocks
  {
    hide Run, Carry, Tallies, Reports, Windows, Events, Passes, Heard, BlockByBlock, ReportOf, AtServer, Current,
      IsEntered, IsIncomplete, IsUndecodable, NumberIn, HandedInAll, GoodPackets, AllNested, OneEach;
    var k, events, ts := env.k, Events(env, turns), Tallies(env.k, slots);
    VisitIsPlaces(slots);
    RunHands(env, pkts, slots, Heard(turns));
    PassesOfRun(env, turns);
    TalliesNested(k, slots);
    NestedOneEach(ts);
    EveryReportIsAWindow(events);
    w, p := Windows(events)[i], AtServer(Reports(events)[i]);
    WindowSignals(k, slots, w.from, w.upto);
    NestedPart(ts, w.from, w.upto);
    ReportOfSums(ts[w.from..w.upto], i == 0);
  }

  lemma {:induction false} NestedOneEach(ts: seq<Tally>)
    requires AllNested(ts)
    ensures OneEach(ts)
  {
  }

  lemma {:induction false} NestedPart(ts: seq<Tally>, from: nat, upto: nat)
    requires AllNested(ts) && from <= upto <= |ts|
    ensures AllNested(ts[from..upto])
  {
  }

  /**
   From the network to the bitrate, for every report: the rate is lowered, or set to its minimum, if and only if more
   than one in a thousand of the blocks left in the report's stretch missed an original, or one could not be repaired.
   With fewer than 1000 blocks left in the stretch, that is: if and only if one of them missed an original.
   */
  lemma {:induction false} IncompleteBlocksLowerTheRate(
    env: Env, pkts: seq<Packet>, slots: seq<Slot>, turns: seq<Turn>, i: nat, c: Controller.Control)
    returns (lo: nat, hi: nat, p: Controller.Report)
    requires Sound(env) && GoodPackets(env, pkts)
    requires BlockByBlock(slots) && Carry(env, pkts, slots, Heard(turns))
    requires i < |Windows(Events(env, turns))|
    requires var w := Windows(Events(env, turns))[i]; w.upto - w.from < 0x1_0000
    ensures var w := Windows(Events(env, turns))[i];
      && w.from <= w.upto <= |slots| && lo == Current(slots[..w.from]) && hi == Current(slots[..w.upto])
    ensures i < |Reports(Events(env, turns))| && p == AtServer(Reports(Events(env, turns))[i])
    ensures Controller.Congested(p) <==>
      || 1000 * NumberIn(IsIncomplete(env.k, slots), lo, hi) > NumberIn(IsEntered(slots), lo, hi)
      || exists m: nat :: lo <= m < hi && IsUndecodable(env.k, slots)(m)
    ensures NumberIn(IsEntered(slots), lo, hi) < 1000 ==>
      (Controller.Congested(p) <==> exists m: nat :: lo <= m < hi && IsIncomplete(env.k, slots)(m))
    ensures Controller.Congested(p) ==> Controller.Next(c, p).bitrate == Controller.Cut(c.bitrate) != c.bitrate
    ensures !Controller.Congested(p) ==>
      Controller.Next(c, p).bitrate == c.bitrate
      || Controller.Next(c, p).bitrate == Wrapped32(c.bitrate + Controller.STEP)
  {
    hide Carry, Reports, Windows, Events, Heard, BlockByBlock, AtServer, Current, IsEntered, IsIncomplete, IsUndecodable,
      NumberIn, GoodPackets, Controller.Next;
    var w;
    w, p := ReportSays(env, pkts, slots, turns, i);
    lo, hi := Current(slots[..w.from]), Current(slots[..w.upto]);
    NumberInPositive(IsIncomplete(env.k, slots), lo, hi);
    NumberInPositive(IsUndecodable(env.k, slots), lo, hi);
    Controller.NextRate(c, p);
  }

  /**
   From the network to a report, without reordering: its lost packets are the originals that turned out missing in the
   stretch of the run it covers, as a u16; losses at the end of a block are not among them.
   */
  lemma {:induction false} ReportLost(env: Env, pkts: seq<Packet>, slots: seq<Slot>, turns: seq<Turn>, i: nat)
    returns (w: Window, missing: nat)
    requires Sound(env) && GoodPackets(env, pkts)
    requires LossOnly(slots) && Carry(env, pkts, slots, Heard(turns))
    requires i < |Reports(Events(env, turns))|
    ensures i < |Windows(Events(env, turns))| && w == Windows(Events(env, turns))[i] && w.from <= w.upto <= |slots|
    ensures missing == MissingSoFar(env.k, slots[..w.upto]) - MissingSoFar(env.k, slots[..w.from])
    ensures Reports(Events(env, turns))[i].lostPackets as int == missing % 0x1_0000
  {
    hide Run, Carry, Tallies, Reports, Windows, Events, Passes, Heard, LossOnly, BlockByBlock, HandedInAll, GoodPackets,
      AllNested, OneEach, Lost, MissingSoFar, AllSteady;
    var k, events, ts := env.k, Events(env, turns), Tallies(env.k, slots);
    LossOnlySteady(k, slots);
    VisitIsPlaces(slots);
    RunHands(env, pkts, slots, Heard(turns));
    PassesOfRun(env, turns);
    TalliesNested(k, slots);
    NestedOneEach(ts);
    var us;
    w, us := ReportFields(events, i);
    WindowLoss(k, slots, w.from, w.upto);
    missing := Lost(us);
  }
}
