/**
 The feedback packet that the decoder thread and the reporting thread share under a lock
 (client/src/decoder/video.rs and client/src/decoder/feedback.rs), under every interleaving of the two.
 */
module Feedback {
  import opened Bytes
  import opened Receiver
  import opened Signals
  import Stream

  /** The counters the decoder keeps between resets. */
  datatype Counters = Counters(blocks: u16, outOfOrder: u16, packets: u16, lost: u32, failures: u16)

  const ZERO := Counters(0, 0, 0, 0, 0)

  /** The feedback packet, less its average buffer occupancy. */
  datatype FeedbackPacket = FeedbackPacket(
    timeQuantum: u16, totalBlocks: u16, outOfOrderBlocks: u16, totalPackets: u16, lostPackets: u16,
    eccDecoderFailures: u16)

  /** What the lock guards. */
  datatype Shared = Shared(ack: Ack, feedback: FeedbackPacket)

  const DEFAULT := Shared(Ack(0, 0), FeedbackPacket(0, 0, 0, 0, 0, 0))

  const QUANTUM: u16 := 1000

  datatype Message = FeedbackMessage(packet: FeedbackPacket) | AckMessage(ack: Ack)

  function Counted(c: Counters, t: Tally): (d: Counters) {
    Counters(
      Wrapped16(c.blocks + t.blocks), Wrapped16(c.outOfOrder + t.outOfOrder), Wrapped16(c.packets + t.packets),
      Wrapped32(c.lost + t.lost), Wrapped16(c.failures + t.failures))
  }

  function Filled(c: Counters, quantum: u16): (p: FeedbackPacket) {
    FeedbackPacket(quantum, c.blocks, c.outOfOrder, c.packets, Wrapped16(c.lost), c.failures)
  }

  /** The decoder's counters and what it shares with the reporting thread. */
  datatype Link = Link(counters: Counters, shared: Shared)

  /** The decoder writes its counters over the packet, and starts counting afresh if the packet had been cleared. */
  function Published(l: Link, ack: Ack): (next: Link) {
    Link(
      if l.shared.feedback.totalPackets == 0 then ZERO else l.counters,
      Shared(ack, Filled(l.counters, l.shared.feedback.timeQuantum)))
  }

  function Cleared(s: Shared): (t: Shared) {
    s.(feedback := FeedbackPacket(QUANTUM, 0, 0, 0, 0, 0))
  }

  /**
   One turn of either thread. The decoder handles a datagram; if it handed the packet on (then there is
   an acknowledgement) and gets the lock, it writes the feedback packet. Or the reporting thread sends and clears it.
   */
  datatype Event = Datagram(tally: Tally, ack: Option<Ack>, locked: bool) | Reporting

  predicate Writes(e: Event) {
    e.Datagram? && e.ack.Some? && e.locked
  }

  function Next(l: Link, e: Event): (next: Link) {
    match e
    case Reporting => l.(shared := Cleared(l.shared))
    case Datagram(tally, ack, locked) =>
      var counted := l.(counters := Counted(l.counters, tally));
      if ack.Some? && locked then Published(counted, ack.value) else counted
  }

  function Messages(s: Shared): (messages: seq<Message>) {
    [FeedbackMessage(s.feedback), AckMessage(s.ack)]
  }

  function After(events: seq<Event>): (l: Link) {
    if events == [] then Link(ZERO, DEFAULT) else Next(After(events[..|events| - 1]), events[|events| - 1])
  }

  /** The feedback packets sent. */
  function Reports(events: seq<Event>): (ps: seq<FeedbackPacket>) {
    if events == [] then []
    else if events[|events| - 1].Reporting? then
      Reports(events[..|events| - 1]) + [After(events[..|events| - 1]).shared.feedback]
    else Reports(events[..|events| - 1])
  }

  // ---- What a report covers ----------------------------------------------------------------------

  /** What each datagram counted for. */
  function Passes(events: seq<Event>): (ts: seq<Tally>) {
    if events == [] then []
    else if events[|events| - 1].Datagram? then Passes(events[..|events| - 1]) + [events[|events| - 1].tally]
    else Passes(events[..|events| - 1])
  }

  /** A stretch of the datagrams, and how often the packet was written since it was last cleared. */
  datatype Window = Window(from: nat, upto: nat, writes: nat)

  /** Bookkeeping: datagrams so far, those before the counters' last reset, and the stretch the packet covers. */
  datatype Marks = Marks(passes: nat, start: nat, window: Window)

  function Moved(m: Marks, e: Event): (n: Marks) {
    match e
    case Reporting => m.(window := Window(m.start, m.start, 0))
    case Datagram(_, _, _) =>
      var n := m.passes + 1;
      if !Writes(e) then m.(passes := n)
      else
        var cleared := Wrapped16(if m.window.from <= m.window.upto then m.window.upto - m.window.from else 0) == 0;
        Marks(n, if cleared then n else m.start, Window(m.start, n, m.window.writes + 1))
  }

  function Mark(events: seq<Event>): (m: Marks)
    ensures m.start <= m.passes == |Passes(events)|
    ensures m.window.from <= m.window.upto <= m.passes
  {
    if events == [] then Marks(0, 0, Window(0, 0, 0))
    else Moved(Mark(events[..|events| - 1]), events[|events| - 1])
  }

  /** The stretches the reports cover. */
  function Windows(events: seq<Event>): (ws: seq<Window>)
  {
    if events == [] then []
    else if events[|events| - 1].Reporting? then
      Windows(events[..|events| - 1]) + [Mark(events[..|events| - 1]).window]
    else Windows(events[..|events| - 1])
  }

  /** Every datagram counts for one packet. */
  ghost predicate OneEach(ts: seq<Tally>) {
    forall i :: 0 <= i < |ts| ==> ts[i].packets == 1
  }

  /** The counters after these datagrams, counting from zero. */
  function Totals(ts: seq<Tally>): (c: Counters) {
    Counters(Wrapped16(Blocks(ts)), Wrapped16(OutOfOrder(ts)), Wrapped16(|ts|), Wrapped32(Lost(ts)), Wrapped16(Failures(ts)))
  }

  lemma {:induction false} WrapSum16(a: nat, b: nat)
    ensures Wrapped16(Wrapped16(a) + b) == Wrapped16(a + b)
  {
  }

  lemma {:induction false} WrapSum32(a: nat, b: nat)
    ensures Wrapped32(Wrapped32(a) + b) == Wrapped32(a + b)
  {
  }

  lemma {:induction false} TotalsOneMore(ts: seq<Tally>, t: Tally)
    requires t.packets == 1
    ensures Totals(ts + [t]) == Counted(Totals(ts), t)
  {
    assert (ts + [t])[..|ts|] == ts;
    WrapSum16(Blocks(ts), t.blocks);
    WrapSum16(OutOfOrder(ts), t.outOfOrder);
    WrapSum16(|ts|, 1);
    WrapSum32(Lost(ts), t.lost);
    WrapSum16(Failures(ts), t.failures);
  }

  /** The counters and the packet are the totals of the stretches marked. */
  ghost predicate Covers(ts: seq<Tally>, l: Link, m: Marks) {
    && m.start <= m.passes == |ts| && m.window.from <= m.window.upto <= |ts|
    && l.counters == Totals(ts[m.start..])
    && l.shared.feedback == Filled(Totals(ts[m.window.from..m.window.upto]), l.shared.feedback.timeQuantum)
  }

  lemma {:induction false} OneMoreTail<T>(s: seq<T>, t: T, from: nat)
    requires from <= |s|
    ensures (s + [t])[from..] == s[from..] + [t]
    ensures (s + [t])[from..|s| + 1] == (s + [t])[from..]
    ensures (s + [t])[|s| + 1..] == []
  {
  }

  lemma {:induction false} OneMoreStretch<T>(s: seq<T>, t: T, from: nat, upto: nat)
    requires from <= upto <= |s|
    ensures (s + [t])[from..upto] == s[from..upto]
  {
  }

  lemma {:induction false} CoversDatagram(ts: seq<Tally>, l: Link, m: Marks, t: Tally, ack: Option<Ack>, locked: bool)
    requires Covers(ts, l, m) && t.packets == 1
    ensures Covers(ts + [t], Next(l, Datagram(t, ack, locked)), Moved(m, Datagram(t, ack, locked)))
  {
    hide Blocks, OutOfOrder, Lost, Failures, Wrapped32;
    OneMoreTail(ts, t, m.start);
    OneMoreStretch(ts, t, m.window.from, m.window.upto);
    TotalsOneMore(ts[m.start..], t);
    NothingCounted();
  }

  lemma {:induction false} NothingCounted()
    ensures Totals([]) == ZERO
    ensures Filled(Totals([]), QUANTUM) == FeedbackPacket(QUANTUM, 0, 0, 0, 0, 0)
  {
  }

  lemma {:induction false} CoversReporting(ts: seq<Tally>, l: Link, m: Marks)
    requires Covers(ts, l, m)
    ensures Covers(ts, Next(l, Reporting), Moved(m, Reporting))
  {
    assert ts[m.start..m.start] == [];
    NothingCounted();
  }

  /** At every moment of every interleaving. */
  lemma {:induction false} CoversAlways(events: seq<Event>)
    requires OneEach(Passes(events))
    ensures Covers(Passes(events), After(events), Mark(events))
  {
    if events != [] {
      hide Covers, Totals;
      var front, e := events[..|events| - 1], events[|events| - 1];
      FrontOneEach(front, e);
      assert events == front + [e];
      CoversAlways(front);
      match e {
        case Reporting => CoversReporting(Passes(front), After(front), Mark(front));
        case Datagram(t, ack, locked) => CoversDatagram(Passes(front), After(front), Mark(front), t, ack, locked);
      }
    } else {
      NothingCounted();
    }
  }

  lemma {:induction false} FrontOneEach(front: seq<Event>, e: Event)
    requires OneEach(Passes(front + [e]))
    ensures OneEach(Passes(front)) && (e.Datagram? ==> e.tally.packets == 1)
  {
    assert (front + [e])[..|front|] == front;
    assert forall i :: 0 <= i < |Passes(front)| ==> Passes(front + [e])[i] == Passes(front)[i];
    if e.Datagram? {
      assert Passes(front + [e])[|Passes(front)|] == e.tally;
    }
  }

  /** The report that covers exactly these datagrams; only the first one has no quantum set. */
  function ReportOf(ts: seq<Tally>, first: bool): (p: FeedbackPacket) {
    Filled(Totals(ts), if first then 0 else QUANTUM)
  }

  /** Report i says exactly what the stretch of datagrams in window i counted for. */
  ghost predicate ReportsAreWindows(ts: seq<Tally>, reports: seq<FeedbackPacket>, windows: seq<Window>) {
    && |reports| == |windows|
    && forall i :: 0 <= i < |reports| ==>
      && windows[i].from <= windows[i].upto <= |ts|
      && reports[i] == ReportOf(ts[windows[i].from..windows[i].upto], i == 0)
  }

  lemma {:induction false} QuantumIs(events: seq<Event>)
    ensures After(events).shared.feedback.timeQuantum == if Reports(events) == [] then 0 else QUANTUM
  {
    if events != [] {
      QuantumIs(events[..|events| - 1]);
    }
  }

  lemma {:induction false} ReportsStay(ts: seq<Tally>, t: Tally, reports: seq<FeedbackPacket>, windows: seq<Window>)
    requires ReportsAreWindows(ts, reports, windows)
    ensures ReportsAreWindows(ts + [t], reports, windows)
  {
    forall i | 0 <= i < |reports|
      ensures reports[i] == ReportOf((ts + [t])[windows[i].from..windows[i].upto], i == 0)
    {
      OneMoreStretch(ts, t, windows[i].from, windows[i].upto);
    }
  }

  lemma {:induction false} OneMoreReport(
    ts: seq<Tally>, reports: seq<FeedbackPacket>, windows: seq<Window>, p: FeedbackPacket, w: Window)
    requires ReportsAreWindows(ts, reports, windows)
    requires w.from <= w.upto <= |ts| && p == ReportOf(ts[w.from..w.upto], reports == [])
    ensures ReportsAreWindows(ts, reports + [p], windows + [w])
  {
  }

  /**
   Whatever the two threads' turns, every report says exactly what one contiguous stretch of datagrams counted for,
   as u16 sums; an empty stretch makes a report of zeros.
   */
  lemma {:induction false} EveryReportIsAWindow(events: seq<Event>)
    requires OneEach(Passes(events))
    ensures ReportsAreWindows(Passes(events), Reports(events), Windows(events))
  {
    if events != [] {
      hide Totals, Counted, Filled, Covers, ReportsAreWindows;
      var front, e := events[..|events| - 1], events[|events| - 1];
      assert events == front + [e];
      FrontOneEach(front, e);
      EveryReportIsAWindow(front);
      match e {
        case Reporting =>
          CoversAlways(front);
          QuantumIs(front);
          NextReport(Passes(front), After(front), Mark(front), Reports(front));
          OneMoreReport(Passes(front), Reports(front), Windows(front), After(front).shared.feedback, Mark(front).window);
        case Datagram(t, _, _) =>
          ReportsStay(Passes(front), t, Reports(front), Windows(front));
      }
    } else {
      assert ReportsAreWindows(Passes(events), Reports(events), Windows(events));
    }
  }

  /**
   What every report says, field by field: the u16 sums over its window, the quantum in all but the first. The lost
   packets are those of the window, less what a u16 cannot say.
   */
  lemma {:induction false} ReportFields(events: seq<Event>, i: nat) returns (w: Window, ts: seq<Tally>)
    requires OneEach(Passes(events)) && i < |Reports(events)|
    ensures i < |Windows(events)| && w == Windows(events)[i] && w.from <= w.upto <= |Passes(events)|
    ensures ts == Passes(events)[w.from..w.upto]
    ensures var p := Reports(events)[i];
      && p.lostPackets as int == Lost(ts) % 0x1_0000
      && p.totalBlocks as int == Blocks(ts) % 0x1_0000
      && p.outOfOrderBlocks as int == OutOfOrder(ts) % 0x1_0000
      && p.eccDecoderFailures as int == Failures(ts) % 0x1_0000
      && p.totalPackets as int == |ts| % 0x1_0000
      && p.timeQuantum == if i == 0 then 0 else 1000
  {
    hide Reports, Windows, Passes, OneEach;
    EveryReportIsAWindow(events);
    w := Windows(events)[i];
    ts := Passes(events)[w.from..w.upto];
    WrapLost(Lost(ts));
  }

  lemma {:induction false} WrapLost(n: nat)
    ensures Wrapped16(Wrapped32(n)) == n % 0x1_0000
  {
  }

  lemma {:induction false} NextReport(ts: seq<Tally>, l: Link, m: Marks, reports: seq<FeedbackPacket>)
    requires Covers(ts, l, m)
    requires l.shared.feedback.timeQuantum == if reports == [] then 0 else QUANTUM
    ensures m.window.from <= m.window.upto <= |ts|
    ensures l.shared.feedback == ReportOf(ts[m.window.from..m.window.upto], reports == [])
  {
  }

  // ---- Where the stretches start -----------------------------------------------------------------

  /** How many datagrams there had been at each reset of the counters, and at the beginning. */
  function Resets(events: seq<Event>): (s: set<nat>)
  {
    if events == [] then {0} else Resets(events[..|events| - 1]) + {Mark(events).start}
  }

  /** The stretch starts at a reset and there is no other before its end. */
  ghost predicate FromLastReset(resets: set<nat>, w: Window) {
    w.from in resets && forall n :: n in resets ==> !(w.from < n < w.upto)
  }

  lemma {:induction false} ResetsBefore(events: seq<Event>)
    ensures Mark(events).start in Resets(events)
    ensures forall n :: n in Resets(events) ==> n <= Mark(events).start
  {
    if events != [] {
      ResetsBefore(events[..|events| - 1]);
    }
  }

  /** The packet always covers a stretch from a reset with no other reset inside it. */
  lemma {:induction false} PacketFromLastReset(events: seq<Event>)
    ensures FromLastReset(Resets(events), Mark(events).window)
  {
    if events != [] {
      var front := events[..|events| - 1];
      ResetsBefore(front);
      ResetsBefore(events);
      PacketFromLastReset(front);
    }
  }

  /** So does every report. */
  lemma {:induction false} ReportsFromLastReset(events: seq<Event>)
    ensures forall i :: 0 <= i < |Windows(events)| ==> FromLastReset(Resets(events), Windows(events)[i])
  {
    if events != [] {
      var front := events[..|events| - 1];
      ReportsFromLastReset(front);
      PacketFromLastReset(front);
      ResetsBefore(front);
      WindowsEnd(front);
    }
  }

  /** Nothing sent so far reaches past a reset still to come. */
  lemma {:induction false} WindowsEnd(events: seq<Event>)
    ensures forall i :: 0 <= i < |Windows(events)| ==> Windows(events)[i].upto <= Mark(events).passes
  {
    if events != [] {
      WindowsEnd(events[..|events| - 1]);
    }
  }

  // ---- What a report can say ---------------------------------------------------------------------

  /** A failure to decode comes with an out-of-order block, that with a new block, that with a datagram. */
  predicate Nested(t: Tally) {
    t.failures <= t.outOfOrder <= t.blocks <= t.packets == 1
  }

  ghost predicate AllNested(ts: seq<Tally>) {
    forall i :: 0 <= i < |ts| ==> Nested(ts[i])
  }

  lemma {:induction false} SumsNested(ts: seq<Tally>)
    requires AllNested(ts)
    ensures Failures(ts) <= OutOfOrder(ts) <= Blocks(ts) <= |ts|
  {
    if ts != [] {
      SumsNested(ts[..|ts| - 1]);
      assert Nested(ts[|ts| - 1]);
    }
  }

  /** Unless a u16 overflowed, a report never has more failures than out-of-order blocks, blocks, or packets. */
  lemma {:induction false} ReportIsNested(ts: seq<Tally>, first: bool)
    requires AllNested(ts) && |ts| < 0x1_0000
    ensures var p := ReportOf(ts, first);
      p.eccDecoderFailures <= p.outOfOrderBlocks <= p.totalBlocks <= p.totalPackets == |ts|
  {
    SumsNested(ts);
  }

  /** Every report of a window in which no u16 can have overflowed is. */
  ghost predicate ReportsNested(events: seq<Event>) {
    && |Reports(events)| == |Windows(events)|
    && forall i :: 0 <= i < |Reports(events)| && Windows(events)[i].upto - Windows(events)[i].from < 0x1_0000 ==>
      var p := Reports(events)[i];
      && p.eccDecoderFailures <= p.outOfOrderBlocks <= p.totalBlocks <= p.totalPackets
      && p.totalPackets == Windows(events)[i].upto - Windows(events)[i].from
  }

  /** Whatever the two threads' turns. */
  lemma {:induction false} EveryReportIsNested(events: seq<Event>)
    requires AllNested(Passes(events))
    ensures ReportsNested(events)
  {
    hide Reports, Windows, ReportOf, Passes;
    EveryReportIsAWindow(events);
    forall i | 0 <= i < |Reports(events)| && Windows(events)[i].upto - Windows(events)[i].from < 0x1_0000
      ensures var p := Reports(events)[i];
        && p.eccDecoderFailures <= p.outOfOrderBlocks <= p.totalBlocks <= p.totalPackets
        && p.totalPackets == Windows(events)[i].upto - Windows(events)[i].from
    {
      var w := Windows(events)[i];
      ReportIsNested(Passes(events)[w.from..w.upto], i == 0);
    }
  }

  /** A run of the receiver counts like that. */
  lemma {:induction false} RunIsNested(env: Stream.Env, received: seq<seq<byte>>)
    requires env.Built() && Run(env, received).Ran?
    ensures AllNested(Run(env, received).tallies)
  {
    if received != [] {
      var front, data := received[..|received| - 1], received[|received| - 1];
      RunWellFormed(env, front);
      RunIsNested(env, front);
      StepWellFormed(env, Run(env, front).rx, data);
    }
  }

  // ---- Whether the reports add up ----------------------------------------------------------------

  /** The counters of the decoder stay below what a u16 holds. */
  predicate NoOverflow(events: seq<Event>) {
    if events == [] then true
    else
      var m := Mark(events[..|events| - 1]);
      NoOverflow(events[..|events| - 1]) && m.passes + 1 - m.start < 0x1_0000
  }

  /** The windows that cover anything. */
  function NonEmpty(ws: seq<Window>): (some: seq<Window>) {
    if ws == [] then []
    else
      var w := ws[|ws| - 1];
      NonEmpty(ws[..|ws| - 1]) + if w.from < w.upto then [w] else []
  }

  /** The last window, or an empty one at the beginning. */
  function Final(ws: seq<Window>): (w: Window) {
    if ws == [] then Window(0, 0, 1) else ws[|ws| - 1]
  }

  /**
   How a report follows the one before, p: written once, it goes on where p ended if p was written once, and
   says all that p said again if p was written more often; written more often, it skips something.
   */
  predicate Follows(p: Window, w: Window) {
    && w.writes >= 1 && p.upto < w.upto
    && (w.writes == 1 ==> w.from == if p.writes == 1 then p.upto else p.from)
    && (w.writes > 1 ==> p.upto < w.from)
  }

  /** What the decoder's marks have to do with the last report that said anything. */
  predicate Between(p: Window, m: Marks) {
    && p.writes >= 1 && p.from <= p.upto <= m.passes
    && m.start <= m.passes && m.window.from <= m.window.upto <= m.passes && m.window.upto - m.window.from < 0x1_0000
    && (m.window.writes == 0 ==>
      m.window.from == m.window.upto && m.start == if p.writes == 1 then p.upto else p.from)
    && (m.window.writes >= 1 ==> m.window.from < m.window.upto && Follows(p, m.window))
    && (m.window.writes == 1 ==> m.start == m.window.upto)
    && (m.window.writes >= 2 ==> m.start == m.window.from)
  }

  lemma {:induction false} BetweenDatagram(p: Window, m: Marks, e: Event)
    requires Between(p, m) && e.Datagram? && m.passes + 1 - m.start < 0x1_0000
    ensures Between(p, Moved(m, e))
  {
  }

  lemma {:induction false} BetweenReporting(p: Window, m: Marks)
    requires Between(p, m)
    ensures Between(if m.window.from < m.window.upto then m.window else p, Moved(m, Reporting))
    ensures m.window.from < m.window.upto ==> Follows(p, m.window)
  {
  }

  /** Each of these follows the one before it. */
  ghost predicate AllFollow(ws: seq<Window>) {
    ws == [] || (AllFollow(ws[..|ws| - 1]) && Follows(Final(ws[..|ws| - 1]), ws[|ws| - 1]))
  }

  /** How consecutive reports are related, whatever the turns, as long as no counter overflows. */
  lemma {:induction false} ReportsFollow(events: seq<Event>)
    requires NoOverflow(events)
    ensures AllFollow(NonEmpty(Windows(events)))
    ensures Between(Final(NonEmpty(Windows(events))), Mark(events))
  {
    if events != [] {
      hide NoOverflow, Follows;
      var front, e := events[..|events| - 1], events[|events| - 1];
      assert NoOverflow(front) && Mark(front).passes + 1 - Mark(front).start < 0x1_0000 by { FrontNoOverflow(events); }
      ReportsFollow(front);
      var p, m := Final(NonEmpty(Windows(front))), Mark(front);
      match e {
        case Reporting =>
          BetweenReporting(p, m);
          OneMoreWindow(Windows(front), m.window);
          OneMoreWindow(NonEmpty(Windows(front)), m.window);
        case Datagram(_, _, _) =>
          BetweenDatagram(p, m, e);
      }
    }
  }

  lemma {:induction false} FrontNoOverflow(events: seq<Event>)
    requires events != [] && NoOverflow(events)
    ensures var m := Mark(events[..|events| - 1]);
      NoOverflow(events[..|events| - 1]) && m.passes + 1 - m.start < 0x1_0000
  {
  }

  lemma {:induction false} OneMoreWindow(ws: seq<Window>, w: Window)
    ensures NonEmpty(ws + [w]) == if w.from < w.upto then NonEmpty(ws) + [w] else NonEmpty(ws)
    ensures AllFollow(ws + [w]) <==> AllFollow(ws) && Follows(Final(ws), w)
  {
    assert (ws + [w])[..|ws|] == ws;
  }

  /** The stretches lie end to end from the first datagram on. */
  ghost predicate Tile(ws: seq<Window>) {
    ws == [] || (Tile(ws[..|ws| - 1]) && ws[|ws| - 1].from == Final(ws[..|ws| - 1]).upto)
  }

  /** The datagrams the reports speak of, report by report. */
  function Reported(ts: seq<Tally>, ws: seq<Window>): (told: seq<Tally>) {
    if ws == [] then []
    else
      var w := ws[|ws| - 1];
      Reported(ts, ws[..|ws| - 1]) + if w.from <= w.upto <= |ts| then ts[w.from..w.upto] else []
  }

  /** End to end, the reports count every datagram up to the end of the last stretch exactly once. */
  lemma {:induction false} TilesCountOnce(ts: seq<Tally>, ws: seq<Window>)
    requires Tile(ws) && forall i :: 0 <= i < |ws| ==> ws[i].from <= ws[i].upto <= |ts|
    ensures Final(ws).upto <= |ts| && Reported(ts, ws) == ts[..Final(ws).upto]
  {
    if ws != [] {
      TilesCountOnce(ts, ws[..|ws| - 1]);
      var w := ws[|ws| - 1];
      Adjacent(ts, 0, w.from, w.upto);
    }
  }

  /** A report covers something exactly when the packet was written since it was last cleared. */
  ghost predicate Written(ws: seq<Window>) {
    forall i :: 0 <= i < |ws| ==> (ws[i].writes >= 1 <==> ws[i].from < ws[i].upto)
  }

  lemma {:induction false} WindowsWritten(events: seq<Event>)
    requires NoOverflow(events)
    ensures Written(Windows(events))
  {
    if events != [] {
      FrontNoOverflow(events);
      WindowsWritten(events[..|events| - 1]);
      ReportsFollow(events[..|events| - 1]);
    }
  }

  ghost predicate AllOnce(ws: seq<Window>) {
    forall i :: 0 <= i < |ws| ==> ws[i].writes == 1
  }

  ghost predicate AtMostOnce(ws: seq<Window>) {
    forall i :: 0 <= i < |ws| ==> ws[i].writes <= 1
  }

  lemma {:induction false} OnceOneMore(ws: seq<Window>, w: Window)
    ensures AllOnce(ws + [w]) <==> AllOnce(ws) && w.writes == 1
    ensures AtMostOnce(ws + [w]) <==> AtMostOnce(ws) && w.writes <= 1
  {
    assert (ws + [w])[|ws|] == w && forall i :: 0 <= i < |ws| ==> (ws + [w])[i] == ws[i];
  }

  lemma {:induction false} OnceEach(ws: seq<Window>)
    requires Written(ws)
    ensures AtMostOnce(ws) <==> AllOnce(NonEmpty(ws))
  {
    if ws != [] {
      hide NonEmpty, AllFollow, AllOnce, AtMostOnce;
      var front, w := ws[..|ws| - 1], ws[|ws| - 1];
      OnceEach(front);
      OneMoreWindow(front, w);
      assert ws == front + [w];
      OnceOneMore(front, w);
      OnceOneMore(NonEmpty(front), w);
    }
  }

  /**
   The reports count every datagram once, in stretches laid end to end, exactly when the decoder
   writes the packet at most once between two reports.
   */
  lemma {:induction false} ReportsTileExactlyWhen(events: seq<Event>)
    requires NoOverflow(events)
    ensures Tile(NonEmpty(Windows(events))) <==>
            forall i :: 0 <= i < |Windows(events)| ==> Windows(events)[i].writes <= 1
  {
    ReportsFollow(events);
    WindowsWritten(events);
    OnceEach(Windows(events));
    TileWhenOnce(NonEmpty(Windows(events)));
  }

  lemma {:induction false} TileWhenOnce(ws: seq<Window>)
    requires AllFollow(ws)
    ensures Tile(ws) <==> forall i :: 0 <= i < |ws| ==> ws[i].writes == 1
  {
    if ws != [] {
      var front, w := ws[..|ws| - 1], ws[|ws| - 1];
      TileWhenOnce(front);
      assert ws == front + [w];
      assert front != [] ==> Final(front) == front[|front| - 1];
      if Tile(ws) {
        assert w.writes == 1;
      } else if Tile(front) {
        assert Final(front).writes == 1 && w.writes != 1;
        assert ws[|front|] == w;
      } else {
        var i :| 0 <= i < |front| && front[i].writes != 1;
        assert ws[i].writes != 1;
      }
    }
  }

  /** A turn in which a packet is handed on and the feedback packet written. */
  const WRITE := Datagram(Tally(1, 0, 0, 0, 0), Some(Ack(0, 0)), true)

  lemma {:induction false} MarkOneMore(events: seq<Event>, e: Event)
    ensures Mark(events + [e]) == Moved(Mark(events), e)
    ensures Windows(events + [e]) == if e.Reporting? then Windows(events) + [Mark(events).window] else Windows(events)
  {
    assert (events + [e])[..|events|] == events;
  }

  lemma {:induction false} ThreeWrites(events: seq<Event>, start: nat, n: nat)
    requires Mark(events) == Marks(n, start, Window(start, start, 0)) && n + 1 < start + 0x1_0000
    ensures Mark(events + [WRITE] + [WRITE] + [WRITE]) == Marks(n + 3, n + 1, Window(n + 1, n + 3, 3))
    ensures Windows(events + [WRITE] + [WRITE] + [WRITE]) == Windows(events)
  {
    hide Mark, Windows;
    MarkOneMore(events, WRITE);
    assert Mark(events + [WRITE]) == Marks(n + 1, n + 1, Window(start, n + 1, 1));
    MarkOneMore(events + [WRITE], WRITE);
    assert Mark(events + [WRITE] + [WRITE]) == Marks(n + 2, n + 1, Window(n + 1, n + 2, 2)) by {
      assert Wrapped16(n + 1 - start) != 0;
    }
    MarkOneMore(events + [WRITE] + [WRITE], WRITE);
  }

  lemma {:induction false} NothingMarked()
    ensures Mark([]) == Marks(0, 0, Window(0, 0, 0)) && Windows([]) == []
  {
  }

  /** Three writes and a report, twice: the first and the fourth of the six datagrams are in no report. */
  lemma {:induction false} ReportsSkip() returns (events: seq<Event>)
    ensures |Passes(events)| == 6
    ensures Windows(events) == [Window(1, 3, 3), Window(4, 6, 3)]
  {
    NothingMarked();
    hide Mark, Windows;
    events := [] + [WRITE] + [WRITE] + [WRITE];
    ThreeWrites([], 0, 0);
    MarkOneMore(events, Reporting);
    events := events + [Reporting];
    ThreeWrites(events, 1, 3);
    events := events + [WRITE] + [WRITE] + [WRITE];
    MarkOneMore(events, Reporting);
    events := events + [Reporting];
    assert |Passes(events)| == Mark(events).passes;
  }

  /** Three writes and a report, one write and a report: two of the four datagrams are reported twice. */
  lemma {:induction false} ReportsRepeat() returns (events: seq<Event>)
    ensures |Passes(events)| == 4
    ensures Windows(events) == [Window(1, 3, 3), Window(1, 4, 1)]
  {
    NothingMarked();
    hide Mark, Windows;
    events := [] + [WRITE] + [WRITE] + [WRITE];
    ThreeWrites([], 0, 0);
    MarkOneMore(events, Reporting);
    events := events + [Reporting];
    MarkOneMore(events, WRITE);
    events := events + [WRITE];
    MarkOneMore(events, Reporting);
    events := events + [Reporting];
    assert |Passes(events)| == Mark(events).passes;
  }

  /** So with at most one write to a report, nothing is counted twice or left out. */
  lemma {:induction false} ReportsCountOnce(events: seq<Event>)
    requires NoOverflow(events)
    requires forall i :: 0 <= i < |Windows(events)| ==> Windows(events)[i].writes <= 1
    ensures var ws := NonEmpty(Windows(events));
      Final(ws).upto <= |Passes(events)| && Reported(Passes(events), ws) == Passes(events)[..Final(ws).upto]
  {
    ReportsTileExactlyWhen(events);
    WindowsEnd(events);
    NonEmptyEnd(Windows(events), |Passes(events)|);
    TilesCountOnce(Passes(events), NonEmpty(Windows(events)));
  }

  lemma {:induction false} NonEmptyEnd(ws: seq<Window>, n: nat)
    requires forall i :: 0 <= i < |ws| ==> ws[i].upto <= n
    ensures forall i :: 0 <= i < |NonEmpty(ws)| ==> NonEmpty(ws)[i].from <= NonEmpty(ws)[i].upto <= n
  {
    if ws != [] {
      NonEmptyEnd(ws[..|ws| - 1], n);
    }
  }

  // ---- The two threads' critical sections --------------------------------------------------------

  class SharedFeedback {
    var ack: Ack
    var feedback: FeedbackPacket

    ghost function State(): (s: Shared)
      reads this
    {
      Shared(ack, feedback)
    }

    constructor ()
      ensures State() == DEFAULT
    {
      ack, feedback := Ack(0, 0), FeedbackPacket(0, 0, 0, 0, 0, 0);
    }

    /** The reporting thread, under the lock: sends the packet, clears it field by field, sends the acknowledgement. */
    method Report() returns (sent: seq<Message>)
      modifies this
      ensures sent == Messages(old(State()))
      ensures State() == Cleared(old(State()))
    {
      sent := [FeedbackMessage(feedback)];
      feedback := feedback.(timeQuantum := QUANTUM);
      feedback := feedback.(totalBlocks := 0);
      feedback := feedback.(outOfOrderBlocks := 0);
      feedback := feedback.(totalPackets := 0);
      feedback := feedback.(lostPackets := 0);
      feedback := feedback.(eccDecoderFailures := 0);
      sent := sent + [AckMessage(ack)];
    }
  }
}
