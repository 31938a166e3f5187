/** The decoder thread and the reporting thread taking turns: from what the network brings to the reports sent. */
module Turns {
  import opened Bytes
  import opened Stream
  import opened Receiver
  import opened Feedback
  import Header

  /** A datagram is handled, the lock on the feedback packet being free or not; or it is time for a report. */
  datatype Turn = Arrival(data: seq<byte>, locked: bool) | ReportDue

  /** The datagrams, without the turns of the reporting thread. */
  function Heard(turns: seq<Turn>): (received: seq<seq<byte>>) {
    if turns == [] then []
    else
      match turns[|turns| - 1]
      case ReportDue => Heard(turns[..|turns| - 1])
      case Arrival(data, _) => Heard(turns[..|turns| - 1]) + [data]
  }

  /** What the pass over a datagram does to the feedback counters and packet, in the state the run has reached. */
  ghost function EventOf(env: Env, before: Outcome, data: seq<byte>, locked: bool): (es: seq<Event>)
    requires env.Built() && (before.Ran? ==> Sized(env, before.rx))
  {
    match before
    case Ended(_, _) => []
    case Ran(rx, _) =>
      match Step(env, rx, data)
      case Halted(_, _) => []
      case Passed(_, tally, ack) => [Datagram(tally, ack, locked)]
  }

  /** The turns as the feedback protocol sees them, as long as the loop goes on. */
  ghost function Events(env: Env, turns: seq<Turn>): (es: seq<Event>)
    requires env.Built()
  {
    if turns == [] then []
    else
      var front := turns[..|turns| - 1];
      match turns[|turns| - 1]
      case ReportDue => Events(env, front) + [Reporting]
      case Arrival(data, locked) => Events(env, front) + EventOf(env, Run(env, Heard(front)), data, locked)
  }

  /** Everything the reporting thread sends. */
  function Sent(events: seq<Event>): (messages: seq<Message>) {
    if events == [] then []
    else if events[|events| - 1].Reporting? then
      Sent(events[..|events| - 1]) + Messages(After(events[..|events| - 1]).shared)
    else Sent(events[..|events| - 1])
  }

  lemma {:induction false} OneMoreEvent(events: seq<Event>, e: Event)
    ensures After(events + [e]) == Next(After(events), e)
    ensures Sent(events + [e]) == if e.Reporting? then Sent(events) + Messages(After(events).shared) else Sent(events)
    ensures Reports(events + [e]) ==
      if e.Reporting? then Reports(events) + [After(events).shared.feedback] else Reports(events)
    ensures Passes(events + [e]) == if e.Datagram? then Passes(events) + [e.tally] else Passes(events)
  {
    assert (events + [e])[..|events|] == events;
  }

  lemma {:induction false} ReportTurn(env: Env, turns: seq<Turn>)
    requires env.Built()
    ensures Heard(turns + [ReportDue]) == Heard(turns)
    ensures Events(env, turns + [ReportDue]) == Events(env, turns) + [Reporting]
  {
    assert (turns + [ReportDue])[..|turns|] == turns;
  }

  lemma {:induction false} ArrivalTurn(env: Env, turns: seq<Turn>, data: seq<byte>, locked: bool)
    requires env.Built()
    ensures Heard(turns + [Arrival(data, locked)]) == Heard(turns) + [data]
    ensures Events(env, turns + [Arrival(data, locked)])
         == Events(env, turns) + EventOf(env, Run(env, Heard(turns)), data, locked)
  {
    hide Run, EventOf;
    assert (turns + [Arrival(data, locked)])[..|turns|] == turns;
  }

  /** The reports are every other message. */
  lemma {:induction false} SentAreReports(events: seq<Event>)
    ensures |Sent(events)| == 2 * |Reports(events)|
    ensures forall i :: 0 <= i < |Reports(events)| ==> Sent(events)[2 * i] == FeedbackMessage(Reports(events)[i])
  {
    if events != [] {
      SentAreReports(events[..|events| - 1]);
    }
  }

  // ---- Which acknowledgement is sent ---------------------------------------------------------------

  /** From event n on, no packet was handed on while the lock was free. */
  ghost predicate NoneFrom(events: seq<Event>, n: nat) {
    forall l :: n <= l < |events| ==> !(events[l].Datagram? && events[l].locked && events[l].ack.Some?)
  }

  /** The acknowledgement of the last packet handed on while the lock was free, or zeros if there was none. */
  ghost predicate LastShared(events: seq<Event>, ack: Ack) {
    || (NoneFrom(events, 0) && ack == Ack(0, 0))
    || exists j ::
      && 0 <= j < |events| && events[j].Datagram? && events[j].locked && events[j].ack == Some(ack)
      && NoneFrom(events, j + 1)
  }

  lemma {:induction false} NoneFromOneMore(front: seq<Event>, e: Event, n: nat)
    requires n <= |front| && !(e.Datagram? && e.locked && e.ack.Some?)
    ensures NoneFrom(front + [e], n) <==> NoneFrom(front, n)
  {
    assert forall l :: 0 <= l < |front| ==> (front + [e])[l] == front[l];
    if NoneFrom(front + [e], n) {
      forall l | n <= l < |front| ensures !(front[l].Datagram? && front[l].locked && front[l].ack.Some?) {
        assert (front + [e])[l] == front[l];
      }
    }
  }

  lemma {:induction false} LastSharedOneMore(front: seq<Event>, e: Event, ack: Ack)
    requires LastShared(front, ack)
    ensures LastShared(front + [e], if e.Datagram? && e.locked && e.ack.Some? then e.ack.value else ack)
  {
    hide NoneFrom;
    var events := front + [e];
    if e.Datagram? && e.locked && e.ack.Some? {
      assert events[|front|] == e;
      assert NoneFrom(events, |front| + 1) by { NothingAfterLast(events); }
    } else if NoneFrom(front, 0) && ack == Ack(0, 0) {
      NoneFromOneMore(front, e, 0);
    } else {
      var j :| 0 <= j < |front| && front[j].Datagram? && front[j].locked && front[j].ack == Some(ack)
               && NoneFrom(front, j + 1);
      NoneFromOneMore(front, e, j + 1);
      assert events[j] == front[j];
    }
  }

  lemma {:induction false} NothingAfterLast(events: seq<Event>)
    ensures NoneFrom(events, |events|)
  {
  }

  lemma {:induction false} NextAck(l: Link, e: Event)
    ensures Next(l, e).shared.ack
         == if e.Datagram? && e.locked && e.ack.Some? then e.ack.value else l.shared.ack
  {
  }

  /** At every moment of every interleaving, that acknowledgement is the one shared. */
  lemma {:induction false} SharedAck(events: seq<Event>)
    ensures LastShared(events, After(events).shared.ack)
  {
    if events == [] {
      NothingAfterLast(events);
    } else {
      hide LastShared, Next, After;
      var front, e := events[..|events| - 1], events[|events| - 1];
      assert events == front + [e];
      SharedAck(front);
      LastSharedOneMore(front, e, After(front).shared.ack);
      OneMoreEvent(front, e);
      NextAck(After(front), e);
    }
  }

  /**
   Whatever the turns: with report i, sent at event n, goes the acknowledgement of the last packet handed on before it
   while the lock was free.
   */
  lemma {:induction false} SentAcks(events: seq<Event>, i: nat) returns (n: nat, ack: Ack)
    requires i < |Reports(events)|
    ensures n < |events| && events[n].Reporting? && |Reports(events[..n])| == i
    ensures |Sent(events)| == 2 * |Reports(events)|
    ensures Sent(events)[2 * i + 1] == AckMessage(ack) && LastShared(events[..n], ack)
  {
    hide LastShared, After, Sent, Reports;
    if events == [] {
      NothingReported();
    } else {
      var front, e := events[..|events| - 1], events[|events| - 1];
      assert events == front + [e];
      SentAreReports(events);
      SentAreReports(front);
      OneMoreEvent(front, e);
      if i < |Reports(front)| {
        n, ack := SentAcks(front, i);
        assert events[..n] == front[..n];
      } else {
        n, ack := |front|, After(front).shared.ack;
        SharedAck(front);
      }
    }
  }

  lemma {:induction false} NothingReported()
    ensures Reports([]) == []
  {
  }

  /** A pass and what its event does to the protocol. */
  lemma {:induction false} PassFollows(env: Env, turns: seq<Turn>, data: seq<byte>, locked: bool)
    requires env.Built() && Run(env, Heard(turns)).Ran?
    ensures Heard(turns + [Arrival(data, locked)]) == Heard(turns) + [data]
    ensures match Step(env, Run(env, Heard(turns)).rx, data)
      case Halted(reason, v) => Run(env, Heard(turns) + [data]) == Ended(reason, v)
      case Passed(rx, tally, ack) =>
        var events, more := Events(env, turns), Events(env, turns + [Arrival(data, locked)]);
        && Run(env, Heard(turns) + [data]) == Ran(rx, Run(env, Heard(turns)).tallies + [tally])
        && Passes(more) == Passes(events) + [tally] && Sent(more) == Sent(events)
        && After(more) == Next(After(events), Datagram(tally, ack, locked))
  {
    hide Run, Step, Heard, Events, Next, Passes, Sent, After;
    ArrivalTurn(env, turns, data, locked);
    RunOneMore(env, Heard(turns), data);
    match Step(env, Run(env, Heard(turns)).rx, data) {
      case Halted(_, _) =>
      case Passed(_, tally, ack) => OneMoreEvent(Events(env, turns), Datagram(tally, ack, locked));
    }
  }

  /** Once a pass fails, datagrams have no effect any more; reports go on. */
  lemma {:induction false} NothingFollows(env: Env, turns: seq<Turn>, data: seq<byte>, locked: bool)
    requires env.Built()
    requires Run(env, Heard(turns)).Ran? ==> Step(env, Run(env, Heard(turns)).rx, data).Halted?
    ensures Heard(turns + [Arrival(data, locked)]) == Heard(turns) + [data]
    ensures Events(env, turns + [Arrival(data, locked)]) == Events(env, turns)
    ensures Run(env, Heard(turns)).Ended? ==> Run(env, Heard(turns) + [data]) == Run(env, Heard(turns))
  {
    hide Run, Step, Heard, Events;
    ArrivalTurn(env, turns, data, locked);
    RunOneMore(env, Heard(turns), data);
    assert Events(env, turns) + [] == Events(env, turns);
  }

  lemma {:induction false} ReportFollows(env: Env, turns: seq<Turn>)
    requires env.Built()
    ensures Heard(turns + [ReportDue]) == Heard(turns)
    ensures var events, more := Events(env, turns), Events(env, turns + [ReportDue]);
      && Passes(more) == Passes(events) && Sent(more) == Sent(events) + Messages(After(events).shared)
      && After(more) == Link(After(events).counters, Cleared(After(events).shared))
  {
    hide Heard, Events, Passes, Sent, After, Messages;
    ReportTurn(env, turns);
    OneMoreEvent(Events(env, turns), Reporting);
  }

  lemma {:induction false} NothingYet(env: Env)
    requires env.Built()
    ensures Heard([]) == [] && Run(env, []) == Ran(Initial(env), [])
    ensures Events(env, []) == [] && Passes([]) == [] && Sent([]) == [] && After([]) == Link(ZERO, DEFAULT)
  {
  }

  /** What the datagrams counted for in the protocol is what they counted for in the run. */
  lemma {:induction false} PassesOfRun(env: Env, turns: seq<Turn>)
    requires env.Built() && Run(env, Heard(turns)).Ran?
    ensures Passes(Events(env, turns)) == Run(env, Heard(turns)).tallies
  {
    hide Run, Heard, Events, Passes, Step, After, Sent, Next, Messages, Sized, Env.Built;
    if turns == [] {
      NothingYet(env);
    } else {
      var front, t := turns[..|turns| - 1], turns[|turns| - 1];
      assert turns == front + [t];
      match t {
        case ReportDue =>
          ReportFollows(env, front);
          PassesOfRun(env, front);
        case Arrival(data, locked) =>
          RunOneMore(env, Heard(front), data);
          ArrivalTurn(env, front, data, locked);
          PassFollows(env, front, data, locked);
          PassesOfRun(env, front);
      }
    }
  }

  /**
   Every report a run sends, whatever the turns of the two threads, unless a u16 overflowed: no more failures than
   out-of-order blocks, no more of those than blocks, no more of those than packets.
   */
  lemma {:induction false} ReportsOfRunNested(env: Env, turns: seq<Turn>)
    requires env.Built() && Run(env, Heard(turns)).Ran?
    ensures ReportsNested(Events(env, turns))
  {
    PassesOfRun(env, turns);
    RunIsNested(env, Heard(turns));
    EveryReportIsNested(Events(env, turns));
  }

  // ---- Acknowledgements of a run -------------------------------------------------------------------

  /** Event e is what this turn is to the protocol, in the state the run has reached. */
  ghost predicate Is(env: Env, before: Outcome, t: Turn, e: Event)
    requires env.Built() && before.Ran? && Sized(env, before.rx)
  {
    match t
    case ReportDue => e == Reporting
    case Arrival(data, locked) =>
      match Step(env, before.rx, data)
      case Halted(_, _) => false
      case Passed(_, tally, ack) => e == Datagram(tally, ack, locked)
  }

  /** As long as the loop goes on, there is one event to each turn. */
  ghost predicate Aligned(env: Env, turns: seq<Turn>, events: seq<Event>)
    requires env.Built()
  {
    && |events| == |turns|
    && forall n :: 0 <= n < |turns| ==>
      Run(env, Heard(turns[..n])).Ran? && Is(env, Run(env, Heard(turns[..n])), turns[n], events[n])
  }

  lemma {:induction false} AlignedOneMore(env: Env, front: seq<Turn>, t: Turn, events: seq<Event>, e: Event)
    requires env.Built() && Aligned(env, front, events)
    requires Run(env, Heard(front)).Ran? && Is(env, Run(env, Heard(front)), t, e)
    ensures Aligned(env, front + [t], events + [e])
  {
    hide Run, Heard, Is;
    var turns := front + [t];
    assert turns[..|front|] == front;
    forall n | 0 <= n < |front| ensures turns[..n] == front[..n] {
    }
  }

  lemma {:induction false} TurnIs(env: Env, front: seq<Turn>, t: Turn) returns (e: Event)
    requires env.Built() && Run(env, Heard(front + [t])).Ran?
    ensures Run(env, Heard(front)).Ran? && Is(env, Run(env, Heard(front)), t, e)
    ensures Events(env, front + [t]) == Events(env, front) + [e]
  {
    hide Run, Heard, Step, Events, Env.Built;
    match t {
      case ReportDue =>
        ReportTurn(env, front);
        e := Reporting;
      case Arrival(data, locked) =>
        ArrivalTurn(env, front, data, locked);
        RunOneMore(env, Heard(front), data);
        assert Run(env, Heard(front)).Ran?;
        e := EventOf(env, Run(env, Heard(front)), data, locked)[0];
    }
  }

  lemma {:induction false} EventsAligned(env: Env, turns: seq<Turn>)
    requires env.Built() && Run(env, Heard(turns)).Ran?
    ensures Aligned(env, turns, Events(env, turns))
  {
    hide Run, Heard, Is, Env.Built, Events;
    if turns == [] {
      NothingYet(env);
    } else {
      hide Aligned;
      var front, t := turns[..|turns| - 1], turns[|turns| - 1];
      assert turns == front + [t];
      var e := TurnIs(env, front, t);
      EventsAligned(env, front);
      AlignedOneMore(env, front, t, Events(env, front), e);
    }
  }

  /** In this turn a packet is handed on while the lock is free. */
  ghost predicate Acknowledged(env: Env, turns: seq<Turn>, j: nat)
    requires env.Built() && j < |turns|
  {
    match (Run(env, Heard(turns[..j])), turns[j])
    case (Ran(rx, _), Arrival(data, locked)) => locked && HandsOn(env, rx, data)
    case _ => false
  }

  ghost predicate NoneAcknowledged(env: Env, turns: seq<Turn>, from: nat)
    requires env.Built()
  {
    forall l :: from <= l < |turns| ==> !Acknowledged(env, turns, l)
  }

  /** The number and the time of the last packet handed on while the lock was free, or zeros if there was none. */
  ghost predicate AcksLast(env: Env, turns: seq<Turn>, ack: Ack)
    requires env.Built()
  {
    || (NoneAcknowledged(env, turns, 0) && ack == Ack(0, 0))
    || exists j :: 0 <= j < |turns| && Acknowledged(env, turns, j) && AckOf(env, turns[j], ack)
                   && NoneAcknowledged(env, turns, j + 1)
  }

  /** What a datagram says of its packet's number and of the time it was sent. */
  ghost predicate AckOf(env: Env, t: Turn, ack: Ack) {
    match t
    case ReportDue => false
    case Arrival(data, _) =>
      match PacketIn(env, data)
      case None => false
      case Some(packet) =>
        ack == Ack(packet.sequenceNumber, Header.Decoded(data, env.k).sendTimestamp)
  }

  lemma {:induction false} AcknowledgedIs(env: Env, turns: seq<Turn>, events: seq<Event>, j: nat)
    requires env.Built() && Aligned(env, turns, events) && j < |turns|
    ensures Acknowledged(env, turns, j) <==> events[j].Datagram? && events[j].locked && events[j].ack.Some?
    ensures Acknowledged(env, turns, j) ==> AckOf(env, turns[j], events[j].ack.value)
  {
    hide Run, Heard, Step, HandsOn, Env.Built, PacketIn, Header.Decoded;
    assert Run(env, Heard(turns[..j])).Ran? && Is(env, Run(env, Heard(turns[..j])), turns[j], events[j]);
    if turns[j].Arrival? {
      AcksOfStep(env, Run(env, Heard(turns[..j])).rx, turns[j].data, turns[j].locked);
    }
  }

  lemma {:induction false} AcksOfStep(env: Env, rx: Rx, data: seq<byte>, locked: bool)
    requires env.Built() && Sized(env, rx)
    ensures match Step(env, rx, data)
      case Halted(_, _) => true
      case Passed(_, _, None) => !HandsOn(env, rx, data)
      case Passed(_, _, Some(ack)) => HandsOn(env, rx, data) && AckOf(env, Arrival(data, locked), ack)
  {
    AcksExactlyWhen(env, rx, data);
    hide Step, PacketIn, Header.Decoded;
  }

  lemma {:induction false} LastIsAcksLast(env: Env, turns: seq<Turn>, events: seq<Event>, ack: Ack)
    requires env.Built() && Aligned(env, turns, events) && LastShared(events, ack)
    ensures AcksLast(env, turns, ack)
  {
    hide Acknowledged, AckOf, Aligned;
    AlignedLength(env, turns, events);
    forall j | 0 <= j < |turns|
      ensures Acknowledged(env, turns, j) <==> events[j].Datagram? && events[j].locked && events[j].ack.Some?
      ensures Acknowledged(env, turns, j) ==> AckOf(env, turns[j], events[j].ack.value)
    {
      AcknowledgedIs(env, turns, events, j);
    }
    if NoneFrom(events, 0) && ack == Ack(0, 0) {
      assert NoneAcknowledged(env, turns, 0);
    } else {
      var j :| 0 <= j < |events| && events[j].Datagram? && events[j].locked && events[j].ack == Some(ack)
               && NoneFrom(events, j + 1);
      assert NoneAcknowledged(env, turns, j + 1);
      assert Acknowledged(env, turns, j) && AckOf(env, turns[j], ack);
    }
  }

  lemma {:induction false} AlignedLength(env: Env, turns: seq<Turn>, events: seq<Event>)
    requires env.Built() && Aligned(env, turns, events)
    ensures |events| == |turns|
  {
  }

  lemma {:induction false} AlignedPrefix(env: Env, turns: seq<Turn>, events: seq<Event>, n: nat)
    requires env.Built() && Aligned(env, turns, events) && n <= |turns|
    ensures n <= |events| && Aligned(env, turns[..n], events[..n])
  {
    hide Run, Heard, Is;
    forall i | 0 <= i < n ensures turns[..n][..i] == turns[..i] {
    }
  }

  /**
   From the network to the server: with report i of a run, due at turn n, goes the number and the time of the last packet
   that was handed on before it at once, on arrival, while the lock was free.
   */
  lemma {:induction false} SentAcksOfRun(env: Env, turns: seq<Turn>, i: nat) returns (n: nat, ack: Ack)
    requires env.Built() && Run(env, Heard(turns)).Ran?
    requires i < |Reports(Events(env, turns))|
    ensures n < |turns| && turns[n].ReportDue?
    ensures |Events(env, turns)| == |turns| && |Reports(Events(env, turns)[..n])| == i
    ensures |Sent(Events(env, turns))| == 2 * |Reports(Events(env, turns))|
    ensures Sent(Events(env, turns))[2 * i + 1] == AckMessage(ack)
    ensures AcksLast(env, turns[..n], ack)
  {
    hide Run, Heard, Events, Reports, Sent, AcksLast, LastShared, Aligned, Env.Built;
    var events := Events(env, turns);
    EventsAligned(env, turns);
    AlignedLength(env, turns, events);
    n, ack := SentAcks(events, i);
    AlignedPrefix(env, turns, events, n);
    LastIsAcksLast(env, turns[..n], events[..n], ack);
    ReportTurnIs(env, turns, events, n);
  }

  lemma {:induction false} ReportTurnIs(env: Env, turns: seq<Turn>, events: seq<Event>, n: nat)
    requires env.Built() && Aligned(env, turns, events) && n < |events| && events[n].Reporting?
    ensures n < |turns| && turns[n].ReportDue?
  {
    hide Run, Heard, Step, Env.Built;
    assert Is(env, Run(env, Heard(turns[..n])), turns[n], events[n]);
  }
}
