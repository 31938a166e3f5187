/** The receive loop itself: `decode_loop` of client/src/decoder/video.rs, its variables and its buffers. */
module ReceiveLoop {
  import opened Bytes
  import opened Erasure
  import opened Stream
  import opened Video
  import opened Receiver
  import opened Feedback
  import opened Turns
  import Header

  /** Once a restored shard cannot be read back, the rest does not matter. */
  lemma {:induction false} RestoreStopped(
    env: Env, sendq: seq<Packet>, sizes: seq<u16>, restored: map<nat, Shard>, i: nat, n: nat)
    requires i <= n <= |sendq| == |sizes| && Restore(env, sendq, sizes, restored, i) == None
    ensures Restore(env, sendq, sizes, restored, n) == None
  {
    if i < n {
      RestoreStopped(env, sendq, sizes, restored, i, n - 1);
    }
  }

  /** Nor do the packets after one that the depacketizer rejects. */
  lemma {:induction false} HandAllStopped(env: Env, v: Player, ps: seq<Packet>, i: nat)
    requires i <= |ps| && HandAll(env, v, ps[..i]).Broken?
    ensures HandAll(env, v, ps) == HandAll(env, v, ps[..i])
  {
    if i < |ps| {
      assert ps[..|ps| - 1][..i] == ps[..i];
      HandAllStopped(env, v, ps[..|ps| - 1], i);
    } else {
      assert ps[..i] == ps;
    }
  }

  /** A pass, by its two parts: the old block is left, if it is, and the datagram taken. */
  lemma {:induction false} StepSplits(env: Env, rx: Rx, h: Header.Info, body: seq<byte>)
    requires env.Built() && Sized(env, rx) && |h.pktSizes| == env.k
    ensures match Enter(env, rx, h.blockId)
      case Stuck(reason, v) => StepOn(env, rx, h, body) == Halted(reason, v)
      case Left(entered, outOfOrder, failures) =>
        match if |body| > env.code.size then Halted(Malformed, entered.player) else Accept(env, entered, h, body)
        case Halted(reason, v) => StepOn(env, rx, h, body) == Halted(reason, v)
        case Passed(next, t, ack) =>
          StepOn(env, rx, h, body)
          == Passed(next, Tally(t.packets, if h.blockId == rx.blockId then 0 else 1, outOfOrder, t.lost, failures), ack)
  {
    hide Enter, Accept;
  }

  class DecodeLoop {
    const env: Env
    const videoDec: VideoDecoder
    const feedbackPkt: SharedFeedback

    var lvheaderPrevFragmentIndex: u32
    /** The shards given to the erasure decoder since it was reset. */
    var originals: map<nat, Shard>
    var recoveries: map<nat, Shard>
    const rsFragmentBuffer: array<byte>
    const rsSendq: array<Packet>
    var rsTotalPackets: nat
    var rsPktSizes: seq<u16>
    var rsInorderPackets: nat
    var rsRecoveryPackets: nat
    var rsOorderPackets: nat
    var blockId: u32

    var totalBlocks: u16
    var outOfOrderBlocks: u16
    var totalPackets: u16
    var lostPackets: u32
    var eccDecoderFailures: u16

    ghost predicate Shaped()
      reads this
    {
      && env.Built() && videoDec.env == env
      && rsFragmentBuffer.Length == env.code.size && rsSendq.Length == env.k == |rsPktSizes|
      && lvheaderPrevFragmentIndex < env.k
    }

    ghost function State(): (rx: Rx)
      reads this, rsSendq, videoDec
    {
      Rx(lvheaderPrevFragmentIndex, blockId, rsInorderPackets, rsOorderPackets, rsRecoveryPackets, rsTotalPackets,
         originals, recoveries, rsSendq[..], rsPktSizes, videoDec.State())
    }

    ghost predicate Valid()
      reads this, rsSendq, videoDec
    {
      Shaped() && WellFormed(env, State())
    }

    ghost function Counters(): (c: Feedback.Counters)
      reads this
    {
      Feedback.Counters(totalBlocks, outOfOrderBlocks, totalPackets, lostPackets, eccDecoderFailures)
    }

    ghost function Link(): (l: Feedback.Link)
      reads this, feedbackPkt
    {
      Feedback.Link(Counters(), feedbackPkt.State())
    }

    constructor (env: Env, feedbackPkt: SharedFeedback)
      requires env.Built()
      ensures Valid() && this.env == env && this.feedbackPkt == feedbackPkt
      ensures State() == Initial(env) && Counters() == ZERO
      ensures fresh(videoDec) && fresh(rsFragmentBuffer) && fresh(rsSendq)
    {
      this.env := env;
      this.feedbackPkt := feedbackPkt;
      videoDec := new VideoDecoder(env);
      lvheaderPrevFragmentIndex := env.k - 1;
      originals, recoveries := map[], map[];
      rsFragmentBuffer := new byte[env.code.size](_ => 0);
      rsSendq := new Packet[env.k](_ => NO_PACKET);
      rsTotalPackets := 0;
      rsPktSizes := seq(env.k, _ => 0);
      rsInorderPackets, rsRecoveryPackets, rsOorderPackets := 0, 0, 0;
      blockId := 0;
      totalBlocks, outOfOrderBlocks, totalPackets, lostPackets, eccDecoderFailures := 0, 0, 0, 0, 0;
      new;
      assert rsSendq[..] == seq(env.k, _ => NO_PACKET);
      InitialWellFormed(env);
    }

    /** The restored shards are cut to size and unmarshalled into their slots. */
    method RestoreSlots(restored: map<nat, Shard>) returns (ok: bool)
      requires Shaped()
      modifies rsSendq
      ensures ok ==> Restore(env, old(rsSendq[..]), rsPktSizes, restored, env.k) == Some(rsSendq[..])
      ensures !ok ==> Restore(env, old(rsSendq[..]), rsPktSizes, restored, env.k) == None
    {
      ghost var before := rsSendq[..];
      for k := 0 to env.k
        invariant Restore(env, before, rsPktSizes, restored, k) == Some(rsSendq[..])
      {
        if k in restored {
          var v := restored[k];
          var packet := if |v| < rsPktSizes[k] then None else env.unmarshal(v[..rsPktSizes[k]]);
          if packet == None {
            RestoreStopped(env, before, rsPktSizes, restored, k + 1, env.k);
            return false;
          }
          rsSendq[k] := packet.value;
        }
      }
      ok := true;
    }

    /** Everything in the queue after the in-order packets goes to the depacketizer. */
    method HandRest() returns (ok: bool)
      requires Shaped() && rsInorderPackets <= env.k
      modifies videoDec
      ensures HandAll(env, old(videoDec.State()), From(rsSendq[..], rsInorderPackets))
           == if ok then Played(videoDec.State()) else Broken(videoDec.State())
    {
      hide Hand, Env.Built;
      ghost var ps, v := rsSendq[rsInorderPackets..], videoDec.State();
      for i := rsInorderPackets to env.k
        invariant HandAll(env, v, ps[..i - rsInorderPackets]) == Played(videoDec.State())
      {
        ghost var n := i - rsInorderPackets;
        HandOneMore(env, v, ps[..n], ps[n]);
        assert ps[..n + 1] == ps[..n] + [ps[n]];
        ok := videoDec.DepacketizeDecode(rsSendq[i]);
        if !ok {
          HandAllStopped(env, v, ps, n + 1);
          return;
        }
      }
      assert ps[..env.k - rsInorderPackets] == ps;
      ok := true;
    }

    /** The object is where leaving a block leads, and counted how that went. */
    ghost predicate Went(left: Left, halt: Option<Reason>, outOfOrderBefore: u16, failuresBefore: u16)
      reads this, rsSendq, videoDec
    {
      match left
      case Stuck(reason, v) => halt == Some(reason) && videoDec.State() == v
      case Left(rx, outOfOrder, failures) =>
        && halt == None && State() == rx
        && outOfOrderBlocks == Wrapped16(outOfOrderBefore + outOfOrder)
        && eccDecoderFailures == Wrapped16(failuresBefore + failures)
    }

    /** Leaving a block: restore what is missing, if anything is and if it can be. */
    method RecoverBlock() returns (halt: Option<Reason>)
      requires Shaped() && rsInorderPackets <= env.k
      modifies this`lvheaderPrevFragmentIndex, this`outOfOrderBlocks, this`eccDecoderFailures, videoDec, rsSendq
      ensures Shaped()
      ensures Went(Recover(env, old(State())), halt, old(outOfOrderBlocks), old(eccDecoderFailures))
    {
      halt := None;
      if rsTotalPackets < env.r + env.k && rsTotalPackets - rsRecoveryPackets != env.k {
        outOfOrderBlocks := Wrapped16(outOfOrderBlocks + 1);
        match env.code.decode(originals, recoveries) {
          case Some(restored) =>
            var ok := RestoreSlots(restored);
            if !ok {
              return Some(NotAPacket);
            }
            ok := HandRest();
            if !ok {
              return Some(NotDepacketized);
            }
          case None =>
            eccDecoderFailures := Wrapped16(eccDecoderFailures + 1);
        }
        lvheaderPrevFragmentIndex := env.k - 1;
      }
    }
  
    /** Nothing of the old block is kept but the queue and the packet sizes. */
    method ResetBlock(newBlockId: u32)
      modifies this`rsInorderPackets, this`rsRecoveryPackets, this`rsOorderPackets, this`rsTotalPackets,
               this`originals, this`recoveries, this`blockId
      ensures State() == Fresh(old(State()), newBlockId)
    {
      rsInorderPackets, rsRecoveryPackets, rsOorderPackets, rsTotalPackets := 0, 0, 0, 0;
      originals, recoveries := map[], map[];
      blockId := newBlockId;
    }

    /** A datagram of another block: the old block is left and the new one entered. */
    method EnterBlock(newBlockId: u32) returns (halt: Option<Reason>)
      requires Shaped() && rsInorderPackets <= env.k
      modifies this, videoDec, rsSendq
      ensures Shaped()
      ensures totalPackets == old(totalPackets) && lostPackets == old(lostPackets)
      ensures totalBlocks == if newBlockId == old(blockId) then old(totalBlocks) else Wrapped16(old(totalBlocks) + 1)
      ensures Went(Enter(env, old(State()), newBlockId), halt, old(outOfOrderBlocks), old(eccDecoderFailures))
    {
      hide Recover, Wrapped16, Env.Built;
      halt := None;
      if newBlockId != blockId {
        totalBlocks := Wrapped16(totalBlocks + 1);
        halt := RecoverBlock();
        if halt == None {
          ResetBlock(newBlockId);
        }
      }
    }

    /** The payload at the front of the buffer, zeros behind it, whatever was there before. */
    method FillBuffer(rtpData: seq<byte>)
      requires |rtpData| <= rsFragmentBuffer.Length
      modifies rsFragmentBuffer
      ensures rsFragmentBuffer[..] == Padded(rtpData, rsFragmentBuffer.Length)
    {
      forall i | 0 <= i < |rtpData| {
        rsFragmentBuffer[i] := rtpData[i];
      }
      forall i | |rtpData| <= i < rsFragmentBuffer.Length {
        rsFragmentBuffer[i] := 0;
      }
      assert rsFragmentBuffer[..] == Padded(rtpData, rsFragmentBuffer.Length);
    }

    method TakeRecovery(h: Header.Info) returns (halt: Option<Reason>)
      requires Shaped() && |h.pktSizes| == env.k
      modifies this`recoveries, this`rsPktSizes, this`rsRecoveryPackets, this`rsTotalPackets
      ensures Shaped()
      ensures Did(AcceptRecovery(env, old(State()), h, rsFragmentBuffer[..]), halt, None, lostPackets)
    {
      if h.fragmentIndex >= env.r || h.fragmentIndex in recoveries {
        return Some(ShardRejected);
      }
      recoveries := recoveries[h.fragmentIndex := rsFragmentBuffer[..]];
      rsPktSizes := h.pktSizes;
      rsRecoveryPackets := rsRecoveryPackets + 1;
      rsTotalPackets := rsTotalPackets + 1;
      halt := None;
    }

    method PutAside(fragment: u32, expected: u32, packet: Packet)
      requires Shaped() && fragment < env.k
      modifies this`lvheaderPrevFragmentIndex, this`rsOorderPackets, this`lostPackets, rsSendq
      ensures Shaped()
      ensures Did(SetAside(old(State()), fragment, expected, packet), None, None, old(lostPackets))
    {
      lostPackets := Wrapped32(lostPackets + Minus32(fragment, expected));
      lvheaderPrevFragmentIndex := fragment;
      rsSendq[fragment] := packet;
      rsOorderPackets := rsOorderPackets + 1;
    }

    method HandToDecoder(fragment: u32, packet: Packet, time: u128) returns (halt: Option<Reason>, ack: Option<Ack>)
      requires Shaped() && fragment < env.k
      modifies this`lvheaderPrevFragmentIndex, this`rsInorderPackets, videoDec
      ensures Shaped()
      ensures Did(HandOn(env, old(State()), fragment, packet, time), halt, ack, lostPackets)
    {
      rsInorderPackets := rsInorderPackets + 1;
      lvheaderPrevFragmentIndex := fragment;
      var ok := videoDec.DepacketizeDecode(packet);
      halt := if ok then None else Some(NotDepacketized);
      ack := if ok then Some(Ack(packet.sequenceNumber, time)) else None;
    }

    /** The object is where a pass of the specification leads, and counted what it says was lost. */
    ghost predicate Did(p: Pass, halt: Option<Reason>, ack: Option<Ack>, lostBefore: u32)
      reads this, rsSendq, videoDec
    {
      match p
      case Halted(reason, v) => halt == Some(reason) && videoDec.State() == v
      case Passed(rx, tally, a) =>
        && halt == None && State() == rx && ack == a
        && tally == Tally(1, 0, 0, tally.lost, 0) && lostPackets == Wrapped32(lostBefore + tally.lost)
    }

    /** Out of order, or once anything was, a packet waits in the queue; otherwise it goes on to the decoder. */
    method Queue(fragment: u32, expected: u32, packet: Packet, time: u128) returns (halt: Option<Reason>, ack: Option<Ack>)
      requires Shaped() && fragment < env.k
      modifies this`lvheaderPrevFragmentIndex, this`rsInorderPackets, this`rsOorderPackets, this`lostPackets,
               videoDec, rsSendq
      ensures Shaped()
      ensures Did(if old(rsOorderPackets) > 0 || expected != fragment then SetAside(old(State()), fragment, expected, packet)
                  else HandOn(env, old(State()), fragment, packet, time), halt, ack, old(lostPackets))
    {
      hide SetAside, HandOn;
      halt, ack := None, None;
      if rsOorderPackets > 0 || expected != fragment {
        PutAside(fragment, expected, packet);
      } else {
        halt, ack := HandToDecoder(fragment, packet, time);
      }
    }

    method TakeOriginal(h: Header.Info, rtpData: seq<byte>) returns (halt: Option<Reason>, ack: Option<Ack>)
      requires Shaped()
      modifies this`lvheaderPrevFragmentIndex, this`originals, this`rsTotalPackets, this`rsInorderPackets,
               this`rsOorderPackets, this`lostPackets, videoDec, rsSendq
      ensures Shaped()
      ensures Did(AcceptOriginal(env, old(State()), h, rsFragmentBuffer[..], rtpData), halt, ack, old(lostPackets))
    {
      hide Hand, SetAside, HandOn, Expected;
      ghost var rx := State();
      halt, ack := Some(ShardRejected), None;
      var fragment := h.fragmentIndex;
      if fragment < env.k && fragment !in originals {
        originals := originals[fragment := rsFragmentBuffer[..]];
        rsTotalPackets := rsTotalPackets + 1;
        match env.unmarshal(rtpData) {
          case None =>
            halt := Some(NotAPacket);
          case Some(packet) =>
            ExpectedIsNext(env.k, lvheaderPrevFragmentIndex);
            var expected := (lvheaderPrevFragmentIndex + 1) % env.k;
            assert State() == rx.(originals := rx.originals[fragment := rsFragmentBuffer[..]], total := rx.total + 1);
            halt, ack := Queue(fragment, expected, packet, h.sendTimestamp);
        }
      }
    }

    /** After a packet was handed on, if the lock is free: write the counters, and start afresh if they had been sent. */
    method Publish(ack: Ack)
      modifies this`totalBlocks, this`outOfOrderBlocks, this`totalPackets, this`lostPackets, this`eccDecoderFailures,
               feedbackPkt
      ensures Link() == Published(old(Link()), ack)
    {
      var reset := feedbackPkt.feedback.totalPackets == 0;
      feedbackPkt.feedback := FeedbackPacket(
        feedbackPkt.feedback.timeQuantum, totalBlocks, outOfOrderBlocks, totalPackets, Wrapped16(lostPackets),
        eccDecoderFailures);
      if reset {
        totalBlocks, outOfOrderBlocks, totalPackets, lostPackets, eccDecoderFailures := 0, 0, 0, 0, 0;
      }
      feedbackPkt.ack := ack;
    }
  
    /** Only a packet handed on is acknowledged, and only if the lock is free. */
    method TryPublish(ack: Option<Ack>, locked: bool)
      modifies this`totalBlocks, this`outOfOrderBlocks, this`totalPackets, this`lostPackets, this`eccDecoderFailures,
               feedbackPkt
      ensures State() == old(State())
      ensures Link() == if ack.Some? && locked then Published(old(Link()), ack.value) else old(Link())
    {
      if ack.Some? && locked {
        Publish(ack.value);
      }
    }

    /** The shard the datagram carries goes to the erasure decoder, and a packet into the queue or on to the decoder. */
    method Take(h: Header.Info, rtpData: seq<byte>) returns (halt: Option<Reason>, ack: Option<Ack>)
      requires Shaped() && |h.pktSizes| == env.k && |rtpData| <= env.code.size
      modifies this`lvheaderPrevFragmentIndex, this`originals, this`recoveries, this`rsPktSizes, this`rsTotalPackets,
               this`rsRecoveryPackets, this`rsInorderPackets, this`rsOorderPackets, this`lostPackets,
               videoDec, rsFragmentBuffer, rsSendq
      ensures Shaped()
      ensures Did(Accept(env, old(State()), h, rtpData), halt, ack, old(lostPackets))
    {
      hide AcceptRecovery, AcceptOriginal, Wrapped32, Padded;
      FillBuffer(rtpData);
      ack := None;
      if h.recoveryPkt {
        halt := TakeRecovery(h);
      } else {
        halt, ack := TakeOriginal(h, rtpData);
      }
    }

    /** The same, unless the payload does not fit the buffer. */
    method TakeIfFits(h: Header.Info, rtpData: seq<byte>) returns (halt: Option<Reason>, ack: Option<Ack>)
      requires Shaped() && |h.pktSizes| == env.k
      modifies this`lvheaderPrevFragmentIndex, this`originals, this`recoveries, this`rsPktSizes, this`rsTotalPackets,
               this`rsRecoveryPackets, this`rsInorderPackets, this`rsOorderPackets, this`lostPackets,
               videoDec, rsFragmentBuffer, rsSendq
      ensures Shaped()
      ensures Did(if |rtpData| > env.code.size then Halted(Malformed, old(videoDec.State()))
                  else Accept(env, old(State()), h, rtpData), halt, ack, old(lostPackets))
    {
      hide Accept;
      if |rtpData| > rsFragmentBuffer.Length {
        halt, ack := Some(Malformed), None;
      } else {
        halt, ack := Take(h, rtpData);
      }
    }

    /** One of each, and what leaving the old block added. */
    ghost predicate Counts(before: Feedback.Counters, blocks: nat, outOfOrder: nat, failures: nat)
      reads this
    {
      && totalPackets == Wrapped16(before.packets + 1)
      && totalBlocks == Wrapped16(before.blocks + blocks)
      && outOfOrderBlocks == Wrapped16(before.outOfOrder + outOfOrder)
      && eccDecoderFailures == Wrapped16(before.failures + failures)
    }

    /** The datagram is counted, and the old block left if it is of another. */
    method CountAndEnter(newBlockId: u32) returns (halt: Option<Reason>)
      requires Shaped() && rsInorderPackets <= env.k
      modifies this, videoDec, rsSendq
      ensures Shaped() && lostPackets == old(lostPackets)
      ensures match Enter(env, old(State()), newBlockId)
        case Stuck(reason, v) => halt == Some(reason) && videoDec.State() == v
        case Left(entered, outOfOrder, failures) =>
          && halt == None && State() == entered
          && Counts(old(Counters()), if newBlockId == old(blockId) then 0 else 1, outOfOrder, failures)
    {
      hide Enter, Wrapped16;
      totalPackets := Wrapped16(totalPackets + 1);
      halt := EnterBlock(newBlockId);
    }

    /** Then the datagram is taken. */
    method EnterAndTake(h: Header.Info, rtpData: seq<byte>) returns (halt: Option<Reason>, ack: Option<Ack>)
      requires Shaped() && rsInorderPackets <= env.k && |h.pktSizes| == env.k
      modifies this, videoDec, rsFragmentBuffer, rsSendq
      ensures Shaped()
      ensures match Enter(env, old(State()), h.blockId)
        case Stuck(reason, v) => halt == Some(reason) && videoDec.State() == v
        case Left(entered, outOfOrder, failures) =>
          && Did(if |rtpData| > env.code.size then Halted(Malformed, entered.player) else Accept(env, entered, h, rtpData),
                 halt, ack, old(lostPackets))
          && Counts(old(Counters()), if h.blockId == old(blockId) then 0 else 1, outOfOrder, failures)
    {
      hide Enter, Accept, Wrapped16, Wrapped32;
      ack := None;
      halt := CountAndEnter(h.blockId);
      if halt == None {
        halt, ack := TakeIfFits(h, rtpData);
      }
    }

    /** The object is where a pass of the specification leads, with the counters moved on. */
    ghost predicate Handled(p: Receiver.Pass, halt: Option<Reason>, ack: Option<Ack>, before: Feedback.Counters)
      reads this, rsSendq, videoDec
    {
      match p
      case Halted(reason, v) => halt == Some(reason) && videoDec.State() == v
      case Passed(rx, tally, a) =>
        halt == None && State() == rx && ack == a && Counters() == Feedback.Counted(before, tally)
    }

    method Handle(h: Header.Info, rtpData: seq<byte>) returns (halt: Option<Reason>, ack: Option<Ack>)
      requires Shaped() && rsInorderPackets <= env.k && |h.pktSizes| == env.k
      modifies this, videoDec, rsFragmentBuffer, rsSendq
      ensures Shaped()
      ensures Handled(StepOn(env, old(State()), h, rtpData), halt, ack, old(Counters()))
    {
      hide Enter, Accept, StepOn, Wrapped16, Wrapped32;
      StepSplits(env, State(), h, rtpData);
      halt, ack := EnterAndTake(h, rtpData);
    }

    /** The object is where a pass of the specification leads, and the shared packet as one turn leaves it. */
    ghost predicate Followed(p: Receiver.Pass, halt: Option<Reason>, before: Feedback.Link, locked: bool)
      reads this, rsSendq, videoDec, feedbackPkt
    {
      match p
      case Halted(reason, v) => halt == Some(reason) && videoDec.State() == v
      case Passed(rx, tally, ack) =>
        halt == None && State() == rx && Link() == Next(before, Datagram(tally, ack, locked))
    }

    /** One pass of the loop; locked says whether trying the feedback packet's lock would succeed. */
    method Pass(data: seq<byte>, locked: bool) returns (halt: Option<Reason>)
      requires Shaped() && rsInorderPackets <= env.k
      modifies this, feedbackPkt, videoDec, rsFragmentBuffer, rsSendq
      ensures Shaped()
      ensures Followed(Step(env, old(State()), data), halt, old(Link()), locked)
      ensures halt != None ==> feedbackPkt.State() == old(feedbackPkt.State())
    {
      hide StepOn, Feedback.Counted, Published;
      ghost var shared := feedbackPkt.State();
      if |data| < Header.NoBytes(env.k) {
        halt := Some(Malformed);
      } else {
        var lvheader := Header.FromBytes(data, env.k);
        var ack;
        halt, ack := Handle(lvheader, data[Header.NoBytes(env.k)..]);
        if halt == None {
          assert Link() == Feedback.Link(Counters(), shared);
          TryPublish(ack, locked);
        }
      }
    }

    /** In every state the loop reaches its counters mean what the specification says. */
    method ValidPass(data: seq<byte>, locked: bool) returns (halt: Option<Reason>)
      requires Valid()
      modifies this, feedbackPkt, videoDec, rsFragmentBuffer, rsSendq
      ensures halt == None ==> Valid()
      ensures Followed(Step(env, old(State()), data), halt, old(Link()), locked)
      ensures halt != None ==> feedbackPkt.State() == old(feedbackPkt.State())
    {
      hide WellFormed, Step, Next;
      StepWellFormed(env, State(), data);
      InorderAtMost(env, State());
      halt := Pass(data, locked);
    }
  }

  lemma {:induction false} InorderAtMost(env: Env, rx: Rx)
    requires env.Built() && WellFormed(env, rx)
    ensures rx.inorder <= env.k
  {
  }

  /**
   The loop's object, its feedback packet and what was sent are where the specification's run and protocol are: while the
   loop goes on in all its state, once a pass has failed in the error, the decoder, the shared packet and the messages.
   */
  ghost predicate InStep(loop: DecodeLoop, turns: seq<Turn>, halt: Option<Reason>, sent: seq<Message>)
    reads loop, loop.rsSendq, loop.videoDec, loop.feedbackPkt
    requires loop.env.Built()
  {
    var events := Events(loop.env, turns);
    && sent == Sent(events) && loop.feedbackPkt.State() == After(events).shared
    && match Run(loop.env, Heard(turns))
       case Ended(reason, v) => halt == Some(reason) && loop.videoDec.State() == v
       case Ran(rx, tallies) =>
         && halt == None && loop.Valid() && loop.State() == rx && Passes(events) == tallies
         && loop.Counters() == After(events).counters
  }

  /**
   The loop and the reporting thread, turn by turn. When a pass fails the loop ends, and the reporting thread goes on
   alone. At the end everything is where run and protocol are.
   */
  method Decode(env: Env, feedbackPkt: SharedFeedback, turns: seq<Turn>)
    returns (loop: DecodeLoop, halt: Option<Reason>, sent: seq<Message>)
    requires env.Built() && feedbackPkt.State() == DEFAULT
    modifies feedbackPkt
    ensures loop.env == env && loop.feedbackPkt == feedbackPkt
    ensures InStep(loop, turns, halt, sent)
  {
    hide Env.Built, DecodeLoop.Valid, Run, Heard, Events, Passes, Sent, After, Next, Step, Messages;
    NothingYet(env);
    loop := new DecodeLoop(env, feedbackPkt);
    halt, sent := None, [];
    for i := 0 to |turns|
      invariant fresh(loop) && fresh(loop.videoDec) && fresh(loop.rsFragmentBuffer) && fresh(loop.rsSendq)
      invariant loop.env == env && loop.feedbackPkt == feedbackPkt
      invariant InStep(loop, turns[..i], halt, sent)
    {
      assert turns[..i + 1] == turns[..i] + [turns[i]];
      match turns[i] {
        case ReportDue =>
          ReportFollows(env, turns[..i]);
          var messages := feedbackPkt.Report();
          sent := sent + messages;
        case Arrival(data, locked) =>
          if halt == None {
            PassFollows(env, turns[..i], data, locked);
            halt := loop.ValidPass(data, locked);
          }
          if halt != None {
            NothingFollows(env, turns[..i], data, locked);
          }
      }
    }
    assert turns[..|turns|] == turns;
  }
}
