/** One pass of the receive loop (`decode_loop`, client/src/decoder/video.rs) on values. */
module Receiver {
  import opened Bytes
  import opened Erasure
  import opened Stream
  import opened Video
  import Header

  /** The loop's variables, less the feedback counters. originals and recoveries are the shards the decoder holds. */
  datatype Rx = Rx(
    prev: u32,
    blockId: u32,
    inorder: nat,
    oorder: nat,
    recovery: nat,
    total: nat,
    originals: map<nat, Shard>,
    recoveries: map<nat, Shard>,
    sendq: seq<Packet>,
    sizes: seq<u16>,
    player: Player)

  /** What one pass adds to the feedback counters. */
  datatype Tally = Tally(packets: nat, blocks: nat, outOfOrder: nat, lost: u32, failures: nat)

  /** Errors and panics that end the loop. */
  datatype Reason = Malformed | ShardRejected | NotAPacket | NotDepacketized

  /** The sequence number and timestamp to acknowledge, when the pass gets as far as the feedback packet. */
  datatype Ack = Ack(rtpSeqno: u16, sendTs: u128)

  datatype Pass =
    | Passed(rx: Rx, tally: Tally, ack: Option<Ack>)
    | Halted(reason: Reason, player: Player)

  datatype Left =
    | Left(rx: Rx, outOfOrder: nat, failures: nat)
    | Stuck(reason: Reason, player: Player)

  ghost function Initial(env: Env): (rx: Rx)
    requires env.Built()
    ensures Sized(env, rx)
  {
    Rx(env.k - 1, 0, 0, 0, 0, 0, map[], map[], seq(env.k, _ => NO_PACKET), seq(env.k, _ => 0), NEW_PLAYER)
  }

  /** The sizes that the code relies on when it indexes; part of WellFormed. */
  predicate Sized(env: Env, rx: Rx) {
    rx.prev < env.k && |rx.sendq| == env.k && |rx.sizes| == env.k
  }

  ghost predicate Below(m: map<nat, Shard>, n: nat) {
    forall i :: i in m ==> i < n
  }

  /** Holds in every state the loop reaches, whatever it is sent. */
  ghost predicate WellFormed(env: Env, rx: Rx) {
    match rx
    case Rx(_, _, inorder, oorder, recovery, total, originals, recoveries, _, _, _) =>
      && Sized(env, rx)
      && Below(originals, env.k) && Below(recoveries, env.r)
      && inorder + oorder == |originals| <= env.k
      && recovery == |recoveries| <= env.r
      && total == |originals| + |recoveries|
  }

  /** The queue after the restored shards with index below n are cut to size and unmarshalled into their slots. */
  function Restore(env: Env, sendq: seq<Packet>, sizes: seq<u16>, restored: map<nat, Shard>, n: nat)
    : (q: Option<seq<Packet>>)
    requires n <= |sendq| == |sizes|
    ensures q.Some? ==> |q.value| == |sendq|
  {
    if n == 0 then Some(sendq)
    else
      match Restore(env, sendq, sizes, restored, n - 1)
      case None => None
      case Some(q) =>
        if n - 1 !in restored then Some(q)
        else if |restored[n - 1]| < sizes[n - 1] then None
        else
          match env.unmarshal(restored[n - 1][..sizes[n - 1]])
          case None => None
          case Some(p) => Some(q[n - 1 := p])
  }

  function From(q: seq<Packet>, n: nat): (ps: seq<Packet>) {
    if n <= |q| then q[n..] else []
  }

  /** The restored packets join the queue, and everything in it after the in-order packets is handed on. */
  ghost function HandRestored(env: Env, rx: Rx, restored: map<nat, Shard>): (left: Left)
    requires env.Built() && Sized(env, rx)
    ensures left.Left? ==> Sized(env, left.rx)
  {
    match Restore(env, rx.sendq, rx.sizes, restored, env.k)
    case None => Stuck(NotAPacket, rx.player)
    case Some(q) =>
      match HandAll(env, rx.player, From(q, rx.inorder))
      case Broken(v) => Stuck(NotDepacketized, v)
      case Played(v) => Left(rx.(prev := env.k - 1, sendq := q, player := v), 1, 0)
  }

  /** Leaving a block: if an original is missing, try to restore it and hand on everything after the gap. */
  ghost function Recover(env: Env, rx: Rx): (left: Left)
    requires env.Built() && Sized(env, rx)
    ensures left.Left? ==> Sized(env, left.rx)
  {
    if rx.total < env.r + env.k && rx.total - rx.recovery != env.k then
      match env.code.decode(rx.originals, rx.recoveries)
      case None => Left(rx.(prev := env.k - 1), 1, 1)
      case Some(restored) => HandRestored(env, rx, restored)
    else Left(rx, 0, 0)
  }

  function Fresh(rx: Rx, blockId: u32): (next: Rx) {
    rx.(blockId := blockId, inorder := 0, oorder := 0, recovery := 0, total := 0, originals := map[], recoveries := map[])
  }

  /** u32 subtraction as a release build does it. */
  function Minus32(a: u32, b: u32): (v: u32) {
    if a >= b then a - b else a - b + 0x1_0000_0000
  }

  function AcceptRecovery(env: Env, rx: Rx, h: Header.Info, shard: Shard): (p: Pass)
    requires Sized(env, rx) && |h.pktSizes| == env.k
    ensures p.Passed? ==> Sized(env, p.rx)
  {
    var j := h.fragmentIndex;
    if j >= env.r || j in rx.recoveries then Halted(ShardRejected, rx.player)
    else
      Passed(
        rx.(recoveries := rx.recoveries[j := shard], sizes := h.pktSizes, recovery := rx.recovery + 1,
            total := rx.total + 1),
        Tally(1, 0, 0, 0, 0), None)
  }

  /** A packet that is not next in order, or comes after one that was not, is put aside. */
  function SetAside(rx: Rx, f: u32, expected: u32, packet: Packet): (next: Pass)
    requires f < |rx.sendq|
  {
    Passed(
      rx.(sendq := rx.sendq[f := packet], oorder := rx.oorder + 1, prev := f),
      Tally(1, 0, 0, Minus32(f, expected), 0), None)
  }

  function HandOn(env: Env, rx: Rx, f: u32, packet: Packet, time: u128): (next: Pass) {
    match Hand(env, rx.player, packet)
    case Broken(v) => Halted(NotDepacketized, v)
    case Played(v) =>
      Passed(rx.(inorder := rx.inorder + 1, prev := f, player := v), Tally(1, 0, 0, 0, 0),
             Some(Ack(packet.sequenceNumber, time)))
  }

  function AcceptOriginal(env: Env, rx: Rx, h: Header.Info, shard: Shard, body: seq<byte>): (p: Pass)
    requires Sized(env, rx) && env.k < 0x1_0000_0000
    ensures p.Passed? ==> Sized(env, p.rx)
  {
    var f := h.fragmentIndex;
    if f >= env.k || f in rx.originals then Halted(ShardRejected, rx.player)
    else
      match env.unmarshal(body)
      case None => Halted(NotAPacket, rx.player)
      case Some(packet) =>
        var added := rx.(originals := rx.originals[f := shard], total := rx.total + 1);
        if rx.oorder > 0 || Expected(env.k, rx.prev) != f then SetAside(added, f, Expected(env.k, rx.prev), packet)
        else HandOn(env, added, f, packet, h.sendTimestamp)
  }

  /** The part of the pass that handles a datagram of the current block. */
  ghost function Accept(env: Env, rx: Rx, h: Header.Info, body: seq<byte>): (p: Pass)
    requires env.Built() && Sized(env, rx) && |h.pktSizes| == env.k && |body| <= env.code.size
    ensures p.Passed? ==> Sized(env, p.rx)
  {
    var shard := Padded(body, env.code.size);
    if h.recoveryPkt then AcceptRecovery(env, rx, h, shard) else AcceptOriginal(env, rx, h, shard, body)
  }

  /** The part of the pass before it: a new block id means the old block is left. */
  ghost function Enter(env: Env, rx: Rx, blockId: u32): (left: Left)
    requires env.Built() && Sized(env, rx)
    ensures left.Left? ==> Sized(env, left.rx)
  {
    if blockId == rx.blockId then Left(rx, 0, 0)
    else
      match Recover(env, rx)
      case Stuck(reason, v) => Stuck(reason, v)
      case Left(left, outOfOrder, failures) => Left(Fresh(left, blockId), outOfOrder, failures)
  }

  function Counted(p: Pass, blocks: nat, outOfOrder: nat, failures: nat): (next: Pass) {
    if p.Halted? then p else p.(tally := p.tally.(blocks := blocks, outOfOrder := outOfOrder, failures := failures))
  }

  ghost function Step(env: Env, rx: Rx, data: seq<byte>): (p: Pass)
    requires env.Built() && Sized(env, rx)
    ensures p.Passed? ==> Sized(env, p.rx)
  {
    if |data| < Header.NoBytes(env.k) then Halted(Malformed, rx.player)
    else StepOn(env, rx, Header.Decoded(data, env.k), data[Header.NoBytes(env.k)..])
  }

  /** The pass once the datagram is split into header and body. */
  ghost function StepOn(env: Env, rx: Rx, h: Header.Info, body: seq<byte>): (p: Pass)
    requires env.Built() && Sized(env, rx) && |h.pktSizes| == env.k
    ensures p.Passed? ==> Sized(env, p.rx)
  {
    match Enter(env, rx, h.blockId)
    case Stuck(reason, v) => Halted(reason, v)
    case Left(entered, outOfOrder, failures) =>
      if |body| > env.code.size then Halted(Malformed, entered.player)
      else Counted(Accept(env, entered, h, body), if h.blockId == rx.blockId then 0 else 1, outOfOrder, failures)
  }

  lemma {:induction false} Minus32Adds(a: u32, b: u32)
    ensures (Minus32(a, b) + b) % 0x1_0000_0000 == a
  {
  }

  /**
   For every state and every packet: put aside, it adds its distance from the fragment expected, as a u32 difference;
   handed on, it adds nothing.
   */
  lemma {:induction false} LostIsDistance(env: Env, rx: Rx, h: Header.Info, shard: Shard, body: seq<byte>)
    requires Sized(env, rx) && env.k < 0x1_0000_0000
    ensures var p, e := AcceptOriginal(env, rx, h, shard, body), (rx.prev + 1) % env.k;
      p.Passed? ==>
        if rx.oorder > 0 || e != h.fragmentIndex then (p.tally.lost + e) % 0x1_0000_0000 == h.fragmentIndex
        else p.tally.lost == 0
  {
    ExpectedIsNext(env.k, rx.prev);
    hide Expected, Minus32, Hand;
    Minus32Adds(h.fragmentIndex, Expected(env.k, rx.prev));
  }

  lemma {:induction false} EnterWellFormed(env: Env, rx: Rx, blockId: u32)
    requires env.Built() && WellFormed(env, rx)
    ensures Enter(env, rx, blockId).Left? ==> WellFormed(env, Enter(env, rx, blockId).rx)
    ensures Enter(env, rx, blockId).Left? ==> Enter(env, rx, blockId).rx.blockId == blockId
    ensures Enter(env, rx, blockId).Left? ==>
      Enter(env, rx, blockId).failures <= Enter(env, rx, blockId).outOfOrder <= (if blockId == rx.blockId then 0 else 1)
  {
  }

  /** The packet a datagram carries, if it is long enough and what follows its header is one. */
  function PacketIn(env: Env, data: seq<byte>): (p: Option<Packet>) {
    if |data| < Header.NoBytes(env.k) then None else env.unmarshal(data[Header.NoBytes(env.k)..])
  }

  /** What the sender's datagrams say: which shard of which block this is, when it was sent, and the packet itself. */
  lemma {:induction false} DatagramSays(env: Env, blk: seq<Packet>, m: u32, o: nat, time: u128) returns (d: seq<byte>)
    requires env.Built() && Shapes(env.code) && AllFit(env, blk) && Place(env, blk, o)
    ensures d == Datagram(env, blk, m, o, time) && |d| >= Header.NoBytes(env.k)
    ensures var h := Header.Decoded(d, env.k);
      && h.blockId == m && h.minFragmentSize == env.k && h.sendTimestamp == time
      && h.recoveryPkt == (env.k <= o) && h.fragmentIndex == (if o < env.k then o else o - env.k)
      && (env.k <= o ==> h.pktSizes == Sizes(env, blk))
    ensures o < env.k && env.Sendable(blk[o]) ==> PacketIn(env, d) == Some(blk[o])
  {
    d := Datagram(env, blk, m, o, time);
    Header.DecodedOfEncoded(InfoAt(env, blk, m, o, time), PayloadAt(env, blk, o));
  }

  /** The pass over a datagram hands its packet on at once: after whatever leaving a block hands on, and nothing else. */
  ghost predicate HandsOn(env: Env, rx: Rx, data: seq<byte>)
    requires env.Built() && Sized(env, rx)
  {
    match (PacketIn(env, data), Step(env, rx, data))
    case (Some(packet), Passed(next, _, _)) =>
      var entered := Enter(env, rx, Header.Decoded(data, env.k).blockId);
      entered.Left? && next.player.handed == entered.rx.player.handed + [packet]
    case _ => false
  }

  lemma {:induction false} AcceptAcks(env: Env, rx: Rx, h: Header.Info, body: seq<byte>)
    requires env.Built() && Sized(env, rx) && |h.pktSizes| == env.k && |body| <= env.code.size
    ensures match Accept(env, rx, h, body)
      case Halted(_, _) => true
      case Passed(next, _, None) => next.player == rx.player
      case Passed(next, _, Some(ack)) =>
        && env.unmarshal(body).Some? && next.player.handed == rx.player.handed + [env.unmarshal(body).value]
        && ack == Ack(env.unmarshal(body).value.sequenceNumber, h.sendTimestamp)
  {
  }

  /** A pass has something to acknowledge exactly when it hands its packet on at once: that packet's number and time. */
  lemma {:induction false} AcksExactlyWhen(env: Env, rx: Rx, data: seq<byte>)
    requires env.Built() && Sized(env, rx)
    ensures match Step(env, rx, data)
      case Halted(_, _) => !HandsOn(env, rx, data)
      case Passed(_, _, None) => !HandsOn(env, rx, data)
      case Passed(_, _, Some(ack)) =>
        && HandsOn(env, rx, data)
        && ack == Ack(PacketIn(env, data).value.sequenceNumber, Header.Decoded(data, env.k).sendTimestamp)
  {
    hide Enter, Accept;
    if Step(env, rx, data).Passed? {
      var h, body := Header.Decoded(data, env.k), data[Header.NoBytes(env.k)..];
      var entered := Enter(env, rx, h.blockId).rx;
      AcceptAcks(env, entered, h, body);
    }
  }

  lemma {:induction false} InitialWellFormed(env: Env)
    requires env.Built()
    ensures WellFormed(env, Initial(env))
  {
  }

  lemma {:induction false} AddedKey(m: map<nat, Shard>, i: nat, shard: Shard, n: nat)
    requires Below(m, n) && i < n && i !in m
    ensures |m[i := shard]| == |m| + 1 <= n
    ensures Below(m[i := shard], n)
  {
    assert m[i := shard].Keys == m.Keys + {i};
    SubsetSize(m.Keys + {i}, Indices(n));
  }

  lemma {:induction false} AcceptRecoveryWellFormed(env: Env, rx: Rx, h: Header.Info, shard: Shard)
    requires env.Built() && WellFormed(env, rx) && |h.pktSizes| == env.k
    ensures var p := AcceptRecovery(env, rx, h, shard);
      p.Passed? ==> WellFormed(env, p.rx) && p.rx.blockId == rx.blockId && p.tally.packets == 1
  {
    if h.fragmentIndex < env.r && h.fragmentIndex !in rx.recoveries {
      AddedKey(rx.recoveries, h.fragmentIndex, shard, env.r);
    }
  }

  lemma {:induction false} AcceptOriginalWellFormed(env: Env, rx: Rx, h: Header.Info, shard: Shard, body: seq<byte>)
    requires env.Built() && WellFormed(env, rx)
    ensures var p := AcceptOriginal(env, rx, h, shard, body);
      p.Passed? ==> WellFormed(env, p.rx) && p.rx.blockId == rx.blockId && p.tally.packets == 1
  {
    if h.fragmentIndex < env.k && h.fragmentIndex !in rx.originals {
      AddedKey(rx.originals, h.fragmentIndex, shard, env.k);
    }
  }

  lemma {:induction false} AcceptWellFormed(env: Env, rx: Rx, h: Header.Info, body: seq<byte>)
    requires env.Built() && WellFormed(env, rx)
    requires |h.pktSizes| == env.k && |body| <= env.code.size
    ensures var p := Accept(env, rx, h, body);
      p.Passed? ==> WellFormed(env, p.rx) && p.rx.blockId == rx.blockId && p.tally.packets == 1
  {
    var shard := Padded(body, env.code.size);
    AcceptRecoveryWellFormed(env, rx, h, shard);
    AcceptOriginalWellFormed(env, rx, h, shard, body);
  }

  /**
   The meaning of the counters, in every reachable state and for any bytes received: total less recovery is
   the number of distinct originals of the block, and equals in-order plus out-of-order.
   A pass counts one datagram, and a failure only with an out-of-order block, that only with a new block.
   */
  lemma {:induction false} StepWellFormed(env: Env, rx: Rx, data: seq<byte>)
    requires env.Built() && WellFormed(env, rx)
    ensures var p := Step(env, rx, data);
      p.Passed? ==> WellFormed(env, p.rx) && p.tally.failures <= p.tally.outOfOrder <= p.tally.blocks <= p.tally.packets == 1
  {
    if Step(env, rx, data).Passed? {
      var h := Header.Decoded(data, env.k);
      EnterWellFormed(env, rx, h.blockId);
      AcceptWellFormed(env, Enter(env, rx, h.blockId).rx, h, data[Header.NoBytes(env.k)..]);
    }
  }

  /** A whole run: the state after it and the passes' tallies, or the reason it ended early. */
  datatype Outcome =
    | Ran(rx: Rx, tallies: seq<Tally>)
    | Ended(reason: Reason, player: Player)

  ghost function Run(env: Env, received: seq<seq<byte>>): (o: Outcome)
    requires env.Built()
    ensures o.Ran? ==> Sized(env, o.rx) && |o.tallies| == |received|
  {
    if received == [] then Ran(Initial(env), [])
    else
      var before := Run(env, received[..|received| - 1]);
      if before.Ended? then before else Advance(env, before, received[|received| - 1])
  }

  /** A run continued by one pass. */
  ghost function Advance(env: Env, before: Outcome, data: seq<byte>): (o: Outcome)
    requires env.Built() && before.Ran? && Sized(env, before.rx)
    ensures o.Ran? ==> Sized(env, o.rx) && |o.tallies| == |before.tallies| + 1
  {
    match Step(env, before.rx, data)
    case Halted(reason, v) => Ended(reason, v)
    case Passed(next, t, _) => Ran(next, before.tallies + [t])
  }

  /** In every state a run reaches, for any bytes received, the counters mean what WellFormed says. */
  lemma {:induction false} RunWellFormed(env: Env, received: seq<seq<byte>>)
    requires env.Built()
    ensures Run(env, received).Ran? ==> WellFormed(env, Run(env, received).rx)
  {
    if received == [] {
      InitialWellFormed(env);
    } else {
      var front := received[..|received| - 1];
      RunWellFormed(env, front);
      if Run(env, front).Ran? {
        StepWellFormed(env, Run(env, front).rx, received[|received| - 1]);
      }
    }
  }

  lemma {:induction false} RunOneMore(env: Env, received: seq<seq<byte>>, data: seq<byte>)
    requires env.Built()
    ensures Run(env, received).Ran? ==> Run(env, received + [data]) == Advance(env, Run(env, received), data)
    ensures Run(env, received).Ended? ==> Run(env, received + [data]) == Run(env, received)
  {
    assert (received + [data])[..|received|] == received;
  }

  // ---- What ends the loop --------------------------------------------------------------------------

  ghost predicate HaltsWith(p: Pass, reason: Reason) {
    p.Halted? && p.reason == reason
  }

  /** The datagram names a shard the receiver cannot take: out of range, or held already. */
  ghost predicate Unacceptable(env: Env, rx: Rx, recovery: bool, j: nat) {
    if recovery then env.r <= j || j in rx.recoveries else env.k <= j || j in rx.originals
  }

  lemma {:induction false} FieldsOf(data: seq<byte>, k: nat)
    requires |data| >= Header.NoBytes(k)
    ensures Header.Decoded(data, k).blockId == FromBigEndian(data[0..4])
    ensures Header.Decoded(data, k).recoveryPkt == (data[8] != 0)
    ensures Header.Decoded(data, k).fragmentIndex == FromBigEndian(data[9..13])
  {
    Header.Word32IsBigEndian(data[0..4]);
    Header.Word32IsBigEndian(data[9..13]);
  }

  lemma {:induction false} AcceptEnds(env: Env, rx: Rx, h: Header.Info, body: seq<byte>)
    requires env.Built() && Sized(env, rx) && |h.pktSizes| == env.k && |body| <= env.code.size
    ensures var p, packet := Accept(env, rx, h, body), env.unmarshal(body);
      var taken := !Unacceptable(env, rx, h.recoveryPkt, h.fragmentIndex);
      && !HaltsWith(p, Malformed)
      && (HaltsWith(p, ShardRejected) <==> !taken)
      && (HaltsWith(p, NotAPacket) <==> taken && !h.recoveryPkt && packet == None)
      && (HaltsWith(p, NotDepacketized) <==>
        && taken && !h.recoveryPkt && packet.Some? && rx.oorder == 0 && h.fragmentIndex == (rx.prev + 1) % env.k
        && env.depacketize(rx.player.fragment, packet.value.payload) == None)
  {
    ExpectedIsNext(env.k, rx.prev);
    hide Minus32, Padded, Expected;
  }

  /** The datagram is not as long as a header, or longer than header and buffer. */
  predicate IllSized(env: Env, data: seq<byte>) {
    !(Header.NoBytes(env.k) <= |data| <= Header.NoBytes(env.k) + env.code.size)
  }

  /**
   For any bytes, in the block the receiver is in: the loop ends if and only if they are too short or too long, name
   a shard it cannot take, or carry a packet that cannot be read or, being the next in turn, be depacketized.
   */
  lemma {:induction false} EndsExactlyWhen(env: Env, rx: Rx, data: seq<byte>)
    requires env.Built() && Sized(env, rx)
    requires |data| >= Header.NoBytes(env.k) ==> FromBigEndian(data[0..4]) == rx.blockId
    ensures HaltsWith(Step(env, rx, data), Malformed) <==> IllSized(env, data)
    ensures !IllSized(env, data) ==>
      var p, recovery, j, packet := Step(env, rx, data), data[8] != 0, FromBigEndian(data[9..13]), PacketIn(env, data);
      var taken := !Unacceptable(env, rx, recovery, j);
      && (HaltsWith(p, ShardRejected) <==> !taken)
      && (HaltsWith(p, NotAPacket) <==> taken && !recovery && packet == None)
      && (HaltsWith(p, NotDepacketized) <==>
        && taken && !recovery && packet.Some? && rx.oorder == 0 && j == (rx.prev + 1) % env.k
        && env.depacketize(rx.player.fragment, packet.value.payload) == None)
  {
    if !IllSized(env, data) {
      AcceptEnds(env, rx, Header.Decoded(data, env.k), data[Header.NoBytes(env.k)..]);
    }
    if |data| >= Header.NoBytes(env.k) {
      FieldsOf(data, env.k);
      hide Header.Decoded, Accept, Unacceptable;
    }
  }

  /**
   For any bytes of the current block that are accepted: the payload padded with zeros is the one shard added, under the
   index the header names. A recovery datagram brings the sizes of its own header, a packet becomes the previous one, and
   waits in its own queue slot unless it was handed on; nothing else is stored.
   */
  lemma {:induction false} StoresExactly(env: Env, rx: Rx, data: seq<byte>)
    requires env.Built() && Sized(env, rx) && !IllSized(env, data)
    requires FromBigEndian(data[0..4]) == rx.blockId
    ensures match Step(env, rx, data)
      case Halted(_, _) => true
      case Passed(next, _, ack) =>
        var j, shard := FromBigEndian(data[9..13]), Padded(data[Header.NoBytes(env.k)..], env.code.size);
        if data[8] != 0 then
          && next.recoveries == rx.recoveries[j := shard] && next.originals == rx.originals
          && next.sizes == Header.SizesIn(data, env.k) && next.sendq == rx.sendq && next.prev == rx.prev
        else
          && next.originals == rx.originals[j := shard] && next.recoveries == rx.recoveries
          && next.sizes == rx.sizes && next.prev == j && PacketIn(env, data).Some?
          && next.sendq == if ack.Some? then rx.sendq else rx.sendq[j := PacketIn(env, data).value]
  {
    FieldsOf(data, env.k);
    assert Header.Decoded(data, env.k).pktSizes == Header.SizesIn(data, env.k);
    hide Header.Decoded, Header.SizesIn, Minus32, Padded, Expected, Hand;
  }

  /** A datagram of another block, if the old one can be left, does what it would do in the new one, still empty. */
  lemma {:induction false} EntersThenStays(env: Env, rx: Rx, data: seq<byte>)
    requires env.Built() && Sized(env, rx)
    requires |data| >= Header.NoBytes(env.k) && FromBigEndian(data[0..4]) != rx.blockId
    ensures match Recover(env, rx)
      case Stuck(reason, v) => Step(env, rx, data) == Halted(reason, v)
      case Left(left, outOfOrder, failures) =>
        match Step(env, Fresh(left, FromBigEndian(data[0..4])), data)
        case Halted(reason, v) => Step(env, rx, data) == Halted(reason, v)
        case Passed(next, t, ack) =>
          t.blocks == 0 &&
          Step(env, rx, data) == Passed(next, t.(blocks := 1, outOfOrder := outOfOrder, failures := failures), ack)
  {
    FieldsOf(data, env.k);
    hide Header.Decoded, Accept, Recover;
  }

  /** A restored shard is shorter than the packet it should hold, or holds none. */
  ghost predicate Unreadable(env: Env, shard: Shard, size: nat) {
    |shard| < size || env.unmarshal(shard[..size]) == None
  }

  lemma {:induction false} RestoreFailsExactlyWhen(
    env: Env, sendq: seq<Packet>, sizes: seq<u16>, restored: map<nat, Shard>, n: nat)
    requires n <= |sendq| == |sizes|
    ensures Restore(env, sendq, sizes, restored, n) == None <==>
            exists i :: 0 <= i < n && i in restored && Unreadable(env, restored[i], sizes[i])
  {
    if n > 0 {
      RestoreFailsExactlyWhen(env, sendq, sizes, restored, n - 1);
    }
  }

  /** Leaving a block ends the loop only if it is repaired, and then exactly when what was restored cannot be used. */
  lemma {:induction false} LeavingEndsExactlyWhen(env: Env, rx: Rx)
    requires env.Built() && WellFormed(env, rx)
    ensures Recover(env, rx).Stuck? <==>
      |rx.originals| < env.k && env.code.decode(rx.originals, rx.recoveries).Some? &&
      var restored := env.code.decode(rx.originals, rx.recoveries).value;
      match Restore(env, rx.sendq, rx.sizes, restored, env.k)
      case None => true
      case Some(q) => HandAll(env, rx.player, From(q, rx.inorder)).Broken?
    ensures Recover(env, rx).Left? ==>
      (Recover(env, rx).outOfOrder == 1 <==> |rx.originals| < env.k) &&
      (Recover(env, rx).failures == 1 <==>
        |rx.originals| < env.k && env.code.decode(rx.originals, rx.recoveries) == None)
  {
    hide HandAll, Restore, From;
  }
}
