/** The sender: `LVErasureManager`, server/src/packager/packet.rs. */
module Sender {
  import opened Arith
  import opened Bytes
  import opened Erasure
  import opened Stream
  import opened Schedule
  import Header

  class ErasureManager {
    const env: Env
    /** The original shards the encoder holds. */
    var shards: seq<Shard>
    var currentBlockId: nat
    var currentRegularFragmentIndex: nat
    var currentRecoveryFragmentIndex: nat
    var largestSizedPayload: nat
    const pktData: array<byte>
    var pktSizes: seq<u16>

    /** The packets sent so far, and the datagrams put on the wire for them. */
    ghost var pkts: seq<Packet>
    ghost var wire: seq<seq<byte>>

    ghost predicate Sized()
      reads this`pktSizes
    {
      && env.Built() && Shapes(env.code)
      && pktData.Length == Header.NoBytes(env.k) + env.code.size
      && |pktSizes| == env.k
    }

    ghost predicate Valid()
      reads this
    {
      match env
      case Env(_, _, _, _, _, _) =>
        && Sized()
        && currentRecoveryFragmentIndex == env.r - 1
        && InStep(env, pkts, wire, currentBlockId, currentRegularFragmentIndex)
        && Remembers(env, OpenBlock(env.k, pkts, currentBlockId, currentRegularFragmentIndex),
                     shards, largestSizedPayload, pktSizes)
    }

    constructor (env: Env)
      requires env.Built() && Shapes(env.code)
      ensures Valid() && this.env == env && pkts == [] && wire == []
      ensures fresh(pktData)
    {
      this.env := env;
      shards := [];
      currentBlockId, currentRegularFragmentIndex := 0, 0;
      currentRecoveryFragmentIndex := env.r - 1;
      largestSizedPayload := 0;
      pktSizes := seq(env.k, _ => 0);
      pktData := new byte[env.code.size + Header.NoBytes(env.k)](_ => 0);
      pkts, wire := [], [];
    }

    /** Writes a header and a payload over the front of the buffer. The bytes after them keep what they held. */
    method Fill(h: Header.Info, payload: seq<byte>)
      requires Header.NoBytes(|h.pktSizes|) + |payload| <= pktData.Length
      modifies pktData
      ensures pktData[..Header.NoBytes(|h.pktSizes|) + |payload|] == Header.Encoded(h) + payload
    {
      var n := Header.NoBytes(|h.pktSizes|);
      Header.ToBytes(h, pktData);
      var next := Header.PutBytes(pktData, n, payload);
      assert pktData[..n + |payload|] == Header.Encoded(h) + payload;
    }

    /** The loop over the encoder's recovery shards, each cut to the longest payload and sent behind its header. */
    method EmitRecovery(recovery: seq<Shard>, times: seq<u128>) returns (sent: seq<seq<byte>>)
      requires |recovery| == |times| == env.r && 0 < env.r < 0x1_0000_0000 && env.k < 0x1_0000_0000
      requires |pktSizes| == env.k && 0 < currentBlockId <= 0x1_0000_0000
      requires currentRecoveryFragmentIndex == env.r - 1
      requires Header.NoBytes(env.k) + largestSizedPayload <= pktData.Length
      requires forall j :: 0 <= j < |recovery| ==> largestSizedPayload <= |recovery[j]|
      modifies this`currentRecoveryFragmentIndex, pktData
      ensures currentRecoveryFragmentIndex == env.r - 1
      ensures |sent| == env.r
      ensures forall j :: 0 <= j < env.r ==>
        sent[j] == RecoveryBytes(currentBlockId - 1, env.k, j, pktSizes, times[j], recovery[j][..largestSizedPayload])
    {
      hide Header.Encoded;
      sent := [];
      for j := 0 to |recovery|
        invariant currentRecoveryFragmentIndex == (if j == 0 then env.r - 1 else j - 1)
        invariant |sent| == j
        invariant forall i :: 0 <= i < j ==>
          sent[i] == RecoveryBytes(currentBlockId - 1, env.k, i, pktSizes, times[i], recovery[i][..largestSizedPayload])
      {
        ModNext(currentRecoveryFragmentIndex, env.r);
        currentRecoveryFragmentIndex := (currentRecoveryFragmentIndex + 1) % env.r;
        var h := Header.Info(currentBlockId - 1, env.k, true, currentRecoveryFragmentIndex, pktSizes, times[j]);
        Fill(h, recovery[j][..largestSizedPayload]);
        sent := sent + [pktData[..Header.NoBytes(env.k) + largestSizedPayload]];
      }
    }

    /** The recovery datagrams of the open block, which is complete; the encoder starts afresh. */
    method SendRecovery(ghost blk: seq<Packet>, times: seq<u128>) returns (sent: seq<seq<byte>>)
      requires Sized() && currentRecoveryFragmentIndex == env.r - 1
      requires AllFit(env, blk) && |blk| == env.k
      requires Remembers(env, blk, shards, largestSizedPayload, pktSizes)
      requires 0 < currentBlockId <= 0x1_0000_0000
      requires |times| == env.r
      modifies this`shards, this`currentRecoveryFragmentIndex, this`largestSizedPayload, pktData
      ensures currentRecoveryFragmentIndex == env.r - 1
      ensures shards == [] && largestSizedPayload == 0
      ensures RecoverySent(env, blk, currentBlockId - 1, times, sent)
    {
      hide Remembers, Largest, Recovery, Sizes, RecoverySent;
      Recoverable(env, blk, shards, largestSizedPayload, pktSizes);
      var recovery := env.code.encode(shards);
      shards := [];
      sent := EmitRecovery(recovery, times);
      AreRecoveryDatagrams(env, blk, currentBlockId - 1, times, sent);
      largestSizedPayload := 0;
    }

    /** Before the first packet of a block other than block 0: the recovery datagrams of the block before. */
    method SendPending(times: seq<u128>) returns (sent: seq<seq<byte>>)
      requires Valid() && currentBlockId < 0xFFFF_FFFF && |times| == env.r
      modifies this`shards, this`currentRecoveryFragmentIndex, this`largestSizedPayload, pktData
      ensures currentRecoveryFragmentIndex == env.r - 1
      ensures Remembers(env, Block(env.k, pkts, currentBlockId), shards, largestSizedPayload, pktSizes)
      ensures SentPending(env, pkts, currentBlockId, currentRegularFragmentIndex, times, sent)
    {
      StartOf(env, pkts, wire, currentBlockId, currentRegularFragmentIndex);
      sent := [];
      if currentRegularFragmentIndex == 0 && currentBlockId != 0 {
        sent := SendRecovery(Block(env.k, pkts, currentBlockId - 1), times);
        RemembersNothing(env, Block(env.k, pkts, currentBlockId), pktSizes);
      }
    }

    method CountFragment()
      requires currentRegularFragmentIndex < env.k
      modifies this`currentRegularFragmentIndex, this`currentBlockId
      ensures currentBlockId == NextBlock(env.k, old(currentBlockId), old(currentRegularFragmentIndex))
      ensures currentRegularFragmentIndex == NextFragment(env.k, old(currentRegularFragmentIndex))
    {
      ModNext(currentRegularFragmentIndex, env.k);
      currentRegularFragmentIndex := (currentRegularFragmentIndex + 1) % env.k;
      if currentRegularFragmentIndex == 0 {
        currentBlockId := currentBlockId + 1;
      }
    }

    /** The packet itself: header, payload and zeros go into the buffer, and its shard to the encoder. */
    method SendRegular(rtp: Packet, ghost blk: seq<Packet>, blockId: u32, fragment: u32, time: u128)
      returns (datagram: seq<byte>)
      requires Sized() && AllFit(env, blk) && Remembers(env, blk, shards, largestSizedPayload, pktSizes)
      requires |blk| == fragment < env.k && env.Fits(rtp)
      modifies this`shards, this`largestSizedPayload, this`pktSizes, pktData
      ensures |pktSizes| == env.k
      ensures Remembers(env, blk + [rtp], shards, largestSizedPayload, pktSizes)
      ensures SentPacket(env, blk + [rtp], blockId, fragment, time, datagram)
    {
      hide Remembers, Largest, Sizes, Shards, SentPacket;
      var marshalled := env.marshal(rtp);
      var marshalSize := |marshalled|;
      RemembersMore(env, blk, rtp, shards, largestSizedPayload, pktSizes);
      RegularDatagram(env, blk, rtp, blockId, time);
      if marshalSize > largestSizedPayload {
        largestSizedPayload := marshalSize;
      }
      var pk := Header.Info(blockId, env.k, false, fragment, seq(env.k, _ => 0), time);
      pktSizes := pktSizes[fragment := marshalSize];
      Fill(pk, marshalled);
      var n := Header.NoBytes(env.k);
      forall i | n + marshalSize <= i < pktData.Length {
        pktData[i] := 0;
      }
      shards := shards + [pktData[n..]];
      datagram := pktData[..n + marshalSize];
      BufferHolds(pktData[..], Header.Encoded(pk), marshalled, env.code.size);
    }

    /**
     Sends one packet; ahead of the first packet of a block, the recovery datagrams of the block before.
     The clock is read once for each recovery datagram and once for the packet.
     */
    method SendLvPacket(rtp: Packet, times: seq<u128>, time: u128) returns (sent: seq<seq<byte>>)
      requires Valid() && env.Fits(rtp) && currentBlockId < 0xFFFF_FFFF
      requires |times| == env.r
      modifies this, pktData
      ensures Valid()
      ensures pkts == old(pkts) + [rtp]
      ensures wire == old(wire) + sent
      ensures |sent| > 0
      ensures SentPending(env, old(pkts), old(currentBlockId), old(currentRegularFragmentIndex), times, sent[..|sent| - 1])
      ensures SentPacket(env, Block(env.k, old(pkts), old(currentBlockId)) + [rtp],
                         old(currentBlockId), old(currentRegularFragmentIndex), time, sent[|sent| - 1])
    {
      hide InStep, Remembers, SentPending, SentPacket, Block, OpenBlock;
      ghost var ps, out, m, f := pkts, wire, currentBlockId, currentRegularFragmentIndex;
      ghost var blk := Block(env.k, ps, m);
      StartOf(env, ps, out, m, f);
      var blockId, fragment := currentBlockId, currentRegularFragmentIndex;
      var recovery := SendPending(times);
      CountFragment();
      var datagram := SendRegular(rtp, blk, blockId, fragment, time);
      sent := recovery + [datagram];
      assert sent[..|sent| - 1] == recovery;
      SentNext(env, ps, rtp, m, f, out, recovery, datagram, times, time);
      pkts, wire := ps + [rtp], out + sent;
    }
  }

  /** The block the encoder holds: the one being filled, or the one just filled. */
  function OpenBlock(k: nat, pkts: seq<Packet>, m: nat, f: nat): (blk: seq<Packet>)
    ensures |blk| <= k
  {
    Block(k, pkts, if f == 0 && m > 0 then m - 1 else m)
  }

  /** The block and fragment counted, and the wire, are those of the packets sent. */
  ghost predicate InStep(env: Env, pkts: seq<Packet>, wire: seq<seq<byte>>, m: nat, f: nat)
  {
    match env
    case Env(_, _, _, _, _, _) =>
      && env.Built() && Shapes(env.code)
      && AllFit(env, pkts)
      && f < env.k && |pkts| == m * env.k + f
      && IsWire(env, pkts, Slots(env.k, env.r, |pkts|), wire)
  }

  /** What the sender remembers of the open block: its shards, its longest packet, its sizes. */
  ghost predicate Remembers(env: Env, blk: seq<Packet>, shards: seq<Shard>, largest: nat, sizes: seq<u16>)
  {
    match env
    case Env(_, _, _, _, _, _) =>
      && env.Built() && AllFit(env, blk)
      && shards == Shards(env, blk)
      && largest == Largest(env, blk)
      && |blk| <= |sizes| && sizes[..|blk|] == Sizes(env, blk)
  }

  lemma {:induction false} RemembersNothing(env: Env, blk: seq<Packet>, sizes: seq<u16>)
    requires env.Built() && blk == []
    ensures Remembers(env, blk, [], 0, sizes)
  {
  }

  /** The encoder's output for a complete block is its recovery, and can be cut and sent behind a header. */
  lemma {:induction false} Recoverable(env: Env, blk: seq<Packet>, shards: seq<Shard>, largest: nat, sizes: seq<u16>)
    requires env.Built() && Shapes(env.code) && AllFit(env, blk) && |blk| == env.k == |sizes|
    requires Remembers(env, blk, shards, largest, sizes)
    ensures env.code.encode(shards) == Recovery(env, blk)
    ensures sizes == Sizes(env, blk)
    ensures largest == Largest(env, blk) <= env.code.size
    ensures |Recovery(env, blk)| == env.r
    ensures forall j :: 0 <= j < env.r ==> largest <= |Recovery(env, blk)[j]|
    ensures 0 < env.r < 0x1_0000_0000 && env.k < 0x1_0000_0000
  {
    assert sizes == sizes[..env.k];
  }

  /** What the sender must remember of a block grown by a packet. */
  lemma {:induction false} Grows(env: Env, blk: seq<Packet>, p: Packet)
    requires env.Built() && AllFit(env, blk) && env.Fits(p)
    ensures AllFit(env, blk + [p])
    ensures Shards(env, blk + [p]) == Shards(env, blk) + [Padded(env.marshal(p), env.code.size)]
    ensures Sizes(env, blk + [p]) == Sizes(env, blk) + [|env.marshal(p)|]
    ensures Largest(env, blk + [p])
         == if |env.marshal(p)| > Largest(env, blk) then |env.marshal(p)| else Largest(env, blk)
  {
    var more := blk + [p];
    assert more[..|more| - 1] == blk;
  }

  lemma {:induction false} RemembersMore(
    env: Env, blk: seq<Packet>, p: Packet, shards: seq<Shard>, largest: nat, sizes: seq<u16>)
    requires env.Fits(p) && AllFit(env, blk) && |blk| < |sizes| && Remembers(env, blk, shards, largest, sizes)
    ensures AllFit(env, blk + [p])
    ensures Remembers(env, blk + [p], shards + [Padded(env.marshal(p), env.code.size)],
                      if |env.marshal(p)| > largest then |env.marshal(p)| else largest,
                      sizes[|blk| := |env.marshal(p)|])
  {
    hide Shards, Sizes, Largest, Padded;
    Grows(env, blk, p);
    var more := sizes[|blk| := |env.marshal(p)|];
    assert more[..|blk| + 1] == sizes[..|blk|] + [|env.marshal(p)|];
  }

  lemma {:induction false} RegularDatagram(env: Env, blk: seq<Packet>, p: Packet, m: u32, time: u128)
    requires env.Built() && Shapes(env.code) && AllFit(env, blk) && env.Fits(p) && |blk| < env.k
    ensures SentPacket(env, blk + [p], m, |blk|, time,
              Header.Encoded(Header.Info(m, env.k, false, |blk|, seq(env.k, _ => 0), time)) + env.marshal(p))
  {
  }

  /** A buffer with a header and a payload in front: the rest is the padded payload exactly if only zeros follow it. */
  lemma {:induction false} BufferHolds(buf: seq<byte>, header: seq<byte>, payload: seq<byte>, size: nat)
    requires |payload| <= size && |buf| == |header| + size
    requires buf[..|header| + |payload|] == header + payload
    ensures buf[|header|..] == Padded(payload, size) <==> ZeroFrom(buf, |header| + |payload|)
  {
    var n := |header|;
    var shard := buf[n..];
    assert shard[..|payload|] == payload by {
      assert shard[..|payload|] == buf[..n + |payload|][n..];
    }
    PaddedCut(shard, |payload|);
    forall i | |payload| <= i < size ensures shard[i] == buf[n + i] {
    }
    if ZeroFrom(shard, |payload|) {
      forall i | n + |payload| <= i < |buf| ensures buf[i] == 0 {
        assert shard[i - n] == 0;
      }
    }
  }

  /**
   The shard the encoder is given with a packet, the buffer behind the header, is what the receiver makes of the
   datagram by padding what follows its header, if and only if the buffer was zero behind the datagram.
   */
  lemma {:induction false} SameShard(env: Env, blk: seq<Packet>, m: u32, o: nat, time: u128, buf: seq<byte>)
    returns (d: seq<byte>)
    requires env.Built() && Shapes(env.code) && AllFit(env, blk) && o < |blk| <= env.k
    requires |buf| == Header.NoBytes(env.k) + env.code.size
    requires var d := Datagram(env, blk, m, o, time); |d| <= |buf| && buf[..|d|] == d
    ensures d == Datagram(env, blk, m, o, time) && Header.NoBytes(env.k) <= |d| <= |buf|
    ensures buf[Header.NoBytes(env.k)..] == Padded(d[Header.NoBytes(env.k)..], env.code.size) <==> ZeroFrom(buf, |d|)
  {
    hide Header.Encoded, Padded, ZeroFrom, Header.NoBytes;
    var header, payload := Header.Encoded(InfoAt(env, blk, m, o, time)), PayloadAt(env, blk, o);
    d := Datagram(env, blk, m, o, time);
    assert d == header + payload && |header| == Header.NoBytes(env.k);
    assert d[|header|..] == payload;
    BufferHolds(buf, header, payload, env.code.size);
  }

  /** A recovery datagram's bytes. */
  function RecoveryBytes(m: u32, k: u32, j: u32, sizes: seq<u16>, time: u128, payload: seq<byte>): (d: seq<byte>) {
    Header.Encoded(Header.Info(m, k, true, j, sizes, time)) + payload
  }

  lemma {:induction false} RecoveryDatagram(env: Env, blk: seq<Packet>, m: u32, j: nat, time: u128)
    requires env.Built() && Shapes(env.code) && AllFit(env, blk) && |blk| == env.k && j < env.r
    ensures Datagram(env, blk, m, env.k + j, time)
         == RecoveryBytes(m, env.k, j, Sizes(env, blk), time, Recovery(env, blk)[j][..Largest(env, blk)])
  {
    assert env.k + j - env.k == j;
  }

  /** These are the recovery datagrams of block m. */
  ghost predicate RecoverySent(env: Env, blk: seq<Packet>, m: u32, times: seq<u128>, sent: seq<seq<byte>>)
    requires env.Built() && Shapes(env.code) && AllFit(env, blk) && |blk| == env.k
  {
    |sent| == |times| == env.r &&
    forall j :: 0 <= j < env.r ==> sent[j] == Datagram(env, blk, m, env.k + j, times[j])
  }

  lemma {:induction false} AreRecoveryDatagrams(env: Env, blk: seq<Packet>, m: u32, times: seq<u128>, sent: seq<seq<byte>>)
    requires env.Built() && Shapes(env.code) && AllFit(env, blk) && |blk| == env.k
    requires |sent| == |times| == env.r
    requires forall j :: 0 <= j < env.r ==>
      sent[j] == RecoveryBytes(m, env.k, j, Sizes(env, blk), times[j], Recovery(env, blk)[j][..Largest(env, blk)])
    ensures RecoverySent(env, blk, m, times, sent)
  {
    forall j | 0 <= j < env.r ensures sent[j] == Datagram(env, blk, m, env.k + j, times[j]) {
      RecoveryDatagram(env, blk, m, j, times[j]);
    }
  }

  /** What goes out with packet f of block m: its datagram, after the recovery of block m - 1 if f is 0. */
  ghost predicate SentWith(env: Env, pkts: seq<Packet>, m: nat, f: nat, sent: seq<seq<byte>>, times: seq<u128>)
    requires env.Built() && Shapes(env.code)
  {
    if f == 0 && m > 0 then
      && |sent| == env.r + 1
      && SentRecovery(env, Block(env.k, pkts, m - 1), m - 1, times, sent[..env.r])
      && IsDatagram(env, Block(env.k, pkts, m), Slot(m, f), sent[env.r])
    else
      |sent| == 1 && IsDatagram(env, Block(env.k, pkts, m), Slot(m, f), sent[0])
  }

  ghost predicate SentRecovery(env: Env, blk: seq<Packet>, m: nat, times: seq<u128>, sent: seq<seq<byte>>)
    requires env.Built() && Shapes(env.code)
  {
    m < 0x1_0000_0000 && AllFit(env, blk) && |blk| == env.k && RecoverySent(env, blk, m, times, sent)
  }

  lemma {:induction false} RecoveryIsDatagram(
    env: Env, blk: seq<Packet>, m: nat, times: seq<u128>, sent: seq<seq<byte>>, j: nat)
    requires env.Built() && Shapes(env.code) && j < env.r
    requires SentRecovery(env, blk, m, times, sent)
    ensures |sent| == env.r && IsDatagram(env, blk, RecoverySlots(env.k, env.r, m)[j], sent[j])
  {
    hide Recovery, Sizes, Largest, Header.Encoded;
    assert sent[j] == Datagram(env, blk, m, env.k + j, times[j]);
  }

  /** The headers of a block's recovery datagrams: each has the time read for it. */
  lemma {:induction false} RecoverySays(
    env: Env, blk: seq<Packet>, m: nat, times: seq<u128>, sent: seq<seq<byte>>, j: nat)
    requires env.Built() && Shapes(env.code) && j < env.r
    requires SentRecovery(env, blk, m, times, sent)
    ensures |sent| == |times| == env.r && |sent[j]| >= Header.NoBytes(env.k)
    ensures Header.Decoded(sent[j], env.k) == Header.Info(m, env.k, true, j, Sizes(env, blk), times[j])
  {
    hide Header.Encoded, Header.Decoded, Recovery, Sizes, Largest;
    assert sent[j] == Datagram(env, blk, m, env.k + j, times[j]);
    assert InfoAt(env, blk, m, env.k + j, times[j]) == Header.Info(m, env.k, true, j, Sizes(env, blk), times[j]);
    Header.DecodedOfEncoded(InfoAt(env, blk, m, env.k + j, times[j]), PayloadAt(env, blk, env.k + j));
  }

  /** And that of a packet's datagram. */
  lemma {:induction false} PacketSays(env: Env, blk: seq<Packet>, m: nat, f: nat, time: u128, datagram: seq<byte>)
    requires SentPacket(env, blk, m, f, time, datagram) && f < env.k
    ensures |datagram| >= Header.NoBytes(env.k)
    ensures Header.Decoded(datagram, env.k) == Header.Info(m, env.k, false, f, seq(env.k, _ => 0), time)
  {
    hide Header.Encoded, Header.Decoded, Recovery, Sizes, Largest;
    Header.DecodedOfEncoded(InfoAt(env, blk, m, f, time), PayloadAt(env, blk, f));
  }

  lemma {:induction false} SentIsWire(env: Env, pkts: seq<Packet>, m: nat, f: nat, sent: seq<seq<byte>>, times: seq<u128>)
    requires env.Built() && Shapes(env.code)
    requires SentWith(env, pkts, m, f, sent, times)
    ensures IsWire(env, pkts, SlotsWith(env.k, env.r, m, f), sent)
  {
    hide IsDatagram, RecoverySent, Block, SentRecovery;
    var slots := SlotsWith(env.k, env.r, m, f);
    if f == 0 && m > 0 {
      forall i | 0 <= i < |slots|
        ensures IsDatagram(env, Block(env.k, pkts, slots[i].block), slots[i], sent[i])
      {
        if i < env.r {
          RecoveryIsDatagram(env, Block(env.k, pkts, m - 1), m - 1, times, sent[..env.r], i);
        }
      }
    }
  }

  lemma {:induction false} WireConcat(
    env: Env, pkts: seq<Packet>, slots: seq<Slot>, wire: seq<seq<byte>>, more: seq<Slot>, sent: seq<seq<byte>>)
    requires env.Built() && Shapes(env.code)
    requires IsWire(env, pkts, slots, wire) && IsWire(env, pkts, more, sent)
    ensures IsWire(env, pkts, slots + more, wire + sent)
  {
    hide IsDatagram, Block;
  }

  /** The wire grows by what goes out with the packet; what is on it already stays true of the longer stream. */
  lemma {:induction false} WireGrows(
    env: Env, pkts: seq<Packet>, p: Packet, m: nat, f: nat, wire: seq<seq<byte>>, sent: seq<seq<byte>>, times: seq<u128>)
    requires env.Built() && Shapes(env.code) && env.Fits(p)
    requires f < env.k && |pkts| == m * env.k + f
    requires IsWire(env, pkts, Slots(env.k, env.r, |pkts|), wire)
    requires SentWith(env, pkts + [p], m, f, sent, times)
    ensures IsWire(env, pkts + [p], Slots(env.k, env.r, |pkts| + 1), wire + sent)
  {
    DivUnique(|pkts|, env.k, m, f);
    WireStays(env, pkts, p, Slots(env.k, env.r, |pkts|), wire, m, f);
    SentIsWire(env, pkts + [p], m, f, sent, times);
    WireConcat(env, pkts + [p], Slots(env.k, env.r, |pkts|), wire, SlotsWith(env.k, env.r, m, f), sent);
  }

  /** Where a packet finds the sender: the block it joins holds f packets, the one before it, if any, is complete. */
  lemma {:induction false} StartOf(env: Env, pkts: seq<Packet>, wire: seq<seq<byte>>, m: nat, f: nat)
    requires InStep(env, pkts, wire, m, f)
    ensures |Block(env.k, pkts, m)| == f < env.k && AllFit(env, Block(env.k, pkts, m))
    ensures f == 0 && m > 0 ==>
      |Block(env.k, pkts, m - 1)| == env.k && AllFit(env, Block(env.k, pkts, m - 1))
  {
    BlockGrows(env.k, pkts, NO_PACKET, m, f, if m > 0 then m - 1 else 0);
    GoodBlockFits(env, pkts, m);
    if m > 0 {
      GoodBlockFits(env, pkts, m - 1);
    }
  }

  function NextFragment(k: nat, f: nat): (next: nat) {
    if f + 1 == k then 0 else f + 1
  }

  function NextBlock(k: nat, m: nat, f: nat): (next: nat) {
    if f + 1 == k then m + 1 else m
  }

  /** What goes out before packet f of block m. */
  ghost predicate SentPending(env: Env, pkts: seq<Packet>, m: nat, f: nat, times: seq<u128>, sent: seq<seq<byte>>) {
    match env
    case Env(_, _, _, _, _, _) =>
      env.Built() && Shapes(env.code) &&
      if f == 0 && m > 0 then SentRecovery(env, Block(env.k, pkts, m - 1), m - 1, times, sent) else sent == []
  }

  /** The datagram of packet f of block m, blk being the block up to it. */
  ghost predicate SentPacket(env: Env, blk: seq<Packet>, m: nat, f: nat, time: u128, datagram: seq<byte>) {
    match env
    case Env(_, _, _, _, _, _) =>
      && env.Built() && Shapes(env.code) && m < 0x1_0000_0000
      && AllFit(env, blk) && Place(env, blk, f) && datagram == Datagram(env, blk, m, f, time)
  }

  lemma {:induction false} SentIs(
    env: Env, pkts: seq<Packet>, p: Packet, m: nat, f: nat,
    recovery: seq<seq<byte>>, datagram: seq<byte>, times: seq<u128>, time: u128)
    requires f < env.k && |pkts| == m * env.k + f
    requires SentPending(env, pkts, m, f, times, recovery)
    requires SentPacket(env, Block(env.k, pkts, m) + [p], m, f, time, datagram)
    ensures SentWith(env, pkts + [p], m, f, recovery + [datagram], times)
  {
    hide Datagram, RecoverySent, Block, Shapes;
    BlockGrows(env.k, pkts, p, m, f, if m > 0 then m - 1 else 0);
    var sent := recovery + [datagram];
    assert sent[..|recovery|] == recovery;
    assert IsDatagram(env, Block(env.k, pkts + [p], m), Slot(m, f), datagram);
    if f == 0 && m > 0 {
      assert |recovery| == env.r by { RecoveryCount(env, Block(env.k, pkts, m - 1), m - 1, times, recovery); }
    }
  }

  lemma {:induction false} RecoveryCount(env: Env, blk: seq<Packet>, m: nat, times: seq<u128>, sent: seq<seq<byte>>)
    requires env.Built() && Shapes(env.code) && SentRecovery(env, blk, m, times, sent)
    ensures |sent| == env.r
  {
  }

  lemma {:induction false} OpenNext(k: nat, pkts: seq<Packet>, p: Packet, m: nat, f: nat)
    requires f < k && |pkts| == m * k + f
    ensures OpenBlock(k, pkts + [p], NextBlock(k, m, f), NextFragment(k, f)) == Block(k, pkts, m) + [p]
    ensures |pkts + [p]| == NextBlock(k, m, f) * k + NextFragment(k, f)
    ensures NextFragment(k, f) < k
  {
    hide Block;
    BlockGrows(k, pkts, p, m, f, 0);
    assert (m + 1) * k == m * k + k;
  }

  lemma {:induction false} SentNext(
    env: Env, pkts: seq<Packet>, p: Packet, m: nat, f: nat, wire: seq<seq<byte>>,
    recovery: seq<seq<byte>>, datagram: seq<byte>, times: seq<u128>, time: u128)
    requires InStep(env, pkts, wire, m, f) && env.Fits(p)
    requires SentPending(env, pkts, m, f, times, recovery)
    requires SentPacket(env, Block(env.k, pkts, m) + [p], m, f, time, datagram)
    ensures OpenBlock(env.k, pkts + [p], NextBlock(env.k, m, f), NextFragment(env.k, f)) == Block(env.k, pkts, m) + [p]
    ensures InStep(env, pkts + [p], wire + (recovery + [datagram]), NextBlock(env.k, m, f), NextFragment(env.k, f))
  {
    hide IsWire, SentWith, SentPending, SentPacket, Slots, Block, OpenBlock, NextBlock, NextFragment, Shapes;
    SentIs(env, pkts, p, m, f, recovery, datagram, times, time);
    WireGrows(env, pkts, p, m, f, wire, recovery + [datagram], times);
    OpenNext(env.k, pkts, p, m, f);
  }
}
