/** The stream of RTP packets, its cutting into blocks, and the datagram at each place of a block. */
module Stream {
  import opened Arith
  import opened Bytes
  import opened Erasure
  import Header

  /** An RTP packet: the sequence number and the payload are used here, the rest of its header is carried along. */
  datatype Packet = Packet(sequenceNumber: u16, otherHeader: seq<byte>, payload: seq<byte>)

  /** What an empty queue slot holds before the first packet is put there. */
  const NO_PACKET := Packet(0, [], [])

  /**
   The libraries and constants both ends are built with. depacketize takes the H.264 depacketizer's
   saved fragment and a payload, and gives the fragment it saves next and the bytes it puts out.
   */
  datatype Env = Env(
    code: Code,
    mtu: nat,
    marshal: Packet -> seq<byte>,
    unmarshal: seq<byte> -> Option<Packet>,
    isPartitionHead: seq<byte> -> bool,
    depacketize: (seq<byte>, seq<byte>) -> Option<(seq<byte>, seq<byte>)>)
  {
    const k: nat := code.k
    const r: nat := code.r

    /** The constants fit together as the program's do; nothing is assumed of the libraries. */
    ghost predicate Built() {
      match code
      case Code(k, r, size, _, _) =>
        && 1 <= k && 1 <= r && k + r < 0x1_0000_0000
        && Header.NoBytes(k) <= mtu < 0x1_0000
        && size == Header.SimdPacketSize(mtu, k)
    }

    /** Room for a packet in a datagram. */
    function Room(): (n: nat)
      requires Built()
      ensures n <= code.size
    {
      mtu - Header.NoBytes(k)
    }

    ghost predicate Fits(p: Packet) {
      Built() && |marshal(p)| <= Room()
    }

    /** A packet the packetizer may hand to the sender: it fits, and it can be read back. */
    ghost predicate Sendable(p: Packet) {
      Fits(p) && unmarshal(marshal(p)) == Some(p)
    }
  }

  ghost predicate AllFit(env: Env, ps: seq<Packet>) {
    forall i :: 0 <= i < |ps| ==> env.Fits(ps[i])
  }

  /** Block m of a stream: k packets, or fewer if the stream ends in it. */
  function Block(k: nat, pkts: seq<Packet>, m: nat): (blk: seq<Packet>)
    ensures |blk| <= k
    decreases m
  {
    if m > 0 then if k <= |pkts| then Block(k, pkts[k..], m - 1) else []
    else if k <= |pkts| then pkts[..k]
    else pkts
  }

  lemma {:induction false} BlockFrom(k: nat, pkts: seq<Packet>, m: nat, from: nat)
    requires from == m * k
    ensures from + k <= |pkts| ==> Block(k, pkts, m) == pkts[from..from + k]
    ensures from <= |pkts| < from + k ==> Block(k, pkts, m) == pkts[from..]
    ensures |pkts| < from ==> Block(k, pkts, m) == []
    decreases m
  {
    if m > 0 {
      assert from - k == (m - 1) * k;
      MulLe(0, m - 1, k);
      if k <= |pkts| {
        BlockFrom(k, pkts[k..], m - 1, from - k);
        if from + k <= |pkts| {
          SliceOfSlice(pkts, k, |pkts|, from - k, from);
        } else if from <= |pkts| {
          SliceOfSlice(pkts, k, |pkts|, from - k, |pkts| - k);
        }
      }
    }
  }

  /** Block m is the stretch of the stream from m * k. */
  lemma {:induction false} BlockIsStretch(k: nat, pkts: seq<Packet>, m: nat)
    ensures m * k + k <= |pkts| ==> Block(k, pkts, m) == pkts[m * k..m * k + k]
    ensures m * k <= |pkts| < m * k + k ==> Block(k, pkts, m) == pkts[m * k..]
    ensures |pkts| < m * k ==> Block(k, pkts, m) == []
  {
    BlockFrom(k, pkts, m, m * k);
  }

  /** The original shards of a block. */
  ghost function Shards(env: Env, blk: seq<Packet>): (s: seq<Shard>)
    requires env.Built() && AllFit(env, blk)
    ensures AllOfSize(s, |blk|, env.code.size)
  {
    seq(|blk|, f requires 0 <= f < |blk| => Padded(env.marshal(blk[f]), env.code.size))
  }

  ghost function Sizes(env: Env, blk: seq<Packet>): (s: seq<u16>)
    requires env.Built() && AllFit(env, blk)
    ensures |s| == |blk|
  {
    seq(|blk|, f requires 0 <= f < |blk| => |env.marshal(blk[f])|)
  }

  /** The length of the longest packet of a block. */
  ghost function Largest(env: Env, blk: seq<Packet>): (n: nat)
    requires env.Built() && AllFit(env, blk)
    ensures n <= env.Room()
    ensures forall f :: 0 <= f < |blk| ==> |env.marshal(blk[f])| <= n
    ensures blk == [] ==> n == 0
    ensures blk != [] ==> exists f :: 0 <= f < |blk| && |env.marshal(blk[f])| == n
  {
    if blk == [] then 0
    else
      var last := blk[|blk| - 1];
      var before := Largest(env, blk[..|blk| - 1]);
      if |env.marshal(last)| > before then |env.marshal(last)| else before
  }

  ghost function Recovery(env: Env, blk: seq<Packet>): (s: seq<Shard>)
    requires env.Built() && Shapes(env.code) && AllFit(env, blk) && |blk| == env.k
    ensures AllOfSize(s, env.r, env.code.size)
  {
    env.code.encode(Shards(env, blk))
  }

  /** Places in block blk that hold a datagram: its packets, then, once it is complete, its recovery shards. */
  ghost predicate Place(env: Env, blk: seq<Packet>, o: nat) {
    if o < env.k then o < |blk| else |blk| == env.k && o < env.k + env.r
  }

  ghost function InfoAt(env: Env, blk: seq<Packet>, m: u32, o: nat, time: u128): (h: Header.Info)
    requires env.Built() && AllFit(env, blk) && Place(env, blk, o)
    ensures |h.pktSizes| == env.k
  {
    if o < env.k then Header.Info(m, env.k, false, o, seq(env.k, _ => 0), time)
    else Header.Info(m, env.k, true, o - env.k, Sizes(env, blk), time)
  }

  ghost function PayloadAt(env: Env, blk: seq<Packet>, o: nat): (s: seq<byte>)
    requires env.Built() && Shapes(env.code) && AllFit(env, blk) && Place(env, blk, o)
    ensures |s| <= env.Room()
  {
    if o < env.k then env.marshal(blk[o])
    else Recovery(env, blk)[o - env.k][..Largest(env, blk)]
  }

  /** The datagram at place o of block m. */
  ghost function Datagram(env: Env, blk: seq<Packet>, m: u32, o: nat, time: u128): (d: seq<byte>)
    requires env.Built() && Shapes(env.code) && AllFit(env, blk) && Place(env, blk, o)
    ensures |d| <= env.mtu
  {
    Header.Encoded(InfoAt(env, blk, m, o, time)) + PayloadAt(env, blk, o)
  }

  /** The shard that goes with a place of a block. */
  ghost function ShardAt(env: Env, blk: seq<Packet>, o: nat): (s: Shard)
    requires env.Built() && Shapes(env.code) && AllFit(env, blk) && Place(env, blk, o)
    ensures |s| == env.code.size
  {
    if o < env.k then Shards(env, blk)[o] else Recovery(env, blk)[o - env.k]
  }

  /** Hypothesis on a block: cutting its recovery shards at its longest packet loses nothing. */
  ghost predicate CutsFit(env: Env, blk: seq<Packet>)
    requires env.Built() && AllFit(env, blk)
  {
    CutHarmless(env.code, Shards(env, blk), Largest(env, blk))
  }

  /** Padding the payload at place o with zeros gives back the shard the sender's code saw. */
  ghost predicate Rebuilt(env: Env, blk: seq<Packet>, o: nat)
    requires env.Built() && Shapes(env.code) && AllFit(env, blk) && Place(env, blk, o)
  {
    Padded(PayloadAt(env, blk, o), env.code.size) == ShardAt(env, blk, o)
  }

  lemma {:induction false} PacketRebuilt(env: Env, blk: seq<Packet>, o: nat)
    requires env.Built() && Shapes(env.code) && AllFit(env, blk) && o < |blk| <= env.k
    ensures Place(env, blk, o) && Rebuilt(env, blk, o)
  {
  }

  lemma {:induction false} RecoveryRebuilt(env: Env, blk: seq<Packet>, j: nat)
    requires env.Built() && Shapes(env.code) && AllFit(env, blk) && |blk| == env.k && j < env.r
    ensures Rebuilt(env, blk, env.k + j) <==> ZeroFrom(Recovery(env, blk)[j], Largest(env, blk))
  {
    var shard := Recovery(env, blk)[j];
    assert |shard| == env.code.size;
    PaddedCut(shard, Largest(env, blk));
    assert env.k + j - env.k == j;
    assert ShardAt(env, blk, env.k + j) == shard;
    assert PayloadAt(env, blk, env.k + j) == shard[..Largest(env, blk)];
  }

  /**
   The receiver's padding gives back the sender's shard for every packet,
   and for all the recovery datagrams of a block exactly when the block's cut is harmless.
   */
  lemma {:induction false} ShardAgreement(env: Env, blk: seq<Packet>)
    requires env.Built() && Shapes(env.code) && AllFit(env, blk) && |blk| == env.k
    ensures forall o :: 0 <= o < env.k ==> Rebuilt(env, blk, o)
    ensures (forall o :: env.k <= o < env.k + env.r ==> Rebuilt(env, blk, o)) <==> CutsFit(env, blk)
  {
    forall o | 0 <= o < env.k ensures Rebuilt(env, blk, o) {
      PacketRebuilt(env, blk, o);
    }
    RecoveryAgreement(env, blk);
  }

  lemma {:induction false} RecoveryAgreement(env: Env, blk: seq<Packet>)
    requires env.Built() && Shapes(env.code) && AllFit(env, blk) && |blk| == env.k
    ensures (forall o :: env.k <= o < env.k + env.r ==> Rebuilt(env, blk, o)) <==> CutsFit(env, blk)
  {
    hide Rebuilt, Recovery, Shards, Largest;
    var shards, n := Recovery(env, blk), Largest(env, blk);
    assert CutsFit(env, blk) <==> forall j :: 0 <= j < env.r ==> ZeroFrom(shards[j], n) by {
      RecoveryIsEncoded(env, blk);
    }
    forall o | env.k <= o < env.k + env.r ensures Rebuilt(env, blk, o) <==> ZeroFrom(shards[o - env.k], n) {
      RecoveryRebuilt(env, blk, o - env.k);
    }
    if forall o :: env.k <= o < env.k + env.r ==> Rebuilt(env, blk, o) {
      forall j | 0 <= j < env.r ensures ZeroFrom(shards[j], n) {
        assert Rebuilt(env, blk, env.k + j);
        RecoveryRebuilt(env, blk, j);
      }
    }
  }

  lemma {:induction false} RecoveryIsEncoded(env: Env, blk: seq<Packet>)
    requires env.Built() && Shapes(env.code) && AllFit(env, blk) && |blk| == env.k
    ensures Recovery(env, blk) == env.code.encode(Shards(env, blk)) && |Recovery(env, blk)| == env.r
  {
  }

  lemma {:induction false} BlockShardsZeroPastLargest(env: Env, blk: seq<Packet>)
    requires env.Built() && AllFit(env, blk)
    ensures AllZeroFrom(Shards(env, blk), Largest(env, blk))
  {
  }

  /** The sender's assumption on the code makes every cut harmless. */
  lemma {:induction false} ZeroTailFits(env: Env, blk: seq<Packet>)
    requires env.Built() && AllFit(env, blk) && |blk| == env.k
    requires ZeroTail(env.code, Largest(env, blk))
    ensures CutsFit(env, blk)
  {
    BlockShardsZeroPastLargest(env, blk);
  }

  /** With symbols of g neighbouring bytes, a cut between two groups is harmless. */
  lemma {:induction false} LocalCutFits(env: Env, blk: seq<Packet>, g: nat)
    requires env.Built() && AllFit(env, blk) && |blk| == env.k
    requires g > 0 && LocalTo(env.code, g) && Largest(env, blk) % g == 0
    ensures CutsFit(env, blk)
  {
    var n := Largest(env, blk);
    var shards := Shards(env, blk);
    BlockShardsZeroPastLargest(env, blk);
    forall j, i | 0 <= j < |env.code.encode(shards)| && n <= i < |env.code.encode(shards)[j]|
      ensures env.code.encode(shards)[j][i] == 0
    {
      GroupStart(i, n, g);
      assert GroupZero(shards, i / g * g, g);
    }
  }

  lemma {:induction false} GroupStart(i: nat, n: nat, g: nat)
    requires g > 0 && n % g == 0 && n <= i
    ensures n <= i / g * g <= i
  {
    DivAtLeast(i, n / g, g);
    MulLe(n / g, i / g, g);
  }

  // ---- Where datagrams are in the stream ---------------------------------------------------------

  /** A datagram by its block and its place in the block. */
  datatype Slot = Slot(block: nat, place: nat)

  ghost predicate Before(s: Slot, t: Slot) {
    s.block < t.block || (s.block == t.block && s.place < t.place)
  }

  /** What arrives, arrives in the order it was sent, each datagram at most once. */
  ghost predicate LossOnly(slots: seq<Slot>) {
    forall i, j :: 0 <= i < j < |slots| ==> Before(slots[i], slots[j])
  }

  /** The fragment that would follow in order: fragments count modulo k. */
  function Expected(k: nat, prev: nat): (f: nat)
    requires prev < k
    ensures f < k
  {
    if prev + 1 == k then 0 else prev + 1
  }

  lemma {:induction false} ExpectedIsNext(k: nat, prev: nat)
    requires prev < k
    ensures Expected(k, prev) == (prev + 1) % k
  {
  }

  /** The bytes are the datagram at this slot of the stream, blk being its block. */
  ghost predicate IsDatagram(env: Env, blk: seq<Packet>, s: Slot, data: seq<byte>)
    requires env.Built() && Shapes(env.code)
  {
    match s
    case Slot(block, place) =>
      && block < 0x1_0000_0000
      && AllFit(env, blk) && Place(env, blk, place)
      && exists time :: data == Datagram(env, blk, block, place, time)
  }
}
