/**
 Instances: all the hypotheses of the theorems about streams hold together for the program's own constants, and
 the one about cutting recovery shards does not follow from the others.
 */
module Examples {
  import opened Bytes
  import opened Erasure
  import opened Stream
  import opened Video
  import opened BlockArrival
  import opened Schedule
  import opened Channel
  import opened Field256
  import opened Raid
  import Header

  /** The program's sizes with a simple packet format: two bytes of sequence number, then the payload. */
  function Simple(code: Code): (env: Env) {
    Env(
      code, 1200,
      (p: Packet) => BigEndian(p.sequenceNumber, 2) + p.payload,
      (s: seq<byte>) => Unmarshalled(s),
      (payload: seq<byte>) => payload != [] && payload[0] == 0,
      (fragment: seq<byte>, payload: seq<byte>) => Some((fragment, payload)))
  }

  function Unmarshalled(s: seq<byte>): (p: Option<Packet>) {
    if |s| < 2 then None else Some(Packet(Header.Word16(s[..2]), [], s[2..]))
  }

  lemma {:induction false} Word16ReadBack(v: u16)
    ensures Header.Word16(BigEndian(v, 2)) == v
  {
    assert BigEndian(v, 2) == BigEndian(v / 256, 1) + [v % 256];
    assert BigEndian(v / 256, 1) == BigEndian(v / 256 / 256, 0) + [v / 256 % 256];
  }

  /** Packets the simple format can carry. */
  ghost predicate AllShort(ps: seq<Packet>) {
    forall i :: 0 <= i < |ps| ==> ps[i].otherHeader == [] && |ps[i].payload| <= 1161
  }

  lemma {:induction false} SimpleIsBuilt(code: Code)
    requires code.k == 4 && code.r == 2 && code.size == 1216
    ensures Simple(code).Built() && Simple(code).Room() == 1163
  {
    Header.BuiltSizes();
  }

  lemma {:induction false} ShortIsGood(code: Code, p: Packet)
    requires code.k == 4 && code.r == 2 && code.size == 1216
    requires p.otherHeader == [] && |p.payload| <= 1161
    ensures Simple(code).Sendable(p) && Depacketizes(Simple(code), p)
  {
    SimpleIsBuilt(code);
    Word16ReadBack(p.sequenceNumber);
    var s := BigEndian(p.sequenceNumber, 2) + p.payload;
    assert s[..2] == BigEndian(p.sequenceNumber, 2) && s[2..] == p.payload;
  }

  lemma {:induction false} ShortAreGood(code: Code, ps: seq<Packet>)
    requires code.k == 4 && code.r == 2 && code.size == 1216 && AllShort(ps)
    ensures GoodPackets(Simple(code), ps)
  {
    forall i | 0 <= i < |ps| ensures Simple(code).Sendable(ps[i]) && Depacketizes(Simple(code), ps[i]) {
      ShortIsGood(code, ps[i]);
    }
  }

  /** With the RAID code, every stream of short packets meets every hypothesis at once, whatever the channel keeps. */
  lemma {:induction false} HypothesesHoldTogether(pkts: seq<Packet>, kept: seq<nat>)
    requires AllShort(pkts)
    ensures var env := Simple(RaidCode(1216));
      Sound(env) && GoodPackets(env, pkts) && CutsFitKept(env, pkts, kept)
  {
    var env := Simple(RaidCode(1216));
    SimpleIsBuilt(env.code);
    RaidIsLawful(1216);
    ShortAreGood(env.code, pkts);
    var slots := Slots(env.k, env.r, |pkts|);
    if forall i :: 0 <= i < |kept| ==> kept[i] < |slots| {
      forall s | s in Picked(slots, kept) && env.k <= s.place
        ensures CutFitsIn(env, Block(env.k, pkts, s.block))
      {
        RaidCutFits(env, Block(env.k, pkts, s.block));
      }
    }
  }

  lemma {:induction false} RaidCutFits(env: Env, blk: seq<Packet>)
    requires env.Built() && env.code == RaidCode(1216)
    ensures CutFitsIn(env, blk)
  {
    if AllFit(env, blk) && |blk| == env.k {
      RaidZeroTail(1216, Largest(env, blk));
      ZeroTailFits(env, blk);
    }
  }

  // ---- A code whose symbols take two bytes -------------------------------------------------------

  /** The other byte of the pair that position i belongs to. */
  function Partner(i: nat, n: nat): (j: nat)
    ensures i < n ==> j < n
  {
    if i % 2 == 1 then i - 1 else if i + 1 < n then i + 1 else i
  }

  lemma {:induction false} PartnerTwice(i: nat, n: nat)
    requires i < n
    ensures Partner(Partner(i, n), n) == i
  {
  }

  function Swapped(s: Shard): (w: Shard)
    ensures |w| == |s|
  {
    seq(|s|, i requires 0 <= i < |s| => s[Partner(i, |s|)])
  }

  lemma {:induction false} SwappedTwice(s: Shard)
    ensures Swapped(Swapped(s)) == s
  {
    hide Partner;
    forall i | 0 <= i < |s| ensures Swapped(Swapped(s))[i] == s[i] {
      PartnerTwice(i, |s|);
    }
  }

  function SwappedAll(shards: seq<Shard>): (w: seq<Shard>)
    ensures |w| == |shards|
  {
    seq(|shards|, i requires 0 <= i < |shards| => Swapped(shards[i]))
  }

  function SwappedMap(m: map<nat, Shard>): (w: map<nat, Shard>) {
    map i | i in m :: Swapped(m[i])
  }

  /** A code with the two bytes of each pair exchanged in its recovery shards. */
  function Exchanged(c: Code): (e: Code) {
    Code(c.k, c.r, c.size,
         (block: seq<Shard>) => SwappedAll(c.encode(block)),
         (originals: map<nat, Shard>, recoveries: map<nat, Shard>) => c.decode(originals, SwappedMap(recoveries)))
  }

  lemma {:induction false} SwappedGiven(shards: seq<Shard>, t: set<nat>)
    ensures SwappedMap(Given(SwappedAll(shards), t)) == Given(shards, t)
  {
    hide Swapped;
    forall i: nat | i < |shards| ensures Swapped(Swapped(shards[i])) == shards[i] {
      SwappedTwice(shards[i]);
    }
  }

  lemma {:induction false} ExchangedShapes(c: Code)
    requires Shapes(c)
    ensures Shapes(Exchanged(c))
  {
  }

  /** The exchange changes nothing about which shards determine which. */
  lemma {:induction false} ExchangedIsLawful(c: Code)
    requires Lawful(c)
    ensures Lawful(Exchanged(c))
  {
    hide Given, Indices, AllOfSize, SwappedMap, SwappedAll;
    ExchangedShapes(c);
    var e := Exchanged(c);
    forall block, s: set<nat>, t: set<nat>
      ensures e.decode(Given(block, s), Given(e.encode(block), t)) == c.decode(Given(block, s), Given(c.encode(block), t))
    {
      SwappedGiven(c.encode(block), t);
    }
  }

  lemma {:induction false} RecoveryBytesZero(size: nat, block: seq<Shard>, j: nat, b: nat)
    requires j < 2 && b < size
    requires forall a :: 0 <= a < |block| && b < |block[a]| ==> block[a][b] == 0
    ensures Encode(size, block)[j][b] == 0
  {
    hide P, Q, ToByte;
    SumsOfNothing();
    ZeroAcross(block, b);
  }

  lemma {:induction false} PairOf(i: nat, n: nat)
    requires i < n && n % 2 == 0
    ensures i / 2 * 2 <= Partner(i, n) < i / 2 * 2 + 2
  {
  }

  lemma {:induction false} ExchangedEncode(size: nat, block: seq<Shard>)
    ensures Exchanged(RaidCode(size)).encode(block) == SwappedAll(Encode(size, block))
  {
    hide Encode;
  }

  lemma {:induction false} SwappedAt(shards: seq<Shard>, j: nat, i: nat)
    requires j < |shards| && i < |shards[j]|
    ensures |SwappedAll(shards)[j]| == |shards[j]| && SwappedAll(shards)[j][i] == shards[j][Partner(i, |shards[j]|)]
  {
  }

  lemma {:induction false} LocalAt(size: nat, block: seq<Shard>, j: nat, i: nat)
    requires size % 2 == 0 && j < 2 && i < size && GroupZero(block, i / 2 * 2, 2)
    ensures |SwappedAll(Encode(size, block))[j]| == size && SwappedAll(Encode(size, block))[j][i] == 0
  {
    hide Encode, Partner;
    SwappedAt(Encode(size, block), j, i);
    PairOf(i, size);
    RecoveryBytesZero(size, block, j, Partner(i, size));
  }

  /** It is local to pairs, so cuts of even length are harmless (Stream.LocalCutFits). */
  lemma {:induction false} ExchangedIsLocal(size: nat)
    requires size % 2 == 0
    ensures LocalTo(Exchanged(RaidCode(size)), 2)
  {
    hide Encode, Partner, GroupZero;
    var c := Exchanged(RaidCode(size));
    forall block, j, i |
      AllOfSize(block, c.k, c.size) && 0 <= j < |c.encode(block)| && 0 <= i < |c.encode(block)[j]| &&
      GroupZero(block, i / 2 * 2, 2)
      ensures c.encode(block)[j][i] == 0
    {
      ExchangedEncode(size, block);
      LocalAt(size, block, j, i);
    }
  }

  const LONG := Packet(0, [], [1])
  const SHORT := Packet(0, [], [])

  lemma {:induction false} Marshalled(code: Code)
    ensures Simple(code).marshal(LONG) == [0, 0, 1] && Simple(code).marshal(SHORT) == [0, 0]
  {
    assert BigEndian(0, 2) == BigEndian(0, 1) + [0];
    assert BigEndian(0, 1) == BigEndian(0, 0) + [0];
  }

  lemma {:induction false} SumOfOne()
    ensures ToByte(P(Four(FromByte(1), NOTHING, NOTHING, NOTHING))) == 1
  {
    hide FromByte, ToByte, Plus;
    PlusNothing(FromByte(1));
    PlusNothing(NOTHING);
    ToByteFromByte(1);
  }

  /** The third byte of the first shard is 1, of the others 0: so is it in P, and the exchange moves it to the fourth. */
  lemma {:induction false} MovedPastCut(block: seq<Shard>, size: nat)
    requires size > 3 && AllOfSize(block, 4, size)
    requires block[0][2] == 1 && block[1][2] == block[2][2] == block[3][2] == 0
    ensures |SwappedAll(Encode(size, block))[0]| == size && SwappedAll(Encode(size, block))[0][3] == 1
  {
    SwappedAt(Encode(size, block), 0, 3);
    assert Partner(3, size) == 2;
    assert FromByte(0) == NOTHING;
    assert Across(block, 2) == Four(FromByte(1), NOTHING, NOTHING, NOTHING);
    SumOfOne();
  }

  lemma {:induction false} LargestOfFour(env: Env, p: Packet, q: Packet)
    requires env.Built() && env.Fits(p) && env.Fits(q) && |env.marshal(q)| <= |env.marshal(p)|
    ensures AllFit(env, [p, q, q, q]) && Largest(env, [p, q, q, q]) == |env.marshal(p)|
  {
    var blk := [p, q, q, q];
    assert blk[0] == p;
  }

  /** But a cut of odd length can lose a byte: four packets the sender accepts, the longest of three bytes. */
  lemma {:induction false} OddCutLoses(blk: seq<Packet>)
    requires blk == [LONG, SHORT, SHORT, SHORT]
    ensures var env := Simple(Exchanged(RaidCode(1216)));
      Sound(env) && GoodPackets(env, blk) && AllFit(env, blk) && !CutsFit(env, blk)
  {
    var env := Simple(Exchanged(RaidCode(1216)));
    SimpleIsBuilt(env.code);
    RaidIsLawful(1216);
    ExchangedIsLawful(RaidCode(1216));
    ShortAreGood(env.code, blk);
    Marshalled(env.code);
    LargestOfFour(env, LONG, SHORT);
    var shards := Shards(env, blk);
    assert shards[0][2] == 1 && shards[1][2] == shards[2][2] == shards[3][2] == 0;
    MovedPastCut(shards, 1216);
    ExchangedEncode(1216, shards);
    assert !ZeroFrom(env.code.encode(shards)[0], 3);
  }
}
