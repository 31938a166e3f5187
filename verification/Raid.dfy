/**
 A code that keeps every hypothesis made of the erasure code: four data shards and two recovery shards P and Q as in
 RAID-6, byte by byte over the field of 256 elements. So the hypotheses can all hold together for the program's
 four regular and two recovery packets.
 */
module Raid {
  import opened Bytes
  import opened Erasure
  import opened Field256

  /** The elements at one byte position of the four data shards. */
  datatype Four = Four(a: Element, b: Element, c: Element, d: Element)

  function Pick(x: Four, i: nat): (e: Element) {
    if i == 0 then x.a else if i == 1 then x.b else if i == 2 then x.c else x.d
  }

  function P(x: Four): (e: Element) {
    Plus(Plus(x.a, x.b), Plus(x.c, x.d))
  }

  function Q(x: Four): (e: Element) {
    Plus(Plus(Weighted(0, x.a), Weighted(1, x.b)), Plus(Weighted(2, x.c), Weighted(3, x.d)))
  }

  function Sum(x: Four, y: Four): (f: Four) {
    Four(Plus(x.a, y.a), Plus(x.b, y.b), Plus(x.c, y.c), Plus(x.d, y.d))
  }

  /** u at place i and nothing elsewhere. */
  function Only(i: nat, u: Element): (f: Four) {
    Four(if i == 0 then u else NOTHING, if i == 1 then u else NOTHING,
         if i == 2 then u else NOTHING, if i == 3 then u else NOTHING)
  }

  function Without(x: Four, i: nat): (f: Four) {
    Four(if i == 0 then NOTHING else x.a, if i == 1 then NOTHING else x.b,
         if i == 2 then NOTHING else x.c, if i == 3 then NOTHING else x.d)
  }

  lemma {:induction false} WeightedSum(i: nat, a: Element, b: Element)
    ensures Weighted(i, Plus(a, b)) == Plus(Weighted(i, a), Weighted(i, b))
  {
    hide Plus, Shifted;
    ShiftedSum(a, b);
    ShiftedSum(Shifted(a), Shifted(b));
    ShiftedSum(Shifted(Shifted(a)), Shifted(Shifted(b)));
  }

  lemma {:induction false} WeightedNothing(i: nat)
    ensures Weighted(i, NOTHING) == NOTHING
  {
  }

  lemma {:induction false} PSum(x: Four, y: Four)
    ensures P(Sum(x, y)) == Plus(P(x), P(y))
  {
    hide Plus;
    PlusPlus(x.a, y.a, x.b, y.b);
    PlusPlus(x.c, y.c, x.d, y.d);
    PlusPlus(Plus(x.a, x.b), Plus(y.a, y.b), Plus(x.c, x.d), Plus(y.c, y.d));
  }

  lemma {:induction false} QSum(x: Four, y: Four)
    ensures Q(Sum(x, y)) == Plus(Q(x), Q(y))
  {
    hide Plus, Weighted;
    WeightedSum(0, x.a, y.a);
    WeightedSum(1, x.b, y.b);
    WeightedSum(2, x.c, y.c);
    WeightedSum(3, x.d, y.d);
    PSum(Four(Weighted(0, x.a), Weighted(1, x.b), Weighted(2, x.c), Weighted(3, x.d)),
         Four(Weighted(0, y.a), Weighted(1, y.b), Weighted(2, y.c), Weighted(3, y.d)));
  }

  lemma {:induction false} SumsOfOnly(i: nat, u: Element)
    requires i < 4
    ensures P(Only(i, u)) == u && Q(Only(i, u)) == Weighted(i, u)
  {
    hide Plus, Weighted;
    PlusNothing(u);
    PlusNothing(Weighted(i, u));
    PlusNothing(NOTHING);
    WeightedNothing(0);
    WeightedNothing(1);
    WeightedNothing(2);
    WeightedNothing(3);
  }

  lemma {:induction false} WithoutOne(x: Four, i: nat)
    requires i < 4
    ensures Sum(x, Without(x, i)) == Only(i, Pick(x, i))
  {
    hide Plus;
    PlusNothing(x.a);
    PlusNothing(x.b);
    PlusNothing(x.c);
    PlusNothing(x.d);
  }

  lemma {:induction false} WithoutTwo(x: Four, i: nat, j: nat)
    requires i < 4 && j < 4 && i != j
    ensures Sum(x, Without(Without(x, i), j)) == Sum(Only(i, Pick(x, i)), Only(j, Pick(x, j)))
  {
    hide Plus;
    PlusNothing(x.a);
    PlusNothing(x.b);
    PlusNothing(x.c);
    PlusNothing(x.d);
    PlusNothing(NOTHING);
  }

  /** One data element missing: either sum gives it. */
  lemma {:induction false} SolveOne(x: Four, i: nat)
    requires i < 4
    ensures Plus(P(x), P(Without(x, i))) == Pick(x, i)
    ensures Unweighted(i, Plus(Q(x), Q(Without(x, i)))) == Pick(x, i)
  {
    hide Plus, P, Q, Weighted, Unweighted;
    PSum(x, Without(x, i));
    QSum(x, Without(x, i));
    WithoutOne(x, i);
    SumsOfOnly(i, Pick(x, i));
    UnweightedWeighted(i, Pick(x, i));
  }

  /** u + v and u x^i + v x^j determine u. */
  lemma {:induction false} Solve(i: nat, j: nat, u: Element, v: Element)
    requires i < 4 && j < 4 && i != j
    ensures UnweightedPair(if i < j then i else j, if i < j then j else i,
                           Plus(Plus(Weighted(i, u), Weighted(j, v)), Weighted(j, Plus(u, v)))) == u
  {
    hide Plus, Weighted, UnweightedPair;
    WeightedSum(j, u, v);
    var a, b, c := Weighted(i, u), Weighted(j, v), Weighted(j, u);
    PlusPlus(a, b, c, b);
    PlusNothing(b);
    PlusNothing(Plus(a, c));
    PlusCommutes(a, c);
    UnweightedPairWeighted(if i < j then i else j, if i < j then j else i, u);
  }

  lemma {:induction false} PlusCommutes(a: Element, b: Element)
    ensures Plus(a, b) == Plus(b, a)
  {
  }

  /** Two data elements missing: both sums together give each. */
  lemma {:induction false} SolveTwo(x: Four, i: nat, j: nat, p: Element, q: Element)
    requires i < 4 && j < 4 && i != j
    requires p == Plus(P(x), P(Without(Without(x, i), j))) && q == Plus(Q(x), Q(Without(Without(x, i), j)))
    ensures UnweightedPair(if i < j then i else j, if i < j then j else i, Plus(q, Weighted(j, p))) == Pick(x, i)
  {
    hide Plus, P, Q, Weighted, UnweightedPair, Sum;
    var u, v := Pick(x, i), Pick(x, j);
    PSum(x, Without(Without(x, i), j));
    QSum(x, Without(Without(x, i), j));
    WithoutTwo(x, i, j);
    PSum(Only(i, u), Only(j, v));
    QSum(Only(i, u), Only(j, v));
    SumsOfOnly(i, u);
    SumsOfOnly(j, v);
    Solve(i, j, u, v);
  }

  // ---- The code ------------------------------------------------------------------------------------

  /** The element a shard holds at position b, if it is there. */
  function Held(m: map<nat, Shard>, i: nat, b: nat): (e: Element) {
    if i in m && b < |m[i]| then FromByte(m[i][b]) else NOTHING
  }

  function Column(m: map<nat, Shard>, b: nat): (f: Four) {
    Four(Held(m, 0, b), Held(m, 1, b), Held(m, 2, b), Held(m, 3, b))
  }

  function ByIndex(block: seq<Shard>): (m: map<nat, Shard>) {
    map i: nat | i < |block| :: block[i]
  }

  function Encode(size: nat, block: seq<Shard>): (s: seq<Shard>)
    ensures |s| == 2 && |s[0]| == |s[1]| == size
  {
    [seq(size, b requires b >= 0 => ToByte(P(Column(ByIndex(block), b)))),
     seq(size, b requires b >= 0 => ToByte(Q(Column(ByIndex(block), b))))]
  }

  /** Another data shard that is missing, or 4. */
  function OtherMissing(originals: map<nat, Shard>, i: nat): (n: nat) {
    if i != 0 && 0 !in originals then 0
    else if i != 1 && 1 !in originals then 1
    else if i != 2 && 2 !in originals then 2
    else if i != 3 && 3 !in originals then 3
    else 4
  }

  /** The element at position b of the missing data shard i. */
  function Restored(originals: map<nat, Shard>, recoveries: map<nat, Shard>, i: nat, b: nat): (e: Element) {
    var known, j := Column(originals, b), OtherMissing(originals, i);
    var p, q := Plus(Held(recoveries, 0, b), P(known)), Plus(Held(recoveries, 1, b), Q(known));
    if j == 4 then if 0 in recoveries then p else Unweighted(i, q)
    else UnweightedPair(if i < j then i else j, if i < j then j else i, Plus(q, Weighted(j, p)))
  }

  function RestoredShard(size: nat, originals: map<nat, Shard>, recoveries: map<nat, Shard>, i: nat): (s: Shard)
    ensures |s| == size
  {
    seq(size, b requires b >= 0 => ToByte(Restored(originals, recoveries, i, b)))
  }

  function Decode(size: nat, originals: map<nat, Shard>, recoveries: map<nat, Shard>): (m: Option<map<nat, Shard>>) {
    if |originals| + |recoveries| < 4 then None
    else
      Some(map i: nat | i in Indices(4) && i !in originals :: RestoredShard(size, originals, recoveries, i))
  }

  function RaidCode(size: nat): (c: Code) {
    Code(4, 2, size, (block: seq<Shard>) => Encode(size, block),
         (originals: map<nat, Shard>, recoveries: map<nat, Shard>) => Decode(size, originals, recoveries))
  }

  lemma {:induction false} OneMissing(s: set<nat>, t: set<nat>, i: nat)
    requires s <= Indices(4) && t <= Indices(2) && 4 <= |s| + |t| && i < 4 && i !in s
    ensures 0 in t || 1 in t
  {
    SubsetSize(s, Indices(4));
    assert t != {};
    var j :| j in t;
    assert j in Indices(2);
  }

  lemma {:induction false} TwoMissing(s: set<nat>, t: set<nat>, i: nat, j: nat)
    requires s <= Indices(4) && t <= Indices(2) && 4 <= |s| + |t| && i < 4 && i !in s && j < 4 && j !in s && i != j
    ensures s == Indices(4) - {i} - {j} && t == Indices(2)
  {
    SubsetSize(s, Indices(4) - {i} - {j});
    SubsetSize(t, Indices(2));
  }

  /** The elements at position b of a block. */
  function Across(block: seq<Shard>, b: nat): (f: Four) {
    Column(ByIndex(block), b)
  }

  lemma {:induction false} AcrossPick(block: seq<Shard>, size: nat, i: nat, b: nat)
    requires AllOfSize(block, 4, size) && i < 4 && b < size
    ensures ToByte(Pick(Across(block, b), i)) == block[i][b]
  {
    hide ToByte, FromByte;
    ToByteFromByte(block[i][b]);
  }

  /** What arrived of a block at position b, one or two data shards missing. */
  lemma {:induction false} KnownColumn(block: seq<Shard>, size: nat, s: set<nat>, i: nat, j: nat, b: nat)
    requires AllOfSize(block, 4, size) && b < size && i < 4
    requires j <= 4 && s == Indices(4) - {i} - {j}
    ensures Column(Given(block, s), b) ==
      if j == 4 then Without(Across(block, b), i) else Without(Without(Across(block, b), i), j)
  {
  }

  lemma {:induction false} HeldRecovery(block: seq<Shard>, size: nat, t: set<nat>, b: nat)
    requires b < size
    ensures 0 in t ==> Held(Given(Encode(size, block), t), 0, b) == P(Across(block, b))
    ensures 1 in t ==> Held(Given(Encode(size, block), t), 1, b) == Q(Across(block, b))
  {
    hide ToByte, FromByte, P, Q, Column;
    FromByteToByte(P(Across(block, b)));
    FromByteToByte(Q(Across(block, b)));
  }

  lemma {:induction false} WhichMissing(block: seq<Shard>, s: set<nat>, i: nat)
    requires |block| == 4 && s <= Indices(4) && i < 4 && i !in s
    ensures var j := OtherMissing(Given(block, s), i);
      j <= 4 && j != i && (j < 4 ==> j !in s) && (j == 4 ==> s == Indices(4) - {i} - {j})
  {
  }

  /** Position b of a missing shard is restored. */
  lemma {:induction false} RestoredAt(block: seq<Shard>, size: nat, s: set<nat>, t: set<nat>, i: nat, b: nat)
    requires AllOfSize(block, 4, size) && s <= Indices(4) && t <= Indices(2) && 4 <= |s| + |t|
    requires i < 4 && i !in s && b < size
    ensures Restored(Given(block, s), Given(Encode(size, block), t), i, b) == Pick(Across(block, b), i)
  {
    hide P, Q, Plus, Weighted, Unweighted, UnweightedPair, Column, Encode, Held, Across, OtherMissing;
    var x, j := Across(block, b), OtherMissing(Given(block, s), i);
    WhichMissing(block, s, i);
    HeldRecovery(block, size, t, b);
    if j == 4 {
      OneMissing(s, t, i);
      SolveOne(x, i);
    } else {
      TwoMissing(s, t, i, j);
      SolveTwo(x, i, j, Plus(P(x), P(Without(Without(x, i), j))), Plus(Q(x), Q(Without(Without(x, i), j))));
    }
    KnownColumn(block, size, s, i, j, b);
  }

  lemma {:induction false} RestoredWhole(block: seq<Shard>, size: nat, s: set<nat>, t: set<nat>, i: nat)
    requires AllOfSize(block, 4, size) && s <= Indices(4) && t <= Indices(2) && 4 <= |s| + |t|
    requires i < 4 && i !in s
    ensures RestoredShard(size, Given(block, s), Given(Encode(size, block), t), i) == block[i]
  {
    hide Restored, Across, Pick, Encode, ToByte;
    var shard := RestoredShard(size, Given(block, s), Given(Encode(size, block), t), i);
    forall b | 0 <= b < size ensures shard[b] == block[i][b] {
      RestoredAt(block, size, s, t, i, b);
      AcrossPick(block, size, i, b);
    }
  }

  lemma {:induction false} GivenSize(shards: seq<Shard>, s: set<nat>)
    requires s <= Indices(|shards|)
    ensures |Given(shards, s)| == |s|
  {
    assert Given(shards, s).Keys == s;
  }

  lemma {:induction false} DecodesGiven(block: seq<Shard>, size: nat, s: set<nat>, t: set<nat>)
    requires AllOfSize(block, 4, size) && s <= Indices(4) && t <= Indices(2)
    ensures Decode(size, Given(block, s), Given(Encode(size, block), t))
         == if 4 <= |s| + |t| then Some(Given(block, Indices(4) - s)) else None
  {
    hide RestoredShard;
    GivenSize(block, s);
    GivenSize(Encode(size, block), t);
    if 4 <= |s| + |t| {
      var m := Decode(size, Given(block, s), Given(Encode(size, block), t)).value;
      forall i: nat | i in Indices(4) && i !in s ensures m[i] == block[i] {
        RestoredWhole(block, size, s, t, i);
      }
      assert m == Given(block, Indices(4) - s);
    }
  }

  lemma {:induction false} RaidApplies(size: nat, block: seq<Shard>, s: set<nat>, t: set<nat>)
    requires AllOfSize(block, 4, size) && s <= Indices(4) && t <= Indices(2)
    ensures var c := RaidCode(size);
      c.decode(Given(block, s), Given(c.encode(block), t))
      == if 4 <= |s| + |t| then Some(Given(block, Indices(4) - s)) else None
  {
    hide Encode, Decode, Given;
    DecodesGiven(block, size, s, t);
  }

  lemma {:induction false} RaidShapes(size: nat)
    ensures Shapes(RaidCode(size))
  {
  }

  lemma {:induction false} RaidRestores(size: nat)
    ensures Restores(RaidCode(size))
  {
    hide Given, Indices, AllOfSize;
    var c := RaidCode(size);
    forall block, s: set<nat>, t: set<nat> |
      AllOfSize(block, c.k, c.size) && s <= Indices(c.k) && t <= Indices(c.r) && c.k <= |s| + |t|
      ensures c.decode(Given(block, s), Given(c.encode(block), t)) == Some(Given(block, Indices(c.k) - s))
    {
      RaidApplies(size, block, s, t);
    }
  }

  lemma {:induction false} RaidRefuses(size: nat)
    ensures Refuses(RaidCode(size))
  {
    hide Given, Indices, AllOfSize;
    var c := RaidCode(size);
    forall block, s: set<nat>, t: set<nat> |
      AllOfSize(block, c.k, c.size) && s <= Indices(c.k) && t <= Indices(c.r) && |s| + |t| < c.k
      ensures c.decode(Given(block, s), Given(c.encode(block), t)) == None
    {
      RaidApplies(size, block, s, t);
    }
  }

  /** The code keeps all that the program relies on. */
  lemma {:induction false} RaidIsLawful(size: nat)
    ensures Lawful(RaidCode(size))
  {
    RaidShapes(size);
    RaidRestores(size);
    RaidRefuses(size);
  }

  lemma {:induction false} ZeroAcross(block: seq<Shard>, b: nat)
    requires forall a :: 0 <= a < |block| && b < |block[a]| ==> block[a][b] == 0
    ensures Across(block, b) == Four(NOTHING, NOTHING, NOTHING, NOTHING)
  {
    assert FromByte(0) == NOTHING;
    hide FromByte;
  }

  lemma {:induction false} SumsOfNothing()
    ensures ToByte(P(Four(NOTHING, NOTHING, NOTHING, NOTHING))) == 0
    ensures ToByte(Q(Four(NOTHING, NOTHING, NOTHING, NOTHING))) == 0
  {
  }

  /** Its recovery shards are zero where the data shards are zero to the end, whatever the length of the rest. */
  lemma {:induction false} RaidZeroTail(size: nat, n: nat)
    ensures ZeroTail(RaidCode(size), n)
  {
    hide P, Q, ToByte;
    var c := RaidCode(size);
    SumsOfNothing();
    forall block | AllOfSize(block, c.k, c.size) && AllZeroFrom(block, n) ensures CutHarmless(c, block, n) {
      forall b | n <= b < size ensures Encode(size, block)[0][b] == 0 && Encode(size, block)[1][b] == 0 {
        ZeroAcross(block, b);
      }
    }
  }
}
