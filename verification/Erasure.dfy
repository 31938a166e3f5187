/**
 The block erasure code as the program uses it, and what the program needs of it.
 The code itself is a library; here it is a pair of functions and named hypotheses about them.
 */
module Erasure {
  import opened Bytes

  type Shard = seq<byte>

  /**
   A code for blocks of k original shards, protected by r recovery shards, each size bytes long.
   encode gives the recovery shards of a block; decode takes the shards that arrived, by index,
   and gives the original shards that did not, or None when it cannot.
   */
  datatype Code = Code(
    k: nat,
    r: nat,
    size: nat,
    encode: seq<Shard> -> seq<Shard>,
    decode: (map<nat, Shard>, map<nat, Shard>) -> Option<map<nat, Shard>>)

  ghost predicate AllOfSize(shards: seq<Shard>, count: nat, size: nat) {
    |shards| == count && forall i :: 0 <= i < count ==> |shards[i]| == size
  }

  function Indices(n: nat): (s: set<nat>)
    ensures forall i: nat :: i in s <==> i < n
    ensures |s| == n
  {
    if n == 0 then {} else Indices(n - 1) + {n - 1}
  }

  lemma {:induction false} SubsetSize(s: set<nat>, t: set<nat>)
    requires s <= t
    ensures |s| <= |t|
    ensures |s| == |t| ==> s == t
  {
    assert t == s + (t - s);
  }

  /** The shards of a sequence whose indices are in s, by index. */
  function Given(shards: seq<Shard>, s: set<nat>): (m: map<nat, Shard>)
  {
    map i | i in s && i < |shards| :: shards[i]
  }

  /** Encoding a block gives r recovery shards of the block's shard size. */
  ghost predicate Shapes(c: Code) {
    forall block :: AllOfSize(block, c.k, c.size) ==> AllOfSize(c.encode(block), c.r, c.size)
  }

  /** Any k distinct shards of a block determine the originals that are missing. */
  ghost predicate Restores(c: Code) {
    forall block, s: set<nat>, t: set<nat> {:trigger c.decode(Given(block, s), Given(c.encode(block), t))} ::
      AllOfSize(block, c.k, c.size) && s <= Indices(c.k) && t <= Indices(c.r) && c.k <= |s| + |t| ==>
        c.decode(Given(block, s), Given(c.encode(block), t)) == Some(Given(block, Indices(c.k) - s))
  }

  /** Fewer than k shards are refused. */
  ghost predicate Refuses(c: Code) {
    forall block, s: set<nat>, t: set<nat> {:trigger c.decode(Given(block, s), Given(c.encode(block), t))} ::
      AllOfSize(block, c.k, c.size) && s <= Indices(c.k) && t <= Indices(c.r) && |s| + |t| < c.k ==>
        c.decode(Given(block, s), Given(c.encode(block), t)) == None
  }

  /** What the program relies on whatever the payload sizes are. */
  ghost predicate Lawful(c: Code) {
    match c
    case Code(k, r, _, _, _) => k >= 1 && r >= 1 && Shapes(c) && Restores(c) && Refuses(c)
  }

  /** The recovery shards of this block hold only zeros from byte n on, so cutting them there loses nothing. */
  ghost predicate CutHarmless(c: Code, block: seq<Shard>, n: nat) {
    forall j :: 0 <= j < |c.encode(block)| ==> ZeroFrom(c.encode(block)[j], n)
  }

  ghost predicate AllZeroFrom(block: seq<Shard>, n: nat) {
    forall i :: 0 <= i < |block| ==> ZeroFrom(block[i], n)
  }

  /** The assumption of the sender: recovery shards are zero wherever all the originals are zero to the end. */
  ghost predicate ZeroTail(c: Code, n: nat) {
    forall block :: AllOfSize(block, c.k, c.size) && AllZeroFrom(block, n) ==> CutHarmless(c, block, n)
  }

  /**
   A code whose symbols take g neighbouring bytes: the recovery bytes of a group of g are zero
   when the originals are zero on that group.
   */
  ghost predicate LocalTo(c: Code, g: nat)
    requires g > 0
  {
    forall block, j, i {:trigger c.encode(block)[j][i]} ::
      AllOfSize(block, c.k, c.size) && 0 <= j < |c.encode(block)| && 0 <= i < |c.encode(block)[j]| &&
      GroupZero(block, i / g * g, g) ==>
        c.encode(block)[j][i] == 0
  }

  ghost predicate GroupZero(block: seq<Shard>, from: nat, g: nat) {
    forall a, i :: 0 <= a < |block| && from <= i < from + g && i < |block[a]| ==> block[a][i] == 0
  }
}
