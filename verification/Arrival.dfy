/** Which places of one block arrived, in which order, and what that order means for the receiver. */
module Arrival {
  import opened Erasure
  import opened Stream

  /** No place arrives twice. */
  ghost predicate Distinct(a: seq<nat>) {
    forall i, j :: 0 <= i < j < |a| ==> a[i] != a[j]
  }

  /** Loss only: places arrive in the order they were sent. */
  ghost predicate Increasing(a: seq<nat>) {
    forall i, j :: 0 <= i < j < |a| ==> a[i] < a[j]
  }

  /** How many of the k originals arrived. */
  function Count(k: nat, a: seq<nat>): (n: nat)
    ensures n <= |a|
  {
    if a == [] then 0 else Count(k, a[..|a| - 1]) + if a[|a| - 1] < k then 1 else 0
  }

  /** The originals that arrived, as a set. */
  function OriginalSet(k: nat, a: seq<nat>): (s: set<nat>)
  {
    if a == [] then {} else OriginalSet(k, a[..|a| - 1]) + if a[|a| - 1] < k then {a[|a| - 1]} else {}
  }

  /** The recovery shards that arrived, by recovery index. */
  function RecoverySet(k: nat, a: seq<nat>): (s: set<nat>)
  {
    if a == [] then {} else RecoverySet(k, a[..|a| - 1]) + if a[|a| - 1] < k then {} else {a[|a| - 1] - k}
  }

  /** The originals that arrived, in order of arrival. */
  function Originals(k: nat, a: seq<nat>): (s: seq<nat>)
    ensures |s| == Count(k, a)
  {
    if a == [] then []
    else Originals(k, a[..|a| - 1]) + if a[|a| - 1] < k then [a[|a| - 1]] else []
  }

  function Elements(a: seq<nat>): (s: set<nat>) {
    set o | o in a
  }

  /** The first place below k that is not in s, or k: the length of the gap-free prefix. */
  function Gap(k: nat, s: set<nat>): (p: nat)
    ensures p <= k
    ensures forall f :: 0 <= f < p ==> f in s
    ensures p < k ==> p !in s
  {
    if k == 0 then 0
    else if Gap(k - 1, s) == k - 1 && k - 1 in s then k
    else Gap(k - 1, s)
  }

  /** The last original that arrived; p, the one remembered from before the block, if none did. */
  function Last(k: nat, p: nat, a: seq<nat>): (f: nat)
    ensures p < k ==> f < k
  {
    if a == [] then p
    else if a[|a| - 1] < k then a[|a| - 1]
    else Last(k, p, a[..|a| - 1])
  }

  /**
   The originals that are handed on as they arrive: from the one after p on, counting modulo k, up to the first
   original that is not the next.
   */
  function InTurn(k: nat, p: nat, a: seq<nat>): (t: seq<nat>)
    requires p < k
    ensures |t| <= Count(k, a) && |t| <= k
    ensures forall i :: 0 <= i < |t| ==> t[i] < k
  {
    if a == [] then []
    else
      var front, o := a[..|a| - 1], a[|a| - 1];
      var t := InTurn(k, p, front);
      if o < k && |t| == Count(k, front) < k && o == Expected(k, Last(k, p, front)) then t + [o] else t
  }

  /** What a block entered after fragment k - 1 gives the decoder once it has been left, counted from its start. */
  function Yield(k: nat, a: seq<nat>): (n: nat)
    requires k > 0
  {
    if Count(k, a) < k <= |a| then k else |InTurn(k, k - 1, a)|
  }

  lemma {:induction false} OneMore(k: nat, a: seq<nat>, o: nat)
    ensures Count(k, a + [o]) == Count(k, a) + if o < k then 1 else 0
    ensures OriginalSet(k, a + [o]) == OriginalSet(k, a) + if o < k then {o} else {}
    ensures RecoverySet(k, a + [o]) == RecoverySet(k, a) + if o < k then {} else {o - k}
    ensures Originals(k, a + [o]) == Originals(k, a) + if o < k then [o] else []
    ensures o in a + [o] && forall f :: f in a + [o] <==> f in a || f == o
  {
    assert (a + [o])[..|a|] == a;
  }

  lemma {:induction false} OneMoreInTurn(k: nat, p: nat, a: seq<nat>, o: nat)
    requires p < k
    ensures Last(k, p, a + [o]) == if o < k then o else Last(k, p, a)
    ensures InTurn(k, p, a + [o]) ==
      if o < k && |InTurn(k, p, a)| == Count(k, a) < k && o == Expected(k, Last(k, p, a)) then InTurn(k, p, a) + [o]
      else InTurn(k, p, a)
  {
    assert (a + [o])[..|a|] == a;
  }

  lemma {:induction false} OneMoreRecovery(k: nat, p: nat, a: seq<nat>, j: nat)
    requires p < k
    ensures Count(k, a + [k + j]) == Count(k, a)
    ensures OriginalSet(k, a + [k + j]) == OriginalSet(k, a)
    ensures RecoverySet(k, a + [k + j]) == RecoverySet(k, a) + {j}
    ensures InTurn(k, p, a + [k + j]) == InTurn(k, p, a)
    ensures Last(k, p, a + [k + j]) == Last(k, p, a)
  {
    OneMore(k, a, k + j);
    OneMoreInTurn(k, p, a, k + j);
    assert k + j - k == j;
  }

  lemma {:induction false} OneMoreOriginal(k: nat, p: nat, a: seq<nat>, f: nat)
    requires f < k && p < k
    ensures Count(k, a + [f]) == Count(k, a) + 1
    ensures OriginalSet(k, a + [f]) == OriginalSet(k, a) + {f}
    ensures RecoverySet(k, a + [f]) == RecoverySet(k, a)
    ensures InTurn(k, p, a + [f]) ==
      if |InTurn(k, p, a)| == Count(k, a) < k && f == Expected(k, Last(k, p, a)) then InTurn(k, p, a) + [f]
      else InTurn(k, p, a)
    ensures Last(k, p, a + [f]) == f
  {
    OneMore(k, a, f);
    OneMoreInTurn(k, p, a, f);
  }

  lemma {:induction false} ElementsSize(a: seq<nat>)
    requires Distinct(a)
    ensures |Elements(a)| == |a|
  {
    if a != [] {
      var front, o := a[..|a| - 1], a[|a| - 1];
      FrontDistinct(a);
      ElementsSize(front);
      assert a == front + [o];
      assert Elements(a) == Elements(front) + {o};
    }
  }

  lemma {:induction false} FrontDistinct(a: seq<nat>)
    requires a != [] && Distinct(a)
    ensures Distinct(a[..|a| - 1]) && a[|a| - 1] !in a[..|a| - 1]
  {
  }

  /** The i-th fragment in turn after p. */
  function Nth(k: nat, p: nat, i: nat): (n: nat)
    requires p < k && i < k
  {
    if p + 1 + i < k then p + 1 + i else p + 1 + i - k
  }

  /** What is handed on at once are the first originals to arrive. */
  lemma {:induction false} InTurnFirst(k: nat, p: nat, a: seq<nat>)
    requires p < k
    ensures InTurn(k, p, a) == Originals(k, a)[..|InTurn(k, p, a)|]
    ensures Count(k, a) > 0 ==> (InTurn(k, p, a) == [] <==> Originals(k, a)[0] != Expected(k, p))
    ensures Last(k, p, a) == if Count(k, a) == 0 then p else Originals(k, a)[Count(k, a) - 1]
  {
    if a != [] {
      InTurnFirst(k, p, a[..|a| - 1]);
    }
  }

  /** And they are those in turn after p. */
  lemma {:induction false} InTurnNth(k: nat, p: nat, a: seq<nat>)
    requires p < k
    ensures forall i :: 0 <= i < |InTurn(k, p, a)| ==> InTurn(k, p, a)[i] == Nth(k, p, i)
    ensures |InTurn(k, p, a)| == Count(k, a) ==>
      Last(k, p, a) == if Count(k, a) == 0 then p else Nth(k, p, Count(k, a) - 1)
  {
    if a != [] {
      InTurnNth(k, p, a[..|a| - 1]);
    }
  }

  lemma {:induction false} InTurnArrived(k: nat, p: nat, a: seq<nat>, i: nat)
    requires p < k && i < |InTurn(k, p, a)|
    ensures InTurn(k, p, a)[i] in OriginalSet(k, a)
  {
    if i < |InTurn(k, p, a[..|a| - 1])| {
      InTurnArrived(k, p, a[..|a| - 1], i);
    }
  }

  /** After fragment k - 1, the packets in turn are 0, 1, 2, ... */
  lemma {:induction false} InOrderPrefix(k: nat, a: seq<nat>)
    requires k > 0
    ensures InTurn(k, k - 1, a) == seq(|InTurn(k, k - 1, a)|, f => f)
    ensures forall f :: 0 <= f < |InTurn(k, k - 1, a)| ==> f in a
    ensures |InTurn(k, k - 1, a)| == Count(k, a) ==> forall f :: f in a && f < k ==> f < |InTurn(k, k - 1, a)|
    ensures |InTurn(k, k - 1, a)| == Count(k, a) > 0 ==> Last(k, k - 1, a) == |InTurn(k, k - 1, a)| - 1
    ensures Count(k, a) == 0 ==> Last(k, k - 1, a) == k - 1
  {
    if a != [] {
      var front := a[..|a| - 1];
      InOrderPrefix(k, front);
      assert a == front + [a[|a| - 1]];
    }
  }

  lemma {:induction false} OriginalSetOf(k: nat, a: seq<nat>)
    ensures forall f :: f in OriginalSet(k, a) <==> f in a && f < k
  {
    if a != [] {
      OriginalSetOf(k, a[..|a| - 1]);
      assert a == a[..|a| - 1] + [a[|a| - 1]];
    }
  }

  lemma {:induction false} RecoverySetOf(k: nat, a: seq<nat>, j: nat)
    ensures j in RecoverySet(k, a) <==> k + j in a
  {
    if a != [] {
      RecoverySetOf(k, a[..|a| - 1], j);
      assert a == a[..|a| - 1] + [a[|a| - 1]];
    }
  }

  ghost predicate SizesAreCounts(k: nat, a: seq<nat>) {
    |OriginalSet(k, a)| == Count(k, a) && |RecoverySet(k, a)| == |a| - Count(k, a)
  }

  lemma {:induction false} SizesOneMore(k: nat, a: seq<nat>, o: nat)
    requires SizesAreCounts(k, a) && o !in a
    ensures SizesAreCounts(k, a + [o])
  {
    hide OriginalSet, RecoverySet, Count;
    OneMore(k, a, o);
    if o < k {
      OriginalSetOf(k, a);
    } else {
      RecoverySetOf(k, a, o - k);
    }
  }

  /** Distinct places make distinct originals and recovery shards. */
  lemma {:induction false} SetSizes(k: nat, a: seq<nat>)
    requires Distinct(a)
    ensures |OriginalSet(k, a)| == Count(k, a)
    ensures |RecoverySet(k, a)| == |a| - Count(k, a)
  {
    if a != [] {
      hide OriginalSet, RecoverySet, Count, Distinct;
      FrontDistinct(a);
      SetSizes(k, a[..|a| - 1]);
      SizesOneMore(k, a[..|a| - 1], a[|a| - 1]);
      assert a == a[..|a| - 1] + [a[|a| - 1]];
    }
  }

  lemma {:induction false} CountAtMost(k: nat, a: seq<nat>)
    requires Distinct(a)
    ensures Count(k, a) <= k
    ensures Count(k, a) == k ==> forall f :: 0 <= f < k ==> f in a
  {
    OriginalSetOf(k, a);
    SetSizes(k, a);
    SubsetSize(OriginalSet(k, a), Indices(k));
  }

  ghost predicate Below(a: seq<nat>, o: nat) {
    forall f :: f in a ==> f < o
  }

  lemma {:induction false} IncreasingFront(a: seq<nat>)
    requires a != [] && Increasing(a)
    ensures Increasing(a[..|a| - 1]) && Below(a[..|a| - 1], a[|a| - 1])
  {
  }

  /** What came in order is the gap-free prefix. */
  ghost predicate InOrderIsGap(k: nat, a: seq<nat>)
    requires k > 0
  {
    |InTurn(k, k - 1, a)| == Gap(k, Elements(a))
  }

  lemma {:induction false} InOrderIsGapOneMore(k: nat, a: seq<nat>, o: nat)
    requires k > 0 && InOrderIsGap(k, a) && Increasing(a) && Below(a, o)
    ensures InOrderIsGap(k, a + [o])
  {
    hide InTurn, Count, Last, Increasing, Originals, OriginalSet, RecoverySet, Gap;
    OneMore(k, a, o);
    OneMoreInTurn(k, k - 1, a, o);
    InOrderPrefix(k, a);
    InOrderPrefix(k, a + [o]);
    var n := |InTurn(k, k - 1, a + [o])|;
    assert n < k ==> n !in a + [o] by {
      GapIs(k, Elements(a));
      if n == o < k {
        BelowAll(k, a, o);
      }
    }
    GapUnique(k, Elements(a + [o]), n);
  }

  lemma {:induction false} GapIs(k: nat, s: set<nat>)
    ensures Gap(k, s) < k ==> Gap(k, s) !in s
  {
  }

  /** Without reordering, what came in order is the gap-free prefix. */
  lemma {:induction false} IncreasingInOrder(k: nat, a: seq<nat>)
    requires Increasing(a) && k > 0
    ensures |InTurn(k, k - 1, a)| == Gap(k, Elements(a))
  {
    if a == [] {
      GapUnique(k, Elements(a), 0);
    } else {
      hide InTurn, Gap, Increasing;
      IncreasingFront(a);
      IncreasingInOrder(k, a[..|a| - 1]);
      InOrderIsGapOneMore(k, a[..|a| - 1], a[|a| - 1]);
      assert a == a[..|a| - 1] + [a[|a| - 1]];
    }
  }

  /** The last original is the highest. */
  ghost predicate LastIsHighest(k: nat, p: nat, a: seq<nat>) {
    if Count(k, a) == 0 then Last(k, p, a) == p && forall f :: f in a ==> k <= f
    else Last(k, p, a) in a && Last(k, p, a) < k && forall f :: f in a && f < k ==> f <= Last(k, p, a)
  }

  lemma {:induction false} LastIsHighestOneMore(k: nat, p: nat, a: seq<nat>, o: nat)
    requires p < k && LastIsHighest(k, p, a) && Below(a, o)
    ensures LastIsHighest(k, p, a + [o])
  {
    hide Count, Last, InTurn;
    OneMore(k, a, o);
    OneMoreInTurn(k, p, a, o);
  }

  /** Without reordering. */
  lemma {:induction false} IncreasingLast(k: nat, p: nat, a: seq<nat>)
    requires Increasing(a) && p < k
    ensures LastIsHighest(k, p, a)
  {
    if a != [] {
      hide LastIsHighest, Increasing, Below;
      IncreasingFront(a);
      IncreasingLast(k, p, a[..|a| - 1]);
      LastIsHighestOneMore(k, p, a[..|a| - 1], a[|a| - 1]);
      assert a == a[..|a| - 1] + [a[|a| - 1]];
    }
  }

  lemma {:induction false} GapUnique(k: nat, s: set<nat>, p: nat)
    requires p <= k
    requires forall f :: 0 <= f < p ==> f in s
    requires p < k ==> p !in s
    ensures Gap(k, s) == p
  {
  }

  /** If everything below o came, and nothing at or above it, then it all came in order. */
  lemma {:induction false} BelowAll(k: nat, a: seq<nat>, o: nat)
    requires Increasing(a) && o < k
    requires |InTurn(k, k - 1, a)| == o
    requires Below(a, o)
    ensures Count(k, a) == o
    ensures Expected(k, Last(k, k - 1, a)) == o
  {
    OriginalSetOf(k, a);
    SetSizes(k, a);
    InOrderPrefix(k, a);
    assert OriginalSet(k, a) == Indices(o);
  }

  /** A block that leaves the tracker of the previous fragment where the next block needs it. */
  ghost predicate Steady(k: nat, p: nat, a: seq<nat>) {
    Count(k, a) == k ==> Last(k, p, a) == k - 1
  }

  lemma {:induction false} IncreasingSteady(k: nat, p: nat, a: seq<nat>)
    requires Increasing(a) && p < k
    ensures Steady(k, p, a)
  {
    IncreasingLast(k, p, a);
    CountAtMost(k, a);
    assert Count(k, a) == k ==> k - 1 in a;
  }

  /** Without reordering: the whole block if k of its datagrams arrived, otherwise its gap-free prefix. */
  lemma {:induction false} IncreasingYield(k: nat, a: seq<nat>)
    requires Increasing(a) && k > 0
    ensures Yield(k, a) == if |a| >= k then k else Gap(k, Elements(a))
  {
    IncreasingInOrder(k, a);
    CountAtMost(k, a);
  }

  // ---- What a block gives the decoder, whatever fragment came before it ---------------------------

  /** Something handed on while in a block or on leaving it: one of its own packets, or what an old queue slot holds. */
  datatype Piece = Own(fragment: nat) | Old(slot: nat)

  function Owns(t: seq<nat>): (s: seq<Piece>)
    ensures |s| == |t|
  {
    seq(|t|, i requires 0 <= i < |t| => Own(t[i]))
  }

  /** The queue from slot |t| on, when t was handed on at once and the rest of the block put in its slots. */
  function Rest(k: nat, t: seq<nat>): (s: seq<Piece>)
    requires |t| <= k
    ensures |s| == k - |t|
  {
    seq(k - |t|, i requires 0 <= i => if |t| + i in t then Old(|t| + i) else Own(|t| + i))
  }

  /** What a block entered after fragment p gives once it is left: what came in turn, and if it is restored the rest. */
  function Yields(k: nat, p: nat, a: seq<nat>): (s: seq<Piece>)
    requires p < k
  {
    var t := InTurn(k, p, a);
    if Count(k, a) < k <= |a| then Owns(t) + Rest(k, t) else Owns(t)
  }

  /** The fragment remembered as the previous one after the block. */
  function TrackerAfter(k: nat, p: nat, a: seq<nat>): (q: nat)
    requires p < k
    ensures q < k
  {
    if Count(k, a) < k then k - 1 else Last(k, p, a)
  }

  /** An element handed on at once whose slot is among the rest lies after p. */
  lemma {:induction false} OldAfterTracker(k: nat, p: nat, a: seq<nat>, j: nat)
    requires p < k && j in InTurn(k, p, a) && |InTurn(k, p, a)| <= j
    ensures p < j
  {
    InTurnNth(k, p, a);
    var i :| 0 <= i < |InTurn(k, p, a)| && InTurn(k, p, a)[i] == j;
  }

  lemma {:induction false} OriginalsArrived(k: nat, a: seq<nat>)
    ensures forall f :: f in Originals(k, a) ==> f in a
  {
    if a != [] {
      OriginalsArrived(k, a[..|a| - 1]);
      OneMore(k, a[..|a| - 1], a[|a| - 1]);
      assert a == a[..|a| - 1] + [a[|a| - 1]];
    }
  }

  lemma {:induction false} OriginalsDistinct(k: nat, a: seq<nat>)
    requires Distinct(a)
    ensures Distinct(Originals(k, a))
  {
    if a != [] {
      FrontDistinct(a);
      OriginalsDistinct(k, a[..|a| - 1]);
      OriginalsArrived(k, a[..|a| - 1]);
    }
  }

  /** All below a fragment that wrapped round to the start came in turn as well. */
  lemma {:induction false} WrappedBelow(k: nat, p: nat, a: seq<nat>, j: nat, l: nat)
    requires p < k && j in InTurn(k, p, a) && j <= p && l <= j
    ensures l in InTurn(k, p, a)
  {
    InTurnNth(k, p, a);
    var t := InTurn(k, p, a);
    var i :| 0 <= i < |t| && t[i] == j;
    assert i == j + k - p - 1;
    assert t[l + k - p - 1] == l;
  }

  lemma {:induction false} LastNotInTurn(k: nat, p: nat, a: seq<nat>)
    requires p < k && Distinct(a) && |InTurn(k, p, a)| < Count(k, a)
    ensures Last(k, p, a) !in InTurn(k, p, a)
  {
    InTurnFirst(k, p, a);
    OriginalsDistinct(k, a);
    var s, t := Originals(k, a), InTurn(k, p, a);
    forall i | 0 <= i < |t| ensures t[i] != s[|s| - 1] {
      assert t[i] == s[i];
    }
  }

  /** In a complete block, what was handed on at once and lies after the last to arrive lies after p, too. */
  lemma {:induction false} OldAfterLast(k: nat, p: nat, a: seq<nat>, j: nat)
    requires p < k && Distinct(a) && Count(k, a) == k && j in InTurn(k, p, a) && Last(k, p, a) < j
    ensures p < j
  {
    InTurnNth(k, p, a);
    if |InTurn(k, p, a)| < k {
      LastNotInTurn(k, p, a);
      if j <= p {
        WrappedBelow(k, p, a, j, Last(k, p, a));
      }
    }
  }
}
