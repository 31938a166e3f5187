/** The order of the datagrams on the wire, and what each packet adds to it. */
module Schedule {
  import opened Arith
  import opened Bytes
  import opened Erasure
  import opened Stream

  function RecoverySlots(k: nat, r: nat, m: nat): (s: seq<Slot>)
    ensures |s| == r
  {
    seq(r, j requires 0 <= j => Slot(m, k + j))
  }

  /**
   What goes out with the packet that comes f-th in block m: the packet itself, and ahead of the first
   packet of a block the recovery datagrams of the block before.
   */
  function SlotsWith(k: nat, r: nat, m: nat, f: nat): (s: seq<Slot>) {
    (if f == 0 && m > 0 then RecoverySlots(k, r, m - 1) else []) + [Slot(m, f)]
  }

  /** The slots on the wire after n packets. */
  function Slots(k: nat, r: nat, n: nat): (slots: seq<Slot>)
    requires k > 0
  {
    if n == 0 then [] else Slots(k, r, n - 1) + SlotsWith(k, r, (n - 1) / k, (n - 1) % k)
  }

  /** Where the wire stands after m whole blocks and f more packets; the last block's recovery is not out at f == 0. */
  function WireLength(k: nat, r: nat, m: nat, f: nat): (n: nat) {
    if f > 0 then m * (k + r) + f else if m > 0 then (m - 1) * (k + r) + k else 0
  }

  /** The i-th datagram on the wire, in closed form. */
  function SlotAt(w: nat, i: nat): (s: Slot)
    requires w > 0
  {
    Slot(i / w, i % w)
  }

  ghost predicate InClosedForm(w: nat, slots: seq<Slot>)
    requires w > 0
  {
    forall i :: 0 <= i < |slots| ==> slots[i] == SlotAt(w, i)
  }

  lemma {:induction false} PlaceOf(w: nat, m: nat, o: nat)
    requires o < w
    ensures SlotAt(w, m * w + o) == Slot(m, o)
  {
    DivUnique(m * w + o, w, m, o);
  }

  lemma {:induction false} OneMoreInForm(w: nat, slots: seq<Slot>, m: nat, o: nat)
    requires o < w && InClosedForm(w, slots) && |slots| == m * w + o
    ensures InClosedForm(w, slots + [Slot(m, o)])
  {
    PlaceOf(w, m, o);
  }

  lemma {:induction false} RecoveryInForm(k: nat, r: nat, slots: seq<Slot>, m: nat)
    requires r > 0 && InClosedForm(k + r, slots) && |slots| == m * (k + r) + k
    ensures InClosedForm(k + r, slots + RecoverySlots(k, r, m))
  {
    var all := slots + RecoverySlots(k, r, m);
    forall i | |slots| <= i < |all| ensures all[i] == SlotAt(k + r, i) {
      PlaceOf(k + r, m, k + (i - |slots|));
    }
  }

  lemma {:induction false} StepInForm(k: nat, r: nat, slots: seq<Slot>, m: nat, f: nat)
    requires k > 0 && r > 0 && f < k
    requires InClosedForm(k + r, slots) && |slots| == WireLength(k, r, m, f)
    ensures InClosedForm(k + r, slots + SlotsWith(k, r, m, f))
    ensures |slots + SlotsWith(k, r, m, f)| == m * (k + r) + f + 1
  {
    var w := k + r;
    if f == 0 && m > 0 {
      RecoveryInForm(k, r, slots, m - 1);
      var more := slots + RecoverySlots(k, r, m - 1);
      assert m * w == (m - 1) * w + w;
      OneMoreInForm(w, more, m, 0);
      assert slots + SlotsWith(k, r, m, f) == more + [Slot(m, 0)];
    } else {
      assert m * w + f == |slots|;
      OneMoreInForm(w, slots, m, f);
      assert SlotsWith(k, r, m, f) == [Slot(m, f)];
    }
  }

  /** The wire is in closed form and stands after m whole blocks and f packets. */
  ghost predicate Stands(k: nat, r: nat, slots: seq<Slot>, m: nat, f: nat)
    requires k > 0
  {
    InClosedForm(k + r, slots) && |slots| == WireLength(k, r, m, f)
  }

  lemma {:induction false} StandsNext(k: nat, r: nat, slots: seq<Slot>, m: nat, f: nat)
    requires k > 0 && r > 0 && f < k && Stands(k, r, slots, m, f)
    ensures if f + 1 < k then Stands(k, r, slots + SlotsWith(k, r, m, f), m, f + 1)
            else Stands(k, r, slots + SlotsWith(k, r, m, f), m + 1, 0)
  {
    hide InClosedForm, SlotsWith;
    StepInForm(k, r, slots, m, f);
  }

  lemma {:induction false} SlotsNext(k: nat, r: nat, m: nat, f: nat, n: nat)
    requires f < k && n == m * k + f
    ensures Slots(k, r, n + 1) == Slots(k, r, n) + SlotsWith(k, r, m, f)
  {
    DivUnique(n, k, m, f);
  }

  lemma {:induction false} StandsAfter(k: nat, r: nat, m: nat, f: nat, n: nat)
    requires f < k && r > 0 && n == m * k + f
    ensures Stands(k, r, Slots(k, r, n), m, f)
  {
    hide Stands, SlotsWith, Slots, SlotAt;
    if f > 0 {
      StandsAfter(k, r, m, f - 1, n - 1);
      SlotsNext(k, r, m, f - 1, n - 1);
      StandsNext(k, r, Slots(k, r, n - 1), m, f - 1);
    } else if m > 0 {
      assert n - 1 == (m - 1) * k + (k - 1);
      StandsAfter(k, r, m - 1, k - 1, n - 1);
      SlotsNext(k, r, m - 1, k - 1, n - 1);
      StandsNext(k, r, Slots(k, r, n - 1), m - 1, k - 1);
    } else {
      NothingStands(k, r);
    }
  }

  lemma {:induction false} NothingStands(k: nat, r: nat)
    requires k > 0
    ensures Stands(k, r, Slots(k, r, 0), 0, 0)
  {
  }

  /**
   The schedule in closed form: block by block, k packets and then r recovery datagrams, so that the i-th datagram
   is at place i % (k + r) of block i / (k + r). The recovery datagrams of the last block wait for the next packet.
   */
  lemma {:induction false} ClosedForm(k: nat, r: nat, n: nat)
    requires k > 0 && r > 0
    ensures InClosedForm(k + r, Slots(k, r, n))
    ensures |Slots(k, r, n)| == WireLength(k, r, n / k, n % k)
  {
    assert n == n / k * k + n % k;
    StandsAfter(k, r, n / k, n % k, n);
  }

  lemma {:induction false} LaterIsAfter(w: nat, i: nat, j: nat)
    requires w > 0 && i < j
    ensures Before(SlotAt(w, i), SlotAt(w, j))
  {
    var m, n := i / w, j / w;
    assert i == m * w + i % w && j == n * w + j % w;
    if n < m {
      MulGap(n, m, w);
    }
  }

  /** No slot is ever used twice, and later datagrams have later slots. */
  lemma {:induction false} ScheduleInOrder(k: nat, r: nat, n: nat)
    requires k > 0 && r > 0
    ensures LossOnly(Slots(k, r, n))
  {
    ClosedForm(k, r, n);
    var slots := Slots(k, r, n);
    forall i, j | 0 <= i < j < |slots| ensures Before(slots[i], slots[j]) {
      LaterIsAfter(k + r, i, j);
    }
  }

  // ---- How the stream grows ----------------------------------------------------------------------

  /** Appending a packet to m whole blocks and f packets puts it at place f of block m and touches no other block. */
  lemma {:induction false} BlockGrows(k: nat, pkts: seq<Packet>, p: Packet, m: nat, f: nat, j: nat)
    requires f < k && |pkts| == m * k + f
    ensures |Block(k, pkts, m)| == f && Block(k, pkts + [p], m) == Block(k, pkts, m) + [p]
    ensures j != m ==> Block(k, pkts + [p], j) == Block(k, pkts, j)
    ensures j < m ==> |Block(k, pkts, j)| == k
    decreases m
  {
    if m == 0 {
      if j > 0 && |pkts| + 1 == k {
        NoBlocks(k, j - 1);
        assert (pkts + [p])[k..] == [];
      }
    } else {
      assert m * k == (m - 1) * k + k;
      assert (pkts + [p])[k..] == pkts[k..] + [p];
      BlockGrows(k, pkts[k..], p, m - 1, f, if j > 0 then j - 1 else m);
      assert (pkts + [p])[..k] == pkts[..k];
    }
  }

  lemma {:induction false} NoBlocks(k: nat, j: nat)
    requires k > 0
    ensures Block(k, [], j) == []
  {
  }

  lemma {:induction false} GoodBlockFits(env: Env, pkts: seq<Packet>, m: nat)
    requires AllFit(env, pkts)
    ensures AllFit(env, Block(env.k, pkts, m))
    decreases m
  {
    if m > 0 && env.k <= |pkts| {
      GoodBlockFits(env, pkts[env.k..], m - 1);
    }
  }

  /** A datagram of a block is a datagram of the block grown by a packet. */
  lemma {:induction false} DatagramStays(env: Env, blk: seq<Packet>, p: Packet, s: Slot, data: seq<byte>)
    requires env.Built() && Shapes(env.code) && env.Fits(p) && |blk| < env.k
    requires IsDatagram(env, blk, s, data)
    ensures IsDatagram(env, blk + [p], s, data)
  {
    hide Header.Encoded, Largest, Shards;
    var time :| data == Datagram(env, blk, s.block, s.place, time);
    assert AllFit(env, blk + [p]);
    assert data == Datagram(env, blk + [p], s.block, s.place, time);
  }

  /** The wire: the bytes in order, each the datagram of its slot. */
  ghost predicate IsWire(env: Env, pkts: seq<Packet>, slots: seq<Slot>, wire: seq<seq<byte>>)
    requires env.Built() && Shapes(env.code)
  {
    && |wire| == |slots|
    && forall i :: 0 <= i < |slots| ==> IsDatagram(env, Block(env.k, pkts, slots[i].block), slots[i], wire[i])
  }

  lemma {:induction false} WireStays(
    env: Env, pkts: seq<Packet>, p: Packet, slots: seq<Slot>, wire: seq<seq<byte>>, m: nat, f: nat)
    requires env.Built() && Shapes(env.code) && env.Fits(p)
    requires f < env.k && |pkts| == m * env.k + f
    requires IsWire(env, pkts, slots, wire)
    ensures IsWire(env, pkts + [p], slots, wire)
  {
    forall i | 0 <= i < |slots|
      ensures IsDatagram(env, Block(env.k, pkts + [p], slots[i].block), slots[i], wire[i])
    {
      var blk := Block(env.k, pkts, slots[i].block);
      assert IsDatagram(env, blk, slots[i], wire[i]);
      BlockGrows(env.k, pkts, p, m, f, slots[i].block);
      if slots[i].block == m {
        DatagramStays(env, blk, p, slots[i], wire[i]);
      }
    }
  }
}
