/** Depacketizing and decoding: `depacketize_decode` of client/src/decoder/video.rs. */
module Video {
  import opened Bytes
  import opened Stream

  /**
   The decoder's state: the depacketizer's saved fragment, the bytes gathered for the next decoder input,
   the inputs the H.264 decoder has been given, and the packets handed in, all oldest first.
   */
  datatype Player = Player(fragment: seq<byte>, buffer: seq<byte>, inputs: seq<seq<byte>>, handed: seq<Packet>)

  const NEW_PLAYER := Player([], [], [], [])

  /** A call that returns Ok, or the error that ends the caller's loop. */
  datatype Played = Played(player: Player) | Broken(player: Player)

  /** A packet that opens a partition sends the gathered bytes, if any, to the decoder and empties the buffer. */
  function Flushed(env: Env, v: Player, p: Packet): (next: Player) {
    if !env.isPartitionHead(p.payload) then v
    else v.(inputs := if v.buffer == [] then v.inputs else v.inputs + [v.buffer], buffer := [])
  }

  function Hand(env: Env, v: Player, p: Packet): (next: Played) {
    var v1 := Flushed(env, v, p).(handed := v.handed + [p]);
    match env.depacketize(v.fragment, p.payload)
    case None => Broken(v1)
    case Some((fragment, out)) => Played(v1.(fragment := fragment, buffer := v1.buffer + out))
  }

  /** Packets handed in one after the other, up to the first error. */
  function HandAll(env: Env, v: Player, ps: seq<Packet>): (next: Played) {
    if ps == [] then Played(v)
    else
      match HandAll(env, v, ps[..|ps| - 1])
      case Broken(v1) => Broken(v1)
      case Played(v1) => Hand(env, v1, ps[|ps| - 1])
  }

  lemma {:induction false} HandOneMore(env: Env, v: Player, ps: seq<Packet>, p: Packet)
    requires HandAll(env, v, ps).Played?
    ensures HandAll(env, v, ps + [p]) == Hand(env, HandAll(env, v, ps).player, p)
  {
    assert (ps + [p])[..|ps|] == ps;
  }

  lemma {:induction false} HandConcat(env: Env, v: Player, ps: seq<Packet>, qs: seq<Packet>)
    requires HandAll(env, v, ps).Played?
    ensures HandAll(env, v, ps + qs) == HandAll(env, HandAll(env, v, ps).player, qs)
  {
    if qs == [] {
      assert ps + qs == ps;
    } else {
      HandConcat(env, v, ps, qs[..|qs| - 1]);
      assert (ps + qs)[..|ps + qs| - 1] == ps + qs[..|qs| - 1];
    }
  }

  /** Hypothesis: the H.264 depacketizer accepts the payload of this packet whatever came before. */
  ghost predicate Depacketizes(env: Env, p: Packet) {
    forall fragment :: env.depacketize(fragment, p.payload).Some?
  }

  lemma {:induction false} HandAllPlays(env: Env, v: Player, ps: seq<Packet>)
    requires forall i :: 0 <= i < |ps| ==> Depacketizes(env, ps[i])
    ensures HandAll(env, v, ps).Played?
    ensures HandAll(env, v, ps).player.handed == v.handed + ps
  {
    if ps != [] {
      HandAllPlays(env, v, ps[..|ps| - 1]);
      assert ps == ps[..|ps| - 1] + [ps[|ps| - 1]];
      assert Depacketizes(env, ps[|ps| - 1]);
    }
  }

  /** The packets handed in are logged. */
  lemma {:induction false} HandedLog(env: Env, v: Player, ps: seq<Packet>)
    requires HandAll(env, v, ps).Played?
    ensures HandAll(env, v, ps).player.handed == v.handed + ps
  {
    if ps != [] {
      HandedLog(env, v, ps[..|ps| - 1]);
      assert ps == ps[..|ps| - 1] + [ps[|ps| - 1]];
    }
  }

  // ---- What the H.264 decoder is given -------------------------------------------------------

  function Flat(parts: seq<seq<byte>>): (s: seq<byte>) {
    if parts == [] then [] else Flat(parts[..|parts| - 1]) + parts[|parts| - 1]
  }

  lemma {:induction false} FlatOneMore(parts: seq<seq<byte>>, part: seq<byte>)
    ensures Flat(parts + [part]) == Flat(parts) + part
  {
    assert (parts + [part])[..|parts|] == parts;
  }

  /** What the depacketizer alone puts out for a run of packets: its saved fragment and the pieces, one a packet. */
  function Depacketized(env: Env, ps: seq<Packet>): (r: Option<(seq<byte>, seq<seq<byte>>)>)
    ensures r.Some? ==> |r.value.1| == |ps|
  {
    if ps == [] then Some(([], []))
    else
      match Depacketized(env, ps[..|ps| - 1])
      case None => None
      case Some((fragment, outs)) =>
        match env.depacketize(fragment, ps[|ps| - 1].payload)
        case None => None
        case Some((next, out)) => Some((next, outs + [out]))
  }

  /** A point of the stream where the packet with index c starts. */
  ghost predicate StartsAt(outs: seq<seq<byte>>, c: nat, position: seq<byte>) {
    c <= |outs| && Flat(outs[..c]) == position
  }

  /** The end of decoder input i is where some partition head starts. */
  ghost predicate EndsAtHead(env: Env, ps: seq<Packet>, outs: seq<seq<byte>>, inputs: seq<seq<byte>>, i: nat)
    requires i < |inputs|
  {
    exists c :: 0 <= c < |ps| && env.isPartitionHead(ps[c].payload) && StartsAt(outs, c, Flat(inputs[..i + 1]))
  }

  /** Everything before partition head c has gone to the decoder, as whole inputs. */
  ghost predicate CutBefore(outs: seq<seq<byte>>, inputs: seq<seq<byte>>, c: nat) {
    exists n :: 0 <= n <= |inputs| && StartsAt(outs, c, Flat(inputs[..n]))
  }

  /**
   The decoder inputs and the bytes still waiting make up the depacketized stream: nothing lost, added or
   reordered; no input is empty; inputs end only where partition heads start, and one does at every head.
   */
  ghost predicate Reassembled(env: Env, ps: seq<Packet>, outs: seq<seq<byte>>, v: Player)
    requires |outs| == |ps|
  {
    && Flat(v.inputs) + v.buffer == Flat(outs)
    && (forall i :: 0 <= i < |v.inputs| ==> v.inputs[i] != [])
    && (forall i :: 0 <= i < |v.inputs| ==> EndsAtHead(env, ps, outs, v.inputs, i))
    && (forall c :: 0 <= c < |ps| && env.isPartitionHead(ps[c].payload) ==> CutBefore(outs, v.inputs, c))
  }

  lemma {:induction false} FlushKeepsBytes(env: Env, v: Player, p: Packet)
    ensures Flat(Flushed(env, v, p).inputs) + Flushed(env, v, p).buffer == Flat(v.inputs) + v.buffer
    ensures env.isPartitionHead(p.payload) ==> Flat(Flushed(env, v, p).inputs) == Flat(v.inputs) + v.buffer
  {
    FlatOneMore(v.inputs, v.buffer);
  }

  /** Positions of the old stream are positions of the longer one. */
  lemma {:induction false} StillStarts(outs: seq<seq<byte>>, out: seq<byte>, c: nat, position: seq<byte>)
    requires StartsAt(outs, c, position)
    ensures StartsAt(outs + [out], c, position)
  {
    assert (outs + [out])[..c] == outs[..c];
  }

  lemma {:induction false} AllStartsAtEnd(outs: seq<seq<byte>>, out: seq<byte>)
    ensures StartsAt(outs + [out], |outs|, Flat(outs))
  {
    assert (outs + [out])[..|outs|] == outs;
  }

  lemma {:induction false} HandEndsAtHead(
    env: Env, ps: seq<Packet>, p: Packet, outs: seq<seq<byte>>, out: seq<byte>, v: Player, i: nat)
    requires |outs| == |ps| && Reassembled(env, ps, outs, v)
    requires i < |Flushed(env, v, p).inputs|
    ensures EndsAtHead(env, ps + [p], outs + [out], Flushed(env, v, p).inputs, i)
  {
    var inputs := Flushed(env, v, p).inputs;
    if i < |v.inputs| {
      assert inputs[..i + 1] == v.inputs[..i + 1];
      assert EndsAtHead(env, ps, outs, v.inputs, i);
      var c :| 0 <= c < |ps| && env.isPartitionHead(ps[c].payload) && StartsAt(outs, c, Flat(v.inputs[..i + 1]));
      StillStarts(outs, out, c, Flat(v.inputs[..i + 1]));
      assert (ps + [p])[c] == ps[c];
    } else {
      FlushKeepsBytes(env, v, p);
      assert inputs[..i + 1] == inputs;
      AllStartsAtEnd(outs, out);
      assert (ps + [p])[|ps|] == p;
    }
  }

  lemma {:induction false} HandCutBefore(
    env: Env, ps: seq<Packet>, p: Packet, outs: seq<seq<byte>>, out: seq<byte>, v: Player, c: nat)
    requires |outs| == |ps| && Reassembled(env, ps, outs, v)
    requires c <= |ps| && env.isPartitionHead((ps + [p])[c].payload)
    ensures CutBefore(outs + [out], Flushed(env, v, p).inputs, c)
  {
    var inputs := Flushed(env, v, p).inputs;
    if c < |ps| {
      assert CutBefore(outs, v.inputs, c);
      var n :| 0 <= n <= |v.inputs| && StartsAt(outs, c, Flat(v.inputs[..n]));
      assert inputs[..n] == v.inputs[..n];
      StillStarts(outs, out, c, Flat(inputs[..n]));
    } else {
      FlushKeepsBytes(env, v, p);
      AllStartsAtEnd(outs, out);
      assert inputs[..|inputs|] == inputs;
      assert StartsAt(outs + [out], c, Flat(inputs[..|inputs|]));
    }
  }

  /** Handing one more packet keeps the stream reassembled. */
  lemma {:induction false} HandReassembles(
    env: Env, ps: seq<Packet>, p: Packet, outs: seq<seq<byte>>, out: seq<byte>, v: Player)
    requires |outs| == |ps| && Reassembled(env, ps, outs, v)
    requires env.depacketize(v.fragment, p.payload).Some? && env.depacketize(v.fragment, p.payload).value.1 == out
    ensures Reassembled(env, ps + [p], outs + [out], Hand(env, v, p).player)
  {
    var w := Hand(env, v, p).player;
    FlushKeepsBytes(env, v, p);
    FlatOneMore(outs, out);
    assert Flat(w.inputs) + w.buffer == Flat(outs + [out]) by {
      var v1 := Flushed(env, v, p);
      assert Flat(v1.inputs) + (v1.buffer + out) == (Flat(v1.inputs) + v1.buffer) + out;
    }
    forall i | 0 <= i < |w.inputs| ensures EndsAtHead(env, ps + [p], outs + [out], w.inputs, i) {
      HandEndsAtHead(env, ps, p, outs, out, v, i);
    }
    forall c | 0 <= c < |ps + [p]| && env.isPartitionHead((ps + [p])[c].payload)
      ensures CutBefore(outs + [out], w.inputs, c)
    {
      HandCutBefore(env, ps, p, outs, out, v, c);
    }
  }

  /** A packet the depacketizer rejects adds no byte, but one that opens a partition still empties the buffer. */
  lemma {:induction false} RejectedAddsNothing(env: Env, v: Player, p: Packet)
    ensures Hand(env, v, p).Broken? <==> env.depacketize(v.fragment, p.payload) == None
    ensures Hand(env, v, p).Broken? ==>
      var w := Hand(env, v, p).player;
      && Flat(w.inputs) + w.buffer == Flat(v.inputs) + v.buffer
      && (if env.isPartitionHead(p.payload) then w.buffer == [] else w.buffer == v.buffer && w.inputs == v.inputs)
      && w.fragment == v.fragment && w.handed == v.handed + [p]
  {
    FlushKeepsBytes(env, v, p);
  }

  /** For every run of packets, until the depacketizer rejects one. */
  lemma {:induction false} DecoderInputs(env: Env, ps: seq<Packet>)
    ensures HandAll(env, NEW_PLAYER, ps).Played? <==> Depacketized(env, ps).Some?
    ensures HandAll(env, NEW_PLAYER, ps).Played? ==>
      && HandAll(env, NEW_PLAYER, ps).player.fragment == Depacketized(env, ps).value.0
      && Reassembled(env, ps, Depacketized(env, ps).value.1, HandAll(env, NEW_PLAYER, ps).player)
  {
    if ps != [] {
      var front, p := ps[..|ps| - 1], ps[|ps| - 1];
      DecoderInputs(env, front);
      assert ps == front + [p];
      if HandAll(env, NEW_PLAYER, ps).Played? {
        var v := HandAll(env, NEW_PLAYER, front).player;
        var outs := Depacketized(env, front).value.1;
        HandReassembles(env, front, p, outs, env.depacketize(v.fragment, p.payload).value.1, v);
      }
    }
  }

  /** The object whose method the receive loop calls; the calls to the H.264 decoder are logged in inputs. */
  class VideoDecoder {
    const env: Env
    var fragment: seq<byte>
    var buffer: seq<byte>
    var inputs: seq<seq<byte>>
    ghost var handed: seq<Packet>

    ghost function State(): (v: Player)
      reads this
    {
      Player(fragment, buffer, inputs, handed)
    }

    constructor (env: Env)
      ensures this.env == env && State() == NEW_PLAYER
    {
      this.env := env;
      fragment, buffer, inputs, handed := [], [], [], [];
    }

    method DepacketizeDecode(packet: Packet) returns (ok: bool)
      modifies this
      ensures Hand(env, old(State()), packet) == if ok then Played(State()) else Broken(State())
    {
      handed := handed + [packet];
      if env.isPartitionHead(packet.payload) {
        if buffer != [] {
          inputs := inputs + [buffer];
        }
        buffer := [];
      }
      match env.depacketize(fragment, packet.payload)
      case None =>
        ok := false;
      case Some((next, out)) =>
        fragment := next;
        buffer := buffer + out;
        ok := true;
    }
  }
}
