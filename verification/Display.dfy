/** The double buffer (client/src/double_buffer.rs) between the decoder thread, which writes, and the UI, which reads. */
module Display {
  import opened Bytes

  type Frame = seq<byte>

  // ---- The buffer itself -------------------------------------------------------------------------

  /** What the two frames hold, once they are there. */
  datatype Buffers = Buffers(back: Option<Frame>, front: Option<Frame>)

  const NO_FRAMES := Buffers(None, None)

  function WithByte(b: Buffers, i: nat, x: byte): (c: Buffers)
    requires b.back.Some? && i < |b.back.value|
  {
    b.(back := Some(b.back.value[i := x]))
  }

  function Swapped(b: Buffers): (c: Buffers) {
    Buffers(b.front, b.back)
  }

  class DoubleBuffer {
    var back: array?<byte>
    var front: array?<byte>

    /** Two distinct frames of one size, or none. */
    ghost predicate Valid()
      reads this
    {
      (back == null <==> front == null) && (back != null && front != null ==> back != front && back.Length == front.Length)
    }

    ghost function Contents(): (b: Buffers)
      reads this, back, front
    {
      Buffers(if back == null then None else Some(back[..]), if front == null then None else Some(front[..]))
    }

    constructor New(capacity: nat)
      ensures Valid() && back != null && fresh(back) && fresh(front)
      ensures Contents() == Buffers(Some(Zeros(capacity)), Some(Zeros(capacity)))
    {
      back := new byte[capacity](_ => 0);
      front := new byte[capacity](_ => 0);
      new;
      assert back[..] == Zeros(capacity) && front[..] == Zeros(capacity);
    }

    constructor NewUninitialized()
      ensures Valid() && Contents() == NO_FRAMES
    {
      back, front := null, null;
    }

    method Initialize(capacity: nat)
      modifies this
      ensures Valid() && back != null && fresh(back) && fresh(front)
      ensures Contents() == Buffers(Some(Zeros(capacity)), Some(Zeros(capacity)))
    {
      back := new byte[capacity](_ => 0);
      front := new byte[capacity](_ => 0);
      assert back[..] == Zeros(capacity) && front[..] == Zeros(capacity);
    }

    method Swap()
      requires Valid()
      modifies this
      ensures Valid() && back == old(front) && front == old(back)
      ensures Contents() == Swapped(old(Contents()))
    {
      back, front := front, back;
    }

    /** The conversion, byte by byte; n steps of the decoder led here. */
    method Convert(f: Frame, ghost s: State, ghost n: nat)
      requires Valid() && back != null && back.Length == |f|
      requires Undisturbed(s, |f|, n) == s.(buffers := Contents(), decoder := Converting(f, 0), backLocked := true)
      modifies back
      ensures Contents() == old(Contents()).(back := Some(f))
      ensures Undisturbed(s, |f|, n + |f|)
           == s.(buffers := Contents(), decoder := Converting(f, |f|), backLocked := true)
    {
      hide Undisturbed;
      for i := 0 to |f|
        invariant back[..i] == f[..i]
        invariant Contents().front == old(Contents().front)
        invariant Undisturbed(s, |f|, n + i)
               == s.(buffers := Contents(), decoder := Converting(f, i), backLocked := true)
      {
        ghost var was := Contents();
        back[i] := f[i];
        assert Contents() == WithByte(was, i, f[i]);
        ConvertingByte(s, f, n + i + 1, was, i);
        assert f[..i + 1] == f[..i] + [f[i]];
      }
      assert back[..] == f;
    }

    /**
     What the decoder thread does with a frame: set the buffers up if there are none, convert the frame into the back
     buffer byte by byte, swap. Statement by statement these are the decoder's steps below, from any state of the two
     threads in which the locks are free, and they end with the frame in front.
     */
    method PresentFrame(f: Frame, ghost s: State)
      requires Valid() && (back != null ==> back.Length == |f|)
      requires s.buffers == Contents() && s.decoder == Checking(f)
      requires !s.backLocked && !s.frontReading && !s.frontWriting
      modifies this, back
      ensures Valid() && back != null && back.Length == |f|
      ensures Contents().front == Some(f)
      ensures old(back) != null ==> front == old(back) && back == old(front)
      ensures Undisturbed(s, |f|, |f| + if old(back) == null then 7 else 6)
           == s.(buffers := Contents(), decoder := Waiting, published := s.published + [f])
    {
      hide Undisturbed;
      BeforeConverting(s, f);
      ghost var n := 2;
      if back == null {
        Initialize(|f|);
        n := 3;
      }
      Convert(f, s, n);
      AfterConverting(s, f, n + |f|, Contents());
      Swap();
    }
  }

  // ---- Decoder and UI, one memory access or lock operation at a time -----------------------------

  /** Where the decoder thread is, with the frame it is about. */
  datatype Decoder =
    | Waiting
    | Checking(frame: Frame)
    | InitializingFront(frame: Frame)
    | LockingBack(frame: Frame)
    | Converting(frame: Frame, done: nat)
    | LockingBackAgain(frame: Frame)
    | LockingFront(frame: Frame)
    | Swapping(frame: Frame)
    | Panicked

  datatype Ui = Idle | Reading(copied: Frame, version: nat)

  /** What the UI copied out of the front buffer, and how many frames had been published when it locked it. */
  datatype Shown = Shown(frame: Frame, version: nat)

  /** The buffer, and the locks: the back lock is held to write, the front lock to write or to read. */
  datatype State = State(
    buffers: Buffers,
    backLocked: bool,
    frontWriting: bool,
    frontReading: bool,
    decoder: Decoder,
    ui: Ui,
    published: seq<Frame>,
    shown: seq<Shown>)

  const START := State(NO_FRAMES, false, false, false, Waiting, Idle, [], [])

  /** The decoder's next step; a thread that waits for a lock stays where it is. */
  function DecoderStep(s: State, size: nat): (t: State) {
    match s.decoder
    case Waiting => s
    case Panicked => s
    case Checking(f) =>
      if s.buffers.back.Some? then s.(decoder := LockingBack(f))
      else if s.backLocked then s
      else s.(buffers := s.buffers.(back := Some(Zeros(size))), decoder := InitializingFront(f))
    case InitializingFront(f) =>
      if s.frontReading || s.frontWriting then s
      else s.(buffers := s.buffers.(front := Some(Zeros(size))), decoder := LockingBack(f))
    case LockingBack(f) =>
      if s.backLocked then s.(decoder := Panicked) else s.(backLocked := true, decoder := Converting(f, 0))
    case Converting(f, n) =>
      if s.buffers.back.Some? && n < |f| && n < |s.buffers.back.value| then
        s.(buffers := WithByte(s.buffers, n, f[n]), decoder := Converting(f, n + 1))
      else s.(backLocked := false, decoder := LockingBackAgain(f))
    case LockingBackAgain(f) =>
      if s.backLocked then s else s.(backLocked := true, decoder := LockingFront(f))
    case LockingFront(f) =>
      if s.frontReading || s.frontWriting then s else s.(frontWriting := true, decoder := Swapping(f))
    case Swapping(f) =>
      s.(buffers := Swapped(s.buffers), frontWriting := false, backLocked := false, published := s.published + [f],
         decoder := Waiting)
  }

  /** n steps of the decoder with none of the UI in between. */
  function Undisturbed(s: State, size: nat, n: nat): (t: State) {
    if n == 0 then s else DecoderStep(Undisturbed(s, size, n - 1), size)
  }

  lemma {:induction false} BeforeConverting(s: State, f: Frame)
    requires s.decoder == Checking(f) && !s.backLocked && !s.frontReading && !s.frontWriting
    requires s.buffers.back.Some? || s.buffers.front == None
    ensures s.buffers.back.Some? ==>
      Undisturbed(s, |f|, 2) == s.(decoder := Converting(f, 0), backLocked := true)
    ensures s.buffers.back == None ==>
      Undisturbed(s, |f|, 3) == s.(buffers := Buffers(Some(Zeros(|f|)), Some(Zeros(|f|))),
                                   decoder := Converting(f, 0), backLocked := true)
  {
    var one := Undisturbed(s, |f|, 1);
    assert one == DecoderStep(Undisturbed(s, |f|, 0), |f|);
    var two := Undisturbed(s, |f|, 2);
    assert two == DecoderStep(one, |f|);
  }

  lemma {:induction false} ConvertingByte(s: State, f: Frame, n: nat, b: Buffers, i: nat)
    requires n > 0 && i < |f| && b.back.Some? && |b.back.value| == |f|
    requires Undisturbed(s, |f|, n - 1) == s.(buffers := b, decoder := Converting(f, i), backLocked := true)
    ensures Undisturbed(s, |f|, n)
         == s.(buffers := WithByte(b, i, f[i]), decoder := Converting(f, i + 1), backLocked := true)
  {
  }

  lemma {:induction false} AfterConverting(s: State, f: Frame, n: nat, b: Buffers)
    requires !s.backLocked && !s.frontReading && !s.frontWriting
    requires Undisturbed(s, |f|, n) == s.(buffers := b, decoder := Converting(f, |f|), backLocked := true)
    ensures Undisturbed(s, |f|, n + 4)
         == s.(buffers := Swapped(b), decoder := Waiting, published := s.published + [f])
  {
    var size := |f|;
    assert Undisturbed(s, size, n + 1) == s.(buffers := b, decoder := LockingBackAgain(f));
    assert Undisturbed(s, size, n + 2) == s.(buffers := b, backLocked := true, decoder := LockingFront(f));
    assert Undisturbed(s, size, n + 3)
        == s.(buffers := b, backLocked := true, frontWriting := true, decoder := Swapping(f));
  }

  /** A decoded frame comes to the decoder thread. */
  function Decoded(s: State, f: Frame): (t: State) {
    if s.decoder == Waiting then s.(decoder := Checking(f)) else s
  }

  /** The UI's next step: lock the front buffer, copy it byte by byte, unlock it. */
  function UiStep(s: State): (t: State) {
    match s.ui
    case Idle =>
      if s.frontWriting then s else s.(frontReading := true, ui := Reading([], |s.published|))
    case Reading(copied, version) =>
      if s.buffers.front == None then s.(frontReading := false, ui := Idle)
      else if |copied| < |s.buffers.front.value| then
        s.(ui := Reading(copied + [s.buffers.front.value[|copied|]], version))
      else s.(frontReading := false, ui := Idle, shown := s.shown + [Shown(copied, version)])
  }

  datatype Turn = FrameDecoded(frame: Frame) | DecoderTurn | UiTurn

  function Step(s: State, size: nat, t: Turn): (next: State) {
    match t
    case FrameDecoded(f) => if |f| == size then Decoded(s, f) else s
    case DecoderTurn => DecoderStep(s, size)
    case UiTurn => UiStep(s)
  }

  function Run(size: nat, turns: seq<Turn>): (s: State) {
    if turns == [] then START else Step(Run(size, turns[..|turns| - 1]), size, turns[|turns| - 1])
  }

  /** Before the first frame the UI can only see the zeros the buffer starts with. */
  function Version(size: nat, published: seq<Frame>, n: nat): (f: Frame) {
    if 0 < n <= |published| then published[n - 1] else Zeros(size)
  }

  /** Who holds which lock follows from where the threads are. */
  ghost predicate Locks(s: State) {
    && s.backLocked == (s.decoder.Converting? || s.decoder.LockingFront? || s.decoder.Swapping?)
    && s.frontWriting == s.decoder.Swapping?
    && s.frontReading == s.ui.Reading?
    && !(s.frontReading && s.frontWriting)
  }

  /** The back frame is being filled with the frame at hand, and is that frame from the end of its conversion on. */
  ghost predicate BackHolds(s: State, size: nat) {
    match s.decoder
    case Waiting => true
    case Checking(f) => |f| == size
    case InitializingFront(f) => |f| == size
    case LockingBack(f) => |f| == size
    case Converting(f, n) =>
      && |f| == size && n <= size
      && s.buffers.back.Some? && |s.buffers.back.value| == size && s.buffers.back.value[..n] == f[..n]
    case LockingBackAgain(f) => s.buffers.back == Some(f)
    case LockingFront(f) => s.buffers.back == Some(f)
    case Swapping(f) => s.buffers.back == Some(f)
    case Panicked => false
  }

  /** The front frame is the last one published, whole, and the UI has copied a part of that. */
  ghost predicate FrontHolds(s: State, size: nat) {
    && (s.buffers.front.Some? ==>
      && s.buffers.front.value == Version(size, s.published, |s.published|)
      && |s.buffers.front.value| == size)
    && (s.buffers.front == None ==> s.published == [])
    && (s.ui.Reading? ==>
      && s.ui.version == |s.published|
      && |s.ui.copied| <= size && s.ui.copied == Version(size, s.published, s.ui.version)[..|s.ui.copied|])
  }

  predicate UsesFrames(d: Decoder) {
    d.LockingBack? || d.Converting? || d.LockingBackAgain? || d.LockingFront? || d.Swapping?
  }

  /** The buffers are set up before they are used. */
  ghost predicate SetUp(s: State, size: nat) {
    && (s.buffers.front.Some? ==> s.buffers.back.Some?)
    && (s.buffers.back.Some? ==> |s.buffers.back.value| == size)
    && (s.decoder.InitializingFront? <==> s.buffers.back.Some? && s.buffers.front == None)
    && (UsesFrames(s.decoder) ==> s.buffers.front.Some?)
    && forall i :: 0 <= i < |s.published| ==> |s.published[i]| == size
  }

  ghost predicate Invariant(s: State, size: nat) {
    Locks(s) && BackHolds(s, size) && FrontHolds(s, size) && SetUp(s, size)
  }

  lemma {:induction false} OneMoreByte(back: Frame, f: Frame, n: nat)
    requires n < |f| == |back| && back[..n] == f[..n]
    ensures back[n := f[n]][..n + 1] == f[..n + 1]
  {
    assert f[..n + 1] == f[..n] + [f[n]];
  }

  lemma {:induction false} ConvertingKeeps(s: State, size: nat)
    requires Invariant(s, size) && s.decoder.Converting?
    ensures Invariant(DecoderStep(s, size), size)
    ensures DecoderStep(s, size).shown == s.shown && s.published <= DecoderStep(s, size).published
  {
    var f, n := s.decoder.frame, s.decoder.done;
    if n < size {
      OneMoreByte(s.buffers.back.value, f, n);
    } else {
      assert s.buffers.back.value == f;
    }
  }

  lemma {:induction false} DecoderKeeps(s: State, size: nat)
    requires Invariant(s, size)
    ensures Invariant(DecoderStep(s, size), size)
    ensures DecoderStep(s, size).shown == s.shown && s.published <= DecoderStep(s, size).published
  {
    if s.decoder.Converting? {
      ConvertingKeeps(s, size);
    }
  }

  lemma {:induction false} UiKeeps(s: State, size: nat)
    requires Invariant(s, size)
    ensures Invariant(UiStep(s), size)
    ensures UiStep(s).published == s.published
  {
  }

  lemma {:induction false} DecodedKeeps(s: State, size: nat, f: Frame)
    requires Invariant(s, size) && |f| == size
    ensures Invariant(Decoded(s, f), size)
    ensures Decoded(s, f).shown == s.shown && Decoded(s, f).published == s.published
  {
  }

  /** In every interleaving: above all, taking the back lock never fails, so the decoder thread never panics. */
  lemma {:induction false} Always(size: nat, turns: seq<Turn>)
    ensures Invariant(Run(size, turns), size)
    ensures Run(size, turns).decoder != Panicked
  {
    if turns != [] {
      hide Locks, FrontHolds, SetUp;
      var front := turns[..|turns| - 1];
      Always(size, front);
      match turns[|turns| - 1] {
        case FrameDecoded(f) => if |f| == size { DecodedKeeps(Run(size, front), size, f); }
        case DecoderTurn => DecoderKeeps(Run(size, front), size);
        case UiTurn => UiKeeps(Run(size, front), size);
      }
    }
  }

  /** No byte is written to the frame the UI is reading, and it stays in front: the decoder cannot swap then. */
  lemma {:induction false} NeverShared(size: nat, turns: seq<Turn>)
    requires Run(size, turns).ui.Reading?
    ensures var s := Run(size, turns);
      DecoderStep(s, size).buffers.front == s.buffers.front && !s.decoder.Swapping?
  {
    Always(size, turns);
  }

  /** What has been shown: whole frames, each the latest published when the UI locked it, never going back. */
  ghost predicate ShownInOrder(size: nat, published: seq<Frame>, shown: seq<Shown>) {
    && (forall i :: 0 <= i < |shown| ==>
      shown[i].version <= |published| && shown[i].frame == Version(size, published, shown[i].version))
    && (forall i, j :: 0 <= i < j < |shown| ==> shown[i].version <= shown[j].version)
  }

  lemma {:induction false} MorePublished(size: nat, published: seq<Frame>, more: seq<Frame>, shown: seq<Shown>)
    requires ShownInOrder(size, published, shown) && published <= more
    ensures ShownInOrder(size, more, shown)
  {
  }

  lemma {:induction false} OneMoreShown(size: nat, published: seq<Frame>, shown: seq<Shown>, f: Shown)
    requires ShownInOrder(size, published, shown)
    requires f.version == |published| && f.frame == Version(size, published, f.version)
    ensures ShownInOrder(size, published, shown + [f])
  {
  }

  lemma {:induction false} UiShows(s: State, size: nat)
    requires Invariant(s, size)
    ensures UiStep(s).shown == s.shown ||
      (exists f: Shown :: UiStep(s).shown == s.shown + [f] && f.version == |s.published| &&
                          f.frame == Version(size, s.published, f.version))
  {
    if UiStep(s).shown != s.shown {
      var f := Shown(s.ui.copied, s.ui.version);
      assert UiStep(s).shown == s.shown + [f];
      assert f.frame == Version(size, s.published, f.version);
    }
  }

  /** No frame is ever shown torn or out of order, however the two threads interleave. */
  lemma {:induction false} Untorn(size: nat, turns: seq<Turn>)
    ensures ShownInOrder(size, Run(size, turns).published, Run(size, turns).shown)
  {
    if turns != [] {
      hide Invariant, ShownInOrder, DecoderStep, UiStep, Decoded;
      var front := turns[..|turns| - 1];
      var s := Run(size, front);
      Untorn(size, front);
      Always(size, front);
      match turns[|turns| - 1] {
        case FrameDecoded(f) =>
          if |f| == size { DecodedKeeps(s, size, f); }
        case DecoderTurn =>
          DecoderKeeps(s, size);
          MorePublished(size, s.published, DecoderStep(s, size).published, s.shown);
        case UiTurn =>
          UiKeeps(s, size);
          UiShows(s, size);
          if UiStep(s).shown != s.shown {
            var f: Shown :| UiStep(s).shown == s.shown + [f] && f.version == |s.published| &&
                            f.frame == Version(size, s.published, f.version);
            OneMoreShown(size, s.published, s.shown, f);
          }
      }
    }
  }

  // ---- Every frame the UI starts to read is shown --------------------------------------------------

  function UiTurns(turns: seq<Turn>): (n: nat) {
    if turns == [] then 0 else UiTurns(turns[..|turns| - 1]) + if turns[|turns| - 1].UiTurn? then 1 else 0
  }

  lemma {:induction false} RunOneMore(size: nat, turns: seq<Turn>, t: Turn)
    ensures Run(size, turns + [t]) == Step(Run(size, turns), size, t)
    ensures UiTurns(turns + [t]) == UiTurns(turns) + if t.UiTurn? then 1 else 0
  {
    assert (turns + [t])[..|turns|] == turns;
  }

  /** The decoder leaves alone what the UI is doing, and the frame it is reading. */
  lemma {:induction false} OthersKeep(s: State, size: nat, t: Turn)
    requires Invariant(s, size) && s.ui.Reading? && !t.UiTurn?
    ensures var u := Step(s, size, t); u.ui == s.ui && u.shown == s.shown && u.buffers.front == s.buffers.front
  {
  }

  lemma {:induction false} ReadsOn(s: State, size: nat, done: nat)
    requires s.ui.Reading? && s.buffers.front.Some? && done < |s.buffers.front.value|
    requires s.ui.copied == s.buffers.front.value[..done]
    ensures UiStep(s) == s.(ui := Reading(s.buffers.front.value[..done + 1], s.ui.version))
  {
    var f := s.buffers.front.value;
    assert f[..done + 1] == f[..done] + [f[done]];
  }

  /** Whatever the decoder does in between, the UI copies a byte of the frame it has locked with each of its turns. */
  lemma {:induction false} UiReads(size: nat, turns: seq<Turn>, more: seq<Turn>)
    requires Run(size, turns).ui == Reading([], |Run(size, turns).published|)
    requires Run(size, turns).buffers.front.Some? && UiTurns(more) <= size
    ensures var s, u := Run(size, turns), Run(size, turns + more);
      && u.buffers.front == s.buffers.front && u.shown == s.shown && |s.buffers.front.value| == size
      && u.ui == Reading(s.buffers.front.value[..UiTurns(more)], s.ui.version)
  {
    hide Run, Step, UiStep, DecoderStep, Invariant;
    assert |Run(size, turns).buffers.front.value| == size by { FrontIsLatest(size, turns); }
    if more == [] {
      assert turns + more == turns;
    } else {
      var front, t := more[..|more| - 1], more[|more| - 1];
      assert more == front + [t] && turns + more == (turns + front) + [t];
      UiReads(size, turns, front);
      RunOneMore(size, turns + front, t);
      var u := Run(size, turns + front);
      if t.UiTurn? {
        ReadsOn(u, size, UiTurns(front));
        UiTurnIs(u, size);
      } else {
        Always(size, turns + front);
        OthersKeep(u, size, t);
      }
    }
  }

  lemma {:induction false} UiTurnIs(s: State, size: nat)
    ensures Step(s, size, UiTurn) == UiStep(s)
  {
  }

  lemma {:induction false} FrontIsLatest(size: nat, turns: seq<Turn>)
    requires Run(size, turns).buffers.front.Some?
    ensures var s := Run(size, turns);
      s.buffers.front.value == Version(size, s.published, |s.published|) && |s.buffers.front.value| == size
  {
    Always(size, turns);
  }

  lemma {:induction false} LockIsFree(s: State, size: nat)
    requires Invariant(s, size) && s.ui == Idle && !s.decoder.Swapping?
    ensures UiStep(s) == s.(frontReading := true, ui := Reading([], |s.published|))
  {
  }

  lemma {:induction false} ReadsToTheEnd(s: State)
    requires s.ui.Reading? && s.buffers.front.Some? && s.ui.copied == s.buffers.front.value
    ensures UiStep(s).ui == Idle && UiStep(s).shown == s.shown + [Shown(s.buffers.front.value, s.ui.version)]
  {
  }

  /**
   The UI shows the latest frame: from every reachable state with a front frame in which it is idle and the decoder is
   not swapping, in size + 2 turns, whatever the decoder does in between, it shows exactly one more frame, the latest
   published when it began.
   */
  lemma {:induction false} ShowsLatest(size: nat, turns: seq<Turn>, more: seq<Turn>)
    requires var s := Run(size, turns); s.buffers.front.Some? && s.ui == Idle && !s.decoder.Swapping?
    requires UiTurns(more) == size
    ensures var s, u := Run(size, turns), Run(size, turns + [UiTurn] + more + [UiTurn]);
      && u.ui == Idle
      && u.shown == s.shown + [Shown(Version(size, s.published, |s.published|), |s.published|)]
  {
    hide Run, Step, UiStep, Invariant;
    var s, start := Run(size, turns), turns + [UiTurn];
    Always(size, turns);
    FrontIsLatest(size, turns);
    LockIsFree(s, size);
    RunOneMore(size, turns, UiTurn);
    UiTurnIs(s, size);
    UiReads(size, start, more);
    var u := Run(size, start + more);
    assert u.ui.copied == u.buffers.front.value;
    ReadsToTheEnd(u);
    RunOneMore(size, start + more, UiTurn);
    UiTurnIs(u, size);
  }

  function Turns(t: Turn, n: nat): (turns: seq<Turn>)
    ensures |turns| == n
  {
    seq(n, _ => t)
  }

  lemma {:induction false} DecoderRuns(size: nat, turns: seq<Turn>, n: nat)
    ensures Run(size, turns + Turns(DecoderTurn, n)) == Undisturbed(Run(size, turns), size, n)
  {
    if n == 0 {
      assert turns + Turns(DecoderTurn, 0) == turns;
    } else {
      DecoderRuns(size, turns, n - 1);
      assert turns + Turns(DecoderTurn, n) == (turns + Turns(DecoderTurn, n - 1)) + [DecoderTurn];
      RunOneMore(size, turns + Turns(DecoderTurn, n - 1), DecoderTurn);
    }
  }

  lemma {:induction false} UiTurnsOf(n: nat)
    ensures UiTurns(Turns(UiTurn, n)) == n
  {
    if n > 0 {
      UiTurnsOf(n - 1);
      assert Turns(UiTurn, n)[..n - 1] == Turns(UiTurn, n - 1);
    }
  }

  lemma {:induction false} Converts(s: State, f: Frame, n: nat, b: Buffers, i: nat) returns (x: Frame)
    requires i <= |f| && b.back.Some? && |b.back.value| == |f|
    requires Undisturbed(s, |f|, n) == s.(buffers := b, decoder := Converting(f, 0), backLocked := true)
    ensures |x| == |f| && x[..i] == f[..i]
    ensures Undisturbed(s, |f|, n + i)
         == s.(buffers := b.(back := Some(x)), decoder := Converting(f, i), backLocked := true)
  {
    hide Undisturbed;
    if i == 0 {
      x := b.back.value;
      assert b.(back := Some(x)) == b;
    } else {
      var w := Converts(s, f, n, b, i - 1);
      x := w[i - 1 := f[i - 1]];
      ConvertingByte(s, f, n + i, b.(back := Some(w)), i - 1);
      OneMoreByte(w, f, i - 1);
    }
  }

  /** The decoder, left alone with a frame, publishes it. */
  lemma {:induction false} Publishes(s: State, f: Frame) returns (n: nat)
    requires s.decoder == Checking(f) && !s.backLocked && !s.frontReading && !s.frontWriting
    requires (s.buffers.back.Some? ==> |s.buffers.back.value| == |f|) && (s.buffers.back.Some? || s.buffers.front == None)
    ensures var t := Undisturbed(s, |f|, n);
      && t.buffers.front == Some(f) && t.published == s.published + [f]
      && t.decoder == Waiting && t.ui == s.ui && t.shown == s.shown
  {
    hide Undisturbed;
    BeforeConverting(s, f);
    var b := if s.buffers.back.Some? then s.buffers else Buffers(Some(Zeros(|f|)), Some(Zeros(|f|)));
    n := if s.buffers.back.Some? then 2 else 3;
    var x := Converts(s, f, n, b, |f|);
    assert x == f;
    AfterConverting(s, f, n + |f|, b.(back := Some(x)));
    n := n + |f| + 4;
  }

  lemma {:induction false} AtRest(size: nat, turns: seq<Turn>, f: Frame)
    requires Run(size, turns).decoder == Waiting && Run(size, turns).ui == Idle && |f| == size
    ensures var s, t := Run(size, turns), Run(size, turns + [FrameDecoded(f)]);
      && t == s.(decoder := Checking(f)) && !s.backLocked && !s.frontReading && !s.frontWriting
      && (s.buffers.back.Some? ==> |s.buffers.back.value| == size) && (s.buffers.back.Some? || s.buffers.front == None)
  {
    Always(size, turns);
    hide Run;
    RunOneMore(size, turns, FrameDecoded(f));
  }

  /** From every reachable state with both threads at rest, as from the start: a run publishes a decoded frame and shows it. */
  lemma {:induction false} FrameIsShown(size: nat, turns: seq<Turn>, f: Frame) returns (more: seq<Turn>)
    requires Run(size, turns).decoder == Waiting && Run(size, turns).ui == Idle && |f| == size
    ensures more != [] && more[0] == FrameDecoded(f)
    ensures var s, u := Run(size, turns), Run(size, turns + more);
      && u.published == s.published + [f] && u.shown == s.shown + [Shown(f, |u.published|)]
  {
    hide Run, Undisturbed, Invariant;
    var s, decoded := Run(size, turns), turns + [FrameDecoded(f)];
    AtRest(size, turns, f);
    var n := Publishes(Run(size, decoded), f);
    DecoderRuns(size, decoded, n);
    var published := decoded + Turns(DecoderTurn, n);
    UiTurnsOf(size);
    ShowsLatest(size, published, Turns(UiTurn, size));
    FrontIsLatest(size, published);
    more := [FrameDecoded(f)] + Turns(DecoderTurn, n) + [UiTurn] + Turns(UiTurn, size) + [UiTurn];
    assert turns + more == published + [UiTurn] + Turns(UiTurn, size) + [UiTurn];
    KeepsPublished(size, published, [UiTurn] + Turns(UiTurn, size) + [UiTurn]);
    assert published + ([UiTurn] + Turns(UiTurn, size) + [UiTurn]) == turns + more;
  }

  /** The UI publishes nothing. */
  lemma {:induction false} KeepsPublished(size: nat, turns: seq<Turn>, more: seq<Turn>)
    requires forall t :: t in more ==> t == UiTurn
    ensures Run(size, turns + more).published == Run(size, turns).published
  {
    if more == [] {
      assert turns + more == turns;
    } else {
      var front := more[..|more| - 1];
      assert turns + more == (turns + front) + [UiTurn] by { assert more[|more| - 1] in more; }
      forall t | t in front ensures t == UiTurn {
        assert t in more;
      }
      KeepsPublished(size, turns, front);
      RunOneMore(size, turns + front, UiTurn);
    }
  }

  /**
   The threads never wait for each other: the UI can move unless the decoder is swapping, and then the decoder can;
   and a decoder with a frame at hand can move whenever the UI is not reading.
   */
  lemma {:induction false} NoDeadlock(size: nat, turns: seq<Turn>)
    ensures var s := Run(size, turns);
      && (UiStep(s) != s || (s.decoder.Swapping? && DecoderStep(s, size) != s))
      && (s.decoder != Waiting && s.ui == Idle ==> DecoderStep(s, size) != s)
  {
    Always(size, turns);
  }
}
