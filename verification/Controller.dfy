/** The server's bitrate controller (`handle_feedback`, server/src/server/feedback_server.rs). */
module Controller {
  import opened Arith
  import opened Bytes

  /** The counters of a feedback packet that the controller uses. */
  datatype Report = Report(totalBlocks: u16, outOfOrderBlocks: u16, eccDecoderFailures: u16)

  /** The floats nearest to 0.001, 0.15 and 0.2, and the one above the first. */
  const THOUSANDTH := 8589935.0 / 8589934592.0
  const ABOVE_THOUSANDTH := 8589936.0 / 8589934592.0
  const LOWER := 10066330.0 / 67108864.0
  const UPPER := 13421773.0 / 67108864.0

  /** Rounding to a float, as far as it matters here: it keeps the order, and a number that is a float already. */
  ghost predicate Rounds(round: real -> real) {
    && (forall x, y :: x <= y ==> round(x) <= round(y))
    && round(THOUSANDTH) == THOUSANDTH && round(ABOVE_THOUSANDTH) == ABOVE_THOUSANDTH
  }

  /** A quotient of two floats made from integers: 0/0 is not a number, n/0 is infinite, and any other is rounded. */
  datatype Ratio = NotANumber | Infinite | Finite(value: real)

  function Quotient(round: real -> real, n: u16, d: u16): (q: Ratio) {
    if d != 0 then Finite(round(n as real / d as real)) else if n == 0 then NotANumber else Infinite
  }

  predicate Above(r: Ratio, x: real) {
    r.Infinite? || (r.Finite? && r.value > x)
  }

  predicate Under(r: Ratio, x: real) {
    r.Finite? && r.value < x
  }

  /** The congestion test in whole numbers: more than one block in a thousand, or any failure to decode. */
  predicate Congested(p: Report) {
    1000 * p.outOfOrderBlocks as int > p.totalBlocks as int || p.eccDecoderFailures > 0
  }

  lemma {:induction false} ProductLess(q: real, c: real, d: real)
    requires d > 0.0
    ensures q < c <==> q * d < c * d
  {
    if q < c {
      assert (c - q) * d > 0.0;
    } else {
      assert (q - c) * d >= 0.0;
    }
  }

  /** No quotient of two u16 lies between 1 / 1000 and the float after the one next to it. */
  lemma {:induction false} QuotientGap(n: int, d: int)
    requires 0 <= n && 0 < d < 0x1_0000
    ensures if 1000 * n > d then n as real / d as real >= ABOVE_THOUSANDTH else n as real / d as real <= THOUSANDTH
  {
    var e := d as real;
    var q := n as real / e;
    assert q * e == n as real;
    if 1000 * n > d {
      assert 1000.0 * n as real >= e + 1.0;
      assert 1000.0 * (ABOVE_THOUSANDTH * e) < e + 1.0;
      ProductLess(q, ABOVE_THOUSANDTH, e);
    } else {
      assert 1000.0 * n as real <= e;
      assert e <= 1000.0 * (THOUSANDTH * e);
      ProductLess(THOUSANDTH, q, e);
    }
  }

  /** For all reports, also those without a block, the float test is the test in whole numbers. */
  lemma {:induction false} CongestionTest(round: real -> real, p: Report)
    requires Rounds(round)
    ensures Congested(p) <==>
      Above(Quotient(round, p.outOfOrderBlocks, p.totalBlocks), THOUSANDTH) || p.eccDecoderFailures > 0
  {
    if p.totalBlocks != 0 {
      QuotientGap(p.outOfOrderBlocks, p.totalBlocks);
    }
  }

  /** The branch between the two thresholds is never taken: whatever is not above 0.001 is not above 0.15. */
  lemma {:induction false} MiddleBranchDead(r: Ratio)
    requires !Above(r, THOUSANDTH)
    ensures !(Under(r, UPPER) && Above(r, LOWER))
  {
  }

  const MIN_BITRATE: u32 := 20000
  const STEP: u32 := 100000
  const START: u32 := 900000

  /** The controller's variables: the rate, the clean reports since the last change, how many it takes, two sums. */
  datatype Control = Control(
    bitrate: u32, ticksSurvived: u32, ticksToSurvive: u32, ooBlocks: u16, decoderFailures: u16)

  const INITIAL := Control(900000, 0, 10, 0, 0)

  /** A pair of data points sent to the statistics when the rate changes: the old rate and the sums so far. */
  datatype Flush = Flush(bitrate: u32, ooBlocks: u16, decoderFailures: u16)

  /** 0.6 and 1.8 times, rounded down; a float that is too large becomes the largest u32. */
  function Lowered(bitrate: u32): (b: u32) {
    bitrate * 3 / 5
  }

  function Lengthened(ticks: u32): (t: u32) {
    if ticks * 9 / 5 < 0x1_0000_0000 then ticks * 9 / 5 else 0xFFFF_FFFF
  }

  /** The rate and the patience after a report. */
  function Adjusted(c: Control, p: Report): (d: Control) {
    if Congested(p) then
      if c.bitrate >= MIN_BITRATE then
        c.(bitrate := Lowered(c.bitrate), ticksSurvived := 0, ticksToSurvive := Lengthened(c.ticksToSurvive))
      else c.(bitrate := MIN_BITRATE, ticksSurvived := 0)
    else
      var survived := Wrapped32(c.ticksSurvived + 1);
      if survived == c.ticksToSurvive then c.(bitrate := Wrapped32(c.bitrate + STEP), ticksSurvived := 0)
      else c.(ticksSurvived := survived)
  }

  function Summed(c: Control, p: Report): (d: Control) {
    c.(ooBlocks := Wrapped16(c.ooBlocks + p.outOfOrderBlocks),
       decoderFailures := Wrapped16(c.decoderFailures + p.eccDecoderFailures))
  }

  function Next(c: Control, p: Report): (next: Control) {
    var d := Summed(Adjusted(c, p), p);
    if d.bitrate != c.bitrate then d.(ooBlocks := 0, decoderFailures := 0) else d
  }

  function Flushed(c: Control, p: Report): (fs: seq<Flush>) {
    var d := Summed(Adjusted(c, p), p);
    if d.bitrate != c.bitrate then [Flush(c.bitrate, d.ooBlocks, d.decoderFailures)] else []
  }

  function Run(c: Control, reports: seq<Report>): (d: Control) {
    if reports == [] then c else Next(Run(c, reports[..|reports| - 1]), reports[|reports| - 1])
  }

  function Flushes(c: Control, reports: seq<Report>): (fs: seq<Flush>) {
    if reports == [] then []
    else
      var front := reports[..|reports| - 1];
      Flushes(c, front) + Flushed(Run(c, front), reports[|reports| - 1])
  }

  lemma {:induction false} RunOneMore(c: Control, reports: seq<Report>, p: Report)
    ensures Run(c, reports + [p]) == Next(Run(c, reports), p)
    ensures Flushes(c, reports + [p]) == Flushes(c, reports) + Flushed(Run(c, reports), p)
  {
    assert (reports + [p])[..|reports|] == reports;
  }

  function Clean(reports: seq<Report>): (n: nat)
    ensures n <= |reports|
  {
    if reports == [] then 0 else Clean(reports[..|reports| - 1]) + if Congested(reports[|reports| - 1]) then 0 else 1
  }

  // ---- What every run keeps ----------------------------------------------------------------------

  /** The patience never falls below 10 and has never been reached: the test for equality cannot miss. */
  predicate Patient(c: Control) {
    10 <= c.ticksToSurvive && c.ticksSurvived < c.ticksToSurvive
  }

  lemma {:induction false} NextPatient(c: Control, p: Report)
    requires Patient(c)
    ensures Patient(Next(c, p)) && c.ticksToSurvive <= Next(c, p).ticksToSurvive
    ensures Wrapped32(c.ticksSurvived + 1) == c.ticksSurvived + 1
  {
  }

  lemma {:induction false} RunPatient(c: Control, reports: seq<Report>)
    requires Patient(c)
    ensures Patient(Run(c, reports)) && c.ticksToSurvive <= Run(c, reports).ticksToSurvive
  {
    if reports != [] {
      RunPatient(c, reports[..|reports| - 1]);
      NextPatient(Run(c, reports[..|reports| - 1]), reports[|reports| - 1]);
    }
  }

  /** How often the rate was raised, and lowered from MIN_BITRATE or more. */
  function Raises(c: Control, reports: seq<Report>): (n: nat) {
    if reports == [] then 0
    else
      var before := Run(c, reports[..|reports| - 1]);
      Raises(c, reports[..|reports| - 1]) + if Raised(before, reports[|reports| - 1]) then 1 else 0
  }

  function Cuts(c: Control, reports: seq<Report>): (n: nat) {
    if reports == [] then 0
    else
      var before := Run(c, reports[..|reports| - 1]);
      Cuts(c, reports[..|reports| - 1]) +
      if Congested(reports[|reports| - 1]) && before.bitrate >= MIN_BITRATE then 1 else 0
  }

  /** Each raise has used up at least ten clean reports. */
  lemma {:induction false} RaisesAreRare(reports: seq<Report>)
    ensures 10 * Raises(INITIAL, reports) + Run(INITIAL, reports).ticksSurvived <= Clean(reports)
  {
    if reports != [] {
      var front := reports[..|reports| - 1];
      RaisesAreRare(front);
      RunPatient(INITIAL, front);
      NextPatient(Run(INITIAL, front), reports[|reports| - 1]);
    }
  }

  /** One report raises the rate by one step, when patience is rewarded, or to MIN_BITRATE, or not at all. */
  lemma {:induction false} NextRate(c: Control, p: Report)
    ensures Congested(p) ==> Next(c, p).bitrate == if c.bitrate >= MIN_BITRATE then Lowered(c.bitrate) else MIN_BITRATE
    ensures !Congested(p) && Wrapped32(c.ticksSurvived + 1) == c.ticksToSurvive ==>
      Next(c, p).bitrate == Wrapped32(c.bitrate + STEP)
    ensures !Congested(p) && Wrapped32(c.ticksSurvived + 1) != c.ticksToSurvive ==> Next(c, p).bitrate == c.bitrate
  {
  }

  /** Whether this report raises the rate. */
  predicate Raised(c: Control, p: Report) {
    !Congested(p) && Wrapped32(c.ticksSurvived + 1) == c.ticksToSurvive
  }

  lemma {:induction false} RateStep(c: Control, p: Report, raises: nat)
    requires c.bitrate <= START + STEP * raises
    ensures Next(c, p).bitrate <= START + STEP * (raises + if Raised(c, p) then 1 else 0)
  {
    NextRate(c, p);
  }

  lemma {:induction false} RateByRaises(reports: seq<Report>)
    ensures Run(INITIAL, reports).bitrate <= START + STEP * Raises(INITIAL, reports)
  {
    if reports != [] {
      var front, p := reports[..|reports| - 1], reports[|reports| - 1];
      RateByRaises(front);
      RateStep(Run(INITIAL, front), p, Raises(INITIAL, front));
    }
  }

  /** However the reports go, the rate is bounded by the number of clean ones. */
  lemma {:induction false} RateBound(reports: seq<Report>)
    ensures Run(INITIAL, reports).bitrate <= START + STEP * (Clean(reports) / 10)
  {
    RaisesAreRare(reports);
    RateByRaises(reports);
    assert Raises(INITIAL, reports) <= Clean(reports) / 10;
  }

  /** The rate cannot leave the range of u32 in fewer than 429410 clean reports: five days at one a second. */
  const SAFE_REPORTS := 429409

  lemma {:induction false} RaiseIsSafe(reports: seq<Report>, p: Report)
    requires Clean(reports) < SAFE_REPORTS && !Congested(p)
    requires Run(INITIAL, reports).ticksSurvived + 1 == Run(INITIAL, reports).ticksToSurvive
    ensures Run(INITIAL, reports).bitrate + STEP < 0x1_0000_0000
  {
    RaisesAreRare(reports);
    RateByRaises(reports);
    RunPatient(INITIAL, reports);
    assert Raises(INITIAL, reports) + 1 <= SAFE_REPORTS / 10;
  }

  /** No raise so far took the rate past what a u32 holds. */
  predicate RaisesFit(reports: seq<Report>) {
    if reports == [] then true
    else
      var front, p := reports[..|reports| - 1], reports[|reports| - 1];
      RaisesFit(front) &&
      (Raised(Run(INITIAL, front), p) ==> Run(INITIAL, front).bitrate + STEP < 0x1_0000_0000)
  }

  lemma {:induction false} FewReportsFit(reports: seq<Report>)
    requires Clean(reports) <= SAFE_REPORTS
    ensures RaisesFit(reports)
  {
    if reports != [] {
      var front, p := reports[..|reports| - 1], reports[|reports| - 1];
      FewReportsFit(front);
      RunPatient(INITIAL, front);
      NextPatient(Run(INITIAL, front), p);
      if Raised(Run(INITIAL, front), p) {
        RaiseIsSafe(front, p);
      }
    }
  }

  /** A raise from these rates leaves u32 and ends up below 12000; a sum that a u32 holds, or passes further, does not. */
  predicate Sinks(bitrate: u32) {
    0x1_0000_0000 <= bitrate + STEP < 0x1_0000_0000 + 12000
  }

  /** No raise so far came at such a rate. */
  predicate NoneSank(reports: seq<Report>) {
    if reports == [] then true
    else
      var front, p := reports[..|reports| - 1], reports[|reports| - 1];
      NoneSank(front) && (Raised(Run(INITIAL, front), p) ==> !Sinks(Run(INITIAL, front).bitrate))
  }

  ghost predicate NeverBelow(reports: seq<Report>, floor: u32) {
    forall n :: 0 <= n <= |reports| ==> Run(INITIAL, reports[..n]).bitrate >= floor
  }

  lemma {:induction false} FloorStep(c: Control, p: Report)
    requires c.bitrate >= 12000
    ensures Next(c, p).bitrate >= 12000 <==> !(Raised(c, p) && Sinks(c.bitrate))
  {
    NextRate(c, p);
  }

  lemma {:induction false} NeverBelowOneMore(front: seq<Report>, p: Report, floor: u32)
    ensures NeverBelow(front + [p], floor) <==> NeverBelow(front, floor) && Run(INITIAL, front + [p]).bitrate >= floor
  {
    hide Run;
    forall n | 0 <= n <= |front| ensures (front + [p])[..n] == front[..n] {
    }
    assert (front + [p])[..|front| + 1] == front + [p];
    if NeverBelow(front + [p], floor) {
      forall n | 0 <= n <= |front| ensures Run(INITIAL, front[..n]).bitrate >= floor {
        assert (front + [p])[..n] == front[..n];
      }
    }
  }

  /**
   The floor of the controller is 12000, not the 20000 its constant suggests: for every run, the rate has never been
   below 12000 if and only if no raise came at a rate from which the sum leaves u32 by less than 12000.
   */
  lemma {:induction false} RateFloor(reports: seq<Report>)
    ensures NeverBelow(reports, 12000) <==> NoneSank(reports)
  {
    if reports == [] {
      assert NeverBelow(reports, 12000) by {
        assert reports[..0] == [];
      }
    } else {
      hide Run, Next, Raised, Sinks, NeverBelow;
      var front, p := reports[..|reports| - 1], reports[|reports| - 1];
      assert reports == front + [p];
      RateFloor(front);
      NeverBelowOneMore(front, p, 12000);
      RunOneMore(INITIAL, front, p);
      if NeverBelow(front, 12000) {
        LastRate(front, 12000);
        FloorStep(Run(INITIAL, front), p);
      }
    }
  }

  lemma {:induction false} LastRate(reports: seq<Report>, floor: u32)
    requires NeverBelow(reports, floor)
    ensures Run(INITIAL, reports).bitrate >= floor
  {
    assert reports[..|reports|] == reports;
  }

  /** As in the first five days. */
  lemma {:induction false} FewReportsKeepFloor(reports: seq<Report>)
    requires Clean(reports) <= SAFE_REPORTS
    ensures NeverBelow(reports, 12000)
  {
    FewReportsFit(reports);
    FitNoneSank(reports);
    RateFloor(reports);
  }

  lemma {:induction false} FitNoneSank(reports: seq<Report>)
    requires RaisesFit(reports)
    ensures NoneSank(reports)
  {
    if reports != [] {
      FitNoneSank(reports[..|reports| - 1]);
    }
  }

  /** The rate after a congested report. */
  function Cut(bitrate: u32): (b: u32) {
    if bitrate >= MIN_BITRATE then Lowered(bitrate) else MIN_BITRATE
  }

  lemma {:induction false} CongestedOnce(reports: seq<Report>, n: nat, b: u32, t: u32)
    requires n < |reports| && Congested(reports[n])
    requires Run(INITIAL, reports[..n]).bitrate == b && Run(INITIAL, reports[..n]).ticksToSurvive == t
    ensures Run(INITIAL, reports[..n + 1]).bitrate == Cut(b)
    ensures Run(INITIAL, reports[..n + 1]).ticksToSurvive == if b >= MIN_BITRATE then Lengthened(t) else t
    ensures Run(INITIAL, reports[..n + 1]).ticksSurvived == 0
  {
    hide Congested, Run;
    RunOneMore(INITIAL, reports[..n], reports[n]);
    assert reports[..n + 1] == reports[..n] + [reports[n]];
  }

  lemma {:induction false} FirstFive(reports: seq<Report>)
    requires |reports| >= 5 && forall i :: 0 <= i < 5 ==> Congested(reports[i])
    ensures Run(INITIAL, reports[..5]).bitrate == 69984
    ensures Run(INITIAL, reports[..5]).ticksToSurvive == 183 && Run(INITIAL, reports[..5]).ticksSurvived == 0
  {
    assert Run(INITIAL, reports[..0]) == INITIAL;
    hide Run, Congested;
    CongestedOnce(reports, 0, 900000, 10);
    CongestedOnce(reports, 1, 540000, 18);
    CongestedOnce(reports, 2, 324000, 32);
    CongestedOnce(reports, 3, 194400, 57);
    CongestedOnce(reports, 4, 116640, 102);
  }

  /** And that floor is reached: ten congested reports from the start, the rate having been below 20000 after eight. */
  lemma {:induction false} FloorReached(reports: seq<Report>)
    requires |reports| >= 10 && forall i :: 0 <= i < 10 ==> Congested(reports[i])
    ensures Run(INITIAL, reports[..8]).bitrate == 15116
    ensures Run(INITIAL, reports[..10]).bitrate == 12000
    ensures Run(INITIAL, reports[..8]).ticksToSurvive == 1065 && Run(INITIAL, reports[..10]).ticksToSurvive == 1917
  {
    hide Run, Congested;
    FirstFive(reports);
    CongestedOnce(reports, 5, 69984, 183);
    CongestedOnce(reports, 6, 41990, 329);
    CongestedOnce(reports, 7, 25194, 592);
    CongestedOnce(reports, 8, 15116, 1065);
    CongestedOnce(reports, 9, 20000, 1065);
  }

  // ---- Clean and congested runs ------------------------------------------------------------------

  ghost predicate AllClean(reports: seq<Report>) {
    forall i :: 0 <= i < |reports| ==> !Congested(reports[i])
  }

  ghost predicate AllCongested(reports: seq<Report>) {
    forall i :: 0 <= i < |reports| ==> Congested(reports[i])
  }

  /** d is c after this many raises, with this many clean reports since the last. */
  predicate AfterClean(c: Control, raises: nat, survived: nat, d: Control) {
    && d.bitrate == Wrapped32(c.bitrate + STEP * raises)
    && d.ticksSurvived == survived
    && d.ticksToSurvive == c.ticksToSurvive
  }

  lemma {:induction false} WrapAdd(a: nat, b: nat)
    ensures Wrapped32(Wrapped32(a) + b) == Wrapped32(a + b)
  {
  }

  /** One clean report, seen from its effect on the three variables. */
  lemma {:induction false} CleanNext(d: Control, p: Report)
    requires !Congested(p) && d.ticksSurvived < d.ticksToSurvive
    ensures var e := Next(d, p);
      && e.bitrate == (if d.ticksSurvived + 1 == d.ticksToSurvive then Wrapped32(d.bitrate + STEP) else d.bitrate)
      && e.ticksSurvived == (if d.ticksSurvived + 1 == d.ticksToSurvive then 0 else d.ticksSurvived + 1)
      && e.ticksToSurvive == d.ticksToSurvive
  {
  }

  lemma {:induction false} CleanStep(c: Control, raises: nat, survived: nat, d: Control, p: Report)
    requires AfterClean(c, raises, survived, d) && !Congested(p) && survived < c.ticksToSurvive
    ensures if survived + 1 == c.ticksToSurvive then AfterClean(c, raises + 1, 0, Next(d, p))
            else AfterClean(c, raises, survived + 1, Next(d, p))
  {
    CleanNext(d, p);
    WrapAdd(c.bitrate + STEP * raises, STEP);
  }

  lemma {:induction false} CleanRunCounts(c: Control, reports: seq<Report>) returns (raises: nat, survived: nat)
    requires Patient(c) && AllClean(reports)
    ensures survived < c.ticksToSurvive
    ensures raises * c.ticksToSurvive + survived == c.ticksSurvived + |reports|
    ensures AfterClean(c, raises, survived, Run(c, reports))
  {
    var t := c.ticksToSurvive;
    if reports == [] {
      raises, survived := 0, c.ticksSurvived;
    } else {
      var front, p := reports[..|reports| - 1], reports[|reports| - 1];
      raises, survived := CleanRunCounts(c, front);
      assert !Congested(p);
      CleanStep(c, raises, survived, Run(c, front), p);
      if survived + 1 == t {
        assert (raises + 1) * t == raises * t + t;
        raises, survived := raises + 1, 0;
      } else {
        survived := survived + 1;
      }
    }
  }

  /** Closed form of a run of q clean reports: one raise for every ticksToSurvive of them. */
  lemma {:induction false} CleanRun(c: Control, reports: seq<Report>) returns (raises: nat, survived: nat)
    requires Patient(c) && AllClean(reports)
    ensures raises == (c.ticksSurvived + |reports|) / c.ticksToSurvive
    ensures survived == (c.ticksSurvived + |reports|) % c.ticksToSurvive
    ensures AfterClean(c, raises, survived, Run(c, reports))
  {
    raises, survived := CleanRunCounts(c, reports);
    DivUnique(c.ticksSurvived + |reports|, c.ticksToSurvive, raises, survived);
  }

  /**
   A run that breaks the floor: five congested reports, then 42949 times 183 clean ones. The last raise leaves u32 and
   the rate is 2688.
   */
  lemma {:induction false} FloorBroken(reports: seq<Report>)
    requires |reports| == 5 + 183 * 42949
    requires forall i :: 0 <= i < |reports| ==> (Congested(reports[i]) <==> i < 5)
    ensures Run(INITIAL, reports).bitrate == 2688
  {
    hide Run, Congested;
    var c, rest := Run(INITIAL, reports[..5]), reports[5..];
    FirstFive(reports);
    RunFrom(INITIAL, reports, 5);
    var raises, survived := CleanRun(c, rest);
    assert raises == 42949;
  }

  /** The reports since the last congested one. */
  function CleanTail(reports: seq<Report>): (n: nat)
    ensures n <= |reports|
  {
    if reports == [] || Congested(reports[|reports| - 1]) then 0 else CleanTail(reports[..|reports| - 1]) + 1
  }

  lemma {:induction false} SurvivedAreClean(reports: seq<Report>)
    ensures Run(INITIAL, reports).ticksSurvived <= CleanTail(reports)
  {
    if reports != [] {
      SurvivedAreClean(reports[..|reports| - 1]);
      RunPatient(INITIAL, reports[..|reports| - 1]);
    }
  }

  lemma {:induction false} RaiseUsesPatience(c: Control, p: Report)
    requires Patient(c) && !Congested(p) && Next(c, p).bitrate != c.bitrate
    ensures c.ticksSurvived + 1 == c.ticksToSurvive
  {
    NextRate(c, p);
  }

  /** A raise comes only after as many consecutive clean reports as the patience then demands. */
  lemma {:induction false} RaiseNeedsPatience(reports: seq<Report>, p: Report)
    requires !Congested(p) && Run(INITIAL, reports + [p]).bitrate != Run(INITIAL, reports).bitrate
    ensures CleanTail(reports + [p]) >= Run(INITIAL, reports).ticksToSurvive
  {
    RunOneMore(INITIAL, reports, p);
    RunPatient(INITIAL, reports);
    RaiseUsesPatience(Run(INITIAL, reports), p);
    SurvivedAreClean(reports);
    assert CleanTail(reports + [p]) == CleanTail(reports) + 1 by {
      assert (reports + [p])[..|reports|] == reports;
    }
  }

  /** u is n / 5 of x, rounded down. */
  predicate Fifths(x: nat, n: nat, u: nat) {
    5 * u <= n * x < 5 * u + 5
  }

  /**
   What a report does to rate and patience: congestion at 20000 or more takes both to 3 and 9 fifths, rounded down, the
   patience as long as a u32 can say it; below 20000 it only sets the rate, and no other report changes the patience.
   */
  lemma {:induction false} CutExactly(c: Control, p: Report)
    ensures var d := Next(c, p);
      if !Congested(p) then d.ticksToSurvive == c.ticksToSurvive
      else
        && d.ticksSurvived == 0
        && if c.bitrate < 20000 then d.bitrate == 20000 && d.ticksToSurvive == c.ticksToSurvive
           else
             && Fifths(c.bitrate, 3, d.bitrate)
             && if 9 * c.ticksToSurvive < 5 * 0x1_0000_0000 then Fifths(c.ticksToSurvive, 9, d.ticksToSurvive)
                else d.ticksToSurvive == 0xFFFF_FFFF
  {
  }

  function Pow(b: nat, n: nat): (x: nat)
    ensures b > 0 ==> x > 0
  {
    if n == 0 then 1 else b * Pow(b, n - 1)
  }

  /** The patience after k cuts: 10 * 1.7 to the k at least, or as long as a u32 can say. */
  predicate Grown(t: u32, k: nat) {
    t == 0xFFFF_FFFF || t * Pow(10, k) >= 10 * Pow(17, k)
  }

  lemma {:induction false} CutGrows(t: u32, k: nat)
    requires 10 <= t && Grown(t, k)
    ensures Grown(Lengthened(t), k + 1)
  {
    var u := Lengthened(t);
    if u != 0xFFFF_FFFF {
      assert 10 * u >= 17 * t;
      GrowStep(t, u, Pow(10, k), Pow(17, k));
    }
  }

  /** Each cut multiplies the patience by 1.7 at least. */
  lemma {:induction false} PatienceGrows(reports: seq<Report>)
    ensures Grown(Run(INITIAL, reports).ticksToSurvive, Cuts(INITIAL, reports))
  {
    if reports != [] {
      var front, p := reports[..|reports| - 1], reports[|reports| - 1];
      var c, k := Run(INITIAL, front), Cuts(INITIAL, front);
      PatienceGrows(front);
      RunPatient(INITIAL, front);
      CutGrows(c.ticksToSurvive, k);
    }
  }

  lemma {:induction false} GrowStep(t: nat, u: nat, a: nat, b: nat)
    requires 10 * u >= 17 * t && t * a >= 10 * b
    ensures u * (10 * a) >= 10 * (17 * b)
  {
    assert u * (10 * a) == (10 * u) * a;
    assert (10 * u) * a >= (17 * t) * a;
    assert (17 * t) * a == 17 * (t * a);
  }

  // ---- Unbroken congestion -----------------------------------------------------------------------

  /** Once at the minimum, the rate goes 20000, 12000, 20000, 12000, ... for ever. */
  lemma {:induction false} CongestedCycle(c: Control, reports: seq<Report>)
    requires c.bitrate == MIN_BITRATE && AllCongested(reports)
    ensures Run(c, reports).bitrate == if |reports| % 2 == 0 then 20000 else 12000
  {
    if reports != [] {
      CongestedCycle(c, reports[..|reports| - 1]);
      NextRate(Run(c, reports[..|reports| - 1]), reports[|reports| - 1]);
    }
  }

  /** While the rate stays at the minimum or above, n congested reports bring it below 0.6 to the n of the start. */
  lemma {:induction false} CongestedDecay(c: Control, reports: seq<Report>)
    requires AllCongested(reports)
    requires forall i :: 0 <= i < |reports| ==> Run(c, reports[..i]).bitrate >= MIN_BITRATE
    ensures Run(c, reports).bitrate * Pow(5, |reports|) <= c.bitrate * Pow(3, |reports|)
  {
    if reports != [] {
      var front, p := reports[..|reports| - 1], reports[|reports| - 1];
      forall i | 0 <= i < |front| ensures Run(c, front[..i]).bitrate >= MIN_BITRATE {
        assert front[..i] == reports[..i];
      }
      CongestedDecay(c, front);
      var b := Run(c, front).bitrate;
      NextRate(Run(c, front), p);
      assert front == reports[..|front|];
      DecayStep(b, Run(c, reports).bitrate, c.bitrate, Pow(5, |front|), Pow(3, |front|));
    }
  }

  lemma {:induction false} DecayStep(b: nat, d: nat, start: nat, f: nat, t: nat)
    requires 5 * d <= 3 * b && b * f <= start * t
    ensures d * (5 * f) <= start * (3 * t)
  {
    assert d * (5 * f) == (5 * d) * f;
    assert (5 * d) * f <= (3 * b) * f;
    assert (3 * b) * f == 3 * (b * f);
    assert start * (3 * t) == 3 * (start * t);
  }

  lemma {:induction false} FallsBelow(c: Control, reports: seq<Report>, n: nat)
    requires AllCongested(reports) && n <= |reports|
    requires c.bitrate * Pow(3, n) < MIN_BITRATE * Pow(5, n)
    ensures exists i :: 0 <= i <= n && Run(c, reports[..i]).bitrate < MIN_BITRATE
  {
    if forall i :: 0 <= i <= n ==> Run(c, reports[..i]).bitrate >= MIN_BITRATE {
      var front := reports[..n];
      forall i | 0 <= i < |front| ensures Run(c, front[..i]).bitrate >= MIN_BITRATE {
        assert front[..i] == reports[..i];
      }
      CongestedDecay(c, front);
      MulLe(MIN_BITRATE, Run(c, front).bitrate, Pow(5, n));
    }
  }

  /**
   From any rate, congestion without a break brings the rate to the minimum within n + 1 reports,
   n being large enough that 0.6 to the n brings the starting rate below it.
   */
  lemma {:induction false} CongestedConverges(c: Control, reports: seq<Report>, n: nat) returns (j: nat)
    requires AllCongested(reports) && n < |reports|
    requires c.bitrate * Pow(3, n) < MIN_BITRATE * Pow(5, n)
    ensures j <= n + 1 && Run(c, reports[..j]).bitrate == MIN_BITRATE
  {
    hide Pow, Next;
    FallsBelow(c, reports, n);
    var i :| 0 <= i <= n && Run(c, reports[..i]).bitrate < MIN_BITRATE;
    RunOneMore(c, reports[..i], reports[i]);
    NextRate(Run(c, reports[..i]), reports[i]);
    assert reports[..i + 1] == reports[..i] + [reports[i]];
    j := i + 1;
  }

  lemma {:induction false} PowersAt25()
    ensures 0x1_0000_0000 * Pow(3, 25) < MIN_BITRATE * Pow(5, 25)
  {
    assert Pow(3, 5) == 243 && Pow(5, 5) == 3125;
    assert Pow(3, 10) == 59049 && Pow(5, 10) == 9765625;
    assert Pow(3, 15) == 14348907 && Pow(5, 15) == 30517578125;
    assert Pow(3, 20) == 3486784401 && Pow(5, 20) == 95367431640625;
    assert Pow(3, 25) == 847288609443 && Pow(5, 25) == 298023223876953125;
  }

  /** Whatever the rate, 26 congested reports in a row are enough to bring it to the minimum. */
  lemma {:induction false} CongestedSettles(c: Control, reports: seq<Report>) returns (j: nat)
    requires AllCongested(reports) && |reports| >= 26
    ensures j <= 26 && Run(c, reports[..j]).bitrate == MIN_BITRATE
  {
    PowersAt25();
    MulLe(c.bitrate, 0x1_0000_0000, Pow(3, 25));
    j := CongestedConverges(c, reports, 25);
  }

  /** And from there the cycle goes on for as long as the congestion lasts. */
  lemma {:induction false} CycleFrom(c: Control, reports: seq<Report>, j: nat)
    requires AllCongested(reports) && j <= |reports|
    requires Run(c, reports[..j]).bitrate == MIN_BITRATE
    ensures Run(c, reports).bitrate == if (|reports| - j) % 2 == 0 then 20000 else 12000
  {
    hide Run, Congested;
    RunFrom(c, reports, j);
    assert AllCongested(reports[j..]) && |reports[j..]| == |reports| - j;
    CongestedCycle(Run(c, reports[..j]), reports[j..]);
  }

  lemma {:induction false} RunFrom(c: Control, reports: seq<Report>, j: nat)
    requires j <= |reports|
    ensures Run(c, reports) == Run(Run(c, reports[..j]), reports[j..])
  {
    if j < |reports| {
      var front := reports[..|reports| - 1];
      RunFrom(c, front, j);
      assert front[..j] == reports[..j];
      assert reports[j..][..|reports| - j - 1] == front[j..];
    } else {
      assert reports[..j] == reports;
    }
  }

  // ---- The statistics lose nothing ---------------------------------------------------------------

  function SumOutOfOrder(reports: seq<Report>): (n: nat) {
    if reports == [] then 0 else SumOutOfOrder(reports[..|reports| - 1]) + reports[|reports| - 1].outOfOrderBlocks
  }

  function SumFailures(reports: seq<Report>): (n: nat) {
    if reports == [] then 0 else SumFailures(reports[..|reports| - 1]) + reports[|reports| - 1].eccDecoderFailures
  }

  function FlushedOutOfOrder(fs: seq<Flush>): (n: nat) {
    if fs == [] then 0 else FlushedOutOfOrder(fs[..|fs| - 1]) + fs[|fs| - 1].ooBlocks
  }

  function FlushedFailures(fs: seq<Flush>): (n: nat) {
    if fs == [] then 0 else FlushedFailures(fs[..|fs| - 1]) + fs[|fs| - 1].decoderFailures
  }

  /** A congested report always changes the rate. */
  lemma {:induction false} CongestionChangesRate(c: Control, p: Report)
    requires Congested(p)
    ensures Next(c, p).bitrate != c.bitrate
  {
    NextRate(c, p);
  }

  lemma {:induction false} FlushSums(before: seq<Flush>, fs: seq<Flush>)
    requires |fs| <= 1
    ensures FlushedOutOfOrder(before + fs) == FlushedOutOfOrder(before) + if fs == [] then 0 else fs[0].ooBlocks
    ensures FlushedFailures(before + fs) == FlushedFailures(before) + if fs == [] then 0 else fs[0].decoderFailures
  {
    if fs == [] {
      assert before + fs == before;
    } else {
      assert (before + fs)[..|before|] == before;
    }
  }

  lemma {:induction false} FailuresFlushed(c: Control, p: Report)
    requires c.decoderFailures == 0
    ensures Next(c, p).decoderFailures == 0
    ensures p.eccDecoderFailures == if Flushed(c, p) == [] then 0 else Flushed(c, p)[0].decoderFailures
  {
    if Congested(p) {
      CongestionChangesRate(c, p);
    }
  }

  /** So no failure is ever held back: what reports say of failures reaches the statistics at once, and exactly. */
  lemma {:induction false} FailuresFlushedAtOnce(reports: seq<Report>)
    ensures Run(INITIAL, reports).decoderFailures == 0
    ensures FlushedFailures(Flushes(INITIAL, reports)) == SumFailures(reports)
  {
    if reports != [] {
      var front, p := reports[..|reports| - 1], reports[|reports| - 1];
      FailuresFlushedAtOnce(front);
      FailuresFlushed(Run(INITIAL, front), p);
      FlushSums(Flushes(INITIAL, front), Flushed(Run(INITIAL, front), p));
    }
  }

  /** What a report adds to the flushed and held back sum, as u16. */
  lemma {:induction false} OutOfOrderStep(c: Control, p: Report)
    ensures (if Flushed(c, p) == [] then 0 else Flushed(c, p)[0].ooBlocks) + Next(c, p).ooBlocks
         == Wrapped16(c.ooBlocks + p.outOfOrderBlocks)
  {
  }

  /** Equal as u16 sums. */
  predicate SameSum(a: nat, b: nat) {
    a % 0x1_0000 == b % 0x1_0000
  }

  lemma {:induction false} AddToSum(flushed: nat, held: nat, reported: nat, more: nat)
    requires SameSum(flushed + held, reported)
    ensures SameSum(flushed + Wrapped16(held + more), reported + more)
  {
  }

  lemma {:induction false} ConservedStep(flushed: nat, c: Control, reported: nat, p: Report)
    requires SameSum(flushed + c.ooBlocks, reported)
    ensures SameSum(flushed + (if Flushed(c, p) == [] then 0 else Flushed(c, p)[0].ooBlocks) + Next(c, p).ooBlocks,
                    reported + p.outOfOrderBlocks)
  {
    OutOfOrderStep(c, p);
    hide Flushed, Next, Wrapped16;
    AddToSum(flushed, c.ooBlocks, reported, p.outOfOrderBlocks);
  }

  lemma {:induction false} SumOneMore(reports: seq<Report>, p: Report)
    ensures SumOutOfOrder(reports + [p]) == SumOutOfOrder(reports) + p.outOfOrderBlocks
  {
    assert (reports + [p])[..|reports|] == reports;
  }

  /** Out-of-order blocks are all accounted for, as u16 sums: flushed plus held back is what was reported. */
  lemma {:induction false} OutOfOrderConserved(reports: seq<Report>)
    ensures SameSum(
      FlushedOutOfOrder(Flushes(INITIAL, reports)) + Run(INITIAL, reports).ooBlocks, SumOutOfOrder(reports))
  {
    if reports != [] {
      hide Run, Next, Flushes, Flushed, FlushedOutOfOrder, FlushedFailures, SumOutOfOrder, SameSum;
      var front, p := reports[..|reports| - 1], reports[|reports| - 1];
      var c := Run(INITIAL, front);
      assert reports == front + [p];
      OutOfOrderConserved(front);
      RunOneMore(INITIAL, front, p);
      SumOneMore(front, p);
      FlushSums(Flushes(INITIAL, front), Flushed(c, p));
      ConservedStep(FlushedOutOfOrder(Flushes(INITIAL, front)), c, SumOutOfOrder(front), p);
    }
  }

  /**
   The statistics, one by one: entry i comes with the report that changes the rate for the i-th time, with the rate before
   that report.
   */
  lemma {:induction false} FlushesAre(c: Control, reports: seq<Report>, i: nat) returns (n: nat)
    requires i < |Flushes(c, reports)|
    ensures n < |reports| && |Flushes(c, reports[..n])| == i && |Flushes(c, reports[..n + 1])| == i + 1
    ensures Run(c, reports[..n]).bitrate != Run(c, reports[..n + 1]).bitrate
    ensures Flushes(c, reports)[i].bitrate == Run(c, reports[..n]).bitrate
  {
    hide Run, Next, Flushes, Flushed;
    if reports == [] {
      NothingFlushed(c);
    } else {
      var front, p := reports[..|reports| - 1], reports[|reports| - 1];
      assert reports == front + [p];
      RunOneMore(c, front, p);
      if i < |Flushes(c, front)| {
        n := FlushesAre(c, front, i);
        assert reports[..n] == front[..n] && reports[..n + 1] == front[..n + 1];
      } else {
        n := |front|;
        FlushIs(Run(c, front), p);
        assert reports[..n] == front && reports[..n + 1] == reports;
      }
    }
  }

  lemma {:induction false} NothingFlushed(c: Control)
    ensures Flushes(c, []) == []
  {
  }

  lemma {:induction false} FlushIs(c: Control, p: Report)
    ensures if Next(c, p).bitrate == c.bitrate then Flushed(c, p) == []
            else |Flushed(c, p)| == 1 && Flushed(c, p)[0].bitrate == c.bitrate
  {
  }

  /** And there is one to each change of the rate. */
  lemma {:induction false} OneFlushEach(c: Control, reports: seq<Report>, p: Report)
    ensures |Flushes(c, reports + [p])|
         == |Flushes(c, reports)| + if Run(c, reports + [p]).bitrate == Run(c, reports).bitrate then 0 else 1
  {
    hide Run, Next, Flushes, Flushed;
    RunOneMore(c, reports, p);
    FlushIs(Run(c, reports), p);
  }

  // ---- The loop --------------------------------------------------------------------------------

  /** The adjustment with the three branches of the code. */
  function Written(round: real -> real, c: Control, p: Report): (d: Control) {
    var congestion := Quotient(round, p.outOfOrderBlocks, p.totalBlocks);
    var survived := Wrapped32(c.ticksSurvived + 1);
    if Above(congestion, THOUSANDTH) || p.eccDecoderFailures > 0 then
      if c.bitrate >= MIN_BITRATE then
        c.(bitrate := Lowered(c.bitrate), ticksSurvived := 0, ticksToSurvive := Lengthened(c.ticksToSurvive))
      else c.(bitrate := MIN_BITRATE, ticksSurvived := 0)
    else if Under(congestion, UPPER) && Above(congestion, LOWER) then c.(ticksSurvived := survived)
    else if survived == c.ticksToSurvive then c.(bitrate := Wrapped32(c.bitrate + STEP), ticksSurvived := 0)
    else c.(ticksSurvived := survived)
  }

  /** It is the adjustment with two branches, on every report. */
  lemma {:induction false} WrittenIsAdjusted(round: real -> real, c: Control, p: Report)
    requires Rounds(round)
    ensures Written(round, c, p) == Adjusted(c, p)
  {
    CongestionTest(round, p);
    if !Congested(p) {
      MiddleBranchDead(Quotient(round, p.outOfOrderBlocks, p.totalBlocks));
    }
  }

  /** What reading from the client can give. */
  datatype Message = ReadError | AckPacket | FeedbackPacket(report: Option<Report>) | UnknownType

  /** The reports among the messages. */
  function ReportsIn(messages: seq<Message>): (reports: seq<Report>) {
    if messages == [] then []
    else
      var front := ReportsIn(messages[..|messages| - 1]);
      match messages[|messages| - 1]
      case FeedbackPacket(Some(p)) => front + [p]
      case _ => front
  }

  predicate Decodable(m: Message) {
    m.FeedbackPacket? && m.report.Some?
  }

  /** A decodable report is kept, whatever it says; any other message adds nothing. */
  lemma {:induction false} ReportsInOneMore(messages: seq<Message>, m: Message)
    ensures ReportsIn(messages + [m]) == if Decodable(m) then ReportsIn(messages) + [m.report.value] else ReportsIn(messages)
  {
    assert (messages + [m])[..|messages|] == messages;
  }

  /** idx are the positions of the decodable messages, in order. */
  ghost predicate AreDecodable(messages: seq<Message>, idx: seq<nat>) {
    && (forall i, j :: 0 <= i < j < |idx| ==> idx[i] < idx[j])
    && forall n: nat :: n in idx <==> n < |messages| && Decodable(messages[n])
  }

  lemma {:induction false} AreDecodableOneMore(front: seq<Message>, m: Message, idx: seq<nat>)
    requires AreDecodable(front, idx)
    ensures AreDecodable(front + [m], if Decodable(m) then idx + [|front|] else idx)
  {
    hide Decodable;
    var messages := front + [m];
    assert messages[|front|] == m && forall n :: 0 <= n < |front| ==> messages[n] == front[n];
    forall i | 0 <= i < |idx| ensures idx[i] < |front| {
      assert idx[i] in idx;
    }
  }

  /** reports are what the messages at these positions say. */
  ghost predicate ReportedAt(messages: seq<Message>, idx: seq<nat>, reports: seq<Report>) {
    && |idx| == |reports|
    && forall i :: 0 <= i < |idx| ==> idx[i] < |messages| && messages[idx[i]] == FeedbackPacket(Some(reports[i]))
  }

  lemma {:induction false} ReportedAtOneMore(front: seq<Message>, m: Message, idx: seq<nat>, reports: seq<Report>)
    requires ReportedAt(front, idx, reports)
    ensures ReportedAt(front + [m], idx, reports)
    ensures Decodable(m) ==> ReportedAt(front + [m], idx + [|front|], reports + [m.report.value])
  {
  }

  lemma {:induction false} NoReports()
    ensures AreDecodable([], []) && ReportedAt([], [], ReportsIn([]))
  {
  }

  /** The reports are exactly those of the decodable messages, in order, none left out. */
  lemma {:induction false} ReportsAreDecodable(messages: seq<Message>) returns (idx: seq<nat>)
    ensures AreDecodable(messages, idx) && ReportedAt(messages, idx, ReportsIn(messages))
  {
    hide ReportsIn, AreDecodable, ReportedAt, Decodable;
    if messages == [] {
      NoReports();
      idx := [];
    } else {
      var front, m := messages[..|messages| - 1], messages[|messages| - 1];
      assert messages == front + [m];
      var before := ReportsAreDecodable(front);
      ReportsInOneMore(front, m);
      AreDecodableOneMore(front, m, before);
      ReportedAtOneMore(front, m, before, ReportsIn(front));
      idx := if Decodable(m) then before + [|front|] else before;
    }
  }

  /** An idle link raises the rate: ten reports on no block at all, whatever else is read in between. */
  lemma {:induction false} IdleLinkRaises(messages: seq<Message>)
    requires |ReportsIn(messages)| == 10
    requires forall m :: m in messages && Decodable(m) ==> m.report.value == Report(0, 0, 0)
    ensures Run(INITIAL, ReportsIn(messages)).bitrate == 1000000
  {
    var idx := ReportsAreDecodable(messages);
    var reports := ReportsIn(messages);
    forall i | 0 <= i < 10 ensures reports[i] == Report(0, 0, 0) {
      assert messages[idx[i]] in messages;
    }
    hide Run, ReportsIn;
    var raises, survived := CleanRun(INITIAL, reports);
    assert raises == 1;
  }

  /** The variables of the loop, the rate it shares with the streaming thread, and what it sent to the statistics. */
  class FeedbackServer {
    /** How the machine rounds a quotient to a float. */
    const round: real -> real

    var bitrate: u32
    var ooBlocks: u16
    var decoderFailures: u16
    var ticksSurvived: u32
    var ticksToSurvive: u32
    var bitrateMtx: u32
    var statistics: seq<Flush>

    ghost function State(): (c: Control)
      reads this
    {
      Control(bitrate, ticksSurvived, ticksToSurvive, ooBlocks, decoderFailures)
    }

    /** The rate shared at first is not the one the loop starts from. */
    constructor (round: real -> real)
      ensures this.round == round && State() == INITIAL && bitrateMtx == 80000 && statistics == []
    {
      this.round := round;
      bitrate := 900000;
      ooBlocks, decoderFailures, ticksSurvived, ticksToSurvive := 0, 0, 0, 10;
      bitrateMtx := 80000;
      statistics := [];
    }

    method HandleReport(p: Report)
      requires Rounds(round)
      modifies this
      ensures State() == Next(old(State()), p)
      ensures bitrateMtx == bitrate
      ensures statistics == old(statistics) + Flushed(old(State()), p)
    {
      hide Above, Under, Lengthened, Lowered, Wrapped32, Wrapped16;
      WrittenIsAdjusted(round, State(), p);
      var congestion := Quotient(round, p.outOfOrderBlocks, p.totalBlocks);
      var rate: u32;
      if Above(congestion, THOUSANDTH) || p.eccDecoderFailures > 0 {
        ticksSurvived := 0;
        if bitrate >= MIN_BITRATE {
          ticksToSurvive := Lengthened(ticksToSurvive);
          rate := Lowered(bitrate);
        } else {
          rate := MIN_BITRATE;
        }
      } else if Under(congestion, UPPER) && Above(congestion, LOWER) {
        ticksSurvived := Wrapped32(ticksSurvived + 1);
        rate := bitrate;
      } else {
        ticksSurvived := Wrapped32(ticksSurvived + 1);
        if ticksSurvived == ticksToSurvive {
          ticksSurvived := 0;
          rate := Wrapped32(bitrate + STEP);
        } else {
          rate := bitrate;
        }
      }
      bitrateMtx := rate;
      ooBlocks := Wrapped16(ooBlocks + p.outOfOrderBlocks);
      decoderFailures := Wrapped16(decoderFailures + p.eccDecoderFailures);
      if bitrate != bitrateMtx {
        statistics := statistics + [Flush(bitrate, ooBlocks, decoderFailures)];
        ooBlocks, decoderFailures := 0, 0;
      }
      bitrate := bitrateMtx;
    }

    /** Whatever comes in, only reports count; the shared rate is the controller's as soon as there has been one. */
    method HandleFeedback(messages: seq<Message>)
      requires Rounds(round) && State() == INITIAL && bitrateMtx == 80000 && statistics == []
      modifies this
      ensures State() == Run(INITIAL, ReportsIn(messages))
      ensures bitrateMtx == if ReportsIn(messages) == [] then 80000 else Run(INITIAL, ReportsIn(messages)).bitrate
      ensures statistics == Flushes(INITIAL, ReportsIn(messages))
    {
      hide Next, Flushed;
      for i := 0 to |messages|
        invariant State() == Run(INITIAL, ReportsIn(messages[..i]))
        invariant bitrateMtx == if ReportsIn(messages[..i]) == [] then 80000 else bitrate
        invariant statistics == Flushes(INITIAL, ReportsIn(messages[..i]))
      {
        assert messages[..i + 1][..i] == messages[..i];
        match messages[i]
        case ReadError =>
        case AckPacket =>
        case FeedbackPacket(None) =>
        case FeedbackPacket(Some(p)) =>
          RunOneMore(INITIAL, ReportsIn(messages[..i]), p);
          HandleReport(p);
        case UnknownType =>
      }
      assert messages[..|messages|] == messages;
    }
  }
}
