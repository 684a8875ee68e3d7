/** Token and timing counters, integer percentages, and the context budget with
    its ladder of thresholds. Fractions are reals here. */
module Metrics {
  import opened Prelude

  // ---- Percentages

  const U128_MAX: nat := 0xFFFF_FFFF_FFFF_FFFF_FFFF_FFFF_FFFF_FFFF

  function PercentOf(part: U64, whole: U64): Option<U64> {
    if whole == 0 then None
    else
      var percent := (part * 100 + whole / 2) / whole;
      Some(if percent <= U64_MAX then percent else U64_MAX)
  }

  function RatioPercent(part: U64, whole: U64): Option<U64> {
    match PercentOf(part, whole)
    case None => None
    case Some(percent) => Some(Min(percent, 100))
  }

  /** q is 100 * part / whole rounded to the nearest integer, halves upward. */
  predicate RoundsHalfUp(q: int, part: int, whole: int) {
    (2 * q - 1) * whole <= 200 * part < (2 * q + 1) * whole
  }

  lemma Cancel(a: int, b: int, c: int)
    requires a * c < b * c && c > 0
    ensures a < b
  {
  }

  lemma HalfUpIsUnique(p: int, q: int, part: int, whole: int)
    requires whole > 0 && RoundsHalfUp(p, part, whole) && RoundsHalfUp(q, part, whole)
    ensures p == q
  {
    Cancel(2 * p - 1, 2 * q + 1, whole);
    Cancel(2 * q - 1, 2 * p + 1, whole);
  }

  lemma HalfUpDivision(part: nat, whole: nat)
    requires whole > 0
    ensures RoundsHalfUp((part * 100 + whole / 2) / whole, part, whole)
  {
    var n, h := part * 100 + whole / 2, whole / 2;
    var q := n / whole;
    assert n == q * whole + n % whole;
    assert whole == 2 * h || whole == 2 * h + 1;
    assert (2 * q - 1) * whole == 2 * (q * whole) - whole;
    assert (2 * q + 1) * whole == 2 * (q * whole) + whole;
  }

  /** For odd and even wholes alike the percentage is the half-up rounding of the
      exact quotient, save that it stops at the largest 64-bit value; and nothing
      computed on the way leaves 128 bits. */
  lemma PercentIsHalfUp(part: U64, whole: U64)
    requires whole > 0
    ensures part * 100 + whole / 2 <= U128_MAX
    ensures exists q: nat :: RoundsHalfUp(q, part, whole) && PercentOf(part, whole) == Some(Min(q, U64_MAX))
    ensures forall q: int :: RoundsHalfUp(q, part, whole) ==> PercentOf(part, whole) == Some(Min(q, U64_MAX))
  {
    var q0 := (part * 100 + whole / 2) / whole;
    HalfUpDivision(part, whole);
    forall q: int | RoundsHalfUp(q, part, whole) ensures q == q0 {
      HalfUpIsUnique(q, q0, part, whole);
    }
  }

  /** A share of a whole never needs its cap: the cap at 100 changes the answer
      exactly when the part exceeds the whole by half a percent or more. */
  lemma RatioIsCappedExactlyWhen(part: U64, whole: U64)
    requires whole > 0
    ensures RatioPercent(part, whole) != PercentOf(part, whole) <==> 200 * part >= 201 * whole
  {
    var q := (part * 100 + whole / 2) / whole;
    HalfUpDivision(part, whole);
    AtLeast(q, part, whole, 101);
  }

  /** There is no percentage of nothing, and of anything else a share is the
      percentage or a hundred, whichever is less. */
  lemma SharesOfNothingAreUnknown(part: U64, whole: U64)
    ensures PercentOf(part, whole).None? <==> whole == 0
    ensures RatioPercent(part, whole).None? <==> whole == 0
    ensures whole > 0 ==> RatioPercent(part, whole).value ==
                          if PercentOf(part, whole).value >= 100 then 100 else PercentOf(part, whole).value
  {
  }

  // A half-up rounding reaches n exactly from n minus a half on.
  lemma AtLeast(q: int, part: nat, whole: nat, n: int)
    requires whole > 0 && RoundsHalfUp(q, part, whole)
    ensures q >= n <==> 200 * part >= (2 * n - 1) * whole
  {
    if q >= n {
      MulLe(2 * n - 1, 2 * q - 1, whole);
    } else {
      MulLe(2 * q + 1, 2 * n - 1, whole);
    }
  }

  lemma MulLe(a: int, b: int, c: nat)
    requires a <= b
    ensures a * c <= b * c
  {
  }

  // ---- Counters

  datatype CacheCreation = CacheCreation(fiveMinutes: U64, oneHour: U64)

  datatype Usage = Usage(
    input: U64,
    output: U64,
    cacheRead: U64,
    cacheWrite: U64,
    reasoning: U64,
    total: U64,
    creation: Option<CacheCreation>
  )

  /** The exact sum of one measure over a sequence. */
  function Total<T>(xs: seq<T>, measure: T -> nat): nat {
    if xs == [] then 0 else Total(xs[..|xs| - 1], measure) + measure(xs[|xs| - 1])
  }

  function SatTotal<T>(xs: seq<T>, measure: T -> nat): U64 {
    Min(U64_MAX, Total(xs, measure))
  }

  lemma TotalSnoc<T>(xs: seq<T>, x: T, measure: T -> nat)
    ensures Total(xs + [x], measure) == Total(xs, measure) + measure(x)
  {
    assert (xs + [x])[..|xs|] == xs;
  }

  function Input(u: Usage): nat { u.input }
  function Output(u: Usage): nat { u.output }
  function CacheRead(u: Usage): nat { u.cacheRead }
  function CacheWrite(u: Usage): nat { u.cacheWrite }
  function Reasoning(u: Usage): nat { u.reasoning }
  function FiveMinutes(u: Usage): nat { if u.creation.Some? then u.creation.value.fiveMinutes else 0 }
  function OneHour(u: Usage): nat { if u.creation.Some? then u.creation.value.oneHour else 0 }

  const U32_MAX: nat := 0xFFFF_FFFF

  datatype Flows = Flows(
    providerTurns: nat,
    input: U64,
    output: U64,
    cacheRead: U64,
    cacheWrite: U64,
    reasoning: U64,
    fiveMinutes: U64,
    oneHour: U64,
    breakdownReported: bool,
    latestTotal: Option<U64>
  )

  function AddUsage(f: Flows, u: Usage): Flows {
    Flows(
      Min(U32_MAX, f.providerTurns + 1),
      SatAdd(f.input, u.input),
      SatAdd(f.output, u.output),
      SatAdd(f.cacheRead, u.cacheRead),
      SatAdd(f.cacheWrite, u.cacheWrite),
      SatAdd(f.reasoning, u.reasoning),
      if u.creation.Some? then SatAdd(f.fiveMinutes, u.creation.value.fiveMinutes) else f.fiveMinutes,
      if u.creation.Some? then SatAdd(f.oneHour, u.creation.value.oneHour) else f.oneHour,
      f.breakdownReported || u.creation.Some?,
      Some(u.total))
  }

  function FlowsOf(us: seq<Usage>): Flows {
    if us == [] then Flows(0, 0, 0, 0, 0, 0, 0, 0, false, None)
    else AddUsage(FlowsOf(us[..|us| - 1]), us[|us| - 1])
  }

  /** Totals over the turns observed so far. */
  class TokenFlows {
    ghost var observed: seq<Usage>
    var providerTurns: nat
    var input: U64
    var output: U64
    var cacheRead: U64
    var cacheWrite: U64
    var reasoning: U64
    var fiveMinutes: U64
    var oneHour: U64
    var breakdownReported: bool
    var latestTotal: Option<U64>

    function State(): Flows
      reads this
    {
      Flows(providerTurns, input, output, cacheRead, cacheWrite, reasoning,
            fiveMinutes, oneHour, breakdownReported, latestTotal)
    }

    ghost predicate Valid()
      reads this
    {
      State() == FlowsOf(observed)
    }

    constructor ()
      ensures Valid() && observed == []
    {
      observed := [];
      providerTurns, input, output, cacheRead, cacheWrite := 0, 0, 0, 0, 0;
      reasoning, fiveMinutes, oneHour := 0, 0, 0;
      breakdownReported, latestTotal := false, None;
    }

    method Observe(u: Usage)
      requires Valid()
      modifies this
      ensures Valid() && observed == old(observed) + [u]
    {
      ghost var before := State();
      OneUsageMore(observed, u);
      providerTurns := if providerTurns < U32_MAX then providerTurns + 1 else U32_MAX;
      input := SatAdd(input, u.input);
      output := SatAdd(output, u.output);
      cacheRead := SatAdd(cacheRead, u.cacheRead);
      cacheWrite := SatAdd(cacheWrite, u.cacheWrite);
      reasoning := SatAdd(reasoning, u.reasoning);
      if u.creation.Some? {
        breakdownReported := true;
        fiveMinutes := SatAdd(fiveMinutes, u.creation.value.fiveMinutes);
        oneHour := SatAdd(oneHour, u.creation.value.oneHour);
      }
      latestTotal := Some(u.total);
      assert State() == AddUsage(before, u);
      observed := observed + [u];
    }
  }

  lemma OneUsageMore(us: seq<Usage>, u: Usage)
    ensures FlowsOf(us + [u]) == AddUsage(FlowsOf(us), u)
    ensures FlowsOf(us).providerTurns <= U32_MAX
  {
    assert (us + [u])[..|us|] == us;
    TurnsAreCounted(us);
  }

  /** One turn shows each of its own counts in the counter for it. */
  lemma OneTurnShowsItsCounts(u: Usage)
    ensures var f := FlowsOf([u]);
            && f.providerTurns == 1 && f.latestTotal == Some(u.total)
            && f.input == u.input && f.output == u.output && f.reasoning == u.reasoning
            && f.cacheRead == u.cacheRead && f.cacheWrite == u.cacheWrite
            && f.breakdownReported == u.creation.Some?
            && (u.creation.Some? ==> f.fiveMinutes == u.creation.value.fiveMinutes && f.oneHour == u.creation.value.oneHour)
            && (u.creation.None? ==> f.fiveMinutes == f.oneHour == 0)
  {
    assert [u][..0] == [];
  }

  lemma {:induction false} TurnsAreCounted(us: seq<Usage>)
    ensures FlowsOf(us).providerTurns == Min(U32_MAX, |us|)
    ensures FlowsOf(us).latestTotal == if us == [] then None else Some(us[|us| - 1].total)
    ensures FlowsOf(us).breakdownReported <==> exists i :: 0 <= i < |us| && us[i].creation.Some?
  {
    if us != [] {
      TurnsAreCounted(us[..|us| - 1]);
    }
  }

  /** Each counter is the saturated total of its own increments over every turn
      observed, so no counter loses anything before it is full. */
  lemma {:induction false} CountersAreSaturatedTotals(us: seq<Usage>)
    ensures var f := FlowsOf(us);
            && f.input == SatTotal(us, Input) && f.output == SatTotal(us, Output)
            && f.cacheRead == SatTotal(us, CacheRead) && f.cacheWrite == SatTotal(us, CacheWrite)
            && f.reasoning == SatTotal(us, Reasoning)
            && f.fiveMinutes == SatTotal(us, FiveMinutes) && f.oneHour == SatTotal(us, OneHour)
  {
    if us != [] {
      CountersAreSaturatedTotals(us[..|us| - 1]);
    }
  }

  lemma {:induction false} TotalAppend<T>(xs: seq<T>, ys: seq<T>, measure: T -> nat)
    ensures Total(xs + ys, measure) == Total(xs, measure) + Total(ys, measure)
  {
    if ys == [] {
      assert xs + ys == xs;
    } else {
      var init, y := ys[..|ys| - 1], ys[|ys| - 1];
      TotalAppend(xs, init, measure);
      TotalSnoc(xs + init, y, measure);
      assert xs + ys == (xs + init) + [y];
    }
  }

  function Flatten<T>(batches: seq<seq<T>>): seq<T> {
    if batches == [] then [] else Flatten(batches[..|batches| - 1]) + batches[|batches| - 1]
  }

  // Saturating each part first does not change the saturated total.
  lemma {:induction false} SaturatedPartsAddUp<T>(batches: seq<seq<T>>, measure: T -> nat, part: seq<T> -> nat)
    requires forall batch :: batch in batches ==> part(batch) == SatTotal(batch, measure)
    ensures SatTotal(batches, part) == SatTotal(Flatten(batches), measure)
  {
    if batches != [] {
      var init, last := batches[..|batches| - 1], batches[|batches| - 1];
      assert batches == init + [last];
      SaturatedPartsAddUp(init, measure, part);
      TotalAppend(Flatten(init), last, measure);
    }
  }

  /** The session's meter and the meters of its tasks cannot disagree: a session
      counter is the saturated sum of what the tasks' own meters show, however the
      turns fall into tasks and whichever of the meters is full. */
  lemma SessionIsTheSumOfItsTasks(tasks: seq<seq<Usage>>)
    ensures var session := FlowsOf(Flatten(tasks));
            && session.input == SatTotal(tasks, task => FlowsOf(task).input)
            && session.output == SatTotal(tasks, task => FlowsOf(task).output)
            && session.cacheRead == SatTotal(tasks, task => FlowsOf(task).cacheRead)
            && session.cacheWrite == SatTotal(tasks, task => FlowsOf(task).cacheWrite)
            && session.reasoning == SatTotal(tasks, task => FlowsOf(task).reasoning)
            && session.fiveMinutes == SatTotal(tasks, task => FlowsOf(task).fiveMinutes)
            && session.oneHour == SatTotal(tasks, task => FlowsOf(task).oneHour)
  {
    CountersAreSaturatedTotals(Flatten(tasks));
    forall task | task in tasks {
      CountersAreSaturatedTotals(task);
    }
    SaturatedPartsAddUp(tasks, Input, task => FlowsOf(task).input);
    SaturatedPartsAddUp(tasks, Output, task => FlowsOf(task).output);
    SaturatedPartsAddUp(tasks, CacheRead, task => FlowsOf(task).cacheRead);
    SaturatedPartsAddUp(tasks, CacheWrite, task => FlowsOf(task).cacheWrite);
    SaturatedPartsAddUp(tasks, Reasoning, task => FlowsOf(task).reasoning);
    SaturatedPartsAddUp(tasks, FiveMinutes, task => FlowsOf(task).fiveMinutes);
    SaturatedPartsAddUp(tasks, OneHour, task => FlowsOf(task).oneHour);
  }

  /** Cache reads stay within input as long as they do in every single usage, even
      when the counters saturate. */
  lemma {:induction false} CacheReadsStayWithinInput(us: seq<Usage>)
    requires forall u :: u in us ==> u.cacheRead <= u.input
    ensures SatTotal(us, CacheRead) <= SatTotal(us, Input)
    ensures Total(us, CacheRead) <= Total(us, Input)
  {
    if us != [] {
      var init, u := us[..|us| - 1], us[|us| - 1];
      assert us == init + [u];
      CacheReadsStayWithinInput(init);
    }
  }

  // ---- Timing

  datatype Timing = Timing(duration: Duration, firstOutput: Option<Duration>)

  function Generation(t: Timing): nat {
    match t.firstOutput
    case None => t.duration
    case Some(wait) => Max(0, t.duration - wait)
  }

  function Wait(t: Timing): nat {
    match t.firstOutput case None => 0 case Some(wait) => wait
  }

  function Whole(t: Timing): nat { t.duration }

  function Streamed(t: Timing): nat { if t.firstOutput.Some? then 1 else 0 }

  class TimingStats {
    ghost var observed: seq<Timing>
    var generation: Duration
    var waitTotal: Duration
    var waitSamples: nat

    ghost predicate Valid()
      reads this
    {
      && generation == Min(DURATION_MAX, Total(observed, Generation))
      && waitTotal == Min(DURATION_MAX, Total(observed, Wait))
      && waitSamples == Min(U32_MAX, Total(observed, Streamed))
    }

    constructor ()
      ensures Valid() && observed == []
    {
      observed, generation, waitTotal, waitSamples := [], 0, 0, 0;
    }

    method Observe(t: Timing)
      requires Valid()
      modifies this
      ensures Valid() && observed == old(observed) + [t]
    {
      var generated: Duration;
      match t.firstOutput {
        case Some(wait) =>
          waitTotal := SatAddDuration(waitTotal, wait);
          waitSamples := Min(U32_MAX, waitSamples + 1);
          generated := Max(0, t.duration - wait);
        case None =>
          generated := t.duration;
      }
      generation := SatAddDuration(generation, generated);
      TotalSnoc(observed, t, Generation);
      TotalSnoc(observed, t, Wait);
      TotalSnoc(observed, t, Streamed);
      observed := observed + [t];
    }

    /** Mean wait over the turns that streamed; none when no turn did. */
    method AverageWait() returns (mean: Option<nat>)
      requires Valid()
      ensures mean.None? <==> forall t :: t in observed ==> t.firstOutput.None?
      ensures mean.Some? ==> mean.value * waitSamples <= waitTotal < (mean.value + 1) * waitSamples
    {
      NoSamplesMeansNoneStreamed(observed);
      if waitSamples == 0 {
        return None;
      }
      mean := Some(waitTotal / waitSamples);
    }
  }

  lemma {:induction false} NoSamplesMeansNoneStreamed(ts: seq<Timing>)
    ensures Total(ts, Streamed) == 0 <==> forall t :: t in ts ==> t.firstOutput.None?
  {
    if ts != [] {
      var init, t := ts[..|ts| - 1], ts[|ts| - 1];
      assert ts == init + [t];
      NoSamplesMeansNoneStreamed(init);
    }
  }

  /** A turn's generation is what its wait leaves of it, none if the wait is longer;
      and only turns that streamed are samples. */
  lemma TurnsSplitIntoWaitAndGeneration(t: Timing)
    ensures t.firstOutput.None? ==> Generation(t) == t.duration && Wait(t) == 0
    ensures t.firstOutput.Some? ==>
              && Wait(t) == t.firstOutput.value
              && (if Wait(t) <= t.duration then Generation(t) + Wait(t) == t.duration else Generation(t) == 0)
    ensures Streamed(t) == if t.firstOutput.Some? then 1 else 0
  {
  }

  /** Generation and waiting add up to the whole exactly when every wait lies
      within its own turn; otherwise they add up to more. */
  lemma {:induction false} GenerationAndWaitsAddUp(ts: seq<Timing>)
    ensures Total(ts, Generation) + Total(ts, Wait) >= Total(ts, Whole)
    ensures Total(ts, Generation) + Total(ts, Wait) == Total(ts, Whole) <==>
              forall t :: t in ts ==> Wait(t) <= t.duration
  {
    if ts != [] {
      var init, t := ts[..|ts| - 1], ts[|ts| - 1];
      assert ts == init + [t];
      GenerationAndWaitsAddUp(init);
    }
  }

  // ---- Context budget

  datatype WindowFacts = WindowFacts(displayed: U64, hard: U64)

  datatype Budget = Budget(
    window: Option<WindowFacts>,
    clamp: Option<U64>,
    displayed: U64,
    warning: U64,
    preparation: U64,
    hard: U64
  )

  const DEFAULT_WARN := 0.60

  const DEFAULT_START := 0.72

  const DEFAULT_HARD := 0.90

  /** `(displayed as f64 * fraction).floor() as u64`; the cast saturates. */
  function Fraction(displayed: U64, fraction: real): U64 {
    var scaled := (displayed as real * fraction).Floor;
    if scaled < 0 then 0 else Min(scaled, U64_MAX)
  }

  function Clamped(value: U64, clamp: Option<U64>): U64 {
    match clamp case None => value case Some(cap) => Min(cap, value)
  }

  function WithThresholds(b: Budget, warn: real, start: real, hard: real): Budget {
    var hardThreshold := if b.window.None? then Fraction(b.displayed, hard) else b.hard;
    var preparation := Min(Fraction(b.displayed, start), hardThreshold);
    b.(hard := hardThreshold,
       preparation := preparation,
       warning := Min(Fraction(b.displayed, warn), preparation))
  }

  function WithHardFraction(b: Budget, hard: real): Budget {
    var hardThreshold := Min(Fraction(b.displayed, hard), b.displayed);
    var preparation := Min(b.preparation, hardThreshold);
    b.(hard := hardThreshold, preparation := preparation, warning := Min(b.warning, preparation))
  }

  /** The budget before its thresholds are set. */
  function Unset(window: Option<WindowFacts>, clamp: Option<U64>, fallback: U64): Budget {
    var display := if window.Some? then window.value.displayed else fallback;
    var hard := if window.Some? then window.value.hard else fallback;
    Budget(window, clamp, Clamped(display, clamp), 0, 0, Clamped(hard, clamp))
  }

  function Resolve(window: Option<WindowFacts>, clamp: Option<U64>, fallback: U64): Budget {
    WithThresholds(Unset(window, clamp, fallback), DEFAULT_WARN, DEFAULT_START, DEFAULT_HARD)
  }

  predicate IsClamped(b: Budget) {
    b.clamp.Some? && b.window.Some? &&
    (b.clamp.value < b.window.value.displayed || b.clamp.value < b.window.value.hard)
  }

  datatype Tuning = Thresholds(warn: real, start: real, hard: real) | HardFraction(fraction: real)

  function Tune(b: Budget, tunings: seq<Tuning>): Budget {
    if tunings == [] then b
    else
      var earlier := Tune(b, tunings[..|tunings| - 1]);
      match tunings[|tunings| - 1]
      case Thresholds(warn, start, hard) => WithThresholds(earlier, warn, start, hard)
      case HardFraction(fraction) => WithHardFraction(earlier, fraction)
  }

  predicate IsFraction(x: real) {
    0.0 <= x <= 1.0
  }

  predicate Fractions(tunings: seq<Tuning>) {
    forall i :: 0 <= i < |tunings| ==>
      match tunings[i]
      case Thresholds(warn, start, hard) => IsFraction(warn) && IsFraction(start) && IsFraction(hard)
      case HardFraction(fraction) => IsFraction(fraction)
  }

  predicate Ordered(b: Budget) {
    b.warning <= b.preparation <= b.hard <= b.displayed
  }

  lemma ScaleIsMonotone(a: real, b: real, c: real)
    requires a <= b && c >= 0.0
    ensures a * c <= b * c
  {
  }

  lemma FloorIsMonotone(a: real, b: real)
    requires a <= b
    ensures a.Floor <= b.Floor
  {
  }

  lemma FractionIsPart(displayed: U64, fraction: real)
    requires IsFraction(fraction)
    ensures Fraction(displayed, fraction) <= displayed
  {
    var d := displayed as real;
    ScaleIsMonotone(fraction, 1.0, d);
    assert d * fraction == fraction * d;
    FloorIsMonotone(d * fraction, d);
    assert d.Floor == displayed;
  }

  lemma FractionIsMonotone(low: U64, high: U64, fraction: real)
    requires low <= high && IsFraction(fraction)
    ensures Fraction(low, fraction) <= Fraction(high, fraction)
  {
    var a, b := low as real * fraction, high as real * fraction;
    ScaleIsMonotone(low as real, high as real, fraction);
    assert a <= b;
    FloorIsMonotone(a, b);
  }

  lemma LargestWithin(displayed: U64, fraction: real, n: nat)
    requires IsFraction(fraction)
    ensures n <= Fraction(displayed, fraction) <==> n as real <= displayed as real * fraction
  {
    FractionIsPart(displayed, fraction);
    var scaled := displayed as real * fraction;
    ScaleIsMonotone(0.0, fraction, displayed as real);
    assert fraction * displayed as real == scaled;
    assert scaled.Floor as real <= scaled < scaled.Floor as real + 1.0;
  }

  // Each threshold a tuning sets is the largest count within its fraction of the
  // displayed window and within the threshold above it.

  lemma HardIsTheLargestAllowed(b: Budget, warn: real, start: real, hard: real, n: nat)
    requires IsFraction(hard)
    ensures n <= WithThresholds(b, warn, start, hard).hard <==>
            if b.window.None? then n as real <= b.displayed as real * hard else n <= b.hard
  {
    LargestWithin(b.displayed, hard, n);
  }

  lemma PreparationIsTheLargestAllowed(b: Budget, warn: real, start: real, hard: real, n: nat)
    requires IsFraction(start)
    ensures var t := WithThresholds(b, warn, start, hard);
            n <= t.preparation <==> n as real <= b.displayed as real * start && n <= t.hard
  {
    LargestWithin(b.displayed, start, n);
  }

  lemma WarningIsTheLargestAllowed(b: Budget, warn: real, start: real, hard: real, n: nat)
    requires IsFraction(warn)
    ensures var t := WithThresholds(b, warn, start, hard);
            n <= t.warning <==> n as real <= b.displayed as real * warn && n <= t.preparation
  {
    LargestWithin(b.displayed, warn, n);
  }

  /** A hard fraction set on its own caps the two thresholds below as well. */
  lemma HardFractionIsTheLargestAllowed(b: Budget, hard: real, n: nat)
    requires IsFraction(hard)
    ensures var t := WithHardFraction(b, hard);
            && (n <= t.hard <==> n as real <= b.displayed as real * hard)
            && (n <= t.preparation <==> n <= b.preparation && n <= t.hard)
            && (n <= t.warning <==> n <= b.warning && n <= t.preparation)
  {
    LargestWithin(b.displayed, hard, n);
    FractionIsPart(b.displayed, hard);
  }

  /** The window shown is the model's, or the fallback for an unknown model, up to
      the clamp; so is the hard threshold of a known one. The other thresholds of a
      resolved budget are the largest counts within 60, 72 and, for an unknown
      model, 90 hundredths of that window, each within the one above it. */
  lemma ResolvedBudgetsAreTheLargestAllowed(window: Option<WindowFacts>, clamp: Option<U64>, fallback: U64, n: nat)
    ensures var b := Resolve(window, clamp, fallback);
            var within := clamp.Some? ==> n <= clamp.value;
            && b.window == window && b.clamp == clamp
            && (n <= b.displayed <==> within && n <= if window.Some? then window.value.displayed else fallback)
            && (window.Some? ==> (n <= b.hard <==> within && n <= window.value.hard))
  {
  }

  lemma ResolvedWarningIsTheLargestAllowed(window: Option<WindowFacts>, clamp: Option<U64>, fallback: U64, n: nat)
    ensures var b := Resolve(window, clamp, fallback);
            n <= b.warning <==> n as real <= b.displayed as real * 0.60 && n <= b.preparation
  {
    WarningIsTheLargestAllowed(Unset(window, clamp, fallback), 0.60, 0.72, 0.90, n);
  }

  lemma ResolvedPreparationIsTheLargestAllowed(window: Option<WindowFacts>, clamp: Option<U64>, fallback: U64, n: nat)
    ensures var b := Resolve(window, clamp, fallback);
            n <= b.preparation <==> n as real <= b.displayed as real * 0.72 && n <= b.hard
  {
    PreparationIsTheLargestAllowed(Unset(window, clamp, fallback), 0.60, 0.72, 0.90, n);
  }

  lemma ResolvedHardIsTheLargestAllowed(clamp: Option<U64>, fallback: U64, n: nat)
    ensures var b := Resolve(None, clamp, fallback);
            n <= b.hard <==> n as real <= b.displayed as real * 0.90
  {
    HardIsTheLargestAllowed(Unset(None, clamp, fallback), 0.60, 0.72, 0.90, n);
  }

  /** The ladder stays ordered through resolution and any chain of tunings. */
  lemma {:induction false} LadderStaysOrdered(window: Option<WindowFacts>, clamp: Option<U64>, fallback: U64, tunings: seq<Tuning>)
    requires window.Some? ==> window.value.hard <= window.value.displayed
    requires Fractions(tunings)
    ensures Ordered(Tune(Resolve(window, clamp, fallback), tunings))
  {
    var b := Resolve(window, clamp, fallback);
    if tunings == [] {
      FractionIsPart(b.displayed, DEFAULT_HARD);
    } else {
      var init := tunings[..|tunings| - 1];
      LadderStaysOrdered(window, clamp, fallback, init);
      TuningKeepsWindow(b, init);
      match tunings[|tunings| - 1]
      case Thresholds(_, _, hard) => FractionIsPart(b.displayed, hard);
      case HardFraction(_) =>
    }
  }

  lemma {:induction false} TuningKeepsWindow(b: Budget, tunings: seq<Tuning>)
    ensures var t := Tune(b, tunings); t.window == b.window && t.clamp == b.clamp && t.displayed == b.displayed
  {
    if tunings != [] {
      TuningKeepsWindow(b, tunings[..|tunings| - 1]);
    }
  }

  predicate Below(a: Budget, b: Budget) {
    && a.window == b.window
    && a.displayed <= b.displayed && a.warning <= b.warning
    && a.preparation <= b.preparation && a.hard <= b.hard
  }

  lemma ThresholdsAreMonotone(a: Budget, b: Budget, warn: real, start: real, hard: real)
    requires Below(a, b) && IsFraction(warn) && IsFraction(start) && IsFraction(hard)
    ensures Below(WithThresholds(a, warn, start, hard), WithThresholds(b, warn, start, hard))
  {
    FractionIsMonotone(a.displayed, b.displayed, warn);
    FractionIsMonotone(a.displayed, b.displayed, start);
    FractionIsMonotone(a.displayed, b.displayed, hard);
  }

  /** Lowering the clamp, or setting one, never raises any of the four values,
      through any chain of tunings. */
  lemma {:induction false} LowerClampNeverRaises(window: Option<WindowFacts>, low: U64, high: Option<U64>, fallback: U64, tunings: seq<Tuning>)
    requires high.Some? ==> low <= high.value
    requires Fractions(tunings)
    ensures Below(Tune(Resolve(window, Some(low), fallback), tunings), Tune(Resolve(window, high, fallback), tunings))
  {
    var a, b := Resolve(window, Some(low), fallback), Resolve(window, high, fallback);
    if tunings == [] {
      ThresholdsAreMonotone(
        Unset(window, Some(low), fallback),
        Unset(window, high, fallback),
        DEFAULT_WARN, DEFAULT_START, DEFAULT_HARD);
    } else {
      var init := tunings[..|tunings| - 1];
      LowerClampNeverRaises(window, low, high, fallback, init);
      var x, y := Tune(a, init), Tune(b, init);
      match tunings[|tunings| - 1]
      case Thresholds(warn, start, hard) => ThresholdsAreMonotone(x, y, warn, start, hard);
      case HardFraction(fraction) => FractionIsMonotone(x.displayed, y.displayed, fraction);
    }
  }

  /** For a model whose window is known, a budget counts as clamped exactly when
      the clamp changed its displayed window or its resolved hard threshold,
      however it is tuned afterwards. With no known window it never does. */
  lemma ClampedExactlyWhenTheClampBites(window: Option<WindowFacts>, clamp: Option<U64>, fallback: U64, tunings: seq<Tuning>)
    ensures var b, free := Resolve(window, clamp, fallback), Resolve(window, None, fallback);
            IsClamped(Tune(b, tunings)) <==>
              window.Some? && (b.displayed != free.displayed || b.hard != free.hard)
  {
    TuningKeepsWindow(Resolve(window, clamp, fallback), tunings);
  }
}
