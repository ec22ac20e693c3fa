/**
 The guard of the lifetime generation total, and the guard of energy counters.  Readings are
 real numbers; absent or unreadable ones are `None`.
 */
module Guards {
  import opened Wrappers

  type Reading = Option<real>

  function Abs(x: real): real {
    if x < 0.0 then -x else x
  }

  function Max(x: real, y: real): real {
    if x < y then y else x
  }

  /** The larger of two readings, where an absent one does not count. */
  function MaxReading(a: Reading, b: Reading): Reading {
    if a.None? then b else if b.None? then a else Some(Max(a.value, b.value))
  }

  /** `_tolerance` of two values */
  function Tolerance(x: real, y: real): real {
    Max(0.05, Max(Abs(x), Abs(y)) * 0.005)
  }

  function RoundHalfEven(y: real): int {
    var n := y.Floor;
    var rest := y - n as real;
    if rest < 0.5 || (rest == 0.5 && n % 2 == 0) then n else n + 1
  }

  /** `round(x, 2)` */
  function Round2(x: real): real {
    RoundHalfEven(x * 100.0) as real / 100.0
  }

  datatype Method = PreviousTotalLowerBound | YearTotalLowerBound

  /** What is recorded under `_total_lower_bound_guard`. */
  datatype Correction = Correction(how: Method, raw: Reading, corrected: real, year: Reading, previous: Reading)

  datatype Statistic = Statistic(generation: Reading, carbon: Reading, correction: Option<Correction>)

  function RoundedReading(r: Reading): Reading {
    if r.None? then None else Some(Round2(r.value))
  }

  /** The largest of the three candidates. */
  function Bound(raw: Reading, year: Reading, previous: Reading): Reading {
    MaxReading(MaxReading(raw, year), previous)
  }

  /** The total that the statistic is corrected to, if it is corrected. */
  function Corrected(raw: Reading, year: Reading, previous: Reading): Reading {
    var bound := Bound(raw, year, previous);
    if raw.None? then previous
    else if bound.value <= raw.value + Tolerance(bound.value, raw.value) then None
    else bound
  }

  function MethodFor(raw: Reading, corrected: real, previous: Reading): Method {
    if previous.Some? && (raw.None? || previous.value >= corrected - Tolerance(previous.value, corrected)) then
      PreviousTotalLowerBound
    else YearTotalLowerBound
  }

  /** The carbon total that keeps the app's factor when the generation changes. */
  function Scaled(generation: real, raw: real, carbon: real): real
    requires raw > 0.0
  {
    generation * (carbon / raw)
  }

  /** The app's factor between carbon and generation is believable. */
  predicate HasUsableFactor(raw: Reading, carbon: Reading) {
    raw.Some? && raw.value > 0.0 && carbon.Some? && 0.0 <= carbon.value / raw.value <= 5.0
  }

  function CarbonFor(raw: Reading, carbon: Reading, corrected: real): Reading {
    if HasUsableFactor(raw, carbon) then
      Some(Round2(Scaled(corrected, raw.value, carbon.value)))
    else carbon
  }

  function CorrectionOf(how: Method, raw: Reading, corrected: real, year: Reading, previous: Reading): Correction {
    Correction(how, RoundedReading(raw), Round2(corrected), RoundedReading(year), RoundedReading(previous))
  }

  /** The statistic that is published. */
  function Guarded(s: Statistic, year: Reading, previous: Reading): Statistic {
    match Corrected(s.generation, year, previous)
    case None => s
    case Some(c) =>
      var how := MethodFor(s.generation, c, previous);
      Statistic(Some(Round2(c)), CarbonFor(s.generation, s.carbon, c),
                Some(CorrectionOf(how, s.generation, c, year, previous)))
  }

  /** The published total alone. */
  function Published(raw: Reading, year: Reading, previous: Reading): Reading {
    Guarded(Statistic(raw, None, None), year, previous).generation
  }

  /** The readings that are there. */
  function Present(readings: seq<Reading>): (values: seq<real>)
    ensures forall v :: v in values <==> Some(v) in readings
  {
    if readings == [] then []
    else (if readings[0].Some? then [readings[0].value] else []) + Present(readings[1..])
  }

  /** `max(candidates)` */
  method Largest(candidates: seq<real>) returns (largest: real)
    requires candidates != []
    ensures largest in candidates && forall c :: c in candidates ==> c <= largest
  {
    largest := candidates[0];
    for i := 1 to |candidates|
      invariant largest in candidates && forall j :: 0 <= j < i ==> candidates[j] <= largest
    {
      largest := Max(largest, candidates[i]);
    }
  }

  class Payload {
    var statistic: Option<Statistic>
    var year: Reading

    /** `guard_lifetime_totals` */
    method GuardLifetimeTotals(previousStatistic: Option<Statistic>)
      modifies this`statistic
      ensures var previous := if previousStatistic.Some? then previousStatistic.value.generation else None;
        statistic == if old(statistic).None? then None else Some(Guarded(old(statistic).value, year, previous))
    {
      if statistic.None? {
        return;
      }
      var s := statistic.value;
      var raw := s.generation;
      var previous: Reading := if previousStatistic.Some? then previousStatistic.value.generation else None;
      var candidates := Present([raw, year, previous]);
      if candidates == [] {
        return;
      }
      var corrected := Largest(candidates);
      assert Bound(raw, year, previous) == Some(corrected);
      if raw.Some? && corrected <= raw.value + Tolerance(corrected, raw.value) {
        return;
      }
      var how: Method;
      if raw.None? {
        if previous.None? {
          return;
        }
        corrected := previous.value;
        how := PreviousTotalLowerBound;
      } else if previous.Some? && previous.value >= corrected - Tolerance(previous.value, corrected) {
        how := PreviousTotalLowerBound;
      } else {
        how := YearTotalLowerBound;
      }
      var guarded := s.(generation := Some(Round2(corrected)),
                        correction := Some(CorrectionOf(how, raw, corrected, year, previous)));
      if raw.Some? && raw.value > 0.0 && s.carbon.Some? {
        var factor := s.carbon.value / raw.value;
        if 0.0 <= factor <= 5.0 {
          guarded := guarded.(carbon := Some(Round2(Scaled(corrected, raw.value, s.carbon.value))));
        }
      }
      statistic := Some(guarded);
    }
  }

  // ---- Rounding ----

  lemma RoundingIsClose(x: real)
    ensures -0.005 <= Round2(x) - x <= 0.005
  {
    var y := x * 100.0;
    assert -0.5 <= RoundHalfEven(y) as real - y <= 0.5;
    assert Round2(x) * 100.0 == RoundHalfEven(y) as real;
  }

  lemma RoundingIsMonotone(x: real, y: real)
    requires x <= y
    ensures Round2(x) <= Round2(y)
  {
    assert (x * 100.0).Floor <= (y * 100.0).Floor;
    assert RoundHalfEven(x * 100.0) <= RoundHalfEven(y * 100.0);
  }

  /** The total has at most two decimals. */
  predicate InHundredths(x: real) {
    x * 100.0 == (x * 100.0).Floor as real
  }

  lemma RoundingKeepsHundredths(x: real)
    ensures InHundredths(x) <==> Round2(x) == x
  {
    assert Round2(x) * 100.0 == RoundHalfEven(x * 100.0) as real;
  }

  // ---- One poll ----

  /** A published total with a raw reading lies within max(0.05, 0.5%) of the largest bound. */
  lemma WithinToleranceOfBound(raw: Reading, year: Reading, previous: Reading)
    requires raw.Some?
    ensures var bound := Bound(raw, year, previous).value;
      var published := Published(raw, year, previous);
      && published.Some? && Abs(published.value - bound) <= Tolerance(bound, raw.value)
      && (raw.value >= 0.0 ==> Abs(published.value - bound) <= Max(0.05, 0.005 * bound))
  {
    RoundingIsClose(Bound(raw, year, previous).value);
  }

  /** The raw total is published as it is, because it is within the tolerance of the bound. */
  predicate PassesRaw(raw: Reading, year: Reading, previous: Reading) {
    raw.Some? && Bound(raw, year, previous).value <= raw.value + Tolerance(Bound(raw, year, previous).value, raw.value)
  }

  /**
   The total is published below one of its lower bounds `b`, the previous total or the current
   year, exactly when a raw total within the tolerance is below it, or when the corrected total,
   which without a raw total is the previous one, is below it once rounded.
   */
  lemma BelowBoundExactly(raw: Reading, year: Reading, previous: Reading, b: real)
    requires (raw.Some? || previous.Some?) && (year == Some(b) || previous == Some(b))
    ensures var published := Published(raw, year, previous);
      && published.Some?
      && (published.value < b <==>
            if PassesRaw(raw, year, previous) then raw.value < b
            else Round2(if raw.Some? then Bound(raw, year, previous).value else previous.value) < b)
  {}

  /** Rounding alone lowers a total by at most half a hundredth, and never one of two decimals. */
  lemma RoundingLowersLittle(raw: Reading, year: Reading, previous: Reading, b: real)
    requires raw.Some? && !PassesRaw(raw, year, previous) && (year == Some(b) || previous == Some(b))
    ensures var published := Published(raw, year, previous);
      published.Some? && published.value >= b - 0.005 && (InHundredths(b) ==> published.value >= b)
  {
    var bound := Bound(raw, year, previous).value;
    RoundingIsClose(bound);
    RoundingKeepsHundredths(b);
    RoundingIsMonotone(b, bound);
  }

  /**
   A previous total of two decimals is lowered exactly by a lower raw total within the tolerance:
   corrections and rounding never lower it.
   */
  lemma LoweredExactly(raw: Reading, year: Reading, previous: real)
    requires InHundredths(previous)
    ensures var published := Published(raw, year, Some(previous));
      published.Some? && (published.value < previous <==> PassesRaw(raw, year, Some(previous)) && raw.value < previous)
  {
    BelowBoundExactly(raw, year, Some(previous), previous);
    RoundingKeepsHundredths(previous);
    if raw.Some? && !PassesRaw(raw, year, Some(previous)) {
      RoundingLowersLittle(raw, year, Some(previous), previous);
    }
  }

  /** The lifetime total can be lowered: a raw total half a per cent below it is let through. */
  lemma LifetimeTotalCanDrop(previous: real)
    requires previous > 0.0
    ensures var published := Published(Some(previous * 0.995), None, Some(previous));
      published.Some? && published.value < previous
  {}

  /**
   Without a raw total the previous one is published again, so that the total can stay below
   the current year's generation.
   */
  lemma MissingTotalIgnoresYear(year: real, previous: real)
    ensures Published(None, Some(year), Some(previous)) == Some(Round2(previous))
    ensures InHundredths(previous) ==>
      (Published(None, Some(year), Some(previous)).value < year <==> previous < year)
  {
    RoundingKeepsHundredths(previous);
  }

  /** A correction blames a bound that is really there. */
  lemma CorrectionNamesItsBound(s: Statistic, year: Reading, previous: Reading)
    requires s.correction == None && Guarded(s, year, previous).correction.Some?
    ensures var c := Guarded(s, year, previous).correction.value;
      && Guarded(s, year, previous).generation == Some(c.corrected)
      && (c.how == YearTotalLowerBound ==> year.Some? && c.corrected == Round2(year.value))
      && (c.how == PreviousTotalLowerBound ==> (previous.Some?
           && Abs(c.corrected - previous.value) <= 0.005
              + Tolerance(previous.value, Bound(s.generation, year, previous).value)))
  {
    var c := Corrected(s.generation, year, previous).value;
    RoundingIsClose(c);
  }

  /**
   A corrected carbon total keeps the app's factor, up to rounding; it stays as it is if there
   is no usable factor or no correction.
   */
  lemma CarbonFollows(s: Statistic, year: Reading, previous: Reading)
    requires s.correction == None
    ensures var t := Guarded(s, year, previous);
      if t.correction.Some? && HasUsableFactor(s.generation, s.carbon) then
        t.carbon.Some? &&
        var bound := Bound(s.generation, year, previous).value;
        Abs(t.carbon.value - Scaled(bound, s.generation.value, s.carbon.value)) <= 0.005
      else t.carbon == s.carbon
  {
    if HasUsableFactor(s.generation, s.carbon) {
      RoundingIsClose(Scaled(Bound(s.generation, year, previous).value, s.generation.value, s.carbon.value));
    }
  }

  /**
   The total is corrected exactly when the raw total misses the bound by more than the tolerance, or
   is missing itself.
   */
  lemma CorrectedExactly(s: Statistic, year: Reading, previous: Reading)
    requires s.correction == None
    ensures Guarded(s, year, previous).correction.Some? <==>
      (if s.generation.Some? then
         Abs(Bound(s.generation, year, previous).value - s.generation.value)
           > Tolerance(Bound(s.generation, year, previous).value, s.generation.value)
       else previous.Some?)
    ensures Guarded(s, year, previous).correction.None? ==> Guarded(s, year, previous) == s
  {}

  /** Rounding takes the nearest integer and, halfway between two, the even one. */
  lemma RoundsHalfToEven(y: real, n: int)
    ensures RoundHalfEven(y) == n <==>
      -0.5 <= n as real - y <= 0.5 && (Abs(n as real - y) == 0.5 ==> n % 2 == 0)
  {
    var m := RoundHalfEven(y);
    assert -0.5 <= m as real - y <= 0.5;
    if -0.5 <= n as real - y <= 0.5 && n != m {
      assert n == m + 1 || n == m - 1;
      assert Abs(n as real - y) == 0.5;
    }
  }

  /** `b` is a reading that is there, and none is larger. */
  predicate IsLargest(b: real, raw: Reading, year: Reading, previous: Reading) {
    && (raw == Some(b) || year == Some(b) || previous == Some(b))
    && (raw.Some? ==> raw.value <= b) && (year.Some? ==> year.value <= b) && (previous.Some? ==> previous.value <= b)
  }

  lemma BoundIsLargest(raw: Reading, year: Reading, previous: Reading)
    ensures match Bound(raw, year, previous)
      case Some(b) => IsLargest(b, raw, year, previous)
      case None => raw.None? && year.None? && previous.None?
  {}

  /** A bound more than five hundredths above the raw total, which is itself below 99.5% of it. */
  predicate Exceeds(b: Reading, raw: real) {
    b.Some? && b.value > raw + 0.05 && raw < 0.995 * b.value
  }

  /**
   In numbers: a raw total is corrected exactly if the previous total or the current year exceeds it by
   more than 0.05 and more than half a per cent of itself, and then to the larger of these two.
   */
  lemma CorrectionInNumbers(s: Statistic, year: Reading, previous: Reading)
    requires s.correction == None && s.generation.Some? && s.generation.value >= 0.0
    ensures var raw, t := s.generation.value, Guarded(s, year, previous);
      if Exceeds(year, raw) || Exceeds(previous, raw) then
        exists b :: IsLargest(b, s.generation, year, previous) && t.generation == Some(Round2(b)) && t.correction.Some?
      else t == s
  {
    BoundIsLargest(s.generation, year, previous);
    var b := Bound(s.generation, year, previous).value;
    assert Exceeds(year, s.generation.value) || Exceeds(previous, s.generation.value)
      <==> b > s.generation.value + Tolerance(b, s.generation.value);
  }

  ghost predicate IsRounded(recorded: Reading, reading: Reading) {
    recorded.Some? == reading.Some? && (reading.Some? ==> Abs(recorded.value - reading.value) <= 0.005)
  }

  /**
   The record of a correction repeats each reading in its place, and blames the previous total
   whenever it comes close to the corrected total or the raw one is missing.
   */
  lemma CorrectionRecordsReadings(s: Statistic, year: Reading, previous: Reading, b: real)
    requires s.correction == None && Guarded(s, year, previous).correction.Some?
    requires s.generation.Some? ==> IsLargest(b, s.generation, year, previous) && b >= 0.0
    ensures var c := Guarded(s, year, previous).correction.value;
      && IsRounded(c.raw, s.generation) && IsRounded(c.year, year) && IsRounded(c.previous, previous)
      && (previous.Some? && previous.value >= 0.0 ==>
           (c.how == PreviousTotalLowerBound <==>
              s.generation.None? || previous.value >= b - 0.05 || previous.value >= 0.995 * b))
  {
    BoundIsLargest(s.generation, year, previous);
    RoundedReadingsAreClose(s.generation);
    RoundedReadingsAreClose(year);
    RoundedReadingsAreClose(previous);
  }

  lemma RoundedReadingsAreClose(r: Reading)
    ensures IsRounded(RoundedReading(r), r)
  {
    if r.Some? {
      RoundingIsClose(r.value);
    }
  }

  /**
   The same ratio of carbon to generation, before and after the correction: kept to within rounding
   if it lies between zero and five.
   */
  lemma CarbonInNumbers(s: Statistic, year: Reading, previous: Reading, b: real)
    requires s.correction == None && Guarded(s, year, previous).correction.Some?
    requires s.generation.Some? && IsLargest(b, s.generation, year, previous)
    ensures CarbonIsKept(s.generation.value, s.carbon, b, Guarded(s, year, previous).carbon)
  {
    BoundIsLargest(s.generation, year, previous);
    CarbonFollows(s, year, previous);
    assert b == Bound(s.generation, year, previous).value;
    CarbonInNumbersFor(s.generation.value, s.carbon, b, Guarded(s, year, previous).carbon);
  }

  ghost predicate CarbonIsKept(raw: real, carbon: Reading, b: real, published: Reading) {
    if raw > 0.0 && carbon.Some? && 0.0 <= carbon.value <= 5.0 * raw then
      published.Some? && Abs(published.value * raw - b * carbon.value) <= 0.005 * raw
    else published == carbon
  }

  lemma CarbonInNumbersFor(raw: real, carbon: Reading, b: real, published: Reading)
    requires if HasUsableFactor(Some(raw), carbon) then
        published.Some? && Abs(published.value - Scaled(b, raw, carbon.value)) <= 0.005
      else published == carbon
    ensures CarbonIsKept(raw, carbon, b, published)
  {
    if raw > 0.0 && carbon.Some? {
      RatioInNumbers(carbon.value, raw);
      if HasUsableFactor(Some(raw), carbon) {
        ScaledBack(b, raw, carbon.value, published.value);
      }
    }
  }

  lemma RatioInNumbers(carbon: real, raw: real)
    requires raw > 0.0
    ensures 0.0 <= carbon / raw <= 5.0 <==> 0.0 <= carbon <= 5.0 * raw
  {
    var ratio := carbon / raw;
    assert ratio * raw == carbon;
    TimesPositive(0.0, ratio, raw);
    TimesPositive(ratio, 5.0, raw);
  }

  lemma TimesPositive(x: real, y: real, factor: real)
    requires factor > 0.0
    ensures x <= y <==> x * factor <= y * factor
  {
    assert y * factor - x * factor == (y - x) * factor;
  }

  lemma ScaledBack(b: real, raw: real, carbon: real, published: real)
    requires raw > 0.0 && Abs(published - Scaled(b, raw, carbon)) <= 0.005
    ensures Abs(published * raw - b * carbon) <= 0.005 * raw
  {
    var ratio := carbon / raw;
    assert ratio * raw == carbon;
    assert (b * ratio) * raw == b * (ratio * raw);
    var error := published - b * ratio;
    assert published * raw - b * carbon == error * raw;
    assert -0.005 * raw <= error * raw <= 0.005 * raw;
  }

  // ---- Every sequence of polls ----

  datatype Poll = Poll(raw: Reading, year: Reading)

  predicate NonNegative(p: Poll) {
    (p.raw.Some? ==> p.raw.value >= 0.0) && (p.year.Some? ==> p.year.value >= 0.0)
  }

  /** The total after the polls, each published total being the previous one of the next poll. */
  function Total(start: Reading, polls: seq<Poll>): Reading {
    if polls == [] then start
    else
      var n := |polls| - 1;
      Published(polls[n].raw, polls[n].year, Total(start, polls[..n]))
  }

  /** `x` after `n` drops by half a per cent. */
  function Decayed(x: real, n: nat): real {
    if n == 0 then x else 0.995 * Decayed(x, n - 1)
  }

  function Power(x: real, n: nat): real {
    if n == 0 then 1.0 else x * Power(x, n - 1)
  }

  lemma {:induction false} DecayedIsPower(x: real, n: nat)
    ensures Decayed(x, n) == Power(0.995, n) * x
  {
    if n > 0 {
      DecayedIsPower(x, n - 1);
      assert 0.995 * (Power(0.995, n - 1) * x) == (0.995 * Power(0.995, n - 1)) * x;
    }
  }

  lemma OnePollDrop(p: Poll, previous: real)
    requires NonNegative(p) && previous >= 0.0
    ensures var published := Published(p.raw, p.year, Some(previous));
      published.Some? && published.value >= 0.0 && published.value >= 0.995 * previous - 0.05
  {
    var bound := Bound(p.raw, p.year, Some(previous)).value;
    RoundingIsClose(bound);
    RoundingIsClose(previous);
    RoundingIsMonotone(0.0, bound);
    RoundingIsMonotone(0.0, previous);
  }

  /** Over `n` polls the lifetime total falls by no more than 0.5% and 0.05 each. */
  lemma {:induction false} DriftIsBounded(start: real, polls: seq<Poll>)
    requires start >= 0.0 && forall i :: 0 <= i < |polls| ==> NonNegative(polls[i])
    ensures var total := Total(Some(start), polls);
      total.Some? && total.value >= 0.0 && total.value >= Decayed(start, |polls|) - 0.05 * |polls| as real
  {
    if polls != [] {
      var n := |polls| - 1;
      DriftIsBounded(start, polls[..n]);
      OnePollDrop(polls[n], Total(Some(start), polls[..n]).value);
    }
  }

  /** The bound cannot be improved in its main term: raw totals alone reach it. */
  lemma {:induction false} DriftIsReached(start: real, polls: seq<Poll>)
    requires start >= 0.0
    requires forall i :: 0 <= i < |polls| ==> polls[i] == Poll(Some(Decayed(start, i + 1)), None)
    ensures Total(Some(start), polls) == Some(Decayed(start, |polls|))
  {
    if polls != [] {
      var n := |polls| - 1;
      DriftIsReached(start, polls[..n]);
      DecayedIsNonNegative(start, n);
    }
  }

  lemma {:induction false} DecayedIsNonNegative(x: real, n: nat)
    requires x >= 0.0
    ensures Decayed(x, n) >= 0.0
  {
    if n > 0 {
      DecayedIsNonNegative(x, n - 1);
    }
  }

  // ---- The counter guard ----

  /** `guard_total_increasing_jitter` for a lifetime energy counter or any other sensor. */
  function GuardJitter(previous: Reading, current: Reading, isEnergyCounter: bool): Reading {
    if !isEnergyCounter then current
    else if previous.None? then current
    else if current.None? || current.value < previous.value then previous
    else current
  }

  /**
   The previous value is held exactly for an energy counter whose reading is missing or falls; any
   other sensor, and a counter that never had a value, shows the current one.
   */
  lemma HeldExactly(previous: Reading, current: Reading, isEnergyCounter: bool)
    ensures GuardJitter(previous, current, isEnergyCounter) ==
      if isEnergyCounter && previous.Some? && (current.Some? ==> current.value < previous.value) then previous
        else current
  {}

  function Shown(start: Reading, readings: seq<Reading>): Reading {
    if readings == [] then start
    else GuardJitter(Shown(start, readings[..|readings| - 1]), readings[|readings| - 1], true)
  }

  /** An energy counter shows the largest reading so far: it never falls, and shows no other value. */
  lemma {:induction false} ShownIsRunningMaximum(start: Reading, readings: seq<Reading>)
    ensures var shown := Shown(start, readings);
      && (shown.Some? ==> shown == start || shown in readings)
      && (start.Some? ==> shown.Some? && shown.value >= start.value)
      && (forall i :: 0 <= i < |readings| && readings[i].Some? ==> shown.Some? && readings[i].value <= shown.value)
  {
    if readings != [] {
      var n := |readings| - 1;
      assert readings == readings[..n] + [readings[n]];
      ShownIsRunningMaximum(start, readings[..n]);
    }
  }

  /** Whatever the lifetime guard publishes, the entity behind it never falls. */
  lemma {:induction false} EntityNeverFalls(start: Reading, readings: seq<Reading>, i: nat, j: nat)
    requires i <= j <= |readings|
    ensures Shown(start, readings[..i]).Some? ==>
      Shown(start, readings[..j]).Some? && Shown(start, readings[..i]).value <= Shown(start, readings[..j]).value
    decreases j
  {
    if i < j {
      EntityNeverFalls(start, readings, i, j - 1);
      assert readings[..j][..j - 1] == readings[..j - 1];
    }
  }
}
