/**
 * The sleep model's helpers: the duration of a night in whole minutes, the
 * number of complete 90-minute sleep cycles, the sleep efficiency as a
 * percentage, and the quality range of a stored sleep entry.
 */
module Sleep {
  import opened Wrappers

  /** `Math.round`: the nearest integer, halves rounded up (towards +infinity). */
  function Round(x: real): (r: int)
    ensures r as real - 0.5 <= x < r as real + 0.5
  {
    (x + 0.5).Floor
  }

  const MillisPerMinute: int := 1000 * 60

  /** `calculateSleepDuration`: the clock readings are milliseconds since the epoch. */
  function SleepDuration(startMillis: int, endMillis: int): int {
    Round((endMillis - startMillis) as real / MillisPerMinute as real)
  }

  /** On whole milliseconds the rounding is integer arithmetic: add half a minute and divide. */
  lemma DurationIsHalfUpDivision(startMillis: int, endMillis: int)
    ensures SleepDuration(startMillis, endMillis) == (endMillis - startMillis + 30000) / 60000
  {
    var ms := endMillis - startMillis;
    var q := (ms + 30000) / 60000;
    var r := (ms + 30000) % 60000;
    assert ms + 30000 == 60000 * q + r && 0 <= r < 60000;
    var x := ms as real / 60000.0;
    assert x + 0.5 == q as real + r as real / 60000.0;
    assert q as real <= x + 0.5 < q as real + 1.0;
    FloorUnique(x + 0.5, q);
  }

  lemma FloorUnique(y: real, k: int)
    requires k as real <= y < k as real + 1.0
    ensures y.Floor == k
  {
  }

  /** Equal readings give 0; the sign of the result is the sign of the difference, to the nearest minute. */
  lemma DurationSign(startMillis: int, endMillis: int)
    ensures startMillis == endMillis ==> SleepDuration(startMillis, endMillis) == 0
    ensures SleepDuration(startMillis, endMillis) < 0 <==> endMillis - startMillis < -30000
    ensures SleepDuration(startMillis, endMillis) > 0 <==> endMillis - startMillis >= 30000
    ensures endMillis < startMillis ==> SleepDuration(startMillis, endMillis) <= 0
  {
    DurationIsHalfUpDivision(startMillis, endMillis);
  }

  /** A whole number of minutes is returned unchanged. */
  lemma DurationOfWholeMinutes(startMillis: int, minutes: int)
    ensures SleepDuration(startMillis, startMillis + minutes * 60000) == minutes
  {
    DurationIsHalfUpDivision(startMillis, startMillis + minutes * 60000);
    assert minutes * 60000 + 30000 == 60000 * minutes + 30000;
  }

  const CycleMinutes: int := 90

  /** `estimateSleepCycles`: `Math.floor(d / 90)`, the number of complete cycles. */
  function SleepCycles(durationMinutes: int): (c: int)
    ensures CycleMinutes * c <= durationMinutes < CycleMinutes * (c + 1)
  {
    durationMinutes / CycleMinutes
  }

  /** A longer night never has fewer cycles. */
  lemma CyclesMonotone(d1: int, d2: int)
    requires d1 <= d2
    ensures SleepCycles(d1) <= SleepCycles(d2)
  {
    var c1, c2 := SleepCycles(d1), SleepCycles(d2);
    assert CycleMinutes * c1 < CycleMinutes * (c2 + 1);
  }

  /**
   * `calculateSleepEfficiency`: `Math.round(d / t * 100)`. A zero time in bed
   * divides by zero, which yields `NaN` or an infinity rather than a number;
   * that case is `None`.
   */
  function SleepEfficiency(durationMinutes: int, timeInBedMinutes: int): (r: Option<int>)
    ensures r.Some? <==> timeInBedMinutes != 0
  {
    if timeInBedMinutes == 0 then None
    else Some(Round(durationMinutes as real / timeInBedMinutes as real * 100.0))
  }

  /** Asleep the whole time in bed is 100 percent; asleep for part of it is between 0 and 100. */
  lemma EfficiencyBounds(durationMinutes: int, timeInBedMinutes: int)
    ensures durationMinutes == timeInBedMinutes != 0 ==> SleepEfficiency(durationMinutes, timeInBedMinutes) == Some(100)
    ensures 0 <= durationMinutes <= timeInBedMinutes && timeInBedMinutes > 0 ==>
      0 <= SleepEfficiency(durationMinutes, timeInBedMinutes).value <= 100
  {
    if timeInBedMinutes != 0 {
      var ratio := durationMinutes as real / timeInBedMinutes as real;
      if durationMinutes == timeInBedMinutes {
        assert ratio == 1.0;
        FloorUnique(ratio * 100.0 + 0.5, 100);
      }
      if 0 <= durationMinutes <= timeInBedMinutes && timeInBedMinutes > 0 {
        assert 0.0 <= ratio <= 1.0 by {
          assert ratio * timeInBedMinutes as real == durationMinutes as real;
        }
      }
    }
  }

  /** The fields of a stored sleep entry that carry constraints. */
  datatype SleepEntry = SleepEntry(
    userId: string,
    startMillis: int,
    endMillis: int,
    duration: real,
    quality: real,
    notes: string,
    tags: seq<string>)

  const MinQuality: real := 1.0
  const MaxQuality: real := 10.0

  /** `SleepEntrySchema`: the user id is required and quality lies in `[1, 10]`. */
  predicate ValidEntry(e: SleepEntry) {
    e.userId != "" && MinQuality <= e.quality <= MaxQuality
  }

  /** The schema's check, as the list of fields it rejects. */
  function EntryErrors(e: SleepEntry): (errors: seq<string>)
    ensures errors == [] <==> ValidEntry(e)
    ensures "userId" in errors <==> e.userId == ""
    ensures "quality" in errors <==> !(MinQuality <= e.quality <= MaxQuality)
  {
    (if e.userId == "" then ["userId"] else [])
    + (if e.quality < MinQuality || e.quality > MaxQuality then ["quality"] else [])
  }
}
