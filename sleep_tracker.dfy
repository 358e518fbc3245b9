/**
 * The sleep-tracking form: its initial state, tag toggling, the displayed
 * duration and the checks made before a night is submitted. The minute
 * difference between the two clock readings comes from `date-fns` and is an
 * input here.
 */
module SleepTracker {
  import opened Wrappers
  import opened Decimal

  /** The optional `initialData` the form is opened with; a quality of 0 counts as absent. */
  datatype InitialData = InitialData(
    startMillis: Option<int>,
    endMillis: Option<int>,
    quality: Option<real>,
    notes: Option<string>,
    tags: Option<seq<string>>)

  /** The form's state. */
  datatype Form = Form(
    startMillis: int,
    endMillis: int,
    quality: real,
    notes: string,
    selectedTags: seq<string>)

  const DefaultQuality: real := 7.0

  /** `initialData?.quality || 7`: a missing or zero quality becomes 7. */
  function InitialQuality(initial: Option<real>): (q: real)
    ensures initial.None? ==> q == DefaultQuality
    ensures initial.Some? && initial.value == 0.0 ==> q == DefaultQuality
    ensures initial.Some? && initial.value != 0.0 ==> q == initial.value
  {
    if initial.Some? && initial.value != 0.0 then initial.value else DefaultQuality
  }

  /**
   * The initial state. `defaultStart` and `defaultEnd` are yesterday 22:00
   * and today 07:00, read from the clock by the caller.
   */
  function InitialForm(initial: Option<InitialData>, defaultStart: int, defaultEnd: int): (f: Form)
    ensures initial.None? ==> f == Form(defaultStart, defaultEnd, DefaultQuality, "", [])
    ensures initial.Some? ==> f.selectedTags == initial.value.tags.GetOr([])
  {
    match initial
    case None => Form(defaultStart, defaultEnd, DefaultQuality, "", [])
    case Some(d) =>
      Form(
        d.startMillis.GetOr(defaultStart),
        d.endMillis.GetOr(defaultEnd),
        InitialQuality(d.quality),
        d.notes.GetOr(""),
        d.tags.GetOr([]))
  }

  /** `tags.filter(t => t !== tag)`: every occurrence of `tag` removed, the rest in order. */
  function RemoveAll(tags: seq<string>, tag: string): (r: seq<string>)
    ensures tag !in r
    ensures forall t :: t != tag ==> (t in r <==> t in tags)
    ensures forall t :: t != tag ==> multiset(r)[t] == multiset(tags)[t]
  {
    if tags == [] then []
    else
      assert tags == [tags[0]] + tags[1..];
      if tags[0] == tag then RemoveAll(tags[1..], tag)
      else [tags[0]] + RemoveAll(tags[1..], tag)
  }

  /** Removing a tag that is not there changes nothing. */
  lemma {:induction false} RemoveAllAbsent(tags: seq<string>, tag: string)
    requires tag !in tags
    ensures RemoveAll(tags, tag) == tags
  {
    if tags != [] {
      RemoveAllAbsent(tags[1..], tag);
    }
  }

  /** Filtering distributes over concatenation, so relative order is kept. */
  lemma {:induction false} RemoveAllAppend(a: seq<string>, b: seq<string>, tag: string)
    ensures RemoveAll(a + b, tag) == RemoveAll(a, tag) + RemoveAll(b, tag)
  {
    if a != [] {
      assert (a + b)[1..] == a[1..] + b;
      RemoveAllAppend(a[1..], b, tag);
    } else {
      assert a + b == b;
    }
  }

  /** `toggleTag`: a present tag is removed everywhere, an absent one is appended. */
  function ToggleTag(tags: seq<string>, tag: string): seq<string> {
    if tag in tags then RemoveAll(tags, tag) else tags + [tag]
  }

  /** A toggle flips the membership of `tag` and of no other tag. */
  lemma ToggleFlipsOnlyThatTag(tags: seq<string>, tag: string)
    ensures tag in ToggleTag(tags, tag) <==> tag !in tags
    ensures forall t :: t != tag ==> (t in ToggleTag(tags, tag) <==> t in tags)
  {
  }

  /** Toggling an absent tag appends it at the end, keeping the others in order. */
  lemma ToggleAbsentAppends(tags: seq<string>, tag: string)
    requires tag !in tags
    ensures ToggleTag(tags, tag) == tags + [tag]
  {
  }

  /** Toggling an absent tag twice gives back the original list. */
  lemma ToggleAbsentTwice(tags: seq<string>, tag: string)
    requires tag !in tags
    ensures ToggleTag(ToggleTag(tags, tag), tag) == tags
  {
    assert tag in tags + [tag] by {
      assert (tags + [tag])[|tags|] == tag;
    }
    RemoveAllAppend(tags, [tag], tag);
    RemoveAllAbsent(tags, tag);
    assert RemoveAll([tag], tag) == [];
  }

  /** JavaScript's `%`: the remainder takes the sign of the dividend. */
  function JsRemainder(a: int, b: int): (r: int)
    requires b > 0
    ensures a >= 0 ==> 0 <= r < b
    ensures a < 0 ==> -b < r <= 0
  {
    if a >= 0 then a % b else -((-a) % b)
  }

  /** The hours and minutes shown: `Math.floor(d / 60)` and `d % 60`. */
  function DurationParts(durationMinutes: int): (int, int) {
    (durationMinutes / 60, JsRemainder(durationMinutes, 60))
  }

  /** `formattedDuration`, e.g. `"8h 5m"`. */
  function FormattedDuration(durationMinutes: int): string {
    var (h, m) := DurationParts(durationMinutes);
    IntToString(h) + "h " + IntToString(m) + "m"
  }

  /** For a non-negative duration the parts are whole hours and the leftover minutes. */
  lemma PartsRecombine(durationMinutes: int)
    requires durationMinutes >= 0
    ensures var (h, m) := DurationParts(durationMinutes);
      60 * h + m == durationMinutes && 0 <= m < 60 && h >= 0
  {
  }

  /** A negative duration mixes a floored hour count with a truncated remainder. */
  lemma NegativePartsDoNotRecombine()
    ensures DurationParts(-30) == (-1, -30)
    ensures FormattedDuration(-30) == "-1h -30m"
  {
    assert NatToString(1) == "1" && NatToString(30) == "30" by {
      assert NatToString(3) == "3";
    }
  }

  /** What `onSubmit` receives. */
  datatype SleepSubmission = SleepSubmission(
    startMillis: int,
    endMillis: int,
    duration: int,
    quality: real,
    notes: string,
    tags: seq<string>)

  const EndNotAfterStart: string := "Sleep end time must be after start time"
  const DurationNotPositive: string := "Sleep duration must be positive"

  /** `handleSubmit`: the alert shown, or the night passed to `onSubmit`. */
  function HandleSubmit(form: Form, durationMinutes: int): (r: Result<SleepSubmission, string>)
    ensures r.Success? <==> form.startMillis < form.endMillis && durationMinutes > 0
    ensures r.Failure? ==>
      r.error == (if form.startMillis >= form.endMillis then EndNotAfterStart else DurationNotPositive)
    ensures r.Success? ==>
      && r.value.duration == durationMinutes
      && r.value.tags == form.selectedTags
      && r.value.quality == form.quality
      && r.value.notes == form.notes
      && r.value.startMillis == form.startMillis && r.value.endMillis == form.endMillis
  {
    if form.startMillis >= form.endMillis then Failure(EndNotAfterStart)
    else if durationMinutes <= 0 then Failure(DurationNotPositive)
    else Success(SleepSubmission(
      form.startMillis, form.endMillis, durationMinutes, form.quality, form.notes, form.selectedTags))
  }

  /** The tags submitted are exactly those toggled on, whatever else the form holds. */
  lemma SubmittedTagsAfterToggle(form: Form, durationMinutes: int, tag: string)
    requires form.startMillis < form.endMillis && durationMinutes > 0
    requires tag !in form.selectedTags
    ensures HandleSubmit(form.(selectedTags := ToggleTag(form.selectedTags, tag)), durationMinutes).value.tags
      == form.selectedTags + [tag]
  {
  }
}
