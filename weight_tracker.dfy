/**
 * The weight-tracking form: the BMI category and bar, when a BMI is shown,
 * and the checks and measurement collection made before an entry is
 * submitted. Numbers are JavaScript numbers, modelled as reals; an optional
 * number that is `undefined` is `None`.
 */
module WeightTracker {
  import opened Wrappers

  datatype BmiCategory = Underweight | NormalWeight | Overweight | Obese

  function Label(c: BmiCategory): string {
    match c
    case Underweight => "Underweight"
    case NormalWeight => "Normal weight"
    case Overweight => "Overweight"
    case Obese => "Obese"
  }

  function Color(c: BmiCategory): string {
    match c
    case Underweight => "#3b82f6"
    case NormalWeight => "#10b981"
    case Overweight => "#f59e0b"
    case Obese => "#ef4444"
  }

  /** `getBmiCategory`: the WHO bands, each closed below and open above. */
  function GetBmiCategory(bmi: real): (c: BmiCategory)
    ensures c == Underweight <==> bmi < 18.5
    ensures c == NormalWeight <==> 18.5 <= bmi < 25.0
    ensures c == Overweight <==> 25.0 <= bmi < 30.0
    ensures c == Obese <==> 30.0 <= bmi
  {
    if bmi < 18.5 then Underweight
    else if bmi < 25.0 then NormalWeight
    else if bmi < 30.0 then Overweight
    else Obese
  }

  function Severity(c: BmiCategory): int {
    match c
    case Underweight => 0
    case NormalWeight => 1
    case Overweight => 2
    case Obese => 3
  }

  /** A larger BMI never falls in a lower band. */
  lemma CategoryMonotone(b1: real, b2: real)
    requires b1 <= b2
    ensures Severity(GetBmiCategory(b1)) <= Severity(GetBmiCategory(b2))
  {
  }

  /** A JavaScript number read as a condition: `undefined` and 0 are false. */
  predicate Truthy(x: Option<real>) {
    x.Some? && x.value != 0.0
  }

  /**
   * The BMI the form shows: present only when both the user's height (cm)
   * and the weight are truthy. `roundToTenth` is `parseFloat(x.toFixed(1))`.
   */
  function ShownBmi(userHeight: Option<real>, weight: real, roundToTenth: real -> real): (bmi: Option<real>)
    ensures bmi.Some? <==> Truthy(userHeight) && weight != 0.0
    ensures bmi.Some? ==> bmi.value == roundToTenth(RawBmi(userHeight.value, weight))
  {
    if Truthy(userHeight) && weight != 0.0 then Some(roundToTenth(RawBmi(userHeight.value, weight)))
    else None
  }

  /** Weight in kilograms over the square of the height in metres. */
  function RawBmi(heightCm: real, weight: real): real
    requires heightCm != 0.0
  {
    var meters := heightCm / 100.0;
    assert meters != 0.0;
    weight / (meters * meters)
  }

  /** The bar's width in percent: BMI 40 fills it, and it never overflows. */
  function BarWidth(bmi: real): (w: real)
    ensures w <= 100.0
    ensures bmi <= 40.0 ==> w == bmi * 2.5
    ensures bmi >= 40.0 ==> w == 100.0
  {
    var scaled := bmi / 40.0 * 100.0;
    if scaled < 100.0 then scaled else 100.0
  }

  /** The optional body measurements, in centimetres. */
  datatype Measurements = Measurements(
    waist: Option<real>,
    chest: Option<real>,
    arms: Option<real>,
    thighs: Option<real>,
    hips: Option<real>)

  /** The keys of the submitted `measurements` record. */
  datatype MeasurementKey = Waist | Chest | Arms | Thighs | Hips

  function KeyName(k: MeasurementKey): string {
    match k
    case Waist => "waist"
    case Chest => "chest"
    case Arms => "arms"
    case Thighs => "thighs"
    case Hips => "hips"
  }

  /** The form field behind a key of the record. */
  function MeasurementOf(m: Measurements, k: MeasurementKey): Option<real> {
    match k
    case Waist => m.waist
    case Chest => m.chest
    case Arms => m.arms
    case Thighs => m.thighs
    case Hips => m.hips
  }

  /** `collected` holds exactly the truthy measurements among `keys`, with their values. */
  ghost predicate CollectedFrom(collected: map<MeasurementKey, real>, m: Measurements, keys: set<MeasurementKey>) {
    && (forall k :: k in collected <==> k in keys && Truthy(MeasurementOf(m, k)))
    && (forall k | k in collected :: collected[k] == MeasurementOf(m, k).value)
  }

  /** `if (value) record[k] = value`. */
  function SetIfTruthy(record: map<MeasurementKey, real>, k: MeasurementKey, value: Option<real>): (r: map<MeasurementKey, real>)
    ensures Truthy(value) ==> r == record[k := value.value]
    ensures !Truthy(value) ==> r == record
  {
    if Truthy(value) then record[k := value.value] else record
  }

  /** One `if (field) measurements.field = field` step extends what has been collected by that key. */
  lemma CollectStep(before: map<MeasurementKey, real>, after: map<MeasurementKey, real>, m: Measurements,
                    keys: set<MeasurementKey>, k: MeasurementKey)
    requires CollectedFrom(before, m, keys) && k !in keys
    requires after == if Truthy(MeasurementOf(m, k)) then before[k := MeasurementOf(m, k).value] else before
    ensures CollectedFrom(after, m, keys + {k})
  {
  }

  /** Once every field has been visited, the record holds the truthy ones and is empty iff none is. */
  lemma CollectedEverything(collected: map<MeasurementKey, real>, m: Measurements)
    requires CollectedFrom(collected, m, {Waist, Chest, Arms, Thighs} + {Hips})
    ensures forall k :: k in collected <==> Truthy(MeasurementOf(m, k))
    ensures forall k | k in collected :: collected[k] == MeasurementOf(m, k).value
    ensures |collected| > 0 <==> !(forall k: MeasurementKey :: !Truthy(MeasurementOf(m, k)))
  {
    forall k: MeasurementKey ensures k in collected <==> Truthy(MeasurementOf(m, k)) {
      assert k in {Waist, Chest, Arms, Thighs} + {Hips} by {
        assert k.Waist? || k.Chest? || k.Arms? || k.Thighs? || k.Hips?;
      }
    }
    if |collected| > 0 {
      var k :| k in collected;
      assert Truthy(MeasurementOf(m, k));
    }
  }

  /** The `measurements` record, filled one field at a time in the order the form lists them. */
  method CollectMeasurements(m: Measurements) returns (collected: map<MeasurementKey, real>)
    ensures CollectedFrom(collected, m, {Waist, Chest, Arms, Thighs} + {Hips})
  {
    collected := map[];
    collected := SetIfTruthy(collected, Waist, m.waist);
    CollectStep(map[], collected, m, {}, Waist);
    ghost var before := collected;
    collected := SetIfTruthy(collected, Chest, m.chest);
    CollectStep(before, collected, m, {Waist}, Chest);
    before := collected;
    collected := SetIfTruthy(collected, Arms, m.arms);
    CollectStep(before, collected, m, {Waist, Chest}, Arms);
    before := collected;
    collected := SetIfTruthy(collected, Thighs, m.thighs);
    CollectStep(before, collected, m, {Waist, Chest, Arms}, Thighs);
    before := collected;
    collected := SetIfTruthy(collected, Hips, m.hips);
    CollectStep(before, collected, m, {Waist, Chest, Arms, Thighs}, Hips);
  }

  /** What `onSubmit` receives. */
  datatype WeightSubmission = WeightSubmission(
    date: int,
    weight: real,
    bodyFat: Option<real>,
    bmi: Option<real>,
    notes: string,
    measurements: Option<map<MeasurementKey, real>>)

  const InvalidWeight: string := "Please enter a valid weight"

  /**
   * `handleSubmit`: rejects a weight that is not positive; otherwise builds
   * the `measurements` record one field at a time and leaves it out when
   * nothing was collected.
   */
  method HandleSubmit(date: int, weight: real, bodyFat: Option<real>, bmi: Option<real>, notes: string, m: Measurements)
    returns (r: Result<WeightSubmission, string>)
    ensures r.Failure? <==> weight <= 0.0
    ensures r.Failure? ==> r.error == InvalidWeight
    ensures r.Success? ==>
      && r.value.date == date && r.value.weight == weight && r.value.bodyFat == bodyFat
      && r.value.bmi == bmi && r.value.notes == notes
    ensures r.Success? ==>
      (r.value.measurements.None? <==> forall k: MeasurementKey :: !Truthy(MeasurementOf(m, k)))
    ensures r.Success? && r.value.measurements.Some? ==>
      var collected := r.value.measurements.value;
      && (forall k :: k in collected <==> Truthy(MeasurementOf(m, k)))
      && (forall k | k in collected :: collected[k] == MeasurementOf(m, k).value)
  {
    if weight <= 0.0 {
      return Failure(InvalidWeight);
    }
    var collected := CollectMeasurements(m);
    CollectedEverything(collected, m);
    var measurements := if |collected| > 0 then Some(collected) else None;
    r := Success(WeightSubmission(date, weight, bodyFat, bmi, notes, measurements));
  }
}
