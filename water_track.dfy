/**
 * `POST /api/water/track`: checks that the intake's fields are present,
 * looks up the user's daily water goal, has the intake analysed, and stores
 * intake and analysis. The analysis and the storage are not defined by the
 * services the route imports them from, and are parameters here; one that
 * throws is a `Failure`.
 */
module WaterTrackRoute {
  import opened Wrappers
  import opened Json
  import opened Store
  import opened SessionCookie

  const DefaultGoal: real := 2000.0
  const MissingFields: string := "Missing required fields"

  datatype TrackResponse =
    | Stored(data: Json)          // 200, `success: true`
    | TrackError(error: string)   // 400, `success: false`
    | MalformedBody               // 400, `success: false`, with the runtime's own message

  /**
   * `Number(amount)` for a value that passed the presence check.
   * `parseNumber` is JavaScript's conversion of a string.
   */
  function ToNumber(v: Json, parseNumber: string -> Num): (n: Num)
    ensures v.JNum? ==> n == Finite(v.n)
    ensures v.JStr? ==> n == parseNumber(v.s)
  {
    match v
    case JNum(x) => Finite(x)
    case JStr(s) => parseNumber(s)
    case JBool(b) => Finite(if b then 1.0 else 0.0)
    case JNull => Finite(0.0)
    case _ => NaN
  }

  /** `user?.userDetails?.waterIntakeRecommended || 2000`. */
  function WaterGoal(user: Option<User>): (goal: real)
    ensures goal != 0.0
    ensures user.Some? && user.value.details.Some? && user.value.details.value.waterIntakeRecommended.Some?
            && user.value.details.value.waterIntakeRecommended.value != 0.0
      ==> goal == user.value.details.value.waterIntakeRecommended.value
    ensures !(user.Some? && user.value.details.Some? && user.value.details.value.waterIntakeRecommended.Some?
              && user.value.details.value.waterIntakeRecommended.value != 0.0)
      ==> goal == DefaultGoal
  {
    if user.Some? && user.value.details.Some? && user.value.details.value.waterIntakeRecommended.Some?
       && user.value.details.value.waterIntakeRecommended.value != 0.0
    then user.value.details.value.waterIntakeRecommended.value
    else DefaultGoal
  }

  /** Without a recorded goal, or for a session with no user, the goal is 2000 ml. */
  lemma DefaultGoalWhenUnknown(users: map<string, User>, userId: string)
    requires userId !in users || users[userId].details.None? || users[userId].details.value.waterIntakeRecommended.None?
    ensures WaterGoal(if userId in users then Some(users[userId]) else None) == DefaultGoal
  {
  }

  /** `!amount || !time || !date`, reading the three keys of the body. */
  predicate MissingAny(body: Json) {
    !Truthy(Field(body, "amount")) || !Truthy(Field(body, "time")) || !Truthy(Field(body, "date"))
  }

  /** An amount of 0 counts as missing, whatever else the body holds. */
  lemma ZeroAmountIsMissing(body: Json)
    requires Field(body, "amount") == Some(JNum(0.0))
    ensures MissingAny(body)
  {
  }

  /**
   * The handler. `body` is `None` when `request.json()` throws. A `null` body
   * throws on destructuring, which is reported like any other error.
   */
  method Post(
    db: Database,
    cookie: Option<string>,
    body: Option<Json>,
    parseNumber: string -> Num,
    analyzeWaterIntake: (WaterIntake, real) -> Result<WaterAnalysis, string>,
    storeWaterData: (string, WaterIntake, WaterAnalysis) -> Result<Json, string>)
    returns (resp: TrackResponse)
    modifies db`log
    ensures body.None? || body.value.JNull? ==> resp == MalformedBody && db.log == old(db.log)
    ensures body.Some? && !body.value.JNull? && MissingAny(body.value) ==>
      resp == TrackError(MissingFields) && db.log == old(db.log)
    ensures body.Some? && !body.value.JNull? && !MissingAny(body.value) ==>
      var userId := SessionIdFromHeader(cookie);
      var intake := WaterIntake(ToNumber(body.value.fields["amount"], parseNumber), "water", body.value.fields["time"]);
      var goal := WaterGoal(if userId in db.users then Some(db.users[userId]) else None);
      match analyzeWaterIntake(intake, goal)
      case Failure(e) =>
        && resp == TrackError(e)
        && db.log == old(db.log) + [FindUserById(userId), AnalyzeWater(intake, goal)]
      case Success(analysis) =>
        && db.log == old(db.log) + [FindUserById(userId), AnalyzeWater(intake, goal), StoreWater(userId, intake, analysis)]
        && (match storeWaterData(userId, intake, analysis)
            case Success(data) => resp == Stored(data)
            case Failure(e) => resp == TrackError(e))
  {
    var userId := ReadSessionId(cookie);
    if body.None? || body.value.JNull? {
      return MalformedBody;
    }
    var amount, time, date := Field(body.value, "amount"), Field(body.value, "time"), Field(body.value, "date");
    if !Truthy(amount) || !Truthy(time) || !Truthy(date) {
      return TrackError(MissingFields);
    }
    db.log := db.log + [FindUserById(userId)];
    var user := if userId in db.users then Some(db.users[userId]) else None;
    var goal := WaterGoal(user);
    var waterIntake := WaterIntake(ToNumber(amount.value, parseNumber), "water", time.value);
    db.log := db.log + [AnalyzeWater(waterIntake, goal)];
    var analysis := analyzeWaterIntake(waterIntake, goal);
    if analysis.Failure? {
      return TrackError(analysis.error);
    }
    db.log := db.log + [StoreWater(userId, waterIntake, analysis.value)];
    var stored := storeWaterData(userId, waterIntake, analysis.value);
    if stored.Failure? {
      return TrackError(stored.error);
    }
    resp := Stored(stored.value);
  }
}
