/**
 * `POST /api/nutrition/analyze`: validates a food entry, has it analysed and
 * stores entry and analysis under the user id read from the cookie header.
 * The analysis service and the three-argument store call are parameters
 * here; one that throws is a `Failure`.
 */
module NutritionAnalyzeRoute {
  import opened Wrappers
  import opened Json
  import opened NutritionTypes
  import opened Store
  import opened SessionCookie

  /** The issues `foodIntakeSchema` reports. */
  function FoodIssues(body: Json): seq<Issue> {
    if !body.JObj? then [Issue("", InvalidType)]
    else StringIssues(body, "food") + StringIssues(body, "time")
  }

  /** `foodIntakeSchema.parse(body)`: `food` and `time` only, every other key stripped. */
  function ParseFoodInput(body: Json): Result<FoodInput, seq<Issue>> {
    var issues := FoodIssues(body);
    if issues != [] then Failure(issues)
    else Success(FoodInput(Field(body, "food").value.s, Field(body, "time").value.s))
  }

  /**
   * A body is accepted exactly when `food` and `time` are strings (empty ones
   * included), and what is kept are those two values and nothing else.
   */
  lemma FoodInputAcceptedIff(body: Json)
    ensures ParseFoodInput(body).Success? <==>
      && Field(body, "food").Some? && Field(body, "food").value.JStr?
      && Field(body, "time").Some? && Field(body, "time").value.JStr?
    ensures ParseFoodInput(body).Success? ==>
      && Field(body, "food") == Some(JStr(ParseFoodInput(body).value.food))
      && Field(body, "time") == Some(JStr(ParseFoodInput(body).value.time))
    ensures ParseFoodInput(body).Failure? ==> ParseFoodInput(body).error != []
  {
  }

  /** Extra keys such as `date` or `userDetails` change nothing about what is forwarded. */
  lemma ExtraKeysStripped(fields: map<string, Json>, key: string, value: Json)
    requires key != "food" && key != "time"
    ensures ParseFoodInput(JObj(fields[key := value])) == ParseFoodInput(JObj(fields))
  {
    assert Field(JObj(fields[key := value]), "food") == Field(JObj(fields), "food");
    assert Field(JObj(fields[key := value]), "time") == Field(JObj(fields), "time");
  }

  /** Empty strings are accepted. */
  lemma EmptyStringsAccepted()
    ensures ParseFoodInput(JObj(map["food" := JStr(""), "time" := JStr("")])) == Success(FoodInput("", ""))
  {
    var body := JObj(map["food" := JStr(""), "time" := JStr("")]);
    assert Field(body, "food") == Some(JStr(""));
    assert Field(body, "time") == Some(JStr(""));
  }

  datatype AnalyzeResponse =
    | Analyzed(data: Json)          // 200, `success: true`, the stored data
    | AnalyzeError(error: string)   // 400, a failing call
    | InvalidFood(details: seq<Issue>) // 400, the schema's issues
    | MalformedBody                 // 400, `request.json()` threw

  /** The handler; `body` is `None` when `request.json()` throws. */
  method Post(
    db: Database,
    cookie: Option<string>,
    body: Option<Json>,
    analyzeFoodIntake: FoodInput -> Result<NutritionAnalysis, string>,
    storeNutritionData: (string, FoodInput, NutritionAnalysis) -> Result<Json, string>)
    returns (resp: AnalyzeResponse)
    modifies db`log
    ensures body.None? ==> resp == MalformedBody && db.log == old(db.log)
    ensures body.Some? && ParseFoodInput(body.value).Failure? ==>
      resp == InvalidFood(ParseFoodInput(body.value).error) && db.log == old(db.log)
    ensures body.Some? && ParseFoodInput(body.value).Success? ==>
      var input := ParseFoodInput(body.value).value;
      var userId := UserIdFromFirstValue(cookie);
      match analyzeFoodIntake(input)
      case Failure(e) => resp == AnalyzeError(e) && db.log == old(db.log) + [AnalyzeFood(input)]
      case Success(analysis) =>
        && db.log == old(db.log) + [AnalyzeFood(input), StoreNutrition(userId, input, analysis)]
        && (match storeNutritionData(userId, input, analysis)
            case Success(data) => resp == Analyzed(data)
            case Failure(e) => resp == AnalyzeError(e))
  {
    var userId := ReadFirstValue(cookie);
    if body.None? {
      return MalformedBody;
    }
    var validated := ParseFoodInput(body.value);
    if validated.Failure? {
      return InvalidFood(validated.error);
    }
    var foodIntake := validated.value;
    db.log := db.log + [AnalyzeFood(foodIntake)];
    var analysis := analyzeFoodIntake(foodIntake);
    if analysis.Failure? {
      return AnalyzeError(analysis.error);
    }
    db.log := db.log + [StoreNutrition(userId, foodIntake, analysis.value)];
    var storedData := storeNutritionData(userId, foodIntake, analysis.value);
    if storedData.Failure? {
      return AnalyzeError(storedData.error);
    }
    resp := Analyzed(storedData.value);
  }
}
