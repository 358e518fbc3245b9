/**
 * `POST /api/weight/track`: validates a weight submission, saves it as a
 * weight entry, copies the weight into the user's profile and, when the
 * client sent the profile along, asks for feedback on it. Neither the
 * `Weight` model the entry is saved through nor the feedback call is defined
 * where it is imported from, so both are parameters here; one that throws is
 * a `Failure`.
 */
module WeightTrackRoute {
  import opened Wrappers
  import opened Json
  import opened Store
  import opened SessionCookie

  /** `weightInputSchema`'s output: the three schema keys, anything else stripped. */
  datatype WeightInput = WeightInput(weight: real, date: string, userDetails: Option<Json>)

  /** The issues `weightInputSchema` reports; `userDetails` accepts anything, including nothing. */
  function WeightIssues(body: Json): seq<Issue> {
    if !body.JObj? then [Issue("", InvalidType)]
    else NumberIssues(body, "weight") + StringIssues(body, "date")
  }

  /** `weightInputSchema.parse(body)`. */
  function ParseWeightInput(body: Json): Result<WeightInput, seq<Issue>> {
    var issues := WeightIssues(body);
    if issues != [] then Failure(issues)
    else Success(WeightInput(Field(body, "weight").value.n, Field(body, "date").value.s, Field(body, "userDetails")))
  }

  /**
   * A body is accepted exactly when `weight` is a number and `date` a string;
   * no range is checked, so a negative weight passes. The accepted values are
   * the body's own.
   */
  lemma WeightInputAcceptedIff(body: Json)
    ensures ParseWeightInput(body).Success? <==>
      && Field(body, "weight").Some? && Field(body, "weight").value.JNum?
      && Field(body, "date").Some? && Field(body, "date").value.JStr?
    ensures ParseWeightInput(body).Success? ==>
      && Field(body, "weight") == Some(JNum(ParseWeightInput(body).value.weight))
      && Field(body, "date") == Some(JStr(ParseWeightInput(body).value.date))
      && ParseWeightInput(body).value.userDetails == Field(body, "userDetails")
    ensures ParseWeightInput(body).Failure? ==> ParseWeightInput(body).error != []
  {
  }

  /** A negative weight is accepted as it is. */
  lemma NegativeWeightAccepted()
    ensures ParseWeightInput(JObj(map["weight" := JNum(-5.0), "date" := JStr("2024-01-01")])).Success?
  {
    var body := JObj(map["weight" := JNum(-5.0), "date" := JStr("2024-01-01")]);
    assert Field(body, "weight") == Some(JNum(-5.0));
    assert Field(body, "date") == Some(JStr("2024-01-01"));
  }

  /**
   * `findByIdAndUpdate(id, {'userDetails.weight': w})` on one user: only the
   * profile weight changes, and a profile is created holding just the weight
   * when there was none.
   */
  function WithProfileWeight(u: User, w: real): (r: User)
    ensures r.details.Some? && r.details.value.weight == Some(w)
    ensures r.email == u.email && r.name == u.name && r.picture == u.picture
    ensures r.workosId == u.workosId && r.lastLogin == u.lastLogin
    ensures u.details.Some? ==> r.details.value == u.details.value.(weight := Some(w))
    ensures u.details.None? ==> r.details.value == NoDetails.(weight := Some(w))
  {
    var d := if u.details.Some? then u.details.value else NoDetails;
    u.(details := Some(d.(weight := Some(w))))
  }

  /** The collection after the update: a missing id updates nothing. */
  function AfterWeightUpdate(users: map<string, User>, id: string, w: real): (r: map<string, User>)
    ensures r.Keys == users.Keys
    ensures forall k :: k in users && k != id ==> r[k] == users[k]
    ensures id in users ==> r[id] == WithProfileWeight(users[id], w)
  {
    if id in users then users[id := WithProfileWeight(users[id], w)] else users
  }

  /** The update leaves WorkOS ids and emails alone, so the unique indexes still hold. */
  lemma WeightUpdateKeepsUniqueKeys(users: map<string, User>, id: string, w: real)
    requires UniqueKeys(users)
    ensures UniqueKeys(AfterWeightUpdate(users, id, w))
  {
    var r := AfterWeightUpdate(users, id, w);
    forall a | a in r ensures r[a].workosId == users[a].workosId && r[a].email == users[a].email {
    }
  }

  /** Recording the same weight twice leaves the profile as recording it once. */
  lemma WeightUpdateIdempotent(users: map<string, User>, id: string, w: real)
    ensures AfterWeightUpdate(AfterWeightUpdate(users, id, w), id, w) == AfterWeightUpdate(users, id, w)
  {
  }

  datatype WeightResponse =
    | Tracked(data: WeightEntry, aiFeedback: Option<Json>)  // 200; `aiFeedback` is `null` when `None`
    | InvalidInput(details: seq<Issue>)                     // 400, the schema's issues
    | WeightError(error: string)                            // 400, a failing call
    | MalformedBody                                         // 400, `request.json()` threw

  /**
   * The two writes of the handler: the entry is saved and, only when the save
   * succeeds, its weight is copied into its user's profile. The `Weight`
   * model the route saves through is not defined where it is imported from,
   * so the save is the parameter `saveWeight`; a save that throws is a
   * `Failure`, and its error ends the handler before the profile update.
   */
  method RecordWeight(db: Database, entry: WeightEntry, saveWeight: WeightEntry -> Result<WeightEntry, string>)
    returns (saved: Result<WeightEntry, string>)
    requires db.Valid()
    modifies db
    ensures db.Valid()
    ensures saved == saveWeight(entry)
    ensures saved.Success? ==>
      && db.weights == old(db.weights) + [entry]
      && db.users == AfterWeightUpdate(old(db.users), entry.userId, entry.weight)
      && db.log == old(db.log) + [SaveWeight(entry), UpdateProfileWeight(entry.userId, entry.weight)]
    ensures saved.Failure? ==>
      && db.weights == old(db.weights)
      && db.users == old(db.users)
      && db.log == old(db.log) + [SaveWeight(entry)]
  {
    db.log := db.log + [SaveWeight(entry)];
    saved := saveWeight(entry);
    if saved.Failure? {
      return;
    }
    db.weights := db.weights + [entry];
    WeightUpdateKeepsUniqueKeys(db.users, entry.userId, entry.weight);
    db.users := AfterWeightUpdate(db.users, entry.userId, entry.weight);
    db.log := db.log + [UpdateProfileWeight(entry.userId, entry.weight)];
  }

  /**
   * The handler. `now` is the clock reading stamped on the entry;
   * `saveWeight` is the entry's save and `generateFeedback` is called with
   * the submitted profile and the weight.
   */
  method Post(
    db: Database,
    cookie: Option<string>,
    body: Option<Json>,
    now: int,
    saveWeight: WeightEntry -> Result<WeightEntry, string>,
    generateFeedback: (Json, real) -> Result<Json, string>)
    returns (resp: WeightResponse)
    requires db.Valid()
    modifies db
    ensures db.Valid()
    ensures body.None? ==> resp == MalformedBody && unchanged(db)
    ensures body.Some? && ParseWeightInput(body.value).Failure? ==>
      resp == InvalidInput(ParseWeightInput(body.value).error) && unchanged(db)
    ensures body.Some? && ParseWeightInput(body.value).Success? ==>
      var input := ParseWeightInput(body.value).value;
      var userId := SessionIdFromHeader(cookie);
      var entry := WeightEntry(userId, input.weight, input.date, now);
      var saved := [SaveWeight(entry), UpdateProfileWeight(userId, input.weight)];
      match saveWeight(entry)
      case Failure(e) =>
        && resp == WeightError(e)
        && db.weights == old(db.weights)
        && db.users == old(db.users)
        && db.log == old(db.log) + [SaveWeight(entry)]
      case Success(_) =>
        && db.weights == old(db.weights) + [entry]
        && db.users == AfterWeightUpdate(old(db.users), userId, input.weight)
        && (if Truthy(input.userDetails) then
              && db.log == old(db.log) + saved + [GenerateFeedback("weight")]
              && (match generateFeedback(input.userDetails.value, input.weight)
                  case Success(feedback) => resp == Tracked(entry, Some(feedback))
                  case Failure(e) => resp == WeightError(e))
            else
              && db.log == old(db.log) + saved
              && resp == Tracked(entry, None))
  {
    var userId := ReadSessionId(cookie);
    if body.None? {
      return MalformedBody;
    }
    var validated := ParseWeightInput(body.value);
    if validated.Failure? {
      return InvalidInput(validated.error);
    }
    var input := validated.value;
    var weightEntry := WeightEntry(userId, input.weight, input.date, now);
    var saved := RecordWeight(db, weightEntry, saveWeight);
    if saved.Failure? {
      return WeightError(saved.error);
    }
    var aiFeedback: Option<Json> := None;
    if Truthy(input.userDetails) {
      db.log := db.log + [GenerateFeedback("weight")];
      var feedback := generateFeedback(input.userDetails.value, input.weight);
      if feedback.Failure? {
        return WeightError(feedback.error);
      }
      aiFeedback := Some(feedback.value);
    }
    resp := Tracked(weightEntry, aiFeedback);
  }
}
