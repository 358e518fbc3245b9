/**
 * The user-details route: `PUT` validates a profile against its schema and
 * replaces the session user's `userDetails` with it; `GET` returns the stored
 * `userDetails`.
 */
module UserDetailsRoute {
  import opened Wrappers
  import opened Json
  import opened Store

  datatype Gender = Male | Female | OtherGender

  datatype Goal = WeightLoss | MuscleGain | Maintenance | GeneralFitness

  datatype ActivityLevel = Sedentary | LightlyActive | ModeratelyActive | VeryActive | ExtremelyActive

  function GenderName(g: Gender): string {
    match g
    case Male => "male"
    case Female => "female"
    case OtherGender => "other"
  }

  function ParseGender(s: string): (r: Option<Gender>)
    ensures r.Some? ==> GenderName(r.value) == s
  {
    if s == "male" then Some(Male)
    else if s == "female" then Some(Female)
    else if s == "other" then Some(OtherGender)
    else None
  }

  function GoalName(g: Goal): string {
    match g
    case WeightLoss => "weight_loss"
    case MuscleGain => "muscle_gain"
    case Maintenance => "maintenance"
    case GeneralFitness => "general_fitness"
  }

  function ParseGoal(s: string): (r: Option<Goal>)
    ensures r.Some? ==> GoalName(r.value) == s
  {
    if s == "weight_loss" then Some(WeightLoss)
    else if s == "muscle_gain" then Some(MuscleGain)
    else if s == "maintenance" then Some(Maintenance)
    else if s == "general_fitness" then Some(GeneralFitness)
    else None
  }

  function ActivityLevelName(a: ActivityLevel): string {
    match a
    case Sedentary => "sedentary"
    case LightlyActive => "lightly_active"
    case ModeratelyActive => "moderately_active"
    case VeryActive => "very_active"
    case ExtremelyActive => "extremely_active"
  }

  function ParseActivityLevel(s: string): (r: Option<ActivityLevel>)
    ensures r.Some? ==> ActivityLevelName(r.value) == s
  {
    if s == "sedentary" then Some(Sedentary)
    else if s == "lightly_active" then Some(LightlyActive)
    else if s == "moderately_active" then Some(ModeratelyActive)
    else if s == "very_active" then Some(VeryActive)
    else if s == "extremely_active" then Some(ExtremelyActive)
    else None
  }

  /** Every enum value parses back from its name. */
  lemma EnumNamesRoundTrip(g: Gender, o: Goal, a: ActivityLevel)
    ensures ParseGender(GenderName(g)) == Some(g)
    ensures ParseGoal(GoalName(o)) == Some(o)
    ensures ParseActivityLevel(ActivityLevelName(a)) == Some(a)
  {
  }

  /** A profile that passed the schema: exactly the six schema keys. */
  datatype UserDetails = UserDetails(
    height: real,
    weight: real,
    age: real,
    gender: Gender,
    goal: Goal,
    activityLevel: ActivityLevel)

  /** The schema's keys, in declaration order. */
  const SchemaKeys: seq<string> := ["height", "weight", "age", "gender", "goal", "activityLevel"]

  /** `z.number().min(lo).max(hi)` on `body[key]`. */
  function RangeIssues(body: Json, key: string, lo: real, hi: real): seq<Issue> {
    match Field(body, key)
    case Some(JNum(n)) =>
      if n < lo then [Issue(key, TooSmall)] else if n > hi then [Issue(key, TooBig)] else []
    case _ => [Issue(key, InvalidType)]
  }

  /** `z.enum(...)` on `body[key]`, the options being the strings `parse` accepts. */
  function EnumIssues<E>(body: Json, key: string, parse: string -> Option<E>): seq<Issue> {
    match Field(body, key)
    case Some(JStr(s)) => if parse(s).Some? then [] else [Issue(key, InvalidEnumValue)]
    case _ => [Issue(key, InvalidType)]
  }

  /** The issues `userDetailsSchema` reports: every field is checked, in schema order. */
  function DetailsIssues(body: Json): seq<Issue> {
    if !body.JObj? then [Issue("", InvalidType)]
    else
      RangeIssues(body, "height", 1.0, 300.0)
      + RangeIssues(body, "weight", 1.0, 500.0)
      + RangeIssues(body, "age", 1.0, 150.0)
      + EnumIssues(body, "gender", ParseGender)
      + EnumIssues(body, "goal", ParseGoal)
      + EnumIssues(body, "activityLevel", ParseActivityLevel)
  }

  /** `userDetailsSchema.parse(body)`: the validated profile, or the list of issues. */
  function ParseUserDetails(body: Json): Result<UserDetails, seq<Issue>> {
    var issues := DetailsIssues(body);
    if issues != [] then Failure(issues)
    else
      Success(UserDetails(
        Field(body, "height").value.n,
        Field(body, "weight").value.n,
        Field(body, "age").value.n,
        ParseGender(Field(body, "gender").value.s).value,
        ParseGoal(Field(body, "goal").value.s).value,
        ParseActivityLevel(Field(body, "activityLevel").value.s).value))
  }

  /** `body[key]` is a number in `[lo, hi]`. */
  predicate InRange(body: Json, key: string, lo: real, hi: real) {
    Field(body, key).Some? && Field(body, key).value.JNum? && lo <= Field(body, key).value.n <= hi
  }

  /** `body[key]` is one of the given strings. */
  predicate OneOf(body: Json, key: string, names: set<string>) {
    Field(body, key).Some? && Field(body, key).value.JStr? && Field(body, key).value.s in names
  }

  /** The schema's acceptance condition, field by field. */
  predicate AcceptableDetails(body: Json) {
    && body.JObj?
    && InRange(body, "height", 1.0, 300.0)
    && InRange(body, "weight", 1.0, 500.0)
    && InRange(body, "age", 1.0, 150.0)
    && OneOf(body, "gender", GenderNames)
    && OneOf(body, "goal", GoalNames)
    && OneOf(body, "activityLevel", ActivityLevelNames)
  }

  /** A body is accepted exactly when every field meets its constraint; otherwise issues are reported. */
  lemma AcceptedIff(body: Json)
    ensures ParseUserDetails(body).Success? <==> AcceptableDetails(body)
    ensures ParseUserDetails(body).Failure? ==> ParseUserDetails(body).error != []
  {
  }

  /** The keys the issues of a list point at. */
  function IssuePaths(issues: seq<Issue>): set<string> {
    set i | 0 <= i < |issues| :: issues[i].path
  }

  lemma PathsAppend(a: seq<Issue>, b: seq<Issue>)
    ensures IssuePaths(a + b) == IssuePaths(a) + IssuePaths(b)
  {
    forall p | p in IssuePaths(a + b) ensures p in IssuePaths(a) + IssuePaths(b) {
      var i :| 0 <= i < |a + b| && (a + b)[i].path == p;
      if i >= |a| {
        assert b[i - |a|].path == p;
      }
    }
    forall p | p in IssuePaths(a) + IssuePaths(b) ensures p in IssuePaths(a + b) {
      if p in IssuePaths(a) {
        var i :| 0 <= i < |a| && a[i].path == p;
        assert (a + b)[i].path == p;
      } else {
        var i :| 0 <= i < |b| && b[i].path == p;
        assert (a + b)[|a| + i].path == p;
      }
    }
  }

  lemma SinglePath(key: string, code: IssueCode)
    ensures IssuePaths([Issue(key, code)]) == {key}
  {
    assert [Issue(key, code)][0].path == key;
  }

  lemma RangePaths(body: Json, key: string, lo: real, hi: real)
    ensures IssuePaths(RangeIssues(body, key, lo, hi)) == if InRange(body, key, lo, hi) then {} else {key}
  {
    var r := RangeIssues(body, key, lo, hi);
    if r != [] {
      SinglePath(key, r[0].code);
    }
  }

  lemma EnumPaths<E>(body: Json, key: string, parse: string -> Option<E>, names: set<string>)
    requires forall s :: parse(s).Some? <==> s in names
    ensures IssuePaths(EnumIssues(body, key, parse)) == if OneOf(body, key, names) then {} else {key}
  {
    var r := EnumIssues(body, key, parse);
    if r != [] {
      SinglePath(key, r[0].code);
    }
  }

  const GenderNames: set<string> := {"male", "female", "other"}
  const GoalNames: set<string> := {"weight_loss", "muscle_gain", "maintenance", "general_fitness"}
  const ActivityLevelNames: set<string> :=
    {"sedentary", "lightly_active", "moderately_active", "very_active", "extremely_active"}

  /** Each enum parser accepts exactly its option list. */
  lemma EnumParsersAcceptTheirNames()
    ensures forall s :: ParseGender(s).Some? <==> s in GenderNames
    ensures forall s :: ParseGoal(s).Some? <==> s in GoalNames
    ensures forall s :: ParseActivityLevel(s).Some? <==> s in ActivityLevelNames
  {
  }

  /** `{key}` when a field fails its check, nothing when it passes. */
  function FailedKey(key: string, ok: bool): set<string> {
    if ok then {} else {key}
  }

  /** The per-field outcome of the schema checks, in schema order. */
  function FieldOutcomes(body: Json): seq<bool> {
    [ InRange(body, "height", 1.0, 300.0),
      InRange(body, "weight", 1.0, 500.0),
      InRange(body, "age", 1.0, 150.0),
      OneOf(body, "gender", GenderNames),
      OneOf(body, "goal", GoalNames),
      OneOf(body, "activityLevel", ActivityLevelNames) ]
  }

  /** The keys `DetailsIssues` points at, one per failing field. */
  lemma DetailsPaths(body: Json)
    requires body.JObj?
    ensures var ok := FieldOutcomes(body);
      IssuePaths(DetailsIssues(body))
      == FailedKey(SchemaKeys[0], ok[0]) + FailedKey(SchemaKeys[1], ok[1]) + FailedKey(SchemaKeys[2], ok[2])
       + FailedKey(SchemaKeys[3], ok[3]) + FailedKey(SchemaKeys[4], ok[4]) + FailedKey(SchemaKeys[5], ok[5])
  {
    var h := RangeIssues(body, "height", 1.0, 300.0);
    var w := RangeIssues(body, "weight", 1.0, 500.0);
    var a := RangeIssues(body, "age", 1.0, 150.0);
    var g := EnumIssues(body, "gender", ParseGender);
    var o := EnumIssues(body, "goal", ParseGoal);
    var l := EnumIssues(body, "activityLevel", ParseActivityLevel);
    assert DetailsIssues(body) == h + w + a + g + o + l;
    PathsAppend(h, w);
    PathsAppend(h + w, a);
    PathsAppend(h + w + a, g);
    PathsAppend(h + w + a + g, o);
    PathsAppend(h + w + a + g + o, l);
    RangePaths(body, "height", 1.0, 300.0);
    RangePaths(body, "weight", 1.0, 500.0);
    RangePaths(body, "age", 1.0, 150.0);
    EnumParsersAcceptTheirNames();
    EnumPaths(body, "gender", ParseGender, GenderNames);
    EnumPaths(body, "goal", ParseGoal, GoalNames);
    EnumPaths(body, "activityLevel", ParseActivityLevel, ActivityLevelNames);
  }

  /** The schema keys are pairwise distinct. */
  lemma SchemaKeysDistinct()
    ensures forall i, j :: 0 <= i < j < |SchemaKeys| ==> SchemaKeys[i] != SchemaKeys[j]
  {
    var keys := SchemaKeys;
    assert keys[0][0] == 'h' && keys[1][0] == 'w' && keys[2][..2] == "ag" && keys[3][..2] == "ge"
      && keys[4][..2] == "go" && keys[5][..2] == "ac";
  }

  /** In a union of `FailedKey` sets over distinct keys, a key is present exactly when its own check failed. */
  lemma FailedKeysMembership(keys: seq<string>, ok: seq<bool>, i: nat)
    requires |keys| == |ok| == 6 && i < 6
    requires forall p, q :: 0 <= p < q < |keys| ==> keys[p] != keys[q]
    ensures keys[i] in FailedKey(keys[0], ok[0]) + FailedKey(keys[1], ok[1]) + FailedKey(keys[2], ok[2])
      + FailedKey(keys[3], ok[3]) + FailedKey(keys[4], ok[4]) + FailedKey(keys[5], ok[5])
      <==> !ok[i]
  {
  }

  /**
   * Every schema field is reported exactly when it breaks its constraint, so
   * the `details` of a 400 name every failing field and no other.
   */
  lemma IssuesNameFailingFields(body: Json, i: nat)
    requires body.JObj? && i < |SchemaKeys|
    ensures SchemaKeys[i] in IssuePaths(DetailsIssues(body)) <==> !FieldOutcomes(body)[i]
  {
    DetailsPaths(body);
    SchemaKeysDistinct();
    FailedKeysMembership(SchemaKeys, FieldOutcomes(body), i);
  }

  /** No issue points outside the schema: unknown keys are never reported. */
  lemma IssuesOnlyNameSchemaKeys(body: Json)
    requires body.JObj?
    ensures IssuePaths(DetailsIssues(body)) <= set k | k in SchemaKeys
  {
    DetailsPaths(body);
  }

  /** The `userDetails` document a validated profile is stored as. */
  function StoredOf(d: UserDetails): StoredDetails {
    StoredDetails(
      Some(d.height), Some(d.weight), Some(d.age),
      Some(GenderName(d.gender)), Some(GoalName(d.goal)), Some(ActivityLevelName(d.activityLevel)),
      None)
  }

  /** The stored document as a JSON object: one key per present field. */
  function StoredAsJson(st: StoredDetails): map<string, Json> {
    var numbers := map k | k in {"height", "weight", "age"} && NumberField(st, k).Some? :: JNum(NumberField(st, k).value);
    var strings := map k | k in {"gender", "goal", "activityLevel"} && StringField(st, k).Some? :: JStr(StringField(st, k).value);
    numbers + strings
  }

  function NumberField(st: StoredDetails, k: string): Option<real> {
    if k == "height" then st.height
    else if k == "weight" then st.weight
    else if k == "age" then st.age
    else if k == "waterIntakeRecommended" then st.waterIntakeRecommended
    else None
  }

  function StringField(st: StoredDetails, k: string): Option<string> {
    if k == "gender" then st.gender
    else if k == "goal" then st.goal
    else if k == "activityLevel" then st.activityLevel
    else None
  }

  /**
   * Unknown keys are stripped: what is stored is the request body restricted
   * to the six schema keys, value for value.
   */
  lemma StoredIsBodyWithoutUnknownKeys(body: Json)
    requires ParseUserDetails(body).Success?
    ensures StoredAsJson(StoredOf(ParseUserDetails(body).value))
      == map k | k in body.fields && k in SchemaKeys :: body.fields[k]
  {
    AcceptedIff(body);
    var d := ParseUserDetails(body).value;
    var m := map k | k in body.fields && k in SchemaKeys :: body.fields[k];
    var j := StoredAsJson(StoredOf(d));
    StoredKeys(d);
    assert forall k :: k in m <==> k in SchemaKeys;
    forall k | k in SchemaKeys ensures j[k] == m[k] {
      StoredValue(body, k);
    }
  }

  /** A validated profile is stored under exactly the six schema keys. */
  lemma StoredKeys(d: UserDetails)
    ensures forall k :: k in StoredAsJson(StoredOf(d)) <==> k in SchemaKeys
  {
  }

  /** Each schema key is stored with the value the body held under it. */
  lemma StoredValue(body: Json, k: string)
    requires ParseUserDetails(body).Success? && AcceptableDetails(body)
    requires k in SchemaKeys
    ensures k in StoredAsJson(StoredOf(ParseUserDetails(body).value))
    ensures k in body.fields && StoredAsJson(StoredOf(ParseUserDetails(body).value))[k] == body.fields[k]
  {
    StoredKeys(ParseUserDetails(body).value);
  }

  /** `cookieStore.get('fit1-session')?.value` is truthy: present and not empty. */
  predicate HasSession(sessionId: Option<string>) {
    sessionId.Some? && sessionId.value != ""
  }

  /** The responses of the two handlers. */
  datatype DetailsResponse =
    | NotAuthenticated                             // 401
    | InvalidData(details: seq<Issue>)             // 400, the schema's issues
    | UserNotFound                                 // 404
    | Updated(userDetails: StoredDetails)          // 200 from PUT
    | Fetched(storedDetails: Option<StoredDetails>) // 200 from GET; `None` is a user with no profile
    | ServerError                                  // 500

  function Status(r: DetailsResponse): int {
    match r
    case NotAuthenticated => 401
    case InvalidData(_) => 400
    case UserNotFound => 404
    case Updated(_) => 200
    case Fetched(_) => 200
    case ServerError => 500
  }

  /**
   * The collection after `findOneAndUpdate({_id: id}, {name: "summa",
   * userDetails: d})`: the name is overwritten and the whole sub-document is
   * replaced; nothing else changes.
   */
  function AfterPut(users: map<string, User>, id: string, d: UserDetails): (r: map<string, User>)
    requires id in users
    ensures r.Keys == users.Keys
    ensures r[id].details == Some(StoredOf(d)) && r[id].name == "summa"
    ensures r[id].email == users[id].email && r[id].workosId == users[id].workosId
    ensures r[id].picture == users[id].picture && r[id].lastLogin == users[id].lastLogin
    ensures forall k :: k in users && k != id ==> r[k] == users[k]
  {
    users[id := users[id].(name := "summa", details := Some(StoredOf(d)))]
  }

  /** The update touches neither the WorkOS id nor the email, so the unique indexes still hold. */
  lemma AfterPutKeepsUniqueKeys(users: map<string, User>, id: string, d: UserDetails)
    requires id in users && UniqueKeys(users)
    ensures UniqueKeys(AfterPut(users, id, d))
  {
    var r := AfterPut(users, id, d);
    forall a, b | a in r && b in r
      ensures r[a].workosId == users[a].workosId && r[b].workosId == users[b].workosId
      ensures r[a].email == users[a].email && r[b].email == users[b].email
    {
    }
  }

  /** Writing the same profile twice leaves the collection as writing it once. */
  lemma PutIsIdempotent(users: map<string, User>, id: string, d: UserDetails)
    requires id in users
    ensures AfterPut(AfterPut(users, id, d), id, d) == AfterPut(users, id, d)
  {
  }

  /** What `GET` answers for a session against a collection. */
  function GetResponse(users: map<string, User>, sessionId: Option<string>): (r: DetailsResponse)
    ensures r.NotAuthenticated? <==> !HasSession(sessionId)
    ensures r.UserNotFound? <==> HasSession(sessionId) && sessionId.value !in users
    ensures r.Fetched? <==> HasSession(sessionId) && sessionId.value in users
    ensures r.Fetched? ==> r.storedDetails == users[sessionId.value].details
  {
    if !HasSession(sessionId) then NotAuthenticated
    else if sessionId.value !in users then UserNotFound
    else Fetched(users[sessionId.value].details)
  }

  /** A successful `PUT` is read back verbatim by a following `GET` of the same session. */
  lemma PutThenGet(users: map<string, User>, sessionId: Option<string>, body: Json)
    requires HasSession(sessionId) && sessionId.value in users
    requires ParseUserDetails(body).Success?
    ensures GetResponse(AfterPut(users, sessionId.value, ParseUserDetails(body).value), sessionId)
      == Fetched(Some(StoredOf(ParseUserDetails(body).value)))
    ensures GetResponse(AfterPut(users, sessionId.value, ParseUserDetails(body).value), sessionId).storedDetails.value.waterIntakeRecommended.None?
  {
  }

  /**
   * `PUT /api/user/details`. `body` is `None` when `request.json()` throws,
   * which the handler reports as a 500.
   */
  method Put(db: Database, sessionId: Option<string>, body: Option<Json>) returns (resp: DetailsResponse)
    requires db.Valid()
    modifies db
    ensures db.Valid()
    ensures !HasSession(sessionId) ==> resp == NotAuthenticated && unchanged(db)
    ensures HasSession(sessionId) && body.None? ==> resp == ServerError && unchanged(db)
    ensures HasSession(sessionId) && body.Some? && ParseUserDetails(body.value).Failure? ==>
      resp == InvalidData(ParseUserDetails(body.value).error) && unchanged(db)
    ensures HasSession(sessionId) && body.Some? && ParseUserDetails(body.value).Success? ==>
      var id := sessionId.value;
      if id in old(db.users) then
        && resp == Updated(StoredOf(ParseUserDetails(body.value).value))
        && db.users == AfterPut(old(db.users), id, ParseUserDetails(body.value).value)
        && db.weights == old(db.weights)
        && db.log == old(db.log) + [FindUserById(id), UpdateUser(id)]
      else
        && resp == UserNotFound
        && db.users == old(db.users)
        && db.weights == old(db.weights)
        && db.log == old(db.log) + [FindUserById(id)]
  {
    if !HasSession(sessionId) {
      return NotAuthenticated;
    }
    if body.None? {
      return ServerError;
    }
    var parsed := ParseUserDetails(body.value);
    if parsed.Failure? {
      return InvalidData(parsed.error);
    }
    var id := sessionId.value;
    db.log := db.log + [FindUserById(id)];
    if id !in db.users {
      return UserNotFound;
    }
    AfterPutKeepsUniqueKeys(db.users, id, parsed.value);
    db.users := AfterPut(db.users, id, parsed.value);
    db.log := db.log + [UpdateUser(id)];
    resp := Updated(db.users[id].details.value);
  }

  /** `GET /api/user/details`: reads the collection, logs the lookup and changes nothing else. */
  method Get(db: Database, sessionId: Option<string>) returns (resp: DetailsResponse)
    modifies db`log
    ensures resp == GetResponse(db.users, sessionId)
    ensures db.log == if HasSession(sessionId) then old(db.log) + [FindUserById(sessionId.value)] else old(db.log)
  {
    if !HasSession(sessionId) {
      return NotAuthenticated;
    }
    db.log := db.log + [FindUserById(sessionId.value)];
    if sessionId.value !in db.users {
      return UserNotFound;
    }
    resp := Fetched(db.users[sessionId.value].details);
  }
}
