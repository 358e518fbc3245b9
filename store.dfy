/**
 * The database the routes talk to, as the routes see it: the `User`
 * collection, keyed by document id, and an ordered log of every call the
 * routes make to the database and to the external services. Calls to store
 * functions and models that the source imports but does not define appear
 * only in the log.
 */
module Store {
  import opened Wrappers
  import opened Json
  import opened NutritionTypes

  /**
   * The `userDetails` sub-document. Every field is optional: a weight
   * submission creates it holding only the weight. The water goal is read by
   * the water route but no route in this model writes it.
   */
  datatype StoredDetails = StoredDetails(
    height: Option<real>,
    weight: Option<real>,
    age: Option<real>,
    gender: Option<string>,
    goal: Option<string>,
    activityLevel: Option<string>,
    waterIntakeRecommended: Option<real>)

  const NoDetails: StoredDetails := StoredDetails(None, None, None, None, None, None, None)

  /** A `User` document; `lastLogin` is a clock reading in milliseconds. */
  datatype User = User(
    email: string,
    name: string,
    picture: Option<string>,
    workosId: string,
    lastLogin: int,
    details: Option<StoredDetails>)

  /** A weight entry as the weight route builds it. */
  datatype WeightEntry = WeightEntry(userId: string, weight: real, date: string, timestamp: int)

  /** A JavaScript number that may be `NaN`. */
  datatype Num = Finite(value: real) | NaN

  /** The intake the water route builds; `time` is whatever the body carried. */
  datatype WaterIntake = WaterIntake(amount: Num, kind: string, time: Json)

  datatype HydrationStatus = Optimal | Adequate | Insufficient

  /** The analysis the language model returns for a water intake. */
  datatype WaterAnalysis = WaterAnalysis(
    totalIntake: real,
    goal: real,
    completionRate: real,
    morning: real,
    afternoon: real,
    evening: real,
    recommendations: seq<string>,
    hydrationStatus: HydrationStatus)

  /** The food entry the nutrition route keeps after validation: `food` and `time` only. */
  datatype FoodInput = FoodInput(food: string, time: string)

  /** One call to the database or to an external service, in the order made. */
  datatype Effect =
    | FindUserById(id: string)
    | UpdateUser(id: string)
    | FindUserByWorkosId(workosId: string)
    | CreateUser(id: string)
    | SaveUser(id: string)
    | SaveWeight(entry: WeightEntry)
    | UpdateProfileWeight(id: string, weight: real)
    | AnalyzeWater(intake: WaterIntake, goal: real)
    | StoreWater(userId: string, intake: WaterIntake, waterAnalysis: WaterAnalysis)
    | AnalyzeFood(input: FoodInput)
    | StoreNutrition(userId: string, food: FoodInput, nutritionAnalysis: NutritionAnalysis)
    | GenerateFeedback(kind: string)
    | Authenticate(code: string)

  /** No two users share a WorkOS id or an email: the collection's unique indexes. */
  ghost predicate UniqueKeys(users: map<string, User>) {
    && (forall a, b :: a in users && b in users && users[a].workosId == users[b].workosId ==> a == b)
    && (forall a, b :: a in users && b in users && users[a].email == users[b].email ==> a == b)
  }

  class Database {
    var users: map<string, User>
    /** The weight entries whose save succeeded, oldest first. */
    var weights: seq<WeightEntry>
    var log: seq<Effect>

    ghost predicate Valid()
      reads this
    {
      UniqueKeys(users)
    }

    constructor (initial: map<string, User>)
      requires UniqueKeys(initial)
      ensures Valid() && users == initial && weights == [] && log == []
    {
      users := initial;
      weights := [];
      log := [];
    }
  }
}
