/**
 * `GET /api/nutrition/history`: the session user's food entries for a date
 * and the day's calorie total. The query that reads the entries is not
 * defined by the nutrition store and is a parameter here; a query that throws
 * is a `Failure`.
 */
module NutritionHistoryRoute {
  import opened Wrappers
  import opened NutritionTypes
  import opened SessionCookie
  import opened Dates

  /** An entry as the query returns it; its analysis may be missing. */
  datatype NutritionEntry = NutritionEntry(foodIntake: FoodIntake, analysis: Option<NutritionAnalysis>)

  /** `entry.analysis?.totalCalories || 0`: missing and zero both count as 0. */
  function CaloriesOf(e: NutritionEntry): (c: real)
    ensures e.analysis.None? || e.analysis.value.totalCalories.None? ==> c == 0.0
    ensures e.analysis.Some? && e.analysis.value.totalCalories.Some? ==> c == e.analysis.value.totalCalories.value
  {
    if e.analysis.Some? && e.analysis.value.totalCalories.Some? then e.analysis.value.totalCalories.value else 0.0
  }

  /** `entries.reduce((sum, entry) => sum + CaloriesOf(entry), 0)`, folded from the left. */
  function TotalCalories(entries: seq<NutritionEntry>): (total: real)
    ensures entries == [] ==> total == 0.0
  {
    if entries == [] then 0.0
    else TotalCalories(entries[..|entries| - 1]) + CaloriesOf(entries[|entries| - 1])
  }

  /** The total splits over any division of the list, so it does not depend on how the entries are grouped. */
  lemma {:induction false} TotalOfAppend(a: seq<NutritionEntry>, b: seq<NutritionEntry>)
    ensures TotalCalories(a + b) == TotalCalories(a) + TotalCalories(b)
    decreases |b|
  {
    if b == [] {
      assert a + b == a;
    } else {
      assert (a + b)[..|a + b| - 1] == a + b[..|b| - 1];
      TotalOfAppend(a, b[..|b| - 1]);
    }
  }

  /** An entry on its own contributes its calories, or nothing. */
  lemma TotalOfOne(e: NutritionEntry)
    ensures TotalCalories([e]) == CaloriesOf(e)
  {
    assert [e][..0] == [];
  }

  /** With no negative calorie counts the total is never negative, and it bounds each entry's count. */
  lemma {:induction false} TotalBoundsEachEntry(entries: seq<NutritionEntry>, i: nat)
    requires forall k :: 0 <= k < |entries| ==> CaloriesOf(entries[k]) >= 0.0
    requires i < |entries|
    ensures 0.0 <= CaloriesOf(entries[i]) <= TotalCalories(entries)
    decreases |entries|
  {
    var init := entries[..|entries| - 1];
    TotalNonNegative(init);
    if i < |entries| - 1 {
      assert entries[i] == init[i];
      TotalBoundsEachEntry(init, i);
    }
  }

  lemma {:induction false} TotalNonNegative(entries: seq<NutritionEntry>)
    requires forall k :: 0 <= k < |entries| ==> CaloriesOf(entries[k]) >= 0.0
    ensures TotalCalories(entries) >= 0.0
    decreases |entries|
  {
    if entries != [] {
      var init := entries[..|entries| - 1];
      assert forall k :: 0 <= k < |init| ==> init[k] == entries[k];
      TotalNonNegative(init);
    }
  }

  datatype HistoryResponse =
    | History(date: string, totalCalories: real, entries: seq<NutritionEntry>, userId: string)  // 200
    | HistoryError(error: string)                                                             // 400

  /**
   * The handler. `cookie` is the `Cookie` header, `dateParam` the `date`
   * search parameter, `now` the local clock reading.
   */
  method Get(
    cookie: Option<string>,
    dateParam: Option<string>,
    now: LocalNow,
    queryNutritionForDate: (string, string) -> Result<seq<NutritionEntry>, string>)
    returns (resp: HistoryResponse)
    requires ValidNow(now)
    ensures
      var userId := SessionIdFromHeader(cookie);
      var date := if dateParam.Some? && dateParam.value != "" then dateParam.value
                  else FullDate(now.fullYear, now.monthIndex + 1, now.dayOfMonth);
      match queryNutritionForDate(userId, date)
      case Success(entries) => resp == History(date, TotalCalories(entries), entries, userId)
      case Failure(e) => resp == HistoryError(e)
  {
    var userId := ReadSessionId(cookie);
    var date := DateOrToday(dateParam, now);
    var queried := queryNutritionForDate(userId, date);
    if queried.Failure? {
      return HistoryError(queried.error);
    }
    var entries := queried.value;
    resp := History(date, TotalCalories(entries), entries, userId);
  }
}
