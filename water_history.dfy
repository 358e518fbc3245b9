/**
 * `GET /api/water/history`: the session user's water entries for a date and
 * the day's total intake, as the water query computes them. That query is
 * not defined by the store module and is a parameter here; one that throws
 * is a `Failure`.
 */
module WaterHistoryRoute {
  import opened Wrappers
  import opened Json
  import opened SessionCookie
  import opened Dates

  /** What the water query returns for a user and a date. */
  datatype WaterDay = WaterDay(entries: seq<Json>, totalIntake: real)

  datatype WaterHistoryResponse =
    | WaterHistory(date: string, totalIntake: real, entries: seq<Json>)  // 200, `success: true`
    | WaterHistoryError(error: string)                                   // 400, `success: false`

  /**
   * The handler: the date it answers for is the one it was asked for (or
   * today's), and the query's entries and total pass through untouched.
   */
  method Get(
    cookie: Option<string>,
    dateParam: Option<string>,
    now: LocalNow,
    queryWaterForDate: (string, string) -> Result<WaterDay, string>)
    returns (resp: WaterHistoryResponse)
    requires ValidNow(now)
    ensures
      var userId := SessionIdFromHeader(cookie);
      var date := if dateParam.Some? && dateParam.value != "" then dateParam.value
                  else FullDate(now.fullYear, now.monthIndex + 1, now.dayOfMonth);
      match queryWaterForDate(userId, date)
      case Success(day) => resp == WaterHistory(date, day.totalIntake, day.entries)
      case Failure(e) => resp == WaterHistoryError(e)
  {
    var userId := ReadSessionId(cookie);
    var date := DateOrToday(dateParam, now);
    var queried := queryWaterForDate(userId, date);
    if queried.Failure? {
      return WaterHistoryError(queried.error);
    }
    resp := WaterHistory(date, queried.value.totalIntake, queried.value.entries);
  }
}
