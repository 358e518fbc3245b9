/**
 * The in-memory nutrition store used during development: a module-level
 * array that records are pushed onto, and a history query that keeps the
 * seven latest records at or before a given time of day.
 */
module VectorStore {
  import opened NutritionTypes
  import opened Text

  /** A stored document: the entry, its analysis, and the ISO time it was stored. */
  datatype StoredNutritionData = StoredNutritionData(
    foodIntake: FoodIntake,
    analysis: NutritionAnalysis,
    timestamp: string)

  /** The number of records the history query returns at most. */
  const HistoryLimit: nat := 7

  function TimeOf(r: StoredNutritionData): string {
    r.foodIntake.time
  }

  /** The records whose time of day is at or before `time`, in store order. */
  function AtOrBefore(records: seq<StoredNutritionData>, time: string): (r: seq<StoredNutritionData>)
    ensures forall x :: multiset(r)[x] == if LessEq(TimeOf(x), time) then multiset(records)[x] else 0
  {
    if records == [] then []
    else
      var rest := AtOrBefore(records[1..], time);
      assert records == [records[0]] + records[1..];
      if LessEq(TimeOf(records[0]), time) then [records[0]] + rest else rest
  }

  /** Latest time first. */
  predicate SortedByTimeDesc(s: seq<StoredNutritionData>) {
    forall i, j :: 0 <= i < j < |s| ==> LessEq(TimeOf(s[j]), TimeOf(s[i]))
  }

  /** Every record in `s` has a time at or before `t`. */
  predicate AllAtOrBefore(s: seq<StoredNutritionData>, t: string) {
    forall j :: 0 <= j < |s| ==> LessEq(TimeOf(s[j]), t)
  }

  /**
   * Inserts `x` into a list sorted latest first, ahead of the first record
   * whose time is not later than its own (so among equal times `x` comes first).
   */
  function InsertDesc(x: StoredNutritionData, s: seq<StoredNutritionData>): (r: seq<StoredNutritionData>)
    ensures multiset(r) == multiset(s) + multiset{x}
  {
    if s == [] || LessEq(TimeOf(s[0]), TimeOf(x)) then [x] + s
    else
      assert s == [s[0]] + s[1..];
      [s[0]] + InsertDesc(x, s[1..])
  }

  lemma {:induction false} InsertDescBounded(x: StoredNutritionData, s: seq<StoredNutritionData>, t: string)
    requires AllAtOrBefore(s, t) && LessEq(TimeOf(x), t)
    ensures AllAtOrBefore(InsertDesc(x, s), t)
  {
    if s != [] && !LessEq(TimeOf(s[0]), TimeOf(x)) {
      InsertDescBounded(x, s[1..], t);
    }
  }

  lemma {:induction false} InsertDescSorted(x: StoredNutritionData, s: seq<StoredNutritionData>)
    requires SortedByTimeDesc(s)
    ensures SortedByTimeDesc(InsertDesc(x, s))
  {
    if s == [] {
    } else if LessEq(TimeOf(s[0]), TimeOf(x)) {
      forall j | 0 <= j < |s| ensures LessEq(TimeOf(s[j]), TimeOf(x)) {
        if j > 0 { LessEqTransitive(TimeOf(s[j]), TimeOf(s[0]), TimeOf(x)); }
      }
    } else {
      LessEqTotal(TimeOf(s[0]), TimeOf(x));
      InsertDescSorted(x, s[1..]);
      InsertDescBounded(x, s[1..], TimeOf(s[0]));
    }
  }

  /**
   * `sort` with the comparator `b.time.localeCompare(a.time)`: a stable sort,
   * latest time first.
   */
  function SortDesc(s: seq<StoredNutritionData>): (r: seq<StoredNutritionData>)
    ensures SortedByTimeDesc(r)
    ensures multiset(r) == multiset(s)
  {
    if s == [] then []
    else
      assert s == [s[0]] + s[1..];
      InsertDescSorted(s[0], SortDesc(s[1..]));
      InsertDesc(s[0], SortDesc(s[1..]))
  }

  /** The records of `s` whose time is exactly `t`, in their order in `s`. */
  function WithTime(s: seq<StoredNutritionData>, t: string): seq<StoredNutritionData>
  {
    if s == [] then [] else (if TimeOf(s[0]) == t then [s[0]] else []) + WithTime(s[1..], t)
  }

  lemma WithTimeCons(x: StoredNutritionData, s: seq<StoredNutritionData>, t: string)
    ensures WithTime([x] + s, t) == (if TimeOf(x) == t then [x] else []) + WithTime(s, t)
  {
    assert ([x] + s)[1..] == s;
  }

  lemma LaterIsNotTied(a: StoredNutritionData, b: StoredNutritionData)
    requires !LessEq(TimeOf(a), TimeOf(b))
    ensures TimeOf(a) != TimeOf(b)
  {
    LessEqReflexive(TimeOf(b));
  }

  /** Inserting `x` passes only records later than `x`, so it lands ahead of every record timed like it. */
  lemma {:induction false} InsertDescKeepsTies(x: StoredNutritionData, s: seq<StoredNutritionData>, t: string)
    ensures WithTime(InsertDesc(x, s), t) == (if TimeOf(x) == t then [x] else []) + WithTime(s, t)
  {
    if s == [] || LessEq(TimeOf(s[0]), TimeOf(x)) {
      WithTimeCons(x, s, t);
    } else {
      var rest := InsertDesc(x, s[1..]);
      assert InsertDesc(x, s) == [s[0]] + rest;
      InsertDescKeepsTies(x, s[1..], t);
      WithTimeCons(s[0], rest, t);
      if TimeOf(x) == t {
        LaterIsNotTied(s[0], x);
        assert WithTime(s, t) == WithTime(s[1..], t);
      } else {
        assert WithTime(rest, t) == WithTime(s[1..], t);
      }
    }
  }

  /** The sort is stable: records with the same time keep their order in the input. */
  lemma {:induction false} SortDescStable(s: seq<StoredNutritionData>, t: string)
    ensures WithTime(SortDesc(s), t) == WithTime(s, t)
  {
    if s != [] {
      SortDescStable(s[1..], t);
      InsertDescKeepsTies(s[0], SortDesc(s[1..]), t);
    }
  }

  /** The filter keeps every record whose time is `t` when `t` qualifies, in store order. */
  lemma {:induction false} AtOrBeforeKeepsTies(s: seq<StoredNutritionData>, q: string, t: string)
    requires LessEq(t, q)
    ensures WithTime(AtOrBefore(s, q), t) == WithTime(s, t)
  {
    if s != [] {
      var rest := AtOrBefore(s[1..], q);
      AtOrBeforeKeepsTies(s[1..], q, t);
      if LessEq(TimeOf(s[0]), q) {
        assert AtOrBefore(s, q) == [s[0]] + rest;
        WithTimeCons(s[0], rest, t);
      } else {
        assert TimeOf(s[0]) != t;
        assert AtOrBefore(s, q) == rest;
      }
    }
  }

  /**
   * Among the qualifying records, those sharing a time come out of the sort in
   * the order they were stored.
   */
  lemma TiesInStoreOrder(s: seq<StoredNutritionData>, q: string, t: string)
    requires LessEq(t, q)
    ensures WithTime(SortDesc(AtOrBefore(s, q)), t) == WithTime(s, t)
  {
    SortDescStable(AtOrBefore(s, q), t);
    AtOrBeforeKeepsTies(s, q, t);
  }

  /** queryNutritionHistory: filter by time, sort latest first, keep the first seven. */
  function History(records: seq<StoredNutritionData>, time: string): seq<StoredNutritionData>
  {
    var sorted := SortDesc(AtOrBefore(records, time));
    if |sorted| <= HistoryLimit then sorted else sorted[..HistoryLimit]
  }

  /** The history holds at most seven records, and fewer only when fewer qualify. */
  lemma HistorySize(records: seq<StoredNutritionData>, time: string)
    ensures |History(records, time)| <= 7
    ensures |History(records, time)| == if |AtOrBefore(records, time)| < 7 then |AtOrBefore(records, time)| else 7
  {
    assert |multiset(SortDesc(AtOrBefore(records, time)))| == |multiset(AtOrBefore(records, time))|;
  }

  /**
   * Every record in the history is one of the store's, has a time at or before
   * `time`, and the history runs latest first.
   */
  lemma HistoryQualifiesAndSorted(records: seq<StoredNutritionData>, time: string)
    ensures multiset(History(records, time)) <= multiset(records)
    ensures forall k :: 0 <= k < |History(records, time)| ==> LessEq(TimeOf(History(records, time)[k]), time)
    ensures SortedByTimeDesc(History(records, time))
  {
    HistoryFromQualifying(records, time);
    var f := AtOrBefore(records, time);
    var h := History(records, time);
    forall k | 0 <= k < |h| ensures LessEq(TimeOf(h[k]), time) {
      assert h[k] in multiset(h);
    }
  }

  /** The history is taken from the front of the sorted qualifying records, so its records are among them. */
  lemma HistoryFromQualifying(records: seq<StoredNutritionData>, time: string)
    ensures var sorted := SortDesc(AtOrBefore(records, time));
      History(records, time) == sorted[..|History(records, time)|]
    ensures multiset(History(records, time)) <= multiset(AtOrBefore(records, time)) <= multiset(records)
  {
    var sorted := SortDesc(AtOrBefore(records, time));
    var h := History(records, time);
    assert sorted == h + sorted[|h|..];
    assert multiset(sorted) == multiset(h) + multiset(sorted[|h|..]);
  }

  /** In a list sorted latest first, nothing after position `n` is later than anything before it. */
  lemma SortedPrefixIsTop(sorted: seq<StoredNutritionData>, n: nat)
    requires SortedByTimeDesc(sorted) && n <= |sorted|
    ensures forall x, k :: x in multiset(sorted[n..]) && 0 <= k < n ==> LessEq(TimeOf(x), TimeOf(sorted[k]))
  {
    forall x, k | x in multiset(sorted[n..]) && 0 <= k < n
      ensures LessEq(TimeOf(x), TimeOf(sorted[k]))
    {
      var j :| 0 <= j < |sorted[n..]| && sorted[n..][j] == x;
      assert sorted[n + j] == x;
    }
  }

  /**
   * The history is the top seven: no qualifying record left out of it has a
   * later time than any record in it.
   */
  lemma HistoryIsTop(records: seq<StoredNutritionData>, time: string)
    ensures var h := History(records, time);
      forall x, k :: x in multiset(AtOrBefore(records, time)) - multiset(h) && 0 <= k < |h| ==>
        LessEq(TimeOf(x), TimeOf(h[k]))
  {
    var sorted := SortDesc(AtOrBefore(records, time));
    var h := History(records, time);
    assert sorted == h + sorted[|h|..];
    assert multiset(AtOrBefore(records, time)) - multiset(h) == multiset(sorted[|h|..]);
    SortedPrefixIsTop(sorted, |h|);
    assert forall k :: 0 <= k < |h| ==> h[k] == sorted[k];
  }

  /** The development store: a list of documents that only grows. */
  class NutritionStore {
    var records: seq<StoredNutritionData>

    constructor ()
      ensures records == []
    {
      records := [];
    }

    /**
     * storeNutritionData: builds the document with the storing time `now` (the
     * clock, as `new Date().toISOString()`), pushes it, and returns it.
     */
    method StoreNutritionData(foodIntake: FoodIntake, analysis: NutritionAnalysis, now: string)
      returns (document: StoredNutritionData)
      modifies this
      ensures document == StoredNutritionData(foodIntake, analysis, now)
      ensures records == old(records) + [document]
    {
      document := StoredNutritionData(foodIntake, analysis, now);
      records := records + [document];
    }

    /** queryNutritionHistory: reads the store and leaves it as it is. */
    method QueryNutritionHistory(time: string) returns (result: seq<StoredNutritionData>)
      ensures result == History(records, time)
    {
      result := History(records, time);
    }
  }
}
