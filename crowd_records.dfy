/**
 * The `crowd_records` table of database.py (`CrowdDatabase`), modelled as the
 * sequence of its rows in id order rather than as SQL: an
 * insert-or-update keyed by a unique timestamp, a per-weekday query ordered
 * by timestamp and a per-weekday count/max/min aggregate.
 */
module CrowdRecords {
  import opened Optional
  import opened Timestamps

  /** One row: its autoincrement id, the unique timestamp, the count and the weekday. */
  datatype Record = Record(id: nat, timestamp: Timestamp, personCount: int, weekday: int)

  /** The `UNIQUE` constraint on `timestamp`. */
  predicate UniqueTimestamps(rs: seq<Record>) {
    forall i, j :: 0 <= i < j < |rs| ==> rs[i].timestamp != rs[j].timestamp
  }

  /**
   * The table's invariant under `id INTEGER PRIMARY KEY AUTOINCREMENT`:
   * unique timestamps, and ids that are positive, strictly increasing in row
   * order and below `nextId`, the id the next inserted row receives (one more
   * than the largest id ever handed out). Ids may have gaps, as deleted rows
   * leave them.
   */
  predicate TableValid(rs: seq<Record>, nextId: nat) {
    && UniqueTimestamps(rs)
    && 1 <= nextId
    && (forall i :: 0 <= i < |rs| ==> 1 <= rs[i].id < nextId)
    && (forall i, j :: 0 <= i < j < |rs| ==> rs[i].id < rs[j].id)
  }

  /** The position of the row with timestamp `ts`, if there is one. */
  function IndexOf(rs: seq<Record>, ts: Timestamp): (r: Option<nat>)
    ensures r.None? <==> forall i :: 0 <= i < |rs| ==> rs[i].timestamp != ts
    ensures r.Some? ==> r.value < |rs| && rs[r.value].timestamp == ts
  {
    if rs == [] then None
    else if rs[|rs| - 1].timestamp == ts then Some(|rs| - 1)
    else IndexOf(rs[..|rs| - 1], ts)
  }

  /**
   * The weekday stored for a new row: a given weekday is stored as it is
   * (it is not checked against the timestamp); without one, the timestamp's
   * own weekday, 0 (Monday) to 6 (Sunday).
   */
  function ResolveWeekday(ts: Timestamp, weekday: Option<int>): (w: int)
    ensures weekday.Some? ==> w == weekday.value
    ensures weekday.None? ==> w == Weekday(ts) && 0 <= w <= 6
  {
    match weekday
    case None => Weekday(ts)
    case Some(w) => w
  }

  /**
   * `add_record` on a table whose next autoincrement id is `nextId`: the new
   * table, and True when a row was inserted. A new timestamp gets a new row
   * with id `nextId`; an existing one only has its count replaced, and the
   * failed insert hands out no id.
   */
  function Upsert(rs: seq<Record>, nextId: nat, ts: Timestamp, count: int, weekday: Option<int>): (r: (seq<Record>, bool))
    ensures r.1 <==> forall i :: 0 <= i < |rs| ==> rs[i].timestamp != ts
    ensures r.1 ==> r.0 == rs + [Record(nextId, ts, count, ResolveWeekday(ts, weekday))]
    ensures !r.1 ==> |r.0| == |rs|
    ensures !r.1 ==>
      exists i ::
        && 0 <= i < |rs| && rs[i].timestamp == ts
        && r.0[i] == rs[i].(personCount := count)
        && forall j :: 0 <= j < |rs| && j != i ==> r.0[j] == rs[j]
  {
    match IndexOf(rs, ts)
    case None => (rs + [Record(nextId, ts, count, ResolveWeekday(ts, weekday))], true)
    case Some(i) => (rs[i := rs[i].(personCount := count)], false)
  }

  /** The id the table hands out next: one more after an insert, unchanged after an update. */
  function NextIdAfter(nextId: nat, inserted: bool): nat {
    if inserted then nextId + 1 else nextId
  }

  /**
   * The table never holds two rows with the same timestamp, and ids stay
   * increasing and are never reused: a new row's id exceeds every id before it.
   */
  lemma UpsertKeepsTableValid(rs: seq<Record>, nextId: nat, ts: Timestamp, count: int, weekday: Option<int>)
    requires TableValid(rs, nextId)
    ensures var (r, inserted) := Upsert(rs, nextId, ts, count, weekday);
      && TableValid(r, NextIdAfter(nextId, inserted))
      && (inserted ==> forall i :: 0 <= i < |rs| ==> rs[i].id < r[|rs|].id)
  {
    var r := Upsert(rs, nextId, ts, count, weekday).0;
    if !Upsert(rs, nextId, ts, count, weekday).1 {
      assert forall i :: 0 <= i < |rs| ==> r[i].timestamp == rs[i].timestamp && r[i].id == rs[i].id;
    }
  }

  /** The `UNIQUE` constraint survives a write. */
  lemma UpsertKeepsUnique(rs: seq<Record>, nextId: nat, ts: Timestamp, count: int, weekday: Option<int>)
    requires UniqueTimestamps(rs)
    ensures UniqueTimestamps(Upsert(rs, nextId, ts, count, weekday).0)
  {
    var r := Upsert(rs, nextId, ts, count, weekday).0;
    if !Upsert(rs, nextId, ts, count, weekday).1 {
      assert forall i :: 0 <= i < |rs| ==> r[i].timestamp == rs[i].timestamp;
    }
  }

  /**
   * Writing twice with one timestamp leaves what a single write of the second
   * count would: one row, carrying the second count and the first write's
   * weekday (when the timestamp was new), and no other row changed.
   */
  lemma UpsertTwice(rs: seq<Record>, nextId: nat, ts: Timestamp, c1: int, w1: Option<int>, c2: int, w2: Option<int>)
    requires UniqueTimestamps(rs)
    ensures var (once, inserted) := Upsert(rs, nextId, ts, c1, w1);
      Upsert(once, NextIdAfter(nextId, inserted), ts, c2, w2) == (Upsert(rs, nextId, ts, c2, w1).0, false)
  {
    var once := Upsert(rs, nextId, ts, c1, w1).0;
    UpsertKeepsUnique(rs, nextId, ts, c1, w1);
    if Upsert(rs, nextId, ts, c1, w1).1 {
      assert once[|rs|].timestamp == ts;
      assert once == rs + [Record(nextId, ts, c1, ResolveWeekday(ts, w1))];
      var i := IndexOf(once, ts).value;
      assert i == |rs|;
      assert once[i := once[i].(personCount := c2)] == rs + [Record(nextId, ts, c2, ResolveWeekday(ts, w1))];
    } else {
      var i := IndexOf(rs, ts).value;
      assert once == rs[i := rs[i].(personCount := c1)];
      var k := IndexOf(once, ts).value;
      assert k == i by {
        if k != i { assert false; }
      }
      assert once[i := once[i].(personCount := c2)] == rs[i := rs[i].(personCount := c2)];
    }
  }

  // ---------------------------------------------------------------------------
  // The table as a map from timestamp to count
  // ---------------------------------------------------------------------------

  /** The counts of the table keyed by timestamp (later rows win, which never matters in a valid table). */
  function CountByTime(rs: seq<Record>): map<Timestamp, int>
    decreases |rs|
  {
    if rs == [] then map[]
    else CountByTime(rs[..|rs| - 1])[rs[|rs| - 1].timestamp := rs[|rs| - 1].personCount]
  }

  /** The map has exactly the table's timestamps as keys. */
  lemma {:induction false} CountByTimeKeys(rs: seq<Record>)
    ensures CountByTime(rs).Keys == set i | 0 <= i < |rs| :: rs[i].timestamp
    decreases |rs|
  {
    if rs != [] {
      var init := rs[..|rs| - 1];
      CountByTimeKeys(init);
      assert forall i :: 0 <= i < |init| ==> init[i] == rs[i];
      assert (set i | 0 <= i < |rs| :: rs[i].timestamp) == (set i | 0 <= i < |init| :: init[i].timestamp) + {rs[|rs| - 1].timestamp};
    }
  }

  /** In a table with unique timestamps, the map gives each row's own count. */
  lemma {:induction false} CountByTimeAt(rs: seq<Record>, i: nat)
    requires UniqueTimestamps(rs) && i < |rs|
    ensures rs[i].timestamp in CountByTime(rs) && CountByTime(rs)[rs[i].timestamp] == rs[i].personCount
    decreases |rs|
  {
    if i < |rs| - 1 {
      var init := rs[..|rs| - 1];
      assert init[i] == rs[i];
      CountByTimeAt(init, i);
    }
  }

  /** Replacing the count of row `i` updates the map at that row's timestamp and nowhere else. */
  lemma {:induction false} CountByTimeSetCount(rs: seq<Record>, i: nat, c: int)
    requires UniqueTimestamps(rs) && i < |rs|
    ensures CountByTime(rs[i := rs[i].(personCount := c)]) == CountByTime(rs)[rs[i].timestamp := c]
    decreases |rs|
  {
    var n := |rs| - 1;
    var rs' := rs[i := rs[i].(personCount := c)];
    var init := rs[..n];
    if i == n {
      assert rs'[..n] == init;
    } else {
      assert rs'[..n] == init[i := init[i].(personCount := c)];
      UniquePrefix(rs, n);
      CountByTimeSetCount(init, i, c);
      MapUpdatesCommute(CountByTime(init), rs[i].timestamp, c, rs[n].timestamp, rs[n].personCount);
    }
  }

  lemma UniquePrefix(rs: seq<Record>, n: nat)
    requires UniqueTimestamps(rs) && n <= |rs|
    ensures UniqueTimestamps(rs[..n])
  {
    assert forall k :: 0 <= k < n ==> rs[..n][k] == rs[k];
  }

  lemma MapUpdatesCommute(m: map<Timestamp, int>, a: Timestamp, x: int, b: Timestamp, y: int)
    requires a != b
    ensures m[a := x][b := y] == m[b := y][a := x]
  {
  }

  /** `add_record` is, on counts, exactly a map update: the timestamp now maps to the new count. */
  lemma UpsertIsMapUpdate(rs: seq<Record>, nextId: nat, ts: Timestamp, count: int, weekday: Option<int>)
    requires TableValid(rs, nextId)
    ensures CountByTime(Upsert(rs, nextId, ts, count, weekday).0) == CountByTime(rs)[ts := count]
  {
    var r := Upsert(rs, nextId, ts, count, weekday).0;
    if Upsert(rs, nextId, ts, count, weekday).1 {
      assert r[..|r| - 1] == rs;
    } else {
      var i := IndexOf(rs, ts).value;
      CountByTimeSetCount(rs, i, count);
    }
  }

  // ---------------------------------------------------------------------------
  // Queries
  // ---------------------------------------------------------------------------

  /** `WHERE weekday = ?`: the rows with weekday `w`, in table order. */
  function WithWeekday(rs: seq<Record>, w: int): (r: seq<Record>)
    ensures |r| <= |rs|
    ensures forall x :: x in r <==> x in rs && x.weekday == w
    ensures UniqueTimestamps(rs) ==> UniqueTimestamps(r)
    decreases |rs|
  {
    if rs == [] then []
    else
      var init, last := rs[..|rs| - 1], rs[|rs| - 1];
      assert forall x :: x in rs <==> x in init || x == last;
      WithWeekday(init, w) + if last.weekday == w then [last] else []
  }

  /** Strictly ascending timestamps: the order of `ORDER BY timestamp` on a table with unique timestamps. */
  predicate Ascending(rs: seq<Record>) {
    forall i, j :: 0 <= i < j < |rs| ==> Before(rs[i].timestamp, rs[j].timestamp)
  }

  /** Inserting a row before the first row of `s` whose timestamp it precedes. */
  function Insert(x: Record, s: seq<Record>): (r: seq<Record>)
    ensures multiset(r) == multiset(s) + multiset{x}
    ensures forall z :: z in r <==> z == x || z in s
  {
    if s == [] then [x]
    else if Before(x.timestamp, s[0].timestamp) then [x] + s
    else
      assert s == [s[0]] + s[1..];
      [s[0]] + Insert(x, s[1..])
  }

  /** Inserting into ascending rows a row with a new timestamp keeps them ascending. */
  lemma {:induction false} InsertAscending(x: Record, s: seq<Record>)
    requires Ascending(s) && forall y :: y in s ==> y.timestamp != x.timestamp
    ensures Ascending(Insert(x, s))
  {
    if s != [] {
      if Before(x.timestamp, s[0].timestamp) {
        forall j | 0 <= j < |s| ensures Before(x.timestamp, s[j].timestamp) {
          BeforeStrictTotal(x.timestamp, s[0].timestamp, s[j].timestamp);
        }
      } else {
        BeforeStrictTotal(x.timestamp, s[0].timestamp, x.timestamp);
        InsertAscending(x, s[1..]);
        var rest := Insert(x, s[1..]);
        forall z | z in rest ensures Before(s[0].timestamp, z.timestamp) {
          if z != x {
            var j :| 0 < j < |s| && s[j] == z;
          }
        }
      }
    }
  }

  /** Sorts rows with unique timestamps into ascending timestamp order. */
  function SortByTime(s: seq<Record>): (r: seq<Record>)
    requires UniqueTimestamps(s)
    ensures Ascending(r) && multiset(r) == multiset(s)
    decreases |s|
  {
    if s == [] then []
    else
      var init, last := s[..|s| - 1], s[|s| - 1];
      assert s == init + [last];
      UniquePrefix(s, |s| - 1);
      var sorted := SortByTime(init);
      LastIsFresh(s, sorted);
      InsertAscending(last, sorted);
      Insert(last, sorted)
  }

  /** With unique timestamps, no rearrangement of the other rows shares the last row's timestamp. */
  lemma LastIsFresh(s: seq<Record>, other: seq<Record>)
    requires UniqueTimestamps(s) && s != []
    requires multiset(other) == multiset(s[..|s| - 1])
    ensures forall y :: y in other ==> y.timestamp != s[|s| - 1].timestamp
  {
    forall y | y in other
      ensures y.timestamp != s[|s| - 1].timestamp
    {
      assert y in multiset(s[..|s| - 1]);
      var k :| 0 <= k < |s| - 1 && s[..|s| - 1][k] == y;
      assert s[k] == y;
    }
  }

  /** `get_records_by_weekday`: the rows with weekday `w` sorted by timestamp. */
  function RecordsByWeekday(rs: seq<Record>, w: int): (r: seq<Record>)
    requires UniqueTimestamps(rs)
    ensures Ascending(r)
    ensures forall x :: x in r <==> x in rs && x.weekday == w
    ensures multiset(r) == multiset(WithWeekday(rs, w))
  {
    var r := SortByTime(WithWeekday(rs, w));
    assert forall x :: x in r <==> x in multiset(WithWeekday(rs, w));
    r
  }

  /** Ascending rows never repeat: each matching row appears exactly once. */
  lemma AscendingHasNoDuplicates(rs: seq<Record>, x: Record)
    requires Ascending(rs)
    ensures multiset(rs)[x] <= 1
    decreases |rs|
  {
    if rs != [] {
      assert rs == [rs[0]] + rs[1..];
      if x == rs[0] {
        if x in rs[1..] {
          var j :| 0 <= j < |rs[1..]| && rs[1..][j] == x;
          assert Before(rs[0].timestamp, rs[j + 1].timestamp);
          BeforeStrictTotal(x.timestamp, x.timestamp, x.timestamp);
        }
      }
      AscendingHasNoDuplicates(rs[1..], x);
    }
  }

  /** The result of `get_weekday_stats`; AVG is not modelled. */
  datatype WeekdayStats = WeekdayStats(maxPeople: Option<int>, minPeople: Option<int>, recordCount: nat)

  /** SQL `MAX`/`MIN` over a column: None for no rows. */
  function MaxOf(a: Option<int>, c: int): int {
    if a.Some? && a.value >= c then a.value else c
  }

  function MinOf(a: Option<int>, c: int): int {
    if a.Some? && a.value <= c then a.value else c
  }

  /** `COUNT(*)`, `MAX(person_count)` and `MIN(person_count)` over `rs`. */
  function Aggregate(rs: seq<Record>): (st: WeekdayStats)
    ensures st.recordCount == |rs|
    ensures st.maxPeople.Some? <==> rs != []
    ensures st.minPeople.Some? <==> rs != []
    ensures st.maxPeople.Some? ==>
      (forall i :: 0 <= i < |rs| ==> rs[i].personCount <= st.maxPeople.value)
      && exists i :: 0 <= i < |rs| && rs[i].personCount == st.maxPeople.value
    ensures st.minPeople.Some? ==>
      (forall i :: 0 <= i < |rs| ==> st.minPeople.value <= rs[i].personCount)
      && exists i :: 0 <= i < |rs| && rs[i].personCount == st.minPeople.value
    decreases |rs|
  {
    if rs == [] then WeekdayStats(None, None, 0)
    else
      var init, c := rs[..|rs| - 1], rs[|rs| - 1].personCount;
      var st := Aggregate(init);
      assert forall i :: 0 <= i < |init| ==> init[i] == rs[i];
      WeekdayStats(Some(MaxOf(st.maxPeople, c)), Some(MinOf(st.minPeople, c)), st.recordCount + 1)
  }

  /** `get_weekday_stats`: the aggregate over the rows with weekday `w`. */
  function WeekdayStatsOf(rs: seq<Record>, w: int): (st: WeekdayStats)
    ensures st.recordCount == |WithWeekday(rs, w)|
    ensures st.maxPeople.None? <==> forall x :: x in rs ==> x.weekday != w
  {
    var f := WithWeekday(rs, w);
    assert f != [] ==> f[0] in f;
    Aggregate(f)
  }

  /** Whenever there are rows for the weekday, the minimum does not exceed the maximum. */
  lemma MinAtMostMax(rs: seq<Record>, w: int)
    requires exists x :: x in rs && x.weekday == w
    ensures WeekdayStatsOf(rs, w).minPeople.Some? && WeekdayStatsOf(rs, w).maxPeople.Some?
    ensures WeekdayStatsOf(rs, w).minPeople.value <= WeekdayStatsOf(rs, w).maxPeople.value
  {
    var st := WeekdayStatsOf(rs, w);
    var f := WithWeekday(rs, w);
    var x :| x in rs && x.weekday == w;
    assert x in f;
    assert st.minPeople.value <= f[0].personCount <= st.maxPeople.value;
  }

  /** The two queries agree: the stats count the rows the ordered query returns. */
  lemma StatsCountMatchesQuery(rs: seq<Record>, w: int)
    requires UniqueTimestamps(rs)
    ensures WeekdayStatsOf(rs, w).recordCount == |RecordsByWeekday(rs, w)|
  {
    var r := RecordsByWeekday(rs, w);
    assert |multiset(r)| == |multiset(WithWeekday(rs, w))|;
  }

  // ---------------------------------------------------------------------------
  // The table object
  // ---------------------------------------------------------------------------

  class CrowdDatabase {
    /** The rows of `crowd_records`, in id order. */
    var records: seq<Record>
    /** The id the next inserted row receives: one more than the largest the table has handed out. */
    var nextId: nat

    ghost predicate Valid()
      reads this
    {
      TableValid(records, nextId)
    }

    /**
     * Opens the table, which holds the rows already stored and the
     * autoincrement counter already reached (no rows and 1 for a new file).
     */
    constructor (stored: seq<Record>, storedNextId: nat)
      requires TableValid(stored, storedNextId)
      ensures Valid() && records == stored && nextId == storedNextId
    {
      records := stored;
      nextId := storedNextId;
    }

    /** `add_record`; returns True when the timestamp was new. */
    method AddRecord(ts: Timestamp, personCount: int, weekday: Option<int>) returns (isNew: bool)
      requires Valid()
      modifies this
      ensures Valid()
      ensures (records, isNew) == Upsert(old(records), old(nextId), ts, personCount, weekday)
      ensures nextId == NextIdAfter(old(nextId), isNew)
    {
      UpsertKeepsTableValid(records, nextId, ts, personCount, weekday);
      var i := IndexOf(records, ts);
      if i.None? {
        records := records + [Record(nextId, ts, personCount, ResolveWeekday(ts, weekday))];
        nextId := nextId + 1;
        isNew := true;
      } else {
        records := records[i.value := records[i.value].(personCount := personCount)];
        isNew := false;
      }
    }

    /** `get_records_by_weekday`: reads the table, changes nothing. */
    method GetRecordsByWeekday(w: int) returns (rs: seq<Record>)
      requires Valid()
      ensures Ascending(rs)
      ensures forall x :: x in rs <==> x in records && x.weekday == w
      ensures forall x :: x in rs ==> multiset(rs)[x] == 1
    {
      rs := RecordsByWeekday(records, w);
      forall x | x in rs ensures multiset(rs)[x] == 1 {
        AscendingHasNoDuplicates(rs, x);
      }
    }

    /** `get_weekday_stats`: reads the table, changes nothing. */
    method GetWeekdayStats(w: int) returns (st: WeekdayStats)
      requires Valid()
      ensures st == WeekdayStatsOf(records, w)
      ensures st.recordCount == |WithWeekday(records, w)|
      ensures st.maxPeople.Some? ==> st.minPeople.Some? && st.minPeople.value <= st.maxPeople.value
    {
      st := WeekdayStatsOf(records, w);
      if st.maxPeople.Some? {
        MinAtMostMax(records, w);
      }
    }
  }
}
