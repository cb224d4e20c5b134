/** The schedule cache store: `get_cached_schedule` reads the first row
    keyed by (group, week start of the target date), and
    `save_schedule_to_cache` updates that row's payload in place or appends
    a new row. The week-start derivation is an arbitrary function passed in
    as `weekStart`. */
module ScheduleCache {
  import opened Wrappers
  import opened Calendar
  import opened Models

  predicate HasKey(row: CacheRow, groupId: GroupId, weekStart: Date)
  {
    row.groupId == groupId && row.weekStart == weekStart
  }

  /** The position of the first row with the given key: the row that
      `.scalars().first()` picks. */
  function FirstWithKey(rows: seq<CacheRow>, groupId: GroupId, weekStart: Date): (r: Option<nat>)
    ensures r.Some? ==> r.value < |rows| && HasKey(rows[r.value], groupId, weekStart)
    ensures r.Some? ==> forall j :: 0 <= j < r.value ==> !HasKey(rows[j], groupId, weekStart)
    ensures r.None? ==> forall j :: 0 <= j < |rows| ==> !HasKey(rows[j], groupId, weekStart)
  {
    if rows == [] then None
    else if HasKey(rows[0], groupId, weekStart) then Some(0)
    else match FirstWithKey(rows[1..], groupId, weekStart)
      case None => None
      case Some(i) => Some(i + 1)
  }

  /** `get_cached_schedule`: the whole first matching row (not only its
      payload), or `None` when no row has the key. */
  function GetCachedSchedule(rows: seq<CacheRow>, weekStart: Date -> Date, groupId: GroupId, targetDate: Date): (r: Option<CacheRow>)
    ensures r.None? <==> forall j :: 0 <= j < |rows| ==> !HasKey(rows[j], groupId, weekStart(targetDate))
    ensures r.Some? ==> exists i :: 0 <= i < |rows| && rows[i] == r.value
                                  && HasKey(rows[i], groupId, weekStart(targetDate))
                                  && forall j :: 0 <= j < i ==> !HasKey(rows[j], groupId, weekStart(targetDate))
  {
    match FirstWithKey(rows, groupId, weekStart(targetDate))
    case None => None
    case Some(i) => Some(rows[i])
  }

  /** `UPDATE ScheduleCache SET data, updated_at WHERE id == id`. */
  function UpdateWhereId(rows: seq<CacheRow>, id: int, data: string, now: Timestamp): (r: seq<CacheRow>)
    ensures |r| == |rows|
    ensures forall k :: 0 <= k < |rows| ==>
              r[k].id == rows[k].id && r[k].groupId == rows[k].groupId && r[k].weekStart == rows[k].weekStart
    ensures forall k :: 0 <= k < |rows| ==>
              if rows[k].id == id then r[k].data == data && r[k].updatedAt == WrittenAt(now) else r[k] == rows[k]
  {
    seq(|rows|, k requires 0 <= k < |rows| =>
      if rows[k].id == id then rows[k].(data := data, updatedAt := WrittenAt(now)) else rows[k])
  }

  /** The table after `save_schedule_to_cache`, with `nextId` the identifier
      the database assigns to an inserted row. */
  function Upsert(rows: seq<CacheRow>, nextId: int, groupId: GroupId, weekStart: Date, data: string, now: Timestamp): (r: seq<CacheRow>)
    ensures |r| == if FirstWithKey(rows, groupId, weekStart).Some? then |rows| else |rows| + 1
    ensures exists i :: 0 <= i < |r| && HasKey(r[i], groupId, weekStart) && r[i].data == data
  {
    match FirstWithKey(rows, groupId, weekStart)
    case Some(i) =>
      var updated := UpdateWhereId(rows, rows[i].id, data, now);
      assert HasKey(updated[i], groupId, weekStart) && updated[i].data == data;
      updated
    case None =>
      var appended := rows + [CacheRow(nextId, groupId, weekStart, data, ColumnDefault)];
      assert HasKey(appended[|rows|], groupId, weekStart) && appended[|rows|].data == data;
      appended
  }

  predicate UniqueIds(rows: seq<CacheRow>)
  {
    forall i, j :: 0 <= i < j < |rows| ==> rows[i].id != rows[j].id
  }

  /** At most one row per (group, week start) key. */
  predicate UniqueKeys(rows: seq<CacheRow>)
  {
    forall i, j :: 0 <= i < j < |rows| ==> !HasKey(rows[j], rows[i].groupId, rows[i].weekStart)
  }

  /** Put then get: after saving `data` for a date, every date of the same
      week reads back a row of that group holding `data`, whether or not
      the table already had duplicate rows for the key. */
  lemma SaveThenGet(rows: seq<CacheRow>, nextId: int, weekStart: Date -> Date, groupId: GroupId,
                    targetDate: Date, data: string, now: Timestamp, sameWeekDate: Date)
    requires weekStart(sameWeekDate) == weekStart(targetDate)
    ensures var r := GetCachedSchedule(Upsert(rows, nextId, groupId, weekStart(targetDate), data, now), weekStart, groupId, sameWeekDate);
            r.Some? && r.value.groupId == groupId && r.value.weekStart == weekStart(targetDate) && r.value.data == data
  {
    var ws := weekStart(targetDate);
    var saved := Upsert(rows, nextId, groupId, ws, data, now);
    match FirstWithKey(rows, groupId, ws)
    case Some(i) =>
      assert FirstWithKey(saved, groupId, ws) == Some(i) by {
        FirstWithKeyKeepsKeys(rows, saved, groupId, ws);
      }
    case None =>
      assert FirstWithKey(saved, groupId, ws) == Some(|rows|) by {
        FirstWithKeyKeepsKeys(rows, saved[..|rows|], groupId, ws);
        FirstWithKeyOfExtension(saved, |rows|, groupId, ws);
      }
  }

  /** The first-match position depends only on the rows' keys. */
  lemma {:induction false} FirstWithKeyKeepsKeys(rows: seq<CacheRow>, rows': seq<CacheRow>, groupId: GroupId, weekStart: Date)
    requires |rows'| == |rows|
    requires forall k :: 0 <= k < |rows| ==> rows'[k].groupId == rows[k].groupId && rows'[k].weekStart == rows[k].weekStart
    ensures FirstWithKey(rows', groupId, weekStart) == FirstWithKey(rows, groupId, weekStart)
  {
    if rows != [] {
      FirstWithKeyKeepsKeys(rows[1..], rows'[1..], groupId, weekStart);
    }
  }

  lemma FirstWithKeyOfExtension(rows: seq<CacheRow>, n: nat, groupId: GroupId, weekStart: Date)
    requires n < |rows| && HasKey(rows[n], groupId, weekStart)
    requires FirstWithKey(rows[..n], groupId, weekStart).None?
    ensures FirstWithKey(rows, groupId, weekStart) == Some(n)
  {
    assert forall j :: 0 <= j < n ==> rows[..n][j] == rows[j];
  }

  /** Saving under an existing key rewrites only that row's payload and
      timestamp: the row count, the row's id and key, and every other row
      are unchanged. */
  lemma SaveUpdatesInPlace(rows: seq<CacheRow>, nextId: int, groupId: GroupId, weekStart: Date, data: string, now: Timestamp, i: nat)
    requires UniqueIds(rows)
    requires FirstWithKey(rows, groupId, weekStart) == Some(i)
    ensures var saved := Upsert(rows, nextId, groupId, weekStart, data, now);
            && |saved| == |rows|
            && saved[i] == rows[i].(data := data, updatedAt := WrittenAt(now))
            && forall j :: 0 <= j < |rows| && j != i ==> saved[j] == rows[j]
  {
  }

  /** Saving under a new key appends exactly one row carrying the key and
      the payload, and keeps the existing rows as they were. */
  lemma SaveAppendsWhenMissing(rows: seq<CacheRow>, nextId: int, groupId: GroupId, weekStart: Date, data: string, now: Timestamp)
    requires forall j :: 0 <= j < |rows| ==> !HasKey(rows[j], groupId, weekStart)
    ensures var saved := Upsert(rows, nextId, groupId, weekStart, data, now);
            && |saved| == |rows| + 1
            && saved[..|rows|] == rows
            && saved[|rows|].id == nextId
            && HasKey(saved[|rows|], groupId, weekStart) && saved[|rows|].data == data
  {
  }

  /** Saving keeps the table free of duplicate keys. */
  lemma SaveKeepsKeysUnique(rows: seq<CacheRow>, nextId: int, groupId: GroupId, weekStart: Date, data: string, now: Timestamp)
    requires UniqueKeys(rows)
    ensures UniqueKeys(Upsert(rows, nextId, groupId, weekStart, data, now))
  {
    var saved := Upsert(rows, nextId, groupId, weekStart, data, now);
    match FirstWithKey(rows, groupId, weekStart)
    case Some(i) =>
      FirstWithKeyKeepsKeys(rows, saved, groupId, weekStart);
    case None =>
      assert forall j :: 0 <= j < |rows| ==> saved[j] == rows[j];
  }

  /** With unique keys, after a save exactly one row carries the saved key:
      a second save for the same group and week replaces, never duplicates. */
  lemma SaveLeavesOneRowPerKey(rows: seq<CacheRow>, nextId: int, groupId: GroupId, weekStart: Date, data: string, now: Timestamp)
    requires UniqueKeys(rows)
    ensures var saved := Upsert(rows, nextId, groupId, weekStart, data, now);
            exists i :: 0 <= i < |saved| && HasKey(saved[i], groupId, weekStart) && saved[i].data == data
                        && forall j :: 0 <= j < |saved| && HasKey(saved[j], groupId, weekStart) ==> j == i
  {
    var saved := Upsert(rows, nextId, groupId, weekStart, data, now);
    SaveKeepsKeysUnique(rows, nextId, groupId, weekStart, data, now);
    match FirstWithKey(rows, groupId, weekStart)
    case Some(i) =>
      FirstWithKeyKeepsKeys(rows, saved, groupId, weekStart);
      assert HasKey(saved[i], groupId, weekStart) && saved[i].data == data;
    case None =>
      var n := |rows|;
      assert HasKey(saved[n], groupId, weekStart) && saved[n].data == data;
  }

  /** The `ScheduleCache` table, updated in place by saves. */
  class CacheTable {
    var rows: seq<CacheRow>
    /** The identifier the database will give the next inserted row. */
    var nextId: int

    ghost predicate Valid()
      reads this
    {
      UniqueIds(rows) && forall i :: 0 <= i < |rows| ==> rows[i].id < nextId
    }

    constructor ()
      ensures Valid() && rows == []
    {
      rows := [];
      nextId := 1;
    }

    /** `save_schedule_to_cache(group_id, target_date, data)`, with `now`
        the clock reading taken for the update. */
    method Save(weekStart: Date -> Date, groupId: GroupId, targetDate: Date, data: string, now: Timestamp)
      requires Valid()
      modifies this
      ensures Valid()
      ensures rows == Upsert(old(rows), old(nextId), groupId, weekStart(targetDate), data, now)
      ensures nextId == if FirstWithKey(old(rows), groupId, weekStart(targetDate)).Some? then old(nextId) else old(nextId) + 1
    {
      var ws := weekStart(targetDate);
      var existing := FirstWithKey(rows, groupId, ws);
      match existing
      case Some(i) =>
        rows := UpdateWhereId(rows, rows[i].id, data, now);
      case None =>
        rows := rows + [CacheRow(nextId, groupId, ws, data, ColumnDefault)];
        nextId := nextId + 1;
    }
  }
}
