/** `get_all_group_schedules_today`: scan every cache row, decode its
    payload into lessons, and file each lesson whose date plus one day is
    the target date under the row's group. A failure aborts only the rest
    of the row it happens in; matches already filed from that row stay.
    JSON decoding is the arbitrary function `decode`. */
module DailyLessons {
  import opened Wrappers
  import opened Calendar
  import opened IsoDate
  import opened Models

  /** The value `lesson.get("scheduleDate", "")` finds: no such key, a
      string, or a JSON value of another type. */
  datatype DateField = Absent | Text(text: string) | NotText

  /** One element of a decoded payload: a JSON object, of which only its
      "scheduleDate" matters (`otherFields` stands for the rest), or any
      other JSON value. */
  datatype Lesson = LessonObject(scheduleDate: DateField, otherFields: string) | NotAnObject(json: string)

  /** The outcome of decoding a payload: a JSON array of lessons, or
      anything that makes `json.loads` or the iteration over it raise. */
  datatype Payload = Malformed | LessonArray(lessons: seq<Lesson>)

  /** What the loop body does with one lesson. */
  datatype Verdict = Match | NoMatch | Raises

  /** Python's `s[:10]`. */
  function DatePart(s: string): (r: string)
    ensures |r| == if |s| <= 10 then |s| else 10
    ensures r == s[..|r|]
  {
    if |s| <= 10 then s else s[..10]
  }

  /** The date `datetime.fromisoformat(raw_date).date()` yields, or `None`
      when getting there raises: `.get` on a non-object, slicing or parsing
      a non-string, or an unparsable string (a missing key gives `""`). */
  function LessonDate(lesson: Lesson): (r: Option<Date>)
    ensures r.Some? ==> IsValid(r.value)
  {
    match lesson
    case NotAnObject(_) => None
    case LessonObject(Absent, _) => ParseIsoDate("")
    case LessonObject(NotText, _) => None
    case LessonObject(Text(s), _) => ParseIsoDate(DatePart(s))
  }

  /** What the loop body does with one lesson: it raises exactly when the
      lesson has no readable date or its date is the last representable
      day, where adding a day overflows. */
  function Classify(lesson: Lesson, target: Date): (v: Verdict)
    ensures v == Raises <==> LessonDate(lesson).None? || LessonDate(lesson) == Some(Date(MaxYear, 12, 31))
  {
    match LessonDate(lesson)
    case None => Raises
    case Some(d) =>
      match NextDay(d)
      case None => Raises
      case Some(next) => if next == target then Match else NoMatch
  }

  /** A lesson matches exactly when its date is the day before the target;
      a lesson without a readable date never matches. */
  lemma ClassifyMatch(lesson: Lesson, target: Date)
    requires IsValid(target)
    ensures Classify(lesson, target) == Match <==> PrevDay(target).Some? && LessonDate(lesson) == PrevDay(target)
    ensures LessonDate(lesson).None? ==> Classify(lesson, target) == Raises
  {
    if d :| LessonDate(lesson) == Some(d) {
      NextDayPrevDay(d, target);
    }
  }

  /** A lesson stamped at 19:00 on March 14th 2024 belongs to March 15th. */
  lemma EveningLessonBelongsToNextDay(otherFields: string)
    ensures Classify(LessonObject(Text("2024-03-14T19:00:00"), otherFields), Date(2024, 3, 15)) == Match
  {
    var d := Date(2024, 3, 14);
    EveningStampReadsAsDate();
    assert LessonDate(LessonObject(Text("2024-03-14T19:00:00"), otherFields)) == Some(d);
    assert NextDay(d) == Some(Date(2024, 3, 15));
  }

  lemma EveningStampReadsAsDate()
    ensures ParseIsoDate(DatePart("2024-03-14T19:00:00")) == Some(Date(2024, 3, 14))
  {
    assert DatePart("2024-03-14T19:00:00") == "2024-03-14" by {
      assert "2024-03-14T19:00:00" == "2024-03-14" + "T19:00:00";
    }
    TextOfMarch14();
    ParseFormatRoundTrip(Date(2024, 3, 14));
  }

  lemma TextOfMarch14()
    ensures FormatIsoDate(Date(2024, 3, 14)) == "2024-03-14"
  {
    assert Decimal(2024, 4) == "2024" && Decimal(3, 2) == "03" && Decimal(14, 2) == "14";
  }

  /** The position of the first lesson that raises, or the length if none does. */
  function FirstRaise(lessons: seq<Lesson>, target: Date): (i: nat)
    ensures i <= |lessons|
    ensures forall k :: 0 <= k < i ==> Classify(lessons[k], target) != Raises
    ensures i < |lessons| ==> Classify(lessons[i], target) == Raises
  {
    if lessons == [] then 0
    else if Classify(lessons[0], target) == Raises then 0
    else 1 + FirstRaise(lessons[1..], target)
  }

  /** The matching lessons of `lessons`, in order. */
  function Matches(lessons: seq<Lesson>, target: Date): (r: seq<Lesson>)
    ensures forall l :: l in r ==> l in lessons && Classify(l, target) == Match
  {
    if lessons == [] then []
    else
      var last := lessons[|lessons| - 1];
      Matches(lessons[..|lessons| - 1], target) + (if Classify(last, target) == Match then [last] else [])
  }

  /** What one row's lessons contribute: the matches before the first
      lesson that raises. */
  function RowMatches(lessons: seq<Lesson>, target: Date): seq<Lesson>
  {
    Matches(lessons[..FirstRaise(lessons, target)], target)
  }

  /** One row's contribution: nothing when its payload does not decode,
      and otherwise only matching lessons of its payload. */
  function RowContribution(row: CacheRow, decode: string -> Payload, target: Date): (r: seq<Lesson>)
    ensures decode(row.data).Malformed? ==> r == []
    ensures forall l :: l in r ==> decode(row.data).LessonArray? && l in decode(row.data).lessons && Classify(l, target) == Match
  {
    match decode(row.data)
    case Malformed => []
    case LessonArray(lessons) => RowMatches(lessons, target)
  }

  /** `grouped[k]` of a `defaultdict(list)`. */
  function Lookup(grouped: map<GroupId, seq<Lesson>>, k: GroupId): seq<Lesson>
  {
    if k in grouped then grouped[k] else []
  }

  /** Appending `s` to bucket `k`; the key appears only once something is appended. */
  function AppendTo(grouped: map<GroupId, seq<Lesson>>, k: GroupId, s: seq<Lesson>): map<GroupId, seq<Lesson>>
  {
    if s == [] then grouped else grouped[k := Lookup(grouped, k) + s]
  }

  /** `RowContribution` for a fixed decoder and target date. */
  function Filing(decode: string -> Payload, target: Date): CacheRow -> seq<Lesson>
  {
    (row: CacheRow) => RowContribution(row, decode, target)
  }

  /** The buckets after scanning `rows`, one row after the other, each row
      contributing `file(row)` to its group's bucket. */
  function Grouped(rows: seq<CacheRow>, file: CacheRow -> seq<Lesson>): map<GroupId, seq<Lesson>>
  {
    if rows == [] then map[]
    else
      var last := rows[|rows| - 1];
      AppendTo(Grouped(rows[..|rows| - 1], file), last.groupId, file(last))
  }

  /** Reference for one bucket: the contributions of the rows of group `k`,
      concatenated in row order. */
  function Bucket(rows: seq<CacheRow>, k: GroupId, file: CacheRow -> seq<Lesson>): seq<Lesson>
  {
    if rows == [] then []
    else (if rows[0].groupId == k then file(rows[0]) else []) + Bucket(rows[1..], k, file)
  }

  /** The number of lessons over all buckets. */
  ghost function SumLengths(grouped: map<GroupId, seq<Lesson>>): nat
    decreases grouped.Keys
  {
    if exists k :: k in grouped then
      var k :| k in grouped;
      |grouped[k]| + SumLengths(grouped - {k})
    else 0
  }

  // ---------------------------------------------------------------------
  // The scan itself.

  /** `get_all_group_schedules_today(target_date)` over the rows it reads
      from the table; `count` is the number it logs. */
  method GetAllGroupSchedulesToday(rows: seq<CacheRow>, decode: string -> Payload, target: Date)
    returns (grouped: map<GroupId, seq<Lesson>>, count: nat)
    ensures grouped == Grouped(rows, Filing(decode, target))
    ensures count == SumLengths(grouped)
  {
    grouped, count := map[], 0;
    var i := 0;
    while i < |rows|
      invariant 0 <= i <= |rows|
      invariant grouped == Grouped(rows[..i], Filing(decode, target))
      invariant count == SumLengths(grouped)
    {
      var row := rows[i];
      match decode(row.data) {
        case Malformed =>
        case LessonArray(lessons) =>
          SumLengthsAppend(grouped, row.groupId, RowMatches(lessons, target));
          grouped, count := FileRowLessons(grouped, count, row.groupId, lessons, target);
      }
      GroupedStep(rows, i, Filing(decode, target));
      i := i + 1;
    }
    assert rows[..|rows|] == rows;
  }

  /** The body of the `try` block for one row whose payload decoded to
      `lessons`: file each matching lesson under `groupId` until a lesson
      raises, which ends the row. */
  method FileRowLessons(grouped: map<GroupId, seq<Lesson>>, count: nat, groupId: GroupId, lessons: seq<Lesson>, target: Date)
    returns (grouped': map<GroupId, seq<Lesson>>, count': nat)
    ensures grouped' == AppendTo(grouped, groupId, RowMatches(lessons, target))
    ensures count' == count + |RowMatches(lessons, target)|
  {
    grouped', count' := grouped, count;
    var j := 0;
    while j < |lessons|
      invariant 0 <= j <= |lessons|
      invariant j <= FirstRaise(lessons, target)
      invariant grouped' == AppendTo(grouped, groupId, Matches(lessons[..j], target))
      invariant count' == count + |Matches(lessons[..j], target)|
    {
      var verdict := Classify(lessons[j], target);
      if verdict == Raises {
        break;
      }
      FirstRaiseStep(lessons, j, target);
      MatchesStep(lessons, j, target);
      if verdict == Match {
        AppendToTwice(grouped, groupId, Matches(lessons[..j], target), [lessons[j]]);
        grouped' := grouped'[groupId := Lookup(grouped', groupId) + [lessons[j]]];
        count' := count' + 1;
      }
      j := j + 1;
    }
    assert FirstRaise(lessons, target) == j;
  }

  // ---------------------------------------------------------------------
  // Lemmas for the scan's invariants.

  lemma GroupedStep(rows: seq<CacheRow>, i: nat, file: CacheRow -> seq<Lesson>)
    requires i < |rows|
    ensures Grouped(rows[..i + 1], file) == AppendTo(Grouped(rows[..i], file), rows[i].groupId, file(rows[i]))
  {
    assert rows[..i + 1][..i] == rows[..i];
  }

  lemma FirstRaiseStep(lessons: seq<Lesson>, j: nat, target: Date)
    requires j < |lessons| && j <= FirstRaise(lessons, target)
    requires Classify(lessons[j], target) != Raises
    ensures j + 1 <= FirstRaise(lessons, target)
  {
  }

  lemma MatchesStep(lessons: seq<Lesson>, j: nat, target: Date)
    requires j < |lessons|
    ensures Classify(lessons[j], target) == Match ==> Matches(lessons[..j + 1], target) == Matches(lessons[..j], target) + [lessons[j]]
    ensures Classify(lessons[j], target) != Match ==> Matches(lessons[..j + 1], target) == Matches(lessons[..j], target)
  {
    assert lessons[..j + 1][..j] == lessons[..j];
    assert Matches(lessons[..j], target) + [] == Matches(lessons[..j], target);
  }

  lemma AppendToTwice(grouped: map<GroupId, seq<Lesson>>, k: GroupId, s: seq<Lesson>, t: seq<Lesson>)
    ensures AppendTo(AppendTo(grouped, k, s), k, t) == AppendTo(grouped, k, s + t)
  {
    if s == [] {
      assert s + t == t;
    } else if t == [] {
      assert s + t == s;
    } else {
      assert Lookup(grouped, k) + s + t == Lookup(grouped, k) + (s + t);
    }
  }

  lemma {:induction false} SumLengthsRemove(grouped: map<GroupId, seq<Lesson>>, k: GroupId)
    requires k in grouped
    ensures SumLengths(grouped) == |grouped[k]| + SumLengths(grouped - {k})
    decreases grouped.Keys
  {
    var k' :| k' in grouped && SumLengths(grouped) == |grouped[k']| + SumLengths(grouped - {k'});
    if k' != k {
      SumLengthsRemove(grouped - {k'}, k);
      SumLengthsRemove(grouped - {k}, k');
      assert grouped - {k'} - {k} == grouped - {k} - {k'};
    }
  }

  lemma SumLengthsAppend(grouped: map<GroupId, seq<Lesson>>, k: GroupId, s: seq<Lesson>)
    ensures SumLengths(AppendTo(grouped, k, s)) == SumLengths(grouped) + |s|
  {
    if s != [] {
      var grown := AppendTo(grouped, k, s);
      SumLengthsRemove(grown, k);
      assert grown - {k} == grouped - {k};
      if k in grouped {
        SumLengthsRemove(grouped, k);
      } else {
        assert grouped - {k} == grouped;
      }
    }
  }
  // ---------------------------------------------------------------------
  // What the scan computes.

  lemma {:induction false} BucketConcat(rows: seq<CacheRow>, rows': seq<CacheRow>, k: GroupId, file: CacheRow -> seq<Lesson>)
    ensures Bucket(rows + rows', k, file) == Bucket(rows, k, file) + Bucket(rows', k, file)
  {
    if rows == [] {
      assert rows + rows' == rows';
    } else {
      assert (rows + rows')[0] == rows[0] && (rows + rows')[1..] == rows[1..] + rows';
      BucketConcat(rows[1..], rows', k, file);
    }
  }

  /** Rows sharing a group accumulate into one bucket, in row order and
      then lesson order; a group has a key only if something matched for it. */
  lemma {:induction false} GroupedIsBucket(rows: seq<CacheRow>, file: CacheRow -> seq<Lesson>, k: GroupId)
    ensures k in Grouped(rows, file) <==> Bucket(rows, k, file) != []
    ensures k in Grouped(rows, file) ==> Grouped(rows, file)[k] == Bucket(rows, k, file)
  {
    if rows != [] {
      var n := |rows| - 1;
      GroupedIsBucket(rows[..n], file, k);
      BucketConcat(rows[..n], [rows[n]], k, file);
      assert rows[..n] + [rows[n]] == rows;
      assert Bucket([rows[n]], k, file) == if rows[n].groupId == k then file(rows[n]) else [];
    }
  }

  lemma {:induction false} BucketSound(rows: seq<CacheRow>, k: GroupId, decode: string -> Payload, target: Date, l: Lesson)
    requires l in Bucket(rows, k, Filing(decode, target))
    ensures exists i :: 0 <= i < |rows| && rows[i].groupId == k && decode(rows[i].data).LessonArray?
                        && l in decode(rows[i].data).lessons && Classify(l, target) == Match
  {
    var here := if rows[0].groupId == k then RowContribution(rows[0], decode, target) else [];
    assert Bucket(rows, k, Filing(decode, target)) == here + Bucket(rows[1..], k, Filing(decode, target));
    if l in here {
      var lessons := decode(rows[0].data).lessons;
      assert l in lessons[..FirstRaise(lessons, target)];
      assert 0 < |rows| && rows[0].groupId == k && l in lessons;
    } else {
      BucketSound(rows[1..], k, decode, target, l);
      var i :| 0 <= i < |rows| - 1 && rows[1..][i].groupId == k && decode(rows[1..][i].data).LessonArray?
               && l in decode(rows[1..][i].data).lessons && Classify(l, target) == Match;
      assert rows[i + 1] == rows[1..][i];
    }
  }

  /** Every filed lesson comes from a row of its bucket's group, and its
      date plus one day is the target date. */
  lemma GroupedSound(rows: seq<CacheRow>, decode: string -> Payload, target: Date, k: GroupId, l: Lesson)
    requires k in Grouped(rows, Filing(decode, target)) && l in Grouped(rows, Filing(decode, target))[k]
    ensures exists i :: 0 <= i < |rows| && rows[i].groupId == k && decode(rows[i].data).LessonArray?
                        && l in decode(rows[i].data).lessons
    ensures exists d :: LessonDate(l) == Some(d) && NextDay(d) == Some(target)
  {
    GroupedIsBucket(rows, Filing(decode, target), k);
    BucketSound(rows, k, decode, target, l);
  }

  lemma {:induction false} MatchesComplete(lessons: seq<Lesson>, target: Date, j: nat)
    requires j < |lessons| && Classify(lessons[j], target) == Match
    ensures lessons[j] in Matches(lessons, target)
  {
    var n := |lessons| - 1;
    if j < n {
      MatchesComplete(lessons[..n], target, j);
    }
  }

  /** A matching lesson before the first lesson that raises is among its
      row's matches. */
  lemma RowMatchesComplete(lessons: seq<Lesson>, target: Date, j: nat)
    requires j < |lessons| && Classify(lessons[j], target) == Match
    requires forall k :: 0 <= k < j ==> Classify(lessons[k], target) != Raises
    ensures lessons[j] in RowMatches(lessons, target)
  {
    var f := FirstRaise(lessons, target);
    assert j < f;
    assert lessons[..f][j] == lessons[j];
    MatchesComplete(lessons[..f], target, j);
  }

  lemma BucketHasRow(rows: seq<CacheRow>, i: nat, file: CacheRow -> seq<Lesson>, l: Lesson)
    requires i < |rows| && l in file(rows[i])
    ensures l in Bucket(rows, rows[i].groupId, file)
  {
    var k := rows[i].groupId;
    assert rows == rows[..i] + [rows[i]] + rows[i + 1..];
    BucketConcat(rows[..i] + [rows[i]], rows[i + 1..], k, file);
    BucketConcat(rows[..i], [rows[i]], k, file);
    assert Bucket([rows[i]], k, file) == file(rows[i]) + [];
  }

  /** A matching lesson that no earlier lesson of its row prevents from
      being reached is filed under its row's group. */
  lemma GroupedComplete(rows: seq<CacheRow>, decode: string -> Payload, target: Date, i: nat, j: nat)
    requires i < |rows| && decode(rows[i].data).LessonArray?
    requires j < |decode(rows[i].data).lessons|
    requires forall k :: 0 <= k < j ==> Classify(decode(rows[i].data).lessons[k], target) != Raises
    requires Classify(decode(rows[i].data).lessons[j], target) == Match
    ensures rows[i].groupId in Grouped(rows, Filing(decode, target))
    ensures decode(rows[i].data).lessons[j] in Grouped(rows, Filing(decode, target))[rows[i].groupId]
  {
    var lessons := decode(rows[i].data).lessons;
    RowMatchesComplete(lessons, target, j);
    BucketHasRow(rows, i, Filing(decode, target), lessons[j]);
    GroupedIsBucket(rows, Filing(decode, target), rows[i].groupId);
  }

  /** A lesson that raises ends its row: the row keeps exactly the matches
      of the lessons before it, and the lessons after it are never looked at. */
  lemma FailingLessonEndsRow(before: seq<Lesson>, failing: Lesson, after: seq<Lesson>, target: Date)
    requires forall k :: 0 <= k < |before| ==> Classify(before[k], target) != Raises
    requires Classify(failing, target) == Raises
    ensures RowMatches(before + [failing] + after, target) == Matches(before, target)
  {
    var lessons := before + [failing] + after;
    assert lessons[|before|] == failing;
    assert forall k :: 0 <= k < |before| ==> lessons[k] == before[k];
    assert FirstRaise(lessons, target) == |before|;
    assert lessons[..|before|] == before;
  }

  /** A row that contributes nothing, such as one whose payload does not
      decode, leaves the result as if it were absent: later rows are
      still scanned. */
  lemma RowWithoutMatchesIsSkipped(before: seq<CacheRow>, row: CacheRow, after: seq<CacheRow>, file: CacheRow -> seq<Lesson>)
    requires file(row) == []
    ensures Grouped(before + [row] + after, file) == Grouped(before + after, file)
  {
    var g, g' := Grouped(before + [row] + after, file), Grouped(before + after, file);
    forall k
      ensures (k in g <==> k in g') && (k in g ==> g[k] == g'[k])
    {
      BucketConcat(before + [row], after, k, file);
      BucketConcat(before, [row], k, file);
      BucketConcat(before, after, k, file);
      assert Bucket([row], k, file) == [];
      assert Bucket(before, k, file) + [] == Bucket(before, k, file);
      GroupedIsBucket(before + [row] + after, file, k);
      GroupedIsBucket(before + after, file, k);
    }
  }

  /** A row whose payload does not decode is skipped and the scan goes on
      with the next row. */
  lemma MalformedRowIsSkipped(before: seq<CacheRow>, row: CacheRow, after: seq<CacheRow>, decode: string -> Payload, target: Date)
    requires decode(row.data) == Malformed
    ensures Grouped(before + [row] + after, Filing(decode, target)) == Grouped(before + after, Filing(decode, target))
  {
    RowWithoutMatchesIsSkipped(before, row, after, Filing(decode, target));
  }
}
