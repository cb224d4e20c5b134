# Schedule cache and daily lesson digest — a Dafny model

This project models the schedule data layer of a university Telegram bot
(`app/db/crud/schedule.py`). The layer does three things:

* **Schedule cache.** A `ScheduleCache` table holds one JSON payload of
  lessons per (group, week start). `get_cached_schedule` returns the first
  row whose key is the group plus the week start of a target date.
  `save_schedule_to_cache` either rewrites that row's payload and
  `updated_at` in place or inserts a new row.
* **Daily lesson aggregator.** `get_all_group_schedules_today` scans every
  cache row and decodes its payload. It files each lesson whose
  `scheduleDate` (the upstream system stores evening UTC stamps of the
  previous day) plus one day equals the target date under the row's group.
  An exception in a row is logged and ends that row only. Matches already
  filed from the row stay filed.
* **User lookups.** Three read-only queries over `User` and
  `UserSettings`: a user's group, the subscribers of the "today" digest,
  and the daily-digest subscribers of one group.

Modules:

| file | module | contents |
|---|---|---|
| `wrappers.dfy` | `Wrappers` | `Option` |
| `calendar.dfy` | `Calendar` | proleptic Gregorian dates (years 1–9999, as Python's `date`); the day after and the day before; Python's day ordinal as an independent reference |
| `iso_date.dfy` | `IsoDate` | `YYYY-MM-DD` reading (the calendar-date form of ISO 8601:2004, section 4.1.2.2) and writing, proved mutually inverse |
| `models.dfy` | `Models` | the `ScheduleCache`, `User` and `UserSettings` rows |
| `schedule_cache.dfy` | `ScheduleCache` | first-match lookup, the upsert as a function, and `CacheTable`, a class whose `Save` updates the table in place |
| `user_directory.dfy` | `UserDirectory` | the three lookups as first-match and join-filter-project functions |
| `daily_lessons.dfy` | `DailyLessons` | the aggregator as a method with nested loops, proved equal to a fold over rows, with soundness, completeness and partial-failure lemmas |

The week-start function (`get_week_start`) and the JSON decoder
(`json.loads`) are parameters of type `Date -> Date` and
`string -> Payload`. Every lemma holds for all of them. The clock
(`datetime.utcnow()`) is a `now` parameter.

## Model

| member | source | states |
|---|---|---|
| ScheduleCache.GetCachedSchedule | app/db/crud/schedule.py:12-34 | `None` exactly when no row has the key (group, week start of the target date); otherwise the first row with that key, returned whole |
| ScheduleCache.CacheTable.Save | app/db/crud/schedule.py:37-66 | the table after the save is the upsert of the old table: the first keyed row updated in place, or a new row appended with the next id; ids stay unique and below the next id |
| ScheduleCache.CacheTable.constructor | app/db/crud/schedule.py:37-66 | an empty table satisfies the table invariant |
| ScheduleCache.SaveThenGet | app/db/crud/schedule.py:12-66 | after saving `data` for a date, a lookup for any date of the same week returns a row of that group and week holding `data`; in the model this holds even when duplicate keys already existed, under the fixed row order described under Left out |
| ScheduleCache.SaveUpdatesInPlace | app/db/crud/schedule.py:46-53 | with an existing row, the row count is unchanged; that row gets the new payload and the `now` timestamp, keeps its id and key, and every other row is unchanged |
| ScheduleCache.SaveAppendsWhenMissing | app/db/crud/schedule.py:57-61 | with no keyed row, exactly one row is appended; it carries the key, the payload and the next id, and the existing rows are unchanged |
| ScheduleCache.SaveKeepsKeysUnique | app/db/crud/schedule.py:37-61 | a save keeps the table free of duplicate (group, week start) keys |
| ScheduleCache.SaveLeavesOneRowPerKey | app/db/crud/schedule.py:37-61 | with unique keys, after a save exactly one row carries the saved key, and it holds the saved payload |
| ScheduleCache.Upsert | app/db/crud/schedule.py:37-61 | the table after a save: it grows by one row exactly when no row had the key and keeps its length otherwise, and some row then carries the key and the saved payload |
| ScheduleCache.UpdateWhereId | app/db/crud/schedule.py:49-53 | the UPDATE keeps the row count and every row's id and key; rows with the given id get the payload and the `now` timestamp, and every other row is unchanged |
| ScheduleCache.FirstWithKey | app/db/crud/schedule.py:18-23 | the position returned has the key and no earlier row has it; `None` means no row has it |
| UserDirectory.GetUserGroupId | app/db/crud/schedule.py:69-81 | `None` when no user has the telegram id; otherwise the group column (possibly NULL) of the first user with that id |
| UserDirectory.UsersWithTodayDigest | app/db/crud/schedule.py:84-95 | the query's result: each (telegram id, group, language) triple occurs exactly as many times as there are (user, settings) pairs that join on the user id, have the today-digest flag set and project to it |
| UserDirectory.TodayDigestMembers | app/db/crud/schedule.py:84-95 | a (telegram id, group, language) triple is returned iff some user and some settings row of that user with the today-digest flag set project to it |
| UserDirectory.TodayDigestOrderIrrelevant | app/db/crud/schedule.py:84-95 | the multiset of returned triples does not depend on the order of either table |
| UserDirectory.StudentsByGroupWithDigest | app/db/crud/schedule.py:98-110 | the query's result: each telegram id occurs exactly as many times as there are (user, settings) pairs that join on the user id, with the user in the group and the daily-digest flag set |
| UserDirectory.GroupDigestMembers | app/db/crud/schedule.py:98-110 | a telegram id is returned iff a user with that id is in the group and has a settings row with the daily-digest flag set |
| UserDirectory.GroupDigestOrderIrrelevant | app/db/crud/schedule.py:98-110 | the multiset of returned ids does not depend on the order of either table |
| UserDirectory.FlatMapMembers | app/db/crud/schedule.py:86-90 | an element is produced by the nested-loop join iff some input row produces it |
| UserDirectory.FlatMapPermutation | app/db/crud/schedule.py:86-90 | reordering a join's input leaves the multiset of its output unchanged |
| UserDirectory.FlatMapCount | app/db/crud/schedule.py:86-90 | an element occurs in a join's output as often as in all the rows' outputs together |
| DailyLessons.GetAllGroupSchedulesToday | app/db/crud/schedule.py:113-140 | the buckets are the fold over the rows in order, each row adding its contribution to its group's bucket; `count` is the total number of lessons in all buckets |
| DailyLessons.FileRowLessons | app/db/crud/schedule.py:124-137 | one row's lessons are filed up to the first lesson that raises; the bucket grows by exactly the matches before it, and the count by their number |
| DailyLessons.GroupedIsBucket | app/db/crud/schedule.py:118-131 | a group key is present iff its bucket is non-empty, and its value is the concatenation, in row order, of the contributions of that group's rows |
| DailyLessons.GroupedSound | app/db/crud/schedule.py:121-131 | every filed lesson comes from a row of that group and has a readable date whose next day is the target date |
| DailyLessons.GroupedComplete | app/db/crud/schedule.py:121-131 | every lesson of a decodable row that matches and precedes the row's first raising lesson is filed under the row's group |
| DailyLessons.FailingLessonEndsRow | app/db/crud/schedule.py:124-137 | a row's contribution is the matches before the first failing lesson; nothing after it is filed |
| DailyLessons.MalformedRowIsSkipped | app/db/crud/schedule.py:122-137 | a row whose payload fails to decode leaves the buckets exactly as without it |
| DailyLessons.RowWithoutMatchesIsSkipped | app/db/crud/schedule.py:121-137 | a row contributing nothing leaves the buckets as if the row were absent, and later rows are still scanned |
| DailyLessons.RowContribution | app/db/crud/schedule.py:122-137 | a row whose payload does not decode contributes nothing; every lesson a row contributes is a matching lesson of its own payload |
| DailyLessons.Matches | app/db/crud/schedule.py:124-132 | every lesson kept is one of the row's lessons and matches the target date |
| DailyLessons.FirstRaise | app/db/crud/schedule.py:124-130 | every lesson before the returned position is readable, and the lesson at it raises |
| DailyLessons.LessonDate | app/db/crud/schedule.py:125-127 | any date read from a lesson is a valid calendar date |
| DailyLessons.DatePart | app/db/crud/schedule.py:125 | `[:10]`: the first ten characters, or the whole string when it is shorter |
| DailyLessons.Classify | app/db/crud/schedule.py:125-130 | a lesson raises exactly when it has no readable date or its date is 31 December 9999, where adding a day overflows |
| DailyLessons.ClassifyMatch | app/db/crud/schedule.py:125-130 | a lesson matches iff its date is the day before the target; a lesson without a readable date raises |
| DailyLessons.EveningLessonBelongsToNextDay | app/db/crud/schedule.py:125-130 | a lesson stamped `2024-03-14T19:00:00` is filed for 15 March 2024 |
| Calendar.NextDay | app/db/crud/schedule.py:127-129 | the next day is a valid date; it is absent exactly for 31 December 9999, where adding a day overflows |
| Calendar.PrevDay | app/db/crud/schedule.py:127-129 | the previous day is a valid date; it is absent exactly for 1 January of year 1 |
| Calendar.NextDayIsOrdinalSuccessor | app/db/crud/schedule.py:127-129 | `NextDay(d) == e` iff the ordinal of `e` is the ordinal of `d` plus one; `NextDay` fails iff `d` has the largest ordinal |
| Calendar.NextDayPrevDay | app/db/crud/schedule.py:127-130 | `e` is the day after `d` iff `d` is the day before `e` |
| Calendar.OrdinalInjective | app/db/crud/schedule.py:127-129 | distinct valid dates have distinct ordinals |
| Calendar.OrdinalRange | app/db/crud/schedule.py:127-129 | valid dates have ordinals from 1 to 3652059 |
| Calendar.LeapDayFollowsFebruary28 | app/db/crud/schedule.py:127-129 | 29 February follows 28 February exactly in leap years, and 1 March follows it otherwise |
| Calendar.DaysInMonth | app/db/crud/schedule.py:127-129 | every month has 28 to 31 days; 29 exactly for February of a leap year, 28 exactly for February otherwise |
| Calendar.MonthsFillYear | app/db/crud/schedule.py:127-129 | the days before February to December are 31, 59, 90, 120, 151, 181, 212, 243, 273, 304 and 334, plus one from March on in leap years; the twelve months fill the year |
| IsoDate.ParseIsoDate | app/db/crud/schedule.py:125-127 | any date read is a valid calendar date |
| IsoDate.ParseFormatRoundTrip | app/db/crud/schedule.py:125-127 | every valid date is read back from its own `YYYY-MM-DD` text |
| IsoDate.FormatParseRoundTrip | app/db/crud/schedule.py:125-127 | a string that is read as a date is exactly that date's text, so no two strings read as the same date |
| IsoDate.DecimalValueOfDecimal | app/db/crud/schedule.py:125-127 | a number below 10^w written with w digits reads back as itself |
| IsoDate.DecimalOfDecimalValue | app/db/crud/schedule.py:125-127 | a digit string is the zero-padded writing of the number it spells |

## Left out

- Sessions, `async`/`await`, commits and transaction isolation are not modelled. Each operation is one atomic step on the tables it reads or writes. So the race in which two concurrent saves both find no row and both insert is not captured. If such a duplicate exists, `SaveThenGet` shows that a later lookup still finds the saved payload, but only under the row-order assumption of the next line.
- ScheduleCache.FirstWithKey: `.scalars().first()` over a query without ORDER BY is modelled as the first row in one fixed table order, and an UPDATE is modelled as keeping a row in its place in that order. The database does not promise either: PostgreSQL writes an updated row as a new row version, so a scan may return rows in a different order afterwards. When a key has two rows, the program's lookup after a save may therefore return the other, stale row. `SaveThenGet` does not cover that case for the program; it covers it only for the model. With unique keys (`SaveKeepsKeysUnique`) the order does not matter.
- Logging calls are left out. They change no state.
- `get_week_start` lives in `app/utils/schedule.py`, which is not part of this model. It is the parameter `weekStart`, and no property depends on what it computes.
- `app/db/models.py` is not part of this model. The rows keep only the columns the queries touch.
- ScheduleCache.CacheTable.Save: an inserted row's id is taken to be a counter above every existing id, standing for the autoincrement key. Its `updated_at` is left to the column default (`ColumnDefault`), since the code sets none.
- `datetime.utcnow()` is the parameter `now`.
- The database, and the connection setup in `app/db/database.py`, are not modelled. Tables are sequences in their stored order. The queries have no ORDER BY, so the join results are compared as multisets. The order-irrelevance lemmas cover any order the database picks. SQL `NULL` appears only as `Option` in `User.group_id`.
- `get_cached_schedule` is documented as returning the payload (`Optional[str]`). The code returns the whole row object, so `GetCachedSchedule` returns the `CacheRow`.
- `group_id` is annotated `str` in the two cache functions and `int` elsewhere. It is one integer type here.
- `json.loads` is the parameter `decode`. Every payload that is not a JSON array of values is the single case `Malformed`. Iterating such a payload either raises or yields nothing, and both leave the buckets unchanged. JSON objects are reduced to their `scheduleDate` field.
- IsoDate.ParseIsoDate: reads only the `YYYY-MM-DD` form. Python 3.11 and later also accept other ISO 8601 forms, such as `YYYYMMDD` and week dates. A ten-character prefix in one of those forms is rejected here but would be read by those versions.
- DailyLessons.GetAllGroupSchedulesToday: the result is a `map`, so the insertion order of the dictionary's keys is not modelled. The order of lessons within each bucket is modelled.
- DailyLessons.GetAllGroupSchedulesToday: `count` is not returned by the source, only logged. The model returns it so that its relation to the buckets can be stated.
- The inner `for lesson` loop of the aggregator's `try` body is the method `FileRowLessons`. The `json.loads` call at the start of the `try` body is applied through `decode` in `GetAllGroupSchedulesToday`. A decoding failure takes the `Malformed` branch there. A lesson that raises takes the early exit of `FileRowLessons`'s loop. Both stand for the `except` path, which skips the rest of the row.
