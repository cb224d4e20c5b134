/** The rows of the three tables the data-access layer reads and writes.
    Column types follow how the queries use them: the group and telegram
    identifiers are integers, a user's group may be NULL (`None`). */
module Models {
  import opened Wrappers
  import opened Calendar

  type GroupId = int
  /** An opaque reading of the clock (`datetime.utcnow()`). */
  type Timestamp = int

  /** How a cache row's `updated_at` got its value: written by an update
      with a clock reading, or left to the column's insert-time default. */
  datatype UpdateStamp = ColumnDefault | WrittenAt(at: Timestamp)

  /** One `ScheduleCache` row: the weekly schedule of one group as JSON text. */
  datatype CacheRow = CacheRow(id: int, groupId: GroupId, weekStart: Date, data: string, updatedAt: UpdateStamp)

  datatype User = User(id: int, telegramId: int, groupId: Option<GroupId>)

  datatype UserSettings = UserSettings(userId: int, language: string, todayScheduleDigest: bool, dailyDigest: bool)
}
