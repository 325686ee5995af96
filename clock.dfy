/**
 * Points in time. Both GitHub's `DateTime<Utc>` and the database's
 * `NaiveDateTime` are read as whole seconds on one common clock; the current
 * time is always handed in by the caller.
 */
module Clock {

  type Timestamp = int

  const SecondsPerMinute: int := 60
}
