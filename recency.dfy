/** The day-window test and the tiers shared by the two recognition front ends. */
module Recency {
  import opened Common

  const MicrosPerDay: int := 86_400_000_000

  /** The window both `is_familiar` variants pass to `is_within_period`. */
  const RecencyDays: int := 14

  /** `is_within_period(date, period)`: the date is no earlier than `period` days before now. */
  predicate IsWithinPeriod(date: Time, period: int, now: Time)
  {
    date >= now - period * MicrosPerDay
  }

  /** The window read as an age: a sighting is recent iff it is at most `period` days old. */
  lemma WithinPeriodIsAgeBound(date: Time, period: int, now: Time)
    ensures IsWithinPeriod(date, period, now) <==> now - date <= period * MicrosPerDay
  {
  }

  /** The boundary is inclusive: a sighting exactly `period` days old is within the window,
      one microsecond older is not. */
  lemma WithinPeriodBoundary(period: int, now: Time)
    ensures IsWithinPeriod(now - period * MicrosPerDay, period, now)
    ensures !IsWithinPeriod(now - period * MicrosPerDay - 1, period, now)
  {
  }

  /** green: known and recent; yellow: known but stale; red: unknown; error: the lookup raised. */
  datatype Tier = Green | Yellow | Red | Error

  /** The triple `(tier, vector, person_id)` that `is_familiar` returns. */
  datatype Familiarity = Familiarity(tier: Tier, vector: Option<Vector>, personId: Option<int>)
}
