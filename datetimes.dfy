/** `DateTime<Utc>` is modelled as a whole number of seconds since the Unix
    epoch.  Utc has no daylight-saving shifts, so a calendar day added with
    `checked_add_days` is always 86400 seconds. */
module DateTimes {

  type Time = int

  const SecondsPerDay: int := 86400

  /** `checked_add_days(Days::new(days))` on a Utc date. */
  function AddDays(t: Time, days: nat): (r: Time)
    ensures r >= t
    ensures r - t == days * SecondsPerDay
  {
    t + days * SecondsPerDay
  }

  /** `checked_sub_days(Days::new(days))` on a Utc date. */
  function SubDays(t: Time, days: nat): (r: Time)
    ensures r <= t
    ensures AddDays(r, days) == t
  {
    t - days * SecondsPerDay
  }

  /** The date with its hour, minute and second set to zero: the start of
      the Utc day that holds `t`. */
  function StartOfDay(t: Time): (r: Time)
    ensures r % SecondsPerDay == 0
    ensures r <= t < r + SecondsPerDay
  {
    t - t % SecondsPerDay
  }
}
