/** The rows the dashboard reads from its store, after the store's joins,
    as plain values. Dates are day numbers in Python's proleptic Gregorian
    ordinal (`date.toordinal()`, 0001-01-01 is day 1). */
module Records {

  datatype Option<T> = None | Some(value: T)

  /** A cell of a loosely typed store row: a string, a null, or any other
      non-string value (kept opaque: the cleaners pass it through). */
  datatype Value = Str(s: string) | Null | NonString(code: int)

  /** The joined `athletes(firstname, lastname)` object. */
  datatype AthleteNames = AthleteNames(firstName: string, lastName: string)

  /** An `activities` row as the store returns it, joined with its athlete
      (None when the join found no athlete). `date` is the calendar day of
      `start_date`; distance and elevation gain are nullable numbers. */
  datatype RawActivity = RawActivity(
    id: int,
    athlete: Option<AthleteNames>,
    name: Value,
    sportType: Value,
    date: int,
    distance: Option<real>,
    elevationGain: Option<real>)

  /** An activity after the post-fetch normalisation. */
  datatype Activity = Activity(
    id: int,
    athleteName: string,
    name: Value,
    sportType: Value,
    date: int,
    distance: Option<real>,
    elevationGain: Option<real>)

  /** Seconds spent in heart-rate zones 1 to 5; each may be null. */
  datatype Zones = Zones(z1: Option<int>, z2: Option<int>, z3: Option<int>, z4: Option<int>, z5: Option<int>)

  /** The `activities(athlete_id, name, start_date, sport_type, athletes(...))`
      object joined to a heart-rate-zone row. */
  datatype JoinedActivity = JoinedActivity(
    athleteId: Option<int>,
    name: Value,
    date: int,
    sportType: Value,
    athlete: Option<AthleteNames>)

  /** A `heart_rate_zones` row as the store returns it. */
  datatype RawHrRow = RawHrRow(activityId: int, activity: Option<JoinedActivity>, zones: Zones)

  /** A heart-rate-zone row after flattening the joined objects into columns.
      The columns are null (None, Null) when the row had no joined activity. */
  datatype HrRecord = HrRecord(
    activityId: int,
    athleteId: Option<int>,
    athleteName: Option<string>,
    activityName: Value,
    date: Option<int>,
    sportType: Value,
    zones: Zones)

  /** The key `drop_duplicates(subset=['activity_id'])` uses. */
  function ActivityIdOf(r: HrRecord): int
  {
    r.activityId
  }
}
