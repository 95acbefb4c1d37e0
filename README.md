# Cycling competition analytics, modelled in Dafny

This project models the analytical core of a dashboard for an eight-week
cycling competition. The dashboard reads athletes, activities and
heart-rate-zone rows from a store. It turns them into a competition
calendar, zone-weighted points, a points ranking, a weekly table, activity
streaks and badges. A separate admin script reclassifies indoor "Peloton"
rides that recorded climbing as outdoor "Bike" rides.

The model works on plain sequences of records. Days are integers: Python
date ordinals, where 0001-01-01 is day 1. The current day is a parameter.
The store is an input sequence, plus an oracle for the outcome of each
write.

Modules, one file each:

- `Seqs` (seqs.dfy): generic helpers.
  - A keep-in-order filter and keep-first deduplication by a key.
  - Subsequences, sums, and flattening of blocks.
- `Records` (records.dfy): the rows as the store returns them.
  - A text cell is a string, a null or some other value.
  - Nullable numbers are `Option`s.
- `Calendar` (calendar.dfy): the week list, the current week and the current week's bounds.
  - The first day, the last day and the number of weeks are a `Config`.
  - `Shipped` holds the constants of the dashboard.
- `Normalize` (normalize.dfy): the post-fetch clean-up of activities.
  - `clean_field` unwraps `root=` wrappers and maps Ride to Peloton.
  - Peloton rides with climbing become Bike; Tennis rows are dropped.
  - The narrower activity-name cleaner of the heart-rate-zone fetch.
- `HeartRateZones` (heartrate.dfy): heart-rate-zone rows after fetching.
  - The loop that flattens the joined activity and athlete into columns.
  - The null-name and Tennis filters, and keep-first deduplication by activity id.
- `Scoring` (scoring.dfy): `calculate_hr_zone_points`.
  - A record's points are its weighted seconds (Σ i·zone_i seconds) divided by 60.
  - Weighted seconds are kept as an exact integer.
- `Weekly` (weekly.dfy): `calculate_weekly_athlete_performance`, the per-week table.
- `Streaks` (streaks.dfy): `calculate_athlete_streaks` and `get_streak_badge`.
- `AdminFix` (admin_fix.dfy): the `main` of `fix_activities.py`.

Two behaviours of the program worth knowing:

- The streak grace rule is `today - latest <= 1` (app.py:1765-1769), so
  activities dated after `today` still yield a streak.
- The two name cleaners differ. `CleanersDiffer` proves two inputs on which
  they disagree.

## Model

| member | source | states |
|---|---|---|
| Calendar.WeekAt | app.py:31-42 | Week k's Monday is 7(k−1) days after the first day. Its Sunday is six days later, or the last day if that comes first. |
| Calendar.WeekCount | app.py:31-46 | No weeks when the week count is below 1, otherwise between 1 and the week count. Every listed Monday after the first is on or before the last day. The list stops short of the week count only when the next Monday is past the last day. |
| Calendar.CompetitionWeekDates | app.py:26-48 | The loop with its early break returns exactly the week list. |
| Calendar.WeekListShape | app.py:26-48 | There are at most WEEKS entries. Entry k is week k+1, starting 7k days after the first day and ending at the earlier of its Sunday and the last day. Every Monday is on or before the last day. Weeks are strictly increasing and disjoint, and each unclipped week is followed by the next day. |
| Calendar.CurrentCompetitionWeek | app.py:50-65 | Pre-competition (number 0) exactly when today is before the first day. Post-competition (WEEKS+1) exactly when today is past the last day or (today−start) div 7 ≥ WEEKS. Otherwise the number is the week, in 1..WEEKS, and that week contains today. |
| Calendar.CurrentWeekIsListedWeek | app.py:50-65 | The current week is k exactly when k is a listed week whose Monday..Sunday contains today. |
| Calendar.CurrentWeekBounds | app.py:67-89 | The pair always contains today. Outside the competition it is the calendar week: a Monday and the Sunday six days later. Inside, it starts a whole number of weeks after the first day, within seven days of today, and ends at min(Monday+6, last day). |
| Calendar.BoundsMatchCurrentWeek | app.py:67-89 | Inside the competition, the bounds are exactly the Monday and Sunday of the current listed week. |
| Calendar.BoundsStartOnMonday | app.py:71-80 | When the first day is a Monday, every returned start is a Monday. |
| Calendar.ShippedCalendar | app.py:21-24 | With the shipped dates, the first day is a Monday and all 8 weeks are listed. No Sunday is clipped, and week 8 ends on the last day. Every day of the competition falls in a week. |
| Normalize.Unwrap | app.py:1450-1467 | A string without the `root=` prefix is returned unchanged. With the prefix, the result is at least five characters shorter: the prefix is always removed. |
| Normalize.UnwrapForms | fix_activities.py:145-157 | `root=` followed by y gives y without its quotes when y is quoted with ' or ", and y otherwise. |
| Normalize.UnwrapQuoted | fix_activities.py:145-148 | `root='X'` and `root="X"` both unwrap to X. |
| Normalize.UnwrapNestedStripIsDead | fix_activities.py:150-155 | The quote stripping nested under the bare `root=` branch never changes a value: what follows `root=` there is never quoted. |
| Normalize.MapSportType | app.py:1469-1474 | Exactly "Ride" changes, and it becomes "Peloton". "Run" and every other value are returned unchanged. |
| Normalize.CleanField | app.py:1450-1474 | Non-strings pass through and strings stay strings. A string without the `root=` prefix is only Ride-mapped, so any value other than "Ride" is unchanged. The result is never "Ride". |
| Normalize.CleanFieldWrapped | fix_activities.py:140-165 | `root='X'` and `root="X"` clean to the Ride-mapped X. `root=Y`, with Y not enclosed in quotes, cleans to the Ride-mapped Y. A lone quote after `root=` cleans to the empty string. |
| Normalize.MapActivityName | app.py:1519-1534 | Exactly "Ride" and "Run" change, to "Peloton" and "Treadmill". |
| Normalize.CleanActivityName | app.py:1517-1537 | Non-strings, and strings without the `root=` prefix, are unchanged. |
| Normalize.CleanActivityNameForms | app.py:1517-1537 | `root='X'` gives the mapped X. `root="X"` keeps its double quotes and is not mapped. `root=Y`, with Y not enclosed in single quotes, gives the mapped Y. A lone single quote after `root=` gives the empty string. |
| Normalize.CleanersDiffer | app.py:1517-1537 | The two cleaners disagree on `root="Ride"` (Peloton and "Ride" with its quotes) and on `root='Run'` (Run and Treadmill). |
| Normalize.StripLeft | app.py:1543 | Removes exactly the leading characters that `str.isspace` accepts. |
| Normalize.StripRight | app.py:1543 | Removes exactly the trailing characters that `str.isspace` accepts. |
| Normalize.Strip | app.py:1543 | The result neither starts nor ends with whitespace and is no longer than the input. |
| Normalize.StripIsSlice | app.py:1543 | The result is one slice of the input, and everything before and after that slice is whitespace. |
| Normalize.Reclassify | app.py:1480-1483 | The sport type changes exactly when it is "Peloton" and the elevation gain is present and positive. It then becomes "Bike". |
| Normalize.ActivityAthleteName | app.py:1444-1446 | "Unknown" exactly when no athlete is joined. Otherwise the first name, one space, then the last name. |
| Normalize.NormalizeActivity | app.py:1443-1483 | Keeps id, date, distance and elevation. The name is the cleaned name and the athlete is the joined name. The sport type is the cleaned sport type, reclassified by elevation. The result is never a Peloton with positive elevation gain. |
| Normalize.NormalizeActivities | app.py:1441-1488 | No Tennis, no Ride, and no Peloton with positive elevation remain. Every output row is a normalised input row. Every normalised input row that is not Tennis is in the output. |
| Normalize.ElevationExamples | app.py:1480-1483 | A raw "Ride" with 120 m of climbing becomes "Bike"; with 0 m it is "Peloton". |
| HeartRateZones.Unjoined | app.py:1502-1508 | A row whose new columns were initialised to null: athlete id, athlete name, activity name, date and sport type are null, and the activity id and zones are kept. |
| HeartRateZones.HrAthleteName | app.py:1541-1543 | A name exactly when an athlete is joined. It neither starts nor ends with whitespace and is at most the two names plus a space long. |
| HeartRateZones.HrAthleteNameIsStripped | app.py:1541-1543 | The joined athlete's name is "first last" with surrounding whitespace stripped: one slice of it, with only whitespace before and after. |
| HeartRateZones.Joined | app.py:1511-1543 | A joined row takes the activity's athlete id, start date and raw sport type, the cleaned activity name and the joined athlete's stripped name. |
| HeartRateZones.FlattenRow | app.py:1510-1543 | Keeps the activity id and zones. Has an athlete name exactly when the row joined an activity with an athlete, and a date exactly when it joined an activity. With a join, the date, athlete id, cleaned activity name and stripped athlete name come from the joined activity. Without one, every new column is null. |
| HeartRateZones.FlattenHeartRateZones | app.py:1502-1546 | The loop writes, row by row, exactly the flattened form of each row. |
| HeartRateZones.CleanHeartRateZones | app.py:1548-1558 | The output is no longer than the input. Every output row is an input row with an athlete and a sport type other than Tennis. |
| HeartRateZones.CleanHeartRateZonesSound | app.py:1548-1558 | The output is a subsequence of the input with no null name and no Tennis, and pairwise distinct activity ids. Its ids are those of the filtered rows, and each id's first filtered row is kept. |
| HeartRateZones.CleanHeartRateZonesIdempotent | app.py:1548-1558 | Cleaning twice equals cleaning once. |
| Scoring.WeightedSeconds | app.py:1591-1597 | With no negative zone time, the weighted seconds lie between the plain sum of the zone times and five times that sum. |
| Scoring.Points | app.py:1591-1597 | A record's points times 60 are its weighted seconds. |
| Scoring.ScaleZonesScalesPoints | app.py:1591-1597 | Scaling every zone time by c scales the weighted seconds and the points by c. |
| Scoring.ZeroZonesScoreZero | app.py:1591-1597 | Zones that are all zero or null score 0 points. |
| Scoring.TenMinutesInZoneOne | app.py:1591-1597 | 600 s in zone 1 is 10 points, with the other zones at zero or null. |
| Scoring.ScoredRecords | app.py:1571-1586 | The scored records are input rows with an athlete name and pairwise distinct activity ids, covering every activity id of the named rows. |
| Scoring.ScoredRecordsKeepFirst | app.py:1578-1583 | The scored records keep input order, and the first named row of every activity id is kept. |
| Scoring.Tally | app.py:1599-1612 | One total row per athlete name, in the order of the names. Each row's points column is its total rounded by `round(0)`. |
| Scoring.RoundedPoints | app.py:1612 | The rounded points are within half a point of the exact points. An exact half goes to the even neighbour. |
| Scoring.RoundedPointsMonotone | app.py:1612-1615 | Rounding never inverts the order of two totals. |
| Scoring.RoundingExamples | app.py:1612-1615 | 100.2 and 100.4 points both round to 100, 100.5 rounds to 100 and 101.5 to 102. |
| Scoring.InsertByPoints | app.py:1615 | Inserting one row into the ranking adds exactly that row, as a multiset and as a set of members. |
| Scoring.InsertKeepsOrder | app.py:1615 | Inserting into a non-increasing ranking keeps it non-increasing. |
| Scoring.SortByPoints | app.py:1612-1615 | The ranking is non-increasing in rounded points and is a permutation of its input. |
| Scoring.SortKeepsDistinct | app.py:1612-1615 | Ranking rows with distinct athletes keeps them distinct. |
| Scoring.CalculateHrZonePoints | app.py:1566-1617 | The ranking is non-increasing in rounded points, and every ranked athlete has a row with that athlete name. |
| Scoring.NoRowsNoRanking | app.py:1568-1575 | No rows give an empty ranking. |
| Scoring.RankingOrderedAndDistinct | app.py:1612-1615 | The ranking is in non-increasing order of rounded points and lists no athlete twice. |
| Scoring.RankingAthletes | app.py:1572-1612 | The ranking lists exactly the athletes of the named, deduplicated records. |
| Scoring.RankingTotals | app.py:1599-1612 | Each ranking row holds the sum of its athlete's weighted seconds, that sum rounded to points, and the number of its athlete's records. |
| Scoring.ScoredAthletes | app.py:1577-1587 | When rows of one activity agree on the athlete, deduplicating by activity id loses no athlete. |
| Scoring.CalculateHrZonePointsSpec | app.py:1566-1617 | The ranking is ordered by rounded points, lists no athlete twice, and covers exactly the scored athletes. Each row carries that athlete's total weighted seconds, its rounded points and the record count. |
| Scoring.TotalScales | app.py:1591-1612 | Scaling all zone times by c scales a sum of weighted seconds by c. |
| Scoring.AthleteTotalScales | app.py:1591-1612 | Scaling all zone times by c scales every athlete's total by c. |
| Weekly.WeekHr | app.py:109-113 | The week's HR rows are those with a date inside the week's inclusive bounds. |
| Weekly.WeekActivities | app.py:115-119 | The week's activities are those dated inside the week's inclusive bounds. |
| Weekly.CyclingOf | app.py:125-129 | An athlete's cycling activities are theirs with sport type Ride, VirtualRide, Peloton or Bike. |
| Weekly.ActivitiesOf | app.py:132-133 | An athlete's activities are all rows with that athlete name, whatever the sport. |
| Weekly.RowFor | app.py:124-143 | A row carries the week number, the ranked athlete, and that athlete's weighted seconds and rounded points. An athlete with no activities in the week, or none of a cycling sport, has no cycling distance. |
| Weekly.WeekRows | app.py:121-143 | Every row of a week carries that week's number. |
| Weekly.RowsOf | app.py:124-143 | One row per ranked athlete, in ranking order. |
| Weekly.PerWeek | app.py:104-143 | One block of rows per given week, each the rows of that week. |
| Weekly.WeeklyRows | app.py:104-149 | Every row's week number is the number of one of the given weeks. |
| Weekly.RankingRows | app.py:124-143 | The inner loop appends exactly one row per ranked athlete, in ranking order. |
| Weekly.NoHrNoRows | app.py:93-94 | With no HR rows there are no weekly rows. |
| Weekly.WeeklyAthletePerformance | app.py:91-149 | The nested loops produce the rows of each listed week, week after week. |
| Weekly.WeeklyRowsMember | app.py:104-143 | A row is in the table exactly when it is a row of one of the weeks. |
| Weekly.WeekRowsMember | app.py:121-143 | A week's row carries the week number and a ranked athlete. It also carries that athlete's total weighted seconds in the week, that total rounded to points, the count of all their activities that week, and the distance of their cycling activities that week. |
| Weekly.WeekHasRow | app.py:109-124 | A week has a row for an athlete exactly when the athlete has an HR row dated in that week, given that rows of one activity agree on the athlete. |
| Weekly.WeeklyRowExists | app.py:104-143 | A (week k, athlete) row exists exactly when k is a listed week and the athlete has an HR row dated in week k, under the same agreement. |
| Weekly.WeeklyRowsInWeekOrder | app.py:104-143 | Given weeks in increasing order, the rows come in week order. |
| Weekly.WeeklyAthletePerformanceInWeekOrder | app.py:104-143 | The table's rows come in week order. |
| Streaks.InsertDesc | app.py:1757 | Inserting a date into a strictly decreasing list keeps it strictly decreasing and adds only that date. |
| Streaks.DistinctDesc | app.py:1757 | The distinct dates, strictly decreasing, with the same members as the input. |
| Streaks.MaxOf | app.py:1764 | The latest date is one of the dates and no date is later. |
| Streaks.Streak | app.py:1757-1786 | The streak never exceeds the number of distinct dates, and is at least 1 when the latest date is at most one day before today. |
| Streaks.RunFromMeaning | app.py:1771-1784 | The run from d covers every day from d back to d−run+1, misses day d−run, and is at most the number of days. |
| Streaks.RunFromExact | app.py:1771-1784 | Days covered from d back to d−n+1 with day d−n missing make a run of exactly n. |
| Streaks.WalkCountsRun | app.py:1771-1784 | Walking strictly decreasing dates until the first gap after n steps counts the run from the latest date. |
| Streaks.StreakMeaning | app.py:1757-1786 | The streak is 0 exactly when there are no dates or the latest is more than one day before today. Otherwise the latest date and the streak−1 days before it all have activities, and the day before those has none. The streak never exceeds the number of distinct dates. |
| Streaks.CurrentStreak | app.py:1757-1786 | The loop with `expected_date` and its break returns the streak. |
| Streaks.DatesOf | app.py:1757 | An athlete's dates are exactly the dates of that athlete's activities. |
| Streaks.AthleteStreaks | app.py:1739-1788 | There is one entry per athlete with an activity, and each entry is that athlete's streak. |
| Streaks.StreakExamples | app.py:1764-1786 | Activities today and on the two days before give 3. A single activity three days ago gives 0. A single activity yesterday gives 1. |
| Streaks.StreakBadge | app.py:1790-1801 | The badge is one of the five table entries. It is the empty badge exactly below 3 days and Legend exactly from 30 days. |
| Streaks.StreakBadgeByTable | app.py:1790-1801 | The badge is the table entry at the number of thresholds (3, 7, 14, 30) reached. |
| Streaks.StreakBadgeMonotone | app.py:1790-1801 | A longer streak never reaches fewer thresholds. Two lengths get the same badge exactly when they reach the same number. |
| AdminFix.IsPeloton | fix_activities.py:199 | Raw "Ride" and "Peloton" are Peloton. Only strings can be. For a string without the `root=` prefix, those two values are the only Peloton ones. |
| AdminFix.PelotonRows | fix_activities.py:199 | The Peloton rows are exactly the rows whose cleaned sport type is "Peloton", in store order. |
| AdminFix.WithElevation | fix_activities.py:208-210 | Exactly the Peloton rows with positive elevation gain, in order. |
| AdminFix.WithoutElevation | fix_activities.py:208-211 | Exactly the Peloton rows without positive elevation gain, in order. |
| AdminFix.ElevationPartition | fix_activities.py:197-211 | A row is in with_elevation exactly when it is a cleaned Peloton with positive elevation, and in without_elevation exactly when it is a Peloton without it. No row is in both, and the two sizes add up to the number of Peloton rows. |
| AdminFix.Lower | fix_activities.py:229 | Lower-cases ASCII letters and keeps every other character and the length. |
| AdminFix.ConfirmationAnswers | fix_activities.py:227-231 | The prompt accepts exactly "y" and "Y". |
| AdminFix.BikeWrites | fix_activities.py:239-245 | One write per target, in order, setting its id's sport type to "Bike". |
| AdminFix.Succeeded | fix_activities.py:247-256 | The number of writes that come back with data is at most the number of targets. |
| AdminFix.UpdateLoop | fix_activities.py:236-257 | Each target is written exactly once, in order. The updated count is the number of writes that came back with data, and updated + failed equals the number of targets. |
| AdminFix.FixActivities | fix_activities.py:167-257 | Each early exit happens exactly when its condition holds: no activities, no Peloton, nothing with elevation, not confirmed. Writes happen only on a confirmed run with something to fix, and then exactly the Bike writes for the with-elevation rows, with the counters adding up. |
| AdminFix.OnlyElevatedPelotonWritten | fix_activities.py:216-245 | Every write sets "Bike" on the id of a Peloton row with elevation, and happens only after the answer "y" or "Y". |
| AdminFix.FixIsComplete | fix_activities.py:236-257 | When every write succeeds and ids are unique, no Peloton row with elevation is left, and the Peloton rows without elevation are unchanged. |

## Left out

- Dashboard rendering, widgets, layout, session state and the console and
  `st.write` output of the admin script.
  - They are presentation only.
  - The admin script's preview of five sample rows and its final re-fetch of
    the sport-type distribution only print.
- Store access: the client setup and the queries, including their date-range
  filters.
  - These are network I/O.
  - Fetched rows are input sequences.
  - A write's outcome comes from the oracle `store`, keyed by activity id.
- `@st.cache_data`: framework memoisation with no logic of its own.
- `datetime.now()`: `today` is a parameter.
- The week label text (`strftime('%m/%d')` and the "Week N" strings): the
  model has no date or number formatting.
  - The phase the label names is the `phase` `Calendar.CurrentCompetitionWeek` returns.
- Weekly.WeeklyRow: cycling distance is kept in metres.
  - It is not converted to miles and rounded to one decimal (app.py:130,
    app.py:140), a float conversion for display.
  - The `Points` column is modelled: it is the ranking's rounded points
    (`Scoring.RoundedPoints` of the exact weighted seconds, also kept).
- Scoring.CalculateHrZonePointsSpec: does not model the per-zone sums the
  aggregation also carries.
- Scoring.CalculateHrZonePoints: rounds the exact total (weighted seconds / 60)
  half to even.
  - The program rounds a floating-point sum of per-record points.
  - The two can differ when the float sum lands just beside an exact half.
- Scoring.RankingOrderedAndDistinct: orders by the rounded points only.
  - Athletes whose totals round to the same number may appear in any order.
- Scoring.SortByPoints: ties are ordered arbitrarily.
  - pandas' default sort is not stable and the group-by pre-orders athletes
    by name.
  - Nothing is claimed about the order of equal rounded totals.
- The `zone_i_time` fallback columns: only the `zone_i_seconds` columns are
  modelled.
- `calculate_athlete_cycling_stats`, `calculate_weekly_mileage` and the
  unit-formatting helpers: float sums and conversions on top of the
  modelled functions.
- The admin copy inside app.py (`fix_existing_activities_admin`): it repeats
  the script's logic behind a button instead of a typed answer.
- The `date` column `calculate_weekly_athlete_performance` adds to its input
  frames in place.
  - The model reads each record's date directly.
  - This in-place update is not captured.
- AdminFix.Lower: models `str.lower()` on ASCII only.
  - No other character lower-cases to "y", so the confirmation rule is
    unaffected.
- A missing `name` key in the joined activity (`get('name', '')`) is
  modelled as a null cell.
- Athlete first and last names are strings.
  - A null name part is formatted by the program as the text "None"
    (app.py:1445, app.py:1543), and the row is kept.
  - In the model this is the string "None" given as that name part.
  - A missing name key reads as the empty string (app.py:1543).
- Normalize.CleanActivityName: the activity-name column is computed but no
  modelled operation reads it.
