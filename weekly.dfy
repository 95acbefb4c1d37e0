/** `calculate_weekly_athlete_performance`: for every competition week, the
    week's heart-rate-zone rows are scored, and every scored athlete gets a
    row with the week's points, cycling distance and activity count. */
module Weekly {
  import opened Records
  import opened Seqs
  import Calendar
  import Scoring

  /** One output row: the exact weighted seconds, the `Points` column (the
      ranking's rounded points), and the cycling distance in the store's metres. */
  datatype WeeklyRow = WeeklyRow(
    week: int,
    athlete: string,
    weightedSeconds: int,
    points: int,
    cyclingMeters: real,
    activities: nat)

  /** A (possibly null) day inside the week's inclusive bounds. */
  predicate DatedIn(d: Option<int>, w: Calendar.Week)
  {
    d.Some? && w.start <= d.value <= w.end
  }

  /** The week's heart-rate-zone rows. */
  function WeekHr(hr: seq<HrRecord>, w: Calendar.Week): (r: seq<HrRecord>)
    ensures forall x :: x in r <==> x in hr && DatedIn(x.date, w)
  {
    Filter(hr, (x: HrRecord) => DatedIn(x.date, w))
  }

  /** The week's activities. */
  function WeekActivities(acts: seq<Activity>, w: Calendar.Week): (r: seq<Activity>)
    ensures forall a :: a in r <==> a in acts && w.start <= a.date <= w.end
  {
    Filter(acts, (a: Activity) => w.start <= a.date <= w.end)
  }

  /** The four sport types whose distance counts as cycling. */
  predicate IsCycling(v: Value)
  {
    v == Str("Ride") || v == Str("VirtualRide") || v == Str("Peloton") || v == Str("Bike")
  }

  /** A distance with null read as 0 (a pandas sum skips nulls). */
  function Distance(a: Activity): real
  {
    if a.distance.Some? then a.distance.value else 0.0
  }

  /** The athlete's cycling activities among `acts`. */
  function CyclingOf(acts: seq<Activity>, name: string): (r: seq<Activity>)
    ensures forall a :: a in r <==> a in acts && a.athleteName == name && IsCycling(a.sportType)
  {
    Filter(acts, (a: Activity) => a.athleteName == name && IsCycling(a.sportType))
  }

  /** All of the athlete's activities among `acts`. */
  function ActivitiesOf(acts: seq<Activity>, name: string): (r: seq<Activity>)
    ensures forall a :: a in r <==> a in acts && a.athleteName == name
  {
    Filter(acts, (a: Activity) => a.athleteName == name)
  }

  /** The row emitted for one scored athlete of week `w`. */
  function RowFor(w: Calendar.Week, p: Scoring.AthletePoints, weekActs: seq<Activity>): (r: WeeklyRow)
    ensures r.week == w.number && r.athlete == p.athlete && r.weightedSeconds == p.weightedSeconds
    ensures r.points == p.points
    ensures r.activities == 0 ==> r.cyclingMeters == 0.0
    ensures (forall a :: a in weekActs && a.athleteName == p.athlete ==> !IsCycling(a.sportType)) ==> r.cyclingMeters == 0.0
  {
    var cycling := CyclingOf(weekActs, p.athlete);
    assert cycling != [] ==> cycling[0] in cycling && cycling[0] in ActivitiesOf(weekActs, p.athlete);
    WeeklyRow(
      w.number,
      p.athlete,
      p.weightedSeconds,
      p.points,
      RealSum(CyclingOf(weekActs, p.athlete), Distance),
      |ActivitiesOf(weekActs, p.athlete)|)
  }

  /** The rows of one week, in ranking order. */
  function WeekRows(w: Calendar.Week, hr: seq<HrRecord>, acts: seq<Activity>): (r: seq<WeeklyRow>)
    ensures forall row :: row in r ==> row.week == w.number
  {
    RowsOf(w, Scoring.CalculateHrZonePoints(WeekHr(hr, w)), WeekActivities(acts, w))
  }

  /** One row per ranked athlete, in ranking order. */
  function RowsOf(w: Calendar.Week, ranking: seq<Scoring.AthletePoints>, weekActs: seq<Activity>): (r: seq<WeeklyRow>)
    ensures |r| == |ranking|
    ensures forall i :: 0 <= i < |r| ==> r[i] == RowFor(w, ranking[i], weekActs)
  {
    seq(|ranking|, i requires 0 <= i < |ranking| => RowFor(w, ranking[i], weekActs))
  }

  /** The rows of each of the given weeks. */
  function PerWeek(weeks: seq<Calendar.Week>, hr: seq<HrRecord>, acts: seq<Activity>): (r: seq<seq<WeeklyRow>>)
    ensures |r| == |weeks|
    ensures forall k :: 0 <= k < |weeks| ==> r[k] == WeekRows(weeks[k], hr, acts)
  {
    seq(|weeks|, k requires 0 <= k < |weeks| => WeekRows(weeks[k], hr, acts))
  }

  /** The rows of the given weeks, week after week. */
  function WeeklyRows(weeks: seq<Calendar.Week>, hr: seq<HrRecord>, acts: seq<Activity>): (r: seq<WeeklyRow>)
    ensures forall row :: row in r ==> exists k :: 0 <= k < |weeks| && row.week == weeks[k].number
  {
    var per := PerWeek(weeks, hr, acts);
    assert forall row :: row in Flatten(per) ==> exists k :: 0 <= k < |weeks| && row.week == weeks[k].number by {
      forall row | row in Flatten(per) ensures exists k :: 0 <= k < |weeks| && row.week == weeks[k].number {
        FlattenMember(per, row);
      }
    }
    Flatten(per)
  }

  /** With no heart-rate-zone rows, no week has rows. */
  lemma NoHrNoRows(weeks: seq<Calendar.Week>, acts: seq<Activity>)
    ensures WeeklyRows(weeks, [], acts) == []
  {
    var per := PerWeek(weeks, [], acts);
    forall k | 0 <= k < |weeks| ensures per[k] == [] {
      assert WeekHr([], weeks[k]) == [];
      Scoring.NoRowsNoRanking();
    }
    var rows := Flatten(per);
    if rows != [] {
      FlattenMember(per, rows[0]);
    }
  }

  /** The inner loop of the aggregator: one row per athlete of the week's
      ranking, in ranking order. */
  method RankingRows(w: Calendar.Week, ranking: seq<Scoring.AthletePoints>, weekActs: seq<Activity>)
    returns (block: seq<WeeklyRow>)
    ensures block == RowsOf(w, ranking, weekActs)
  {
    ghost var spec := RowsOf(w, ranking, weekActs);
    block := [];
    for i := 0 to |ranking|
      invariant block == spec[..i]
    {
      block := block + [RowFor(w, ranking[i], weekActs)];
      assert spec[..i + 1] == spec[..i] + [spec[i]];
    }
    assert spec[..|ranking|] == spec;
  }

  /** The aggregator: for every listed week with heart-rate-zone rows, the
      week's ranking is computed and its rows appended. */
  method WeeklyAthletePerformance(cfg: Calendar.Config, hr: seq<HrRecord>, acts: seq<Activity>)
    returns (rows: seq<WeeklyRow>)
    ensures rows == WeeklyRows(Calendar.WeekList(cfg), hr, acts)
  {
    if hr == [] {
      NoHrNoRows(Calendar.WeekList(cfg), acts);
      return [];
    }
    var weeks := Calendar.CompetitionWeekDates(cfg);
    ghost var per := PerWeek(weeks, hr, acts);
    rows := [];
    for k := 0 to |weeks|
      invariant rows == Flatten(per[..k])
    {
      var w := weeks[k];
      var weekHr := WeekHr(hr, w);
      var weekActs := WeekActivities(acts, w);
      if weekHr != [] {
        var ranking := Scoring.CalculateHrZonePoints(weekHr);
        var block := RankingRows(w, ranking, weekActs);
        rows := rows + block;
      } else {
        Scoring.NoRowsNoRanking();
        assert per[k] == [];
      }
      FlattenPrefix(per, k);
    }
    assert per[..|weeks|] == per;
  }

  /** A row belongs to the rows of some listed week. */
  lemma WeeklyRowsMember(weeks: seq<Calendar.Week>, hr: seq<HrRecord>, acts: seq<Activity>, row: WeeklyRow)
    ensures row in WeeklyRows(weeks, hr, acts) <==>
      exists k :: 0 <= k < |weeks| && row in WeekRows(weeks[k], hr, acts)
  {
    var per := PerWeek(weeks, hr, acts);
    FlattenMember(per, row);
    if exists k :: 0 <= k < |weeks| && row in WeekRows(weeks[k], hr, acts) {
      var k :| 0 <= k < |weeks| && row in WeekRows(weeks[k], hr, acts);
      assert row in per[k];
    }
  }

  /** Every row of week `w` is the row of one athlete of the week's ranking. */
  lemma WeekRowsMember(w: Calendar.Week, hr: seq<HrRecord>, acts: seq<Activity>, row: WeeklyRow)
    requires row in WeekRows(w, hr, acts)
    ensures row.week == w.number
    ensures row.athlete in Scoring.AthletesOf(Scoring.CalculateHrZonePoints(WeekHr(hr, w)))
    ensures row.weightedSeconds == Scoring.TotalWeighted(Scoring.RecordsOf(Scoring.ScoredRecords(WeekHr(hr, w)), row.athlete))
    ensures row.points == Scoring.RoundedPoints(row.weightedSeconds)
    ensures row.activities == |ActivitiesOf(WeekActivities(acts, w), row.athlete)|
    ensures row.cyclingMeters == RealSum(CyclingOf(WeekActivities(acts, w), row.athlete), Distance)
  {
    var ranking := Scoring.CalculateHrZonePoints(WeekHr(hr, w));
    var rows := WeekRows(w, hr, acts);
    var i :| 0 <= i < |rows| && rows[i] == row;
    assert ranking[i] in ranking;
    Scoring.RankingTotals(WeekHr(hr, w), ranking[i]);
  }

  /** Rows come in week order when the weeks do. */
  lemma WeeklyRowsInWeekOrder(weeks: seq<Calendar.Week>, hr: seq<HrRecord>, acts: seq<Activity>)
    requires forall i, j :: 0 <= i < j < |weeks| ==> weeks[i].number < weeks[j].number
    ensures var rows := WeeklyRows(weeks, hr, acts);
      forall i, j :: 0 <= i < j < |rows| ==> rows[i].week <= rows[j].week
  {
    var per := PerWeek(weeks, hr, acts);
    var f := (r: WeeklyRow) => r.week;
    forall k, i, j | 0 <= k < |per| && 0 <= i < j < |per[k]| ensures f(per[k][i]) <= f(per[k][j]) {
      assert per[k][i] in WeekRows(weeks[k], hr, acts) && per[k][j] in WeekRows(weeks[k], hr, acts);
    }
    FlattenOrdered(per, f);
  }

  /** A ranked athlete is exactly an athlete with a row. */
  lemma RowsOfAthletes(w: Calendar.Week, ranking: seq<Scoring.AthletePoints>, weekActs: seq<Activity>, n: string)
    ensures (exists row :: row in RowsOf(w, ranking, weekActs) && row.athlete == n) <==> n in Scoring.AthletesOf(ranking)
  {
    if n in Scoring.AthletesOf(ranking) {
      RankedHasRow(w, ranking, weekActs, n);
    }
    if exists row :: row in RowsOf(w, ranking, weekActs) && row.athlete == n {
      var row :| row in RowsOf(w, ranking, weekActs) && row.athlete == n;
      RowIsRanked(w, ranking, weekActs, row);
    }
  }

  lemma RankedHasRow(w: Calendar.Week, ranking: seq<Scoring.AthletePoints>, weekActs: seq<Activity>, n: string)
    requires n in Scoring.AthletesOf(ranking)
    ensures exists row :: row in RowsOf(w, ranking, weekActs) && row.athlete == n
  {
    var rows := RowsOf(w, ranking, weekActs);
    var p :| p in ranking && p.athlete == n;
    var i :| 0 <= i < |ranking| && ranking[i] == p;
    assert rows[i] in rows;
  }

  lemma RowIsRanked(w: Calendar.Week, ranking: seq<Scoring.AthletePoints>, weekActs: seq<Activity>, row: WeeklyRow)
    requires row in RowsOf(w, ranking, weekActs)
    ensures row.athlete in Scoring.AthletesOf(ranking)
  {
    var rows := RowsOf(w, ranking, weekActs);
    var i :| 0 <= i < |rows| && rows[i] == row;
    assert ranking[i] in ranking;
  }

  /** Week `w` has a row for athlete `n` exactly when `n` has a
      heart-rate-zone row dated in `w` (given that rows of one activity agree
      on the athlete). */
  lemma WeekHasRow(w: Calendar.Week, hr: seq<HrRecord>, acts: seq<Activity>, n: string)
    requires Scoring.NamesAgreeOnIds(hr)
    ensures (exists row :: row in WeekRows(w, hr, acts) && row.athlete == n) <==>
      exists x :: x in hr && x.athleteName == Some(n) && DatedIn(x.date, w)
  {
    var weekHr := WeekHr(hr, w);
    RowsOfAthletes(w, Scoring.CalculateHrZonePoints(weekHr), WeekActivities(acts, w), n);
    WeekAgreement(hr, w);
    Scoring.RankingAthletes(weekHr);
    Scoring.ScoredAthletes(weekHr);
    if exists x :: x in hr && x.athleteName == Some(n) && DatedIn(x.date, w) {
      var x :| x in hr && x.athleteName == Some(n) && DatedIn(x.date, w);
      assert x in weekHr;
    }
  }

  /** A row for week `k` and athlete `n` exists exactly when `k` is a listed
      week and `n` has a heart-rate-zone row dated in week `k` (given that
      rows of one activity agree on the athlete). */
  lemma WeeklyRowExists(cfg: Calendar.Config, hr: seq<HrRecord>, acts: seq<Activity>, k: int, n: string)
    requires Scoring.NamesAgreeOnIds(hr)
    ensures (exists row :: row in WeeklyRows(Calendar.WeekList(cfg), hr, acts) && row.week == k && row.athlete == n) <==>
      && 1 <= k <= Calendar.WeekCount(cfg)
      && exists x :: x in hr && x.athleteName == Some(n) && DatedIn(x.date, Calendar.WeekAt(cfg, k))
  {
    var rows := WeeklyRows(Calendar.WeekList(cfg), hr, acts);
    if exists row :: row in rows && row.week == k && row.athlete == n {
      var row :| row in rows && row.week == k && row.athlete == n;
      RowInListedWeek(cfg, hr, acts, row);
      WeekHasRow(Calendar.WeekAt(cfg, k), hr, acts, n);
    }
    if 1 <= k <= Calendar.WeekCount(cfg) && exists x :: x in hr && x.athleteName == Some(n) && DatedIn(x.date, Calendar.WeekAt(cfg, k)) {
      WeekHasRow(Calendar.WeekAt(cfg, k), hr, acts, n);
      var row :| row in WeekRows(Calendar.WeekAt(cfg, k), hr, acts) && row.athlete == n;
      ListedWeekRow(cfg, hr, acts, k, row);
    }
  }

  /** A row of the table is a row of the listed week its number names. */
  lemma RowInListedWeek(cfg: Calendar.Config, hr: seq<HrRecord>, acts: seq<Activity>, row: WeeklyRow)
    requires row in WeeklyRows(Calendar.WeekList(cfg), hr, acts)
    ensures 1 <= row.week <= Calendar.WeekCount(cfg)
    ensures row in WeekRows(Calendar.WeekAt(cfg, row.week), hr, acts)
  {
    var weeks := Calendar.WeekList(cfg);
    WeeklyRowsMember(weeks, hr, acts, row);
    var i :| 0 <= i < |weeks| && row in WeekRows(weeks[i], hr, acts);
    var w := weeks[i];
    assert w == Calendar.WeekAt(cfg, i + 1);
    assert row.week == i + 1;
  }

  /** A row of a listed week is a row of the table. */
  lemma ListedWeekRow(cfg: Calendar.Config, hr: seq<HrRecord>, acts: seq<Activity>, k: int, row: WeeklyRow)
    requires 1 <= k <= Calendar.WeekCount(cfg)
    requires row in WeekRows(Calendar.WeekAt(cfg, k), hr, acts)
    ensures row in WeeklyRows(Calendar.WeekList(cfg), hr, acts)
  {
    var weeks := Calendar.WeekList(cfg);
    assert weeks[k - 1] == Calendar.WeekAt(cfg, k);
    WeeklyRowsMember(weeks, hr, acts, row);
  }

  /** Selecting a week keeps rows of one activity agreeing on the athlete. */
  lemma WeekAgreement(hr: seq<HrRecord>, w: Calendar.Week)
    requires Scoring.NamesAgreeOnIds(hr)
    ensures Scoring.NamesAgreeOnIds(WeekHr(hr, w))
  {
    var sub := WeekHr(hr, w);
    forall i, j | 0 <= i < |sub| && 0 <= j < |sub| && sub[i].activityId == sub[j].activityId
      ensures sub[i].athleteName == sub[j].athleteName
    {
      assert sub[i] in hr && sub[j] in hr;
      var a :| 0 <= a < |hr| && hr[a] == sub[i];
      var b :| 0 <= b < |hr| && hr[b] == sub[j];
    }
  }

  /** The aggregator's rows come in week order. */
  lemma WeeklyAthletePerformanceInWeekOrder(cfg: Calendar.Config, hr: seq<HrRecord>, acts: seq<Activity>)
    ensures var rows := WeeklyRows(Calendar.WeekList(cfg), hr, acts);
      forall i, j :: 0 <= i < j < |rows| ==> rows[i].week <= rows[j].week
  {
    WeeklyRowsInWeekOrder(Calendar.WeekList(cfg), hr, acts);
  }
}
