/** The competition calendar: a fixed first day (a Monday), a fixed last day
    and a fixed number of weeks, mapped to week descriptors, to the week
    containing a given day and to that week's Monday/Sunday bounds. Days are
    Python date ordinals; `today` is a parameter. */
module Calendar {

  datatype Config = Config(start: int, end: int, weeks: int)

  /** 2025-08-11, a Monday. */
  const CompetitionStart: int := 739474
  /** 2025-10-05, a Sunday. */
  const CompetitionEnd: int := 739529
  const CompetitionWeeks: int := 8
  const Shipped: Config := Config(CompetitionStart, CompetitionEnd, CompetitionWeeks)

  /** Python's `date.weekday()`: Monday is 0; day 1 (0001-01-01) was a Monday. */
  function Weekday(d: int): (r: int)
    ensures 0 <= r < 7
  {
    (d - 1) % 7
  }

  function Min(a: int, b: int): (r: int)
    ensures r <= a && r <= b && (r == a || r == b)
  {
    if a <= b then a else b
  }

  /** A week descriptor: number (from 1), Monday and Sunday (clipped to the
      last competition day). The display label is not modelled. */
  datatype Week = Week(number: int, start: int, end: int)

  /** Week `k` of the competition. */
  function WeekAt(cfg: Config, k: int): (w: Week)
    ensures w.number == k
    ensures w.start == cfg.start + 7 * (k - 1)
    ensures w.end <= w.start + 6 && w.end <= cfg.end
    ensures w.end == w.start + 6 || w.end == cfg.end
  {
    var monday := cfg.start + 7 * (k - 1);
    Week(k, monday, Min(monday + 6, cfg.end))
  }

  /** How many weeks the week list holds: week 1 is always listed (when the
      week count is positive), and week k + 1 follows week k while k is below
      the week count and week k + 1's Monday is not past the last day. */
  function WeekCount(cfg: Config): (n: nat)
    ensures cfg.weeks < 1 ==> n == 0
    ensures cfg.weeks >= 1 ==> 1 <= n <= cfg.weeks
    ensures forall k :: 2 <= k <= n ==> WeekAt(cfg, k).start <= cfg.end
    ensures 1 <= n < cfg.weeks ==> WeekAt(cfg, n + 1).start > cfg.end
  {
    if cfg.weeks < 1 then 0
    else if cfg.end < cfg.start then 1
    else Min(cfg.weeks, (cfg.end - cfg.start) / 7 + 1)
  }

  /** The week list as a sequence: entry k - 1 is week k. */
  function WeekList(cfg: Config): (ws: seq<Week>)
    ensures |ws| == WeekCount(cfg)
    ensures forall k :: 0 <= k < |ws| ==> ws[k] == WeekAt(cfg, k + 1)
  {
    seq(WeekCount(cfg), k => WeekAt(cfg, k + 1))
  }

  /** `get_competition_week_dates`: walks Mondays 7 days apart, clipping each
      Sunday to the last day and stopping once the next Monday is past it. */
  method CompetitionWeekDates(cfg: Config) returns (weeks: seq<Week>)
    ensures weeks == WeekList(cfg)
  {
    weeks := [];
    var monday := cfg.start;
    var weekNum := 1;
    while weekNum <= cfg.weeks
      invariant 1 <= weekNum
      invariant cfg.weeks >= 1 ==> weekNum <= cfg.weeks + 1
      invariant cfg.weeks < 1 ==> weekNum == 1
      invariant |weeks| == weekNum - 1
      invariant monday == cfg.start + 7 * (weekNum - 1)
      invariant weekNum > 1 ==> monday <= cfg.end
      invariant forall k :: 0 <= k < |weeks| ==> weeks[k] == WeekAt(cfg, k + 1)
    {
      var sunday := monday + 6;
      if sunday > cfg.end {
        sunday := cfg.end;
      }
      weeks := weeks + [Week(weekNum, monday, sunday)];
      monday := monday + 7;
      if monday > cfg.end {
        break;
      }
      weekNum := weekNum + 1;
    }
  }

  /** The week list's shape: at most `weeks` entries; entry k is week k + 1,
      starting 7k days after the first day and ending on the earlier of its
      Sunday and the last day; every Monday is on or before the last day;
      weeks are disjoint and increasing, and an unclipped week is followed by
      the next day. */
  lemma WeekListShape(cfg: Config)
    ensures var weeks := WeekList(cfg);
      && |weeks| <= (if cfg.weeks < 0 then 0 else cfg.weeks)
      && (forall k :: 0 <= k < |weeks| ==> weeks[k].number == k + 1)
      && (forall k :: 0 <= k < |weeks| ==> weeks[k].start == cfg.start + 7 * k)
      && (forall k :: 0 <= k < |weeks| ==> weeks[k].end == Min(weeks[k].start + 6, cfg.end))
      && (cfg.start <= cfg.end ==> forall k :: 0 <= k < |weeks| ==> weeks[k].start <= cfg.end)
      && (forall i, j :: 0 <= i < j < |weeks| ==> weeks[i].end < weeks[j].start)
      && (forall k :: 0 < k < |weeks| && weeks[k - 1].end == weeks[k - 1].start + 6 ==>
            weeks[k - 1].end + 1 == weeks[k].start)
  {
  }

  /** Where a day lies relative to the competition. */
  datatype Phase = PreCompetition | InWeek(week: int) | PostCompetition

  /** The pair `get_current_competition_week` returns: a number, and the
      phase its label text ("Pre-Competition", "Week N", "Post-Competition")
      names. */
  datatype WeekStatus = WeekStatus(number: int, phase: Phase)

  /** `get_current_competition_week` for the day `today`. */
  function CurrentCompetitionWeek(cfg: Config, today: int): (r: WeekStatus)
    ensures r.phase == PreCompetition <==> today < cfg.start
    ensures r.phase == PreCompetition ==> r.number == 0
    ensures r.phase == PostCompetition ==> r.number == cfg.weeks + 1
    ensures r.phase == PostCompetition <==>
      today >= cfg.start && (today > cfg.end || (today - cfg.start) / 7 >= cfg.weeks)
    ensures r.phase.InWeek? ==>
      && r.number == r.phase.week
      && 1 <= r.number <= cfg.weeks
      && WeekAt(cfg, r.number).start <= today <= WeekAt(cfg, r.number).end
  {
    if today < cfg.start then WeekStatus(0, PreCompetition)
    else if today > cfg.end then WeekStatus(cfg.weeks + 1, PostCompetition)
    else
      var daysSinceStart := today - cfg.start;
      var currentWeek := daysSinceStart / 7 + 1;
      if currentWeek > cfg.weeks then WeekStatus(cfg.weeks + 1, PostCompetition)
      else WeekStatus(currentWeek, InWeek(currentWeek))
  }

  /** The current week is exactly the listed week that contains `today`. */
  lemma CurrentWeekIsListedWeek(cfg: Config, today: int, k: int)
    ensures CurrentCompetitionWeek(cfg, today).phase == InWeek(k) <==>
      && 1 <= k <= WeekCount(cfg)
      && WeekAt(cfg, k).start <= today <= WeekAt(cfg, k).end
  {
    var w := WeekAt(cfg, k);
    if 1 <= k <= WeekCount(cfg) && w.start <= today <= w.end {
      assert 7 * (k - 1) <= today - cfg.start < 7 * k;
      assert (today - cfg.start) / 7 == k - 1;
    }
    var r := CurrentCompetitionWeek(cfg, today);
    if r.phase == InWeek(k) {
      assert w.start <= cfg.end;
    }
  }

  /** `get_current_competition_week_dates`: the Monday and Sunday of the
      competition week containing `today` when it lies within the competition,
      otherwise of the calendar week containing it. */
  function CurrentWeekBounds(cfg: Config, today: int): (r: (int, int))
    ensures r.0 <= today <= r.1
    ensures today < cfg.start || today > cfg.end ==>
      Weekday(r.0) == 0 && r.1 == r.0 + 6
    ensures cfg.start <= today <= cfg.end ==>
      && (r.0 - cfg.start) % 7 == 0
      && today < r.0 + 7
      && r.1 == Min(r.0 + 6, cfg.end)
  {
    if today < cfg.start || today > cfg.end then
      var monday := today - Weekday(today);
      (monday, monday + 6)
    else
      var currentWeekNum := (today - cfg.start) / 7;
      var monday := cfg.start + currentWeekNum * 7;
      var sunday := monday + 6;
      (monday, if sunday > cfg.end then cfg.end else sunday)
  }

  /** Within the competition, the bounds are those of the current listed week. */
  lemma BoundsMatchCurrentWeek(cfg: Config, today: int)
    requires CurrentCompetitionWeek(cfg, today).phase.InWeek?
    ensures var w := WeekAt(cfg, CurrentCompetitionWeek(cfg, today).number);
      CurrentWeekBounds(cfg, today) == (w.start, w.end)
  {
  }

  /** When the first day is a Monday, every bound's start is a Monday. */
  lemma {:induction false} BoundsStartOnMonday(cfg: Config, today: int)
    requires Weekday(cfg.start) == 0
    ensures Weekday(CurrentWeekBounds(cfg, today).0) == 0
  {
    var monday := CurrentWeekBounds(cfg, today).0;
    if cfg.start <= today <= cfg.end {
      var q := (monday - cfg.start) / 7;
      assert monday == cfg.start + 7 * q;
      assert (cfg.start + 7 * q - 1) % 7 == (cfg.start - 1) % 7;
    }
  }

  /** With the shipped dates, the first day is a Monday, all eight weeks are
      listed, no Sunday is clipped (so the clipping at app.py lines 34-35 and
      86-87 never changes a value), the last Sunday is the last day, and no
      day inside the competition is past week eight (the check at lines 62-63
      never fires). */
  lemma ShippedCalendar(today: int)
    ensures Weekday(Shipped.start) == 0
    ensures WeekCount(Shipped) == 8
    ensures forall k :: 1 <= k <= 8 ==> WeekAt(Shipped, k).end == WeekAt(Shipped, k).start + 6
    ensures WeekAt(Shipped, 8).end == Shipped.end
    ensures Shipped.start <= today <= Shipped.end ==>
      CurrentCompetitionWeek(Shipped, today).phase.InWeek?
  {
  }
}
