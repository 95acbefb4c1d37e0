/** `calculate_athlete_streaks` and `get_streak_badge`: each athlete's
    current run of consecutive activity days, and the badge for a run length.
    `today` is a parameter; dates are day numbers. */
module Streaks {
  import opened Records
  import opened Seqs

  predicate StrictlyDecreasing(s: seq<int>)
  {
    forall i, j :: 0 <= i < j < |s| ==> s[i] > s[j]
  }

  /** Inserts `x` into a strictly decreasing sequence, unless it is already there. */
  function InsertDesc(x: int, s: seq<int>): (r: seq<int>)
    requires StrictlyDecreasing(s)
    ensures StrictlyDecreasing(r)
    ensures forall y :: y in r <==> y == x || y in s
    ensures |r| <= |s| + 1
    decreases |s|
  {
    if s == [] then [x]
    else if x > s[0] then [x] + s
    else if x == s[0] then s
    else
      var rest := InsertDesc(x, s[1..]);
      DescTail(s);
      DescCons(s[0], rest);
      [s[0]] + rest
  }

  lemma DescTail(s: seq<int>)
    requires StrictlyDecreasing(s) && s != []
    ensures StrictlyDecreasing(s[1..])
    ensures forall y :: y in s[1..] ==> y < s[0]
    ensures forall y :: y in s <==> y == s[0] || y in s[1..]
  {
    assert s == [s[0]] + s[1..];
  }

  lemma DescCons(h: int, s: seq<int>)
    requires StrictlyDecreasing(s)
    requires forall y :: y in s ==> y < h
    ensures StrictlyDecreasing([h] + s)
    ensures forall y :: y in [h] + s <==> y == h || y in s
  {
    forall i, j | 0 <= i < j < |[h] + s| ensures ([h] + s)[i] > ([h] + s)[j] {
      if i == 0 {
        assert s[j - 1] in s;
      }
    }
  }

  /** `drop_duplicates().sort_values(ascending=False)` on a date column. */
  function DistinctDesc(dates: seq<int>): (r: seq<int>)
    ensures StrictlyDecreasing(r)
    ensures forall y :: y in r <==> y in dates
    ensures |r| <= |dates|
    decreases |dates|
  {
    if dates == [] then []
    else InsertDesc(dates[|dates| - 1], DistinctDesc(dates[..|dates| - 1]))
  }

  /** The latest date. */
  function MaxOf(s: seq<int>): (m: int)
    requires s != []
    ensures m in s
    ensures forall x :: x in s ==> x <= m
    decreases |s|
  {
    if |s| == 1 then s[0]
    else
      var m := MaxOf(s[1..]);
      assert forall x :: x in s ==> x == s[0] || x in s[1..];
      if s[0] > m then s[0] else m
  }

  function DaysOf(dates: seq<int>): set<int>
  {
    set d | d in dates
  }

  /** The number of consecutive days `d`, `d - 1`, `d - 2`, ... that are all in `days`. */
  function RunFrom(days: set<int>, d: int): nat
    decreases |days|
  {
    if d in days then 1 + RunFrom(days - {d}, d - 1) else 0
  }

  /** The streak: 0 without dates or when the latest date is more than one
      day before `today`, otherwise the run of consecutive days ending on the
      latest date. */
  function Streak(dates: seq<int>, today: int): (r: nat)
    ensures r <= |DaysOf(dates)|
    ensures dates != [] && today - MaxOf(dates) <= 1 ==> r >= 1
  {
    if dates == [] then 0
    else
      var latest := MaxOf(dates);
      RunFromMeaning(DaysOf(dates), latest);
      if today - latest > 1 then 0 else RunFrom(DaysOf(dates), latest)
  }

  /** The run from `d` holds every day after `d - run` up to `d`, misses the
      day `d - run`, and is no longer than the number of days. */
  lemma {:induction false} RunFromMeaning(days: set<int>, d: int)
    ensures forall e :: d - RunFrom(days, d) < e <= d ==> e in days
    ensures d - RunFrom(days, d) !in days
    ensures RunFrom(days, d) <= |days|
    decreases |days|
  {
    if d in days {
      var rest := days - {d};
      RunFromMeaning(rest, d - 1);
      forall e | d - RunFrom(days, d) < e <= d ensures e in days {
        if e < d {
          assert e in rest;
        }
      }
    }
  }

  /** A run that holds the days after `d - n` up to `d` and misses `d - n` has length `n`. */
  lemma {:induction false} RunFromExact(days: set<int>, d: int, n: nat)
    requires forall e :: d - n < e <= d ==> e in days
    requires d - n !in days
    ensures RunFrom(days, d) == n
    decreases n
  {
    if n > 0 {
      assert d in days;
      RunFromExact(days - {d}, d - 1, n - 1);
    }
  }

  /** What the streak means: 0 exactly when there are no dates or the latest
      is more than a day before `today`; otherwise the latest date and the
      `streak - 1` days before it all have activities, the day before those
      has none, and the streak is at most the number of distinct dates. */
  lemma StreakMeaning(dates: seq<int>, today: int)
    ensures Streak(dates, today) == 0 <==> dates == [] || today - MaxOf(dates) > 1
    ensures Streak(dates, today) > 0 ==>
      && (forall e :: MaxOf(dates) - Streak(dates, today) < e <= MaxOf(dates) ==> e in dates)
      && MaxOf(dates) - Streak(dates, today) !in dates
    ensures Streak(dates, today) <= |DaysOf(dates)|
  {
    if dates != [] {
      var days := DaysOf(dates);
      RunFromMeaning(days, MaxOf(dates));
      assert MaxOf(dates) in days;
      forall e | MaxOf(dates) - Streak(dates, today) < e <= MaxOf(dates) && Streak(dates, today) > 0
        ensures e in dates
      {
        assert e in days;
      }
    }
  }

  /** The walk over strictly decreasing dates that stops at the first gap
      after `n` steps has counted the run from the first date. */
  lemma WalkCountsRun(desc: seq<int>, n: nat)
    requires StrictlyDecreasing(desc)
    requires 1 <= n <= |desc|
    requires forall k :: 0 <= k < n ==> desc[k] == desc[0] - k
    requires n == |desc| || desc[n] != desc[0] - n
    ensures RunFrom(DaysOf(desc), desc[0]) == n
  {
    var days := DaysOf(desc);
    forall e | desc[0] - n < e <= desc[0] ensures e in days {
      assert desc[desc[0] - e] == e;
    }
    forall j | 0 <= j < |desc| ensures desc[j] != desc[0] - n {
      if j > n {
        assert desc[j] < desc[n] < desc[n - 1];
      }
    }
    RunFromExact(days, desc[0], n);
  }

  /** The backward walk of `calculate_athlete_streaks` for one athlete's dates. */
  method CurrentStreak(dates: seq<int>, today: int) returns (streak: nat)
    ensures streak == Streak(dates, today)
  {
    var desc := DistinctDesc(dates);
    if desc == [] {
      return 0;
    }
    var latest := desc[0];
    assert latest == MaxOf(dates) by {
      assert MaxOf(dates) in desc;
      assert latest in dates;
    }
    if today - latest > 1 {
      return 0;
    }
    streak := 1;
    var expected := latest - 1;
    var i := 1;
    while i < |desc|
      invariant 1 <= i <= |desc|
      invariant streak == i && expected == latest - i
      invariant forall k :: 0 <= k < i ==> desc[k] == latest - k
    {
      if desc[i] == expected {
        streak := streak + 1;
        expected := expected - 1;
      } else {
        break;
      }
      i := i + 1;
    }
    WalkCountsRun(desc, streak);
    assert DaysOf(dates) == DaysOf(desc);
  }

  /** One athlete's activity dates, in row order. */
  function DatesOf(acts: seq<Activity>, name: string): (r: seq<int>)
    ensures forall d :: d in r <==> exists a :: a in acts && a.athleteName == name && a.date == d
    decreases |acts|
  {
    if acts == [] then []
    else
      var init := acts[..|acts| - 1];
      var last := acts[|acts| - 1];
      assert forall a :: a in acts <==> a in init || a == last;
      DatesOf(init, name) + (if last.athleteName == name then [last.date] else [])
  }

  /** `calculate_athlete_streaks`: one entry per athlete with an activity. */
  method AthleteStreaks(acts: seq<Activity>, today: int) returns (streaks: map<string, nat>)
    ensures streaks.Keys == set a | a in acts :: a.athleteName
    ensures forall n :: n in streaks ==> streaks[n] == Streak(DatesOf(acts, n), today)
  {
    streaks := map[];
    for i := 0 to |acts|
      invariant streaks.Keys == set j | 0 <= j < i :: acts[j].athleteName
      invariant forall n :: n in streaks ==> streaks[n] == Streak(DatesOf(acts, n), today)
    {
      var athlete := acts[i].athleteName;
      if athlete !in streaks {
        var streak := CurrentStreak(DatesOf(acts, athlete), today);
        streaks := streaks[athlete := streak];
      }
    }
    forall a | a in acts ensures a.athleteName in streaks {
      var j :| 0 <= j < |acts| && acts[j] == a;
    }
  }

  /** Three cases: activity today and on the two days
      before is 3, a single activity three days ago is 0, a single activity
      yesterday is 1. */
  lemma StreakExamples(today: int)
    ensures Streak([today, today - 1, today - 2], today) == 3
    ensures Streak([today - 3], today) == 0
    ensures Streak([today - 1], today) == 1
  {
    var three := [today, today - 1, today - 2];
    assert MaxOf(three) == today by {
      assert today in three;
    }
    assert DaysOf(three) == {today, today - 1, today - 2};
    RunFromExact(DaysOf(three), today, 3);
    assert MaxOf([today - 1]) == today - 1;
    assert DaysOf([today - 1]) == {today - 1};
    RunFromExact(DaysOf([today - 1]), today - 1, 1);
  }

  /** A badge as `get_streak_badge` returns it. */
  datatype Badge = Badge(emoji: string, name: string, color: string)

  const NoBadge: Badge := Badge("", "", "#808080")
  const Star: Badge := Badge("\U{2B50}", "Star", "#32CD32")
  const Lightning: Badge := Badge("\U{26A1}", "Lightning", "#1E90FF")
  const Fire: Badge := Badge("\U{1F525}", "Fire", "#FF4500")
  const Legend: Badge := Badge("\U{1F3C6}", "Legend", "#FFD700")

  /** `get_streak_badge`: thresholds checked from the highest down. */
  function StreakBadge(days: int): (r: Badge)
    ensures r in BadgeTable
    ensures r == NoBadge <==> days < 3
    ensures r == Legend <==> days >= 30
  {
    if days >= 30 then Legend
    else if days >= 14 then Fire
    else if days >= 7 then Lightning
    else if days >= 3 then Star
    else NoBadge
  }

  /** The badge table, lowest first, and the thresholds that reach each entry. */
  const BadgeTable: seq<Badge> := [NoBadge, Star, Lightning, Fire, Legend]
  const Thresholds: seq<int> := [3, 7, 14, 30]

  /** How many thresholds `days` reaches. */
  function Reached(ts: seq<int>, days: int): (n: nat)
    ensures n <= |ts|
  {
    if ts == [] then 0 else (if days >= ts[0] then 1 else 0) + Reached(ts[1..], days)
  }

  /** The badge is the table entry at the number of thresholds reached. */
  lemma StreakBadgeByTable(days: int)
    ensures StreakBadge(days) == BadgeTable[Reached(Thresholds, days)]
  {
    assert [30][1..] == [];
    assert Reached([30], days) == if days >= 30 then 1 else 0;
    assert [14, 30][1..] == [30];
    assert Reached([14, 30], days) == (if days >= 14 then 1 else 0) + Reached([30], days);
    assert [7, 14, 30][1..] == [14, 30];
    assert Reached([7, 14, 30], days) == (if days >= 7 then 1 else 0) + Reached([14, 30], days);
    assert Thresholds[1..] == [7, 14, 30];
  }

  /** A longer streak never earns a lower badge, and distinct table entries
      are distinct badges. */
  lemma StreakBadgeMonotone(a: int, b: int)
    requires a <= b
    ensures Reached(Thresholds, a) <= Reached(Thresholds, b)
    ensures StreakBadge(a) == StreakBadge(b) <==> Reached(Thresholds, a) == Reached(Thresholds, b)
  {
    StreakBadgeByTable(a);
    StreakBadgeByTable(b);
    ReachedMonotone(Thresholds, a, b);
  }

  lemma {:induction false} ReachedMonotone(ts: seq<int>, a: int, b: int)
    requires a <= b
    ensures Reached(ts, a) <= Reached(ts, b)
    decreases |ts|
  {
    if ts != [] {
      ReachedMonotone(ts[1..], a, b);
    }
  }
}
