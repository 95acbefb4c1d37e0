/** `calculate_hr_zone_points`: zone-weighted points per record, summed and
    counted per athlete, ranked by total. A record's points are its weighted
    seconds divided by 60; weighted seconds are kept as an exact integer. */
module Scoring {
  import opened Records
  import opened Seqs

  /** A zone time with null read as 0 (`fillna(0)`). */
  function Seconds(z: Option<int>): int
  {
    if z.Some? then z.value else 0
  }

  /** Σ i · zone_i seconds for i = 1..5. */
  function WeightedSeconds(z: Zones): (r: int)
    ensures var t := Seconds(z.z1) + Seconds(z.z2) + Seconds(z.z3) + Seconds(z.z4) + Seconds(z.z5);
      Seconds(z.z1) >= 0 && Seconds(z.z2) >= 0 && Seconds(z.z3) >= 0 && Seconds(z.z4) >= 0 && Seconds(z.z5) >= 0 ==>
        t <= r <= 5 * t
  {
    1 * Seconds(z.z1) + 2 * Seconds(z.z2) + 3 * Seconds(z.z3) + 4 * Seconds(z.z4) + 5 * Seconds(z.z5)
  }

  /** A record's zone points: Σ i · (zone_i seconds / 60). */
  function Points(z: Zones): (r: real)
    ensures r * 60.0 == WeightedSeconds(z) as real
  {
    WeightedSeconds(z) as real / 60.0
  }

  /** Every zone time multiplied by `c` (nulls stay null). */
  function ScaleZones(z: Zones, c: int): Zones
  {
    var sc := (t: Option<int>) => if t.Some? then Some(c * t.value) else None;
    Zones(sc(z.z1), sc(z.z2), sc(z.z3), sc(z.z4), sc(z.z5))
  }

  /** Scoring is linear: scaling every zone time by `c` scales the points by `c`. */
  lemma ScaleZonesScalesPoints(z: Zones, c: int)
    ensures WeightedSeconds(ScaleZones(z, c)) == c * WeightedSeconds(z)
    ensures Points(ScaleZones(z, c)) == c as real * Points(z)
  {
    ScaledWeighted(z, c);
    ScaledPoints(z, ScaleZones(z, c), c);
  }

  lemma ScaledWeighted(z: Zones, c: int)
    ensures WeightedSeconds(ScaleZones(z, c)) == c * WeightedSeconds(z)
  {
    var a, b, d, e, f := Seconds(z.z1), Seconds(z.z2), Seconds(z.z3), Seconds(z.z4), Seconds(z.z5);
    var z' := ScaleZones(z, c);
    assert Seconds(z'.z1) == c * a && Seconds(z'.z2) == c * b && Seconds(z'.z3) == c * d;
    assert Seconds(z'.z4) == c * e && Seconds(z'.z5) == c * f;
    Distribute(c, a, b, d, e, f);
  }

  lemma ScaledPoints(z: Zones, z': Zones, c: int)
    requires WeightedSeconds(z') == c * WeightedSeconds(z)
    ensures Points(z') == c as real * Points(z)
  {
    var w, w' := WeightedSeconds(z), WeightedSeconds(z');
    assert w' as real == c as real * w as real;
    assert Points(z') == w' as real / 60.0 && Points(z) == w as real / 60.0;
  }

  lemma Distribute(c: int, a: int, b: int, d: int, e: int, f: int)
    ensures c * (1 * a + 2 * b + 3 * d + 4 * e + 5 * f) == 1 * (c * a) + 2 * (c * b) + 3 * (c * d) + 4 * (c * e) + 5 * (c * f)
  {
  }

  /** A record with no time in any zone (zero or null) scores nothing. */
  lemma ZeroZonesScoreZero(z: Zones)
    requires Seconds(z.z1) == 0 && Seconds(z.z2) == 0 && Seconds(z.z3) == 0
    requires Seconds(z.z4) == 0 && Seconds(z.z5) == 0
    ensures Points(z) == 0.0
  {
  }

  /** 600 seconds in zone 1 and nothing elsewhere is 10 minutes × 1 = 10 points. */
  lemma TenMinutesInZoneOne()
    ensures Points(Zones(Some(600), Some(0), Some(0), Some(0), Some(0))) == 10.0
    ensures Points(Zones(Some(600), None, None, None, None)) == 10.0
  {
  }

  /** One row of the ranking: athlete, total weighted seconds, the rounded
      points column the ranking is sorted on, and the number of records counted. */
  datatype AthletePoints = AthletePoints(athlete: string, weightedSeconds: int, points: int, activityCount: nat)

  predicate Named(r: HrRecord)
  {
    r.athleteName.Some?
  }

  /** The records that are scored: those with an athlete name, first row per activity id. */
  function ScoredRecords(rows: seq<HrRecord>): (r: seq<HrRecord>)
    ensures forall x :: x in r ==> x in rows && x.athleteName.Some?
    ensures DistinctKeys(r, ActivityIdOf)
    ensures KeysOf(r, ActivityIdOf) == KeysOf(Filter(rows, Named), ActivityIdOf)
  {
    DedupByDistinct(Filter(rows, Named), ActivityIdOf);
    DedupByKeys(Filter(rows, Named), ActivityIdOf);
    DedupBy(Filter(rows, Named), ActivityIdOf)
  }

  /** Keep-first deduplication of the named rows: the scored records keep
      input order, and the first named row of every activity id is kept. */
  lemma ScoredRecordsKeepFirst(rows: seq<HrRecord>)
    ensures IsSubsequence(ScoredRecords(rows), rows)
    ensures var named := Filter(rows, Named);
      forall j :: 0 <= j < |named| && FirstOccurrence(named, ActivityIdOf, j) ==> named[j] in ScoredRecords(rows)
  {
    var named := Filter(rows, Named);
    FilterIsSubsequence(rows, Named);
    DedupByIsSubsequence(named, ActivityIdOf);
    SubsequenceTransitive(ScoredRecords(rows), named, rows);
    forall j | 0 <= j < |named| && FirstOccurrence(named, ActivityIdOf, j)
      ensures named[j] in ScoredRecords(rows)
    {
      DedupByKeepsFirst(named, ActivityIdOf, j);
    }
  }

  /** One athlete's records. */
  function RecordsOf(rows: seq<HrRecord>, name: string): (r: seq<HrRecord>)
    ensures forall x :: x in r ==> x in rows && x.athleteName == Some(name)
    ensures forall x :: x in rows && x.athleteName == Some(name) ==> x in r
  {
    Filter(rows, (x: HrRecord) => x.athleteName == Some(name))
  }

  function TotalWeighted(rows: seq<HrRecord>): int
  {
    Sum(rows, (x: HrRecord) => WeightedSeconds(x.zones))
  }

  /** The athlete names of the named rows, in row order (with repeats). */
  function NamesOf(rows: seq<HrRecord>): (r: seq<string>)
    ensures forall n :: n in r ==> exists x :: x in rows && x.athleteName == Some(n)
    ensures forall x :: x in rows && x.athleteName.Some? ==> x.athleteName.value in r
    decreases |rows|
  {
    if rows == [] then []
    else
      var last := rows[|rows| - 1];
      assert rows == rows[..|rows| - 1] + [last];
      NamesOf(rows[..|rows| - 1]) + (if last.athleteName.Some? then [last.athleteName.value] else [])
  }

  function Identity(n: string): string
  {
    n
  }

  /** The grouped totals, one row per name in `names`. */
  function Tally(rows: seq<HrRecord>, names: seq<string>): (r: seq<AthletePoints>)
    ensures |r| == |names|
    ensures forall i :: 0 <= i < |r| ==> r[i].athlete == names[i]
    ensures forall i :: 0 <= i < |r| ==> r[i].points == RoundedPoints(r[i].weightedSeconds)
  {
    seq(|names|, i requires 0 <= i < |names| =>
      var total := TotalWeighted(RecordsOf(rows, names[i]));
      AthletePoints(names[i], total, RoundedPoints(total), |RecordsOf(rows, names[i])|))
  }

  /** `round(0)` of `w / 60` points: to the nearest integer, an exact half to
      the even neighbour (as numpy rounds). */
  function RoundedPoints(w: int): (n: int)
    ensures 60 * n - 30 <= w <= 60 * n + 30
    ensures w - 60 * n == 30 ==> n % 2 == 0
    ensures w - 60 * n == -30 ==> n % 2 == 0
  {
    var q, rem := w / 60, w % 60;
    if rem < 30 then q
    else if rem > 30 then q + 1
    else if q % 2 == 0 then q
    else q + 1
  }

  /** Rounding keeps the order of totals (ties may appear, never inversions). */
  lemma RoundedPointsMonotone(v: int, w: int)
    requires v <= w
    ensures RoundedPoints(v) <= RoundedPoints(w)
  {
    var m, n := RoundedPoints(v), RoundedPoints(w);
    if m > n {
      assert false;
    }
  }

  /** 6012 and 6024 weighted seconds (100.2 and 100.4 points) both show, and
      rank, as 100; 6030 (100.5) rounds to the even 100 and 6090 (101.5) to 102. */
  lemma RoundingExamples()
    ensures RoundedPoints(6012) == 100 && RoundedPoints(6024) == 100
    ensures RoundedPoints(6030) == 100 && RoundedPoints(6090) == 102
  {
  }

  predicate NonIncreasing(s: seq<AthletePoints>)
  {
    forall i, j :: 0 <= i < j < |s| ==> s[i].points >= s[j].points
  }

  function AthleteKey(p: AthletePoints): string
  {
    p.athlete
  }

  /** Inserts `p` before the first row with fewer rounded points. */
  function InsertByPoints(p: AthletePoints, s: seq<AthletePoints>): (r: seq<AthletePoints>)
    ensures |r| == |s| + 1
    ensures multiset(r) == multiset(s) + multiset{p}
    ensures forall x :: x in r <==> x == p || x in s
    decreases |s|
  {
    if s == [] then [p]
    else if p.points >= s[0].points then [p] + s
    else
      var rest := InsertByPoints(p, s[1..]);
      assert s == [s[0]] + s[1..];
      [s[0]] + rest
  }

  /** Inserting into a ranked sequence keeps it ranked. */
  lemma {:induction false} InsertKeepsOrder(p: AthletePoints, s: seq<AthletePoints>)
    requires NonIncreasing(s)
    ensures NonIncreasing(InsertByPoints(p, s))
    decreases |s|
  {
    if s != [] && p.points < s[0].points {
      InsertKeepsOrder(p, s[1..]);
      var rest := InsertByPoints(p, s[1..]);
      var r := [s[0]] + rest;
      assert r == InsertByPoints(p, s);
      forall j | 0 < j < |r| ensures s[0].points >= r[j].points {
        assert r[j] in rest;
        if r[j] != p {
          var k :| 0 <= k < |s[1..]| && s[1..][k] == r[j];
          assert s[k + 1] == r[j];
        }
      }
      forall i, j | 0 <= i < j < |r| ensures r[i].points >= r[j].points {
        if i > 0 {
          assert r[i] == rest[i - 1] && r[j] == rest[j - 1];
        }
      }
    }
  }

  /** Ranks the rows by rounded total, highest first (ties in no particular order). */
  function SortByPoints(s: seq<AthletePoints>): (r: seq<AthletePoints>)
    ensures NonIncreasing(r)
    ensures |r| == |s|
    ensures multiset(r) == multiset(s)
    ensures forall x :: x in r <==> x in s
    decreases |s|
  {
    if s == [] then []
    else
      var rest := SortByPoints(s[1..]);
      assert s == [s[0]] + s[1..];
      InsertKeepsOrder(s[0], rest);
      InsertByPoints(s[0], rest)
  }

  /** Inserting a row whose athlete is new keeps the athletes distinct. */
  lemma {:induction false} InsertKeepsDistinct(p: AthletePoints, s: seq<AthletePoints>)
    requires DistinctKeys(s, AthleteKey)
    requires forall x :: x in s ==> x.athlete != p.athlete
    ensures DistinctKeys(InsertByPoints(p, s), AthleteKey)
    decreases |s|
  {
    if s != [] && p.points < s[0].points {
      InsertKeepsDistinct(p, s[1..]);
      var r := InsertByPoints(p, s);
      var rest := InsertByPoints(p, s[1..]);
      assert r == [s[0]] + rest;
      forall i, j | 0 <= i < j < |r| ensures r[i].athlete != r[j].athlete {
        if i == 0 {
          assert r[j] in rest;
          if r[j] != p {
            var k :| 0 <= k < |s[1..]| && s[1..][k] == r[j];
            assert s[k + 1] == r[j];
          }
        } else {
          assert r[i] == rest[i - 1] && r[j] == rest[j - 1];
        }
      }
    }
  }

  /** Ranking keeps the athletes distinct. */
  lemma {:induction false} SortKeepsDistinct(s: seq<AthletePoints>)
    requires DistinctKeys(s, AthleteKey)
    ensures DistinctKeys(SortByPoints(s), AthleteKey)
    decreases |s|
  {
    if s != [] {
      assert DistinctKeys(s[1..], AthleteKey);
      SortKeepsDistinct(s[1..]);
      var rest := SortByPoints(s[1..]);
      forall x | x in rest ensures x.athlete != s[0].athlete {
        var k :| 0 <= k < |s[1..]| && s[1..][k] == x;
        assert s[k + 1] == x;
      }
      InsertKeepsDistinct(s[0], rest);
    }
  }

  /** `calculate_hr_zone_points`: the named rows, first row per activity id,
      grouped by athlete, ranked by total points. */
  function CalculateHrZonePoints(rows: seq<HrRecord>): (r: seq<AthletePoints>)
    ensures NonIncreasing(r)
    ensures forall p :: p in r ==> exists x :: x in rows && x.athleteName == Some(p.athlete)
  {
    var scored := ScoredRecords(rows);
    var names := DedupBy(NamesOf(scored), Identity);
    TallyHasRows(rows, scored, names);
    SortByPoints(Tally(scored, names))
  }

  /** A tally over names of named rows of `rows` only tallies athletes with a row. */
  lemma TallyHasRows(rows: seq<HrRecord>, scored: seq<HrRecord>, names: seq<string>)
    requires forall x :: x in scored ==> x in rows
    requires forall n :: n in names ==> n in NamesOf(scored)
    ensures forall p :: p in Tally(scored, names) ==> exists x :: x in rows && x.athleteName == Some(p.athlete)
  {
    var t := Tally(scored, names);
    forall p | p in t ensures exists x :: x in rows && x.athleteName == Some(p.athlete) {
      var i :| 0 <= i < |t| && t[i] == p;
      assert names[i] in NamesOf(scored);
    }
  }

  /** No rows, no ranking. */
  lemma NoRowsNoRanking()
    ensures CalculateHrZonePoints([]) == []
  {
    assert ScoredRecords([]) == [];
    assert NamesOf([]) == [];
    assert DedupBy(NamesOf([]), Identity) == [];
  }

  function AthletesOf(ps: seq<AthletePoints>): set<string>
  {
    set p | p in ps :: p.athlete
  }

  function NamesIn(rows: seq<HrRecord>): set<string>
  {
    set x | x in rows && x.athleteName.Some? :: x.athleteName.value
  }

  /** The ranking is in non-increasing order of total and lists no athlete twice. */
  lemma RankingOrderedAndDistinct(rows: seq<HrRecord>)
    ensures NonIncreasing(CalculateHrZonePoints(rows))
    ensures DistinctKeys(CalculateHrZonePoints(rows), AthleteKey)
  {
    var scored := ScoredRecords(rows);
    var names := DedupBy(NamesOf(scored), Identity);
    DedupByDistinct(NamesOf(scored), Identity);
    SortKeepsDistinct(Tally(scored, names));
  }

  /** Ranking a tally lists exactly the tallied names. */
  lemma RankedNames(scored: seq<HrRecord>, names: seq<string>)
    ensures AthletesOf(SortByPoints(Tally(scored, names))) == set n | n in names
  {
    var t := Tally(scored, names);
    var r := SortByPoints(t);
    forall n ensures n in AthletesOf(r) <==> n in names {
      if n in names {
        var i :| 0 <= i < |names| && names[i] == n;
        assert t[i] in r;
      }
      if n in AthletesOf(r) {
        var p :| p in r && p.athlete == n;
        var i :| 0 <= i < |t| && t[i] == p;
      }
    }
  }

  /** The deduplicated names of the scored records are their athletes. */
  lemma ScoredNames(scored: seq<HrRecord>)
    ensures (set n | n in DedupBy(NamesOf(scored), Identity)) == NamesIn(scored)
  {
    var names := DedupBy(NamesOf(scored), Identity);
    DedupByKeys(NamesOf(scored), Identity);
    forall n ensures n in names <==> n in NamesIn(scored) {
      if n in NamesIn(scored) {
        assert n in NamesOf(scored);
        assert Identity(n) in KeysOf(NamesOf(scored), Identity);
        var m :| m in names && Identity(m) == n;
      }
      if n in names {
        assert Identity(n) in KeysOf(names, Identity);
        var m :| m in NamesOf(scored) && Identity(m) == n;
      }
    }
  }

  /** The ranking lists exactly the athletes of the scored records. */
  lemma RankingAthletes(rows: seq<HrRecord>)
    ensures AthletesOf(CalculateHrZonePoints(rows)) == NamesIn(ScoredRecords(rows))
  {
    var scored := ScoredRecords(rows);
    RankedNames(scored, DedupBy(NamesOf(scored), Identity));
    ScoredNames(scored);
  }

  /** Each ranking row holds the sum of its athlete's weighted seconds and the
      number of its athlete's scored records. */
  lemma RankingTotals(rows: seq<HrRecord>, p: AthletePoints)
    requires p in CalculateHrZonePoints(rows)
    ensures p.weightedSeconds == TotalWeighted(RecordsOf(ScoredRecords(rows), p.athlete))
    ensures p.activityCount == |RecordsOf(ScoredRecords(rows), p.athlete)|
    ensures p.points == RoundedPoints(p.weightedSeconds)
  {
    var scored := ScoredRecords(rows);
    var names := DedupBy(NamesOf(scored), Identity);
    var t := Tally(scored, names);
    assert p in t;
    var i :| 0 <= i < |t| && t[i] == p;
  }

  /** Rows with the same activity id carry the same athlete name (as they do
      when they come from one joined activity). */
  predicate NamesAgreeOnIds(rows: seq<HrRecord>)
  {
    forall i, j :: 0 <= i < |rows| && 0 <= j < |rows| && rows[i].activityId == rows[j].activityId ==>
      rows[i].athleteName == rows[j].athleteName
  }

  /** When rows of one activity agree on the athlete, dropping repeated
      activity ids loses no athlete: the scored athletes are all named athletes. */
  lemma ScoredAthletes(rows: seq<HrRecord>)
    requires NamesAgreeOnIds(rows)
    ensures NamesIn(ScoredRecords(rows)) == NamesIn(rows)
  {
    var named := Filter(rows, Named);
    var scored := ScoredRecords(rows);
    DedupByKeys(named, ActivityIdOf);
    forall n ensures n in NamesIn(scored) <==> n in NamesIn(rows) {
      if n in NamesIn(rows) {
        var x :| x in rows && x.athleteName == Some(n);
        assert x in named;
        assert ActivityIdOf(x) in KeysOf(named, ActivityIdOf);
        var y :| y in scored && ActivityIdOf(y) == x.activityId;
        var i :| 0 <= i < |rows| && rows[i] == x;
        var j :| 0 <= j < |rows| && rows[j] == y;
        assert y.athleteName == Some(n);
      }
      if n in NamesIn(scored) {
        var y :| y in scored && y.athleteName == Some(n);
        assert y in rows;
      }
    }
  }

  /** The ranking lists each athlete of the scored records exactly once, with
      the sum of their records' weighted seconds and the number of their
      records, in non-increasing order of total. */
  lemma CalculateHrZonePointsSpec(rows: seq<HrRecord>)
    ensures var r := CalculateHrZonePoints(rows);
      && NonIncreasing(r)
      && DistinctKeys(r, AthleteKey)
      && AthletesOf(r) == NamesIn(ScoredRecords(rows))
      && forall p :: p in r ==>
           && p.weightedSeconds == TotalWeighted(RecordsOf(ScoredRecords(rows), p.athlete))
           && p.activityCount == |RecordsOf(ScoredRecords(rows), p.athlete)|
           && p.points == RoundedPoints(p.weightedSeconds)
  {
    RankingOrderedAndDistinct(rows);
    RankingAthletes(rows);
    forall p | p in CalculateHrZonePoints(rows)
      ensures p.weightedSeconds == TotalWeighted(RecordsOf(ScoredRecords(rows), p.athlete))
      ensures p.activityCount == |RecordsOf(ScoredRecords(rows), p.athlete)|
      ensures p.points == RoundedPoints(p.weightedSeconds)
    {
      RankingTotals(rows, p);
    }
  }

  /** Every zone time of every record multiplied by `c`. */
  function ScaleRecords(rows: seq<HrRecord>, c: int): (r: seq<HrRecord>)
    ensures |r| == |rows|
    ensures forall i :: 0 <= i < |rows| ==> r[i] == rows[i].(zones := ScaleZones(rows[i].zones, c))
  {
    seq(|rows|, i requires 0 <= i < |rows| => rows[i].(zones := ScaleZones(rows[i].zones, c)))
  }

  /** Scaling every zone time by `c` scales a total by `c`. */
  lemma {:induction false} TotalScales(rows: seq<HrRecord>, c: int)
    ensures TotalWeighted(ScaleRecords(rows, c)) == c * TotalWeighted(rows)
    decreases |rows|
  {
    if rows != [] {
      var init := rows[..|rows| - 1];
      var scaled := ScaleRecords(rows, c);
      assert scaled[..|scaled| - 1] == ScaleRecords(init, c);
      TotalScales(init, c);
      ScaleZonesScalesPoints(rows[|rows| - 1].zones, c);
      var t, w := TotalWeighted(init), WeightedSeconds(rows[|rows| - 1].zones);
      assert TotalWeighted(rows) == t + w;
      assert TotalWeighted(scaled) == TotalWeighted(ScaleRecords(init, c)) + WeightedSeconds(scaled[|scaled| - 1].zones);
      MulAdd(c, t, w);
    }
  }

  lemma MulAdd(c: int, t: int, w: int)
    ensures c * (t + w) == c * t + c * w
  {
  }

  /** Selecting one athlete's records commutes with scaling. */
  lemma {:induction false} RecordsOfScaled(rows: seq<HrRecord>, name: string, c: int)
    ensures RecordsOf(ScaleRecords(rows, c), name) == ScaleRecords(RecordsOf(rows, name), c)
    decreases |rows|
  {
    if rows != [] {
      var n := |rows| - 1;
      var scaled := ScaleRecords(rows, c);
      ScaleRecordsSnoc(rows, c);
      RecordsOfScaled(rows[..n], name, c);
      RecordsOfSnoc(rows, name);
      RecordsOfSnoc(scaled, name);
      ScaleRecordsAppend(RecordsOf(rows[..n], name), if rows[n].athleteName == Some(name) then [rows[n]] else [], c);
    }
  }

  lemma ScaleRecordsSnoc(rows: seq<HrRecord>, c: int)
    requires rows != []
    ensures ScaleRecords(rows, c)[..|rows| - 1] == ScaleRecords(rows[..|rows| - 1], c)
    ensures ScaleRecords(rows, c)[|rows| - 1].athleteName == rows[|rows| - 1].athleteName
  {
  }

  lemma RecordsOfSnoc(rows: seq<HrRecord>, name: string)
    requires rows != []
    ensures RecordsOf(rows, name) == RecordsOf(rows[..|rows| - 1], name) +
      if rows[|rows| - 1].athleteName == Some(name) then [rows[|rows| - 1]] else []
  {
  }

  lemma ScaleRecordsAppend(a: seq<HrRecord>, b: seq<HrRecord>, c: int)
    ensures ScaleRecords(a + b, c) == ScaleRecords(a, c) + ScaleRecords(b, c)
  {
  }

  /** Scaling every zone time by `c` scales every athlete's total by `c`. */
  lemma AthleteTotalScales(rows: seq<HrRecord>, name: string, c: int)
    ensures TotalWeighted(RecordsOf(ScaleRecords(rows, c), name)) == c * TotalWeighted(RecordsOf(rows, name))
  {
    RecordsOfScaled(rows, name, c);
    TotalScales(RecordsOf(rows, name), c);
  }
}
