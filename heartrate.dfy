/** The post-fetch part of `fetch_heart_rate_zones_by_date`: flattening the
    joined activity and athlete into columns, dropping rows without an
    athlete or of sport type Tennis, and keeping the first row per activity. */
module HeartRateZones {
  import opened Records
  import opened Seqs
  import Normalize

  /** A row as it stands after the new columns are initialised to null. */
  function Unjoined(row: RawHrRow): (r: HrRecord)
    ensures r.activityId == row.activityId && r.zones == row.zones
    ensures r.athleteId.None? && r.athleteName.None? && r.date.None?
    ensures r.activityName == Null && r.sportType == Null
  {
    HrRecord(row.activityId, None, None, Null, None, Null, row.zones)
  }

  /** The athlete column written from a joined athlete: "first last", stripped. */
  function HrAthleteName(a: Option<AthleteNames>): (r: Option<string>)
    ensures r.Some? <==> a.Some?
    ensures r.Some? && r.value != [] ==> !Normalize.IsSpace(r.value[0]) && !Normalize.IsSpace(r.value[|r.value| - 1])
    ensures r.Some? ==> |r.value| <= |a.value.firstName| + |a.value.lastName| + 1
  {
    match a
    case Some(n) => Some(Normalize.Strip(n.firstName + " " + n.lastName))
    case None => None
  }

  /** The athlete column is `"first last"` with `str.strip()` applied: one
      slice of it, with only whitespace around the slice. */
  lemma HrAthleteNameIsStripped(a: Option<AthleteNames>)
    requires a.Some?
    ensures var full := a.value.firstName + " " + a.value.lastName;
      exists i, j :: && 0 <= i <= j <= |full| && HrAthleteName(a).value == full[i..j]
                     && (forall k :: 0 <= k < i ==> Normalize.IsSpace(full[k]))
                     && (forall k :: j <= k < |full| ==> Normalize.IsSpace(full[k]))
  {
    Normalize.StripIsSlice(a.value.firstName + " " + a.value.lastName);
  }

  /** The values the loop writes into a row whose joined activity is present. */
  function Joined(row: RawHrRow): (r: HrRecord)
    requires row.activity.Some?
    ensures r.activityId == row.activityId && r.zones == row.zones
    ensures r.date == Some(row.activity.value.date)
    ensures r.athleteId == row.activity.value.athleteId
    ensures r.athleteName == HrAthleteName(row.activity.value.athlete)
    ensures r.activityName == Normalize.CleanActivityName(row.activity.value.name)
    ensures r.sportType == row.activity.value.sportType
  {
    var act := row.activity.value;
    HrRecord(
      row.activityId,
      act.athleteId,
      HrAthleteName(act.athlete),
      Normalize.CleanActivityName(act.name),
      Some(act.date),
      act.sportType,
      row.zones)
  }

  /** The flattened form of one row. */
  function FlattenRow(row: RawHrRow): (r: HrRecord)
    ensures r.activityId == row.activityId && r.zones == row.zones
    ensures r.athleteName.Some? <==> row.activity.Some? && row.activity.value.athlete.Some?
    ensures r.date.Some? <==> row.activity.Some?
    ensures row.activity.None? ==> r.sportType == Null && r.activityName == Null
    ensures row.activity.Some? ==> r.sportType == row.activity.value.sportType
    ensures row.activity.Some? ==> && r.date == Some(row.activity.value.date)
                                   && r.athleteId == row.activity.value.athleteId
                                   && r.activityName == Normalize.CleanActivityName(row.activity.value.name)
                                   && r.athleteName == HrAthleteName(row.activity.value.athlete)
    ensures row.activity.None? ==> r.athleteId.None?
  {
    if row.activity.Some? then Joined(row) else Unjoined(row)
  }

  /** The flattening loop: every row's new columns start out null, and rows
      with a joined activity have them written in place. */
  method FlattenHeartRateZones(rows: seq<RawHrRow>) returns (flat: seq<HrRecord>)
    ensures |flat| == |rows|
    ensures forall i :: 0 <= i < |rows| ==> flat[i] == FlattenRow(rows[i])
  {
    var table := new HrRecord[|rows|](i requires 0 <= i < |rows| => Unjoined(rows[i]));
    for idx := 0 to |rows|
      invariant forall i :: 0 <= i < idx ==> table[i] == FlattenRow(rows[i])
      invariant forall i :: idx <= i < |rows| ==> table[i] == Unjoined(rows[i])
    {
      if rows[idx].activity.Some? {
        table[idx] := Joined(rows[idx]);
      }
    }
    flat := table[..];
  }

  /** Rows that survive the two filters: an athlete name is present and the
      raw (uncleaned) sport type is not "Tennis". */
  predicate Competing(r: HrRecord)
  {
    r.athleteName.Some? && r.sportType != Str("Tennis")
  }

  /** The filters and the keep-first deduplication by activity id. */
  function CleanHeartRateZones(flat: seq<HrRecord>): (r: seq<HrRecord>)
    ensures |r| <= |flat|
    ensures forall x :: x in r ==> x in flat && Competing(x)
  {
    DedupBy(Filter(flat, Competing), ActivityIdOf)
  }

  /** The cleanup keeps the input order, leaves no row without an athlete or
      of sport type Tennis, leaves each activity id at most once, and keeps,
      for each activity id of a competing row, that id's first competing row. */
  lemma {:induction false} CleanHeartRateZonesSound(flat: seq<HrRecord>)
    ensures IsSubsequence(CleanHeartRateZones(flat), flat)
    ensures forall x :: x in CleanHeartRateZones(flat) ==> x.athleteName.Some? && x.sportType != Str("Tennis")
    ensures DistinctKeys(CleanHeartRateZones(flat), ActivityIdOf)
    ensures KeysOf(CleanHeartRateZones(flat), ActivityIdOf) == KeysOf(Filter(flat, Competing), ActivityIdOf)
    ensures forall j :: 0 <= j < |Filter(flat, Competing)| && FirstOccurrence(Filter(flat, Competing), ActivityIdOf, j) ==>
      Filter(flat, Competing)[j] in CleanHeartRateZones(flat)
  {
    var kept := Filter(flat, Competing);
    FilterIsSubsequence(flat, Competing);
    DedupByIsSubsequence(kept, ActivityIdOf);
    SubsequenceTransitive(CleanHeartRateZones(flat), kept, flat);
    DedupByDistinct(kept, ActivityIdOf);
    DedupByKeys(kept, ActivityIdOf);
    forall j | 0 <= j < |kept| && FirstOccurrence(kept, ActivityIdOf, j)
      ensures kept[j] in CleanHeartRateZones(flat)
    {
      DedupByKeepsFirst(kept, ActivityIdOf, j);
    }
  }

  /** Cleaning twice is cleaning once. */
  lemma CleanHeartRateZonesIdempotent(flat: seq<HrRecord>)
    ensures CleanHeartRateZones(CleanHeartRateZones(flat)) == CleanHeartRateZones(flat)
  {
    var once := CleanHeartRateZones(flat);
    assert Filter(once, Competing) == once by {
      FilterAll(once, Competing);
    }
    DedupByDistinct(Filter(flat, Competing), ActivityIdOf);
    DedupByDistinctIsIdentity(once, ActivityIdOf);
  }
}
