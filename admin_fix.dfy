/** The admin script `fix_activities.py`: find the activities whose cleaned
    sport type is "Peloton", split them by elevation gain, and after a typed
    confirmation ask the store to set every one with elevation to "Bike",
    counting the writes that succeed and those that fail. The store is an
    oracle giving the outcome of the write for an activity id. */
module AdminFix {
  import opened Records
  import opened Seqs
  import Normalize

  /** An `activities` row as far as the script reads it. */
  datatype StoreRow = StoreRow(id: int, name: Value, sportType: Value, elevationGain: Option<real>)

  /** How one write ends: data came back, an empty response came back, or
      the call raised. */
  datatype WriteOutcome = Updated | EmptyResponse | Raised

  /** A write the script asks the store for: set `sport_type` of the rows
      with this id. */
  datatype Write = Write(id: int, sportType: string)

  /** How the script ends. */
  datatype FixResult =
    | NoActivities
    | NoPelotonActivities
    | NothingToReclassify
    | Cancelled
    | Completed(updated: nat, failed: nat)

  /** The cleaned sport type is "Peloton" (raw "Ride" and the wrapped forms included). */
  predicate IsPeloton(r: StoreRow)
    ensures r.sportType == Str("Ride") || r.sportType == Str("Peloton") ==> IsPeloton(r)
    ensures IsPeloton(r) ==> r.sportType.Str?
    ensures r.sportType.Str? && !Normalize.StartsWith(r.sportType.s, "root=") ==>
      (IsPeloton(r) <==> r.sportType == Str("Ride") || r.sportType == Str("Peloton"))
  {
    assert "Peloton"[..5][0] != "root="[0];
    Normalize.CleanField(r.sportType) == Str("Peloton")
  }

  /** Elevation gain, null read as 0, is positive. */
  predicate Elevated(r: StoreRow)
  {
    Normalize.HasElevation(r.elevationGain)
  }

  predicate NotElevated(r: StoreRow)
  {
    !Elevated(r)
  }

  /** The activities whose cleaned sport type is "Peloton", in store order. */
  function PelotonRows(rows: seq<StoreRow>): (r: seq<StoreRow>)
    ensures forall x :: x in r <==> x in rows && IsPeloton(x)
    ensures IsSubsequence(r, rows)
  {
    FilterIsSubsequence(rows, IsPeloton);
    Filter(rows, IsPeloton)
  }

  /** The Peloton activities with elevation gain: these get reclassified. */
  function WithElevation(peloton: seq<StoreRow>): (r: seq<StoreRow>)
    ensures forall x :: x in r <==> x in peloton && Elevated(x)
    ensures IsSubsequence(r, peloton)
  {
    FilterIsSubsequence(peloton, Elevated);
    Filter(peloton, Elevated)
  }

  /** The Peloton activities without elevation gain: these are left alone. */
  function WithoutElevation(peloton: seq<StoreRow>): (r: seq<StoreRow>)
    ensures forall x :: x in r <==> x in peloton && !Elevated(x)
    ensures IsSubsequence(r, peloton)
  {
    FilterIsSubsequence(peloton, NotElevated);
    Filter(peloton, NotElevated)
  }

  /** The two parts split the Peloton rows by elevation: a row is in exactly
      one of them when it is a Peloton row and in neither otherwise, and
      their sizes add up to the number of Peloton rows. */
  lemma ElevationPartition(rows: seq<StoreRow>, r: StoreRow)
    requires r in rows
    ensures r in WithElevation(PelotonRows(rows)) <==> IsPeloton(r) && Elevated(r)
    ensures r in WithoutElevation(PelotonRows(rows)) <==> IsPeloton(r) && !Elevated(r)
    ensures !(r in WithElevation(PelotonRows(rows)) && r in WithoutElevation(PelotonRows(rows)))
    ensures |WithElevation(PelotonRows(rows))| + |WithoutElevation(PelotonRows(rows))| == |PelotonRows(rows)|
  {
    FilterComplement(PelotonRows(rows), Elevated, NotElevated);
  }

  /** Python's `str.lower()` on ASCII letters. */
  function Lower(s: string): (r: string)
    ensures |r| == |s|
    ensures forall i :: 0 <= i < |s| ==> r[i] == if 'A' <= s[i] <= 'Z' then (s[i] as int + 32) as char else s[i]
  {
    seq(|s|, i requires 0 <= i < |s| => if 'A' <= s[i] <= 'Z' then (s[i] as int + 32) as char else s[i])
  }

  /** The confirmation prompt accepts exactly "y" and "Y". */
  lemma ConfirmationAnswers(answer: string)
    ensures Lower(answer) == "y" <==> answer == "y" || answer == "Y"
  {
    if Lower(answer) == "y" {
      assert |answer| == 1;
      assert answer[0] == 'y' || answer[0] == 'Y';
      assert answer == [answer[0]];
    }
  }

  /** The writes asked for: each with-elevation row's id, set to "Bike", in order. */
  function BikeWrites(targets: seq<StoreRow>): (ws: seq<Write>)
    ensures |ws| == |targets|
    ensures forall i :: 0 <= i < |targets| ==> ws[i] == Write(targets[i].id, "Bike")
  {
    seq(|targets|, i requires 0 <= i < |targets| => Write(targets[i].id, "Bike"))
  }

  /** How many of the writes for `targets` the store reports as done. */
  function Succeeded(targets: seq<StoreRow>, store: int -> WriteOutcome): (n: nat)
    ensures n <= |targets|
    decreases |targets|
  {
    if targets == [] then 0
    else Succeeded(targets[..|targets| - 1], store) + (if store(targets[|targets| - 1].id) == Updated then 1 else 0)
  }

  /** The update loop: one write per target, in order; a write that returns
      no data or raises counts as failed and the loop goes on. */
  method UpdateLoop(targets: seq<StoreRow>, store: int -> WriteOutcome)
    returns (updated: nat, failed: nat, writes: seq<Write>)
    ensures writes == BikeWrites(targets)
    ensures updated == Succeeded(targets, store)
    ensures updated + failed == |targets|
  {
    updated, failed, writes := 0, 0, [];
    for i := 0 to |targets|
      invariant writes == BikeWrites(targets[..i])
      invariant updated == Succeeded(targets[..i], store)
      invariant updated + failed == i
    {
      writes := writes + [Write(targets[i].id, "Bike")];
      var outcome := store(targets[i].id);
      if outcome == Updated {
        updated := updated + 1;
      } else {
        failed := failed + 1;
      }
      assert targets[..i + 1][..i] == targets[..i];
    }
    assert targets[..|targets|] == targets;
  }

  /** `main`: the early exits, the confirmation and the update loop. */
  method FixActivities(rows: seq<StoreRow>, answer: string, store: int -> WriteOutcome)
    returns (result: FixResult, writes: seq<Write>)
    ensures rows == [] <==> result == NoActivities
    ensures result == NoPelotonActivities <==> rows != [] && PelotonRows(rows) == []
    ensures result == NothingToReclassify <==>
      PelotonRows(rows) != [] && WithElevation(PelotonRows(rows)) == []
    ensures result == Cancelled <==>
      WithElevation(PelotonRows(rows)) != [] && Lower(answer) != "y"
    ensures result.Completed? <==> WithElevation(PelotonRows(rows)) != [] && Lower(answer) == "y"
    ensures writes == if result.Completed? then BikeWrites(WithElevation(PelotonRows(rows))) else []
    ensures result.Completed? ==>
      && result.updated == Succeeded(WithElevation(PelotonRows(rows)), store)
      && result.updated + result.failed == |WithElevation(PelotonRows(rows))|
  {
    writes := [];
    if rows == [] {
      return NoActivities, writes;
    }
    var peloton := PelotonRows(rows);
    if peloton == [] {
      return NoPelotonActivities, writes;
    }
    var withElevation := WithElevation(peloton);
    if withElevation == [] {
      return NothingToReclassify, writes;
    }
    if Lower(answer) != "y" {
      return Cancelled, writes;
    }
    var updated, failed;
    updated, failed, writes := UpdateLoop(withElevation, store);
    result := Completed(updated, failed);
  }

  /** Only with-elevation Peloton rows are written, only with "Bike", and
      nothing is written unless the answer confirms. */
  lemma OnlyElevatedPelotonWritten(rows: seq<StoreRow>, answer: string, store: int -> WriteOutcome, w: Write)
    requires w in (if WithElevation(PelotonRows(rows)) != [] && Lower(answer) == "y"
                   then BikeWrites(WithElevation(PelotonRows(rows))) else [])
    ensures answer == "y" || answer == "Y"
    ensures w.sportType == "Bike"
    ensures exists r :: r in rows && r.id == w.id && IsPeloton(r) && Elevated(r)
  {
    ConfirmationAnswers(answer);
    var targets := WithElevation(PelotonRows(rows));
    var i :| 0 <= i < |targets| && BikeWrites(targets)[i] == w;
    assert targets[i] in targets;
  }

  /** The table after the run: rows whose id had a write that succeeded have
      sport type "Bike". */
  function AfterFix(rows: seq<StoreRow>, targets: seq<StoreRow>, store: int -> WriteOutcome): (r: seq<StoreRow>)
    ensures |r| == |rows|
  {
    seq(|rows|, i requires 0 <= i < |rows| =>
      if exists t :: t in targets && t.id == rows[i].id && store(t.id) == Updated
      then rows[i].(sportType := Str("Bike"))
      else rows[i])
  }

  /** When every write succeeds, a second run finds nothing to reclassify:
      no Peloton row with elevation is left, and the Peloton rows without
      elevation are untouched (given unique ids, as in the `activities` table). */
  lemma FixIsComplete(rows: seq<StoreRow>)
    requires forall i, j :: 0 <= i < j < |rows| ==> rows[i].id != rows[j].id
    ensures var after := AfterFix(rows, WithElevation(PelotonRows(rows)), (id: int) => Updated);
      && WithElevation(PelotonRows(after)) == []
      && WithoutElevation(PelotonRows(after)) == WithoutElevation(PelotonRows(rows))
  {
    var targets := WithElevation(PelotonRows(rows));
    var store := (id: int) => Updated;
    var after := AfterFix(rows, targets, store);
    forall i | 0 <= i < |rows|
      ensures after[i] == Fixed(rows[i])
    {
      if IsPeloton(rows[i]) && Elevated(rows[i]) {
        assert rows[i] in targets;
      } else if exists t :: t in targets && t.id == rows[i].id && store(t.id) == Updated {
        var t :| t in targets && t.id == rows[i].id && store(t.id) == Updated;
        var j :| 0 <= j < |rows| && rows[j] == t;
        assert false;
      }
    }
    PelotonAfter(rows, after);
  }

  /** Filtering the rows after the fix: Peloton rows after it are the
      non-elevated Peloton rows before it. */
  lemma {:induction false} PelotonAfter(rows: seq<StoreRow>, after: seq<StoreRow>)
    requires |after| == |rows|
    requires forall i :: 0 <= i < |rows| ==> after[i] == Fixed(rows[i])
    ensures WithElevation(PelotonRows(after)) == []
    ensures WithoutElevation(PelotonRows(after)) == WithoutElevation(PelotonRows(rows))
    decreases |rows|
  {
    if rows != [] {
      var n := |rows| - 1;
      PelotonAfter(rows[..n], after[..n]);
      PartitionSnoc(rows, Elevated);
      PartitionSnoc(after, Elevated);
      PartitionSnoc(rows, NotElevated);
      PartitionSnoc(after, NotElevated);
      FixedRow(rows[n]);
    }
  }

  /** A row as a successful write leaves it. */
  function Fixed(r: StoreRow): StoreRow
  {
    if IsPeloton(r) && Elevated(r) then r.(sportType := Str("Bike")) else r
  }

  /** After a successful write a row is no elevated Peloton, and it is a
      non-elevated Peloton exactly when it was one before. */
  lemma FixedRow(r: StoreRow)
    ensures Filter(PelotonRows([Fixed(r)]), Elevated) == []
    ensures Filter(PelotonRows([Fixed(r)]), NotElevated) == Filter(PelotonRows([r]), NotElevated)
  {
    assert Normalize.CleanField(Str("Bike")) == Str("Bike");
  }

  /** Selecting Peloton rows and then by `q` splits at the last row. */
  lemma PartitionSnoc(rows: seq<StoreRow>, q: StoreRow -> bool)
    requires rows != []
    ensures Filter(PelotonRows(rows), q) ==
      Filter(PelotonRows(rows[..|rows| - 1]), q) + Filter(PelotonRows([rows[|rows| - 1]]), q)
  {
    var n := |rows| - 1;
    assert rows[..n] + [rows[n]] == rows;
    FilterAppend(rows[..n], [rows[n]], IsPeloton);
    FilterAppend(PelotonRows(rows[..n]), PelotonRows([rows[n]]), q);
  }
}
