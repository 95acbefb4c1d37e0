/** Record normalisation: unwrapping the `root=` serialisation artefacts the
    store leaves in text cells, the sport-type and activity-name mappings,
    the Peloton/Bike split by elevation, and the exclusion of Tennis. */
module Normalize {
  import opened Records
  import Seqs

  predicate StartsWith(s: string, prefix: string)
  {
    |prefix| <= |s| && s[..|prefix|] == prefix
  }

  predicate EndsWith(s: string, suffix: string)
  {
    |suffix| <= |s| && s[|s| - |suffix|..] == suffix
  }

  /** Python's `s[i:j]` for bounds within the string: empty when `i >= j`. */
  function Slice(s: string, i: nat, j: nat): (r: string)
    requires j <= |s|
    ensures |r| == if i < j then j - i else 0
  {
    if i < j then s[i..j] else []
  }

  /** Strips a `root='…'`, `root="…"` or bare `root=` wrapper, as
      `clean_field` and `clean_sport_type` do before their mapping. */
  function Unwrap(s: string): (r: string)
    ensures !StartsWith(s, "root=") ==> r == s
    ensures StartsWith(s, "root=") ==> |r| <= |s| - 5
  {
    assert |s| >= 6 ==> s[..5] == s[..6][..5];
    if StartsWith(s, "root='") && EndsWith(s, "'") then Slice(s, 6, |s| - 1)
    else if StartsWith(s, "root=\"") && EndsWith(s, "\"") then Slice(s, 6, |s| - 1)
    else if StartsWith(s, "root=") then
      var cleaned := s[5..];
      if StartsWith(cleaned, "'") && EndsWith(cleaned, "'") then Slice(cleaned, 1, |cleaned| - 1)
      else if StartsWith(cleaned, "\"") && EndsWith(cleaned, "\"") then Slice(cleaned, 1, |cleaned| - 1)
      else cleaned
    else s
  }

  /** `y` begins and ends with the quote character `q` (a single `q` counts). */
  predicate QuotedBy(y: string, q: char)
  {
    |y| >= 1 && y[0] == q && y[|y| - 1] == q
  }

  /** `root=` followed by `y`: a quoted `y` loses its quotes, any other `y` is
      returned as it is. */
  lemma UnwrapForms(y: string)
    ensures Unwrap("root=" + y) ==
      if QuotedBy(y, '\'') || QuotedBy(y, '"') then Slice(y, 1, |y| - 1) else y
  {
    if QuotedBy(y, '\'') || QuotedBy(y, '"') {
      QuotedForm(y);
    } else {
      UnquotedForm(y);
    }
  }

  lemma QuotedForm(y: string)
    requires QuotedBy(y, '\'') || QuotedBy(y, '"')
    ensures Unwrap("root=" + y) == Slice(y, 1, |y| - 1)
  {
    var s := "root=" + y;
    assert s[..6] == "root=" + [y[0]];
    assert s[|s| - 1..] == [y[|y| - 1]];
    assert Slice(s, 6, |s| - 1) == Slice(y, 1, |y| - 1);
  }

  lemma UnquotedForm(y: string)
    requires !QuotedBy(y, '\'') && !QuotedBy(y, '"')
    ensures Unwrap("root=" + y) == y
  {
    var s := "root=" + y;
    assert s[..5] == "root=";
    assert s[5..] == y;
    if |y| >= 1 {
      assert s[..6] == "root=" + [y[0]];
      assert s[|s| - 1..] == [y[|y| - 1]];
    }
  }

  /** The quote stripping nested under the bare `root=` branch never changes
      the value: reaching it means the string did not both start with
      `root='` and end with `'` (nor likewise with `"`), so what follows
      `root=` cannot begin and end with the same quote. */
  lemma UnwrapNestedStripIsDead(s: string)
    requires StartsWith(s, "root=")
    requires !(StartsWith(s, "root='") && EndsWith(s, "'"))
    requires !(StartsWith(s, "root=\"") && EndsWith(s, "\""))
    ensures !QuotedBy(s[5..], '\'') && !QuotedBy(s[5..], '"')
    ensures Unwrap(s) == s[5..]
  {
    var y := s[5..];
    assert s == "root=" + y;
    UnwrapForms(y);
  }

  /** `root='X'` and `root="X"` both unwrap to X. */
  lemma UnwrapQuoted(x: string)
    ensures Unwrap("root='" + x + "'") == x
    ensures Unwrap("root=\"" + x + "\"") == x
  {
    UnwrapSingleQuoted(x);
    UnwrapDoubleQuoted(x);
  }

  lemma UnwrapSingleQuoted(x: string)
    ensures Unwrap("root='" + x + "'") == x
  {
    UnwrapQuotedBy(x, '\'');
    assert "root='" + x + "'" == "root=" + ("'" + x + "'");
  }

  lemma UnwrapDoubleQuoted(x: string)
    ensures Unwrap("root=\"" + x + "\"") == x
  {
    UnwrapQuotedBy(x, '"');
    assert "root=\"" + x + "\"" == "root=" + ("\"" + x + "\"");
  }

  lemma UnwrapQuotedBy(x: string, q: char)
    requires q == '\'' || q == '"'
    ensures Unwrap("root=" + ([q] + x + [q])) == x
  {
    var y := [q] + x + [q];
    UnwrapForms(y);
    assert QuotedBy(y, q);
    assert y[1..|y| - 1] == x;
  }

  /** The sport-type mapping: exactly "Ride" changes, to "Peloton" (the
      source's "Run" branch returns "Run" unchanged). */
  function MapSportType(c: string): (r: string)
    ensures r != c <==> c == "Ride"
    ensures c == "Ride" ==> r == "Peloton"
  {
    if c == "Ride" then "Peloton"
    else if c == "Run" then "Run"
    else c
  }

  /** `clean_field` in app.py, identical to `clean_sport_type` in
      fix_activities.py: unwrap, then map. Non-strings pass through. */
  function CleanField(v: Value): (r: Value)
    ensures !v.Str? ==> r == v
    ensures r.Str? <==> v.Str?
    ensures v.Str? && !StartsWith(v.s, "root=") ==> r == Str(MapSportType(v.s))
    ensures v.Str? && !StartsWith(v.s, "root=") && v.s != "Ride" ==> r == v
    ensures r != Str("Ride")
  {
    match v
    case Str(s) => Str(MapSportType(Unwrap(s)))
    case _ => v
  }

  /** The three wrapper forms unwrap to their content, then the Ride rule applies. */
  lemma CleanFieldWrapped(x: string, y: string)
    requires !QuotedBy(y, '\'') && !QuotedBy(y, '"')
    ensures CleanField(Str("root='" + x + "'")) == Str(MapSportType(x))
    ensures CleanField(Str("root=\"" + x + "\"")) == Str(MapSportType(x))
    ensures CleanField(Str("root=" + y)) == Str(MapSportType(y))
    ensures CleanField(Str("root='")) == Str("") && CleanField(Str("root=\"")) == Str("")
  {
    UnwrapQuoted(x);
    UnwrapForms(y);
    UnwrapLoneQuote();
  }

  /** A lone quote after `root=` counts as quoted and unwraps to nothing. */
  lemma UnwrapLoneQuote()
    ensures Unwrap("root='") == "" && Unwrap("root=\"") == ""
  {
    UnwrapForms("'");
    UnwrapForms("\"");
    assert "root=" + "'" == "root='" && "root=" + "\"" == "root=\"";
  }

  /** The activity-name mapping inside the heart-rate-zone flattening. */
  function MapActivityName(c: string): (r: string)
    ensures r != c <==> c == "Ride" || c == "Run"
    ensures c == "Ride" ==> r == "Peloton"
    ensures c == "Run" ==> r == "Treadmill"
  {
    if c == "Ride" then "Peloton"
    else if c == "Run" then "Treadmill"
    else c
  }

  /** The second, narrower cleaner applied to the joined activity's name:
      it knows only `root='…'` and a bare `root=`, maps only wrapped values,
      and turns "Run" into "Treadmill". */
  function CleanActivityName(v: Value): (r: Value)
    ensures !v.Str? ==> r == v
    ensures v.Str? && !StartsWith(v.s, "root=") ==> r == v
  {
    match v
    case Str(s) =>
      if StartsWith(s, "root='") && EndsWith(s, "'") then Str(MapActivityName(Slice(s, 6, |s| - 1)))
      else if StartsWith(s, "root=") then Str(MapActivityName(s[5..]))
      else v
    case _ => v
  }

  /** What the name cleaner does with each wrapper: `root='X'` is unwrapped
      and mapped, `root="X"` keeps its double quotes (so it is never mapped),
      and any other `root=Y` is mapped as Y. */
  lemma CleanActivityNameForms(x: string, y: string)
    requires !QuotedBy(y, '\'')
    ensures CleanActivityName(Str("root='" + x + "'")) == Str(MapActivityName(x))
    ensures CleanActivityName(Str("root=\"" + x + "\"")) == Str("\"" + x + "\"")
    ensures CleanActivityName(Str("root=" + y)) == Str(MapActivityName(y))
    ensures CleanActivityName(Str("root='")) == Str("")
  {
    NameFormSingle(x);
    NameFormDouble(x);
    NameFormBare(y);
  }

  lemma NameFormSingle(x: string)
    ensures CleanActivityName(Str("root='" + x + "'")) == Str(MapActivityName(x))
  {
    var s := "root='" + x + "'";
    assert s[..6] == "root='";
    assert s[|s| - 1..] == "'";
    assert Slice(s, 6, |s| - 1) == x;
  }

  lemma NameFormDouble(x: string)
    ensures CleanActivityName(Str("root=\"" + x + "\"")) == Str("\"" + x + "\"")
  {
    var s := "root=\"" + x + "\"";
    assert s[..5] == "root=" && s[..6] == "root=\"";
    assert s[5..] == "\"" + x + "\"";
  }

  lemma NameFormBare(y: string)
    requires !QuotedBy(y, '\'')
    ensures CleanActivityName(Str("root=" + y)) == Str(MapActivityName(y))
  {
    var s := "root=" + y;
    assert s[..5] == "root=";
    assert s[5..] == y;
    if |y| >= 1 {
      assert s[..6] == "root=" + [y[0]];
      assert s[|s| - 1..] == [y[|y| - 1]];
    }
  }

  /** The two cleaners disagree: a double-quoted "Ride" and a wrapped "Run". */
  lemma CleanersDiffer()
    ensures CleanField(Str("root=\"Ride\"")) == Str("Peloton")
    ensures CleanActivityName(Str("root=\"Ride\"")) == Str("\"Ride\"")
    ensures CleanField(Str("root='Run'")) == Str("Run")
    ensures CleanActivityName(Str("root='Run'")) == Str("Treadmill")
  {
    DoubleQuotedRide();
    SingleQuotedRun();
  }

  lemma DoubleQuotedRide()
    ensures CleanField(Str("root=\"Ride\"")) == Str("Peloton")
    ensures CleanActivityName(Str("root=\"Ride\"")) == Str("\"Ride\"")
  {
    assert "root=\"Ride\"" == "root=" + (['"'] + "Ride" + ['"']) == "root=\"" + "Ride" + "\"";
    UnwrapQuotedBy("Ride", '"');
    NameFormDouble("Ride");
  }

  lemma SingleQuotedRun()
    ensures CleanField(Str("root='Run'")) == Str("Run")
    ensures CleanActivityName(Str("root='Run'")) == Str("Treadmill")
  {
    assert "root='Run'" == "root=" + (['\''] + "Run" + ['\'']) == "root='" + "Run" + "'";
    UnwrapQuotedBy("Run", '\'');
    NameFormSingle("Run");
  }

  /** Characters Python's `str.isspace()` accepts, which `str.strip()` removes. */
  predicate IsSpace(c: char)
  {
    || ('\t' <= c <= '\r') || ('\U{1C}' <= c <= ' ')
    || c == '\U{85}' || c == '\U{A0}' || c == '\U{1680}'
    || ('\U{2000}' <= c <= '\U{200A}') || c == '\U{2028}' || c == '\U{2029}'
    || c == '\U{202F}' || c == '\U{205F}' || c == '\U{3000}'
  }

  /** Drops the leading characters that satisfy `p`. */
  function DropLeading(s: string, p: char -> bool): (r: string)
    ensures |r| <= |s| && r == s[|s| - |r|..]
    ensures r != [] ==> !p(r[0])
    ensures forall i :: 0 <= i < |s| - |r| ==> p(s[i])
  {
    if s != [] && p(s[0]) then DropLeading(s[1..], p) else s
  }

  /** Drops the trailing characters that satisfy `p`. */
  function DropTrailing(s: string, p: char -> bool): (r: string)
    ensures |r| <= |s| && r == s[..|r|]
    ensures r != [] ==> !p(r[|r| - 1])
    ensures forall i :: |r| <= i < |s| ==> p(s[i])
  {
    if s != [] && p(s[|s| - 1]) then DropTrailing(s[..|s| - 1], p) else s
  }

  function StripLeft(s: string): (r: string)
    ensures |r| <= |s| && r == s[|s| - |r|..]
    ensures r != [] ==> !IsSpace(r[0])
    ensures forall i :: 0 <= i < |s| - |r| ==> IsSpace(s[i])
  {
    DropLeading(s, IsSpace)
  }

  function StripRight(s: string): (r: string)
    ensures |r| <= |s| && r == s[..|r|]
    ensures r != [] ==> !IsSpace(r[|r| - 1])
    ensures forall i :: |r| <= i < |s| ==> IsSpace(s[i])
  {
    DropTrailing(s, IsSpace)
  }

  /** `str.strip()`: drops leading and trailing whitespace. */
  function Strip(s: string): (r: string)
    ensures r != [] ==> !IsSpace(r[0]) && !IsSpace(r[|r| - 1])
    ensures |r| <= |s|
  {
    StripRight(StripLeft(s))
  }

  /** What `Strip` keeps is one slice of its input, and everything around
      that slice is whitespace. */
  lemma StripIsSlice(s: string)
    ensures exists i, j :: && 0 <= i <= j <= |s| && Strip(s) == s[i..j]
                           && (forall k :: 0 <= k < i ==> IsSpace(s[k]))
                           && (forall k :: j <= k < |s| ==> IsSpace(s[k]))
  {
    var left := StripLeft(s);
    SliceOfSuffix(s, |s| - |left|, StripRight(left), IsSpace);
  }

  /** A prefix `r` of the suffix `s[i..]`, with only `p` characters before
      and after it, is the slice `s[i..i + |r|]`. */
  lemma SliceOfSuffix(s: string, i: nat, r: string, p: char -> bool)
    requires i <= |s| && |r| <= |s| - i && r == s[i..][..|r|]
    requires forall k :: 0 <= k < i ==> p(s[k])
    requires forall k :: |r| <= k < |s| - i ==> p(s[i..][k])
    ensures exists i', j :: && 0 <= i' <= j <= |s| && r == s[i'..j]
                            && (forall k :: 0 <= k < i' ==> p(s[k]))
                            && (forall k :: j <= k < |s| ==> p(s[k]))
  {
    var j := i + |r|;
    assert r == s[i..j];
    forall k | j <= k < |s| ensures p(s[k]) {
      assert s[k] == s[i..][k - i];
    }
  }

  /** The activity row's athlete column: "first last", or "Unknown" when the
      join found no athlete. */
  function ActivityAthleteName(a: Option<AthleteNames>): (r: string)
    ensures r == "Unknown" <==> a.None?
    ensures a.Some? ==> ' ' in r && |r| == |a.value.firstName| + |a.value.lastName| + 1
    ensures a.Some? ==> && r[..|a.value.firstName|] == a.value.firstName
                        && r[|a.value.firstName|] == ' '
                        && r[|a.value.firstName| + 1..] == a.value.lastName
  {
    match a
    case Some(n) =>
      var r := n.firstName + " " + n.lastName;
      assert r[|n.firstName|] == ' ';
      assert ' ' !in "Unknown";
      r
    case None => "Unknown"
  }

  /** Elevation gain strictly positive; a null never is. */
  predicate HasElevation(e: Option<real>)
  {
    e.Some? && e.value > 0.0
  }

  /** A "Peloton" with elevation gain was ridden outdoors: it becomes "Bike". */
  function Reclassify(sport: Value, elevation: Option<real>): (r: Value)
    ensures r != sport <==> sport == Str("Peloton") && HasElevation(elevation)
    ensures r != sport ==> r == Str("Bike")
  {
    if sport == Str("Peloton") && HasElevation(elevation) then Str("Bike") else sport
  }

  function NormalizeActivity(raw: RawActivity): (a: Activity)
    ensures a.id == raw.id && a.date == raw.date
    ensures a.distance == raw.distance && a.elevationGain == raw.elevationGain
    ensures !(a.sportType == Str("Peloton") && HasElevation(a.elevationGain))
    ensures a.sportType == Reclassify(CleanField(raw.sportType), raw.elevationGain)
    ensures a.name == CleanField(raw.name)
    ensures a.athleteName == ActivityAthleteName(raw.athlete)
  {
    Activity(
      raw.id,
      ActivityAthleteName(raw.athlete),
      CleanField(raw.name),
      Reclassify(CleanField(raw.sportType), raw.elevationGain),
      raw.date,
      raw.distance,
      raw.elevationGain)
  }

  predicate NotTennis(a: Activity)
  {
    a.sportType != Str("Tennis")
  }

  /** The post-fetch part of `fetch_activities_by_date_range`. */
  function NormalizeActivities(raw: seq<RawActivity>): (r: seq<Activity>)
    ensures |r| <= |raw|
    ensures forall a :: a in r ==> a.sportType != Str("Tennis")
    ensures forall a :: a in r ==> !(a.sportType == Str("Peloton") && HasElevation(a.elevationGain))
    ensures forall a :: a in r ==> a.sportType != Str("Ride")
    ensures forall a :: a in r ==> exists x :: x in raw && a == NormalizeActivity(x)
    ensures forall x :: x in raw && NormalizeActivity(x).sportType != Str("Tennis") ==>
      NormalizeActivity(x) in r
  {
    var mapped := seq(|raw|, i requires 0 <= i < |raw| => NormalizeActivity(raw[i]));
    MappedContainsEach(raw, mapped);
    Seqs.Filter(mapped, NotTennis)
  }

  lemma MappedContainsEach(raw: seq<RawActivity>, mapped: seq<Activity>)
    requires |mapped| == |raw|
    requires forall i :: 0 <= i < |raw| ==> mapped[i] == NormalizeActivity(raw[i])
    ensures forall x :: x in raw ==> NormalizeActivity(x) in mapped
    ensures forall a :: a in mapped ==> exists x :: x in raw && a == NormalizeActivity(x)
  {
    forall x | x in raw ensures NormalizeActivity(x) in mapped {
      var i :| 0 <= i < |raw| && raw[i] == x;
      assert mapped[i] == NormalizeActivity(x);
    }
  }

  /** A "Ride" with 120 m of climbing becomes "Bike"; with none it stays "Peloton". */
  lemma ElevationExamples(id: int, day: int)
    ensures NormalizeActivity(RawActivity(id, None, Null, Str("Ride"), day, None, Some(120.0))).sportType == Str("Bike")
    ensures NormalizeActivity(RawActivity(id, None, Null, Str("Ride"), day, None, Some(0.0))).sportType == Str("Peloton")
  {
  }
}
