/** Loading the per-track telemetry: locating a CSV by name patterns, concatenating the
    tracks that loaded, and the null and outlier filtering of `validate_data`. Directory
    listings, file reads and the merges of weather, best-lap and results tables are outside
    the model; each track's loaded (and merged) sections table is an input. */
module DataLoader {
  import opened Wrappers
  import opened Seqs
  import opened Ranking
  import opened Frames

  /** Tracks loaded when the caller names none. */
  const DefaultTracks: seq<string> := ["barber", "indianapolis"]

  /** Lap times at or above this multiple of the median are outliers. */
  const OutlierFactor: real := 1.2

  // ---------------------------------------------------------------------------------------
  // File matching

  /** ASCII lower-casing of one character. */
  function LowerChar(c: char): (l: char)
    ensures 'A' <= c <= 'Z' ==> l as int == c as int + 32
    ensures !('A' <= c <= 'Z') ==> l == c
    ensures !('A' <= l <= 'Z')
  {
    if 'A' <= c <= 'Z' then (c as int + 32) as char else c
  }

  function Lower(s: string): (r: string)
    ensures |r| == |s| && forall i :: 0 <= i < |s| ==> r[i] == LowerChar(s[i])
  {
    seq(|s|, i requires 0 <= i < |s| => LowerChar(s[i]))
  }

  /** `needle` occurs in `hay` starting at position `i`. */
  predicate OccursAt(needle: string, hay: string, i: int) {
    0 <= i && i + |needle| <= |hay| && hay[i..i + |needle|] == needle
  }

  /** `needle` occurs in `hay` at some position at or after `start`. */
  ghost predicate OccursFrom(needle: string, hay: string, start: nat) {
    exists i :: start <= i && OccursAt(needle, hay, i)
  }

  /** Left-to-right substring search from `start`. */
  function SearchFrom(needle: string, hay: string, start: nat): (found: bool)
    ensures found <==> OccursFrom(needle, hay, start)
    decreases |hay| - start
  {
    if start + |needle| > |hay| then false
    else if hay[start..start + |needle|] == needle then
      assert OccursAt(needle, hay, start);
      true
    else
      var rest := SearchFrom(needle, hay, start + 1);
      assert OccursFrom(needle, hay, start) ==> OccursFrom(needle, hay, start + 1) by {
        if OccursFrom(needle, hay, start) {
          var i :| start <= i && OccursAt(needle, hay, i);
          assert i != start;
        }
      }
      rest
  }

  /** Python's `needle in hay` for strings. */
  function Contains(hay: string, needle: string): (b: bool)
    ensures b <==> exists i :: OccursAt(needle, hay, i)
  {
    SearchFrom(needle, hay, 0)
  }

  /** Every pattern, lower-cased, occurs in the lower-cased file name. */
  predicate MatchesAll(name: string, patterns: seq<string>) {
    forall k :: 0 <= k < |patterns| ==> Contains(Lower(name), Lower(patterns[k]))
  }

  /** The position of the first name in `listing` that matches every pattern. */
  function FirstMatch(listing: seq<string>, patterns: seq<string>): (r: Option<nat>)
    ensures r.None? <==> forall k :: 0 <= k < |listing| ==> !MatchesAll(listing[k], patterns)
    ensures r.Some? ==> r.value < |listing| && MatchesAll(listing[r.value], patterns)
    ensures r.Some? ==> forall k :: 0 <= k < r.value ==> !MatchesAll(listing[k], patterns)
  {
    if listing == [] then None
    else if MatchesAll(listing[0], patterns) then Some(0)
    else
      match FirstMatch(listing[1..], patterns)
      case None =>
        forall k | 0 <= k < |listing| ensures !MatchesAll(listing[k], patterns) {
          if k > 0 {
            assert listing[k] == listing[1..][k - 1];
          }
        }
        None
      case Some(k) =>
        forall j | 0 <= j <= k ensures !MatchesAll(listing[j], patterns) {
          if j > 0 {
            assert listing[j] == listing[1..][j - 1];
          }
        }
        assert listing[k + 1] == listing[1..][k];
        Some(k + 1)
  }

  /** `find_file`: the first name matching every pattern in the "*.CSV" listing, else the
      first in the "*.csv" listing, else nothing. */
  function FindFile(upperListing: seq<string>, lowerListing: seq<string>, patterns: seq<string>): (r: Option<string>)
    ensures r.Some? ==> MatchesAll(r.value, patterns)
    ensures r.None? <==>
      (forall k :: 0 <= k < |upperListing| ==> !MatchesAll(upperListing[k], patterns)) &&
      (forall k :: 0 <= k < |lowerListing| ==> !MatchesAll(lowerListing[k], patterns))
    ensures (exists k :: 0 <= k < |upperListing| && MatchesAll(upperListing[k], patterns)) ==>
      exists k :: (0 <= k < |upperListing| && r == Some(upperListing[k]) &&
        forall j :: 0 <= j < k ==> !MatchesAll(upperListing[j], patterns))
    ensures (forall k :: 0 <= k < |upperListing| ==> !MatchesAll(upperListing[k], patterns)) && r.Some? ==>
      exists k :: (0 <= k < |lowerListing| && r == Some(lowerListing[k]) &&
        forall j :: 0 <= j < k ==> !MatchesAll(lowerListing[j], patterns))
  {
    match FirstMatch(upperListing, patterns)
    case Some(k) => Some(upperListing[k])
    case None =>
      match FirstMatch(lowerListing, patterns)
      case Some(k) => Some(lowerListing[k])
      case None => None
  }

  // ---------------------------------------------------------------------------------------
  // Validation

  /** `cast(pl.Float64, strict=False)` of a LAP_TIME cell. */
  function CastLapTime(c: Cell): (v: Option<real>)
    ensures v.Some? <==> c.SecondsCell?
    ensures v.Some? ==> v.value == c.seconds
  {
    match c
    case SecondsCell(s) => Some(s)
    case _ => None
  }

  predicate HasNumber(row: Row) { row.number.Some? }
  predicate HasLapNumber(row: Row) { row.lapNumber.Some? }
  predicate HasLapTime(row: Row) { !row.lapTime.NullCell? }

  /** The row has every required field that its frame has a column for. */
  predicate HasRequired(cols: set<Column>, row: Row) {
    && (Number in cols ==> HasNumber(row))
    && (LapNumber in cols ==> HasLapNumber(row))
    && (LapTime in cols ==> HasLapTime(row))
  }

  /** `df.filter(p)` when `apply` holds, else `df` unchanged. */
  function FilterWhen(apply: bool, rows: seq<Row>, p: Row -> bool): (r: seq<Row>)
    ensures IsSubsequence(r, rows)
    ensures forall x :: x in r <==> x in rows && (apply ==> p(x))
    ensures forall x :: multiset(r)[x] == if apply ==> p(x) then multiset(rows)[x] else 0
  {
    if apply then Filter(rows, p)
    else
      SubsequenceReflexive(rows);
      rows
  }

  /** The three null filters of `validate_data`, one after the other: every row that has
      its required fields survives, with all its copies, and in order. */
  function DropMissingRequired(cols: set<Column>, rows: seq<Row>): (r: seq<Row>)
    ensures IsSubsequence(r, rows)
    ensures forall x :: x in r <==> x in rows && HasRequired(cols, x)
    ensures forall x :: multiset(r)[x] == if HasRequired(cols, x) then multiset(rows)[x] else 0
  {
    var a := FilterWhen(Number in cols, rows, HasNumber);
    var b := FilterWhen(LapNumber in cols, a, HasLapNumber);
    var c := FilterWhen(LapTime in cols, b, HasLapTime);
    SubsequenceTransitive(c, b, a);
    SubsequenceTransitive(c, a, rows);
    c
  }

  /** A row with lap_time_seconds set from its LAP_TIME cell. */
  function CastRow(row: Row): (r: Row)
    ensures r.lapTimeSeconds == CastLapTime(row.lapTime)
    ensures r.(lapTimeSeconds := row.lapTimeSeconds) == row
  {
    row.(lapTimeSeconds := CastLapTime(row.lapTime))
  }

  /** Every row with lap_time_seconds set from its LAP_TIME cell. */
  function Casts(rows: seq<Row>): (r: seq<Row>)
    ensures |r| == |rows| && forall i :: 0 <= i < |rows| ==> r[i] == CastRow(rows[i])
  {
    if rows == [] then [] else [CastRow(rows[0])] + Casts(rows[1..])
  }

  /** The rows with lap_time_seconds set from LAP_TIME, when the frame has LAP_TIME. */
  function WithLapSeconds(cols: set<Column>, rows: seq<Row>): (r: seq<Row>)
    ensures |r| == |rows|
    ensures LapTime in cols ==> forall i :: 0 <= i < |rows| ==> r[i] == CastRow(rows[i])
    ensures LapTime !in cols ==> r == rows
  {
    if LapTime in cols then Casts(rows) else rows
  }

  /** Casting LAP_TIME commutes with a filter that does not look at lap_time_seconds. */
  lemma {:induction false} CastsCommuteWithFilter(rows: seq<Row>, p: Row -> bool)
    requires forall x {:trigger CastRow(x)} :: p(CastRow(x)) == p(x)
    ensures Casts(Filter(rows, p)) == Filter(Casts(rows), p)
    decreases |rows|
  {
    if rows != [] {
      var tail := Filter(rows[1..], p);
      CastsCommuteWithFilter(rows[1..], p);
      var c := Casts(rows);
      assert c == [CastRow(rows[0])] + Casts(rows[1..]);
      assert c[1..] == Casts(rows[1..]);
      if p(rows[0]) {
        assert Filter(rows, p) == [rows[0]] + tail;
        assert ([rows[0]] + tail)[1..] == tail;
      }
    }
  }

  lemma CastCommutesWithFilter(cols: set<Column>, rows: seq<Row>, apply: bool, p: Row -> bool)
    requires forall x {:trigger CastRow(x)} :: p(CastRow(x)) == p(x)
    ensures WithLapSeconds(cols, FilterWhen(apply, rows, p)) == FilterWhen(apply, WithLapSeconds(cols, rows), p)
  {
    if apply && LapTime in cols {
      CastsCommuteWithFilter(rows, p);
    }
  }

  /** Dropping rows that miss a required field before or after the cast gives the same rows. */
  lemma CastCommutesWithDrop(cols: set<Column>, rows: seq<Row>)
    ensures WithLapSeconds(cols, DropMissingRequired(cols, rows)) == DropMissingRequired(cols, WithLapSeconds(cols, rows))
  {
    var a := FilterWhen(Number in cols, rows, HasNumber);
    var b := FilterWhen(LapNumber in cols, a, HasLapNumber);
    CastCommutesWithFilter(cols, rows, Number in cols, HasNumber);
    CastCommutesWithFilter(cols, a, LapNumber in cols, HasLapNumber);
    CastCommutesWithFilter(cols, b, LapTime in cols, HasLapTime);
  }

  /** The non-null values of a column, in order. */
  function NonNull(values: seq<Option<real>>): (xs: seq<real>)
    ensures forall x :: x in xs <==> Some(x) in values
    ensures |xs| <= |values|
    ensures xs == [] <==> forall v :: v in values ==> v.None?
    ensures forall x {:trigger multiset(xs)[x]} :: multiset(xs)[x] == multiset(values)[Some(x)]
  {
    if values == [] then []
    else
      var rest := NonNull(values[1..]);
      assert values == [values[0]] + values[1..];
      assert forall v :: v in values <==> v == values[0] || v in values[1..];
      NonNullStep(values[0], values[1..], rest);
      if values[0].Some? then [values[0].value] + rest else rest
  }

  /** Putting one cell in front of a column adds its value, if any, to the non-null values. */
  lemma NonNullStep(v: Option<real>, tail: seq<Option<real>>, rest: seq<real>)
    requires forall x :: multiset(rest)[x] == multiset(tail)[Some(x)]
    ensures var xs := if v.Some? then [v.value] + rest else rest;
      forall x :: multiset(xs)[x] == multiset([v] + tail)[Some(x)]
  {
    assert multiset([v] + tail) == multiset{v} + multiset(tail);
    if v.Some? {
      assert multiset([v.value] + rest) == multiset{v.value} + multiset(rest);
    }
  }

  /** `b` and `a` are the two middle order statistics of an even number of values. */
  predicate MiddlePair(xs: seq<real>, a: real, b: real) {
    |xs| >= 2 && OrderStatistic(xs, |xs| / 2 - 1, b) && OrderStatistic(xs, |xs| / 2, a)
  }

  /** The median of a non-empty list: at most half the values lie on either side of it. For
      an odd count it is the middle order statistic, for an even count the mean of the two
      middle ones. */
  function MedianOf(xs: seq<real>): (m: real)
    requires xs != []
    ensures |Below(xs, m)| <= |xs| / 2 && |Above(xs, m)| <= |xs| / 2
    ensures |xs| % 2 == 1 ==> OrderStatistic(xs, |xs| / 2, m)
    ensures |xs| % 2 == 0 ==> exists a, b :: MiddlePair(xs, a, b) && m == (a + b) / 2.0
  {
    var order := Rank(xs);
    var h := |xs| / 2;
    // Ranked largest first: position h holds the smaller middle value, h - 1 the larger.
    var b := xs[order[h]];
    if |xs| % 2 == 1 then
      assert OrderStatistic(xs, h, b) by {
        RankedOrderStatistic(xs, order, h);
      }
      b
    else
      var a := xs[order[h - 1]];
      assert MiddlePair(xs, a, b) && |Below(xs, (a + b) / 2.0)| <= h && |Above(xs, (a + b) / 2.0)| <= h by {
        RankedOrderStatistic(xs, order, h);
        RankedOrderStatistic(xs, order, h - 1);
        assert Before(xs, order[h - 1], order[h]);
        MeanOfMiddles(xs, h, a, b);
      }
      (a + b) / 2.0
  }

  /** Polars' `median()`: nulls ignored; null when there is no value; otherwise the median of
      the non-null values. */
  function Median(values: seq<Option<real>>): (m: Option<real>)
    ensures m.None? <==> forall v :: v in values ==> v.None?
    ensures m.Some? ==> var xs := NonNull(values);
      |Below(xs, m.value)| <= |xs| / 2 && |Above(xs, m.value)| <= |xs| / 2
    ensures m.Some? && |NonNull(values)| % 2 == 1 ==>
      OrderStatistic(NonNull(values), |NonNull(values)| / 2, m.value)
    ensures m.Some? && |NonNull(values)| % 2 == 0 ==>
      exists a, b :: MiddlePair(NonNull(values), a, b) && m.value == (a + b) / 2.0
  {
    var xs := NonNull(values);
    if xs == [] then None else Some(MedianOf(xs))
  }

  /** The median lap time the outlier filter compares with. */
  function ValidationMedian(f: Frame): Option<real> {
    var rows := WithLapSeconds(f.columns, DropMissingRequired(f.columns, f.rows));
    Median(LapTimes(rows))
  }

  /** The row's lap time is positive and below the outlier bound. */
  predicate WithinBound(row: Row, median: real) {
    row.lapTimeSeconds.Some? && 0.0 < row.lapTimeSeconds.value < median * OutlierFactor
  }

  /** The outlier filter applies only when there is a LAP_TIME column and its median is
      present and non-zero (Python truthiness of the median). */
  predicate OutlierFilterApplies(f: Frame) {
    LapTime in f.columns && ValidationMedian(f).Some? && ValidationMedian(f).value != 0.0
  }

  /** A cast row passes every filter of `validate_data`. */
  predicate Survives(f: Frame, x: Row) {
    HasRequired(f.columns, x) && (OutlierFilterApplies(f) ==> WithinBound(x, ValidationMedian(f).value))
  }

  /** The outlier bound as a filter condition. */
  function BoundCheck(median: real): Row -> bool {
    (x: Row) => WithinBound(x, median)
  }

  /** The rows `validate_data` keeps. */
  function ValidatedRows(f: Frame): (rows: seq<Row>)
    ensures IsSubsequence(rows, WithLapSeconds(f.columns, f.rows))
    ensures forall x :: x in rows <==> x in WithLapSeconds(f.columns, f.rows) && Survives(f, x)
    ensures forall x :: (multiset(rows)[x] ==
      if Survives(f, x) then multiset(WithLapSeconds(f.columns, f.rows))[x] else 0)
  {
    var cols := f.columns;
    var kept := DropMissingRequired(cols, f.rows);
    if LapTime !in cols then
      DropSurvivors(f);
      kept
    else
      var timed := WithLapSeconds(cols, kept);
      CastCommutesWithDrop(cols, f.rows);
      var median := Median(LapTimes(timed));
      if median.Some? && median.value != 0.0 then
        OutlierSurvivors(f);
        Filter(timed, BoundCheck(median.value))
      else
        DropSurvivors(f);
        timed
  }

  /** Without the outlier filter the surviving rows are the cast rows with every required
      value. */
  lemma DropSurvivors(f: Frame)
    requires !OutlierFilterApplies(f)
    ensures var cast := WithLapSeconds(f.columns, f.rows);
      var rows := DropMissingRequired(f.columns, cast);
      && IsSubsequence(rows, cast)
      && (forall x :: x in rows <==> x in cast && Survives(f, x))
      && (forall x :: multiset(rows)[x] == if Survives(f, x) then multiset(cast)[x] else 0)
  {
    assert forall x :: Survives(f, x) <==> HasRequired(f.columns, x);
  }

  /** With the outlier filter the surviving rows are the complete cast rows within the
      bound. */
  lemma OutlierSurvivors(f: Frame)
    requires OutlierFilterApplies(f)
    ensures var cast := WithLapSeconds(f.columns, f.rows);
      var rows := Filter(DropMissingRequired(f.columns, cast), BoundCheck(ValidationMedian(f).value));
      && IsSubsequence(rows, cast)
      && (forall x :: x in rows <==> x in cast && Survives(f, x))
      && (forall x :: multiset(rows)[x] == if Survives(f, x) then multiset(cast)[x] else 0)
  {
    var p := BoundCheck(ValidationMedian(f).value);
    FilterAfterDrop(f.columns, WithLapSeconds(f.columns, f.rows), p);
    assert forall x :: Survives(f, x) <==> HasRequired(f.columns, x) && p(x);
  }

  /** Filtering the complete rows keeps, in order, each row that is complete and passes
      the filter, as often as it occurs. */
  lemma FilterAfterDrop(cols: set<Column>, cast: seq<Row>, p: Row -> bool)
    ensures var rows := Filter(DropMissingRequired(cols, cast), p);
      && IsSubsequence(rows, cast)
      && (forall x :: x in rows <==> x in cast && HasRequired(cols, x) && p(x))
      && (forall x :: multiset(rows)[x] == if HasRequired(cols, x) && p(x) then multiset(cast)[x] else 0)
  {
    var timed := DropMissingRequired(cols, cast);
    var rows := Filter(timed, p);
    SubsequenceTransitive(rows, timed, cast);
    forall x
      ensures multiset(rows)[x] == if HasRequired(cols, x) && p(x) then multiset(cast)[x] else 0
    {
      assert multiset(rows)[x] == if p(x) then multiset(timed)[x] else 0;
      assert multiset(timed)[x] == if HasRequired(cols, x) then multiset(cast)[x] else 0;
    }
  }

  /** `validate_data`: drop rows missing a required field, derive lap_time_seconds, and drop
      lap-time outliers. It only removes rows, keeping the survivors' order and every copy
      of a surviving row. */
  function ValidateData(f: Frame): (r: Frame)
    ensures LapTime in f.columns ==> r.columns == f.columns + {LapTimeSeconds}
    ensures LapTime !in f.columns ==> r.columns == f.columns
    ensures r.otherColumns == f.otherColumns
    ensures IsSubsequence(r.rows, WithLapSeconds(f.columns, f.rows))
    ensures forall x :: x in r.rows <==> x in WithLapSeconds(f.columns, f.rows) && Survives(f, x)
    ensures forall x :: (multiset(r.rows)[x] ==
      if Survives(f, x) then multiset(WithLapSeconds(f.columns, f.rows))[x] else 0)
  {
    var rows := ValidatedRows(f);
    if LapTime in f.columns then f.(columns := f.columns + {LapTimeSeconds}, rows := rows) else f.(rows := rows)
  }

  // ---------------------------------------------------------------------------------------
  // Loading every track

  /** What happened to one track: its directory is missing, reading it raised, it has no
      sections file, or it produced a table (with weather, best laps and results merged). */
  datatype TrackLoad = TrackMissing | LoadRaised | NoSectionsFile | Loaded(frame: Frame)

  datatype LoadError = NoDataLoaded | SchemaMismatch

  /** A track's table with the track_id column added: every row is tagged and nothing
      else changes. */
  function Tag(f: Frame, trackId: string): (r: Frame)
    ensures r.columns == f.columns + {TrackId} && r.otherColumns == f.otherColumns && |r.rows| == |f.rows|
    ensures forall i :: 0 <= i < |f.rows| ==>
      r.rows[i].trackId == Some(trackId) && r.rows[i].(trackId := f.rows[i].trackId) == f.rows[i]
    ensures forall x :: x in r.rows ==> x.trackId == Some(trackId)
  {
    Frame(f.columns + {TrackId}, f.otherColumns, seq(|f.rows|, i requires 0 <= i < |f.rows| => f.rows[i].(trackId := Some(trackId))))
  }

  /** The named tracks that loaded, in the order they were named. */
  function LoadedIds(ids: seq<string>, outcome: string -> TrackLoad): seq<string> {
    Filter(ids, (id: string) => outcome(id).Loaded?)
  }

  lemma LoadedIdsStep(ids: seq<string>, outcome: string -> TrackLoad)
    requires ids != []
    ensures LoadedIds(ids, outcome) ==
      if outcome(ids[0]).Loaded? then [ids[0]] + LoadedIds(ids[1..], outcome) else LoadedIds(ids[1..], outcome)
  {
  }

  /** No track loaded exactly when no named track's outcome is a table. */
  lemma NothingLoaded(ids: seq<string>, outcome: string -> TrackLoad)
    ensures LoadedIds(ids, outcome) == [] <==> forall k :: 0 <= k < |ids| ==> !outcome(ids[k]).Loaded?
  {
    var loaded := LoadedIds(ids, outcome);
    if loaded != [] {
      assert loaded[0] in loaded;
    } else {
      forall k | 0 <= k < |ids| ensures !outcome(ids[k]).Loaded? {
        assert ids[k] in ids;
      }
    }
  }

  /** The tagged table of each of the given tracks, all of which loaded, in order. */
  function TagAll(loaded: seq<string>, outcome: string -> TrackLoad): (fs: seq<Frame>)
    requires forall id :: id in loaded ==> outcome(id).Loaded?
    ensures |fs| == |loaded|
    ensures forall p :: 0 <= p < |fs| ==> fs[p] == Tag(outcome(loaded[p]).frame, loaded[p])
  {
    if loaded == [] then []
    else [Tag(outcome(loaded[0]).frame, loaded[0])] + TagAll(loaded[1..], outcome)
  }

  /** The tagged tables of the tracks that loaded, one per loaded track in track order:
      the loop of `load_all_datasets`, equal to tagging the loaded tracks after the fact. */
  function Collect(ids: seq<string>, outcome: string -> TrackLoad): (fs: seq<Frame>)
    ensures forall id :: id in LoadedIds(ids, outcome) ==> outcome(id).Loaded?
    ensures fs == TagAll(LoadedIds(ids, outcome), outcome)
  {
    if ids == [] then []
    else
      var rest := Collect(ids[1..], outcome);
      LoadedIdsStep(ids, outcome);
      if outcome(ids[0]).Loaded? then
        [Tag(outcome(ids[0]).frame, ids[0])] + rest
      else
        rest
  }

  /** Every collected table has the track_id column, and every row in it is tagged with a
      named track that loaded. */
  lemma CollectedRowsTagged(ids: seq<string>, outcome: string -> TrackLoad)
    ensures forall g :: g in Collect(ids, outcome) ==> TrackId in g.columns
    ensures forall g, x :: g in Collect(ids, outcome) && x in g.rows ==>
      x.trackId.Some? && x.trackId.value in ids && outcome(x.trackId.value).Loaded?
  {
  }

  predicate SameColumns(fs: seq<Frame>) {
    forall k :: 0 <= k < |fs| ==> fs[k].columns == fs[0].columns && fs[k].otherColumns == fs[0].otherColumns
  }

  /** The number of rows in the first `k` tables: where table `k` starts once they are
      stacked. */
  function Offset(fs: seq<Frame>, k: nat): nat
    requires k <= |fs|
  {
    if k == 0 then 0 else |fs[0].rows| + Offset(fs[1..], k - 1)
  }

  /** The tables' rows stacked one after another. */
  function Stack(fs: seq<Frame>): seq<Row> {
    if fs == [] then [] else fs[0].rows + Stack(fs[1..])
  }

  lemma {:induction false} StackMembers(fs: seq<Frame>)
    ensures forall x :: x in Stack(fs) <==> exists g :: g in fs && x in g.rows
  {
    if fs != [] {
      StackMembers(fs[1..]);
      assert forall g :: g in fs <==> g == fs[0] || g in fs[1..];
    }
  }

  lemma {:induction false} StackCopies(fs: seq<Frame>)
    ensures forall k :: 0 <= k < |fs| ==> multiset(fs[k].rows) <= multiset(Stack(fs))
    ensures |Stack(fs)| == Offset(fs, |fs|)
  {
    if fs != [] {
      var rest := Stack(fs[1..]);
      StackCopies(fs[1..]);
      assert forall k :: 1 <= k < |fs| ==> fs[k] == fs[1..][k - 1];
      assert multiset(fs[0].rows + rest) == multiset(fs[0].rows) + multiset(rest);
    }
  }

  /** Table `k` ends within the stack. */
  lemma {:induction false} StackBound(fs: seq<Frame>, k: nat)
    requires k < |fs|
    ensures Offset(fs, k) + |fs[k].rows| <= |Stack(fs)|
  {
    if k > 0 {
      StackBound(fs[1..], k - 1);
    }
  }

  /** Row `j` of table `k` sits at that table's offset plus `j`. */
  lemma {:induction false} StackAt(fs: seq<Frame>, k: nat, j: nat)
    requires k < |fs| && j < |fs[k].rows|
    ensures Offset(fs, k) + j < |Stack(fs)| && Stack(fs)[Offset(fs, k) + j] == fs[k].rows[j]
  {
    if k > 0 {
      StackAt(fs[1..], k - 1, j);
    }
  }

  /** `pl.concat(how="vertical")` on the rows: exactly the tables' rows, table after table. */
  function ConcatRows(fs: seq<Frame>): (rows: seq<Row>)
    ensures forall x :: x in rows <==> exists g :: g in fs && x in g.rows
    ensures forall k :: 0 <= k < |fs| ==> multiset(fs[k].rows) <= multiset(rows)
    ensures fs != [] ==> fs[0].rows <= rows
    ensures |rows| == Offset(fs, |fs|)
    ensures forall k :: 0 <= k < |fs| ==> Offset(fs, k) + |fs[k].rows| <= |rows|
    ensures forall k, j :: 0 <= k < |fs| && 0 <= j < |fs[k].rows| ==> rows[Offset(fs, k) + j] == fs[k].rows[j]
  {
    StackMembers(fs);
    StackCopies(fs);
    assert fs != [] ==> Stack(fs) == fs[0].rows + Stack(fs[1..]);
    var rows := Stack(fs);
    forall k | 0 <= k < |fs|
      ensures Offset(fs, k) + |fs[k].rows| <= |rows|
    {
      StackBound(fs, k);
    }
    forall k, j | 0 <= k < |fs| && 0 <= j < |fs[k].rows|
      ensures rows[Offset(fs, k) + j] == fs[k].rows[j]
    {
      StackAt(fs, k, j);
    }
    rows
  }

  /** `load_all_datasets`: load each named track (by default barber and indianapolis),
      skipping tracks that are missing or fail; fail when none loaded; concatenate
      vertically, which needs equal column sets; validate the result. */
  function LoadAllDatasets(trackIds: Option<seq<string>>, outcome: string -> TrackLoad): (r: Result<Frame, LoadError>)
    ensures var ids := trackIds.GetOr(DefaultTracks);
      (r.Failure? && r.error == NoDataLoaded) <==> forall k :: 0 <= k < |ids| ==> !outcome(ids[k]).Loaded?
    ensures var fs := Collect(trackIds.GetOr(DefaultTracks), outcome);
      (r.Failure? && r.error == SchemaMismatch) <==> fs != [] && !SameColumns(fs)
    ensures var fs := Collect(trackIds.GetOr(DefaultTracks), outcome);
      r.Success? ==> fs != [] && r.value == ValidateData(fs[0].(rows := ConcatRows(fs)))
    ensures r.Success? ==> forall x :: x in r.value.rows ==>
      x.trackId.Some? && x.trackId.value in trackIds.GetOr(DefaultTracks) && outcome(x.trackId.value).Loaded?
    ensures r.Success? ==> TrackId in r.value.columns
  {
    var fs := Collect(trackIds.GetOr(DefaultTracks), outcome);
    NothingLoaded(trackIds.GetOr(DefaultTracks), outcome);
    if fs == [] then Failure(NoDataLoaded)
    else if !SameColumns(fs) then Failure(SchemaMismatch)
    else
      var all := fs[0].(rows := ConcatRows(fs));
      CollectedRowsTagged(trackIds.GetOr(DefaultTracks), outcome);
      assert fs[0] in fs;
      ValidatedRowsTagged(all, trackIds.GetOr(DefaultTracks), outcome);
      Success(ValidateData(all))
  }

  /** Barber's results carry POSITION, indianapolis's do not; nothing else differs. */
  function PositionOnlyAtBarber(id: string): TrackLoad {
    if id == "barber" then Loaded(Frame({}, {"POSITION"}, [])) else Loaded(Frame({}, {}, []))
  }

  /** Two tracks whose tables differ only in an unread column cannot be concatenated. */
  lemma OtherColumnMismatchFails()
    ensures LoadAllDatasets(None, PositionOnlyAtBarber) == Failure(SchemaMismatch)
  {
    var fs := Collect(DefaultTracks, PositionOnlyAtBarber);
    assert LoadedIds(DefaultTracks, PositionOnlyAtBarber) == DefaultTracks by {
      LoadedIdsStep(DefaultTracks, PositionOnlyAtBarber);
      LoadedIdsStep(DefaultTracks[1..], PositionOnlyAtBarber);
    }
    assert fs[0].otherColumns != fs[1].otherColumns;
  }

  /** Validation keeps every row's track tag. */
  lemma ValidatedRowsTagged(f: Frame, ids: seq<string>, outcome: string -> TrackLoad)
    requires forall x :: x in f.rows ==> x.trackId.Some? && x.trackId.value in ids && outcome(x.trackId.value).Loaded?
    ensures forall x :: x in ValidateData(f).rows ==>
      x.trackId.Some? && x.trackId.value in ids && outcome(x.trackId.value).Loaded?
  {
    forall x | x in ValidateData(f).rows
      ensures x.trackId.Some? && x.trackId.value in ids && outcome(x.trackId.value).Loaded?
    {
      var cast := WithLapSeconds(f.columns, f.rows);
      SubsequenceMembers(ValidateData(f).rows, cast, x);
      var i :| 0 <= i < |cast| && cast[i] == x;
      assert f.rows[i] in f.rows;
    }
  }

  /** Omitting the track list is the same as naming the two default tracks. */
  lemma DefaultTrackList(outcome: string -> TrackLoad)
    ensures LoadAllDatasets(None, outcome) == LoadAllDatasets(Some(DefaultTracks), outcome)
  {
  }
}
