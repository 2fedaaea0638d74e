/** Feature and target engineering for the grip-loss regressor (`create_feature_matrix` and
    the per-column helpers it calls). Rows are engineered one by one; the per-driver and
    per-track aggregates come from `Frames`. A polars expression over a column the frame
    lacks raises, which is the `MissingColumn` error here. */
module FeatureEngineer {
  import opened Wrappers
  import opened Arith
  import opened Seqs
  import opened Frames

  /** The fixed candidate feature list, in the order the matrix uses. */
  const FeatureColumns: seq<string> := [
    "s1_delta", "s2_delta", "s3_delta",
    "speed_drop", "gap_normalized",
    "temp_delta", "wind_delta",
    "lap_in_stint", "total_sector_time"
  ]

  /** The engineered features, one per name of `FeatureColumns`. */
  datatype Feature =
    | S1Delta | S2Delta | S3Delta
    | SpeedDropFeature | GapNormalizedFeature
    | TempDelta | WindDelta
    | LapInStintFeature | TotalSectorTimeFeature
  {
    /** The column name the feature matrix reports. */
    function Name(): (n: string)
      ensures n in FeatureColumns
    {
      match this
      case S1Delta => "s1_delta"
      case S2Delta => "s2_delta"
      case S3Delta => "s3_delta"
      case SpeedDropFeature => "speed_drop"
      case GapNormalizedFeature => "gap_normalized"
      case TempDelta => "temp_delta"
      case WindDelta => "wind_delta"
      case LapInStintFeature => "lap_in_stint"
      case TotalSectorTimeFeature => "total_sector_time"
    }
  }

  /** The candidate features in matrix order. */
  const Features: seq<Feature> := [
    S1Delta, S2Delta, S3Delta,
    SpeedDropFeature, GapNormalizedFeature,
    TempDelta, WindDelta,
    LapInStintFeature, TotalSectorTimeFeature
  ]

  /** `Features` and `FeatureColumns` name the same columns in the same order. */
  lemma FeatureNamesInOrder()
    ensures |Features| == |FeatureColumns|
    ensures forall i :: 0 <= i < |Features| ==> Features[i].Name() == FeatureColumns[i]
  {
  }

  /** Every feature is a candidate. */
  lemma EveryFeatureListed()
    ensures forall g: Feature :: g in Features
  {
    forall g: Feature ensures g in Features {
      var k := match g
        case S1Delta => 0 case S2Delta => 1 case S3Delta => 2
        case SpeedDropFeature => 3 case GapNormalizedFeature => 4
        case TempDelta => 5 case WindDelta => 6
        case LapInStintFeature => 7 case TotalSectorTimeFeature => 8;
      assert Features[k] == g;
    }
  }

  /** Assumed pit-stop interval behind the tyre-wear proxy. */
  const StintLength: int := 15
  /** Gap used when the frame has no GAP column. */
  const DefaultGap: real := 2.0
  /** Range of the clipped target. */
  const TargetFloor: real := 0.0
  const TargetCeiling: real := 20.0

  datatype FeatureError = MissingColumn | NoFeaturesAvailable

  /** One engineered row; a field whose column the frame does not have is `None`. */
  datatype EngRow = EngRow(
    s1Delta: Option<real>,
    s2Delta: Option<real>,
    s3Delta: Option<real>,
    speedDrop: Option<real>,
    gapNormalized: Option<real>,
    tempDelta: Option<real>,
    windDelta: Option<real>,
    lapInStint: Option<int>,
    totalSectorTime: Option<real>,
    lapTimeSeconds: Option<real>,
    bestLap: Option<real>)

  /** An engineered frame: the feature columns it has and its rows. */
  datatype EngFrame = EngFrame(present: set<Feature>, hasLapTime: bool, rows: seq<EngRow>)

  datatype FeatureMatrix = FeatureMatrix(x: seq<seq<real>>, y: seq<Option<real>>, features: seq<Feature>) {
    /** The returned feature names. */
    function Names(): (ns: seq<string>)
      ensures |ns| == |features| && forall i :: 0 <= i < |features| ==> ns[i] == features[i].Name()
    {
      seq(|features|, i requires 0 <= i < |features| => features[i].Name())
    }
  }

  /** Null-propagating subtraction, as polars does it. */
  function Sub(a: Option<real>, b: Option<real>): (d: Option<real>)
    ensures d.Some? <==> a.Some? && b.Some?
    ensures d.Some? ==> d.value + b.value == a.value
  {
    if a.Some? && b.Some? then Some(a.value - b.value) else None
  }

  // ---------------------------------------------------------------------------------------
  // Column requirements

  predicate HasAnySector(cols: set<Column>) {
    Sector1 in cols || Sector2 in cols || Sector3 in cols
  }

  predicate HasAllSectors(cols: set<Column>) {
    Sector1 in cols && Sector2 in cols && Sector3 in cols
  }

  /** The columns the engineering expressions read without checking for them first:
      lap_time_seconds and NUMBER for a derived best lap, NUMBER for the per-driver sector
      minimum, track_id for the per-track speed mean, and LAP_NUMBER always. */
  predicate CanEngineer(cols: set<Column>) {
    && (BestLap !in cols ==> LapTimeSeconds in cols && Number in cols)
    && (HasAnySector(cols) ==> Number in cols)
    && (TopSpeed in cols ==> TrackId in cols)
    && LapNumber in cols
  }

  /** The feature columns an engineered frame has. */
  function Present(cols: set<Column>): (p: set<Feature>) {
    {GapNormalizedFeature, TempDelta, WindDelta, LapInStintFeature}
    + (if Sector1 in cols then {S1Delta} else {})
    + (if Sector2 in cols then {S2Delta} else {})
    + (if Sector3 in cols then {S3Delta} else {})
    + (if TopSpeed in cols then {SpeedDropFeature} else {})
    + (if HasAllSectors(cols) then {TotalSectorTimeFeature} else {})
  }

  // ---------------------------------------------------------------------------------------
  // Best lap

  /** BEST_LAP at row `i`: the frame's own value, or the driver's fastest lap when the frame
      has no BEST_LAP column. */
  function BestLapAt(f: Frame, i: nat): (b: Option<real>)
    requires i < |f.rows|
    ensures BestLap in f.columns ==> b == f.rows[i].bestLap
    ensures BestLap !in f.columns && b.Some? ==>
      forall j :: 0 <= j < |f.rows| && f.rows[j].number == f.rows[i].number && f.rows[j].lapTimeSeconds.Some? ==>
        b.value <= f.rows[j].lapTimeSeconds.value
    ensures BestLap !in f.columns && b.Some? ==>
      exists j :: 0 <= j < |f.rows| && f.rows[j].number == f.rows[i].number && f.rows[j].lapTimeSeconds == b
    ensures BestLap !in f.columns && f.rows[i].lapTimeSeconds.Some? ==> b.Some?
  {
    if BestLap in f.columns then f.rows[i].bestLap
    else MinOver(Numbers(f.rows), LapTimes(f.rows), i)
  }

  // ---------------------------------------------------------------------------------------
  // Sector deltas

  function SectorValues(rows: seq<Row>, s: int): (v: seq<Option<real>>)
    requires 1 <= s <= 3
    ensures |v| == |rows| && forall i :: 0 <= i < |rows| ==> v[i] == SectorCell(rows[i], s)
  {
    seq(|rows|, i requires 0 <= i < |rows| => SectorCell(rows[i], s))
  }

  /** `s{s}_delta` at row `i`: the row's sector time less the driver's best time for that
      sector. It is at least the difference to any of the driver's times, and equal to one. */
  function SectorDelta(rows: seq<Row>, s: int, i: nat): (d: Option<real>)
    requires 1 <= s <= 3 && i < |rows|
    ensures d.Some? <==> SectorCell(rows[i], s).Some?
    ensures d.Some? ==> d.value >= 0.0
    ensures d.Some? ==> forall j :: 0 <= j < |rows| && rows[j].number == rows[i].number && SectorCell(rows[j], s).Some? ==>
      d.value >= SectorCell(rows[i], s).value - SectorCell(rows[j], s).value
    ensures d.Some? ==> exists j :: (0 <= j < |rows| && rows[j].number == rows[i].number && SectorCell(rows[j], s).Some? &&
      d.value == SectorCell(rows[i], s).value - SectorCell(rows[j], s).value)
  {
    var keys := Numbers(rows);
    var values := SectorValues(rows, s);
    var best := MinOver(keys, values, i);
    assert values[i] == SectorCell(rows[i], s);
    Sub(values[i], best)
  }

  /** `total_sector_time`: the sum of the three sector times, null if any is null. */
  function TotalSectorTime(row: Row): (t: Option<real>)
    ensures t.Some? <==> row.sector1.Some? && row.sector2.Some? && row.sector3.Some?
    ensures t.Some? ==> t.value - row.sector3.value - row.sector2.value == row.sector1.value
  {
    if row.sector1.Some? && row.sector2.Some? && row.sector3.Some?
    then Some(row.sector1.value + row.sector2.value + row.sector3.value)
    else None
  }

  // ---------------------------------------------------------------------------------------
  // Speed, weather, tyre wear and gap

  function TopSpeeds(rows: seq<Row>): (v: seq<Option<real>>)
    ensures |v| == |rows| && forall i :: 0 <= i < |rows| ==> v[i] == rows[i].topSpeed
  {
    seq(|rows|, i requires 0 <= i < |rows| => rows[i].topSpeed)
  }

  /** `speed_drop` at row `i`: the relative shortfall of the row's top speed from its track's
      mean top speed. */
  function SpeedDrop(rows: seq<Row>, i: nat): (d: Option<real>)
    requires i < |rows|
    ensures d.Some? ==> rows[i].topSpeed.Some?
    ensures d.Some? ==>
      var expected := MeanOver(TrackIds(rows), TopSpeeds(rows), i);
      expected.Some? && expected.value != 0.0 && d.value * expected.value + rows[i].topSpeed.value == expected.value
    ensures rows[i].topSpeed.Some? && d.None? ==>
      var expected := MeanOver(TrackIds(rows), TopSpeeds(rows), i);
      expected.None? || expected.value == 0.0
  {
    var expected := MeanOver(TrackIds(rows), TopSpeeds(rows), i);
    if rows[i].topSpeed.Some? && expected.Some? && expected.value != 0.0
    then Some((expected.value - rows[i].topSpeed.value) / expected.value)
    else None
  }

  function AirTemps(rows: seq<Row>): seq<Option<real>> {
    seq(|rows|, i requires 0 <= i < |rows| => rows[i].airTemp)
  }

  function WindSpeeds(rows: seq<Row>): seq<Option<real>> {
    seq(|rows|, i requires 0 <= i < |rows| => rows[i].windSpeed)
  }

  /** A weather delta: the value less the column mean when the column exists, else 0.0. */
  function WeatherDelta(hasColumn: bool, value: Option<real>, mean: Option<real>): (d: Option<real>)
    ensures !hasColumn ==> d == Some(0.0)
    ensures hasColumn ==> (d.Some? <==> value.Some? && mean.Some?)
    ensures hasColumn && d.Some? ==> d.value + mean.value == value.value
  {
    if hasColumn then Sub(value, mean) else Some(0.0)
  }

  /** `lap_in_stint`: the lap number modulo the stint length. */
  function LapInStint(lapNumber: Option<int>): (s: Option<int>)
    ensures s.Some? <==> lapNumber.Some?
    ensures s.Some? ==> 0 <= s.value < StintLength
    ensures s.Some? ==> (lapNumber.value - s.value) % StintLength == 0
  {
    if lapNumber.Some? then Some(lapNumber.value % StintLength) else None
  }

  /** `gap_normalized`: the cast GAP when the column exists, else the default gap. */
  function GapNormalized(hasColumn: bool, gap: Option<real>): (g: Option<real>)
    ensures !hasColumn ==> g == Some(DefaultGap)
    ensures hasColumn ==> g == gap
  {
    if hasColumn then gap else Some(DefaultGap)
  }

  // ---------------------------------------------------------------------------------------
  // The engineered frame

  /** Row `i` after every engineering step: a history feature whose source column is
      missing is null, and otherwise the row's value against its driver's best or its
      track's mean. `EngineerRowContext` states the remaining fields. */
  function EngineerRow(f: Frame, i: nat): (r: EngRow)
    requires i < |f.rows|
    ensures Sector1 !in f.columns ==> r.s1Delta.None?
    ensures Sector2 !in f.columns ==> r.s2Delta.None?
    ensures Sector3 !in f.columns ==> r.s3Delta.None?
    ensures TopSpeed !in f.columns ==> r.speedDrop.None?
    ensures !HasAllSectors(f.columns) ==> r.totalSectorTime.None?
    ensures Sector1 in f.columns ==> r.s1Delta == SectorDelta(f.rows, 1, i)
    ensures Sector2 in f.columns ==> r.s2Delta == SectorDelta(f.rows, 2, i)
    ensures Sector3 in f.columns ==> r.s3Delta == SectorDelta(f.rows, 3, i)
    ensures TopSpeed in f.columns ==> r.speedDrop == SpeedDrop(f.rows, i)
    ensures HasAllSectors(f.columns) ==> r.totalSectorTime == TotalSectorTime(f.rows[i])
  {
    var cols := f.columns;
    var row := f.rows[i];
    var s1 := if Sector1 in cols then SectorDelta(f.rows, 1, i) else None;
    var s2 := if Sector2 in cols then SectorDelta(f.rows, 2, i) else None;
    var s3 := if Sector3 in cols then SectorDelta(f.rows, 3, i) else None;
    var drop := if TopSpeed in cols then SpeedDrop(f.rows, i) else None;
    var total := if HasAllSectors(cols) then TotalSectorTime(row) else None;
    var r := EngRow(
      s1Delta := s1, s2Delta := s2, s3Delta := s3, speedDrop := drop,
      gapNormalized := GapNormalized(Gap in cols, row.gap),
      tempDelta := WeatherDelta(AirTemp in cols, row.airTemp, Mean(AirTemps(f.rows))),
      windDelta := WeatherDelta(WindSpeed in cols, row.windSpeed, Mean(WindSpeeds(f.rows))),
      lapInStint := LapInStint(row.lapNumber),
      totalSectorTime := total,
      lapTimeSeconds := if LapTimeSeconds in cols then row.lapTimeSeconds else None,
      bestLap := BestLapAt(f, i));
    r
  }

  /** The features of an engineered row that do not depend on lap-by-lap history: the gap
      and the weather deltas fall back to their defaults without their columns and are
      otherwise the cast value and the value less the column mean; lap_in_stint, the lap
      time and the best lap are carried along. */
  lemma EngineerRowContext(f: Frame, i: nat)
    requires i < |f.rows|
    ensures var r := EngineerRow(f, i);
      && (Gap !in f.columns ==> r.gapNormalized == Some(DefaultGap))
      && (Gap in f.columns ==> r.gapNormalized == f.rows[i].gap)
      && (AirTemp !in f.columns ==> r.tempDelta == Some(0.0))
      && (AirTemp in f.columns ==> r.tempDelta == Sub(f.rows[i].airTemp, Mean(AirTemps(f.rows))))
      && (WindSpeed !in f.columns ==> r.windDelta == Some(0.0))
      && (WindSpeed in f.columns ==> r.windDelta == Sub(f.rows[i].windSpeed, Mean(WindSpeeds(f.rows))))
      && r.lapTimeSeconds == (if LapTimeSeconds in f.columns then f.rows[i].lapTimeSeconds else None)
      && r.lapInStint == LapInStint(f.rows[i].lapNumber)
      && r.bestLap == BestLapAt(f, i)
  {
  }

  /** An engineered row has no value for any feature whose source columns the frame lacks. */
  lemma EngineerRowAbsentNull(f: Frame, i: nat)
    requires i < |f.rows|
    ensures forall g :: g !in Present(f.columns) ==> FeatureValue(EngineerRow(f, i), g).None?
  {
    AbsentFeaturesNull(f.columns, EngineerRow(f, i));
  }

  /** A row whose optional features are null when their source columns are missing has
      no value for any feature the frame lacks. */
  lemma AbsentFeaturesNull(cols: set<Column>, r: EngRow)
    requires Sector1 !in cols ==> r.s1Delta.None?
    requires Sector2 !in cols ==> r.s2Delta.None?
    requires Sector3 !in cols ==> r.s3Delta.None?
    requires TopSpeed !in cols ==> r.speedDrop.None?
    requires !HasAllSectors(cols) ==> r.totalSectorTime.None?
    ensures forall g :: g !in Present(cols) ==> FeatureValue(r, g).None?
  {
    PresentOptionalFeatures(cols);
    forall g | g !in Present(cols)
      ensures FeatureValue(r, g).None?
    {
      match g
      case S1Delta =>
      case S2Delta =>
      case S3Delta =>
      case SpeedDropFeature =>
      case TotalSectorTimeFeature =>
      case _ =>
    }
  }

  /** Every engineering step of `create_feature_matrix`, before the null filter. */
  function Engineer(f: Frame): (r: Result<EngFrame, FeatureError>)
    ensures r.Success? <==> CanEngineer(f.columns)
    ensures r.Success? ==> r.value.present == Present(f.columns) && |r.value.rows| == |f.rows|
    ensures r.Success? ==> r.value.hasLapTime == (LapTimeSeconds in f.columns)
    ensures r.Success? ==> forall i :: 0 <= i < |f.rows| ==> r.value.rows[i] == EngineerRow(f, i)
  {
    if !CanEngineer(f.columns) then Failure(MissingColumn)
    else Success(EngFrame(Present(f.columns), LapTimeSeconds in f.columns,
                          seq(|f.rows|, i requires 0 <= i < |f.rows| => EngineerRow(f, i))))
  }

  /** The value of a feature in an engineered row. */
  function FeatureValue(r: EngRow, f: Feature): Option<real> {
    match f
    case S1Delta => r.s1Delta
    case S2Delta => r.s2Delta
    case S3Delta => r.s3Delta
    case SpeedDropFeature => r.speedDrop
    case GapNormalizedFeature => r.gapNormalized
    case TempDelta => r.tempDelta
    case WindDelta => r.windDelta
    case LapInStintFeature => if r.lapInStint.Some? then Some(r.lapInStint.value as real) else None
    case TotalSectorTimeFeature => r.totalSectorTime
  }

  predicate Complete(r: EngRow, selected: seq<Feature>) {
    forall j :: 0 <= j < |selected| ==> FeatureValue(r, selected[j]).Some?
  }

  // ---------------------------------------------------------------------------------------
  // Feature selection and the target

  /** The candidate features the frame has, in the candidate list's order; an error when
      there is none. */
  function SelectFeatures(present: set<Feature>): (r: Result<seq<Feature>, FeatureError>)
    ensures r.Failure? <==> forall f :: f in Features ==> f !in present
    ensures r.Failure? ==> r.error == NoFeaturesAvailable
    ensures r.Success? ==> IsSubsequence(r.value, Features)
    ensures r.Success? ==> forall f :: f in r.value <==> f in Features && f in present
  {
    var names := Filter(Features, f => f in present);
    if names == [] then Failure(NoFeaturesAvailable)
    else
      assert names[0] in names;
      Success(names)
  }

  /** `100 * (lap_time - best_lap) / best_lap` before clipping. */
  function UnclippedTarget(lapTime: real, best: real): real
    requires best != 0.0
  {
    100.0 * (lapTime - best) / best
  }

  /** One target value, clipped to [0, 20]. A null operand gives NaN (`None`), which the clip
      keeps; a zero best lap divides to +inf, -inf or NaN by the sign of the lap time. */
  function TargetValue(lapTime: Option<real>, best: Option<real>): (y: Option<real>)
    ensures y.None? <==> lapTime.None? || best.None? || (best.value == 0.0 && lapTime.value == 0.0)
    ensures y.Some? ==> TargetFloor <= y.value <= TargetCeiling
    ensures lapTime.Some? && best.Some? && best.value == 0.0 && lapTime.value > 0.0 ==> y == Some(TargetCeiling)
    ensures lapTime.Some? && best.Some? && best.value == 0.0 && lapTime.value < 0.0 ==> y == Some(TargetFloor)
    ensures lapTime.Some? && best.Some? && best.value != 0.0 ==>
      var u := UnclippedTarget(lapTime.value, best.value);
      && (y.value == TargetFloor <==> u <= TargetFloor)
      && (y.value == TargetCeiling <==> u >= TargetCeiling)
      && (TargetFloor < u < TargetCeiling ==> y.value == u)
  {
    if lapTime.None? || best.None? then None
    else if best.value == 0.0 then
      if lapTime.value > 0.0 then Some(TargetCeiling)
      else if lapTime.value < 0.0 then Some(TargetFloor)
      else None
    else Some(Clip(UnclippedTarget(lapTime.value, best.value), TargetFloor, TargetCeiling))
  }

  /** `calculate_grip_loss_target`: one clipped value per row, or all zeros when the frame
      lacks lap_time_seconds or BEST_LAP. */
  function GripLossTarget(rows: seq<EngRow>, hasLapTime: bool, hasBestLap: bool): (y: seq<Option<real>>)
    ensures |y| == |rows|
    ensures forall i :: 0 <= i < |y| && y[i].Some? ==> TargetFloor <= y[i].value <= TargetCeiling
    ensures !(hasLapTime && hasBestLap) ==> forall i :: 0 <= i < |y| ==> y[i] == Some(0.0)
    ensures hasLapTime && hasBestLap ==>
      forall i :: 0 <= i < |y| ==> y[i] == TargetValue(rows[i].lapTimeSeconds, rows[i].bestLap)
  {
    if hasLapTime && hasBestLap
    then seq(|rows|, i requires 0 <= i < |rows| => TargetValue(rows[i].lapTimeSeconds, rows[i].bestLap))
    else seq(|rows|, _ => Some(0.0))
  }

  /** The engineered rows with every selected feature present, in their original order. */
  function KeptRows(e: EngFrame, names: seq<Feature>): (kept: seq<EngRow>)
    ensures IsSubsequence(kept, e.rows)
    ensures forall r :: r in kept <==> r in e.rows && Complete(r, names)
    ensures forall r :: multiset(kept)[r] == if Complete(r, names) then multiset(e.rows)[r] else 0
  {
    Filter(e.rows, r => Complete(r, names))
  }

  /** One row of `df.select(features).to_numpy()`. */
  function BuildRow(r: EngRow, selected: seq<Feature>): (row: seq<real>)
    requires Complete(r, selected)
    ensures |row| == |selected|
    ensures forall j :: 0 <= j < |selected| ==> FeatureValue(r, selected[j]) == Some(row[j])
  {
    seq(|selected|, j requires 0 <= j < |selected| => FeatureValue(r, selected[j]).value)
  }

  /** `df.select(features).to_numpy()` over rows where every selected feature is present. */
  function BuildMatrix(kept: seq<EngRow>, selected: seq<Feature>): (x: seq<seq<real>>)
    requires forall r :: r in kept ==> Complete(r, selected)
    ensures |x| == |kept|
    ensures forall i :: 0 <= i < |x| ==> x[i] == BuildRow(kept[i], selected)
  {
    seq(|kept|, i requires 0 <= i < |kept| =>
      assert kept[i] in kept;
      BuildRow(kept[i], selected))
  }

  /** `create_feature_matrix`: engineer, drop rows with a null selected feature, and return
      the feature matrix, the target and the selected names. */
  function CreateFeatureMatrix(f: Frame): (r: Result<FeatureMatrix, FeatureError>)
    ensures r.Success? <==> CanEngineer(f.columns)
    ensures r.Failure? ==> r.error == MissingColumn
    ensures r.Success? ==>
      var m := r.value;
      && |m.x| == |m.y| <= |f.rows|
      && IsSubsequence(m.features, Features)
      && (forall g :: g in m.features <==> g in Present(f.columns))
      && (forall i :: 0 <= i < |m.x| ==> |m.x[i]| == |m.features|)
      && (forall i :: 0 <= i < |m.y| && m.y[i].Some? ==> TargetFloor <= m.y[i].value <= TargetCeiling)
      && (LapTimeSeconds !in f.columns ==> forall i :: 0 <= i < |m.y| ==> m.y[i] == Some(0.0))
    ensures r.Success? ==>
      var e := Engineer(f).value;
      var kept := KeptRows(e, r.value.features);
      && r.value.x == BuildMatrix(kept, r.value.features)
      && r.value.y == GripLossTarget(kept, e.hasLapTime, true)
  {
    match Engineer(f)
    case Failure(e) => Failure(e)
    case Success(e) =>
      match SelectFeatures(e.present)
      case Failure(err) => Failure(err)
      case Success(names) =>
        EveryFeatureListed();
        var kept := KeptRows(e, names);
        Success(FeatureMatrix(BuildMatrix(kept, names), GripLossTarget(kept, e.hasLapTime, true), names))
  }

  // ---------------------------------------------------------------------------------------
  // Properties

  /** gap_normalized, temp_delta, wind_delta and lap_in_stint exist in every engineered frame,
      so the no-features error of `create_feature_matrix` cannot happen. */
  lemma NoFeaturesUnreachable(f: Frame)
    ensures CreateFeatureMatrix(f) != Failure(NoFeaturesAvailable)
    ensures CreateFeatureMatrix(f).Success? ==>
      var m := CreateFeatureMatrix(f).value;
      GapNormalizedFeature in m.features && TempDelta in m.features && WindDelta in m.features && LapInStintFeature in m.features
  {
  }

  /** A sector's delta is selected exactly when the frame has that sector, the total sector
      time exactly when it has all three, and speed_drop exactly when it has TOP_SPEED. */
  lemma SectorFeaturesSelected(f: Frame)
    requires CanEngineer(f.columns)
    ensures var selected := CreateFeatureMatrix(f).value.features;
      && (S1Delta in selected <==> Sector1 in f.columns)
      && (S2Delta in selected <==> Sector2 in f.columns)
      && (S3Delta in selected <==> Sector3 in f.columns)
      && (TotalSectorTimeFeature in selected <==> HasAllSectors(f.columns))
      && (SpeedDropFeature in selected <==> TopSpeed in f.columns)
  {
    var selected := CreateFeatureMatrix(f).value.features;
    assert forall g :: g in selected <==> g in Present(f.columns);
    PresentOptionalFeatures(f.columns);
  }

  /** Which of the optional features an engineered frame has. */
  lemma PresentOptionalFeatures(cols: set<Column>)
    ensures S1Delta in Present(cols) <==> Sector1 in cols
    ensures S2Delta in Present(cols) <==> Sector2 in cols
    ensures S3Delta in Present(cols) <==> Sector3 in cols
    ensures TotalSectorTimeFeature in Present(cols) <==> HasAllSectors(cols)
    ensures SpeedDropFeature in Present(cols) <==> TopSpeed in cols
  {
  }

  /** Every driver with a timed sector has a row whose delta for that sector is zero. */
  lemma {:induction false} SectorDeltaZeroForEachDriver(rows: seq<Row>, s: int, i: nat)
    requires 1 <= s <= 3 && i < |rows|
    requires SectorCell(rows[i], s).Some?
    ensures exists j :: 0 <= j < |rows| && rows[j].number == rows[i].number && SectorDelta(rows, s, j) == Some(0.0)
  {
    var keys := Numbers(rows);
    var values := SectorValues(rows, s);
    var best := GroupMin(keys, values, keys[i], |keys|);
    assert values[i].Some?;
    var j :| 0 <= j < |rows| && keys[j] == keys[i] && values[j] == best;
    assert MinOver(keys, values, j) == best;
    assert SectorDelta(rows, s, j) == Some(0.0);
  }

  /** With BEST_LAP derived from the driver's fastest lap and all lap times positive, the
      unclipped target is never negative. */
  lemma {:induction false} DerivedBestLapTargetNonNegative(f: Frame, i: nat)
    requires BestLap !in f.columns && i < |f.rows|
    requires forall j :: 0 <= j < |f.rows| && f.rows[j].lapTimeSeconds.Some? ==> f.rows[j].lapTimeSeconds.value > 0.0
    requires f.rows[i].lapTimeSeconds.Some?
    ensures var b := BestLapAt(f, i);
      b.Some? && b.value > 0.0 && UnclippedTarget(f.rows[i].lapTimeSeconds.value, b.value) >= 0.0
  {
    var b := BestLapAt(f, i);
    var lt := f.rows[i].lapTimeSeconds.value;
    var j :| 0 <= j < |f.rows| && f.rows[j].number == f.rows[i].number && f.rows[j].lapTimeSeconds == b;
    assert b.value > 0.0;
    assert lt - b.value >= 0.0;
    assert 100.0 * (lt - b.value) >= 0.0;
  }
}
