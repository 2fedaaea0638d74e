/** Post-processing of a grip-loss prediction (app/ml/grip_model.py): the threat rule, the
    coaching recommendation, the most affected sector, the confidence clamp, the feature
    vector built from one telemetry sample, and the "trained" flag that gates prediction.
    The XGBoost regressor and its scaler are foreign code: the raw prediction they produce
    enters as a parameter. */
module GripModel {
  import opened Wrappers
  import opened Arith
  import opened Config
  import opened Schemas
  import FeatureEngineer

  // ---------------------------------------------------------------------------------------
  // Threat classification

  const DirtyAir: string := "dirty_air"
  const TireFade: string := "tire_fade"
  const WeatherShift: string := "weather_shift"
  const NoThreat: string := "none"

  /** Close behind another car and slow on the straight. Both comparisons are strict. */
  predicate InDirtyAir(t: TelemetryInput) {
    t.gapToPrevious < DirtyAirGapThreshold && t.topSpeed < DirtyAirSpeedThreshold
  }

  /** Sector 1 and sector 3 times differ by more than the tire-fade threshold. */
  predicate UnevenSectors(t: TelemetryInput) {
    Abs(t.sector1Time - t.sector3Time) > TireFadeSectorDiffThreshold
  }

  /** The predicted grip loss exceeds the weather-shift threshold. */
  predicate HighGripLoss(gripLoss: real) {
    gripLoss > WeatherShiftGripThreshold
  }

  /** The first matching cause in priority order: dirty air, then tire fade, then a
      weather shift, else none. */
  function ClassifyThreat(t: TelemetryInput, gripLoss: real): (threat: string)
    ensures threat in {DirtyAir, TireFade, WeatherShift, NoThreat}
    ensures threat == DirtyAir <==> InDirtyAir(t)
    ensures threat == TireFade <==> !InDirtyAir(t) && UnevenSectors(t)
    ensures threat == WeatherShift <==> !InDirtyAir(t) && !UnevenSectors(t) && HighGripLoss(gripLoss)
    ensures threat == NoThreat <==> !InDirtyAir(t) && !UnevenSectors(t) && !HighGripLoss(gripLoss)
  {
    if InDirtyAir(t) then DirtyAir
    else if UnevenSectors(t) then TireFade
    else if HighGripLoss(gripLoss) then WeatherShift
    else NoThreat
  }

  /** Dirty air takes priority: once gap and speed qualify, no sector times and no grip
      loss can change the verdict. */
  lemma DirtyAirDominates(t: TelemetryInput, gripLoss: real, t': TelemetryInput, gripLoss': real)
    requires InDirtyAir(t)
    requires t'.gapToPrevious == t.gapToPrevious && t'.topSpeed == t.topSpeed
    ensures ClassifyThreat(t, gripLoss) == DirtyAir && ClassifyThreat(t', gripLoss') == DirtyAir
  {
  }

  /** Raising the grip loss can change the verdict only from "none" to a weather shift. */
  lemma ThreatMonotoneInGripLoss(t: TelemetryInput, g1: real, g2: real)
    requires g1 <= g2
    ensures ClassifyThreat(t, g1) == WeatherShift ==> ClassifyThreat(t, g2) == WeatherShift
    ensures ClassifyThreat(t, g2) == NoThreat ==> ClassifyThreat(t, g1) == NoThreat
    ensures ClassifyThreat(t, g1) != ClassifyThreat(t, g2) ==>
              ClassifyThreat(t, g1) == NoThreat && ClassifyThreat(t, g2) == WeatherShift
  {
  }

  // ---------------------------------------------------------------------------------------
  // Coaching recommendation

  /** The coaching message for a threat. The dirty-air message is formatted from its two
      numbers; the others are fixed texts. */
  datatype Recommendation =
    | Trail(gapTarget: real, timeGain: real)
    | BrakeBias
    | EaseThrottle(percent: int)
    | MaintainPace
  {
    /** The message text, for the variants whose text involves no float formatting. */
    function FixedText(): Option<string> {
      match this
      case Trail(_, _) => None
      case BrakeBias => Some("Brake bias plus 2 percent — cool fronts")
      case EaseThrottle(p) => if p == 7 then Some("Wind gust — ease throttle 7 percent") else None
      case MaintainPace => Some("Maintain current pace")
    }
  }

  function GenerateRecommendation(threat: string, gripLoss: real): (r: Recommendation)
    ensures r.Trail? <==> threat == DirtyAir
    ensures r.Trail? ==> r.gapTarget == 1.8 && r.timeGain == gripLoss * 0.1
    ensures r.BrakeBias? <==> threat == TireFade
    ensures r.EaseThrottle? <==> threat == WeatherShift
    ensures r.MaintainPace? <==> threat !in {DirtyAir, TireFade, WeatherShift}
    ensures !r.Trail? ==> r.FixedText().Some?
  {
    if threat == DirtyAir then Trail(1.8, gripLoss * 0.1)
    else if threat == TireFade then BrakeBias
    else if threat == WeatherShift then EaseThrottle(7)
    else MaintainPace
  }

  /** Fed the classifier's verdict, the advice is to keep pace exactly when no threat was
      found, and it is never a formatting-free message for dirty air. */
  lemma RecommendationFollowsClassification(t: TelemetryInput, gripLoss: real)
    ensures var r := GenerateRecommendation(ClassifyThreat(t, gripLoss), gripLoss);
            r.MaintainPace? <==> !InDirtyAir(t) && !UnevenSectors(t) && !HighGripLoss(gripLoss)
    ensures GenerateRecommendation(ClassifyThreat(t, gripLoss), gripLoss).Trail? <==> InDirtyAir(t)
  {
  }

  // ---------------------------------------------------------------------------------------
  // Most affected sector

  /** `numpy.argmax`: the position of the first largest element. */
  function ArgMax(xs: seq<real>): (k: nat)
    requires |xs| > 0
    ensures k < |xs|
    ensures forall j :: 0 <= j < |xs| ==> xs[j] <= xs[k]
    ensures forall j :: 0 <= j < k ==> xs[j] < xs[k]
  {
    if |xs| == 1 then 0
    else
      var k := ArgMax(xs[..|xs| - 1]);
      if xs[|xs| - 1] > xs[k] then |xs| - 1 else k
  }

  function SectorTime(t: TelemetryInput, sector: int): real
    requires 1 <= sector <= 3
  {
    if sector == 1 then t.sector1Time else if sector == 2 then t.sector2Time else t.sector3Time
  }

  /** The 1-based sector with the largest time; on a tie the lowest-numbered one. */
  function AffectedSector(t: TelemetryInput): (sector: int)
    ensures 1 <= sector <= 3
    ensures forall s :: 1 <= s <= 3 ==> SectorTime(t, s) <= SectorTime(t, sector)
    ensures forall s :: 1 <= s < sector ==> SectorTime(t, s) < SectorTime(t, sector)
  {
    var times := [t.sector1Time, t.sector2Time, t.sector3Time];
    var k := ArgMax(times);
    assert forall s :: 1 <= s <= 3 ==> SectorTime(t, s) == times[s - 1];
    k + 1
  }

  // ---------------------------------------------------------------------------------------
  // Confidence

  /** `min(0.95, max(0.70, 1 - |prediction| / 20))`. */
  function Confidence(prediction: real): (c: real)
    ensures 0.70 <= c <= 0.95
    ensures c == 0.95 <==> Abs(prediction) <= 1.0
    ensures c == 0.70 <==> Abs(prediction) >= 6.0
    ensures 0.70 < c < 0.95 ==> c == 1.0 - Abs(prediction) / 20.0
  {
    Min(0.95, Max(0.70, 1.0 - Abs(prediction) / 20.0))
  }

  /** Confidence does not increase as the prediction moves away from zero. */
  lemma ConfidenceNonIncreasing(p1: real, p2: real)
    requires Abs(p1) <= Abs(p2)
    ensures Confidence(p2) <= Confidence(p1)
  {
  }

  // ---------------------------------------------------------------------------------------
  // Feature vector

  /** The nine hand-written features, positioned as in FeatureEngineer.FeatureColumns:
      sector deltas against fixed baselines, speed drop against 180 mph, gap, temperature
      and wind against fixed baselines, lap in stint, and total sector time. The lap
      number uses Python's `%`, which for the divisor 15 agrees with Dafny's. */
  function AllFeatures(t: TelemetryInput): (v: seq<real>)
    ensures |v| == |FeatureEngineer.FeatureColumns| == 9
    ensures v[0] + 28.0 == t.sector1Time && v[1] + 32.0 == t.sector2Time && v[2] + 30.0 == t.sector3Time
    ensures 180.0 * (1.0 - v[3]) == t.topSpeed
    ensures v[4] == t.gapToPrevious && v[5] + 25.0 == t.airTemperature && v[6] + 10.0 == t.windSpeed
    ensures 0.0 <= v[7] <= 14.0 && v[7] == v[7].Floor as real && (t.lapNumber - v[7].Floor) % 15 == 0
    ensures v[8] == v[0] + v[1] + v[2] + 90.0
  {
    [ t.sector1Time - 28.0,
      t.sector2Time - 32.0,
      t.sector3Time - 30.0,
      (180.0 - t.topSpeed) / 180.0,
      t.gapToPrevious,
      t.airTemperature - 25.0,
      t.windSpeed - 10.0,
      (t.lapNumber % 15) as real,
      t.sector1Time + t.sector2Time + t.sector3Time ]
  }

  /** `_telemetry_to_features` as written: the first `len(feature_names)` of the nine
      features, whatever those names are. */
  function TelemetryToFeatures(t: TelemetryInput, featureNames: seq<string>): (v: seq<real>)
    ensures |v| == MinInt(9, |featureNames|)
    ensures forall i :: 0 <= i < |v| ==> v[i] == AllFeatures(t)[i]
    ensures |v| > 7 ==> v[7] == (t.lapNumber % 15) as real && 0.0 <= v[7] <= 14.0
    ensures |v| > 8 ==> v[8] == t.sector1Time + t.sector2Time + t.sector3Time
    ensures |v| > 8 ==> v[8] == v[0] + v[1] + v[2] + 90.0
  {
    AllFeatures(t)[..MinInt(9, |featureNames|)]
  }

  /** The value of the feature called `name`, if it is one of the nine. */
  function FeatureByName(t: TelemetryInput, name: string): (r: Option<real>)
    ensures r.Some? <==> name in FeatureEngineer.FeatureColumns
    ensures forall i :: 0 <= i < 9 && FeatureEngineer.FeatureColumns[i] == name ==> r == Some(AllFeatures(t)[i])
  {
    var v := AllFeatures(t);
    if name == "s1_delta" then Some(v[0])
    else if name == "s2_delta" then Some(v[1])
    else if name == "s3_delta" then Some(v[2])
    else if name == "speed_drop" then Some(v[3])
    else if name == "gap_normalized" then Some(v[4])
    else if name == "temp_delta" then Some(v[5])
    else if name == "wind_delta" then Some(v[6])
    else if name == "lap_in_stint" then Some(v[7])
    else if name == "total_sector_time" then Some(v[8])
    else None
  }

  /** The feature vector the model was trained on: one value per trained feature name,
      looked up by name. None if a name is not one of the nine. */
  function AlignedFeatures(t: TelemetryInput, featureNames: seq<string>): (v: Option<seq<real>>)
    ensures v.Some? <==> forall i :: 0 <= i < |featureNames| ==> featureNames[i] in FeatureEngineer.FeatureColumns
    ensures v.Some? ==> |v.value| == |featureNames|
    ensures v.Some? ==> forall i :: 0 <= i < |featureNames| ==> FeatureByName(t, featureNames[i]) == Some(v.value[i])
  {
    if featureNames == [] then Some([])
    else
      match (FeatureByName(t, featureNames[0]), AlignedFeatures(t, featureNames[1..]))
      case (Some(x), Some(rest)) => Some([x] + rest)
      case _ => None
  }

  /** When the trained names are a prefix of the fixed list, truncation and lookup by
      name agree. */
  lemma {:induction false} TruncationAlignedOnPrefix(t: TelemetryInput, k: nat)
    requires k <= 9
    ensures AlignedFeatures(t, FeatureEngineer.FeatureColumns[..k]) == Some(TelemetryToFeatures(t, FeatureEngineer.FeatureColumns[..k]))
  {
    var names := FeatureEngineer.FeatureColumns[..k];
    var v := TelemetryToFeatures(t, names);
    forall i | 0 <= i < k
      ensures FeatureByName(t, names[i]) == Some(v[i])
    {
      assert names[i] == FeatureEngineer.FeatureColumns[i];
    }
    assert forall i :: 0 <= i < k ==> names[i] in FeatureEngineer.FeatureColumns by {
      forall i | 0 <= i < k ensures names[i] in FeatureEngineer.FeatureColumns {
        assert names[i] == FeatureEngineer.FeatureColumns[i];
      }
    }
    var a := AlignedFeatures(t, names);
    assert |a.value| == |v|;
    forall i | 0 <= i < k
      ensures a.value[i] == v[i]
    {
      assert FeatureByName(t, names[i]) == Some(a.value[i]);
    }
    assert a.value == v;
  }

  /** Truncation misaligns as soon as training dropped an early column: with the sector
      and speed columns absent, the entry labelled "gap_normalized" holds the sector 1
      delta. */
  lemma TruncationMisalignsWithoutSectorColumns()
    ensures var t := TelemetryInput(77, 15, 28.5, 32.1, 29.8, 182.5, 2.3, 25.0, 8.5, None, false);
            var names := ["gap_normalized", "temp_delta", "wind_delta", "lap_in_stint"];
            && TelemetryToFeatures(t, names)[0] == 0.5
            && FeatureByName(t, names[0]) == Some(2.3)
            && AlignedFeatures(t, names) != Some(TelemetryToFeatures(t, names))
  {
    var t := TelemetryInput(77, 15, 28.5, 32.1, 29.8, 182.5, 2.3, 25.0, 8.5, None, false);
    var names := ["gap_normalized", "temp_delta", "wind_delta", "lap_in_stint"];
    var a := AlignedFeatures(t, names);
    assert names[0] in FeatureEngineer.FeatureColumns;
    assert a.Some? ==> a.value[0] == 2.3;
  }

  // ---------------------------------------------------------------------------------------
  // The trained flag

  /** `NotTrained` is the ValueError of an untrained model; `FeatureMismatch` is what the
      scaler or the regressor raises when it is unfitted or was fitted on a different
      number of features than the request vector has. */
  datatype ModelError = NotTrained | ModelFileNotFound | FeatureMismatch

  /** The parts of a `GripLossModel` the modelled logic reads. `fittedWidth` is the number
      of features the installed scaler and regressor were both fitted on, and `None` when
      either is missing or unfitted. */
  datatype GripLossModel = GripLossModel(isTrained: bool, featureNames: seq<string>, fittedWidth: Option<nat>)

  /** What `save` wrote and `load` reads back. `save` runs only at the end of a completed
      `train`, so the stored scaler and regressor were fitted on the stored names. */
  datatype StoredModel = StoredModel(featureNames: seq<string>)

  function NewModel(): (m: GripLossModel)
    ensures !m.isTrained && m.featureNames == [] && m.fittedWidth.None?
  {
    GripLossModel(false, [], None)
  }

  /** How far `train` got: the split raised (nothing else changed yet), the scaling or the
      fit raised (a fresh scaler and regressor were installed first, so one of them is
      unfitted), or everything completed. */
  datatype TrainOutcome = SplitRaised | FitRaised | Fitted

  /** `train`: the feature names are recorded before the split and the fit; the model is
      marked trained, with a scaler and regressor fitted on one column per name, only when
      both complete. A raise leaves the flag as it was. */
  function Train(m: GripLossModel, featureNames: seq<string>, outcome: TrainOutcome): (m': GripLossModel)
    ensures m'.featureNames == featureNames
    ensures m'.isTrained <==> outcome == Fitted || m.isTrained
    ensures outcome == SplitRaised ==> m'.fittedWidth == m.fittedWidth
    ensures outcome == FitRaised ==> m'.fittedWidth.None?
    ensures outcome == Fitted ==> m'.fittedWidth == Some(|featureNames|)
  {
    match outcome
    case SplitRaised => m.(featureNames := featureNames)
    case FitRaised => m.(featureNames := featureNames, fittedWidth := None)
    case Fitted => GripLossModel(true, featureNames, Some(|featureNames|))
  }

  /** `load`: fails when no model file exists (`stored` is None), otherwise restores the
      stored feature names with their scaler and regressor and marks the model trained. */
  function Load(m: GripLossModel, stored: Option<StoredModel>): (r: Result<GripLossModel, ModelError>)
    ensures r.Failure? <==> stored.None?
    ensures r.Failure? ==> r.error == ModelFileNotFound
    ensures r.Success? ==> r.value.isTrained && r.value.featureNames == stored.value.featureNames
    ensures r.Success? ==> r.value.fittedWidth == Some(|stored.value.featureNames|)
  {
    match stored
    case None => Failure(ModelFileNotFound)
    case Some(s) => Success(GripLossModel(true, s.featureNames, Some(|s.featureNames|)))
  }

  /** `predict`: refuses an untrained model; the scaler and regressor then raise unless they
      were fitted on exactly as many features as the request vector holds; otherwise the
      regressor's output is passed through with the clamped confidence. */
  function Predict(m: GripLossModel, t: TelemetryInput, rawPrediction: real): (r: Result<(real, real), ModelError>)
    ensures r.Failure? <==> !m.isTrained || m.fittedWidth != Some(|TelemetryToFeatures(t, m.featureNames)|)
    ensures r.Failure? && !m.isTrained ==> r.error == NotTrained
    ensures r.Failure? && m.isTrained ==> r.error == FeatureMismatch
    ensures r.Success? ==> r.value.0 == rawPrediction && r.value.1 == Confidence(rawPrediction)
    ensures r.Success? ==> 0.70 <= r.value.1 <= 0.95
    ensures r.Success? && rawPrediction == 0.0 ==> r.value.1 == 0.95
  {
    if !m.isTrained then Failure(NotTrained)
    else if m.fittedWidth != Some(|TelemetryToFeatures(t, m.featureNames)|) then Failure(FeatureMismatch)
    else Success((rawPrediction, Confidence(rawPrediction)))
  }

  /** A call that can change the model object. A failed load raises and leaves it as it
      was; a failed train raises after recording the feature names. */
  datatype Event = TrainCall(featureNames: seq<string>, outcome: TrainOutcome) | LoadCall(stored: Option<StoredModel>)

  function Apply(m: GripLossModel, e: Event): GripLossModel {
    match e
    case TrainCall(names, outcome) => Train(m, names, outcome)
    case LoadCall(stored) => match Load(m, stored) {
      case Success(m') => m'
      case Failure(_) => m
    }
  }

  function Replay(m: GripLossModel, events: seq<Event>): GripLossModel
    decreases |events|
  {
    if events == [] then m else Replay(Apply(m, events[0]), events[1..])
  }

  /** A call that marks the model trained: a `train` whose fit completed, or a `load` that
      found its file. */
  predicate Establishes(e: Event) {
    (e.TrainCall? && e.outcome == Fitted) || (e.LoadCall? && e.stored.Some?)
  }

  /** The names a call that marks the model trained leaves it with. */
  function EstablishedNames(e: Event): seq<string>
    requires Establishes(e)
  {
    if e.TrainCall? then e.featureNames else e.stored.value.featureNames
  }

  /** Right after a completed `train` or a successful `load` with at most the nine request
      features, every prediction succeeds. */
  lemma PredictAfterEstablish(m: GripLossModel, e: Event, t: TelemetryInput, rawPrediction: real)
    requires Establishes(e) && |EstablishedNames(e)| <= 9
    ensures Predict(Apply(m, e), t, rawPrediction).Success?
  {
    assert Apply(m, e).featureNames == EstablishedNames(e);
  }

  /** A trained model whose retraining raises at the split with fewer names keeps its old
      scaler, so every prediction raises: a `load` of the nine features followed by a
      failed `train` on four of them. */
  lemma FailedRetrainBreaksPredict(t: TelemetryInput, rawPrediction: real)
    ensures var loaded := Load(NewModel(), Some(StoredModel(FeatureEngineer.FeatureColumns)));
      && loaded.Success?
      && Predict(loaded.value, t, rawPrediction).Success?
      && var m := Train(loaded.value, FeatureEngineer.FeatureColumns[..4], SplitRaised);
         m.isTrained && Predict(m, t, rawPrediction) == Failure(FeatureMismatch)
  {
    var m := Train(Load(NewModel(), Some(StoredModel(FeatureEngineer.FeatureColumns))).value,
                   FeatureEngineer.FeatureColumns[..4], SplitRaised);
    assert |TelemetryToFeatures(t, m.featureNames)| == 4;
  }

  lemma {:induction false} ReplayTrained(m: GripLossModel, events: seq<Event>)
    ensures Replay(m, events).isTrained <==>
              m.isTrained || exists i :: 0 <= i < |events| && Establishes(events[i])
    decreases |events|
  {
    if events != [] {
      ReplayTrained(Apply(m, events[0]), events[1..]);
      assert forall i :: 1 <= i < |events| ==> events[i] == events[1..][i - 1];
      if exists i :: 0 <= i < |events| && Establishes(events[i]) {
        var i :| 0 <= i < |events| && Establishes(events[i]);
        if i > 0 {
          assert Establishes(events[1..][i - 1]);
        }
      }
    }
  }

  /** A fresh model is trained exactly when some completed `train` or successful `load`
      happened, so `predict` fails until then. */
  lemma TrainedOnlyAfterTrainOrLoad(events: seq<Event>, t: TelemetryInput, rawPrediction: real)
    ensures Replay(NewModel(), events).isTrained <==> exists i :: 0 <= i < |events| && Establishes(events[i])
    ensures (forall i :: 0 <= i < |events| ==> !Establishes(events[i])) ==>
              Predict(Replay(NewModel(), events), t, rawPrediction) == Failure(NotTrained)
  {
    ReplayTrained(NewModel(), events);
  }

  // ---------------------------------------------------------------------------------------
  // The prediction endpoint's composition of the above

  datatype GripPrediction = GripPrediction(
    gripLossPercent: real,
    confidence: real,
    threatType: string,
    recommendation: Recommendation,
    sectorAffected: int,
    expectedTimeGain: real)

  /** The prediction part of the predict endpoint: the 503 failure for an untrained model,
      the 500 failure when `predict` raises, otherwise prediction, threat, advice, sector
      and expected gain. */
  function PredictGrip(m: GripLossModel, t: TelemetryInput, rawPrediction: real): (r: Result<GripPrediction, ModelError>)
    ensures r.Failure? <==> !m.isTrained || m.fittedWidth != Some(|TelemetryToFeatures(t, m.featureNames)|)
    ensures r.Failure? ==> r.error == (if m.isTrained then FeatureMismatch else NotTrained)
    ensures r.Success? ==> r.value.gripLossPercent == rawPrediction
    ensures r.Success? ==> r.value.threatType == ClassifyThreat(t, rawPrediction)
    ensures r.Success? ==> r.value.confidence == Confidence(rawPrediction)
    ensures r.Success? ==> r.value.sectorAffected == AffectedSector(t)
    ensures r.Success? ==> r.value.recommendation == GenerateRecommendation(r.value.threatType, rawPrediction)
    ensures r.Success? ==> 0.70 <= r.value.confidence <= 0.95 && 1 <= r.value.sectorAffected <= 3
    ensures r.Success? ==> r.value.expectedTimeGain == rawPrediction * 0.1
    ensures r.Success? && r.value.recommendation.Trail? ==> r.value.recommendation.timeGain == r.value.expectedTimeGain
    ensures r.Success? ==> (r.value.recommendation.MaintainPace? <==> r.value.threatType == NoThreat)
  {
    match Predict(m, t, rawPrediction)
    case Failure(e) => Failure(e)
    case Success((gripLoss, confidence)) =>
      var threat := ClassifyThreat(t, gripLoss);
      Success(GripPrediction(gripLoss, confidence, threat, GenerateRecommendation(threat, gripLoss),
                             AffectedSector(t), gripLoss * 0.1))
  }
}
