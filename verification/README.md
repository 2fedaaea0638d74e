# AeroPulse grip-loss backend — a Dafny model

AeroPulse is a FastAPI service that predicts how much grip a GR Cup race car is losing. It
predicts the grip loss from the car's lap telemetry and then:

- names the likely cause (dirty air, tyre fade or a weather shift);
- picks a coaching recommendation and the most affected sector;
- explains the prediction with SHAP values;
- streams predictions to per-car WebSocket subscribers.

The model is trained on per-track CSV exports. Those are filtered (`validate_data`) and
turned into a fixed set of engineered features and a clipped grip-loss target
(`create_feature_matrix`).

This project models the decision logic around the numeric libraries. The XGBoost prediction,
the SHAP values and each track's loaded tables enter as inputs.

| module (file) | what it models |
|---|---|
| `Wrappers` (wrappers.dfy) | `Option` (null cells, missing files) and `Result` (raised errors) |
| `Arith` (arith.dfy) | `abs`, `min`, `max`, `numpy.clip` on reals |
| `Seqs` (seqs.dfy) | order-preserving subsequences, `filter`, Python's `s[:k]` |
| `Ranking` (ranking.dfy) | the order a stable `sort(key=…, reverse=True)` produces, and its top-k prefix |
| `Config` (config.dfy) | the dirty-air, tyre-fade and weather-shift thresholds, the grip-loss range |
| `Schemas` (schemas.dfy) | `TelemetryInput` and `SHAPExplanation` |
| `GripModel` (grip_model.dfy) | threat rule, recommendation, sector argmax, confidence clamp, feature vector, the trained flag, the `/predict` response |
| `Explainer` (explainer.dfy) | zip-sort-truncate of SHAP explanations, global importance, batch fallback |
| `Connections` (connections.dfy) | the WebSocket `ConnectionManager` registry `map<int, seq<ConnId>>` |
| `Frames` (frames.dfy) | telemetry tables as rows of nullable cells; polars `min().over()` / `mean().over()` / `mean()` |
| `FeatureEngineer` (feature_engineer.dfy) | per-row features, column defaults, feature selection, the clipped target |
| `DataLoader` (data_loader.dfy) | `find_file`, `validate_data`, `load_all_datasets` |

The request record `TelemetryInput` (app/models.py:6-18) is a datatype in `Schemas`.

Modelling conventions:

- **Numbers.** Floats are `real`. A null cell is `None`, and an operation on a null gives
  null, as in polars. A numpy NaN in the target is also `None`.
- **Connections.** A WebSocket is an opaque `ConnId`. A failed `send_json` is membership in
  a `failed` set of connection ids.
- **Raised exceptions.** An exception the code catches becomes its fallback value. One it
  raises becomes a `Result` failure.

## Model

| member | source | states |
|---|---|---|
| GripModel.ClassifyThreat | app/ml/grip_model.py:130-150 | the threat is always one of the four labels; dirty_air iff gap < 1.5 and top speed < 175 (both strict); otherwise tire_fade iff abs(s1 − s3) > 0.3; otherwise weather_shift iff grip loss > 3.0; otherwise none |
| GripModel.DirtyAirDominates | app/ml/grip_model.py:137-139 | once gap and speed place a car in dirty air, no change to sector times or grip loss changes the label |
| GripModel.ThreatMonotoneInGripLoss | app/ml/grip_model.py:142-150 | raising the grip loss alone can only move the label from none to weather_shift, never the other way, and never changes dirty_air or tire_fade |
| GripModel.GenerateRecommendation | app/ml/grip_model.py:152-167 | dirty_air gives "Trail 1.8 s" with a gain of grip_loss·0.1; tire_fade gives the brake-bias text; weather_shift gives the ease-throttle text; any other label gives "Maintain current pace" |
| GripModel.RecommendationFollowsClassification | app/ml/grip_model.py:130-167 | the recommendation for the classified threat is a trail instruction exactly when the car is in dirty air, and maintain-pace exactly when no threat was found |
| GripModel.ArgMax | app/ml/grip_model.py:177 | `np.argmax`: an index holding the maximum, with every earlier index strictly smaller (first occurrence wins) |
| GripModel.AffectedSector | app/ml/grip_model.py:169-177 | the sector is in 1..3, its time is at least the other two, and every lower-numbered sector is strictly faster (ties go to the lowest sector) |
| GripModel.Confidence | app/ml/grip_model.py:108-109 | the confidence lies in [0.70, 0.95]; it is 0.95 iff abs(prediction) ≤ 1, 0.70 iff abs(prediction) ≥ 6, and 1 − abs(prediction)/20 in between |
| GripModel.ConfidenceNonIncreasing | app/ml/grip_model.py:109 | a prediction of larger magnitude never has higher confidence |
| GripModel.TelemetryToFeatures | app/ml/grip_model.py:113-128 | as written: the first min(9, number of trained names) features; the lap_in_stint entry is lap_number mod 15 in [0, 14]; the ninth entry is s1+s2+s3, i.e. the three deltas plus 90 |
| GripModel.AllFeatures | app/ml/grip_model.py:116-126 | the nine request features: each sector delta plus its reference time is the sector time, the speed ratio recovers the top speed, the gap is passed through, the weather deltas plus 25 and 10 recover temperature and wind, lap_in_stint is a whole number in [0, 14] congruent to the lap mod 15, and the total is the three deltas plus 90 |
| GripModel.FeatureByName | app/ml/grip_model.py:116-126 | a request feature is defined exactly for the nine engineered feature names, and is the value placed at that name's position |
| GripModel.AlignedFeatures | app/ml/grip_model.py:113-128 | corrected feature vector: one entry per trained feature name, each the value for that name; undefined iff some trained name is unknown |
| GripModel.TruncationAlignedOnPrefix | app/ml/grip_model.py:128 | when the trained names are a prefix of the full feature list, truncating by count agrees with name-based alignment |
| GripModel.TruncationMisalignsWithoutSectorColumns | app/ml/grip_model.py:128 | for the documented example request and a model trained on gap_normalized, temp_delta, wind_delta and lap_in_stint only, truncation feeds the s1 delta (0.5) where the gap (2.3) belongs |
| GripModel.NewModel | app/ml/grip_model.py:20-25 | a new model is untrained, has no feature names and no fitted scaler or regressor |
| GripModel.Train | app/ml/grip_model.py:41-77 | training records the feature names first; a raise at the split keeps the old scaler and regressor, a raise at the scaling or fit leaves an unfitted one installed, and only a completed fit sets the trained flag with a scaler and regressor fitted on one column per name; a raise leaves the flag as it was |
| GripModel.Load | app/ml/grip_model.py:193-205 | loading fails with file-not-found iff there is no stored model; otherwise it restores the stored names with a scaler and regressor fitted on them, and sets the trained flag |
| GripModel.Predict | app/ml/grip_model.py:91-111 | predicting raises "not trained" iff the flag is clear, and otherwise raises iff the scaler and regressor are unfitted or fitted on a width other than the request vector's; on success it returns the raw prediction and exactly its clamped confidence, which lies in [0.70, 0.95] and is 0.95 for a zero prediction |
| GripModel.ReplayTrained | app/ml/grip_model.py:20-205 | after any sequence of train/load calls, the model is trained iff it started trained or some train completed its fit or some load found its file |
| GripModel.TrainedOnlyAfterTrainOrLoad | app/ml/grip_model.py:91-102 | from a new model, the flag is set iff some train completed or some load succeeded, and until then every prediction fails |
| GripModel.PredictAfterEstablish | app/ml/grip_model.py:41-106 | right after a completed train or a successful load with at most nine feature names, every prediction succeeds |
| GripModel.FailedRetrainBreaksPredict | app/ml/grip_model.py:41-106 | after a load of the nine features, a train on four of them that raises at the split leaves the model trained but makes every prediction raise, where before it succeeded |
| GripModel.PredictGrip | app/api/routes.py:73-125 | the /predict response fails (503) iff the model is untrained and (500) iff its prediction raises; otherwise its grip loss is the prediction, its threat the classification of it, its confidence the clamp of it, its sector the slowest-sector argmax and its recommendation the one for that threat; the expected gain is grip_loss·0.1, and the advice is maintain-pace iff there is no threat |
| Explainer.ExplainPrediction | app/ml/explainer.py:32-97 | empty with no explainer, on a SHAP failure, or when names and SHAP values reach past the feature vector (the caught IndexError); otherwise at most top_k entries and at most min(names, SHAP values); ordered by absolute contribution, non-increasing; every entry pairs name i, SHAP value i and feature i with the common baseline; exactly the top_k prefix of the stable descending ranking |
| Explainer.ExplanationsAreStableTopK | app/ml/explainer.py:81-93 | equal contributions keep their feature order, and any feature left out has an absolute contribution no larger than every kept one |
| Explainer.GetFeatureImportance | app/ml/explainer.py:99-128 | empty on failure; otherwise exactly min(names, importances) entries, sorted by importance non-increasing, containing every zipped name/importance pair, in the stable descending order |
| Explainer.ExplainBatch | app/ml/explainer.py:130-159 | the SHAP matrix when the explainer works; otherwise a zero matrix of the batch's shape |
| Ranking.Rank | app/ml/explainer.py:91 | the ranking lists every index once, larger keys first and equal keys in original order |
| Ranking.RankedUnique | app/ml/explainer.py:122 | two rankings of the same indices are equal: the stable descending order is unique |
| Ranking.Top | app/ml/explainer.py:91-93 | the top-k prefix (Python slice, negative k drops from the end) is ranked and beats every index it leaves out |
| Seqs.PrefixSlice | app/ml/explainer.py:93 | Python's `s[:k]`: a prefix of length min(k, n) for k ≥ 0, and max(n + k, 0) for k < 0 |
| Ranking.RankedOrderStatistic | app/ml/data_loader.py:149 | in a complete descending ranking, the key at position p has at most n−1−p keys below it and at most p above it |
| Ranking.OrderStatisticUnique | app/ml/data_loader.py:149 | a list has exactly one k-th order statistic |
| Ranking.MeanOfMiddles | app/ml/data_loader.py:149 | the mean of the two middle order statistics has at most half the values strictly on either side |
| Connections.Connect | app/api/websocket.py:21-28 | the connection is appended at the end of the car's list (a new car starts empty); other cars are unchanged; no car is left with an empty list |
| Connections.RemoveFirst | app/api/websocket.py:34-35 | `list.remove`: removes exactly the first occurrence, or nothing when absent |
| Connections.Disconnect | app/api/websocket.py:31-39 | an unknown car changes nothing; the car's key goes iff its list becomes empty; other cars are unchanged; no car is left with an empty list |
| Connections.DisconnectAbsentIsNoop | app/api/websocket.py:33-39 | disconnecting an unregistered connection leaves the registry unchanged |
| Connections.DisconnectUndoesConnect | app/api/websocket.py:21-39 | connecting a new connection and then disconnecting it restores the registry |
| Connections.RemovingFailuresLeavesSurvivors | app/api/websocket.py:48-57 | removing each failed connection in turn leaves the survivors in their original order |
| Connections.BroadcastToCar | app/api/websocket.py:43-57 | an unknown car changes nothing; other cars are unchanged; the car's list becomes the connections whose send succeeded, in order, and the key is removed iff none did |
| Connections.BroadcastAll | app/api/websocket.py:59-62 | over a snapshot of the keys, each car at the start is visited once; the result keeps exactly the cars with a surviving connection, each with its survivors |
| Frames.GroupMin | app/ml/feature_engineer.py:104-107 | polars `min().over(key)`: null iff the group has no value; otherwise a value of the group and no larger than any of them |
| Frames.MeanOver | app/ml/feature_engineer.py:128 | polars `mean().over(key)`: null iff the row's group has no value; otherwise the one point around which the deviations of the group's values sum to zero |
| Frames.CenteredExactlyAtQuotient | app/ml/feature_engineer.py:128 | a non-empty group's deviations sum to zero at exactly one point, its sum over its count |
| Frames.MeanOverWithinBounds | app/ml/feature_engineer.py:128 | a group mean lies within any bounds of the group's values |
| Frames.Mean | app/ml/feature_engineer.py:143 | polars `mean()`: null iff the column has no value; otherwise the one point around which the deviations of the column's values sum to zero |
| Frames.MeanWithinBounds | app/ml/feature_engineer.py:150 | a column mean lies within any bounds of the column's values |
| FeatureEngineer.BestLapAt | app/ml/feature_engineer.py:31-35 | BEST_LAP is kept when present; otherwise it is the driver's fastest lap: one of their lap times, and no slower than any |
| FeatureEngineer.SectorDelta | app/ml/feature_engineer.py:95-112 | s_i_delta is null iff the sector time is; it is ≥ 0, at least the difference to any of the driver's times, and equal to one of them |
| FeatureEngineer.SectorDeltaZeroForEachDriver | app/ml/feature_engineer.py:104-112 | every driver with a timed sector has a row whose delta is 0 |
| FeatureEngineer.TotalSectorTime | app/ml/feature_engineer.py:114-118 | total_sector_time is the sum of the three sectors, null if any is null |
| FeatureEngineer.SpeedDrop | app/ml/feature_engineer.py:123-136 | speed_drop is the top speed's shortfall from its track's mean, relative to that mean |
| FeatureEngineer.WeatherDelta | app/ml/feature_engineer.py:139-155 | temp_delta / wind_delta are 0.0 when the column is absent, else the value less the column mean (null-propagating) |
| FeatureEngineer.LapInStint | app/ml/feature_engineer.py:158-165 | lap_in_stint is in [0, 14] and congruent to the lap number mod 15 |
| FeatureEngineer.GapNormalized | app/ml/feature_engineer.py:168-178 | gap_normalized is the cast GAP when present, else 2.0 |
| FeatureEngineer.EngineerRow | app/ml/feature_engineer.py:29-50 | an engineered row: sector deltas, speed drop and total sector time are null without their columns and otherwise the per-driver sector deltas, the track-relative speed drop and the sector sum |
| FeatureEngineer.EngineerRowContext | app/ml/feature_engineer.py:139-178 | gap_normalized is the cast GAP or 2.0 without the column; temp_delta and wind_delta are the value less the column mean, or 0.0 without the column; lap_in_stint, lap_time_seconds and BEST_LAP are carried into the row |
| FeatureEngineer.EngineerRowAbsentNull | app/ml/feature_engineer.py:95-136 | an engineered row has no value for a feature whose source columns are missing |
| FeatureEngineer.Engineer | app/ml/feature_engineer.py:9-50 | engineering succeeds iff the columns every expression reads exist; it keeps one row per input row, each row i equal to the engineered row i, and has the expected feature columns |
| FeatureEngineer.SelectFeatures | app/ml/feature_engineer.py:53-69 | the selected features are those of the fixed nine-name list that exist, in that list's order; error iff none exists |
| FeatureEngineer.TargetValue | app/ml/feature_engineer.py:184-193 | the target is in [0, 20]: 0 iff 100·(lap − best)/best ≤ 0, 20 iff it is ≥ 20, that value in between; NaN (None) only for a null operand or 0/0; a zero best lap clips to 20 for a positive lap time and to 0 for a negative one |
| FeatureEngineer.GripLossTarget | app/ml/feature_engineer.py:181-195 | one target per row, all in [0, 20]; all zeros when lap_time_seconds or BEST_LAP is missing |
| FeatureEngineer.DerivedBestLapTargetNonNegative | app/ml/feature_engineer.py:31-35 | with BEST_LAP derived and all lap times positive, the unclipped target is never negative |
| FeatureEngineer.BuildMatrix | app/ml/feature_engineer.py:71 | one matrix row per kept row, each holding that row's selected feature values in the selected order |
| FeatureEngineer.KeptRows | app/ml/feature_engineer.py:60-63 | the rows kept are, in order, exactly those with every selected feature non-null, each with all of its copies |
| FeatureEngineer.CreateFeatureMatrix | app/ml/feature_engineer.py:9-78 | succeeds iff the needed columns exist; the selected features are exactly the existing ones, in list order; X is the selected values of the kept rows and y their targets, one row per kept row; every target is in [0, 20], all zero without lap_time_seconds |
| FeatureEngineer.NoFeaturesUnreachable | app/ml/feature_engineer.py:60-69 | gap_normalized, temp_delta, wind_delta and lap_in_stint always exist, so "No features available" is never raised |
| FeatureEngineer.SectorFeaturesSelected | app/ml/feature_engineer.py:95-136 | s_i_delta is selected iff sector i exists, total_sector_time iff all three do, speed_drop iff TOP_SPEED does |
| DataLoader.LowerChar | app/ml/data_loader.py:90 | ASCII lower-casing: upper-case letters shift by 32, others are unchanged, and the result is never upper-case |
| DataLoader.SearchFrom | app/ml/data_loader.py:90 | the left-to-right search finds the pattern iff it occurs at or after the start position |
| DataLoader.Contains | app/ml/data_loader.py:90 | Python's `in` on strings: true iff the pattern occurs at some position (always, for an empty pattern) |
| DataLoader.FirstMatch | app/ml/data_loader.py:89-94 | the position of the first name matching every pattern; none iff no name matches |
| DataLoader.FindFile | app/ml/data_loader.py:87-95 | a returned name matches every lower-cased pattern; none iff neither listing has a match; the first "*.CSV" match wins, and the first "*.csv" match is used only when no "*.CSV" name matches |
| DataLoader.DropMissingRequired | app/ml/data_loader.py:138-142 | the null filters keep, in order, exactly the rows that have NUMBER, LAP_NUMBER and LAP_TIME (for each of those columns that exists), each with all of its copies |
| DataLoader.CastLapTime | app/ml/data_loader.py:160-163 | the non-strict float cast gives the seconds of a numeric cell and null for a null or non-numeric one |
| DataLoader.CastCommutesWithDrop | app/ml/data_loader.py:138-147 | casting LAP_TIME after the null filters gives the same rows as filtering the cast table |
| DataLoader.NonNull | app/ml/data_loader.py:149 | the values `median()` works on: each non-null value exactly as many times as it occurs in the column, nulls ignored |
| DataLoader.Median | app/ml/data_loader.py:149 | polars `median()`: null iff there is no value; otherwise at most half the values lie strictly below it and at most half strictly above; the middle order statistic for an odd count, the mean of the two middle ones for an even count |
| DataLoader.ValidateData | app/ml/data_loader.py:134-157 | validation adds lap_time_seconds iff LAP_TIME exists, keeps every other column, and only removes rows, keeping their order and every copy of a survivor; survivors are exactly the complete rows and, with a present non-zero median, those with 0 < lap time < 1.2·median; otherwise no outlier filter is applied |
| DataLoader.FilterAfterDrop | app/ml/data_loader.py:138-154 | the outlier filter after the null filters keeps, in order and with every copy, exactly the complete rows that pass it |
| DataLoader.Tag | app/ml/data_loader.py:46 | tagging adds the track_id column, keeps every other column, and sets each row's track id, leaving the rest of every row and the row count unchanged |
| DataLoader.TagAll | app/ml/data_loader.py:46 | one tagged table per loaded track, in order |
| DataLoader.Collect | app/ml/data_loader.py:31-72 | the loop equals tagging, in order, exactly the tracks that loaded, skipping missing or failing ones |
| DataLoader.NothingLoaded | app/ml/data_loader.py:74-75 | the loaded list is empty iff no named track loaded |
| DataLoader.CollectedRowsTagged | app/ml/data_loader.py:46-67 | every collected table has the track_id column, and each of its rows carries the id of a named track that loaded |
| DataLoader.ConcatRows | app/ml/data_loader.py:78 | vertical concatenation is exactly the tables' rows, table after table: as many rows as all tables together, with row j of table k at that table's offset plus j |
| DataLoader.LoadAllDatasets | app/ml/data_loader.py:9-84 | fails with "no data" iff no track loaded, and with a schema mismatch iff the loaded tables differ in their column names, read or not; otherwise the result is the validation of the concatenated tables; every returned row carries the id of a requested track that loaded; the result has a track_id column |
| DataLoader.OtherColumnMismatchFails | app/ml/data_loader.py:78 | two tracks whose tables differ only in POSITION make loading fail with a schema mismatch |
| DataLoader.DefaultTrackList | app/ml/data_loader.py:28-29 | no track list is the same as asking for barber and indianapolis |

## Left out

- XGBoost training, scaling and prediction, and the train/test metrics (app/ml/grip_model.py:44-75, 104-106): foreign numerics. The raw prediction is an input real.
- SHAP value computation and the shape juggling of its output (app/ml/explainer.py:26, 55-77, 150-153): a foreign call. The SHAP values and expected value are inputs, and a raised error is a `None` input.
- `get_summary_plot_data` (app/ml/explainer.py:161-182): a dictionary wrapper around `explain_batch`.
- Saving to and loading from disk (app/ml/grip_model.py:179-207): the loaded artefact is an `Option<StoredModel>` input.
- CSV reading, globbing and the weather, best-lap and results merges (app/ml/data_loader.py:45-65, 98-131): I/O and polars joins. Each track's outcome is an input, with the merged table as its frame.
- The async accept/send/receive loop, FastAPI routing, timestamps and processing time (app/api/websocket.py:68-168, app/api/routes.py, app/main.py): I/O and concurrency plumbing.
- Python dict insertion order: `broadcast_all` takes its key snapshot as a sequence listing every key once.
- GripModel.Train: where the split or fit raises is an input (`TrainOutcome`); when scikit-learn and XGBoost raise is foreign, and a completed fit is taken to see one column per feature name.
- GripModel.GenerateRecommendation: the spoken text is a datatype, and the gain is a real rather than the "{:.1f}" string.
- DataLoader.LowerChar: only ASCII lower-casing; Unicode case folding is not modelled.
- String-to-float casts (`cast(pl.Float64, strict=False)`) of SECTOR_i, GAP and LAP_TIME are foreign. Sector and gap cells enter already cast. A LAP_TIME cell is null, non-numeric text or seconds.
- FeatureEngineer.SpeedDrop: a track mean of exactly 0 divides to inf/NaN in polars; the model gives null there, which the null filter then drops where polars would keep the row.
- FeatureEngineer.LapInStint and GripModel.TelemetryToFeatures: the remainder is floored (Python's and polars' convention), so a negative lap number also lands in [0, 14].
- FeatureEngineer.CreateFeatureMatrix: the returned names are the `Name()` of each selected `Feature`; the engineered columns are an enumeration rather than strings.
- FeatureEngineer.Engineer: a missing column makes polars raise a ColumnNotFoundError; the model has one `MissingColumn` error without naming the column.
- DataLoader.LoadAllDatasets: vertical concatenation fails on differing column-name sets (`SchemaMismatch`); columns the model does not read are compared by name only, and dtype and column-order mismatches are not modelled.
- Connections.BroadcastAll: requires the registry invariant (no car maps to an empty list), which `connect` and `disconnect` keep.
- IEEE arithmetic in general (rounding, overflow, signed zero) is not modelled; reals are exact.

## Findings

| source | as written | input that shows it | evidently intended | confidence | as-written member | corrected member |
|---|---|---|---|---|---|---|
| app/ml/grip_model.py:113-128 | `_telemetry_to_features` builds all nine features in a fixed order and truncates to the first `len(self.feature_names)` | a model trained on a table without sector columns has feature names gap_normalized, temp_delta, wind_delta, lap_in_stint; the example request then yields [0.5, 0.1, −0.2, −1/72] where the model expects [2.3, 0.0, −1.5, 0.0] | pick each trained feature by name, so the vector lines up with the training columns | medium, not executed | GripModel.TelemetryToFeatures, GripModel.TruncationMisalignsWithoutSectorColumns | GripModel.AlignedFeatures, GripModel.TruncationAlignedOnPrefix |
