/** The request and response records of the prediction API (app/models.py) that the
    modelled logic consumes or produces. */
module Schemas {
  import opened Wrappers

  /** One telemetry sample for a car, as posted to the prediction endpoint. */
  datatype TelemetryInput = TelemetryInput(
    number: int,
    lapNumber: int,
    sector1Time: real,
    sector2Time: real,
    sector3Time: real,
    topSpeed: real,
    gapToPrevious: real,
    airTemperature: real,
    windSpeed: real,
    trackTemperature: Option<real>,
    rain: bool)

  /** The SHAP contribution of one feature to one prediction. */
  datatype ShapExplanation = ShapExplanation(
    featureName: string,
    contribution: real,
    featureValue: real,
    baseline: real)
}
