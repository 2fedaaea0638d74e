/** The backend's settings that the modelled logic reads (app/config.py). */
module Config {

  /** A car closer than this many seconds to the car ahead may be in dirty air. */
  const DirtyAirGapThreshold: real := 1.5

  /** ... provided its top speed (mph) is also below this. */
  const DirtyAirSpeedThreshold: real := 175.0

  /** A gap (seconds) between sector 1 and sector 3 times above this signals tire fade. */
  const TireFadeSectorDiffThreshold: real := 0.3

  /** A predicted grip loss (percent) above this signals a weather shift. */
  const WeatherShiftGripThreshold: real := 3.0

  /** The range the grip-loss training target is clipped to (percent). */
  const MinGripLossPercent: real := 0.0
  const MaxGripLossPercent: real := 20.0
}
