/** Sensor thresholds and normal ranges shared by the dashboard pages. */
module Constants {

  /** Pressure, psi. */
  const PressureLowThreshold: real := 55.0
  const PressureNormalMin: real := 60.0
  const PressureNormalMax: real := 70.0

  /** Acoustic level, dB. */
  const AcousticHighThreshold: real := 5.0
  const AcousticNormalMin: real := 2.0
  const AcousticNormalMax: real := 3.5

  /** Flow, L/s. */
  const FlowHighThreshold: real := 110.0
  const FlowNormalMin: real := 80.0
  const FlowNormalMax: real := 100.0

  /** Each alert threshold lies strictly outside its type's normal range, on the side it guards. */
  lemma ThresholdOrdering()
    ensures PressureLowThreshold < PressureNormalMin <= PressureNormalMax
    ensures AcousticNormalMin <= AcousticNormalMax < AcousticHighThreshold
    ensures FlowNormalMin <= FlowNormalMax < FlowHighThreshold
  {
  }
}
