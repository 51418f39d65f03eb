/** One sample as the heart-rate service reports it: when it was measured and the rate. */
module HeartRates {

  /** `measuredAt` is the service's UNIX-millisecond timestamp; both fields are plain integers. */
  datatype HeartRate = HeartRate(measuredAt: int, heartRate: int)
}
