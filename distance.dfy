/** rssi_to_distance: the fixed linear path-loss model. */
module Distance {
  import opened Rounding

  function Abs(x: real): real {
    if x < 0.0 then -x else x
  }

  /**
   * (|rssi| - 30) / 10 rounded to one decimal. The model is not clamped:
   * magnitudes below 30 give negative distances.
   */
  function RssiToDistance(rssi: real): (d: real)
    ensures (Abs(rssi) - 30.0) / 10.0 - 0.05 <= d <= (Abs(rssi) - 30.0) / 10.0 + 0.05
    ensures (d * 10.0).Floor as real == d * 10.0
  {
    Round1((Abs(rssi) - 30.0) / 10.0)
  }

  /** A stronger signal never yields a larger distance. */
  lemma DistanceMonotone(a: real, b: real)
    requires Abs(a) <= Abs(b)
    ensures RssiToDistance(a) <= RssiToDistance(b)
  {
    Round1Monotone((Abs(a) - 30.0) / 10.0, (Abs(b) - 30.0) / 10.0);
  }

  /** Magnitudes clearly below 30 give a negative distance; it is not clamped to 0. */
  lemma DistanceNotClamped(rssi: real)
    requires Abs(rssi) < 29.5
    ensures RssiToDistance(rssi) < 0.0
  {
  }

  lemma DistanceExamples()
    ensures RssiToDistance(-80.0) == 5.0
    ensures RssiToDistance(-20.0) == -1.0
  {
    Round1OfTenths(50);
    assert (Abs(-80.0) - 30.0) / 10.0 == 50 as real / 10.0;
    Round1OfTenths(-10);
    assert (Abs(-20.0) - 30.0) / 10.0 == -10 as real / 10.0;
  }

  /** Every RSSI that passes validation maps into [-3.0, 12.0]. */
  lemma DistanceRange(rssi: real)
    requires -150.0 <= rssi <= 0.0
    ensures -3.0 <= RssiToDistance(rssi) <= 12.0
  {
    DistanceMonotone(0.0, rssi);
    DistanceMonotone(rssi, -150.0);
    Round1OfTenths(-30);
    assert (Abs(0.0) - 30.0) / 10.0 == -30 as real / 10.0;
    Round1OfTenths(120);
    assert (Abs(-150.0) - 30.0) / 10.0 == 120 as real / 10.0;
  }
}
