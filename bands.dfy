/**
 * The colour band a school gets from its deviation relative to the user's
 * own. The summary cards and both school lists use the same five bands;
 * `Neutral` is each component's default colour.
 */
module Bands {
  import opened Wrappers

  datatype Band = Yellow | Green | Orange | Red | Neutral

  /**
   * With diff = deviation - base: [-3, 3] green, (3, 6] orange, above 6 red,
   * [-6, -3) yellow; below -6, or no deviation, the default colour.
   */
  function DeviationBand(dev: Option<int>, base: int): (b: Band)
    ensures dev.None? ==> b == Neutral
    ensures dev.Some? ==> var diff := dev.value - base;
      && (b == Green <==> -3 <= diff <= 3)
      && (b == Orange <==> 3 < diff <= 6)
      && (b == Red <==> diff > 6)
      && (b == Yellow <==> -6 <= diff < -3)
      && (b == Neutral <==> diff < -6)
  {
    match dev
    case None => Neutral
    case Some(d) =>
      var diff := d - base;
      if -3 <= diff <= 3 then Green
      else if 3 < diff <= 6 then Orange
      else if diff > 6 then Red
      else if -6 <= diff < -3 then Yellow
      else Neutral
  }

  /** Bands from coolest to hottest: yellow, green, orange, red. */
  function Rank(b: Band): nat {
    match b
    case Yellow => 0
    case Green => 1
    case Orange => 2
    case Red => 3
    case Neutral => 0
  }

  /** Among deviations at most 6 below the base, a higher deviation never gets a cooler band. */
  lemma BandMonotone(d1: int, d2: int, base: int)
    requires d1 <= d2 && d1 - base >= -6
    ensures Rank(DeviationBand(Some(d1), base)) <= Rank(DeviationBand(Some(d2), base))
    ensures DeviationBand(Some(d1), base) != Neutral && DeviationBand(Some(d2), base) != Neutral
  {
  }

  /** Only the difference counts: raising deviation and base together keeps the band. */
  lemma BandShiftInvariant(dev: int, base: int, k: int)
    ensures DeviationBand(Some(dev + k), base + k) == DeviationBand(Some(dev), base)
  {
  }
}
