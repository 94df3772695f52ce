/** The five alert levels shared by the sensor model and every output
    peripheral. */
module TrafficLight {

  /** `TrafficLightStatus`. Its declaration (model.h) is not part of this
      model; the order UNDEFINED < GREEN < YELLOW < RED < DARK_RED is an
      ASSUMPTION, on which both `max(co2Status, iaqStatus)` and the indexing
      of the smiley and message bitmaps by status depend. `Rank` fixes it. */
  datatype Status = Undefined | Green | Yellow | Red | DarkRed

  /** The enumerator's integer value (0..4), used as an array index. */
  function Rank(s: Status): (n: nat)
    ensures n < 5
    ensures n == 0 <==> s == Undefined
  {
    match s
    case Undefined => 0
    case Green => 1
    case Yellow => 2
    case Red => 3
    case DarkRed => 4
  }

  /** Severity order on statuses. */
  predicate AtMost(a: Status, b: Status) {
    Rank(a) <= Rank(b)
  }

  /** `std::max` on two statuses: the more severe of the two. */
  function Max(a: Status, b: Status): (m: Status)
    ensures AtMost(a, m) && AtMost(b, m)
    ensures m == a || m == b
  {
    if Rank(a) < Rank(b) then b else a
  }

  /** `Max` is the least upper bound: anything at least as severe as both
      arguments is at least as severe as their maximum. */
  lemma MaxLeastUpperBound(a: Status, b: Status, c: Status)
    requires AtMost(a, c) && AtMost(b, c)
    ensures AtMost(Max(a, b), c)
  {
  }

  /** The CO2 thresholds of the device configuration (`config.yellowThreshold`,
      `config.redThreshold`, `config.darkRedThreshold`, in ppm). The
      configuration can be changed at run time, so every classification takes
      the thresholds in force at the moment of the call. No order between the
      three is assumed: the classification is a first-match chain. */
  datatype Thresholds = Thresholds(yellow: int, red: int, darkRed: int)
}
