/** The integer part of `HourlyBasedFeeStrategy` and `MinuteBasedFeeStrategy`.
    Fees are counted in tenths of a currency unit so that the per-minute rates
    (0.5, 0.2, 1.0) are exact. */
module Fees {
  import opened Spots

  const MillisPerHour: int := 1000 * 60 * 60
  const MillisPerMinute: int := 1000 * 60

  datatype FeeStrategy = HourlyBased | MinuteBased

  /** Euclidean division of a non-negative dividend brackets it. */
  lemma DivisionBounds(a: int, b: int)
    requires a >= 0 && b > 0
    ensures 0 <= (a / b) * b <= a < (a / b) * b + b
  {
    assert a == (a / b) * b + a % b;
  }

  lemma MulMonotone(x: int, y: int, c: int)
    requires x <= y && c >= 0
    ensures x * c <= y * c
  {
    assert (y - x) * c >= 0;
  }

  /** Java's `long` division, which truncates toward zero (Dafny's `/` is
      Euclidean and differs for a negative dividend). */
  function JavaDiv(a: int, b: int): (q: int)
    requires b > 0
    ensures a >= 0 ==> 0 <= q * b <= a < q * b + b
    ensures a < 0 ==> q <= 0 && q * b - b < a <= q * b
  {
    if a >= 0 then DivisionBounds(a, b); a / b
    else
      DivisionBounds(-a, b);
      var d := (-a) / b;
      assert -d * b == -(d * b);
      -d
  }

  /** The number of whole units charged for `duration` milliseconds:
      `(duration + unit - 1) / unit`. For a non-negative duration this is the
      ceiling of duration / unit. */
  function BillableUnits(duration: int, unit: int): (k: int)
    requires unit > 0
    ensures duration >= 0 ==> (k - 1) * unit < duration <= k * unit
    ensures duration <= 0 ==> k <= 0
  {
    JavaDiv(duration + unit - 1, unit)
  }

  /** The ceiling characterisation has exactly one solution. */
  lemma CeilingIsUnique(duration: int, unit: int, k1: int, k2: int)
    requires unit > 0
    requires (k1 - 1) * unit < duration <= k1 * unit
    requires (k2 - 1) * unit < duration <= k2 * unit
    ensures k1 == k2
  {
    if k1 < k2 {
      MulMonotone(k1, k2 - 1, unit);
    } else if k2 < k1 {
      MulMonotone(k2, k1 - 1, unit);
    }
  }

  /** A duration of exactly k units charges k units; one millisecond more
      charges a whole further unit. */
  lemma ExtraMillisecondChargesWholeUnit(k: nat, unit: int)
    requires unit > 0
    ensures BillableUnits(k * unit, unit) == k
    ensures BillableUnits(k * unit + 1, unit) == k + 1
  {
    var a := BillableUnits(k * unit, unit);
    CeilingIsUnique(k * unit, unit, a, k);
    var b := BillableUnits(k * unit + 1, unit);
    assert k * unit < k * unit + 1 <= (k + 1) * unit;
    CeilingIsUnique(k * unit + 1, unit, b, k + 1);
  }

  function UnitMillis(strategy: FeeStrategy): int {
    match strategy
    case HourlyBased => MillisPerHour
    case MinuteBased => MillisPerMinute
  }

  /** The per-unit prices exactly as the two strategies write them, in
      currency units. */
  function JavaRate(strategy: FeeStrategy, kind: VehicleType): real {
    match (strategy, kind)
    case (HourlyBased, Car) => 20.0
    case (HourlyBased, Bike) => 10.0
    case (HourlyBased, Truck) => 30.0
    case (MinuteBased, Car) => 0.5
    case (MinuteBased, Bike) => 0.2
    case (MinuteBased, Truck) => 1.0
  }

  /** Price of one unit, in tenths: 20/10/30 per hour, 0.5/0.2/1.0 per minute
      for car/bike/truck. Every price is a whole, positive number of tenths. */
  function RateTenths(strategy: FeeStrategy, kind: VehicleType): (r: nat)
    ensures r > 0
    ensures r as real == 10.0 * JavaRate(strategy, kind)
  {
    match (strategy, kind)
    case (HourlyBased, Car) => 200
    case (HourlyBased, Bike) => 100
    case (HourlyBased, Truck) => 300
    case (MinuteBased, Car) => 5
    case (MinuteBased, Bike) => 2
    case (MinuteBased, Truck) => 10
  }

  /** `calculateFee`: the billable units of the strategy's granularity times
      the vehicle type's rate. */
  function FeeTenths(strategy: FeeStrategy, kind: VehicleType, duration: int): (fee: int)
    ensures duration >= 0 ==> fee >= 0
    ensures duration == 0 ==> fee == 0
    ensures duration > 0 ==> fee >= RateTenths(strategy, kind)
  {
    BillableUnits(duration, UnitMillis(strategy)) * RateTenths(strategy, kind)
  }

  /** The fee of a duration that lies within the k-th unit, (k-1)*unit
      exclusive to k*unit inclusive, is k times the rate. */
  lemma FeeIsCeilingTimesRate(strategy: FeeStrategy, kind: VehicleType, duration: int, k: int)
    requires duration >= 0
    requires (k - 1) * UnitMillis(strategy) < duration <= k * UnitMillis(strategy)
    ensures FeeTenths(strategy, kind, duration) == k * RateTenths(strategy, kind)
  {
    var unit := UnitMillis(strategy);
    CeilingIsUnique(duration, unit, BillableUnits(duration, unit), k);
  }

  /** Staying longer never costs less. */
  lemma FeeIsMonotone(strategy: FeeStrategy, kind: VehicleType, d1: int, d2: int)
    requires 0 <= d1 <= d2
    ensures FeeTenths(strategy, kind, d1) <= FeeTenths(strategy, kind, d2)
  {
    var unit := UnitMillis(strategy);
    var k1 := BillableUnits(d1, unit);
    var k2 := BillableUnits(d2, unit);
    if k2 < k1 {
      MulMonotone(k2, k1 - 1, unit);
    }
    MulMonotone(k1, k2, RateTenths(strategy, kind));
  }
}
