/**
  Durations in milliseconds: the saturating conversion `clampMs` and the unit
  table of `unitToMilliseconds` (main.cpp:26, 79-108).

  The source computes in `long double`; here the value and the products are
  exact reals, so the result is the truncation of the exact product.
 */
module Duration {
  import opened Wrappers
  import opened Text

  const INT64_MAX: int := 0x7FFF_FFFF_FFFF_FFFF

  /** The ceiling of every duration (main.cpp:26): INT64_MAX / 4, written out. */
  const MAX_MS: int := 0x1FFF_FFFF_FFFF_FFFF

  lemma MaxMsIsQuarter()
    ensures MAX_MS == INT64_MAX / 4 && MAX_MS * 4 + 3 == INT64_MAX
  {
  }

  function Min(a: int, b: int): int {
    if a <= b then a else b
  }

  /**
    `clampMs`: values at or below zero give 0, values above MAX_MS give MAX_MS,
    everything else is truncated toward zero.
   */
  function ClampMs(ms: real): (r: int)
    ensures 0 <= r <= MAX_MS
    ensures ms <= 0.0 ==> r == 0
    ensures ms > MAX_MS as real ==> r == MAX_MS
    ensures 0.0 < ms <= MAX_MS as real ==> r as real <= ms < r as real + 1.0
  {
    if ms <= 0.0 then 0
    else if ms > MAX_MS as real then MAX_MS
    else
      var res := ms.Floor;
      // the source's guard against a negative cast result; it never fires for 0 < ms <= MAX_MS
      if res < 0 then MAX_MS else res
  }

  /** The units `unitToMilliseconds` recognises. */
  datatype Unit = Millisecond | Second | Minute | Hour | Day | Week | Month | Year {

    /** The fixed multiplier of the unit; a month is 30 days, a year 365 days. */
    function Millis(): (m: nat)
      ensures m >= 1
    {
      match this
      case Millisecond => 1
      case Second => 1000
      case Minute => 60 * 1000
      case Hour => 60 * 60 * 1000
      case Day => 24 * 60 * 60 * 1000
      case Week => 7 * 24 * 60 * 60 * 1000
      case Month => 30 * 24 * 60 * 60 * 1000
      case Year => 365 * 24 * 60 * 60 * 1000
    }
  }

  /** The unit a lower-cased unit token names: the branch chain of main.cpp:96-103. */
  function UnitOf(u: string): Option<Unit> {
    if u == "ms" then Some(Millisecond)
    else if u == "s" || u == "sec" || u == "" then Some(Second)
    else if u == "m" || u == "min" then Some(Minute)
    else if u == "h" || u == "hr" || u == "hour" then Some(Hour)
    else if u == "d" || u == "day" then Some(Day)
    else if u == "w" || u == "wk" || u == "week" then Some(Week)
    else if u == "mo" || u == "mon" || u == "month" then Some(Month)
    else if u == "y" || u == "yr" || u == "year" then Some(Year)
    else None
  }

  /** The spellings of each unit, as the usage comment at main.cpp:88-89 lists them. */
  function Aliases(unit: Unit): set<string> {
    match unit
    case Millisecond => {"ms"}
    case Second => {"s", "sec", ""}
    case Minute => {"m", "min"}
    case Hour => {"h", "hr", "hour"}
    case Day => {"d", "day"}
    case Week => {"w", "wk", "week"}
    case Month => {"mo", "mon", "month"}
    case Year => {"y", "yr", "year"}
  }

  /** The value in milliseconds, multiplied out with literal factors as main.cpp:96-103 does. */
  function Scale(value: real, unit: Unit): real {
    match unit
    case Millisecond => value
    case Second => value * 1000.0
    case Minute => value * 60.0 * 1000.0
    case Hour => value * 60.0 * 60.0 * 1000.0
    case Day => value * 24.0 * 60.0 * 60.0 * 1000.0
    case Week => value * 7.0 * 24.0 * 60.0 * 60.0 * 1000.0
    case Month => value * 30.0 * 24.0 * 60.0 * 60.0 * 1000.0
    case Year => value * 365.0 * 24.0 * 60.0 * 60.0 * 1000.0
  }

  /** Scaling is multiplying by the unit's multiplier. */
  lemma ScaleIsProduct(value: real, unit: Unit)
    ensures Scale(value, unit) == value * unit.Millis() as real
  {
  }

  /**
    `unitToMilliseconds`: the unit token is lower-cased and looked up; a known
    unit scales the value and saturates, an unknown one contributes 0 (the
    source also prints "Unbekannte Einheit").
   */
  function UnitToMilliseconds(value: real, unitPart: string): (r: int)
    ensures 0 <= r <= MAX_MS
    ensures UnitOf(Lower(unitPart)).None? ==> r == 0
  {
    match UnitOf(Lower(unitPart))
    case None => 0
    case Some(unit) => ClampMs(Scale(value, unit))
  }

  /** The branch chain and the alias table agree, in both directions. */
  lemma UnitOfMatchesAliases(u: string, unit: Unit)
    ensures UnitOf(u) == Some(unit) <==> u in Aliases(unit)
  {
  }

  /** Lower-casing is idempotent, so the token's case never matters. */
  lemma UnitCaseInsensitive(value: real, unitPart: string)
    ensures UnitToMilliseconds(value, unitPart) == UnitToMilliseconds(value, Lower(unitPart))
  {
    LowerIdempotent(unitPart);
  }

  /** `clampMs` is monotone. */
  lemma ClampMonotone(a: real, b: real)
    requires a <= b
    ensures ClampMs(a) <= ClampMs(b)
  {
    if 0.0 < a && b <= MAX_MS as real {
      assert ClampMs(a) as real <= a <= b < ClampMs(b) as real + 1.0;
    }
  }

  /** On a whole number of milliseconds the clamp is a plain saturation. */
  lemma ClampWhole(x: int)
    ensures ClampMs(x as real) == if x <= 0 then 0 else Min(MAX_MS, x)
  {
  }

  /**
    For a known unit the conversion is the product of value and multiplier,
    truncated, unless it exceeds MAX_MS, in which case it is MAX_MS.
   */
  lemma UnitToMillisecondsScales(value: real, unitPart: string, unit: Unit)
    requires UnitOf(Lower(unitPart)) == Some(unit)
    requires value >= 0.0
    ensures var exact := value * unit.Millis() as real;
      var r := UnitToMilliseconds(value, unitPart);
      (exact <= MAX_MS as real ==> r as real <= exact < r as real + 1.0) &&
      (exact > MAX_MS as real ==> r == MAX_MS)
  {
    ScaleIsProduct(value, unit);
  }

  lemma RealProduct(a: int, b: int)
    ensures a as real * b as real == (a * b) as real
  {
  }

  /** A whole number of units converts to the exact product, saturated at MAX_MS. */
  lemma UnitToMillisecondsWhole(n: nat, unitPart: string, unit: Unit)
    requires UnitOf(Lower(unitPart)) == Some(unit)
    ensures UnitToMilliseconds(n as real, unitPart) == Min(MAX_MS, n * unit.Millis())
  {
    ScaleIsProduct(n as real, unit);
    RealProduct(n, unit.Millis());
    ClampWhole(n * unit.Millis());
  }

  /** The conversion never decreases when the value grows. */
  lemma UnitToMillisecondsMonotone(v1: real, v2: real, unitPart: string)
    requires 0.0 <= v1 <= v2
    ensures UnitToMilliseconds(v1, unitPart) <= UnitToMilliseconds(v2, unitPart)
  {
    match UnitOf(Lower(unitPart))
    case None =>
    case Some(unit) =>
      ClampMonotone(Scale(v1, unit), Scale(v2, unit));
  }
}
