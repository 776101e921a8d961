/**
 * The unit converter: units convert a value into their category's base unit (`convertFrom`)
 * and back out of it (`convertTo`); converting between two units goes through the base unit.
 * Doubles are reals without rounding, plus NaN, except where the numeral bases turn whole
 * numbers into doubles: there the rounding to the nearest double is modelled.
 */
module Conversion {
  import opened Wrappers
  import opened Text

  datatype UnitCategory =
    | TEMPERATURE | AREA | STORAGE | FREQUENCY | LENGTH | MASS | SPEED | VOLUME | ANGLE
    | POWER | PRESSURE | DENSITY | ENERGY | FORCE | FUEL | LIGHT | TIME | TORQUE | VISCOSITY
    | CURRENCY | NUMERIC_BASE

  /** A double: a number (read as a real) or NaN. */
  datatype Value = Num(r: real) | NotANumber

  /** Applies arithmetic to a number; NaN stays NaN. */
  function Lift(v: Value, f: real -> real): (r: Value)
    ensures v.NotANumber? <==> r.NotANumber?
  {
    match v
    case NotANumber => NotANumber
    case Num(x) => Num(f(x))
  }

  /** `x / y` on doubles; a zero divisor gives NaN here (an infinity is not modelled). */
  function Divide(x: real, y: real): Value
  {
    if y == 0.0 then NotANumber else Num(x / y)
  }

  datatype Unit =
    | FactorUnit(id: string, unitCategory: UnitCategory, conversionFactor: real)
    | TemperatureUnit(id: string, toCelsius: real -> real, fromCelsius: real -> real)
    | FuelUnit(id: string, toBase: real -> real, fromBase: real -> real)
    | BaseRadixUnit(id: string, radix: int)
  {
    /** The category is fixed by the kind of unit, or given when a factor unit is built. */
    function Category(): (c: UnitCategory)
      ensures TemperatureUnit? ==> c == TEMPERATURE
      ensures FuelUnit? ==> c == FUEL
      ensures BaseRadixUnit? ==> c == NUMERIC_BASE
    {
      match this
      case FactorUnit(_, c, _) => c
      case TemperatureUnit(_, _, _) => TEMPERATURE
      case FuelUnit(_, _, _) => FUEL
      case BaseRadixUnit(_, _) => NUMERIC_BASE
    }

    /** Radix units are modelled for the single-digit radixes 2 to 10. */
    predicate Valid()
    {
      BaseRadixUnit? ==> 2 <= radix <= 10
    }

    /** Into the base unit. */
    function ConvertFrom(v: Value): Value
      requires Valid()
    {
      match this
      case FactorUnit(_, _, f) => Lift(v, x => x * f)
      case TemperatureUnit(_, toC, _) => Lift(v, toC)
      case FuelUnit(_, toB, _) => Lift(v, toB)
      case BaseRadixUnit(_, radix) => RadixFrom(radix, v)
    }

    /** Out of the base unit. */
    function ConvertTo(v: Value): Value
      requires Valid()
    {
      match this
      case FactorUnit(_, _, f) => if v.NotANumber? then NotANumber else Divide(v.r, f)
      case TemperatureUnit(_, _, fromC) => Lift(v, fromC)
      case FuelUnit(_, _, fromB) => Lift(v, fromB)
      case BaseRadixUnit(_, radix) => RadixTo(radix, v)
    }

    /** `convert(outputUnit, value)`: into the base unit, then out of it into `out`. */
    function Convert(out: Unit, v: Value): Value
      requires Valid() && out.Valid()
    {
      out.ConvertTo(ConvertFrom(v))
    }
  }

  // ------------------------------------------------------------ factor units

  /** A factor unit multiplies into the base unit and divides back out of it. */
  lemma FactorRoundTrip(u: Unit, x: real)
    requires u.FactorUnit? && u.conversionFactor != 0.0
    ensures u.ConvertFrom(Num(x)) == Num(x * u.conversionFactor)
    ensures u.ConvertTo(u.ConvertFrom(Num(x))) == Num(x)
    ensures u.ConvertFrom(u.ConvertTo(Num(x))) == Num(x)
  {
  }

  /** Between two factor units the value is scaled by the ratio of their factors. */
  lemma FactorToFactor(a: Unit, b: Unit, x: real)
    requires a.FactorUnit? && b.FactorUnit? && b.conversionFactor != 0.0
    ensures a.Convert(b, Num(x)) == Num(x * a.conversionFactor / b.conversionFactor)
  {
  }

  // ------------------------------------------------------------ the temperature table

  const CELSIUS: Unit := TemperatureUnit("C", x => x, x => x)
  const FAHRENHEIT: Unit := TemperatureUnit("F", x => (x - 32.0) * 5.0 / 9.0, x => x * 9.0 / 5.0 + 32.0)
  const KELVIN: Unit := TemperatureUnit("K", x => x - 273.15, x => x + 273.15)

  const TEMPERATURE_UNITS: seq<Unit> := [CELSIUS, FAHRENHEIT, KELVIN]

  /** Celsius is the base: both directions are the identity. */
  lemma CelsiusIdentity(v: Value)
    ensures CELSIUS.ConvertFrom(v) == v && CELSIUS.ConvertTo(v) == v
  {
  }

  /** Fahrenheit and Kelvin convert back to the value they started from. */
  lemma TemperatureRoundTrip(x: real)
    ensures FAHRENHEIT.ConvertTo(FAHRENHEIT.ConvertFrom(Num(x))) == Num(x)
    ensures FAHRENHEIT.ConvertFrom(FAHRENHEIT.ConvertTo(Num(x))) == Num(x)
    ensures KELVIN.ConvertFrom(Num(x)) == Num(x - 273.15)
    ensures KELVIN.ConvertTo(KELVIN.ConvertFrom(Num(x))) == Num(x)
  {
  }

  /** The usual fixed points: water freezes at 32 °F and 273.15 K, boils at 212 °F. */
  lemma TemperatureFixedPoints()
    ensures FAHRENHEIT.Convert(CELSIUS, Num(32.0)) == Num(0.0)
    ensures CELSIUS.Convert(FAHRENHEIT, Num(100.0)) == Num(212.0)
    ensures KELVIN.Convert(CELSIUS, Num(273.15)) == Num(0.0)
    ensures FAHRENHEIT.Convert(FAHRENHEIT, Num(-40.0)) == Num(-40.0)
  {
  }

  // ------------------------------------------------------------ the factor tables

  /** `kotlin.math.PI` as a double. */
  const PI: real := 3.141592653589793

  const LENGTH_UNITS: seq<Unit> := [
    FactorUnit("m", LENGTH, 1.0), FactorUnit("km", LENGTH, 1000.0), FactorUnit("cm", LENGTH, 0.01),
    FactorUnit("mm", LENGTH, 0.001), FactorUnit("in", LENGTH, 0.0254), FactorUnit("ft", LENGTH, 0.3048),
    FactorUnit("yd", LENGTH, 0.9144), FactorUnit("mi", LENGTH, 1609.344), FactorUnit("nmi", LENGTH, 1852.0)]

  const MASS_UNITS: seq<Unit> := [
    FactorUnit("g", MASS, 1.0), FactorUnit("kg", MASS, 1000.0), FactorUnit("mg", MASS, 0.001),
    FactorUnit("lb", MASS, 453.59237), FactorUnit("oz", MASS, 28.349523125)]

  const AREA_UNITS: seq<Unit> := [
    FactorUnit("m2", AREA, 1.0), FactorUnit("km2", AREA, 1000000.0), FactorUnit("ha", AREA, 10000.0),
    FactorUnit("acre", AREA, 4046.8564224)]

  const STORAGE_UNITS: seq<Unit> := [
    FactorUnit("bit", STORAGE, 1.0), FactorUnit("B", STORAGE, 8.0), FactorUnit("KB", STORAGE, 8.0 * 1024.0),
    FactorUnit("MB", STORAGE, 8.0 * 1024.0 * 1024.0), FactorUnit("GB", STORAGE, 8.0 * 1024.0 * 1024.0 * 1024.0)]

  const FREQUENCY_UNITS: seq<Unit> := [
    FactorUnit("Hz", FREQUENCY, 1.0), FactorUnit("kHz", FREQUENCY, 1000.0), FactorUnit("MHz", FREQUENCY, 1000000.0)]

  const SPEED_UNITS: seq<Unit> := [
    FactorUnit("m_s", SPEED, 1.0), FactorUnit("km_h", SPEED, 1000.0 / 3600.0),
    FactorUnit("mph", SPEED, 1609.344 / 3600.0), FactorUnit("knot", SPEED, 1852.0 / 3600.0)]

  const VOLUME_UNITS: seq<Unit> := [
    FactorUnit("L", VOLUME, 1.0), FactorUnit("m3", VOLUME, 1000.0), FactorUnit("mL", VOLUME, 0.001)]

  const ANGLE_UNITS: seq<Unit> := [
    FactorUnit("rad", ANGLE, 1.0), FactorUnit("deg", ANGLE, PI / 180.0), FactorUnit("grad", ANGLE, PI / 200.0)]

  const POWER_UNITS: seq<Unit> := [
    FactorUnit("W", POWER, 1.0), FactorUnit("kW", POWER, 1000.0), FactorUnit("hp", POWER, 735.49875)]

  const PRESSURE_UNITS: seq<Unit> := [
    FactorUnit("Pa", PRESSURE, 1.0), FactorUnit("kPa", PRESSURE, 1000.0), FactorUnit("bar", PRESSURE, 100000.0),
    FactorUnit("atm", PRESSURE, 101325.0), FactorUnit("psi", PRESSURE, 6894.757293)]

  const DENSITY_UNITS: seq<Unit> := [FactorUnit("kg_m3", DENSITY, 1.0), FactorUnit("g_cm3", DENSITY, 1000.0)]

  const ENERGY_UNITS: seq<Unit> := [
    FactorUnit("J", ENERGY, 1.0), FactorUnit("kJ", ENERGY, 1000.0), FactorUnit("cal", ENERGY, 4.184),
    FactorUnit("kcal", ENERGY, 4184.0), FactorUnit("Wh", ENERGY, 3600.0), FactorUnit("kWh", ENERGY, 3600000.0)]

  const FORCE_UNITS: seq<Unit> := [
    FactorUnit("N", FORCE, 1.0), FactorUnit("kN", FORCE, 1000.0), FactorUnit("lbf", FORCE, 4.4482216153)]

  /** km/L is the reciprocal of L/100km scaled by 100; zero stays zero. */
  function Reciprocal100(x: real): real
  {
    if x == 0.0 then 0.0 else 100.0 / x
  }

  const FUEL_UNITS: seq<Unit> := [
    FuelUnit("l_100km", x => x, x => x), FuelUnit("km_l", Reciprocal100, Reciprocal100)]

  const LIGHT_UNITS: seq<Unit> := [FactorUnit("cd", LIGHT, 1.0), FactorUnit("mcd", LIGHT, 0.001)]

  const TIME_UNITS: seq<Unit> := [
    FactorUnit("s", TIME, 1.0), FactorUnit("min", TIME, 60.0), FactorUnit("h", TIME, 3600.0),
    FactorUnit("day", TIME, 86400.0)]

  const TORQUE_UNITS: seq<Unit> := [FactorUnit("N_m", TORQUE, 1.0), FactorUnit("kN_m", TORQUE, 1000.0)]

  const VISCOSITY_UNITS: seq<Unit> := [FactorUnit("pa_s", VISCOSITY, 1.0), FactorUnit("cP", VISCOSITY, 0.001)]

  const CURRENCY_UNITS: seq<Unit> := [
    FactorUnit("EUR", CURRENCY, 1.0), FactorUnit("USD", CURRENCY, 1.08), FactorUnit("GBP", CURRENCY, 0.85)]

  const NUMERIC_BASE_UNITS: seq<Unit> := [
    BaseRadixUnit("base2", 2), BaseRadixUnit("base8", 8), BaseRadixUnit("base10", 10)]

  /** km/L converts a consumption to its reciprocal and is its own inverse. */
  lemma FuelReciprocal(x: real)
    ensures FUEL_UNITS[1].ConvertFrom(Num(x)) == Num(if x == 0.0 then 0.0 else 100.0 / x)
    ensures FUEL_UNITS[1].ConvertTo(FUEL_UNITS[1].ConvertFrom(Num(x))) == Num(x)
  {
  }

  /** The storage factors in bits: 1, 8, 8·1024, 8·1024², 8·1024³. */
  lemma StorageFactors()
    ensures |STORAGE_UNITS| == 5
    ensures STORAGE_UNITS[0].conversionFactor == 1.0 && STORAGE_UNITS[1].conversionFactor == 8.0
    ensures STORAGE_UNITS[2].conversionFactor == 8192.0
    ensures STORAGE_UNITS[3].conversionFactor == 8388608.0
    ensures STORAGE_UNITS[4].conversionFactor == 8589934592.0
    ensures STORAGE_UNITS[4].Convert(STORAGE_UNITS[1], Num(1.0)) == Num(1073741824.0)
  {
  }

  // ------------------------------------------------------------ the repository

  /** `ConversionRepository.units(category)`. */
  function Units(c: UnitCategory): seq<Unit>
  {
    match c
    case LENGTH => LENGTH_UNITS
    case MASS => MASS_UNITS
    case TEMPERATURE => TEMPERATURE_UNITS
    case AREA => AREA_UNITS
    case STORAGE => STORAGE_UNITS
    case FREQUENCY => FREQUENCY_UNITS
    case SPEED => SPEED_UNITS
    case VOLUME => VOLUME_UNITS
    case ANGLE => ANGLE_UNITS
    case POWER => POWER_UNITS
    case PRESSURE => PRESSURE_UNITS
    case DENSITY => DENSITY_UNITS
    case ENERGY => ENERGY_UNITS
    case FORCE => FORCE_UNITS
    case FUEL => FUEL_UNITS
    case LIGHT => LIGHT_UNITS
    case TIME => TIME_UNITS
    case TORQUE => TORQUE_UNITS
    case VISCOSITY => VISCOSITY_UNITS
    case CURRENCY => CURRENCY_UNITS
    case NUMERIC_BASE => NUMERIC_BASE_UNITS
  }

  /** `defaultUnit(category)`: the first unit of the category's table. */
  function DefaultUnit(c: UnitCategory): (u: Unit)
    ensures u in Units(c)
  {
    UnitsShape(c);
    Units(c)[0]
  }

  /**
   * Every table is non-empty and holds only valid units of its own category; factor units have
   * a positive factor. (`ConvertToItself` states that every unit except the radix units converts
   * a value to itself unchanged.)
   */
  lemma UnitsShape(c: UnitCategory)
    ensures |Units(c)| > 0
    ensures forall u :: u in Units(c) ==> u.Valid() && u.Category() == c
    ensures forall u :: u in Units(c) && u.FactorUnit? ==> u.conversionFactor > 0.0
  {
    if c == TEMPERATURE || c == AREA || c == STORAGE || c == FREQUENCY || c == LENGTH || c == MASS || c == SPEED {
      FirstTablesShaped(c);
    } else if c == VOLUME || c == ANGLE || c == POWER || c == PRESSURE || c == DENSITY || c == ENERGY || c == FORCE {
      MiddleTablesShaped(c);
    } else {
      LastTablesShaped(c);
    }
  }

  /** A table of category c: not empty, and every entry valid, of category c and with a positive factor. */
  ghost predicate Shaped(units: seq<Unit>, c: UnitCategory)
  {
    && |units| > 0
    && (forall u :: u in units ==> u.Valid() && u.Category() == c)
    && (forall u :: u in units && u.FactorUnit? ==> u.conversionFactor > 0.0)
  }

  lemma FirstTablesShaped(c: UnitCategory)
    requires c == TEMPERATURE || c == AREA || c == STORAGE || c == FREQUENCY || c == LENGTH || c == MASS || c == SPEED
    ensures Shaped(Units(c), c)
  {
  }

  lemma MiddleTablesShaped(c: UnitCategory)
    requires c == VOLUME || c == ANGLE || c == POWER || c == PRESSURE || c == DENSITY || c == ENERGY || c == FORCE
    ensures Shaped(Units(c), c)
  {
  }

  lemma LastTablesShaped(c: UnitCategory)
    requires c == FUEL || c == LIGHT || c == TIME || c == TORQUE || c == VISCOSITY || c == CURRENCY || c == NUMERIC_BASE
    ensures Shaped(Units(c), c)
  {
  }

  /** Converting a unit to itself is the identity for every category except the numeric bases. */
  lemma ConvertToItself(c: UnitCategory, k: nat, x: real)
    requires c != NUMERIC_BASE && k < |Units(c)|
    ensures Units(c)[k].Valid() && Units(c)[k].Convert(Units(c)[k], Num(x)) == Num(x)
  {
    UnitsShape(c);
    var u := Units(c)[k];
    assert u in Units(c);
    if u.FactorUnit? {
      FactorRoundTrip(u, x);
    } else if c == FUEL {
      if k == 1 {
        FuelReciprocal(x);
      }
    } else {
      assert c == TEMPERATURE;
      TemperatureRoundTrip(x);
    }
  }

  /** The default unit is the base unit (conversion into it is the identity), except for the bases. */
  lemma DefaultIsBase(c: UnitCategory, x: real)
    requires c != NUMERIC_BASE
    ensures DefaultUnit(c).ConvertFrom(Num(x)) == Num(x)
  {
    UnitsShape(c);
  }

  /** Binary numbers are not read back unchanged: 5 has the digit 5, which is not binary. */
  lemma RadixNotIdentity()
    ensures NUMERIC_BASE_UNITS[0].Convert(NUMERIC_BASE_UNITS[0], Num(5.0)) == Num(0.0)
  {
    assert IntToString(5) == "5";
    RadixFromBadDigit(2, "5", 0);
  }

  // ------------------------------------------------------------ the numeric bases

  /** Kotlin's `Double.toLong()`: truncation toward zero, clamped to the Long range; NaN gives 0. */
  function ToLong(v: Value): (n: int)
    ensures LONG_MIN <= n <= LONG_MAX
    ensures v.Num? && 0.0 <= v.r && v.r < (LONG_MAX + 1) as real ==> n == v.r.Floor
  {
    match v
    case NotANumber => 0
    case Num(x) => Clamp(if x >= 0.0 then x.Floor else -((-x).Floor))
  }

  /** `floor(value).toLong()`. */
  function FloorToLong(v: Value): (n: int)
    ensures LONG_MIN <= n <= LONG_MAX
    ensures v.Num? && 0.0 <= v.r && v.r < (LONG_MAX + 1) as real ==> n == v.r.Floor
    ensures v.Num? && v.r < 0.0 ==> n < 0
  {
    match v
    case NotANumber => 0
    case Num(x) => Clamp(x.Floor)
  }

  function Clamp(i: int): (n: int)
    ensures LONG_MIN <= n <= LONG_MAX
    ensures LONG_MIN <= i <= LONG_MAX ==> n == i
  {
    if i > LONG_MAX then LONG_MAX else if i < LONG_MIN then LONG_MIN else i
  }

  /** `ch - '0'`: the digit of a decimal digit, and a negative number for '-'. */
  function Offset(c: char): int
  {
    c as int - '0' as int
  }

  /**
   * The Long accumulator after reading `s` left to right in `radix`, wrapping around like
   * `acc * radix + d` on Longs; None at a digit >= radix.
   */
  function Accumulate(s: string, radix: int): (r: Option<int>)
    ensures r.Some? ==> LONG_MIN <= r.value <= LONG_MAX
  {
    if s == [] then Some(0)
    else
      match Accumulate(s[..|s| - 1], radix)
      case None => None
      case Some(acc) =>
        var d := Offset(s[|s| - 1]);
        if d >= radix then None else Some(WrapLong(acc * radix + d))
  }

  /**
   * `BaseRadixUnit.convertFrom`: the decimal digits of the truncated value read in `radix`; the
   * Long result becomes the nearest double.
   */
  function RadixFrom(radix: int, v: Value): Value
  {
    match Accumulate(IntToString(ToLong(v)), radix)
    case None => NotANumber
    case Some(acc) => Num(LongToDouble(acc) as real)
  }

  /**
   * `BaseRadixUnit.convertTo`: the radix digits of floor(value), read by `toDoubleOrNull` as a
   * decimal number, that is, rounded to the nearest double.
   */
  function RadixTo(radix: int, v: Value): Value
    requires 2 <= radix <= 10
  {
    var n := FloorToLong(v);
    if n == 0 then Num(0.0)
    else if n < 0 then NotANumber
    else Num(RoundToDouble(DecimalValue(RadixDigits(n, radix))) as real)
  }

  /** ToRadix in a radix up to 10 writes only decimal digits. */
  function RadixDigits(n: nat, radix: int): (s: string)
    requires 2 <= radix <= 10
    ensures AllDigits(s) && |s| >= 1
    ensures forall i :: 0 <= i < |s| ==> CharDigit(s[i]) < radix
  {
    var s := ToRadix(n, radix);
    assert forall i :: 0 <= i < |s| ==> IsDigit(s[i]) by {
      forall i | 0 <= i < |s| ensures IsDigit(s[i]) {
        assert CharDigit(s[i]) < radix;
      }
    }
    s
  }

  /** A digit that is too large for the radix makes the whole reading fail. */
  lemma {:induction false} AccumulateStops(s: string, radix: int, k: nat)
    requires k <= |s| && Accumulate(s[..k], radix).None?
    ensures Accumulate(s, radix).None?
    decreases |s| - k
  {
    if k < |s| {
      assert s[..k + 1][..k] == s[..k];
      AccumulateStops(s, radix, k + 1);
    } else {
      assert s[..k] == s;
    }
  }

  lemma RadixFromBadDigit(radix: int, s: string, k: nat)
    requires k < |s| && Offset(s[k]) >= radix
    ensures Accumulate(s, radix).None?
  {
    var p := s[..k + 1];
    assert p[..k] == s[..k];
    assert Accumulate(p, radix).None?;
    AccumulateStops(s, radix, k + 1);
  }

  /**
   * On decimal digits that are all below the radix, the accumulator is the radix value when
   * that value fits in a Long (then no step wraps around).
   */
  lemma {:induction false} AccumulateDigits(s: string, radix: int)
    requires 2 <= radix <= 10 && AllDigits(s)
    requires forall i :: 0 <= i < |s| ==> CharDigit(s[i]) < radix
    requires RadixValue(s, radix) <= LONG_MAX
    ensures Accumulate(s, radix) == Some(RadixValue(s, radix))
  {
    if s != [] {
      var p := s[..|s| - 1];
      var v := RadixValue(p, radix);
      if v >= 1 {
        MulAtLeast(v, radix);
        assert v * radix >= v;
      }
      AccumulateDigits(p, radix);
    }
  }

  /** Digits below the radix are worth no more in that radix than in decimal. */
  lemma {:induction false} RadixValueAtMostDecimal(s: string, radix: int)
    requires 2 <= radix <= 10 && AllDigits(s)
    requires forall i :: 0 <= i < |s| ==> CharDigit(s[i]) < radix
    ensures RadixValue(s, radix) <= DecimalValue(s)
  {
    if s != [] {
      var p, c := s[..|s| - 1], s[|s| - 1];
      assert forall i :: 0 <= i < |p| ==> p[i] == s[i];
      RadixValueAtMostDecimal(p, radix);
      var v, w := RadixValue(p, radix), DecimalValue(p);
      MulMonotone(v, w, radix, 10);
      assert RadixValue(s, radix) == v * radix + CharDigit(c);
      assert DecimalValue(s) == w * 10 + DigitValue(c);
    }
  }

  lemma MulMonotone(a: int, b: int, c: int, d: int)
    requires 0 <= a <= b && 0 <= c <= d
    ensures a * c <= b * d
  {
    assert a * c <= a * d;
    assert a * d <= b * d;
  }

  /**
   * A non-negative whole number whose decimal digits are all below the radix is read as
   * a numeral in that radix; a larger digit gives NaN.
   */
  lemma RadixFromNatural(radix: int, n: nat)
    requires 2 <= radix <= 10 && n <= LONG_MAX
    ensures var s := NatToString(n);
            (forall i :: 0 <= i < |s| ==> CharDigit(s[i]) < radix) ==> RadixFrom(radix, Num(n as real)) == Num(LongToDouble(RadixValue(s, radix)) as real)
    ensures var s := NatToString(n);
            (exists i :: 0 <= i < |s| && CharDigit(s[i]) >= radix) ==> RadixFrom(radix, Num(n as real)).NotANumber?
  {
    var s := NatToString(n);
    assert ToLong(Num(n as real)) == n;
    assert IntToString(n) == s;
    if forall i :: 0 <= i < |s| ==> CharDigit(s[i]) < radix {
      RadixValueAtMostDecimal(s, radix);
      DecimalValueOfNatToString(n);
      AccumulateDigits(s, radix);
    }
    if exists i :: 0 <= i < |s| && CharDigit(s[i]) >= radix {
      var i :| 0 <= i < |s| && CharDigit(s[i]) >= radix;
      RadixFromBadDigit(radix, s, i);
    }
  }

  /** A numeral without leading zeros is what ToRadix writes for its value. */
  lemma {:induction false} ToRadixOfRadixValue(s: string, radix: nat)
    requires 2 <= radix <= 10 && |s| >= 1 && (|s| > 1 ==> s[0] != '0')
    requires forall i :: 0 <= i < |s| ==> IsDigit(s[i]) && CharDigit(s[i]) < radix
    ensures ToRadix(RadixValue(s, radix), radix) == s
    decreases |s|
  {
    var p, c := s[..|s| - 1], s[|s| - 1];
    var d := CharDigit(c);
    assert DigitChar(d) == c;
    if |s| == 1 {
      assert p == [];
    } else {
      assert p[0] == s[0];
      LeadingDigitPositive(p, radix);
      ToRadixOfRadixValue(p, radix);
      var v := RadixValue(p, radix);
      assert RadixValue(s, radix) == v * radix + d;
      ToRadixSnoc(v, d, radix);
      assert s == p + [c];
    }
  }

  /** Appending a digit d to the numeral of v >= 1 gives the numeral of v * radix + d. */
  lemma ToRadixSnoc(v: nat, d: nat, radix: nat)
    requires 2 <= radix <= 10 && v >= 1 && d < radix
    ensures ToRadix(v * radix + d, radix) == ToRadix(v, radix) + [DigitChar(d)]
  {
    DivModOf(v, d, radix);
    MulAtLeast(v, radix);
  }

  lemma {:induction false} LeadingDigitPositive(s: string, radix: nat)
    requires 2 <= radix <= 10 && |s| >= 1 && IsDigit(s[0]) && s[0] != '0'
    ensures RadixValue(s, radix) >= 1
    decreases |s|
  {
    if |s| > 1 {
      var p := s[..|s| - 1];
      assert p[0] == s[0];
      LeadingDigitPositive(p, radix);
    }
  }

  /**
   * A positive whole number n up to 2^53 is read back from the decimal value of its radix digits
   * when that value fits in a Long.
   */
  lemma RadixFromDigits(radix: int, n: nat)
    requires 2 <= radix <= 10 && 1 <= n <= DOUBLE_EXACT
    requires DecimalValue(RadixDigits(n, radix)) <= LONG_MAX
    ensures RadixFrom(radix, Num(DecimalValue(RadixDigits(n, radix)) as real)) == Num(n as real)
  {
    var s := RadixDigits(n, radix);
    var dec := DecimalValue(s);
    assert ToLong(Num(dec as real)) == dec;
    DecimalValueIsRadixValue(s);
    ToRadixOfRadixValue(s, 10);
    assert IntToString(dec) == s;
    RadixValueOfToRadix(n, radix);
    AccumulateDigits(s, radix);
  }

  /** `convertTo` of a positive whole number: its radix digits, read in decimal and rounded. */
  lemma RadixToWhole(radix: int, n: nat)
    requires 2 <= radix <= 10 && 1 <= n <= LONG_MAX
    ensures RadixTo(radix, Num(n as real)) == Num(RoundToDouble(DecimalValue(RadixDigits(n, radix))) as real)
  {
    assert FloorToLong(Num(n as real)) == n;
  }

  /**
   * A non-negative whole number comes back from its radix digits as long as those digits, read
   * as a decimal number, are at most 2^53, so that `toDoubleOrNull` reads them exactly.
   */
  lemma RadixRoundTrip(radix: int, n: nat)
    requires 2 <= radix <= 10
    requires n <= LONG_MAX && DecimalValue(RadixDigits(n, radix)) <= DOUBLE_EXACT
    ensures RadixFrom(radix, RadixTo(radix, Num(n as real))) == Num(n as real)
  {
    assert FloorToLong(Num(n as real)) == n;
    if n == 0 {
      assert RadixTo(radix, Num(0.0)) == Num(0.0);
      assert IntToString(ToLong(Num(0.0))) == "0";
      assert "0"[..0] == [];
      assert Accumulate("0", radix) == Some(0);
    } else {
      var s := RadixDigits(n, radix);
      RadixValueOfToRadix(n, radix);
      RadixValueAtMostDecimal(s, radix);
      RadixToWhole(radix, n);
      RadixFromDigits(radix, n);
    }
  }

  /** The binary numeral of 2^k is a one followed by k zeros, worth 10^k in decimal. */
  lemma {:induction false} BinaryPowerDigits(k: nat)
    ensures DecimalValue(RadixDigits(Pow2(k), 2)) == TenTo(k)
  {
    if k > 0 {
      var v := Pow2(k - 1);
      BinaryPowerDigits(k - 1);
      ToRadixSnoc(v, 0, 2);
      var t := RadixDigits(v, 2);
      assert RadixDigits(Pow2(k), 2) == t + ['0'];
      assert (t + ['0'])[..|t|] == t;
    }
  }

  lemma {:induction false} TenToAdd(a: nat, b: nat)
    ensures TenTo(a + b) == TenTo(a) * TenTo(b)
    decreases a
  {
    if a > 0 {
      TenToAdd(a - 1, b);
    }
  }

  /** The powers the examples below need. */
  lemma PowerValues()
    ensures Pow2(15) == 32768 && Pow2(16) == 65536
    ensures Pow2(63) == LONG_MAX + 1
    ensures TenTo(16) == 10_000_000_000_000_000
  {
    assert Pow2(8) == 256 && Pow2(7) == 128;
    Pow2Add(8, 7);
    Pow2Add(8, 8);
    Pow2Add(16, 15);
    Pow2Add(16, 16);
    Pow2Add(32, 31);
    assert TenTo(8) == 100_000_000;
    TenToAdd(8, 8);
  }

  /** The binary numeral of 2^k + 1 (k >= 1) reads in decimal as 10^k + 1. */
  lemma BinaryPowerPlusOneDigits(k: nat)
    requires k >= 1
    ensures DecimalValue(RadixDigits(Pow2(k) + 1, 2)) == TenTo(k) + 1
  {
    var v := Pow2(k - 1);
    BinaryPowerDigits(k - 1);
    ToRadixSnoc(v, 1, 2);
    var t := RadixDigits(v, 2);
    assert RadixDigits(Pow2(k) + 1, 2) == t + ['1'];
    assert (t + ['1'])[..|t|] == t;
  }

  /** 10^16 + 1 lies halfway between the doubles 10^16 and 10^16 + 2; the tie goes to 10^16. */
  lemma RoundTie(m: nat)
    requires m == 10_000_000_000_000_001
    ensures RoundToDouble(m) == m - 1
  {
    assert m / 2 < DOUBLE_EXACT;
    assert SpacingExp(m / 2) == 0;
    assert SpacingExp(m) == 1;
  }

  /**
   * Past 2^53 the decimal reading of the binary digits is rounded, and the round trip breaks:
   * 65537 is written "10000000000000001", which `toDoubleOrNull` rounds to 10^16, and 10^16 is
   * read back as the binary 65536.
   */
  lemma RoundedRoundTrip(n: nat)
    requires n == 65537
    ensures DecimalValue(RadixDigits(n, 2)) > DOUBLE_EXACT
    ensures RadixFrom(2, RadixTo(2, Num(n as real))) == Num((n - 1) as real)
  {
    var lower, dec, below := n - 1, DecimalValue(RadixDigits(n, 2)), DecimalValue(RadixDigits(n - 1, 2));
    assert dec == 10_000_000_000_000_001 && below == 10_000_000_000_000_000 by {
      PowerValues();
      BinaryPowerPlusOneDigits(16);
      BinaryPowerDigits(16);
    }
    RoundTie(dec);
    RadixToWhole(2, n);
    assert RadixTo(2, Num(n as real)) == Num(below as real);
    RadixFromDigits(2, lower);
  }



  /**
   * In base 2 the round trip gives NaN whenever the binary digits, read in decimal, exceed the
   * Long range: the value is clamped to LONG_MAX, whose last digit is 7.
   */
  lemma BinaryRoundTripOverflow(n: nat)
    requires n <= LONG_MAX && DecimalValue(RadixDigits(n, 2)) > LONG_MAX
    ensures RadixFrom(2, RadixTo(2, Num(n as real))).NotANumber?
  {
    var dec := DecimalValue(RadixDigits(n, 2));
    assert n != 0;
    RoundPastLong(dec);
    assert RadixTo(2, Num(n as real)) == Num(RoundToDouble(dec) as real);
    ClampedReadingFails();
  }

  /** A whole number past the Long range stays past it when rounded to a double. */
  lemma RoundPastLong(m: nat)
    requires m > LONG_MAX
    ensures RoundToDouble(m) > LONG_MAX
  {
    PowerValues();
    RoundAtLeastPow2(m, 63);
  }

  /** A double past the Long range is clamped to LONG_MAX, whose digit 7 is not binary. */
  lemma ClampedReadingFails()
    ensures forall x: real :: x > LONG_MAX as real ==> RadixFrom(2, Num(x)).NotANumber?
  {
    var s := IntToString(LONG_MAX);
    assert s == ToRadix(LONG_MAX / 10, 10) + [DigitChar(7)];
    RadixFromBadDigit(2, s, |s| - 1);
  }


  /** Negative numbers have no radix digits: NaN. Zero is written as 0. */
  lemma RadixToSign(radix: int, x: real)
    requires 2 <= radix <= 10
    ensures x < 0.0 ==> RadixTo(radix, Num(x)).NotANumber?
    ensures 0.0 <= x < 1.0 ==> RadixTo(radix, Num(x)) == Num(0.0)
  {
  }

  function Reverse(s: string): (r: string)
    ensures |r| == |s|
  {
    if s == [] then [] else [s[|s| - 1]] + Reverse(s[..|s| - 1])
  }

  lemma ReverseSnoc(s: string, c: char)
    ensures Reverse(s + [c]) == [c] + Reverse(s)
  {
    assert (s + [c])[..|s|] == s;
  }

  /** The digits still to be written for what is left of the number. */
  function Written(n: int, radix: int): string
    requires 2 <= radix <= 10
  {
    if n > 0 then ToRadix(n, radix) else []
  }

  lemma QuotientSmaller(n: int, radix: int)
    requires 2 <= radix && n > 0
    ensures 0 <= n / radix < n
  {
    var q, m := n / radix, n % radix;
    assert q * radix + m == n && 0 <= m;
  }

  lemma DivModOf(v: int, d: int, radix: int)
    requires 0 <= d < radix
    ensures (v * radix + d) / radix == v && (v * radix + d) % radix == d
  {
    var n := v * radix + d;
    var q, m := n / radix, n % radix;
    assert q * radix + m == n && 0 <= m < radix;
    if v > q {
      MulAtLeast(v - q, radix);
    } else if v < q {
      MulAtLeast(q - v, radix);
    }
  }

  lemma {:induction false} MulAtLeast(k: int, r: int)
    requires k >= 1 && r >= 0
    ensures k * r >= r
    decreases k
  {
    if k > 1 {
      MulAtLeast(k - 1, r);
      assert k * r == (k - 1) * r + r;
    }
  }

  lemma SmallQuotient(n: int, radix: int)
    requires 0 <= n < radix
    ensures n / radix == 0 && n % radix == n
  {
  }

  /** One pass of the `convertTo` loop moves the last digit of n onto the reversed buffer. */
  lemma DigitStep(n: int, radix: int, sb: string)
    requires 2 <= radix <= 10 && n > 0
    ensures 0 <= n / radix < n
    ensures Written(n / radix, radix) + Reverse(sb + IntToString(n % radix)) == Written(n, radix) + Reverse(sb)
  {
    QuotientSmaller(n, radix);
    var d := n % radix;
    var c := DigitChar(d);
    DigitText(d);
    ReverseSnoc(sb, c);
    WrittenStep(n, radix);
    assert Written(n / radix, radix) + ([c] + Reverse(sb)) == (Written(n / radix, radix) + [c]) + Reverse(sb);
  }

  lemma DigitText(d: int)
    requires 0 <= d < 10
    ensures IntToString(d) == [DigitChar(d)]
  {
  }

  /** The last digit of n comes after the digits of n / radix. */
  lemma WrittenStep(n: int, radix: int)
    requires 2 <= radix <= 10 && n > 0
    ensures Written(n, radix) == Written(n / radix, radix) + [DigitChar(n % radix)]
  {
    if n < radix {
      SmallQuotient(n, radix);
    }
  }

  /** A negative value keeps its '-' among the digits, which reads as the digit -3. */
  lemma RadixFromNegative()
    ensures RadixFrom(2, Num(-1.0)) == Num(-5.0)
  {
    assert ToLong(Num(-1.0)) == -1;
    var s := IntToString(-1);
    assert s == "-1";
    assert s[..1] == "-" && s[..1][..0] == [];
    assert Accumulate(s[..1], 2) == Some(-3);
  }

  /** 10 to the power k. */
  function TenTo(k: nat): nat
  {
    if k == 0 then 1 else 10 * TenTo(k - 1)
  }

  /** Adding a multiple of 2^64 does not change a Long result. */
  lemma WrapLongPeriodic(y: int, k: int)
    ensures WrapLong(y + k * 0x1_0000_0000_0000_0000) == WrapLong(y)
  {
    var m := 0x1_0000_0000_0000_0000;
    var a := y - LONG_MIN;
    assert (a + k * m) % m == a % m by {
      assert a + k * m == (a / m + k) * m + a % m;
    }
  }

  /** Wrapping the accumulator before a step gives the same Long as wrapping once after it. */
  lemma WrapLongStep(x: int, radix: int, d: int)
    ensures WrapLong(WrapLong(x) * radix + d) == WrapLong(x * radix + d)
  {
    var m := 0x1_0000_0000_0000_0000;
    var k := (x - WrapLong(x)) / m;
    assert x - WrapLong(x) == k * m;
    assert x * radix + d == (WrapLong(x) * radix + d) + (k * radix) * m;
    WrapLongPeriodic(WrapLong(x) * radix + d, k * radix);
  }

  /**
   * In base 10 the '-' of a negative number reads as the digit -3 in front of its digits `t`,
   * and the Long accumulator wraps around: the reading is DecimalValue(t) - 3 * 10^|t| modulo 2^64.
   */
  lemma {:induction false} NegativeDecimalReading(t: string)
    requires AllDigits(t)
    ensures Accumulate("-" + t, 10) == Some(WrapLong(DecimalValue(t) - 3 * TenTo(|t|)))
  {
    var s := "-" + t;
    if t == [] {
      assert s[..0] == [];
    } else {
      var p := t[..|t| - 1];
      assert s[..|s| - 1] == "-" + p;
      NegativeDecimalReading(p);
      var x := DecimalValue(p) - 3 * TenTo(|p|);
      var d := Offset(t[|t| - 1]);
      assert d == DigitValue(t[|t| - 1]);
      WrapLongStep(x, 10, d);
      assert x * 10 + d == DecimalValue(t) - 3 * TenTo(|t|);
    }
  }

  /** `convertFrom` in base 10 on a negative whole number -n: the wrapped reading of "-" + digits. */
  lemma RadixFromNegativeDecimal(n: nat)
    requires 1 <= n <= LONG_MAX
    ensures RadixFrom(10, Num(-(n as real))) == Num(LongToDouble(WrapLong(n - 3 * TenTo(|NatToString(n)|))) as real)
  {
    var i: int := 0 - n as int;
    assert ToLong(Num(-(n as real))) == i;
    assert IntToString(i) == "-" + NatToString(n);
    DecimalValueOfNatToString(n);
    NegativeDecimalReading(NatToString(n));
  }

  /** The loop of `convertFrom`. */
  method RadixConvertFrom(radix: int, value: Value) returns (r: Value)
    ensures r == RadixFrom(radix, value)
  {
    var digits := IntToString(ToLong(value));
    var acc := 0;
    var i := 0;
    while i < |digits|
      invariant 0 <= i <= |digits|
      invariant Accumulate(digits[..i], radix) == Some(acc)
    {
      var d := Offset(digits[i]);
      if d >= radix {
        RadixFromBadDigit(radix, digits, i);
        return NotANumber;
      }
      assert digits[..i + 1][..i] == digits[..i];
      acc := WrapLong(acc * radix + d);
      i := i + 1;
    }
    assert digits[..i] == digits;
    return Num(LongToDouble(acc) as real);
  }

  /** `convertTo`: floor(value) as a Long, then its digits. */
  method RadixConvertTo(radix: int, value: Value) returns (r: Value)
    requires 2 <= radix <= 10
    ensures r == RadixTo(radix, value)
  {
    var n := FloorToLong(value);
    if n == 0 {
      return Num(0.0);
    }
    r := WriteDigits(radix, n);
  }

  /** The loop of `convertTo`: digits are appended least significant first, then reversed. */
  method WriteDigits(radix: int, n0: int) returns (r: Value)
    requires 2 <= radix <= 10 && n0 != 0
    ensures n0 < 0 ==> r == NotANumber
    ensures n0 > 0 ==> r == Num(RoundToDouble(DecimalValue(RadixDigits(n0, radix))) as real)
  {
    var n := n0;
    var sb: string := [];
    while n > 0
      invariant n0 > 0 ==> n >= 0 && ToRadix(n0, radix) == Written(n, radix) + Reverse(sb)
      invariant n0 < 0 ==> n == n0 && sb == []
    {
      DigitStep(n, radix, sb);
      sb := sb + IntToString(n % radix);
      n := n / radix;
    }
    var repr := Reverse(sb);
    if n0 > 0 {
      assert repr == RadixDigits(n0, radix);
      ParseDoubleOfDigits(repr);
    } else {
      assert repr == [];
    }
    // `repr.toDoubleOrNull() ?: Double.NaN`: a numeral parses to its whole value, rounded to the
    // nearest double; the empty text of a negative n0 does not parse.
    match ParseDecimal(repr)
    case Some(x) => r := Num(RoundToDouble(x.Floor) as real);
    case None => r := NotANumber;
  }
}
