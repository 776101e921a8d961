/**
 * The GCD and LCM calculator: two texts read as arbitrary-precision integers; when both are
 * positive, their greatest common divisor and least common multiple are shown.
 */
module GcdLcm {
  import opened Wrappers
  import opened Text

  /**
   * Kotlin's `String.toBigIntegerOrNull()`: a single character must be a digit; a longer
   * text is an optional '-' followed by digits only ('+' is refused).
   */
  function ParseBigInteger(s: string): (r: Option<int>)
    ensures r.Some? ==> |s| >= 1
    ensures r.Some? && r.value > 0 ==> AllDigits(s) && r.value == DecimalValue(s)
  {
    if |s| == 0 then None
    else if |s| == 1 then (if IsDigit(s[0]) then Some(DigitValue(s[0]) as int) else None)
    else if s[0] == '-' then (if AllDigits(s[1..]) then Some(0 - DecimalValue(s[1..])) else None)
    else if AllDigits(s) then Some(DecimalValue(s) as int)
    else None
  }

  /** `d` divides `n`. */
  predicate Divides(d: nat, n: nat)
  {
    d > 0 && n % d == 0
  }

  /** The sign of a product with a positive factor. */
  lemma MulSign(g: nat, x: int)
    requires g > 0
    ensures x < 0 ==> g * x < 0
    ensures x > 0 ==> g * x >= g
  {
    if x > 0 {
      MulAtLeast(g, x);
    } else if x < 0 {
      MulAtLeast(g, -x);
      assert g * x == 0 - g * (-x);
    }
  }

  lemma {:induction false} MulAtLeast(g: nat, x: nat)
    requires g > 0 && x > 0
    ensures g * x >= g
    decreases x
  {
    if x > 1 {
      MulAtLeast(g, x - 1);
      assert g * x == g * (x - 1) + g;
    }
  }

  /** An exact multiple divides back to its factor. */
  lemma MulDivExact(g: nat, m: nat)
    requires g > 0
    ensures (g * m) / g == m && (g * m) % g == 0
  {
    var n := g * m;
    var q, r := n / g, n % g;
    assert g * (m - q) == r by {
      assert g * m - g * q == g * (m - q);
    }
    MulSign(g, m - q);
  }

  lemma DividesSum(d: nat, q: nat, b: nat, r: nat)
    requires Divides(d, b) && Divides(d, r)
    ensures Divides(d, q * b + r)
  {
    var kb, kr := b / d, r / d;
    assert q * b + r == d * (q * kb + kr) by {
      assert b == d * kb && r == d * kr;
      assert q * (d * kb) == d * (q * kb);
      assert d * (q * kb) + d * kr == d * (q * kb + kr);
    }
    MulDivExact(d, q * kb + kr);
  }

  lemma DividesRemainder(d: nat, a: nat, b: nat)
    requires b > 0 && Divides(d, a) && Divides(d, b)
    ensures Divides(d, a % b)
  {
    var q := a / b;
    var ka, kb := a / d, b / d;
    var x := ka - q * kb;
    assert a % b == d * x by {
      assert a == d * ka && b == d * kb;
      assert a % b == a - q * b;
      assert q * (d * kb) == d * (q * kb);
      assert d * ka - d * (q * kb) == d * x;
    }
    MulSign(d, x);
    MulDivExact(d, x);
  }

  lemma DividesItselfAndZero(a: nat)
    requires a > 0
    ensures Divides(a, a) && Divides(a, 0)
  {
  }

  /** Euclidean division: a is its quotient times b plus its remainder. */
  lemma DivisionParts(a: nat, b: nat)
    requires b > 0
    ensures a == (a / b) * b + a % b
  {
  }

  /** `BigInteger.gcd`, by Euclid's algorithm. */
  function Gcd(a: nat, b: nat): (g: nat)
    requires a > 0 || b > 0
    ensures g > 0 && Divides(g, a) && Divides(g, b)
    decreases b
  {
    if b == 0 then
      DividesItselfAndZero(a);
      a
    else
      var g := Gcd(b, a % b);
      DividesSum(g, a / b, b, a % b);
      DivisionParts(a, b);
      g
  }

  /** Every common divisor divides the gcd, so it is the greatest. */
  lemma {:induction false} GcdGreatest(a: nat, b: nat, c: nat)
    requires a > 0 || b > 0
    requires Divides(c, a) && Divides(c, b)
    ensures Divides(c, Gcd(a, b)) && c <= Gcd(a, b)
    decreases b
  {
    if b != 0 {
      DividesRemainder(c, a, b);
      GcdGreatest(b, a % b, c);
    }
  }

  /** `(a * b) / gcd`. */
  function Lcm(a: nat, b: nat): (l: nat)
    requires a > 0 && b > 0
  {
    (a * b) / Gcd(a, b)
  }

  /** gcd · lcm = a · b, and the lcm is a positive common multiple of both. */
  lemma LcmProperties(a: nat, b: nat)
    requires a > 0 && b > 0
    ensures Gcd(a, b) * Lcm(a, b) == a * b
    ensures Lcm(a, b) > 0 && Divides(a, Lcm(a, b)) && Divides(b, Lcm(a, b))
  {
    var g := Gcd(a, b);
    var ka, kb := a / g, b / g;
    LcmIsMultiple(a, b);
    MulSign(g, ka);
    MulSign(b, ka);
    MulDivExact(b, ka);
    MulDivExact(a, kb);
  }

  /** With g the gcd, lcm = (a / g) · b = a · (b / g). */
  lemma LcmIsMultiple(a: nat, b: nat)
    requires a > 0 && b > 0
    ensures var g := Gcd(a, b);
            && Lcm(a, b) == (a / g) * b == b * (a / g) == a * (b / g)
            && g * Lcm(a, b) == a * b
  {
    var g := Gcd(a, b);
    var ka, kb := a / g, b / g;
    assert a == g * ka && b == g * kb;
    assert a * b == g * (ka * b) by {
      assert (g * ka) * b == g * (ka * b);
    }
    MulDivExact(g, ka * b);
    assert ka * b == a * kb by {
      assert ka * (g * kb) == (g * ka) * kb;
    }
  }

  datatype UiState = UiState(numberA: string, numberB: string, gcd: Option<nat>, lcm: Option<nat>)

  /** `calculate`: both numbers must parse and be positive, otherwise both results are cleared. */
  function Calculated(numberA: string, numberB: string): (s: UiState)
    ensures s.numberA == numberA && s.numberB == numberB
    ensures s.gcd.Some? <==> s.lcm.Some?
    ensures s.gcd.Some? <==> (ParseBigInteger(numberA).Some? && ParseBigInteger(numberA).value > 0
                              && ParseBigInteger(numberB).Some? && ParseBigInteger(numberB).value > 0)
    ensures s.gcd.Some? ==> var a, b := ParseBigInteger(numberA).value, ParseBigInteger(numberB).value;
              && Divides(s.gcd.value, a) && Divides(s.gcd.value, b)
              && s.gcd.value * s.lcm.value == a * b
  {
    var a, b := ParseBigInteger(numberA), ParseBigInteger(numberB);
    if a.Some? && b.Some? && a.value > 0 && b.value > 0 then
      LcmProperties(a.value, b.value);
      UiState(numberA, numberB, Some(Gcd(a.value, b.value)), Some(Lcm(a.value, b.value)))
    else
      UiState(numberA, numberB, None, None)
  }

  class GcdLcmViewModel {
    var ui: UiState

    constructor()
      ensures ui == UiState("", "", None, None)
    {
      ui := UiState("", "", None, None);
    }

    /** `onNumberAChange`: the first number is stored, then both results recomputed. */
    method OnNumberAChange(value: string)
      modifies this
      ensures ui == Calculated(value, old(ui.numberB))
    {
      ui := ui.(numberA := value);
      Calculate();
    }

    /** `onNumberBChange`. */
    method OnNumberBChange(value: string)
      modifies this
      ensures ui == Calculated(old(ui.numberA), value)
    {
      ui := ui.(numberB := value);
      Calculate();
    }

    method Calculate()
      modifies this
      ensures ui == Calculated(old(ui.numberA), old(ui.numberB))
    {
      ui := Calculated(ui.numberA, ui.numberB);
    }
  }

  lemma ParseDigits(s: string)
    requires |s| >= 2 && AllDigits(s)
    ensures ParseBigInteger(s) == Some(DecimalValue(s) as int)
  {
    assert IsDigit(s[0]);
  }

  /** 12 and 18: gcd 6, lcm 36; "0" and "-4" give no result. */
  lemma Examples()
    ensures Calculated("12", "18").gcd == Some(6) && Calculated("12", "18").lcm == Some(36)
    ensures Calculated("0", "18").gcd.None? && Calculated("-4", "18").gcd.None?
  {
    assert "12"[..1] == "1" && "18"[..1] == "1" && "1"[..0] == [];
    ParseDigits("12");
    ParseDigits("18");
    assert Gcd(12, 18) == 6 by {
      assert Gcd(18, 12) == Gcd(12, 6) == Gcd(6, 0) == 6;
    }
    assert "-4"[1..] == "4" && "4"[..0] == [];
  }
}
