/**
 * The capacitor code decoder: the digits of the code give two significant digits and a power
 * of ten (in pF), and the first letter gives the tolerance.
 */
module CapacitorCode {
  import opened Wrappers
  import opened Text

  const DIGIT_COUNT_ERROR: string := "Le code doit contenir 3 ou 4 chiffres."
  const DEFAULT_TOLERANCE: string := "±20% (défaut)"

  /** The tolerance letters. */
  function ToleranceOf(c: char): Option<string>
  {
    match c
    case 'B' => Some("±0.1 pF")
    case 'C' => Some("±0.25 pF")
    case 'D' => Some("±0.5 pF")
    case 'F' => Some("±1%")
    case 'G' => Some("±2%")
    case 'J' => Some("±5%")
    case 'K' => Some("±10%")
    case 'M' => Some("±20%")
    case 'Z' => Some("+80%, -20%")
    case _ => None
  }

  /** What `parseCode` does with a code. */
  datatype Decoded = Blank | Capacitance(pf: real, tolerance: Option<string>) | Failed(message: string)

  /** The capacitance of the first three digits: two significant digits, then the exponent. */
  function Picofarads(digits: string): (pf: real)
    requires AllDigits(digits) && |digits| >= 3
    ensures pf >= 0.0
  {
    var base := DigitValue(digits[0]) * 10 + DigitValue(digits[1]);
    base as real * Pow10(DigitValue(digits[2]))
  }

  /** The tolerance: the letter's entry; without a letter, the default for three digits only. */
  function Tolerance(digitCount: nat, letter: Option<char>): Option<string>
  {
    var looked := if letter.Some? then ToleranceOf(letter.value) else None;
    if looked.Some? then looked
    else if digitCount == 3 && letter.None? then Some(DEFAULT_TOLERANCE)
    else None
  }

  /** `parseCode`. */
  function ParseCode(code: string): Decoded
  {
    if IsBlank(code) then Blank
    else
      var digits := FilterDigits(code);
      var letter := FirstLetter(code);
      if |digits| < 3 || |digits| > 4 then Failed(DIGIT_COUNT_ERROR)
      else Capacitance(Picofarads(digits), Tolerance(|digits|, letter))
  }

  /** Only a blank code clears all three outputs. */
  lemma BlankCode(code: string)
    ensures ParseCode(code) == Blank <==> IsBlank(code)
  {
  }

  /** A non-blank code fails exactly when it does not hold 3 or 4 digits, and then has no value. */
  lemma DigitCount(code: string)
    requires !IsBlank(code)
    ensures ParseCode(code).Failed? <==> !(3 <= |FilterDigits(code)| <= 4)
    ensures ParseCode(code).Failed? ==> ParseCode(code).message == DIGIT_COUNT_ERROR
  {
  }

  /** The value comes from the first three digits in order; a fourth digit changes nothing. */
  lemma FourthDigitIgnored(digits: string, d: char)
    requires AllDigits(digits) && |digits| == 3 && IsDigit(d)
    ensures Picofarads(digits + [d]) == Picofarads(digits)
    ensures Picofarads(digits) == (DigitValue(digits[0]) * 10 + DigitValue(digits[1])) as real * Pow10(DigitValue(digits[2]))
  {
  }

  /**
   * A known letter gives its tolerance, an unknown letter none; with no letter, three digits
   * give the default and four digits none.
   */
  lemma ToleranceRule(n: nat, letter: Option<char>)
    ensures letter.Some? && ToleranceOf(letter.value).Some? ==> Tolerance(n, letter) == ToleranceOf(letter.value)
    ensures letter.Some? && ToleranceOf(letter.value).None? ==> Tolerance(n, letter).None?
    ensures letter.None? ==> (Tolerance(n, letter) == Some(DEFAULT_TOLERANCE) <==> n == 3)
    ensures Tolerance(n, letter) == Some(DEFAULT_TOLERANCE) <==> n == 3 && letter.None?
  {
  }

  /** The digits are taken in their order in the code, skipping everything else. */
  lemma {:induction false} FilterDigitsAppend(a: string, b: string)
    ensures FilterDigits(a + b) == FilterDigits(a) + FilterDigits(b)
    decreases |a|
  {
    if a == [] {
      assert a + b == b;
    } else {
      var ab := a + b;
      assert ab[0] == a[0] && ab[1..] == a[1..] + b;
      FilterDigitsAppend(a[1..], b);
      var head := if IsDigit(a[0]) then [a[0]] else [];
      assert FilterDigits(ab) == head + FilterDigits(a[1..] + b);
      assert FilterDigits(a) == head + FilterDigits(a[1..]);
      assert head + (FilterDigits(a[1..]) + FilterDigits(b)) == head + FilterDigits(a[1..]) + FilterDigits(b);
    }
  }

  lemma {:induction false} FilterDigitsOfDigits(s: string)
    requires AllDigits(s)
    ensures FilterDigits(s) == s
    decreases |s|
  {
    if s != [] {
      FilterDigitsOfDigits(s[1..]);
    }
  }

  /** 104K is 100 nF at ±10%; 103 alone gets the default tolerance; 1A2 has too few digits. */
  lemma Examples()
    ensures ParseCode("104K") == Capacitance(100000.0, Some("±10%"))
    ensures ParseCode("103") == Capacitance(10000.0, Some(DEFAULT_TOLERANCE))
    ensures ParseCode("1A2") == Failed(DIGIT_COUNT_ERROR)
  {
    Example104K();
    Example103();
    Example1A2();
  }

  lemma Example104K()
    ensures ParseCode("104K") == Capacitance(100000.0, Some("±10%"))
  {
    var code, digits := "104K", "104";
    assert !IsWhitespace(code[0]);
    assert AllDigits(digits) by {
      assert IsDigit(digits[0]) && IsDigit(digits[1]) && IsDigit(digits[2]);
    }
    FilterDigitsAppend(digits, "K");
    FilterDigitsOfDigits(digits);
    assert digits + "K" == code;
    assert FilterDigits("K") == [];
    assert FirstLetter(code) == Some('K') by {
      assert code[1..] == "04K" && code[1..][1..] == "4K" && code[1..][1..][1..] == "K";
    }
    assert Pow10(4) == 10000.0 by {
      assert Pow10(1) == 10.0 && Pow10(2) == 100.0 && Pow10(3) == 1000.0;
    }
    assert DigitValue(digits[0]) == 1 && DigitValue(digits[1]) == 0 && DigitValue(digits[2]) == 4;
    assert Picofarads(digits) == 10.0 * 10000.0;
    assert Tolerance(3, Some('K')) == Some("±10%");
  }

  lemma Example103()
    ensures ParseCode("103") == Capacitance(10000.0, Some(DEFAULT_TOLERANCE))
  {
    var code := "103";
    assert !IsWhitespace(code[0]);
    assert AllDigits(code) by {
      assert IsDigit(code[0]) && IsDigit(code[1]) && IsDigit(code[2]);
    }
    FilterDigitsOfDigits(code);
    assert FirstLetter(code) == None by {
      assert !IsLetter(code[0]) && !IsLetter(code[1]) && !IsLetter(code[2]);
    }
    assert Pow10(3) == 1000.0 by {
      assert Pow10(1) == 10.0 && Pow10(2) == 100.0;
    }
    assert DigitValue(code[0]) == 1 && DigitValue(code[1]) == 0 && DigitValue(code[2]) == 3;
    assert Picofarads(code) == 10.0 * 1000.0;
    assert Tolerance(3, None) == Some(DEFAULT_TOLERANCE);
  }

  lemma Example1A2()
    ensures ParseCode("1A2") == Failed(DIGIT_COUNT_ERROR)
  {
    assert !IsWhitespace("1A2"[0]);
    assert FilterDigits("1A2") == "12" by {
      assert "1A2"[1..] == "A2" && "A2"[1..] == "2" && "2"[1..] == [];
    }
  }

  /** Example of `BlankCode`: a code made only of information separators is blank, as `isBlank()` sees it. */
  lemma SeparatorCodeIsBlank(code: string)
    requires forall i :: 0 <= i < |code| ==> 28 <= code[i] as int <= 31
    ensures ParseCode(code) == Blank
  {
  }

  datatype UiState = UiState(code: string, capacitanceInPf: Option<real>, tolerance: Option<string>, error: Option<string>)

  /** The state after `parseCode` ran on `code`. */
  function Decode(code: string): (s: UiState)
    ensures s.code == code
    ensures s.error.Some? ==> s.capacitanceInPf.None? && s.tolerance.None?
    ensures IsBlank(code) ==> s.capacitanceInPf.None? && s.tolerance.None? && s.error.None?
    ensures !IsBlank(code) ==> s.capacitanceInPf.Some? != s.error.Some?
  {
    match ParseCode(code)
    case Blank => UiState(code, None, None, None)
    case Capacitance(pf, t) => UiState(code, Some(pf), t, None)
    case Failed(m) => UiState(code, None, None, Some(m))
  }

  class CapacitorCodeViewModel {
    var ui: UiState

    /** The initial code "104K" is decoded at construction. */
    constructor()
      ensures ui == Decode("104K")
      ensures ui.capacitanceInPf == Some(100000.0) && ui.tolerance == Some("±10%")
    {
      Examples();
      ui := Decode("104K");
    }

    /** `onCodeChange`: the code is stored upper-cased and decoded. */
    method OnCodeChange(newCode: string)
      modifies this
      ensures ui == Decode(Upper(newCode))
      ensures ui.code == Upper(newCode)
    {
      ui := ui.(code := Upper(newCode));
      ui := Decode(ui.code);
    }
  }
}
