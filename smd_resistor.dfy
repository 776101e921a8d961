/**
 * The SMD resistor code decoder: a code written with 'R' as the decimal point, a 3- or
 * 4-digit code (significant digits, then a power of ten), or an EIA-96 code (two digits
 * naming an E96 value, then a multiplier letter).
 */
module SmdResistor {
  import opened Wrappers
  import opened Text

  /** The E96 values for the codes "01" to "96", in code order, eight codes to a row. */
  const E96: seq<int> :=
      [100, 102, 105, 107, 110, 113, 115, 118]
    + [121, 124, 127, 130, 133, 137, 140, 143]
    + [147, 150, 154, 158, 162, 165, 169, 174]
    + [178, 182, 187, 191, 196, 200, 205, 210]
    + [215, 221, 226, 232, 237, 243, 249, 255]
    + [261, 267, 274, 280, 287, 294, 301, 309]
    + [316, 324, 332, 340, 348, 357, 365, 374]
    + [383, 392, 402, 412, 422, 432, 442, 453]
    + [464, 475, 487, 499, 511, 523, 536, 549]
    + [562, 576, 590, 604, 619, 634, 649, 665]
    + [681, 698, 715, 732, 750, 768, 787, 806]
    + [825, 845, 866, 887, 909, 931, 953, 976]

  /** The EIA-96 value table: defined for the two-digit codes "01" to "96". */
  function Eia96Value(key: string): (r: Option<int>)
    ensures r.Some? <==> |key| == 2 && AllDigits(key) && 1 <= DecimalValue(key) <= 96
  {
    if |key| == 2 && AllDigits(key) && 1 <= DecimalValue(key) <= 96 then Some(E96[DecimalValue(key) - 1])
    else None
  }

  /** The EIA-96 multiplier letters. */
  function Eia96Multiplier(c: char): Option<real>
  {
    match c
    case 'Z' => Some(0.001)
    case 'Y' => Some(0.01)
    case 'R' => Some(0.01)
    case 'X' => Some(0.1)
    case 'S' => Some(0.1)
    case 'A' => Some(1.0)
    case 'B' => Some(10.0)
    case 'H' => Some(10.0)
    case 'C' => Some(100.0)
    case 'D' => Some(1000.0)
    case 'E' => Some(10000.0)
    case 'F' => Some(100000.0)
    case _ => None
  }

  const INVALID_EIA96: string := "Code EIA-96 non valide."
  const UNRECOGNISED: string := "Format de code non reconnu."

  /**
   * Whether the leading run of digits and points of `s` holds a point after one already
   * `seen`. Java's float parser scans that run before anything else and stops at such a
   * point with the message "multiple points".
   */
  predicate SecondPoint(s: string, seen: bool)
    decreases |s|
  {
    |s| > 0
    && if s[0] == '.' then seen || SecondPoint(s[1..], true)
       else IsDigit(s[0]) && SecondPoint(s[1..], seen)
  }

  /**
   * The message of the `NumberFormatException` that Java's `Double.parseDouble` throws for a
   * text it rejects: the text is trimmed, an optional sign skipped, and then an empty text, a
   * second point in the leading run, or any other defect has its own message.
   */
  function NumberFormatMessage(s: string): string
  {
    var t := TrimControl(s);
    if |t| == 0 then "empty String"
    else if SecondPoint(SignSkipped(t), false) then "multiple points"
    else "For input string: \"" + t + "\""
  }

  /** The text after an optional leading sign. */
  function SignSkipped(t: string): string
  {
    if |t| > 0 && (t[0] == '-' || t[0] == '+') then t[1..] else t
  }

  /** Trimming keeps a character that is not a control character or a space. */
  lemma {:induction false} TrimControlKeeps(s: string, c: char)
    requires Contains(s, c) && !IsControlOrSpace(c)
    ensures Contains(TrimControl(s), c)
    decreases |s|
  {
    var i :| 0 <= i < |s| && s[i] == c;
    if |s| > 0 && IsControlOrSpace(s[0]) {
      assert s[1..][i - 1] == c;
      TrimControlKeeps(s[1..], c);
    } else if |s| > 0 && IsControlOrSpace(s[|s| - 1]) {
      assert s[..|s| - 1][i] == c;
      TrimControlKeeps(s[..|s| - 1], c);
    }
  }

  /** A second point in the leading run: the run's length, with its points counted. */
  lemma {:induction false} SecondPointRun(s: string, seen: bool) returns (j: nat)
    requires SecondPoint(s, seen)
    ensures 0 < j <= |s| && forall i :: 0 <= i < j ==> IsDigit(s[i]) || s[i] == '.'
    ensures Count(s[..j], '.') + (if seen then 1 else 0) >= 2
    decreases |s|
  {
    if s[0] == '.' && seen {
      j := 1;
      assert s[..1] == [s[0]];
    } else {
      var k := SecondPointRun(s[1..], seen || s[0] == '.');
      j := k + 1;
      assert s[..j] == [s[0]] + s[1..][..k];
      CountAppend([s[0]], s[1..][..k], '.');
    }
  }

  lemma {:induction false} ExponentIndexAtLeast(s: string, j: nat)
    requires j <= |s| && forall i :: 0 <= i < j ==> s[i] != 'e' && s[i] != 'E'
    ensures ExponentIndex(s) >= j
    decreases j
  {
    if j > 0 {
      ExponentIndexAtLeast(s[1..], j - 1);
    }
  }

  /** A text Java rejects with "multiple points" is rejected by the parser of the model too. */
  lemma SecondPointRejected(body: string)
    requires SecondPoint(body, false)
    ensures ParseUnsigned(body) == None
  {
    var j := SecondPointRun(body, false);
    RunBeforeSuffix(body, j);
    var num := if |body| > 0 && IsTypeSuffix(body[|body| - 1]) then body[..|body| - 1] else body;
    TwoPointsNotPlain(num, j);
    var mantissa := num[..ExponentIndex(num)];
    assert !IsPlainDecimal(mantissa);
  }

  /** A leading run of digits and points is neither "NaN" nor "Infinity", and no type suffix cuts it. */
  lemma RunBeforeSuffix(body: string, j: nat)
    requires 0 < j <= |body| && forall i :: 0 <= i < j ==> IsDigit(body[i]) || body[i] == '.'
    ensures body != "NaN" && body != "Infinity"
    ensures var num := if |body| > 0 && IsTypeSuffix(body[|body| - 1]) then body[..|body| - 1] else body;
            j <= |num| && num[..j] == body[..j] && forall i :: 0 <= i < j ==> IsDigit(num[i]) || num[i] == '.'
  {
    assert IsDigit(body[0]) || body[0] == '.';
  }

  /** A run of digits and points with two points at the head of a number spoils its mantissa. */
  lemma TwoPointsNotPlain(num: string, j: nat)
    requires j <= |num| && forall i :: 0 <= i < j ==> IsDigit(num[i]) || num[i] == '.'
    requires Count(num[..j], '.') >= 2
    ensures !IsPlainDecimal(num[..ExponentIndex(num)])
  {
    ExponentIndexAtLeast(num, j);
    var mantissa := num[..ExponentIndex(num)];
    assert mantissa[..j] == num[..j];
    assert mantissa == mantissa[..j] + mantissa[j..];
    CountAppend(mantissa[..j], mantissa[j..], '.');
  }

  /** What `parseCode` does with a code. */
  datatype Decoded = Blank | Resistance(ohms: Double) | Failed(message: string)

  /** The `when` branch a non-blank code takes. */
  datatype Format = WithR | Digits | Eia96 | Unrecognised

  function FormatOf(code: string): (f: Format)
    ensures f == WithR <==> Contains(code, 'R')
  {
    if Contains(code, 'R') then WithR
    else if AllDigits(code) && 3 <= |code| <= 4 then Digits
    else if |code| == 3 && AllDigits(code[..2]) && Eia96Multiplier(code[2]).Some? then Eia96
    else Unrecognised
  }

  /** `parseCode`. */
  function ParseCode(code: string): Decoded
  {
    if IsBlank(code) then Blank
    else
      match FormatOf(code)
      case WithR =>
        var text := ReplaceChar(code, 'R', '.');
        (match ParseDouble(text)
         case Some(d) => Resistance(d)
         case None => Failed(NumberFormatMessage(text)))
      case Digits =>
        var base := DecimalValue(code[..|code| - 1]);
        Resistance(Finite(base as real * Pow10(DigitValue(code[|code| - 1]))))
      case Eia96 =>
        (match Eia96Value(code[..2])
         case None => Failed(INVALID_EIA96)
         case Some(v) => Resistance(Finite(v as real * Eia96Multiplier(code[2]).value)))
      case Unrecognised => Failed(UNRECOGNISED)
  }

  /** A blank code, and only a blank code, clears both the resistance and the error. */
  lemma BlankCode(code: string)
    ensures ParseCode(code) == Blank <==> IsBlank(code)
  {
  }

  /**
   * A code containing 'R' is read as a decimal number with 'R' as the point, whatever else it
   * holds. When it does not read, the message is "multiple points" exactly when the leading
   * run of digits and points holds two points, and names the trimmed text otherwise.
   */
  lemma RCode(code: string)
    requires !IsBlank(code) && Contains(code, 'R')
    ensures var text := ReplaceChar(code, 'R', '.');
            && Contains(text, '.') && !Contains(text, 'R')
            && (ParseCode(code).Resistance? <==> ParseDouble(text).Some?)
            && (ParseCode(code).Resistance? ==> ParseCode(code).ohms == ParseDouble(text).value)
            && (SecondPoint(SignSkipped(TrimControl(text)), false) ==> ParseCode(code) == Failed("multiple points"))
            && (ParseCode(code).Failed? && !SecondPoint(SignSkipped(TrimControl(text)), false)
                ==> ParseCode(code).message == "For input string: \"" + TrimControl(text) + "\"")
  {
    var text := ReplaceChar(code, 'R', '.');
    var i :| 0 <= i < |code| && code[i] == 'R';
    assert text[i] == '.';
    TrimControlKeeps(text, '.');
    var t := TrimControl(text);
    assert |t| > 0;
    if SecondPoint(SignSkipped(t), false) {
      SecondPointRejected(SignSkipped(t));
    }
  }

  /** 4R7R reads as "4.7." and RR as "..": both have a second point. */
  lemma MultiplePointsExamples()
    ensures ParseCode("4R7R") == Failed("multiple points")
    ensures ParseCode("RR") == Failed("multiple points")
  {
    MultiplePointsFourSeven();
    MultiplePointsOnlyR();
  }

  lemma MultiplePointsFourSeven()
    ensures ParseCode("4R7R") == Failed("multiple points")
  {
    var code, text := "4R7R", "4.7.";
    assert code[1] == 'R' && ReplaceChar(code, 'R', '.') == text;
    assert SecondPoint(text, false) by {
      assert text[1..] == ".7." && ".7."[1..] == "7." && "7."[1..] == ".";
    }
    MultiplePointsCode(code, text);
  }

  lemma MultiplePointsOnlyR()
    ensures ParseCode("RR") == Failed("multiple points")
  {
    var code, text := "RR", "..";
    assert code[0] == 'R' && ReplaceChar(code, 'R', '.') == text;
    assert SecondPoint(text, false) by {
      assert text[1..] == ".";
    }
    MultiplePointsCode(code, text);
  }

  lemma MultiplePointsCode(code: string, text: string)
    requires |code| > 0 && !IsWhitespace(code[0]) && Contains(code, 'R')
    requires text == ReplaceChar(code, 'R', '.') && |text| > 0
    requires !IsControlOrSpace(text[0]) && !IsControlOrSpace(text[|text| - 1])
    requires text[0] != '-' && text[0] != '+' && SecondPoint(text, false)
    ensures ParseCode(code) == Failed("multiple points")
  {
    assert !IsBlank(code);
    assert FormatOf(code) == WithR;
    MultiplePointsText(text);
  }

  lemma MultiplePointsText(text: string)
    requires |text| > 0 && !IsControlOrSpace(text[0]) && !IsControlOrSpace(text[|text| - 1])
    requires text[0] != '-' && text[0] != '+' && SecondPoint(text, false)
    ensures ParseDouble(text) == None && NumberFormatMessage(text) == "multiple points"
  {
    assert TrimControl(text) == text;
    assert SignSkipped(text) == text;
    SecondPointRejected(text);
  }

  /** Three or four digits: the leading digits times ten to the power of the last digit. */
  lemma DigitCode(code: string)
    requires AllDigits(code) && 3 <= |code| <= 4
    ensures ParseCode(code)
         == Resistance(Finite(DecimalValue(code[..|code| - 1]) as real * Pow10(DigitValue(code[|code| - 1]))))
  {
    assert !IsBlank(code) by { assert !IsWhitespace(code[0]); }
    assert !Contains(code, 'R');
    assert FormatOf(code) == Digits;
  }

  /**
   * EIA-96: two digits and a multiplier letter give the table value times the multiplier;
   * two digits missing from the table give the EIA-96 error.
   */
  lemma Eia96Code(code: string)
    requires |code| == 3 && AllDigits(code[..2]) && !IsDigit(code[2]) && code[2] != 'R'
    requires Eia96Multiplier(code[2]).Some?
    ensures Eia96Value(code[..2]).None? ==> ParseCode(code) == Failed(INVALID_EIA96)
    ensures Eia96Value(code[..2]).Some?
            ==> ParseCode(code) == Resistance(Finite(Eia96Value(code[..2]).value as real * Eia96Multiplier(code[2]).value))
  {
    assert code[0] == code[..2][0];
    assert !IsWhitespace(code[0]);
    assert !Contains(code, 'R') by {
      assert code[0] == code[..2][0] && code[1] == code[..2][1];
    }
  }

  /** The multiplier 'R' of the EIA-96 table is never used: the 'R' rule comes first. */
  lemma Eia96NeverUsesR(code: string)
    ensures FormatOf(code) == Eia96 ==> code[2] != 'R'
  {
    if |code| == 3 && code[2] == 'R' {
      assert Contains(code, 'R');
    }
  }

  /** Every other non-blank code is an unrecognised format, with no resistance. */
  lemma OtherCodes(code: string)
    requires !IsBlank(code) && FormatOf(code) == Unrecognised
    ensures ParseCode(code) == Failed(UNRECOGNISED)
    ensures !Contains(code, 'R') && !(AllDigits(code) && 3 <= |code| <= 4)
  {
  }

  /** 103 is 10 kΩ, and so is 1002. */
  lemma DigitExamples()
    ensures ParseCode("103") == Resistance(Finite(10000.0))
    ensures ParseCode("1002") == Resistance(Finite(10000.0))
  {
    DigitCode("103");
    assert "103"[..2] == "10" && "10"[..1] == "1" && "1"[..0] == [];
    assert DecimalValue("10") == 10;
    assert Pow10(3) == 1000.0 by {
      assert Pow10(1) == 10.0 && Pow10(2) == 100.0;
    }
    DigitCode("1002");
    assert "1002"[..3] == "100" && "100"[..2] == "10";
    assert DecimalValue("100") == 100;
    assert Pow10(2) == 100.0 by {
      assert Pow10(1) == 10.0;
    }
  }

  /** 01A is 100 Ω and 96F is 97.6 MΩ; 00 is not in the table. */
  lemma Eia96Examples()
    ensures ParseCode("01A") == Resistance(Finite(100.0))
    ensures ParseCode("96F") == Resistance(Finite(97600000.0))
    ensures ParseCode("00A") == Failed(INVALID_EIA96)
  {
    Eia96First();
    Eia96Last();
    Eia96Zero();
  }

  lemma Eia96First()
    ensures ParseCode("01A") == Resistance(Finite(100.0))
  {
    Eia96Code("01A");
    assert "01A"[..2] == "01" && "01"[..1] == "0" && "0"[..0] == [];
    assert DecimalValue("01") == 1;
    assert AllDigits("01") && E96[0] == 100;
    assert Eia96Value("01") == Some(100);
  }

  lemma Eia96Last()
    ensures ParseCode("96F") == Resistance(Finite(97600000.0))
  {
    Eia96Code("96F");
    assert "96F"[..2] == "96" && "96"[..1] == "9" && "9"[..0] == [];
    assert DecimalValue("96") == 96;
    assert Eia96Value("96") == Some(976);
  }

  lemma Eia96Zero()
    ensures ParseCode("00A") == Failed(INVALID_EIA96)
  {
    Eia96Code("00A");
    assert "00A"[..2] == "00" && "00"[..1] == "0";
    assert DecimalValue("00") == 0;
  }

  /** Two digits are no format at all. */
  lemma ShortCodeExample()
    ensures ParseCode("12") == Failed(UNRECOGNISED)
  {
    assert !Contains("12", 'R');
    assert !IsBlank("12") by { assert !IsWhitespace("12"[0]); }
  }

  predicate NoLower(s: string)
  {
    forall i :: 0 <= i < |s| ==> !IsLower(s[i])
  }

  /** Upper-case text never reads as NaN or an infinity: those spellings need lower-case letters. */
  lemma UpperCaseIsFinite(s: string)
    requires NoLower(s)
    ensures ParseDouble(s).Some? ==> ParseDouble(s).value.Finite?
  {
    var t := TrimControl(s);
    TrimControlNoLower(s);
    var body := if |t| > 0 && (t[0] == '-' || t[0] == '+') then t[1..] else t;
    assert NoLower(body) by {
      if |t| > 0 && (t[0] == '-' || t[0] == '+') {
        assert forall i :: 0 <= i < |body| ==> body[i] == t[i + 1];
      }
    }
    if |body| == 3 {
      assert body != "NaN" by { assert IsLower("NaN"[1]); }
    }
    if |body| == 8 {
      assert body != "Infinity" by { assert IsLower("Infinity"[1]); }
    }
  }

  lemma {:induction false} TrimControlNoLower(s: string)
    requires NoLower(s)
    ensures NoLower(TrimControl(s))
    decreases |s|
  {
    if |s| > 0 && IsControlOrSpace(s[0]) {
      var u := s[1..];
      assert forall i :: 0 <= i < |u| ==> u[i] == s[i + 1];
      TrimControlNoLower(u);
    } else if |s| > 0 && IsControlOrSpace(s[|s| - 1]) {
      var u := s[..|s| - 1];
      assert forall i :: 0 <= i < |u| ==> u[i] == s[i];
      TrimControlNoLower(u);
    }
  }

  /** A code typed by the user is upper-cased before decoding, so every resistance is finite. */
  lemma TypedCodesAreFinite(newCode: string)
    ensures ParseCode(Upper(newCode)).Resistance? ==> ParseCode(Upper(newCode)).ohms.Finite?
  {
    var code := Upper(newCode);
    if !IsBlank(code) && Contains(code, 'R') {
      var text := ReplaceChar(code, 'R', '.');
      assert NoLower(text);
      UpperCaseIsFinite(text);
    }
  }

  datatype UiState = UiState(code: string, resistance: Option<Double>, error: Option<string>)

  /** The state after `parseCode` ran on `code`. */
  function Decode(code: string): (s: UiState)
    ensures s.code == code
    ensures s.resistance.Some? ==> s.error.None?
    ensures IsBlank(code) ==> s.resistance.None? && s.error.None?
    ensures !IsBlank(code) ==> s.resistance.Some? != s.error.Some?
  {
    match ParseCode(code)
    case Blank => UiState(code, None, None)
    case Resistance(r) => UiState(code, Some(r), None)
    case Failed(m) => UiState(code, None, Some(m))
  }

  class SmdResistorViewModel {
    var ui: UiState

    /** The initial code "103" is decoded at construction. */
    constructor()
      ensures ui == Decode("103")
      ensures ui.resistance == Some(Finite(10000.0))
    {
      DigitExamples();
      ui := Decode("103");
    }

    /** `onCodeChange`: the code is stored upper-cased and decoded. */
    method OnCodeChange(newCode: string)
      modifies this
      ensures ui == Decode(Upper(newCode))
      ensures ui.code == Upper(newCode)
    {
      ui := ui.(code := Upper(newCode));
      ui := Decode(ui.code);
    }
  }
}
