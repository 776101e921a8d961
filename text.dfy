/**
 * Character classes and string helpers shared by the model. Kotlin's `isDigit`, `isLetter`,
 * `uppercase` and `isBlank`, and Python's `str.strip`, are taken over ASCII only.
 */
module Text {
  import opened Wrappers

  predicate IsDigit(c: char) { '0' <= c <= '9' }
  predicate IsUpper(c: char) { 'A' <= c <= 'Z' }
  predicate IsLower(c: char) { 'a' <= c <= 'z' }
  predicate IsLetter(c: char) { IsUpper(c) || IsLower(c) }

  /**
   * The whitespace that `str.strip()`, Kotlin's `isBlank()` and `trim()` skip, restricted to
   * ASCII: tab, line feed, vertical tab, form feed, carriage return, the four information
   * separators U+001C to U+001F, and the space.
   */
  predicate IsWhitespace(c: char) {
    9 <= c as int <= 13 || 28 <= c as int <= 32
  }

  /** The class `\s` of a Java regular expression: space, tab, line feed, vertical tab, form feed, carriage return. */
  predicate IsRegexSpace(c: char) {
    c == ' ' || c == '\t' || c == '\n' || c == '\r' || c == 11 as char || c == 12 as char
  }

  /**
   * Java's regex `\s` is the blank class less the four information separators: they are
   * blank for `isBlank()` and `strip()` but do not match `\s`.
   */
  lemma WhitespaceClasses(c: char)
    ensures IsRegexSpace(c) ==> IsWhitespace(c)
    ensures IsWhitespace(c) && !IsRegexSpace(c) <==> 28 <= c as int <= 31
  {
  }

  predicate IsBlank(s: string) { forall i :: 0 <= i < |s| ==> IsWhitespace(s[i]) }

  predicate AllDigits(s: string) { forall i :: 0 <= i < |s| ==> IsDigit(s[i]) }

  function DigitValue(c: char): (d: nat)
    requires IsDigit(c)
    ensures d < 10
  {
    (c as int) - ('0' as int)
  }

  /** The digit character of `d` in bases up to 36, lower-case like Kotlin's `Int.toString(radix)`. */
  function DigitChar(d: nat): (c: char)
    requires d < 36
    ensures d < 10 <==> IsDigit(c)
    ensures d >= 10 ==> IsLower(c)
  {
    if d < 10 then (d + 48) as char else (d - 10 + 97) as char
  }

  /** Inverse of DigitChar. */
  function CharDigit(c: char): nat
  {
    if IsDigit(c) then (c as int) - 48
    else if IsLower(c) then (c as int) - 97 + 10
    else if IsUpper(c) then (c as int) - 65 + 10
    else 36
  }

  lemma CharDigitOfDigitChar(d: nat)
    requires d < 36
    ensures CharDigit(DigitChar(d)) == d
  {
  }

  function ToUpperChar(c: char): (u: char)
    ensures IsLower(c) ==> IsUpper(u) && (u as int) == (c as int) - 32
    ensures !IsLower(c) ==> u == c
  {
    if IsLower(c) then (c as int - 32) as char else c
  }

  function ToLowerChar(c: char): (l: char)
    ensures IsUpper(c) ==> IsLower(l) && (l as int) == (c as int) + 32
    ensures !IsUpper(c) ==> l == c
  {
    if IsUpper(c) then (c as int + 32) as char else c
  }

  /** `String.uppercase()` over ASCII: letter by letter, length kept. */
  function Upper(s: string): (u: string)
    ensures |u| == |s|
    ensures forall i :: 0 <= i < |s| ==> u[i] == ToUpperChar(s[i])
  {
    seq(|s|, i requires 0 <= i < |s| => ToUpperChar(s[i]))
  }

  /** `String.lowercase()` over ASCII. */
  function Lower(s: string): (l: string)
    ensures |l| == |s|
    ensures forall i :: 0 <= i < |s| ==> l[i] == ToLowerChar(s[i])
  {
    seq(|s|, i requires 0 <= i < |s| => ToLowerChar(s[i]))
  }

  /** Number of leading whitespace characters. */
  function LeadingWs(s: string): (n: nat)
    ensures n <= |s|
    ensures forall i :: 0 <= i < n ==> IsWhitespace(s[i])
    ensures n < |s| ==> !IsWhitespace(s[n])
  {
    if |s| == 0 || !IsWhitespace(s[0]) then 0 else 1 + LeadingWs(s[1..])
  }

  /** Number of trailing whitespace characters. */
  function TrailingWs(s: string): (n: nat)
    ensures n <= |s|
    ensures forall i :: |s| - n <= i < |s| ==> IsWhitespace(s[i])
    ensures n < |s| ==> !IsWhitespace(s[|s| - 1 - n])
  {
    if |s| == 0 || !IsWhitespace(s[|s| - 1]) then 0 else 1 + TrailingWs(s[..|s| - 1])
  }

  /** Python's `str.strip()` and Kotlin's `trim()`: surrounding whitespace removed. */
  function Strip(s: string): (r: string)
    ensures |r| <= |s|
    ensures r == [] <==> IsBlank(s)
    ensures r != [] ==> !IsWhitespace(r[0]) && !IsWhitespace(r[|r| - 1])
  {
    var a := LeadingWs(s);
    if a == |s| then
      []
    else
      var t := s[a..];
      var b := TrailingWs(t);
      assert b < |t| by { assert !IsWhitespace(t[0]); }
      var r := t[..|t| - b];
      assert !IsBlank(s) by { assert !IsWhitespace(s[a]); }
      r
  }

  /** Strip reaches a fixpoint after one application. */
  lemma StripIdempotent(s: string)
    ensures Strip(Strip(s)) == Strip(s)
  {
    var r := Strip(s);
    if r != [] {
      assert LeadingWs(r) == 0;
      assert TrailingWs(r) == 0;
    }
  }

  /** A string with no surrounding whitespace is its own strip. */
  lemma StripClean(s: string)
    requires |s| > 0 && !IsWhitespace(s[0]) && !IsWhitespace(s[|s| - 1])
    ensures Strip(s) == s
  {
    assert LeadingWs(s) == 0;
    assert TrailingWs(s) == 0;
    assert s[0..][..|s|] == s;
  }

  /** `s.contains(c)`. */
  predicate Contains(s: string, c: char) { exists i :: 0 <= i < |s| && s[i] == c }

  /** Number of occurrences of `c` in `s`. */
  function Count(s: string, c: char): (n: nat)
    ensures n <= |s|
    ensures n == 0 <==> !Contains(s, c)
  {
    if s == [] then 0
    else
      var rest := Count(s[1..], c);
      assert Contains(s[1..], c) ==> Contains(s, c) by {
        if Contains(s[1..], c) {
          var i :| 0 <= i < |s[1..]| && s[1..][i] == c;
          assert s[i + 1] == c;
        }
      }
      assert Contains(s, c) && s[0] != c ==> Contains(s[1..], c) by {
        if Contains(s, c) && s[0] != c {
          var i :| 0 <= i < |s| && s[i] == c;
          assert s[1..][i - 1] == c;
        }
      }
      (if s[0] == c then 1 else 0) + rest
  }

  lemma CountAppend(s: string, t: string, c: char)
    ensures Count(s + t, c) == Count(s, c) + Count(t, c)
  {
    if s == [] {
      assert s + t == t;
    } else {
      assert (s + t)[1..] == s[1..] + t;
      CountAppend(s[1..], t, c);
    }
  }

  /** `s.replace(a, b)` for single characters. */
  function ReplaceChar(s: string, a: char, b: char): (r: string)
    ensures |r| == |s|
    ensures forall i :: 0 <= i < |s| ==> r[i] == (if s[i] == a then b else s[i])
  {
    seq(|s|, i requires 0 <= i < |s| => if s[i] == a then b else s[i])
  }

  /** Kotlin's `s.replace(pat, rep)`: every occurrence, left to right, without overlaps. */
  function ReplaceStr(s: string, pat: string, rep: string): (r: string)
    requires |pat| > 0
    decreases |s|
  {
    if |s| < |pat| then s
    else if s[..|pat|] == pat then rep + ReplaceStr(s[|pat|..], pat, rep)
    else [s[0]] + ReplaceStr(s[1..], pat, rep)
  }

  /** A replacement whose pattern and replacement hold `c` equally often keeps the count of `c`. */
  lemma {:induction false} ReplaceStrCount(s: string, pat: string, rep: string, c: char)
    requires |pat| > 0 && Count(pat, c) == Count(rep, c)
    ensures Count(ReplaceStr(s, pat, rep), c) == Count(s, c)
    decreases |s|
  {
    if |s| < |pat| {
    } else if s[..|pat|] == pat {
      ReplaceStrCount(s[|pat|..], pat, rep, c);
      CountAppend(rep, ReplaceStr(s[|pat|..], pat, rep), c);
      assert s == pat + s[|pat|..];
      CountAppend(pat, s[|pat|..], c);
    } else {
      ReplaceStrCount(s[1..], pat, rep, c);
      CountAppend([s[0]], ReplaceStr(s[1..], pat, rep), c);
      assert s == [s[0]] + s[1..];
      CountAppend([s[0]], s[1..], c);
    }
  }

  /** `s.filter { it.isDigit() }`. */
  function FilterDigits(s: string): (r: string)
    ensures AllDigits(r)
    ensures |r| <= |s|
  {
    if s == [] then []
    else (if IsDigit(s[0]) then [s[0]] else []) + FilterDigits(s[1..])
  }

  /** `s.firstOrNull { it.isLetter() }`. */
  function FirstLetter(s: string): (r: Option<char>)
    ensures r.None? <==> forall i :: 0 <= i < |s| ==> !IsLetter(s[i])
    ensures r.Some? ==> exists i :: 0 <= i < |s| && s[i] == r.value && IsLetter(r.value)
                                   && forall j :: 0 <= j < i ==> !IsLetter(s[j])
  {
    if s == [] then None
    else if IsLetter(s[0]) then
      assert s[0] == s[0];
      Some(s[0])
    else
      var r := FirstLetter(s[1..]);
      if r.Some? then
        var i :| 0 <= i < |s[1..]| && s[1..][i] == r.value && IsLetter(r.value)
                 && forall j :: 0 <= j < i ==> !IsLetter(s[1..][j]);
        assert s[i + 1] == r.value;
        assert forall j :: 0 <= j < i + 1 ==> !IsLetter(s[j]) by {
          forall j | 0 <= j < i + 1 ensures !IsLetter(s[j]) {
            if j > 0 { assert s[j] == s[1..][j - 1]; }
          }
        }
        r
      else
        assert forall i :: 0 <= i < |s| ==> !IsLetter(s[i]) by {
          forall i | 0 <= i < |s| ensures !IsLetter(s[i]) {
            if i > 0 { assert s[i] == s[1..][i - 1]; }
          }
        }
        r
  }

  // ---------------------------------------------------------------- numerals

  /** The value of a string of decimal digits. */
  function DecimalValue(s: string): (n: nat)
    requires AllDigits(s)
  {
    if s == [] then 0 else DecimalValue(s[..|s| - 1]) * 10 + DigitValue(s[|s| - 1])
  }

  /** The value of a numeral in `radix` whose digits are all below the radix. */
  function RadixValue(s: string, radix: nat): (n: nat)
    requires 2 <= radix <= 36
  {
    if s == [] then 0 else RadixValue(s[..|s| - 1], radix) * radix + CharDigit(s[|s| - 1])
  }

  /** Kotlin's `n.toString(radix)` for n >= 0 (digits in lower case, no leading zeros). */
  function ToRadix(n: nat, radix: nat): (s: string)
    requires 2 <= radix <= 36
    ensures |s| >= 1
    ensures DigitsBelow(s, radix)
    ensures |s| > 1 ==> s[0] != '0'
    decreases n
  {
    if n < radix then
      CharDigitOfDigitChar(n);
      [DigitChar(n)]
    else
      DivModStep(n, radix);
      var q, d := n / radix, n % radix;
      var p := ToRadix(q, radix);
      AppendDigit(p, d, radix);
      p + [DigitChar(d)]
  }

  /** Every character is a digit of the radix. */
  predicate DigitsBelow(s: string, radix: nat)
  {
    forall i :: 0 <= i < |s| ==> CharDigit(s[i]) < radix
  }

  /** Appending a digit below the radix keeps every digit below it and the leading digit. */
  lemma AppendDigit(p: string, d: nat, radix: nat)
    requires d < radix <= 36 && |p| >= 1
    requires DigitsBelow(p, radix)
    ensures var s := p + [DigitChar(d)];
            && DigitsBelow(s, radix)
            && s[0] == p[0] && |s| > 1
  {
    CharDigitOfDigitChar(d);
    var s := p + [DigitChar(d)];
    assert forall i :: 0 <= i < |p| ==> s[i] == p[i];
  }

  lemma DivModStep(n: nat, radix: nat)
    requires 2 <= radix <= n
    ensures n / radix < n && n % radix < radix && (n / radix) * radix + n % radix == n
  {
  }

  /** Reading a numeral written by ToRadix gives back the number. */
  lemma {:induction false} RadixValueOfToRadix(n: nat, radix: nat)
    requires 2 <= radix <= 36
    ensures RadixValue(ToRadix(n, radix), radix) == n
    decreases n
  {
    if n < radix {
      CharDigitOfDigitChar(n);
      assert ToRadix(n, radix)[..0] == [];
    } else {
      var q, d := n / radix, n % radix;
      DivModStep(n, radix);
      var p := ToRadix(q, radix);
      var s := p + [DigitChar(d)];
      assert s == ToRadix(n, radix);
      assert s[..|s| - 1] == p;
      CharDigitOfDigitChar(d);
      RadixValueOfToRadix(q, radix);
      calc {
        RadixValue(s, radix);
        RadixValue(p, radix) * radix + CharDigit(s[|s| - 1]);
        q * radix + d;
        n;
      }
    }
  }

  /** Decimal text of a natural number. */
  function NatToString(n: nat): (s: string)
    ensures |s| >= 1 && AllDigits(s)
    ensures |s| > 1 ==> s[0] != '0'
  {
    ToRadix(n, 10)
  }

  lemma DecimalValueIsRadixValue(s: string)
    requires AllDigits(s)
    ensures DecimalValue(s) == RadixValue(s, 10)
  {
    if s != [] {
      DecimalValueIsRadixValue(s[..|s| - 1]);
    }
  }

  /** NatToString is inverted by DecimalValue. */
  lemma DecimalValueOfNatToString(n: nat)
    ensures DecimalValue(NatToString(n)) == n
  {
    RadixValueOfToRadix(n, 10);
    DecimalValueIsRadixValue(NatToString(n));
  }

  /** Kotlin's `Int.toString()` / `Long.toString()`: a '-' before the magnitude when negative. */
  function IntToString(i: int): (s: string)
    ensures |s| >= 1
    ensures i < 0 <==> s[0] == '-'
  {
    if i < 0 then "-" + NatToString(-i) else NatToString(i)
  }

  /** `s.padStart(len, c)`. */
  function PadStart(s: string, len: nat, c: char): (r: string)
    ensures |r| == if |s| >= len then |s| else len
    ensures r[|r| - |s|..] == s
    ensures forall i :: 0 <= i < |r| - |s| ==> r[i] == c
  {
    if |s| >= len then s else seq(len - |s|, _ => c) + s
  }

  /**
   * Kotlin's `toIntOrNull()` / `toLongOrNull()` with the range [lo, hi] of the target type:
   * an optional '+' or '-' (not alone) followed by decimal digits, in range.
   */
  function ParseInt(s: string, lo: int, hi: int): (r: Option<int>)
    ensures r.Some? ==> lo <= r.value <= hi
    ensures r.Some? ==> |s| >= 1
  {
    if |s| == 0 then None
    else
      var neg := s[0] == '-';
      var signed := s[0] == '-' || s[0] == '+';
      var digits := if signed then s[1..] else s;
      if |digits| == 0 || !AllDigits(digits) then None
      else
        var v: int := if neg then 0 - (DecimalValue(digits) as int) else DecimalValue(digits);
        if lo <= v <= hi then Some(v) else None
  }

  const INT_MIN: int := -0x8000_0000
  const INT_MAX: int := 0x7FFF_FFFF
  const LONG_MIN: int := -0x8000_0000_0000_0000
  const LONG_MAX: int := 0x7FFF_FFFF_FFFF_FFFF

  /** Kotlin's Long arithmetic: the two's-complement value congruent to x modulo 2^64. */
  function WrapLong(x: int): (r: int)
    ensures LONG_MIN <= r <= LONG_MAX
    ensures (x - r) % 0x1_0000_0000_0000_0000 == 0
    ensures LONG_MIN <= x <= LONG_MAX ==> r == x
  {
    (x - LONG_MIN) % 0x1_0000_0000_0000_0000 + LONG_MIN
  }

  /** 2^53: every whole number up to it is a double exactly. */
  const DOUBLE_EXACT: int := 0x20_0000_0000_0000

  /** 2 to the power e. */
  function Pow2(e: nat): (p: nat)
    ensures p >= 1
  {
    if e == 0 then 1 else 2 * Pow2(e - 1)
  }

  /**
   * The exponent of the spacing between neighbouring doubles around m: 0 below 2^53, 1 in
   * [2^53, 2^54), 2 in [2^54, 2^55), and so on.
   */
  function SpacingExp(m: nat): nat
  {
    if m < DOUBLE_EXACT then 0 else 1 + SpacingExp(m / 2)
  }

  /**
   * The double nearest to the whole number m >= 0, ties to the even neighbour: what Kotlin's
   * `Long.toDouble()` and `toDoubleOrNull()` on a numeral give. Values here stay far below the
   * largest double, so there is no overflow to infinity.
   */
  function RoundToDouble(m: nat): (r: nat)
    ensures m <= DOUBLE_EXACT ==> r == m
  {
    var p := Pow2(SpacingExp(m));
    var q, rem := m / p, m % p;
    if 2 * rem > p || (2 * rem == p && q % 2 == 1) then (q + 1) * p else q * p
  }

  /** `Long.toDouble()`: rounding is symmetric about zero. */
  function LongToDouble(x: int): (r: int)
    ensures -DOUBLE_EXACT <= x <= DOUBLE_EXACT ==> r == x
  {
    if x >= 0 then RoundToDouble(x) else 0 - RoundToDouble(-x)
  }

  /** Pow2 adds exponents. */
  lemma {:induction false} Pow2Add(a: nat, b: nat)
    ensures Pow2(a + b) == Pow2(a) * Pow2(b)
    decreases a
  {
    if a > 0 {
      Pow2Add(a - 1, b);
    }
  }

  /** The spacing around m >= 1 is at most m. */
  lemma {:induction false} SpacingAtMost(m: nat)
    requires m >= 1
    ensures Pow2(SpacingExp(m)) <= m
    decreases m
  {
    if m >= DOUBLE_EXACT {
      SpacingAtMost(m / 2);
    }
  }

  /** m >= a * p gives m / p >= a. */
  lemma DivAtLeast(m: nat, a: nat, p: nat)
    requires p >= 1 && m >= a * p
    ensures m / p >= a
  {
    var q := m / p;
    assert m < (q + 1) * p;
    assert (q + 1 - a) * p > 0;
  }

  /** Rounding keeps at least the largest multiple of the spacing below m. */
  lemma RoundAtLeastFloor(m: nat)
    ensures RoundToDouble(m) >= (m / Pow2(SpacingExp(m))) * Pow2(SpacingExp(m))
  {
    var p := Pow2(SpacingExp(m));
    var q := m / p;
    assert (q + 1) * p >= q * p;
  }

  /** Rounding never goes below a power of two that m reaches. */
  lemma RoundAtLeastPow2(m: nat, k: nat)
    requires m >= Pow2(k)
    ensures RoundToDouble(m) >= Pow2(k)
  {
    var e := SpacingExp(m);
    RoundAtLeastFloor(m);
    if e <= k {
      FloorAtLeastFine(m, k, e);
    } else {
      FloorAtLeastCoarse(m, k, e);
    }
  }

  /** A spacing no coarser than 2^k: 2^k is a multiple of it, so rounding down stays above 2^k. */
  lemma FloorAtLeastFine(m: nat, k: nat, e: nat)
    requires m >= Pow2(k) && e <= k
    ensures (m / Pow2(e)) * Pow2(e) >= Pow2(k)
  {
    var p, pk, c := Pow2(e), Pow2(k), Pow2(k - e);
    Pow2Add(k - e, e);
    assert pk == c * p;
    DivAtLeast(m, c, p);
    MulMonotoneNat(c, m / p, p);
  }

  lemma MulMonotoneNat(a: nat, b: nat, p: nat)
    requires a <= b
    ensures a * p <= b * p
  {
  }


  /** A spacing coarser than 2^k: rounding down keeps at least one spacing, which exceeds 2^k. */
  lemma FloorAtLeastCoarse(m: nat, k: nat, e: nat)
    requires m >= Pow2(k) && e == SpacingExp(m) && e > k
    ensures (m / Pow2(e)) * Pow2(e) >= Pow2(k)
  {
    var p, pk, pr := Pow2(e), Pow2(k), Pow2(e - k);
    SpacingAtMost(m);
    DivAtLeast(m, 1, p);
    AtLeastOnce(p, m / p);
    Pow2Add(k, e - k);
    assert p == pk * pr;
    AtLeastOnce(pk, pr);
  }

  lemma AtLeastOnce(a: nat, b: nat)
    requires b >= 1
    ensures b * a >= a && a * b >= a
  {
  }



  /** The digits of a numeral with no sign are read as its value. */
  lemma ParseUnsignedNumeral(t: string, lo: int, hi: int)
    requires |t| >= 1 && AllDigits(t) && lo <= DecimalValue(t) <= hi
    ensures ParseInt(t, lo, hi) == Some(DecimalValue(t) as int)
  {
    assert IsDigit(t[0]);
  }

  /** A '-' before the digits of a numeral negates its value. */
  lemma ParseNegativeNumeral(t: string, lo: int, hi: int)
    requires |t| >= 1 && AllDigits(t) && lo <= 0 - DecimalValue(t) <= hi
    ensures ParseInt("-" + t, lo, hi) == Some(0 - DecimalValue(t))
  {
    assert ("-" + t)[1..] == t;
  }

  /** Any in-range number written by IntToString parses back. */
  lemma ParseIntOfIntToString(i: int, lo: int, hi: int)
    requires lo <= i <= hi
    ensures ParseInt(IntToString(i), lo, hi) == Some(i)
  {
    if i < 0 {
      DecimalValueOfNatToString(-i);
      ParseNegativeNumeral(NatToString(-i), lo, hi);
    } else {
      DecimalValueOfNatToString(i);
      ParseUnsignedNumeral(NatToString(i), lo, hi);
    }
  }

  /** Value of `digits` read as the fraction 0.digits. */
  function FractionValue(digits: string): (r: real)
    requires AllDigits(digits)
    ensures 0.0 <= r
  {
    if digits == [] then 0.0
    else (DigitValue(digits[0]) as real + FractionValue(digits[1..])) / 10.0
  }

  predicate IsControlOrSpace(c: char) { c <= ' ' }

  /** `s` with the characters <= ' ' removed at both ends, as Java's float parser trims. */
  function TrimControl(s: string): (r: string)
    ensures |r| <= |s|
    decreases |s|
  {
    if |s| > 0 && IsControlOrSpace(s[0]) then TrimControl(s[1..])
    else if |s| > 0 && IsControlOrSpace(s[|s| - 1]) then TrimControl(s[..|s| - 1])
    else s
  }

  /** Index of the first '.' in `s`, or |s|. */
  function DotIndex(s: string): (k: nat)
    ensures k <= |s|
    ensures forall i :: 0 <= i < k ==> s[i] != '.'
    ensures k < |s| ==> s[k] == '.'
  {
    if s == [] || s[0] == '.' then 0 else 1 + DotIndex(s[1..])
  }

  /**
   * A plain decimal numeral: digits, optionally a '.' and more digits, with at least one
   * digit in all ("12", "4.7", ".5", "3.").
   */
  predicate IsPlainDecimal(s: string) {
    var k := DotIndex(s);
    AllDigits(s[..k]) && (k == |s| || AllDigits(s[k + 1..])) && Count(s, '.') <= 1
    && exists i :: 0 <= i < |s| && IsDigit(s[i])
  }

  /** The value of a plain decimal numeral. */
  function PlainDecimalValue(s: string): (r: real)
    requires IsPlainDecimal(s)
    ensures 0.0 <= r
  {
    var k := DotIndex(s);
    DecimalValue(s[..k]) as real + (if k == |s| then 0.0 else FractionValue(s[k + 1..]))
  }

  /** Index of the first 'e' or 'E' in `s`, or |s|. */
  function ExponentIndex(s: string): (k: nat)
    ensures k <= |s|
    ensures forall i :: 0 <= i < k ==> s[i] != 'e' && s[i] != 'E'
  {
    if s == [] || s[0] == 'e' || s[0] == 'E' then 0 else 1 + ExponentIndex(s[1..])
  }

  /** 10 to the power `e`, for any integer `e`. */
  function Pow10(e: int): (r: real)
    ensures r > 0.0
    decreases if e < 0 then -e else e
  {
    if e == 0 then 1.0 else if e > 0 then 10.0 * Pow10(e - 1) else Pow10(e + 1) / 10.0
  }

  /** A Java `double`: finite (read as a real, without rounding), NaN, or an infinity. */
  datatype Double = Finite(value: real) | NaN | Infinity(negative: bool)

  predicate IsTypeSuffix(c: char) { c == 'f' || c == 'F' || c == 'd' || c == 'D' }

  /** An exponent: an optional sign and at least one decimal digit. */
  function ParseExponent(s: string): (r: Option<int>)
  {
    var neg := |s| > 0 && s[0] == '-';
    var digits := if |s| > 0 && (s[0] == '-' || s[0] == '+') then s[1..] else s;
    if |digits| == 0 || !AllDigits(digits) then None
    else Some(if neg then 0 - (DecimalValue(digits) as int) else DecimalValue(digits))
  }

  /** An unsigned Java floating literal: "NaN", "Infinity", or digits[.digits][e[sign]digits][fFdD]. */
  function ParseUnsigned(body: string): (r: Option<Double>)
    ensures r.Some? && r.value.Finite? ==> r.value.value >= 0.0
  {
    if body == "NaN" then Some(NaN)
    else if body == "Infinity" then Some(Infinity(false))
    else
      var num := if |body| > 0 && IsTypeSuffix(body[|body| - 1]) then body[..|body| - 1] else body;
      var k := ExponentIndex(num);
      var mantissa := num[..k];
      if !IsPlainDecimal(mantissa) then None
      else if k == |num| then Some(Finite(PlainDecimalValue(mantissa)))
      else
        match ParseExponent(num[k + 1..])
        case None => None
        case Some(e) =>
          var v, scale := PlainDecimalValue(mantissa), Pow10(e);
          NonNegativeProduct(v, scale);
          Some(Finite(v * scale))
  }

  lemma NonNegativeProduct(x: real, y: real)
    requires 0.0 <= x && 0.0 <= y
    ensures 0.0 <= x * y
  {
  }

  /**
   * Kotlin's `String.toDoubleOrNull()` (Java's `Double.parseDouble` without the exception):
   * characters <= ' ' around the text are ignored, then an optional sign and an unsigned
   * literal. Hexadecimal literals are not modelled.
   */
  function ParseDouble(s: string): (r: Option<Double>)
  {
    var t := TrimControl(s);
    var neg := |t| > 0 && t[0] == '-';
    var body := if |t| > 0 && (t[0] == '-' || t[0] == '+') then t[1..] else t;
    match ParseUnsigned(body)
    case Some(Finite(v)) => Some(Finite(if neg then -v else v))
    case Some(Infinity(_)) => Some(Infinity(neg))
    case Some(NaN) => Some(NaN)
    case None => None
  }

  /** `toDoubleOrNull()` where only finite values are used: NaN and infinities read as None. */
  function ParseDecimal(s: string): Option<real>
  {
    match ParseDouble(s)
    case Some(Finite(v)) => Some(v)
    case _ => None
  }

  lemma DotIndexOfDigits(s: string)
    requires AllDigits(s)
    ensures DotIndex(s) == |s| && Count(s, '.') == 0
  {
    if s != [] {
      DotIndexOfDigits(s[1..]);
    }
  }

  lemma ExponentIndexOfDigits(s: string)
    requires AllDigits(s)
    ensures ExponentIndex(s) == |s|
  {
    if s != [] {
      ExponentIndexOfDigits(s[1..]);
    }
  }

  /** A non-empty string of decimal digits reads as its decimal value. */
  lemma ParseDoubleOfDigits(s: string)
    requires |s| > 0 && AllDigits(s)
    ensures ParseDouble(s) == Some(Finite(DecimalValue(s) as real))
    ensures ParseDecimal(s) == Some(DecimalValue(s) as real)
  {
    assert TrimControl(s) == s by {
      assert !IsControlOrSpace(s[0]) && !IsControlOrSpace(s[|s| - 1]);
    }
    assert !IsTypeSuffix(s[|s| - 1]);
    ExponentIndexOfDigits(s);
    assert s[..|s|] == s;
    DotIndexOfDigits(s);
    assert IsDigit(s[0]);
    assert IsPlainDecimal(s);
  }
}
