/**
 * The molar-mass calculator: a formula such as "H2O" is split into element symbols with
 * optional counts, exactly as the pattern `([A-Z][a-z]?)(\d*)` finds them from left to
 * right, and the atomic masses times the counts are summed. A formula the matches do not
 * cover exactly is rejected.
 */
module MolarMass {
  import opened Wrappers
  import opened Text

  const INVALID_FORMAT: string := "Format de formule non valide."
  const BRACKETS: string := "Les parenthèses et crochets ne sont pas pris en charge."
  const UNKNOWN_ELEMENT: string := "Élément inconnu : "

  /** The standard atomic masses of the 118 elements, by symbol. */
  function AtomicMass(symbol: string): (m: Option<real>)
    ensures m.Some? ==> m.value > 0.0
  {
    match symbol
    case "H" => Some(1.008)
    case "He" => Some(4.0026)
    case "Li" => Some(6.94)
    case "Be" => Some(9.0122)
    case "B" => Some(10.81)
    case "C" => Some(12.011)
    case "N" => Some(14.007)
    case "O" => Some(15.999)
    case "F" => Some(18.998)
    case "Ne" => Some(20.180)
    case "Na" => Some(22.990)
    case "Mg" => Some(24.305)
    case "Al" => Some(26.982)
    case "Si" => Some(28.085)
    case "P" => Some(30.974)
    case "S" => Some(32.06)
    case "Cl" => Some(35.45)
    case "Ar" => Some(39.948)
    case "K" => Some(39.098)
    case "Ca" => Some(40.078)
    case "Sc" => Some(44.956)
    case "Ti" => Some(47.867)
    case "V" => Some(50.942)
    case "Cr" => Some(51.996)
    case "Mn" => Some(54.938)
    case "Fe" => Some(55.845)
    case "Co" => Some(58.933)
    case "Ni" => Some(58.693)
    case "Cu" => Some(63.546)
    case "Zn" => Some(65.38)
    case "Ga" => Some(69.723)
    case "Ge" => Some(72.630)
    case "As" => Some(74.922)
    case "Se" => Some(78.971)
    case "Br" => Some(79.904)
    case "Kr" => Some(83.798)
    case "Rb" => Some(85.468)
    case "Sr" => Some(87.62)
    case "Y" => Some(88.906)
    case "Zr" => Some(91.224)
    case "Nb" => Some(92.906)
    case "Mo" => Some(95.96)
    case "Tc" => Some(98.0)
    case "Ru" => Some(101.07)
    case "Rh" => Some(102.91)
    case "Pd" => Some(106.42)
    case "Ag" => Some(107.87)
    case "Cd" => Some(112.41)
    case "In" => Some(114.82)
    case "Sn" => Some(118.71)
    case "Sb" => Some(121.76)
    case "Te" => Some(127.60)
    case "I" => Some(126.90)
    case "Xe" => Some(131.29)
    case "Cs" => Some(132.91)
    case "Ba" => Some(137.33)
    case "La" => Some(138.91)
    case "Ce" => Some(140.12)
    case "Pr" => Some(140.91)
    case "Nd" => Some(144.24)
    case "Pm" => Some(145.0)
    case "Sm" => Some(150.36)
    case "Eu" => Some(151.96)
    case "Gd" => Some(157.25)
    case "Tb" => Some(158.93)
    case "Dy" => Some(162.50)
    case "Ho" => Some(164.93)
    case "Er" => Some(167.26)
    case "Tm" => Some(168.93)
    case "Yb" => Some(173.05)
    case "Lu" => Some(174.97)
    case "Hf" => Some(178.49)
    case "Ta" => Some(180.95)
    case "W" => Some(183.84)
    case "Re" => Some(186.21)
    case "Os" => Some(190.23)
    case "Ir" => Some(192.22)
    case "Pt" => Some(195.08)
    case "Au" => Some(196.97)
    case "Hg" => Some(200.59)
    case "Tl" => Some(204.38)
    case "Pb" => Some(207.2)
    case "Bi" => Some(208.98)
    case "Po" => Some(209.0)
    case "At" => Some(210.0)
    case "Rn" => Some(222.0)
    case "Fr" => Some(223.0)
    case "Ra" => Some(226.0)
    case "Ac" => Some(227.0)
    case "Th" => Some(232.04)
    case "Pa" => Some(231.04)
    case "U" => Some(238.03)
    case "Np" => Some(237.0)
    case "Pu" => Some(244.0)
    case "Am" => Some(243.0)
    case "Cm" => Some(247.0)
    case "Bk" => Some(247.0)
    case "Cf" => Some(251.0)
    case "Es" => Some(252.0)
    case "Fm" => Some(257.0)
    case "Md" => Some(258.0)
    case "No" => Some(259.0)
    case "Lr" => Some(262.0)
    case "Rf" => Some(267.0)
    case "Db" => Some(270.0)
    case "Sg" => Some(271.0)
    case "Bh" => Some(270.0)
    case "Hs" => Some(277.0)
    case "Mt" => Some(276.0)
    case "Ds" => Some(281.0)
    case "Rg" => Some(280.0)
    case "Cn" => Some(285.0)
    case "Nh" => Some(284.0)
    case "Fl" => Some(289.0)
    case "Mc" => Some(288.0)
    case "Lv" => Some(293.0)
    case "Ts" => Some(294.0)
    case "Og" => Some(294.0)
    case _ => None
  }

  /** One match of the pattern: the element symbol (group 1) and the count digits (group 2). */
  datatype Match = Match(element: string, digits: string)

  /** The text a match covers. */
  function Covered(m: Match): string
  {
    m.element + m.digits
  }

  /** The end of the symbol that starts at s[0]: one upper-case letter and an optional lower-case one. */
  function SymbolEnd(s: string): (e: nat)
    requires |s| > 0
    ensures 1 <= e <= 2 && e <= |s|
    ensures e == 2 <==> |s| >= 2 && IsLower(s[1])
  {
    if |s| >= 2 && IsLower(s[1]) then 2 else 1
  }

  /** The end of the longest run of digits starting at index k (`\d*` is greedy). */
  function DigitsEnd(s: string, k: nat): (r: nat)
    requires k <= |s|
    ensures k <= r <= |s|
    ensures forall j :: k <= j < r ==> IsDigit(s[j])
    ensures r == |s| || !IsDigit(s[r])
    decreases |s| - k
  {
    if k < |s| && IsDigit(s[k]) then DigitsEnd(s, k + 1) else k
  }

  /** The length of the match that starts at s[0]. */
  function MatchLength(s: string): (n: nat)
    requires |s| > 0
    ensures SymbolEnd(s) <= n <= |s|
  {
    DigitsEnd(s, SymbolEnd(s))
  }

  /** The match that starts at s[0], an upper-case letter. */
  function MatchAt(s: string): (m: Match)
    requires |s| > 0 && IsUpper(s[0])
    ensures Covered(m) == s[..MatchLength(s)]
    ensures 1 <= |m.element| <= 2 && IsUpper(m.element[0])
    ensures |m.element| == 2 ==> IsLower(m.element[1])
    ensures AllDigits(m.digits)
  {
    var e := SymbolEnd(s);
    var n := MatchLength(s);
    assert s[..e] + s[e..n] == s[..n];
    Match(s[..e], s[e..n])
  }

  /**
   * `regex.findAll(formula)`: scanning from the left, a position that does not start a match
   * (anything but an upper-case letter) is skipped, and the next search starts where the
   * previous match ended.
   */
  function FindAll(s: string): (ms: seq<Match>)
    decreases |s|
  {
    if s == [] then []
    else if IsUpper(s[0]) then [MatchAt(s)] + FindAll(s[MatchLength(s)..])
    else FindAll(s[1..])
  }

  /** `matches.joinToString("") { it.value }`. */
  function Joined(ms: seq<Match>): string
  {
    if ms == [] then "" else Covered(ms[0]) + Joined(ms[1..])
  }

  /** The formula is a succession of matches with nothing in between. */
  predicate Tiles(s: string)
    decreases |s|
  {
    s == [] || (IsUpper(s[0]) && Tiles(s[MatchLength(s)..]))
  }

  /**
   * The same condition stated character by character: the formula starts with an upper-case
   * letter, and every character is an upper-case letter, a digit, or a lower-case letter
   * right after an upper-case letter.
   */
  predicate WellFormed(s: string)
  {
    (|s| > 0 ==> IsUpper(s[0])) && forall k :: 0 < k < |s| ==> Allowed(s, k)
  }

  predicate Allowed(s: string, k: nat)
    requires 0 < k < |s|
  {
    IsUpper(s[k]) || IsDigit(s[k]) || (IsLower(s[k]) && IsUpper(s[k - 1]))
  }

  predicate HasBracket(s: string)
  {
    exists i :: 0 <= i < |s| && s[i] in "()[]{}<>"
  }

  predicate HasUpper(s: string)
  {
    exists i :: 0 <= i < |s| && IsUpper(s[i])
  }

  /** The matches never cover more than the formula. */
  lemma {:induction false} JoinedNoLonger(s: string)
    ensures |Joined(FindAll(s))| <= |s|
    decreases |s|
  {
    if s == [] {
    } else if IsUpper(s[0]) {
      var n := MatchLength(s);
      JoinedNoLonger(s[n..]);
    } else {
      JoinedNoLonger(s[1..]);
    }
  }

  /** The formula is rebuilt from its matches exactly when the matches tile it. */
  lemma {:induction false} JoinedIffTiles(s: string)
    ensures Joined(FindAll(s)) == s <==> Tiles(s)
    decreases |s|
  {
    if s == [] {
    } else if IsUpper(s[0]) {
      var n := MatchLength(s);
      var m := MatchAt(s);
      JoinedIffTiles(s[n..]);
      assert FindAll(s)[0] == m && FindAll(s)[1..] == FindAll(s[n..]);
      assert Joined(FindAll(s)) == s[..n] + Joined(FindAll(s[n..]));
      assert s == s[..n] + s[n..];
      if Joined(FindAll(s)) == s {
        assert Joined(FindAll(s[n..])) == s[n..];
      }
    } else {
      JoinedNoLonger(s[1..]);
    }
  }

  /** Where a match ends inside a well-formed formula, the next character starts a new one. */
  lemma NextIsUpper(s: string)
    requires WellFormed(s) && |s| > 0
    ensures MatchLength(s) < |s| ==> IsUpper(s[MatchLength(s)])
  {
    var e := SymbolEnd(s);
    var n := MatchLength(s);
    if n < |s| {
      if n > e {
        assert IsDigit(s[n - 1]);
      } else if e == 2 {
        assert IsLower(s[1]);
      }
      assert Allowed(s, n);
    }
  }

  /** What follows the first match of a well-formed formula is well formed. */
  lemma WellFormedRest(s: string)
    requires |s| > 0 && WellFormed(s)
    ensures WellFormed(s[MatchLength(s)..])
  {
    var n := MatchLength(s);
    var t := s[n..];
    NextIsUpper(s);
    forall k | 0 < k < |t|
      ensures Allowed(t, k)
    {
      assert Allowed(s, n + k);
      assert t[k] == s[n + k] && t[k - 1] == s[n + k - 1];
    }
  }

  /** A match followed by a well-formed formula is well formed. */
  lemma WellFormedFromRest(s: string)
    requires |s| > 0 && IsUpper(s[0]) && WellFormed(s[MatchLength(s)..])
    ensures WellFormed(s)
  {
    var n := MatchLength(s);
    var e := SymbolEnd(s);
    var t := s[n..];
    forall k | 0 < k < |s|
      ensures Allowed(s, k)
    {
      if k < e {
        assert k == 1 && IsLower(s[1]);
      } else if k < n {
        assert IsDigit(s[k]);
      } else if k == n {
        assert s[k] == t[0];
      } else {
        assert Allowed(t, k - n);
        assert s[k] == t[k - n] && s[k - 1] == t[k - n - 1];
      }
    }
  }

  /** The character-by-character condition and the tiling agree. */
  lemma {:induction false} TilesIffWellFormed(s: string)
    ensures Tiles(s) <==> WellFormed(s)
    decreases |s|
  {
    if s != [] && IsUpper(s[0]) {
      var t := s[MatchLength(s)..];
      TilesIffWellFormed(t);
      if WellFormed(s) {
        WellFormedRest(s);
      }
      if WellFormed(t) {
        WellFormedFromRest(s);
      }
    }
  }

  /** No match is found exactly when the formula holds no upper-case letter. */
  lemma {:induction false} FindAllEmpty(s: string)
    ensures FindAll(s) == [] <==> !HasUpper(s)
    decreases |s|
  {
    if s != [] && !IsUpper(s[0]) {
      FindAllEmpty(s[1..]);
      if HasUpper(s) {
        var i :| 0 <= i < |s| && IsUpper(s[i]);
        assert s[1..][i - 1] == s[i];
      }
      if HasUpper(s[1..]) {
        var i :| 0 <= i < |s[1..]| && IsUpper(s[1..][i]);
        assert s[i + 1] == s[1..][i];
      }
    }
  }

  /** What a computation produces: a mass, or the message of the exception thrown. */
  datatype Outcome = Mass(total: real) | Error(message: string)

  /** `countStr.toInt()`'s message for digits beyond the Int range. */
  function NumberFormatMessage(digits: string): string
  {
    "For input string: \"" + digits + "\""
  }

  /** The count of a match: 1 without digits, else the digits read as an Int. */
  function CountOf(m: Match): (c: Option<int>)
    requires AllDigits(m.digits)
    ensures m.digits == [] ==> c == Some(1)
    ensures m.digits != [] ==> (c.Some? <==> DecimalValue(m.digits) <= INT_MAX)
    ensures c.Some? ==> c.value >= 0 && (m.digits != [] ==> c.value == DecimalValue(m.digits))
  {
    if m.digits == [] then Some(1) else ParseInt(m.digits, INT_MIN, INT_MAX)
  }

  /** What one match adds: the count is read before the element is looked up. */
  function Contribution(m: Match): Outcome
    requires AllDigits(m.digits)
  {
    match CountOf(m)
    case None => Error(NumberFormatMessage(m.digits))
    case Some(count) =>
      match AtomicMass(m.element)
      case None => Error(UNKNOWN_ELEMENT + m.element)
      case Some(mass) => Mass(mass * count as real)
  }

  predicate Counted(ms: seq<Match>)
  {
    forall i :: 0 <= i < |ms| ==> AllDigits(ms[i].digits)
  }

  lemma {:induction false} FindAllCounted(s: string)
    ensures Counted(FindAll(s))
    decreases |s|
  {
    if s != [] {
      if IsUpper(s[0]) {
        FindAllCounted(s[MatchLength(s)..]);
      } else {
        FindAllCounted(s[1..]);
      }
    }
  }

  /** The loop over the matches, in order, stopping at the first exception. */
  function Total(ms: seq<Match>): Outcome
    requires Counted(ms)
    decreases |ms|
  {
    if ms == [] then Mass(0.0)
    else
      match Total(ms[..|ms| - 1])
      case Error(msg) => Error(msg)
      case Mass(t) =>
        match Contribution(ms[|ms| - 1])
        case Error(msg) => Error(msg)
        case Mass(x) => Mass(t + x)
  }

  /** The sum of the contributions, added from the right. */
  function Sum(ms: seq<Match>): real
    requires Counted(ms)
    requires forall i :: 0 <= i < |ms| ==> Contribution(ms[i]).Mass?
  {
    if ms == [] then 0.0 else Contribution(ms[0]).total + Sum(ms[1..])
  }

  lemma {:induction false} SumSnoc(ms: seq<Match>, m: Match)
    requires Counted(ms) && AllDigits(m.digits)
    requires forall i :: 0 <= i < |ms| ==> Contribution(ms[i]).Mass?
    requires Contribution(m).Mass?
    ensures Sum(ms + [m]) == Sum(ms) + Contribution(m).total
    decreases |ms|
  {
    assert (ms + [m])[|ms|] == m;
    if ms != [] {
      assert (ms + [m])[1..] == ms[1..] + [m];
      assert (ms + [m])[0] == ms[0];
      SumSnoc(ms[1..], m);
    }
  }

  /** The total is the sum of mass times count over the matches once every match is known. */
  lemma {:induction false} TotalIsSum(ms: seq<Match>)
    requires Counted(ms)
    requires forall i :: 0 <= i < |ms| ==> Contribution(ms[i]).Mass?
    ensures Total(ms) == Mass(Sum(ms))
    decreases |ms|
  {
    if ms != [] {
      var init := ms[..|ms| - 1];
      assert init + [ms[|ms| - 1]] == ms;
      TotalIsSum(init);
      SumSnoc(init, ms[|ms| - 1]);
    }
  }

  /** Once a prefix of the matches has thrown, later matches change nothing. */
  lemma {:induction false} TotalStops(ms: seq<Match>, i: nat)
    requires Counted(ms) && i <= |ms|
    requires Total(ms[..i]).Error?
    ensures Total(ms) == Total(ms[..i])
    decreases |ms| - i
  {
    if i < |ms| {
      assert ms[..i + 1][..i] == ms[..i];
      TotalStops(ms, i + 1);
    } else {
      assert ms[..i] == ms;
    }
  }

  /** The total fails exactly when some match fails, with the message of the first one. */
  lemma {:induction false} TotalFirstError(ms: seq<Match>, i: nat)
    requires Counted(ms) && i < |ms|
    requires Contribution(ms[i]).Error?
    requires forall j :: 0 <= j < i ==> Contribution(ms[j]).Mass?
    ensures Total(ms) == Contribution(ms[i])
  {
    var pre := ms[..i];
    TotalIsSum(pre);
    assert ms[..i + 1][..i] == pre;
    TotalStops(ms, i + 1);
  }

  /** One more match: its failure, or its contribution added to the running total. */
  lemma TotalStep(ms: seq<Match>, i: nat)
    requires Counted(ms) && i < |ms|
    requires Total(ms[..i]).Mass?
    ensures Contribution(ms[i]).Error? ==> Total(ms[..i + 1]) == Contribution(ms[i])
    ensures Contribution(ms[i]).Mass?
            ==> Total(ms[..i + 1]) == Mass(Total(ms[..i]).total + Contribution(ms[i]).total)
  {
    assert ms[..i + 1][..i] == ms[..i];
  }

  /** `parseFormula`, as the outcome it produces. */
  function FormulaOutcome(formula: string): Outcome
  {
    var ms := FindAll(formula);
    FindAllCounted(formula);
    if ms == [] && !IsBlank(formula) then Error(INVALID_FORMAT)
    else if Joined(ms) != formula then
      (if HasBracket(formula) then Error(BRACKETS) else Error(INVALID_FORMAT))
    else Total(ms)
  }

  /**
   * `parseFormula`: a formula with no element, or one that its matches do not cover exactly,
   * is rejected; then the contributions are added match by match.
   */
  method ParseFormula(formula: string) returns (r: Outcome)
    ensures r == FormulaOutcome(formula)
  {
    var ms := FindAll(formula);
    FindAllCounted(formula);
    if ms == [] && !IsBlank(formula) {
      return Error(INVALID_FORMAT);
    }
    if Joined(ms) != formula {
      if HasBracket(formula) {
        return Error(BRACKETS);
      }
      return Error(INVALID_FORMAT);
    }
    var totalMass := 0.0;
    var i := 0;
    while i < |ms|
      invariant 0 <= i <= |ms|
      invariant Total(ms[..i]) == Mass(totalMass)
    {
      var c := Contribution(ms[i]);
      TotalStep(ms, i);
      if c.Error? {
        TotalStops(ms, i + 1);
        return c;
      }
      totalMass := totalMass + c.total;
      i := i + 1;
    }
    assert ms[..i] == ms;
    return Mass(totalMass);
  }

  /**
   * A non-blank formula the matches do not tile is rejected with the format message, or with
   * the bracket message when it holds a bracket and some element was found.
   */
  lemma Rejected(formula: string)
    requires !IsBlank(formula) && !WellFormed(formula)
    ensures FormulaOutcome(formula).Error?
    ensures HasUpper(formula) && HasBracket(formula) ==> FormulaOutcome(formula) == Error(BRACKETS)
    ensures !(HasUpper(formula) && HasBracket(formula)) ==> FormulaOutcome(formula) == Error(INVALID_FORMAT)
  {
    TilesIffWellFormed(formula);
    JoinedIffTiles(formula);
    FindAllEmpty(formula);
  }

  /** A well-formed formula gets the sum of its contributions, or the first failing one's message. */
  lemma Accepted(formula: string)
    requires formula != [] && WellFormed(formula)
    ensures var ms := FindAll(formula);
            && Counted(ms)
            && ((forall i :: 0 <= i < |ms| ==> Contribution(ms[i]).Mass?) ==> FormulaOutcome(formula) == Mass(Sum(ms)))
            && (forall i :: 0 <= i < |ms| && Contribution(ms[i]).Error? && (forall j :: 0 <= j < i ==> Contribution(ms[j]).Mass?)
                  ==> FormulaOutcome(formula) == Contribution(ms[i]))
  {
    var ms := FindAll(formula);
    FindAllCounted(formula);
    TilesIffWellFormed(formula);
    JoinedIffTiles(formula);
    assert IsUpper(formula[0]);
    assert ms != [];
    if forall i :: 0 <= i < |ms| ==> Contribution(ms[i]).Mass? {
      TotalIsSum(ms);
    }
    forall i | 0 <= i < |ms| && Contribution(ms[i]).Error? && (forall j :: 0 <= j < i ==> Contribution(ms[j]).Mass?)
      ensures FormulaOutcome(formula) == Contribution(ms[i])
    {
      TotalFirstError(ms, i);
    }
  }

  /** Only a well-formed formula has a mass. */
  lemma MassOnlyWhenWellFormed(formula: string)
    requires !IsBlank(formula) && FormulaOutcome(formula).Mass?
    ensures WellFormed(formula)
  {
    if !WellFormed(formula) {
      Rejected(formula);
    }
  }

  /** H2O is two hydrogens and one oxygen. */
  lemma WaterExample()
    ensures FindAll("H2O") == [Match("H", "2"), Match("O", "")]
    ensures FormulaOutcome("H2O") == Mass(1.008 * 2.0 + 15.999)
  {
    var s := "H2O";
    assert DigitsEnd(s, 1) == 2 by {
      assert DigitsEnd(s, 2) == 2;
    }
    assert MatchLength(s) == 2;
    assert s[2..] == "O";
    assert DigitsEnd("O", 1) == 1;
    assert MatchAt("O") == Match("O", "");
    assert "O"[1..] == [];
    assert FindAll("O") == [Match("O", "")];
    assert MatchAt(s) == Match("H", "2");
    var ms := FindAll(s);
    assert ms == [Match("H", "2"), Match("O", "")];
    assert Joined(ms[1..]) == "O" by {
      assert ms[1..][1..] == [];
    }
    assert Joined(ms) == "H2" + "O";
    assert !IsWhitespace(s[0]);
    assert DecimalValue("2") == 2 by {
      assert "2"[..0] == [];
    }
    assert ParseInt("2", INT_MIN, INT_MAX) == Some(2);
    assert Contribution(ms[0]) == Mass(1.008 * 2.0);
    assert Contribution(ms[1]) == Mass(15.999);
    assert ms[..1] == [ms[0]] && ms[..2] == ms;
    assert Total(ms[..1]) == Mass(1.008 * 2.0) by {
      assert ms[..1][..0] == [];
    }
  }

  /** NaCl: a two-letter symbol after a one-letter one. */
  lemma SaltSymbols()
    ensures FindAll("NaCl") == [Match("Na", ""), Match("Cl", "")]
  {
    var s := "NaCl";
    assert SymbolEnd(s) == 2;
    assert DigitsEnd(s, 2) == 2;
    assert s[2..] == "Cl";
    assert SymbolEnd("Cl") == 2 && DigitsEnd("Cl", 2) == 2;
    assert "Cl"[2..] == [];
    assert MatchAt("Cl") == Match("Cl", "");
    assert MatchAt(s) == Match("Na", "");
  }

  /** A character that is neither a letter nor a digit spoils a formula. */
  lemma BadCharacter(s: string, k: nat)
    requires k < |s| && !IsUpper(s[k]) && !IsDigit(s[k]) && !IsLower(s[k])
    ensures !WellFormed(s)
  {
    if k > 0 {
      assert !Allowed(s, k);
    }
  }

  /** A character between two elements is a format error. */
  lemma StrayCharacterExample()
    ensures FormulaOutcome("H2_O") == Error(INVALID_FORMAT)
  {
    assert !IsWhitespace("H2_O"[0]);
    BadCharacter("H2_O", 2);
    assert HasUpper("H2_O") by { assert IsUpper("H2_O"[0]); }
    assert !HasBracket("H2_O") by {
      forall i | 0 <= i < 4 ensures "H2_O"[i] !in "()[]{}<>" {
      }
    }
    Rejected("H2_O");
  }

  /** Groups in brackets are not supported. */
  lemma BracketExample()
    ensures FormulaOutcome("(OH)2") == Error(BRACKETS)
  {
    assert !IsWhitespace("(OH)2"[0]) && !WellFormed("(OH)2");
    assert HasUpper("(OH)2") by { assert IsUpper("(OH)2"[1]); }
    assert HasBracket("(OH)2") by { assert "(OH)2"[0] in "()[]{}<>"; }
    Rejected("(OH)2");
  }

  /** Lower-case text holds no element. */
  lemma LowerCaseExample()
    ensures FormulaOutcome("h2o") == Error(INVALID_FORMAT)
  {
    assert !IsWhitespace("h2o"[0]) && !WellFormed("h2o");
    assert !HasUpper("h2o") by {
      forall i | 0 <= i < 3 ensures !IsUpper("h2o"[i]) {
      }
    }
    Rejected("h2o");
  }

  /** A well-formed symbol missing from the table is an unknown element. */
  lemma UnknownElementExample()
    ensures FormulaOutcome("Xx") == Error(UNKNOWN_ELEMENT + "Xx")
  {
    assert WellFormed("Xx");
    Accepted("Xx");
    assert SymbolEnd("Xx") == 2 && DigitsEnd("Xx", 2) == 2 && "Xx"[2..] == [];
    assert FindAll("Xx") == [Match("Xx", "")];
    assert AtomicMass("Xx") == None;
  }

  datatype UiState = UiState(formula: string, result: Option<real>, error: Option<string>)

  /** The result and error `calculate` stores for a formula. */
  function Calculated(formula: string): (s: UiState)
    ensures s.formula == formula
    ensures s.result.Some? ==> s.error.None? && !IsBlank(formula) && WellFormed(formula)
    ensures IsBlank(formula) ==> s.result.None? && s.error.None?
    ensures !IsBlank(formula) ==> s.result.Some? != s.error.Some?
  {
    if IsBlank(formula) then UiState(formula, None, None)
    else
      match FormulaOutcome(formula)
      case Mass(m) =>
        MassOnlyWhenWellFormed(formula);
        UiState(formula, Some(m), None)
      case Error(msg) => UiState(formula, None, Some(msg))
  }

  class MolarMassViewModel {
    var ui: UiState

    /** The formula "H2O" is computed at construction. */
    constructor()
      ensures ui == Calculated("H2O")
      ensures ui.result == Some(1.008 * 2.0 + 15.999)
    {
      ui := UiState("H2O", None, None);
      new;
      Calculate();
      WaterExample();
    }

    /** `onFormulaChange`: the formula is stored, then computed. */
    method OnFormulaChange(value: string)
      modifies this
      ensures ui == Calculated(value)
    {
      ui := ui.(formula := value);
      Calculate();
    }

    /** `calculate`: a blank formula clears result and error; otherwise `parseFormula` runs. */
    method Calculate()
      modifies this
      ensures ui == Calculated(old(ui.formula))
    {
      var formula := ui.formula;
      if IsBlank(formula) {
        ui := ui.(result := None, error := None);
        return;
      }
      var outcome := ParseFormula(formula);
      match outcome {
        case Mass(m) =>
          ui := ui.(result := Some(m), error := None);
        case Error(msg) =>
          ui := ui.(result := None, error := Some(msg));
      }
    }
  }
}
