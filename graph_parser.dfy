/**
 * The front end of the graphing screen's expression parser (`graphing/FunctionLocal.kt`): a
 * tokenizer that removes spaces, groups digits and letters, replaces the constants `pi` and `e`
 * and inserts the implicit multiplications, and a shunting-yard converter from the tokens to
 * reverse Polish notation. Evaluating the RPN (floating point) is not part of this model.
 */
module GraphParser {
  import opened Wrappers
  import opened Text

  /** The function names the parser knows. */
  const FUNCS: set<string> := {"sin", "cos", "tan", "asin", "acos", "atan", "exp", "ln", "log", "sqrt", "abs"}

  /** `Math.PI.toString()` and `Math.E.toString()`. */
  const PI_TEXT := "3.141592653589793"
  const E_TEXT := "2.718281828459045"

  // ------------------------------------------------------------ tokenize

  /** `s.replace(" ", "")`. */
  function RemoveSpaces(s: string): (r: string)
    ensures forall i :: 0 <= i < |r| ==> r[i] != ' '
    ensures |r| <= |s|
  {
    if s == [] then [] else (if s[0] == ' ' then [] else [s[0]]) + RemoveSpaces(s[1..])
  }

  predicate IsNumberChar(c: char) { IsDigit(c) || c == '.' }

  /** The pieces the tokenizer cuts its input into: maximal runs of number characters and of
    * letters, commas, and single other characters. */
  datatype Lexeme = Number(text: string) | Name(text: string) | Comma | Other(c: char)

  function LexemeText(l: Lexeme): (t: string)
    ensures |t| >= 1 || l.Number? || l.Name?
  {
    match l
    case Number(t) => t
    case Name(t) => t
    case Comma => ","
    case Other(c) => [c]
  }

  /** End of the run of number characters from `i`. */
  function NumberEnd(s: string, i: nat): (j: nat)
    requires i <= |s|
    ensures i <= j <= |s| && (j < |s| ==> !IsNumberChar(s[j]))
    ensures forall k :: i <= k < j ==> IsNumberChar(s[k])
    decreases |s| - i
  {
    if i < |s| && IsNumberChar(s[i]) then NumberEnd(s, i + 1) else i
  }

  /** End of the run of letters from `i`. */
  function NameEnd(s: string, i: nat): (j: nat)
    requires i <= |s|
    ensures i <= j <= |s| && (j < |s| ==> !IsLetter(s[j]))
    ensures forall k :: i <= k < j ==> IsLetter(s[k])
    decreases |s| - i
  {
    if i < |s| && IsLetter(s[i]) then NameEnd(s, i + 1) else i
  }

  /** The lexemes of s[i..], left to right, each run as long as possible. */
  function Scan(s: string, i: nat): (ls: seq<Lexeme>)
    requires i <= |s|
    ensures i < |s| <==> ls != []
    decreases |s| - i
  {
    if i == |s| then []
    else if IsNumberChar(s[i]) then [Number(s[i..NumberEnd(s, i)])] + Scan(s, NumberEnd(s, i))
    else if IsLetter(s[i]) then [Name(s[i..NameEnd(s, i)])] + Scan(s, NameEnd(s, i))
    else if s[i] == ',' then [Comma] + Scan(s, i + 1)
    else [Other(s[i])] + Scan(s, i + 1)
  }

  /** The text the lexemes were cut from. */
  function Spell(ls: seq<Lexeme>): string
  {
    if ls == [] then [] else LexemeText(ls[0]) + Spell(ls[1..])
  }

  /** Scanning loses nothing: the lexemes spell the input back. */
  lemma {:induction false} ScanSpells(s: string, i: nat)
    requires i <= |s|
    ensures Spell(Scan(s, i)) == s[i..]
    decreases |s| - i
  {
    if i < |s| {
      var j := if IsNumberChar(s[i]) then NumberEnd(s, i) else if IsLetter(s[i]) then NameEnd(s, i) else i + 1;
      ScanSpells(s, j);
      assert s[i..] == s[i..j] + s[j..];
      if !IsNumberChar(s[i]) && !IsLetter(s[i]) {
        assert s[i..j] == [s[i]];
      }
    }
  }

  /** The first character of a lexeme's text. */
  function Lead(l: Lexeme): Option<char>
  {
    var t := LexemeText(l);
    if t == [] then None else Some(t[0])
  }

  /**
   * Runs are maximal: a number is never followed by a number nor a name by a name, and a
   * lexeme's text starts with the character it was found at.
   */
  lemma {:induction false} ScanMaximal(s: string, i: nat)
    requires i <= |s|
    ensures var ls := Scan(s, i);
            && (i < |s| ==> Lead(ls[0]) == Some(s[i]))
            && forall k :: 0 <= k < |ls| - 1 ==> !(ls[k].Number? && ls[k + 1].Number?) && !(ls[k].Name? && ls[k + 1].Name?)
    decreases |s| - i
  {
    ScanLead(s, i);
    if i < |s| {
      var j := if IsNumberChar(s[i]) then NumberEnd(s, i) else if IsLetter(s[i]) then NameEnd(s, i) else i + 1;
      ScanMaximal(s, j);
      var ls, rest := Scan(s, i), Scan(s, j);
      assert ls == [ls[0]] + rest;
      ScanHeadKind(s, i);
      ScanHeadKind(s, j);
      NoAdjacentRunsCons(ls[0], rest);
    }
  }

  /** The kind of the first lexeme follows from the character it starts at. */
  lemma ScanHeadKind(s: string, i: nat)
    requires i <= |s|
    ensures i < |s| ==> (Scan(s, i)[0].Number? <==> IsNumberChar(s[i]))
    ensures i < |s| ==> (Scan(s, i)[0].Name? <==> !IsNumberChar(s[i]) && IsLetter(s[i]))
  {
  }

  lemma NoAdjacentRunsCons(l: Lexeme, rest: seq<Lexeme>)
    requires forall k :: 0 <= k < |rest| - 1 ==> !(rest[k].Number? && rest[k + 1].Number?) && !(rest[k].Name? && rest[k + 1].Name?)
    requires rest != [] ==> !(l.Number? && rest[0].Number?) && !(l.Name? && rest[0].Name?)
    ensures var ls := [l] + rest;
            forall k :: 0 <= k < |ls| - 1 ==> !(ls[k].Number? && ls[k + 1].Number?) && !(ls[k].Name? && ls[k + 1].Name?)
  {
    var ls := [l] + rest;
    forall k | 0 <= k < |ls| - 1
      ensures !(ls[k].Number? && ls[k + 1].Number?) && !(ls[k].Name? && ls[k + 1].Name?)
    {
      if k > 0 {
        assert ls[k] == rest[k - 1] && ls[k + 1] == rest[k];
      }
    }
  }

  /** A lexeme's text starts with the character it was found at. */
  lemma ScanLead(s: string, i: nat)
    requires i <= |s|
    ensures i < |s| ==> Lead(Scan(s, i)[0]) == Some(s[i])
  {
    if i < |s| && IsNumberChar(s[i]) {
      assert s[i..NumberEnd(s, i)][0] == s[i];
    } else if i < |s| && IsLetter(s[i]) {
      assert s[i..NameEnd(s, i)][0] == s[i];
    }
  }

  /** A name as a token: "pi" and "e", in any case, become their numeric values. */
  function NameToken(name: string): (t: string)
    ensures Lower(name) == "pi" ==> t == PI_TEXT
    ensures Lower(name) == "e" ==> t == E_TEXT
    ensures Lower(name) != "pi" && Lower(name) != "e" ==> t == name
  {
    if Lower(name) == "pi" then PI_TEXT else if Lower(name) == "e" then E_TEXT else name
  }

  /** The tokens of one lexeme, given the character that follows it. */
  function EmitOne(l: Lexeme, next: Option<char>): seq<string>
  {
    match l
    case Number(t) =>
      [t] + (if next.Some? && (IsLetter(next.value) || next.value == '(') then ["*"] else [])
    case Name(t) =>
      [NameToken(t)] +
      (if next == Some('(') then (if Lower(t) !in FUNCS then ["*"] else [])
       else if next.Some? && IsNumberChar(next.value) then ["*"] else [])
    case Comma => ["."]
    case Other(c) => [[c]]
  }

  /** The tokens of a list of lexemes. */
  function EmitAll(ls: seq<Lexeme>): seq<string>
  {
    if ls == [] then []
    else EmitOne(ls[0], if |ls| > 1 then Lead(ls[1]) else None) + EmitAll(ls[1..])
  }

  /** Specification of tokenize. */
  function Tokens(s: string): seq<string>
  {
    var input := RemoveSpaces(s);
    EmitAll(Scan(input, 0))
  }

  /** The character after position i, if any. */
  function NextOf(s: string, i: nat): Option<char>
  {
    if i < |s| then Some(s[i]) else None
  }

  /** One iteration of the tokenizer's loop: the lexeme at `i` ends at `j` and emits its tokens. */
  lemma StepFrom(s: string, i: nat, j: nat, l: Lexeme, before: seq<string>, tokens: seq<string>)
    requires i < |s| && i < j <= |s|
    requires Scan(s, i) == [l] + Scan(s, j)
    requires tokens == before + EmitOne(l, NextOf(s, j))
    ensures tokens + EmitAll(Scan(s, j)) == before + EmitAll(Scan(s, i))
  {
    ScanLead(s, j);
    EmitStep(Scan(s, i), Scan(s, j), l, NextOf(s, j), before, tokens);
  }

  /** Emitting a lexeme, then the rest, emits the whole list. */
  lemma EmitStep(ls: seq<Lexeme>, rest: seq<Lexeme>, l: Lexeme, next: Option<char>, before: seq<string>, tokens: seq<string>)
    requires ls == [l] + rest
    requires next == if rest == [] then None else Lead(rest[0])
    requires tokens == before + EmitOne(l, next)
    ensures tokens + EmitAll(rest) == before + EmitAll(ls)
  {
    EmitCons(l, rest, next);
  }

  lemma EmitCons(l: Lexeme, rest: seq<Lexeme>, next: Option<char>)
    requires next == if rest == [] then None else Lead(rest[0])
    ensures EmitAll([l] + rest) == EmitOne(l, next) + EmitAll(rest)
  {
    assert ([l] + rest)[1..] == rest;
  }

  /** tokenize: one pass over the input with its runs of digits and letters. */
  method Tokenize(s: string) returns (tokens: seq<string>)
    ensures tokens == Tokens(s)
  {
    var input := RemoveSpaces(s);
    tokens := [];
    var i := 0;
    while i < |input|
      invariant 0 <= i <= |input|
      invariant tokens + EmitAll(Scan(input, i)) == EmitAll(Scan(input, 0))
      decreases |input| - i
    {
      var c := input[i];
      var start := i;
      ghost var before := tokens;
      ghost var lexeme: Lexeme;
      if IsDigit(c) || c == '.' {
        i, tokens := ReadNumber(input, start, tokens);
        lexeme := Number(input[start..i]);
      } else if IsLetter(c) {
        i, tokens := ReadName(input, start, tokens);
        lexeme := Name(input[start..i]);
      } else if c == ',' {
        lexeme := Comma;
        tokens := tokens + ["."];
        i := i + 1;
      } else {
        lexeme := Other(c);
        tokens := tokens + [[c]];
        i := i + 1;
      }
      StepFrom(input, start, i, lexeme, before, tokens);
    }
  }

  /** The branch for a number: the inner loop over its run, then the number and maybe a "*". */
  method ReadNumber(input: string, start: nat, tokens0: seq<string>) returns (i: nat, tokens: seq<string>)
    requires start <= |input|
    ensures i == NumberEnd(input, start)
    ensures tokens == tokens0 + EmitOne(Number(input[start..i]), NextOf(input, i))
  {
    i := start;
    while i < |input| && (IsDigit(input[i]) || input[i] == '.')
      invariant start <= i <= |input|
      invariant NumberEnd(input, i) == NumberEnd(input, start)
      decreases |input| - i
    {
      i := i + 1;
    }
    tokens := tokens0 + [input[start..i]];
    if i < |input| && (IsLetter(input[i]) || input[i] == '(') {
      tokens := tokens + ["*"];
    }
  }

  /** The branch for a name: the inner loop over its run, the name or constant, and maybe a "*". */
  method ReadName(input: string, start: nat, tokens0: seq<string>) returns (i: nat, tokens: seq<string>)
    requires start <= |input|
    ensures i == NameEnd(input, start)
    ensures tokens == tokens0 + EmitOne(Name(input[start..i]), NextOf(input, i))
  {
    i := start;
    while i < |input| && IsLetter(input[i])
      invariant start <= i <= |input|
      invariant NameEnd(input, i) == NameEnd(input, start)
      decreases |input| - i
    {
      i := i + 1;
    }
    var name := input[start..i];
    var lower := Lower(name);
    if lower == "pi" {
      tokens := tokens0 + [PI_TEXT];
    } else if lower == "e" {
      tokens := tokens0 + [E_TEXT];
    } else {
      tokens := tokens0 + [name];
    }
    if i < |input| {
      var next := input[i];
      if next == '(' {
        if lower !in FUNCS {
          tokens := tokens + ["*"];
        }
      } else if IsDigit(next) || next == '.' {
        tokens := tokens + ["*"];
      }
    }
  }

  // ------------------------------------------------------------ properties of tokenize

  /** What the scanner produces: non-empty runs, and single characters of no run. */
  predicate WellFormed(l: Lexeme) {
    match l
    case Number(t) => t != [] && forall k :: 0 <= k < |t| ==> IsNumberChar(t[k])
    case Name(t) => t != [] && forall k :: 0 <= k < |t| ==> IsLetter(t[k])
    case Comma => true
    case Other(c) => !IsNumberChar(c) && !IsLetter(c) && c != ','
  }

  /** Every lexeme of a space-free input is well formed and none is a space. */
  lemma {:induction false} ScanWellFormed(s: string, i: nat)
    requires i <= |s|
    requires forall k :: 0 <= k < |s| ==> s[k] != ' '
    ensures forall m :: 0 <= m < |Scan(s, i)| ==> WellFormed(Scan(s, i)[m]) && Scan(s, i)[m] != Other(' ')
    decreases |s| - i
  {
    if i < |s| {
      var j := if IsNumberChar(s[i]) then NumberEnd(s, i) else if IsLetter(s[i]) then NameEnd(s, i) else i + 1;
      var ls := Scan(s, i);
      assert ls[1..] == Scan(s, j);
      ScanWellFormed(s, j);
      assert WellFormed(ls[0]) && ls[0] != Other(' ');
      assert forall m :: 1 <= m < |ls| ==> ls[m] == Scan(s, j)[m - 1];
    }
  }

  /** No token holds a space or a comma, and no token is the name of a constant. */
  predicate CleanToken(t: string) {
    && (forall k :: 0 <= k < |t| ==> t[k] != ' ' && t[k] != ',')
    && Lower(t) != "pi" && Lower(t) != "e"
  }

  /** Text that does not start with a letter is not the name of a constant. */
  lemma NotConstantName(t: string)
    requires |t| > 0 && !IsLetter(t[0])
    ensures Lower(t) != "pi" && Lower(t) != "e"
  {
    assert Lower(t)[0] == t[0];
    assert "pi"[0] == 'p' && "e"[0] == 'e';
  }

  /** The token a lexeme itself becomes, before any implicit "*". */
  function HeadToken(l: Lexeme): string
  {
    match l
    case Number(t) => t
    case Name(t) => NameToken(t)
    case Comma => "."
    case Other(c) => [c]
  }

  lemma EmitOneClean(l: Lexeme, next: Option<char>)
    requires WellFormed(l) && l != Other(' ')
    ensures forall t :: t in EmitOne(l, next) ==> CleanToken(t)
  {
    var toks := EmitOne(l, next);
    assert toks == [HeadToken(l)] || toks == [HeadToken(l), "*"];
    NotConstantName("*");
    assert CleanToken("*");
    HeadTokenClean(l);
  }

  lemma HeadTokenClean(l: Lexeme)
    requires WellFormed(l) && l != Other(' ')
    ensures CleanToken(HeadToken(l))
  {
    match l
    case Number(u) =>
      NotConstantName(u);
    case Name(u) =>
      if Lower(u) == "pi" {
        NotConstantName(PI_TEXT);
      } else if Lower(u) == "e" {
        NotConstantName(E_TEXT);
      }
    case Comma =>
      NotConstantName(".");
    case Other(c) =>
      NotConstantName([c]);
  }

  lemma {:induction false} EmitAllClean(ls: seq<Lexeme>)
    requires forall m :: 0 <= m < |ls| ==> WellFormed(ls[m]) && ls[m] != Other(' ')
    ensures forall t :: t in EmitAll(ls) ==> CleanToken(t)
  {
    if ls != [] {
      EmitOneClean(ls[0], if |ls| > 1 then Lead(ls[1]) else None);
      EmitAllClean(ls[1..]);
    }
  }

  /** Spaces are gone, commas became ".", and "pi"/"e" were replaced by numbers. */
  lemma TokensClean(s: string)
    ensures forall t :: t in Tokens(s) ==> CleanToken(t)
  {
    ScanWellFormed(RemoveSpaces(s), 0);
    EmitAllClean(Scan(RemoveSpaces(s), 0));
  }

  /**
   * A number followed by a name or '(', or a name followed by a number, or by '(' when it is
   * not a function name.
   */
  predicate CallsForStar(l: Lexeme, next: Lexeme)
  {
    && WellFormed(next)
    && (|| (l.Number? && (next.Name? || next == Other('(')))
        || (l.Name? && (next.Number? || (next == Other('(') && Lower(l.text) !in FUNCS))))
  }

  /**
   * Implicit multiplication: "*" follows a number that is followed by a name or '(', and a
   * name that is followed by a number, or by '(' when it is not a function name.
   */
  lemma {:induction false} ImplicitMultiplication(ls: seq<Lexeme>, k: nat)
    requires k + 1 < |ls| && CallsForStar(ls[k], ls[k + 1])
    ensures exists p :: 0 <= p < |EmitAll(ls)| - 1 && EmitAll(ls)[p] == EmitOne(ls[k], Lead(ls[k + 1]))[0] && EmitAll(ls)[p + 1] == "*"
  {
    var one := EmitOne(ls[k], Lead(ls[k + 1]));
    StarEmitted(ls[k], ls[k + 1]);
    var head, rest := EmitOne(ls[0], Lead(ls[1])), ls[1..];
    EmitAllCons(ls);
    if k == 0 {
      StarShift([], head + EmitAll(rest), one[0], 0);
    } else {
      assert rest[k - 1] == ls[k] && rest[k] == ls[k + 1];
      ImplicitMultiplication(rest, k - 1);
      var p :| 0 <= p < |EmitAll(rest)| - 1 && EmitAll(rest)[p] == one[0] && EmitAll(rest)[p + 1] == "*";
      StarShift(head, EmitAll(rest), one[0], p);
    }
  }

  /** A token followed by "*" stays so behind any prefix. */
  lemma StarShift(head: seq<string>, tail: seq<string>, x: string, p: nat)
    requires p + 1 < |tail| && tail[p] == x && tail[p + 1] == "*"
    ensures var q := |head| + p;
            0 <= q < |head + tail| - 1 && (head + tail)[q] == x && (head + tail)[q + 1] == "*"
  {
  }

  /** The tokens of a lexeme followed by another one that calls for a "*". */
  lemma StarEmitted(l: Lexeme, next: Lexeme)
    requires CallsForStar(l, next)
    ensures |EmitOne(l, Lead(next))| == 2 && EmitOne(l, Lead(next))[1] == "*"
  {
    if next.Name? {
      assert IsLetter(next.text[0]);
    } else if next.Number? {
      assert IsNumberChar(next.text[0]);
    }
  }

  lemma EmitAllCons(ls: seq<Lexeme>)
    requires |ls| >= 2
    ensures EmitAll(ls) == EmitOne(ls[0], Lead(ls[1])) + EmitAll(ls[1..])
  {
  }

  // ------------------------------------------------------------ shuntingYard

  /** The kind of the previous token, as the converter records it (`prev`). */
  datatype Prev = NoPrev | AfterValue | AfterFunc | AfterComma | AfterOp | AfterOpen | AfterClose

  predicate HasPrecedence(op: string) { op in {"+", "-", "*", "/", "^", "u-"} }

  /** The precedence table, 0 for anything else (`prec[x] ?: 0`). */
  function Precedence(op: string): (p: int)
    ensures HasPrecedence(op) <==> p > 0
  {
    if op == "+" || op == "-" then 2
    else if op == "*" || op == "/" then 3
    else if op == "^" then 4
    else if op == "u-" then 5
    else 0
  }

  predicate RightAssoc(op: string) { op == "^" || op == "u-" }

  /** Whether `top` leaves the stack before `op` is pushed. */
  predicate PopsBefore(op: string, top: string) {
    (!RightAssoc(op) && Precedence(op) <= Precedence(top)) || (RightAssoc(op) && Precedence(op) < Precedence(top))
  }

  /** A number (`toDoubleOrNull() != null`) or the variable. */
  predicate IsValueToken(t: string) { ParseDouble(t).Some? || t == "x" }

  predicate IsBinaryOperator(t: string) { t in {"+", "-", "*", "/", "^"} }

  /** The converter's state: the output, the operator stack (top last) and the previous kind. */
  datatype Converter = Converter(out: seq<string>, ops: seq<string>, prev: Prev)

  function Top(ops: seq<string>): string
    requires ops != []
  {
    ops[|ops| - 1]
  }

  /** Pops to the output until '(' is on top (or the stack is empty). */
  function PopToOpen(out: seq<string>, ops: seq<string>): (r: (seq<string>, seq<string>))
    ensures r.1 == [] || Top(r.1) == "("
    ensures |r.0| + |r.1| == |out| + |ops|
    decreases |ops|
  {
    if ops == [] || Top(ops) == "(" then (out, ops)
    else PopToOpen(out + [Top(ops)], ops[..|ops| - 1])
  }

  /** Pops to the output the operators that bind at least as tightly as `op`. */
  function PopForOperator(out: seq<string>, ops: seq<string>, op: string): (r: (seq<string>, seq<string>))
    ensures |r.0| + |r.1| == |out| + |ops|
    decreases |ops|
  {
    if ops != [] && HasPrecedence(Top(ops)) && PopsBefore(op, Top(ops))
    then PopForOperator(out + [Top(ops)], ops[..|ops| - 1], op)
    else (out, ops)
  }

  /** The operator pushed for `t`: "-" is unary at the start and after an operator, '(' or ','. */
  function OperatorFor(t: string, prev: Prev): (op: string)
    ensures t == "-" && prev in {NoPrev, AfterOp, AfterOpen, AfterComma} ==> op == "u-"
    ensures !(t == "-" && prev in {NoPrev, AfterOp, AfterOpen, AfterComma}) ==> op == t
  {
    if t == "-" && (prev == NoPrev || prev == AfterOp || prev == AfterOpen || prev == AfterComma) then "u-" else t
  }

  /** The branches of the conversion loop. */
  datatype TokenKind = ValueKind | FuncKind | CommaKind | OperatorKind | OpenKind | CloseKind | OtherKind

  /** The branch a token takes: the first of the loop's tests that it passes. */
  function KindOf(t: string): (k: TokenKind)
    ensures k == ValueKind <==> IsValueToken(t)
    ensures k == FuncKind <==> !IsValueToken(t) && Lower(t) in FUNCS
    ensures k == CommaKind ==> t == ","
    ensures k == OperatorKind ==> IsBinaryOperator(t)
    ensures k == OpenKind ==> t == "("
    ensures k == CloseKind ==> t == ")"
  {
    if IsValueToken(t) then ValueKind
    else if Lower(t) in FUNCS then FuncKind
    else if t == "," then CommaKind
    else if IsBinaryOperator(t) then OperatorKind
    else if t == "(" then OpenKind
    else if t == ")" then CloseKind
    else OtherKind
  }

  /** One token of the conversion loop. */
  function Step(c: Converter, t: string): Converter
  {
    StepAs(c, t, KindOf(t))
  }

  /** One token of the conversion loop, in the branch `k`. */
  function StepAs(c: Converter, t: string, k: TokenKind): Converter
  {
    match k
    case ValueKind => Converter(c.out + [t], c.ops, AfterValue)
    case FuncKind => Converter(c.out, c.ops + [Lower(t)], AfterFunc)
    case CommaKind =>
      var r := PopToOpen(c.out, c.ops);
      Converter(r.0, r.1, AfterComma)
    case OperatorKind =>
      var op := OperatorFor(t, c.prev);
      var r := PopForOperator(c.out, c.ops, op);
      Converter(r.0, r.1 + [op], AfterOp)
    case OpenKind => Converter(c.out, c.ops + ["("], AfterOpen)
    case CloseKind =>
      var r := PopToOpen(c.out, c.ops);
      var ops := if r.1 != [] && Top(r.1) == "(" then r.1[..|r.1| - 1] else r.1;
      if ops != [] && !HasPrecedence(Top(ops)) && Top(ops) != "("
      then Converter(r.0 + [Top(ops)], ops[..|ops| - 1], AfterClose)
      else Converter(r.0, ops, AfterClose)
    case OtherKind => c.(prev := NoPrev)
  }

  /** The conversion loop over the tokens. */
  function Run(c: Converter, tokens: seq<string>): Converter
    decreases |tokens|
  {
    if tokens == [] then c else Run(Step(c, tokens[0]), tokens[1..])
  }

  /** The final flush: the rest of the stack, top first. */
  function Flush(out: seq<string>, ops: seq<string>): (r: seq<string>)
    ensures |r| == |out| + |ops|
    decreases |ops|
  {
    if ops == [] then out else Flush(out + [Top(ops)], ops[..|ops| - 1])
  }

  /** Specification of shuntingYard. */
  function Rpn(tokens: seq<string>): seq<string>
  {
    var c := Run(Converter([], [], NoPrev), tokens);
    Flush(c.out, c.ops)
  }

  lemma RunAppend(c: Converter, tokens: seq<string>, t: string)
    ensures Run(c, tokens + [t]) == Step(Run(c, tokens), t)
    decreases |tokens|
  {
    if tokens == [] {
      assert [] + [t] == [t];
    } else {
      assert (tokens + [t])[1..] == tokens[1..] + [t];
      RunAppend(Step(c, tokens[0]), tokens[1..], t);
    }
  }

  lemma RunPrefix(c: Converter, tokens: seq<string>, i: nat)
    requires i < |tokens|
    ensures Run(c, tokens[..i + 1]) == Step(Run(c, tokens[..i]), tokens[i])
  {
    assert tokens[..i + 1] == tokens[..i] + [tokens[i]];
    RunAppend(c, tokens[..i], tokens[i]);
  }

  /** shuntingYard: the loop over the tokens with its inner popping loops. */
  method ShuntingYard(tokens: seq<string>) returns (out: seq<string>)
    ensures out == Rpn(tokens)
  {
    out := [];
    var ops: seq<string> := [];
    var prev := NoPrev;
    var i := 0;
    assert tokens[..0] == [];
    while i < |tokens|
      invariant 0 <= i <= |tokens|
      invariant Run(Converter([], [], NoPrev), tokens[..i]) == Converter(out, ops, prev)
    {
      out, ops, prev := Feed(out, ops, prev, tokens[i]);
      RunPrefix(Converter([], [], NoPrev), tokens, i);
      i := i + 1;
    }
    assert tokens[..i] == tokens;
    while ops != []
      invariant Flush(out, ops) == Rpn(tokens)
      decreases |ops|
    {
      out := out + [ops[|ops| - 1]];
      ops := ops[..|ops| - 1];
    }
  }

  /** The body of the conversion loop: one token. */
  method Feed(out0: seq<string>, ops0: seq<string>, prev0: Prev, t: string) returns (out: seq<string>, ops: seq<string>, prev: Prev)
    ensures Converter(out, ops, prev) == Step(Converter(out0, ops0, prev0), t)
  {
    out, ops, prev := out0, ops0, prev0;
    if IsValueToken(t) {
      out := out + [t];
      prev := AfterValue;
    } else if Lower(t) in FUNCS {
      ops := ops + [Lower(t)];
      prev := AfterFunc;
    } else if t == "," {
      out, ops := PopUntilOpen(out, ops);
      prev := AfterComma;
    } else if IsBinaryOperator(t) {
      var op := if t == "-" && (prev == NoPrev || prev == AfterOp || prev == AfterOpen || prev == AfterComma) then "u-" else t;
      out, ops := PopOperators(out, ops, op);
      ops := ops + [op];
      prev := AfterOp;
    } else if t == "(" {
      ops := ops + ["("];
      prev := AfterOpen;
    } else if t == ")" {
      out, ops := PopUntilOpen(out, ops);
      if ops != [] && ops[|ops| - 1] == "(" {
        ops := ops[..|ops| - 1];
      }
      if ops != [] && !HasPrecedence(ops[|ops| - 1]) && ops[|ops| - 1] != "(" {
        out := out + [ops[|ops| - 1]];
        ops := ops[..|ops| - 1];
      }
      prev := AfterClose;
    } else {
      prev := NoPrev;
    }
  }

  /** The popping loop before an operator is pushed. */
  method PopOperators(out0: seq<string>, ops0: seq<string>, op: string) returns (out: seq<string>, ops: seq<string>)
    ensures (out, ops) == PopForOperator(out0, ops0, op)
  {
    out, ops := out0, ops0;
    while ops != [] && HasPrecedence(ops[|ops| - 1]) && PopsBefore(op, ops[|ops| - 1])
      invariant PopForOperator(out, ops, op) == PopForOperator(out0, ops0, op)
      decreases |ops|
    {
      out := out + [ops[|ops| - 1]];
      ops := ops[..|ops| - 1];
    }
  }

  /** The popping loop shared by ',' and ')'. */
  method PopUntilOpen(out0: seq<string>, ops0: seq<string>) returns (out: seq<string>, ops: seq<string>)
    ensures (out, ops) == PopToOpen(out0, ops0)
  {
    out, ops := out0, ops0;
    while ops != [] && ops[|ops| - 1] != "("
      invariant PopToOpen(out, ops) == PopToOpen(out0, ops0)
      decreases |ops|
    {
      out := out + [ops[|ops| - 1]];
      ops := ops[..|ops| - 1];
    }
  }

  // ------------------------------------------------------------ properties of shuntingYard

  /** The tokens of a list that `keep` accepts, in order. */
  function Kept(ts: seq<string>, keep: string -> bool): seq<string>
  {
    if ts == [] then []
    else
      var init := Kept(ts[..|ts| - 1], keep);
      if keep(ts[|ts| - 1]) then init + [ts[|ts| - 1]] else init
  }

  /** The value tokens of a list, in order. */
  function Values(ts: seq<string>): seq<string>
  {
    Kept(ts, IsValueToken)
  }

  predicate HasDigit(s: string) { exists k :: 0 <= k < |s| && IsDigit(s[k]) }

  lemma TrimControlKeeps(s: string, k: nat)
    requires k < |TrimControl(s)|
    ensures TrimControl(s)[k] in s
    decreases |s|
  {
    if |s| > 0 && IsControlOrSpace(s[0]) {
      TrimControlKeeps(s[1..], k);
    } else if |s| > 0 && IsControlOrSpace(s[|s| - 1]) {
      TrimControlKeeps(s[..|s| - 1], k);
    }
  }

  /** An unsigned literal holds a digit unless it is "NaN" or "Infinity". */
  lemma UnsignedText(body: string)
    ensures ParseUnsigned(body).Some? ==> HasDigit(body) || body == "NaN" || body == "Infinity"
  {
    if ParseUnsigned(body).Some? && body != "NaN" && body != "Infinity" {
      var num := if |body| > 0 && IsTypeSuffix(body[|body| - 1]) then body[..|body| - 1] else body;
      var mantissa := num[..ExponentIndex(num)];
      assert IsPlainDecimal(mantissa);
      var k :| 0 <= k < |mantissa| && IsDigit(mantissa[k]);
      assert body[k] == mantissa[k];
    }
  }

  /** The text after trimming and after the sign is made of characters of the input. */
  lemma BodyChars(s: string)
    ensures var t := TrimControl(s);
            var body := if |t| > 0 && (t[0] == '-' || t[0] == '+') then t[1..] else t;
            forall k :: 0 <= k < |body| ==> body[k] in s
  {
    var t := TrimControl(s);
    var body := if |t| > 0 && (t[0] == '-' || t[0] == '+') then t[1..] else t;
    forall k | 0 <= k < |body| ensures body[k] in s {
      if body == t { TrimControlKeeps(s, k); } else { TrimControlKeeps(s, k + 1); }
    }
  }

  /** Only text with a digit, an 'N' (NaN) or an 'I' (Infinity) reads as a number. */
  lemma NumberText(s: string)
    ensures ParseDouble(s).Some? ==> HasDigit(s) || 'N' in s || 'I' in s
  {
    var t := TrimControl(s);
    var body := if |t| > 0 && (t[0] == '-' || t[0] == '+') then t[1..] else t;
    UnsignedText(body);
    BodyChars(s);
    if ParseDouble(s).Some? {
      assert ParseUnsigned(body).Some?;
      if body == "NaN" {
        assert body[0] == 'N';
      } else if body == "Infinity" {
        assert body[0] == 'I';
      } else {
        var k :| 0 <= k < |body| && IsDigit(body[k]);
        var m :| 0 <= m < |s| && s[m] == body[k];
        assert IsDigit(s[m]);
      }
    }
  }

  /** Text the converter puts on its stack: not "x", no digit and no upper-case letter. */
  predicate Symbolic(t: string) {
    t != "x" && forall k :: 0 <= k < |t| ==> !IsDigit(t[k]) && !IsUpper(t[k])
  }

  /** Symbolic text is never a value token. */
  lemma SymbolicNotValue(t: string)
    requires Symbolic(t)
    ensures !IsValueToken(t)
  {
    NumberText(t);
    assert !HasDigit(t) && 'N' !in t && 'I' !in t;
  }

  /** The function names are lower-case words. */
  lemma FuncLetters(f: string)
    requires f in FUNCS
    ensures f != "x" && forall k :: 0 <= k < |f| ==> IsLower(f[k])
  {
  }

  /** What the converter pushes: a lower-cased function name, '(', or an operator. */
  lemma PushedSymbolic(t: string)
    ensures Lower(t) in FUNCS ==> Symbolic(Lower(t))
    ensures Symbolic("(")
    ensures HasPrecedence(t) ==> Symbolic(t)
  {
    if Lower(t) in FUNCS {
      FuncLetters(Lower(t));
    }
  }

  lemma ValuesAppendOther(ts: seq<string>, t: string)
    requires !IsValueToken(t)
    ensures Values(ts + [t]) == Values(ts)
  {
    assert (ts + [t])[..|ts|] == ts;
  }

  lemma ValuesAppendValue(ts: seq<string>, t: string)
    requires IsValueToken(t)
    ensures Values(ts + [t]) == Values(ts) + [t]
  {
    assert (ts + [t])[..|ts|] == ts;
  }

  predicate StackClean(ops: seq<string>) { forall k :: 0 <= k < |ops| ==> Symbolic(ops[k]) }

  lemma {:induction false} PopToOpenValues(out: seq<string>, ops: seq<string>)
    requires StackClean(ops)
    ensures var r := PopToOpen(out, ops); Values(r.0) == Values(out) && StackClean(r.1)
    decreases |ops|
  {
    if !(ops == [] || Top(ops) == "(") {
      SymbolicNotValue(Top(ops));
      ValuesAppendOther(out, Top(ops));
      PopToOpenValues(out + [Top(ops)], ops[..|ops| - 1]);
    }
  }

  lemma {:induction false} PopForOperatorValues(out: seq<string>, ops: seq<string>, op: string)
    requires StackClean(ops)
    ensures var r := PopForOperator(out, ops, op); Values(r.0) == Values(out) && StackClean(r.1)
    decreases |ops|
  {
    if ops != [] && HasPrecedence(Top(ops)) && PopsBefore(op, Top(ops)) {
      SymbolicNotValue(Top(ops));
      ValuesAppendOther(out, Top(ops));
      PopForOperatorValues(out + [Top(ops)], ops[..|ops| - 1], op);
    }
  }

  lemma {:induction false} FlushValues(out: seq<string>, ops: seq<string>)
    requires StackClean(ops)
    ensures Values(Flush(out, ops)) == Values(out)
    decreases |ops|
  {
    if ops != [] {
      SymbolicNotValue(Top(ops));
      ValuesAppendOther(out, Top(ops));
      FlushValues(out + [Top(ops)], ops[..|ops| - 1]);
    }
  }

  lemma StepValues(c: Converter, t: string)
    requires StackClean(c.ops)
    ensures var d := Step(c, t);
            StackClean(d.ops) && Values(d.out) == Values(c.out) + (if IsValueToken(t) then [t] else [])
  {
    var k := KindOf(t);
    PushedSymbolic(t);
    PushedSymbolic(OperatorFor(t, c.prev));
    StepAsValues(c, t, k);
  }

  lemma StepAsValues(c: Converter, t: string, k: TokenKind)
    requires StackClean(c.ops)
    requires k == ValueKind ==> IsValueToken(t)
    requires k == FuncKind ==> Symbolic(Lower(t))
    requires k == OperatorKind ==> Symbolic(OperatorFor(t, c.prev))
    requires Symbolic("(")
    ensures var d := StepAs(c, t, k);
            StackClean(d.ops) && Values(d.out) == Values(c.out) + (if k == ValueKind then [t] else [])
  {
    match k
    case ValueKind =>
      ValuesAppendValue(c.out, t);
    case CommaKind =>
      PopToOpenValues(c.out, c.ops);
    case OperatorKind =>
      PopForOperatorValues(c.out, c.ops, OperatorFor(t, c.prev));
    case CloseKind =>
      PopToOpenValues(c.out, c.ops);
      var r := PopToOpen(c.out, c.ops);
      var ops := if r.1 != [] && Top(r.1) == "(" then r.1[..|r.1| - 1] else r.1;
      if ops != [] && !HasPrecedence(Top(ops)) && Top(ops) != "(" {
        SymbolicNotValue(Top(ops));
        ValuesAppendOther(r.0, Top(ops));
      }
    case _ =>
  }

  lemma {:induction false} RunValues(c: Converter, tokens: seq<string>)
    requires StackClean(c.ops)
    ensures var d := Run(c, tokens); StackClean(d.ops) && Values(d.out) == Values(c.out) + Values(tokens)
    decreases |tokens|
  {
    if tokens != [] {
      var t, rest := tokens[0], tokens[1..];
      var d := Step(c, t);
      assert Run(c, tokens) == Run(d, rest);
      StepValues(c, t);
      RunValues(d, rest);
      ValuesPrepend(tokens);
      var head := if IsValueToken(t) then [t] else [];
      Regroup(Values(c.out), head, Values(rest));
    }
  }

  lemma Regroup(a: seq<string>, b: seq<string>, c: seq<string>)
    ensures a + b + c == a + (b + c)
  {
  }

  lemma {:induction false} KeptPrepend(ts: seq<string>, keep: string -> bool)
    requires ts != []
    ensures Kept(ts, keep) == (if keep(ts[0]) then [ts[0]] else []) + Kept(ts[1..], keep)
  {
    var head: seq<string> := if keep(ts[0]) then [ts[0]] else [];
    if |ts| == 1 {
      assert ts[1..] == [] && ts[..0] == [];
    } else {
      var init, last, rest := ts[..|ts| - 1], ts[|ts| - 1], ts[1..];
      var tail: seq<string> := if keep(last) then [last] else [];
      assert Kept(ts, keep) == Kept(init, keep) + tail;
      KeptPrepend(init, keep);
      assert init[0] == ts[0];
      assert init[1..] == rest[..|rest| - 1];
      assert rest[|rest| - 1] == last;
      assert Kept(rest, keep) == Kept(rest[..|rest| - 1], keep) + tail;
      assert head + Kept(init[1..], keep) + tail == head + (Kept(rest[..|rest| - 1], keep) + tail);
    }
  }

  lemma ValuesPrepend(ts: seq<string>)
    requires ts != []
    ensures Values(ts) == (if IsValueToken(ts[0]) then [ts[0]] else []) + Values(ts[1..])
  {
    KeptPrepend(ts, IsValueToken);
  }

  /** Numbers and "x" reach the output exactly once each, in input order. */
  lemma RpnKeepsValues(tokens: seq<string>)
    ensures Values(Rpn(tokens)) == Values(tokens)
  {
    var c := Run(Converter([], [], NoPrev), tokens);
    RunValues(Converter([], [], NoPrev), tokens);
    FlushValues(c.out, c.ops);
  }

  /** ')' and ',' never reach the output; '(' reaches it only when left unmatched at the end. */
  predicate NoCloser(ts: seq<string>) { forall k :: 0 <= k < |ts| ==> ts[k] != ")" && ts[k] != "," }

  lemma {:induction false} PopToOpenNoCloser(out: seq<string>, ops: seq<string>)
    requires NoCloser(out) && NoCloser(ops)
    ensures NoCloser(PopToOpen(out, ops).0) && NoCloser(PopToOpen(out, ops).1)
    decreases |ops|
  {
    if !(ops == [] || Top(ops) == "(") {
      PopToOpenNoCloser(out + [Top(ops)], ops[..|ops| - 1]);
    }
  }

  lemma {:induction false} PopForOperatorNoCloser(out: seq<string>, ops: seq<string>, op: string)
    requires NoCloser(out) && NoCloser(ops)
    ensures NoCloser(PopForOperator(out, ops, op).0) && NoCloser(PopForOperator(out, ops, op).1)
    decreases |ops|
  {
    if ops != [] && HasPrecedence(Top(ops)) && PopsBefore(op, Top(ops)) {
      PopForOperatorNoCloser(out + [Top(ops)], ops[..|ops| - 1], op);
    }
  }

  lemma {:induction false} FlushNoCloser(out: seq<string>, ops: seq<string>)
    requires NoCloser(out) && NoCloser(ops)
    ensures NoCloser(Flush(out, ops))
    decreases |ops|
  {
    if ops != [] {
      FlushNoCloser(out + [Top(ops)], ops[..|ops| - 1]);
    }
  }

  /** ')' and ',' are not values. */
  lemma PunctuationNotValue()
    ensures !IsValueToken(")") && !IsValueToken(",")
  {
    NumberText(")");
    NumberText(",");
    assert !HasDigit(")") && !HasDigit(",");
  }

  lemma StepNoCloser(c: Converter, t: string)
    requires NoCloser(c.out) && NoCloser(c.ops)
    ensures NoCloser(Step(c, t).out) && NoCloser(Step(c, t).ops)
  {
    var k := KindOf(t);
    if k == ValueKind {
      PunctuationNotValue();
    } else if k == FuncKind {
      FuncLetters(Lower(t));
    }
    StepAsNoCloser(c, t, k);
  }

  lemma StepAsNoCloser(c: Converter, t: string, k: TokenKind)
    requires NoCloser(c.out) && NoCloser(c.ops)
    requires k == ValueKind ==> t != ")" && t != ","
    requires k == FuncKind ==> Lower(t) != ")" && Lower(t) != ","
    requires k == OperatorKind ==> IsBinaryOperator(t)
    ensures NoCloser(StepAs(c, t, k).out) && NoCloser(StepAs(c, t, k).ops)
  {
    match k
    case CommaKind =>
      PopToOpenNoCloser(c.out, c.ops);
    case CloseKind =>
      PopToOpenNoCloser(c.out, c.ops);
    case OperatorKind =>
      PopForOperatorNoCloser(c.out, c.ops, OperatorFor(t, c.prev));
    case _ =>
  }

  lemma {:induction false} RunNoCloser(c: Converter, tokens: seq<string>)
    requires NoCloser(c.out) && NoCloser(c.ops)
    ensures NoCloser(Run(c, tokens).out) && NoCloser(Run(c, tokens).ops)
    decreases |tokens|
  {
    if tokens != [] {
      StepNoCloser(c, tokens[0]);
      RunNoCloser(Step(c, tokens[0]), tokens[1..]);
    }
  }

  lemma RpnNoCloser(tokens: seq<string>)
    ensures NoCloser(Rpn(tokens))
  {
    var c := Run(Converter([], [], NoPrev), tokens);
    RunNoCloser(Converter([], [], NoPrev), tokens);
    FlushNoCloser(c.out, c.ops);
  }

  /** An operator token is neither a value nor a function name. */
  lemma OperatorToken(op: string)
    requires IsBinaryOperator(op) || op == "u-"
    ensures !IsValueToken(op) && Lower(op) == op && Lower(op) !in FUNCS
  {
    PushedSymbolic(op);
    SymbolicNotValue(op);
    assert Lower(op) == op;
    assert !IsLower(op[|op| - 1]);
    NotFunctionName(op);
  }

  /** Text ending in anything but a lower-case letter is not a function name. */
  lemma NotFunctionName(f: string)
    ensures |f| > 0 && !IsLower(f[|f| - 1]) ==> f !in FUNCS
  {
    if f in FUNCS {
      FuncLetters(f);
    }
  }

  lemma StepValue(c: Converter, v: string)
    requires IsValueToken(v)
    ensures Step(c, v) == Converter(c.out + [v], c.ops, AfterValue)
  {
  }

  lemma StepOperator(c: Converter, t: string)
    requires IsBinaryOperator(t)
    ensures var op := OperatorFor(t, c.prev);
            var r := PopForOperator(c.out, c.ops, op);
            Step(c, t) == Converter(r.0, r.1 + [op], AfterOp)
  {
    OperatorToken(t);
  }

  /** The converter's state after `a op b` (with a value `b`). */
  lemma AfterFirstOperand(a: string, b: string, op: string)
    requires IsValueToken(a) && IsValueToken(b) && IsBinaryOperator(op)
    ensures Step(Step(Step(Converter([], [], NoPrev), a), op), b) == Converter([a, b], [op], AfterValue)
  {
    AfterOperator(a, op);
    StepValue(Converter([a], [op], AfterOp), b);
  }

  /** The converter's state after `a op`. */
  lemma AfterOperator(a: string, op: string)
    requires IsValueToken(a) && IsBinaryOperator(op)
    ensures Step(Step(Converter([], [], NoPrev), a), op) == Converter([a], [op], AfterOp)
  {
    var c0 := Converter([], [], NoPrev);
    var c1 := Converter([a], [], AfterValue);
    StepValue(c0, a);
    assert Step(c0, a) == c1;
    var c2 := Converter([a], [op], AfterOp);
    StepOperator(c1, op);
    assert OperatorFor(op, AfterValue) == op;
    assert PopForOperator([a], [], op) == ([a], []);
    assert Step(c1, op) == c2;
  }

  /** "^" groups to the right: a ^ b ^ c gives a b c ^ ^. */
  lemma RightAssociative(a: string, b: string, c: string)
    requires IsValueToken(a) && IsValueToken(b) && IsValueToken(c)
    ensures Rpn([a, "^", b, "^", c]) == [a, b, c, "^", "^"]
  {
    var c0 := Converter([], [], NoPrev);
    AfterFirstOperand(a, b, "^");
    var c3 := Converter([a, b], ["^"], AfterValue);
    var c4 := Converter([a, b], ["^", "^"], AfterOp);
    StepOperator(c3, "^");
    assert OperatorFor("^", AfterValue) == "^";
    assert Top(["^"]) == "^" && !PopsBefore("^", "^");
    assert PopForOperator([a, b], ["^"], "^") == ([a, b], ["^"]);
    assert Step(c3, "^") == c4;
    var c5 := Converter([a, b, c], ["^", "^"], AfterValue);
    StepValue(c4, c);
    RunFive(c0, a, "^", b, "^", c);
    assert Run(c0, [a, "^", b, "^", c]) == c5;
    FlushTwo([a, b, c], "^", "^");
  }

  /** The other binary operators group to the left: a op b op c gives a b op c op. */
  lemma LeftAssociative(a: string, b: string, c: string, op: string)
    requires IsValueToken(a) && IsValueToken(b) && IsValueToken(c)
    requires IsBinaryOperator(op) && op != "^"
    ensures Rpn([a, op, b, op, c]) == [a, b, op, c, op]
  {
    var c0 := Converter([], [], NoPrev);
    AfterFirstOperand(a, b, op);
    var c3 := Converter([a, b], [op], AfterValue);
    var c4 := Converter([a, b, op], [op], AfterOp);
    StepOperator(c3, op);
    assert OperatorFor(op, AfterValue) == op;
    assert Top([op]) == op && HasPrecedence(op) && PopsBefore(op, op);
    assert [op][..0] == [] && [a, b] + [op] == [a, b, op];
    assert PopForOperator([a, b, op], [], op) == ([a, b, op], []);
    assert PopForOperator([a, b], [op], op) == ([a, b, op], []);
    assert Step(c3, op) == c4;
    var c5 := Converter([a, b, op, c], [op], AfterValue);
    StepValue(c4, c);
    RunFive(c0, a, op, b, op, c);
    assert Run(c0, [a, op, b, op, c]) == c5;
    FlushOne([a, b, op, c], op);
  }

  /** A minus after an operator is unary and binds tighter: a * - b gives a b u- *. */
  lemma UnaryMinus(a: string, b: string)
    requires IsValueToken(a) && IsValueToken(b)
    ensures Rpn([a, "*", "-", b]) == [a, b, "u-", "*"]
  {
    var c0 := Converter([], [], NoPrev);
    AfterOperator(a, "*");
    var c2 := Converter([a], ["*"], AfterOp);
    var c3 := Converter([a], ["*", "u-"], AfterOp);
    MinusAfterOperator(c2);
    var c4 := Converter([a, b], ["*", "u-"], AfterValue);
    StepValue(c3, b);
    RunFour(c0, a, "*", "-", b);
    assert Run(c0, [a, "*", "-", b]) == c4;
    FlushTwo([a, b], "*", "u-");
  }

  lemma MinusAfterOperator(c: Converter)
    requires c.prev == AfterOp && c.ops == ["*"]
    ensures Step(c, "-") == Converter(c.out, ["*", "u-"], AfterOp)
  {
    StepOperator(c, "-");
    assert OperatorFor("-", AfterOp) == "u-";
    assert Top(["*"]) == "*" && !PopsBefore("u-", "*");
    assert PopForOperator(c.out, ["*"], "u-") == (c.out, ["*"]);
  }

  lemma RunFive(c: Converter, t0: string, t1: string, t2: string, t3: string, t4: string)
    ensures Run(c, [t0, t1, t2, t3, t4]) == Step(Step(Step(Step(Step(c, t0), t1), t2), t3), t4)
  {
    assert [t0, t1, t2, t3, t4][1..] == [t1, t2, t3, t4];
    RunFour(Step(c, t0), t1, t2, t3, t4);
  }

  lemma RunFour(c: Converter, t0: string, t1: string, t2: string, t3: string)
    ensures Run(c, [t0, t1, t2, t3]) == Step(Step(Step(Step(c, t0), t1), t2), t3)
  {
    assert [t0, t1, t2, t3][1..] == [t1, t2, t3];
    assert [t1, t2, t3][1..] == [t2, t3];
    assert [t2, t3][1..] == [t3];
    assert [t3][1..] == [];
    var c1 := Step(c, t0);
    var c2 := Step(c1, t1);
    var c3 := Step(c2, t2);
    assert Run(c3, [t3]) == Step(c3, t3);
    assert Run(c2, [t2, t3]) == Run(c3, [t3]);
    assert Run(c1, [t1, t2, t3]) == Run(c2, [t2, t3]);
  }

  lemma FlushOne(out: seq<string>, x: string)
    ensures Flush(out, [x]) == out + [x]
  {
    assert [x][..0] == [];
  }

  lemma FlushTwo(out: seq<string>, x: string, y: string)
    ensures Flush(out, [x, y]) == out + [y, x]
  {
    assert [x, y][..1] == [x];
    FlushOne(out + [y], x);
  }


}
