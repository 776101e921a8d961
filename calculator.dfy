/**
 * The calculator screen's view model (`viewmodel/CalculatorViewModel.kt`): the expression
 * being edited, the displayed result, the evaluation history and the undo/redo stacks of the
 * expression. Each key press is a transition of the screen state; evaluating an expression is
 * left to the caller (the expression evaluator is not part of this model), which passes in
 * what the evaluation produced.
 */
module Calculator {
  import opened Wrappers
  import opened Text

  /** Where the screen stands after the last action. */
  datatype Status = Ready | JustEvaluated | Error

  /** One line of history: the expression typed and the formatted result, with its angle mode. */
  datatype HistoryItem = HistoryItem(expression: string, result: string, degrees: bool)

  /** The screen state that every action copies and updates. */
  datatype CalculatorState = CalculatorState(
    expression: string,
    result: string,
    status: Status,
    history: seq<HistoryItem>,
    isDegrees: bool)
  {
    predicate JustEvaluatedState() { status == JustEvaluated }
  }

  const INITIAL := CalculatorState("", "0", Ready, [], false)

  /** The binary operators the editor treats as replaceable (`operators`). */
  predicate IsOperator(c: char) { c == '+' || c == '-' || c == '*' || c == '/' || c == '^' }

  // The separators of number segments: the character class `[+*/^()-]`.
  predicate IsDelimiter(c: char) { IsOperator(c) || c == '(' || c == ')' }

  // ------------------------------------------------------------ key presses

  /** The number segment being typed: the text after the last separator. */
  function Segment(e: string): string
  {
    if e == [] then []
    else if IsDelimiter(e[|e| - 1]) then []
    else Segment(e[..|e| - 1]) + [e[|e| - 1]]
  }

  /** The segment is the longest suffix of the expression that holds no separator. */
  lemma {:induction false} SegmentIsSuffix(e: string)
    ensures var seg := Segment(e);
            && |seg| <= |e| && seg == e[|e| - |seg|..]
            && (forall i :: 0 <= i < |seg| ==> !IsDelimiter(seg[i]))
            && (|seg| < |e| ==> IsDelimiter(e[|e| - |seg| - 1]))
  {
    if e == [] || IsDelimiter(e[|e| - 1]) {
      assert Segment(e) == [];
    } else {
      var n, init, last := |e|, e[..|e| - 1], e[|e| - 1];
      SegmentIsSuffix(init);
      var prev := Segment(init);
      var k := n - 1 - |prev|;
      assert Segment(e) == prev + [last];
      assert prev == init[k..];
      assert e[k..] == init[k..] + [last];
      forall i | 0 <= i < |prev| + 1 ensures !IsDelimiter((prev + [last])[i]) {
        if i < |prev| {
          assert (prev + [last])[i] == prev[i];
        }
      }
      if k > 0 {
        assert e[k - 1] == init[k - 1];
      }
    }
  }

  /** The decimal key outside a fresh result: "." or "0." when the segment has no point yet. */
  function WithDecimal(e: string): string
  {
    var current := Segment(e);
    if Contains(current, '.') then e
    else if current == [] || (|e| > 0 && IsOperator(e[|e| - 1])) then e + "0."
    else e + "."
  }

  /** The operator key outside a fresh result. */
  function WithOperator(e: string, op: string): string
  {
    if |e| > 0 && IsOperator(e[|e| - 1]) then e[..|e| - 1] + op
    else if e == [] then e
    else e + op
  }

  /** inputNumber. */
  function InputNumber(s: CalculatorState, number: string): CalculatorState
  {
    if s.JustEvaluatedState() then s.(expression := number, result := "0", status := Ready)
    else s.(expression := s.expression + number)
  }

  /** inputDecimal. */
  function InputDecimal(s: CalculatorState): CalculatorState
  {
    if s.JustEvaluatedState() then s.(expression := "0.", result := "0", status := Ready)
    else s.(expression := WithDecimal(s.expression))
  }

  /** inputOperator: after a result, the operator continues from that result. */
  function InputOperator(s: CalculatorState, op: string): CalculatorState
  {
    var e := if s.JustEvaluatedState() then s.result + op else WithOperator(s.expression, op);
    s.(expression := e, status := Ready)
  }

  /** inputParenthesis. */
  function InputParenthesis(s: CalculatorState, paren: string): CalculatorState
  {
    if s.JustEvaluatedState() then s.(expression := paren, result := "0", status := Ready)
    else s.(expression := s.expression + paren)
  }

  predicate IsTrigName(f: string) { f in {"sin", "cos", "tan", "asin", "acos", "atan"} }

  predicate EndsWith(s: string, suffix: string) { |suffix| <= |s| && s[|s| - |suffix|..] == suffix }

  /** The text a function key inserts: as is, or with "(" or "_deg(" in degree mode. */
  function FunctionText(func: string, isDegrees: bool): (t: string)
    ensures EndsWith(func, "(") || Contains(func, '^') ==> t == func
    ensures !(EndsWith(func, "(") || Contains(func, '^')) ==> EndsWith(t, "(")
  {
    if EndsWith(func, "(") || Contains(func, '^') then func
    else if IsTrigName(func) && isDegrees then func + "_deg("
    else func + "("
  }

  /** applyFunction. */
  function ApplyFunction(s: CalculatorState, func: string): CalculatorState
  {
    var t := FunctionText(func, s.isDegrees);
    if s.JustEvaluatedState() then s.(expression := t, result := "0", status := Ready)
    else s.(expression := s.expression + t)
  }

  /** delete. */
  function Delete(s: CalculatorState): CalculatorState
  {
    if |s.expression| > 0 then s.(expression := s.expression[..|s.expression| - 1], status := Ready)
    else s
  }

  /** clear (both the "delete all" and the "clear all" keys). */
  function Clear(s: CalculatorState): CalculatorState
  {
    s.(expression := "", result := "0", status := Ready)
  }

  /** The history without entry `index` (`filterIndexed { i, _ -> i != index }`). */
  function RemoveAt(h: seq<HistoryItem>, index: int): (r: seq<HistoryItem>)
    ensures 0 <= index < |h| ==> r == h[..index] + h[index + 1..]
    ensures !(0 <= index < |h|) ==> r == h
  {
    if h == [] then []
    else
      var rest := RemoveAt(h[1..], index - 1);
      if index == 0 then
        rest
      else
        assert 0 < index < |h| ==> [h[0]] + h[1..][..index - 1] == h[..index];
        assert 0 < index < |h| ==> h[1..][index..] == h[index + 1..];
        [h[0]] + rest
  }

  /** removeHistoryItem. */
  function RemoveHistoryItem(s: CalculatorState, index: int): CalculatorState
  {
    s.(history := RemoveAt(s.history, index))
  }

  /** clearHistory. */
  function ClearHistory(s: CalculatorState): CalculatorState
  {
    s.(history := [])
  }

  /** What evaluating the preprocessed expression gave: a formatted value, or an exception. */
  datatype Evaluation = Value(formatted: string) | ArithmeticFailure | OtherFailure

  /** evaluate: a blank expression is ignored; a value is shown and recorded in the history. */
  function Evaluate(s: CalculatorState, outcome: Evaluation): CalculatorState
  {
    if IsBlank(s.expression) then s
    else
      match outcome
      case Value(v) =>
        s.(result := v, history := s.history + [HistoryItem(s.expression, v, s.isDegrees)], status := JustEvaluated)
      case ArithmeticFailure => s.(result := "Division by zero", status := Error)
      case OtherFailure => s.(result := "Error", status := Error)
  }

  // ------------------------------------------------------------ properties of the key presses

  /** The decimal key only appends, and only when the segment has no point yet. */
  lemma DecimalAppendsOnlyWithoutPoint(e: string)
    ensures var r := WithDecimal(e);
            && |e| <= |r| && r[..|e|] == e
            && (Contains(Segment(e), '.') <==> r == e)
            && (r != e ==> r[|e|..] == "." || r[|e|..] == "0.")
            && (r != e && (e == [] || IsOperator(e[|e| - 1])) ==> r[|e|..] == "0.")
            && (r != e ==> (r[|e|..] == "0." <==> Segment(e) == []))
  {
    var r := WithDecimal(e);
    if !Contains(Segment(e), '.') {
      assert r[..|e|] == e;
      assert r != e by { assert |r| > |e|; }
    }
  }

  /** A character that is not a separator extends the segment being typed. */
  lemma SegmentSnoc(e: string, c: char)
    requires !IsDelimiter(c)
    ensures Segment(e + [c]) == Segment(e) + [c]
  {
    assert (e + [c])[..|e|] == e;
  }

  /** Appending "." or "0." extends the segment being typed by the same text. */
  lemma SegmentDecimal(e: string, added: string)
    requires added == "0." || added == "."
    ensures Segment(e + added) == Segment(e) + added
  {
    if added == "." {
      SegmentSnoc(e, '.');
    } else {
      SegmentSnoc(e, '0');
      SegmentSnoc(e + ['0'], '.');
      assert e + ['0'] + ['.'] == e + added;
    }
  }

  /** What the decimal key appends to `e` when the segment has no point yet. */
  function DecimalSuffix(e: string): (added: string)
    ensures added == "0." || added == "."
    ensures Count(added, '.') == 1
    ensures forall i :: 0 <= i < |added| ==> !IsDelimiter(added[i])
  {
    if Segment(e) == [] || (|e| > 0 && IsOperator(e[|e| - 1])) then "0." else "."
  }

  /**
   * After the decimal key the segment being typed holds a point, and it holds two only if it
   * already did: typing "." never creates "1.2.3".
   */
  lemma DecimalKeepsOnePoint(e: string)
    ensures Contains(Segment(WithDecimal(e)), '.')
    ensures Count(Segment(e), '.') <= 1 ==> Count(Segment(WithDecimal(e)), '.') <= 1
  {
    var seg := Segment(e);
    if !Contains(seg, '.') {
      var added := DecimalSuffix(e);
      assert WithDecimal(e) == e + added;
      SegmentDecimal(e, added);
      CountAppend(seg, added, '.');
    }
  }

  /** No two operators in a row. */
  predicate NoDoubleOperator(e: string) {
    forall i :: 0 <= i < |e| - 1 ==> !(IsOperator(e[i]) && IsOperator(e[i + 1]))
  }

  /**
   * An operator replaces a trailing operator and is ignored on an empty expression; typing
   * operators therefore never produces two operators in a row.
   */
  lemma OperatorReplacesTrailing(e: string, o: char)
    ensures e == [] ==> WithOperator(e, [o]) == []
    ensures e != [] && IsOperator(e[|e| - 1]) ==> WithOperator(e, [o]) == e[..|e| - 1] + [o]
    ensures e != [] && !IsOperator(e[|e| - 1]) ==> WithOperator(e, [o]) == e + [o]
    ensures NoDoubleOperator(e) ==> NoDoubleOperator(WithOperator(e, [o]))
  {
    var r := WithOperator(e, [o]);
    if NoDoubleOperator(e) && e != [] {
      forall i | 0 <= i < |r| - 1 ensures !(IsOperator(r[i]) && IsOperator(r[i + 1])) {
        if IsOperator(e[|e| - 1]) {
          assert r[i] == e[i];
          if i + 1 < |e| - 1 {
            assert r[i + 1] == e[i + 1];
          } else {
            assert i == |e| - 2;
            assert !IsOperator(e[i]);
          }
        } else {
          assert r[i] == e[i];
          if i + 1 < |e| {
            assert r[i + 1] == e[i + 1];
          }
        }
      }
    }
  }

  /** delete drops exactly the last character, and leaves an empty expression alone. */
  lemma DeleteDropsLast(s: CalculatorState)
    ensures s.expression == [] ==> Delete(s) == s
    ensures s.expression != [] ==> Delete(s).expression + [s.expression[|s.expression| - 1]] == s.expression
    ensures Delete(s).history == s.history && Delete(s).result == s.result
  {
    if s.expression != [] {
      var e := s.expression;
      assert e[..|e| - 1] + [e[|e| - 1]] == e;
    }
  }

  /** Evaluating a blank expression changes nothing; a value adds exactly one history line. */
  lemma EvaluateHistory(s: CalculatorState, outcome: Evaluation)
    ensures IsBlank(s.expression) ==> Evaluate(s, outcome) == s
    ensures !IsBlank(s.expression) && outcome.Value? ==>
              Evaluate(s, outcome).history[..|s.history|] == s.history
              && |Evaluate(s, outcome).history| == |s.history| + 1
              && Evaluate(s, outcome).history[|s.history|].expression == s.expression
              && Evaluate(s, outcome).JustEvaluatedState()
    ensures !outcome.Value? ==> Evaluate(s, outcome).history == s.history
  {
    if !IsBlank(s.expression) && outcome.Value? {
      var h := Evaluate(s, outcome).history;
      assert h[..|s.history|] == s.history;
    }
  }

  // ------------------------------------------------------------ undo and redo

  /** The expression with its two stacks; the top of a stack is its last element. */
  datatype Edits = Edits(expression: string, undo: seq<string>, redo: seq<string>)

  /** setExpression: the old expression is pushed for undo and the redo stack is emptied. */
  function SetExpressionEdit(e: Edits, expression: string): (r: Edits)
    ensures r.undo == e.undo + [e.expression] && r.redo == [] && r.expression == expression
  {
    Edits(expression, e.undo + [e.expression], [])
  }

  /** undo: nothing when there is nothing to undo. */
  function UndoEdit(e: Edits): (r: Edits)
    ensures e.undo == [] ==> r == e
    ensures e.undo != [] ==> r.expression == e.undo[|e.undo| - 1] && r.redo == e.redo + [e.expression]
                             && r.undo == e.undo[..|e.undo| - 1]
  {
    if e.undo == [] then e
    else Edits(e.undo[|e.undo| - 1], e.undo[..|e.undo| - 1], e.redo + [e.expression])
  }

  /** redo: nothing when there is nothing to redo. */
  function RedoEdit(e: Edits): (r: Edits)
    ensures e.redo == [] ==> r == e
    ensures e.redo != [] ==> r.expression == e.redo[|e.redo| - 1] && r.undo == e.undo + [e.expression]
                             && r.redo == e.redo[..|e.redo| - 1]
  {
    if e.redo == [] then e
    else Edits(e.redo[|e.redo| - 1], e.undo + [e.expression], e.redo[..|e.redo| - 1])
  }

  /** Undo followed by redo gives back the same expression and stacks, and so does redo then undo. */
  lemma UndoRedoInverse(e: Edits)
    ensures e.undo != [] ==> RedoEdit(UndoEdit(e)) == e
    ensures e.redo != [] ==> UndoEdit(RedoEdit(e)) == e
  {
    if e.undo != [] {
      assert e.undo[..|e.undo| - 1] + [e.undo[|e.undo| - 1]] == e.undo;
    }
    if e.redo != [] {
      assert e.redo[..|e.redo| - 1] + [e.redo[|e.redo| - 1]] == e.redo;
    }
  }

  /** Undoing right after setExpression restores the previous expression. */
  lemma UndoAfterSet(e: Edits, expression: string)
    ensures UndoEdit(SetExpressionEdit(e, expression)).expression == e.expression
    ensures UndoEdit(SetExpressionEdit(e, expression)).undo == e.undo
  {
    var u := SetExpressionEdit(e, expression).undo;
    assert u[..|u| - 1] == e.undo;
  }

  // ------------------------------------------------------------ preprocessExpression

  /** One trailing operator is dropped. */
  function DropTrailingOperator(e: string): (r: string)
    ensures |e| > 0 && IsOperator(e[|e| - 1]) ==> r + [e[|e| - 1]] == e
    ensures !(|e| > 0 && IsOperator(e[|e| - 1])) ==> r == e
  {
    if |e| > 0 && IsOperator(e[|e| - 1]) then e[..|e| - 1] else e
  }

  function Repeat(c: char, n: nat): (r: string)
    ensures |r| == n && forall i :: 0 <= i < n ==> r[i] == c
  {
    seq(n, _ => c)
  }

  /** Missing ')' are appended. */
  function CloseParentheses(e: string): string
  {
    var open, close := Count(e, '('), Count(e, ')');
    if open > close then e + Repeat(')', open - close) else e
  }

  lemma CountRepeat(c: char, d: char, n: nat)
    ensures Count(Repeat(c, n), d) == if c == d then n else 0
  {
    if n > 0 {
      assert Repeat(c, n)[1..] == Repeat(c, n - 1);
      CountRepeat(c, d, n - 1);
    }
  }

  /**
   * After the closing step there are at least as many ')' as '(', the expression without its
   * trailing operator is kept as a prefix, and only ')' were added.
   */
  lemma CloseParenthesesBalances(e: string)
    ensures var r := CloseParentheses(e);
            && Count(r, ')') >= Count(r, '(')
            && Count(r, '(') == Count(e, '(')
            && r[..|e|] == e
            && forall i :: |e| <= i < |r| ==> r[i] == ')'
  {
    var open, close := Count(e, '('), Count(e, ')');
    var r := CloseParentheses(e);
    if open > close {
      var tail := Repeat(')', open - close);
      assert r == e + tail;
      CountAppend(e, tail, '(');
      CountAppend(e, tail, ')');
      CountRepeat(')', '(', open - close);
      CountRepeat(')', ')', open - close);
      assert r[..|e|] == e;
    } else {
      assert r == e;
    }
  }

  /** The text of a call to `name`: the name and an opening parenthesis. */
  function Call(name: string): string { name + "(" }

  /** The renamings as (pattern, replacement) pairs, in the order they are applied. */
  const SYMBOL_RENAMES: seq<(string, string)> := [("√", "sqrt"), ("×", "*"), ("÷", "/"), (Call("log"), Call("log10"))]
  const DEGREE_RENAMES: seq<(string, string)> :=
    [(Call("sin"), Call("sin_deg")), (Call("cos"), Call("cos_deg")), (Call("tan"), Call("tan_deg")),
     (Call("asin"), Call("asin_deg")), (Call("acos"), Call("acos_deg")), (Call("atan"), Call("atan_deg")),
     (Call("_deg_deg"), Call("_deg"))]

  predicate PatternsNonEmpty(pairs: seq<(string, string)>)
  {
    forall i :: 0 <= i < |pairs| ==> |pairs[i].0| > 0
  }

  /** Every renaming replaces a text by one with as many c. */
  predicate CountsKept(pairs: seq<(string, string)>, c: char)
  {
    forall i :: 0 <= i < |pairs| ==> Count(pairs[i].0, c) == Count(pairs[i].1, c)
  }

  /** The renamings applied one after the other. */
  function ReplaceAll(e: string, pairs: seq<(string, string)>): string
    requires PatternsNonEmpty(pairs)
    decreases |pairs|
  {
    if pairs == [] then e else ReplaceAll(ReplaceStr(e, pairs[0].0, pairs[0].1), pairs[1..])
  }

  /** The symbol and degree-mode renaming done before evaluation. */
  function Renamed(e: string, isDegrees: bool): string
  {
    var a := ReplaceAll(e, SYMBOL_RENAMES);
    if isDegrees then ReplaceAll(a, DEGREE_RENAMES) else a
  }

  lemma {:induction false} ReplaceAllCount(e: string, pairs: seq<(string, string)>, c: char)
    requires PatternsNonEmpty(pairs) && CountsKept(pairs, c)
    ensures Count(ReplaceAll(e, pairs), c) == Count(e, c)
    decreases |pairs|
  {
    if pairs != [] {
      ReplaceStrCount(e, pairs[0].0, pairs[0].1, c);
      ReplaceAllCount(ReplaceStr(e, pairs[0].0, pairs[0].1), pairs[1..], c);
    }
  }

  predicate ParenFree(s: string) { forall i :: 0 <= i < |s| ==> s[i] != '(' && s[i] != ')' }

  /** A renaming "a(" to "b(" between names without parentheses keeps both counts. */
  lemma NameRenameBalanced(a: string, b: string, c: char)
    requires ParenFree(a) && ParenFree(b) && (c == '(' || c == ')')
    ensures Count(Call(a), c) == Count(Call(b), c)
  {
    NoneOf(a, c, x => x != '(' && x != ')');
    NoneOf(b, c, x => x != '(' && x != ')');
    CountAppend(a, "(", c);
    CountAppend(b, "(", c);
  }

  /** A renaming between texts without parentheses keeps both counts. */
  lemma SymbolRenameBalanced(a: string, b: string, c: char)
    requires ParenFree(a) && ParenFree(b) && (c == '(' || c == ')')
    ensures Count(a, c) == Count(b, c) == 0
  {
    NoneOf(a, c, x => x != '(' && x != ')');
    NoneOf(b, c, x => x != '(' && x != ')');
  }

  lemma SymbolRenamesBalanced(c: char)
    requires c == '(' || c == ')'
    ensures CountsKept(SYMBOL_RENAMES, c)
  {
    forall i | 0 <= i < |SYMBOL_RENAMES|
      ensures Count(SYMBOL_RENAMES[i].0, c) == Count(SYMBOL_RENAMES[i].1, c)
    {
      SymbolRenameKept(c, i);
    }
  }

  lemma SymbolRenameKept(c: char, i: nat)
    requires (c == '(' || c == ')') && i < |SYMBOL_RENAMES|
    ensures Count(SYMBOL_RENAMES[i].0, c) == Count(SYMBOL_RENAMES[i].1, c)
  {
    if i == 0 { SymbolRenameBalanced("√", "sqrt", c); }
    else if i == 1 { SymbolRenameBalanced("×", "*", c); }
    else if i == 2 { SymbolRenameBalanced("÷", "/", c); }
    else { NameRenameBalanced("log", "log10", c); }
  }

  lemma DegreeRenamesBalanced(c: char)
    requires c == '(' || c == ')'
    ensures CountsKept(DEGREE_RENAMES, c)
  {
    forall i | 0 <= i < |DEGREE_RENAMES|
      ensures Count(DEGREE_RENAMES[i].0, c) == Count(DEGREE_RENAMES[i].1, c)
    {
      DegreeRenameKept(c, i);
    }
  }

  lemma DegreeRenameKept(c: char, i: nat)
    requires (c == '(' || c == ')') && i < |DEGREE_RENAMES|
    ensures Count(DEGREE_RENAMES[i].0, c) == Count(DEGREE_RENAMES[i].1, c)
  {
    if i < 4 {
      LowDegreeRenameKept(c, i);
    } else {
      HighDegreeRenameKept(c, i);
    }
  }

  lemma LowDegreeRenameKept(c: char, i: nat)
    requires (c == '(' || c == ')') && i < 4
    ensures Count(DEGREE_RENAMES[i].0, c) == Count(DEGREE_RENAMES[i].1, c)
  {
    var entry := DEGREE_RENAMES[i];
    if i == 0 {
      assert entry == (Call("sin"), Call("sin_deg"));
      NameRenameBalanced("sin", "sin_deg", c);
    } else if i == 1 {
      assert entry == (Call("cos"), Call("cos_deg"));
      NameRenameBalanced("cos", "cos_deg", c);
    } else if i == 2 {
      assert entry == (Call("tan"), Call("tan_deg"));
      NameRenameBalanced("tan", "tan_deg", c);
    } else {
      assert entry == (Call("asin"), Call("asin_deg"));
      NameRenameBalanced("asin", "asin_deg", c);
    }
  }

  lemma HighDegreeRenameKept(c: char, i: nat)
    requires (c == '(' || c == ')') && 4 <= i < |DEGREE_RENAMES|
    ensures Count(DEGREE_RENAMES[i].0, c) == Count(DEGREE_RENAMES[i].1, c)
  {
    var entry := DEGREE_RENAMES[i];
    if i == 4 {
      assert entry == (Call("acos"), Call("acos_deg"));
      NameRenameBalanced("acos", "acos_deg", c);
    } else if i == 5 {
      assert entry == (Call("atan"), Call("atan_deg"));
      NameRenameBalanced("atan", "atan_deg", c);
    } else {
      assert entry == (Call("_deg_deg"), Call("_deg"));
      NameRenameBalanced("_deg_deg", "_deg", c);
    }
  }

  /** Every renaming keeps the numbers of '(' and of ')'. */
  lemma RenamedKeepsParentheses(e: string, isDegrees: bool, c: char)
    requires c == '(' || c == ')'
    ensures Count(Renamed(e, isDegrees), c) == Count(e, c)
  {
    SymbolRenamesBalanced(c);
    ReplaceAllCount(e, SYMBOL_RENAMES, c);
    if isDegrees {
      DegreeRenamesBalanced(c);
      ReplaceAllCount(ReplaceAll(e, SYMBOL_RENAMES), DEGREE_RENAMES, c);
    }
  }

  // The modulo rewrite: `([0-9.^)]+)\s*%\s*([0-9.(]+)` becomes `mod(g1,g2)`.

  predicate ModLeft(c: char) { IsDigit(c) || c == '.' || c == '^' || c == ')' }
  predicate ModRight(c: char) { IsDigit(c) || c == '.' || c == '(' }

  /** End of the run of characters satisfying ModLeft from `i`. */
  function LeftRunEnd(s: string, i: nat): (j: nat)
    requires i <= |s|
    ensures i <= j <= |s| && (j < |s| ==> !ModLeft(s[j]))
    ensures forall k :: i <= k < j ==> ModLeft(s[k])
    decreases |s| - i
  {
    if i < |s| && ModLeft(s[i]) then LeftRunEnd(s, i + 1) else i
  }

  /** End of the run of characters satisfying ModRight from `i`. */
  function RightRunEnd(s: string, i: nat): (j: nat)
    requires i <= |s|
    ensures i <= j <= |s| && (j < |s| ==> !ModRight(s[j]))
    ensures forall k :: i <= k < j ==> ModRight(s[k])
    decreases |s| - i
  {
    if i < |s| && ModRight(s[i]) then RightRunEnd(s, i + 1) else i
  }

  /** End of the whitespace from `i` (`\s*`). */
  function SpacesEnd(s: string, i: nat): (j: nat)
    requires i <= |s|
    ensures i <= j <= |s| && (j < |s| ==> !IsRegexSpace(s[j]))
    ensures forall k :: i <= k < j ==> IsRegexSpace(s[k])
    decreases |s| - i
  {
    if i < |s| && IsRegexSpace(s[i]) then SpacesEnd(s, i + 1) else i
  }

  /** A match: the left operand is s[start..leftEnd], the right one s[rightStart..end]. */
  datatype ModMatch = ModMatch(start: nat, leftEnd: nat, percent: nat, rightStart: nat, end: nat)

  predicate WellPlaced(s: string, m: ModMatch) {
    && m.start < m.leftEnd <= m.percent < m.rightStart < m.end <= |s|
    && s[m.percent] == '%'
    && (forall k :: m.start <= k < m.leftEnd ==> ModLeft(s[k]))
    && (forall k :: m.leftEnd <= k < m.percent ==> IsRegexSpace(s[k]))
    && (forall k :: m.percent < k < m.rightStart ==> IsRegexSpace(s[k]))
    && (forall k :: m.rightStart <= k < m.end ==> ModRight(s[k]))
  }

  /** The match of the pattern starting at `i`, if any (greedy, as the regex engine finds it). */
  function MatchAt(s: string, i: nat): (r: Option<ModMatch>)
    requires i <= |s|
    ensures r.Some? ==> r.value.start == i && WellPlaced(s, r.value)
  {
    if i < |s| && ModLeft(s[i]) then
      var j := LeftRunEnd(s, i);
      var k := SpacesEnd(s, j);
      if k < |s| && s[k] == '%' then
        var m := SpacesEnd(s, k + 1);
        var e := RightRunEnd(s, m);
        if e > m then Some(ModMatch(i, j, k, m, e)) else None
      else None
    else None
  }

  /** The leftmost match starting at or after `from`. */
  function FirstMatch(s: string, from: nat): (r: Option<ModMatch>)
    requires from <= |s|
    ensures r.Some? ==> from <= r.value.start && WellPlaced(s, r.value)
    decreases |s| - from
  {
    if from == |s| then None
    else match MatchAt(s, from)
      case Some(m) => Some(m)
      case None => FirstMatch(s, from + 1)
  }

  function ModText(s: string, m: ModMatch): string
    requires WellPlaced(s, m)
  {
    "mod(" + s[m.start..m.leftEnd] + "," + s[m.rightStart..m.end] + ")"
  }

  /** One `replace(modRegex)` pass from position `from`: every match, left to right. */
  function ReplaceMods(s: string, from: nat): string
    requires from <= |s|
    decreases |s| - from
  {
    match FirstMatch(s, from)
    case None => s[from..]
    case Some(m) => s[from..m.start] + ModText(s, m) + ReplaceMods(s, m.end)
  }

  predicate HasMod(s: string) { FirstMatch(s, 0).Some? }

  lemma NoneOf(s: string, c: char, P: char -> bool)
    requires forall i :: 0 <= i < |s| ==> P(s[i])
    requires !P(c)
    ensures Count(s, c) == 0
  {
    assert !Contains(s, c) by {
      forall i | 0 <= i < |s| ensures s[i] != c {
        assert P(s[i]);
      }
    }
  }

  /** The replaced text of a match holds no '%', and the matched text holds at least one. */
  lemma MatchPercent(s: string, m: ModMatch)
    requires WellPlaced(s, m)
    ensures Count(ModText(s, m), '%') == 0
    ensures Count(s[m.start..m.end], '%') >= 1
  {
    var t := ModText(s, m);
    assert forall i :: 0 <= i < |t| ==> t[i] != '%' by {
      var g1, g2 := s[m.start..m.leftEnd], s[m.rightStart..m.end];
      assert t == "mod(" + g1 + "," + g2 + ")";
      forall i | 0 <= i < |t| ensures t[i] != '%' {
        if 4 <= i < 4 + |g1| {
          assert t[i] == g1[i - 4] == s[m.start + i - 4];
        } else if 5 + |g1| <= i < 5 + |g1| + |g2| {
          assert t[i] == g2[i - 5 - |g1|] == s[m.rightStart + i - 5 - |g1|];
        }
      }
    }
    NoneOf(t, '%', c => c != '%');
    var u := s[m.start..m.end];
    assert u[m.percent - m.start] == '%';
  }

  lemma CountSplit(s: string, i: nat, j: nat, c: char)
    requires i <= j <= |s|
    ensures Count(s[i..], c) == Count(s[i..j], c) + Count(s[j..], c)
  {
    assert s[i..] == s[i..j] + s[j..];
    CountAppend(s[i..j], s[j..], c);
  }

  /** A pass removes at least one '%' when the pattern matches, and never adds one. */
  lemma {:induction false} ReplaceModsPercent(s: string, from: nat)
    requires from <= |s|
    ensures Count(ReplaceMods(s, from), '%') <= Count(s[from..], '%')
    ensures FirstMatch(s, from).Some? ==> Count(ReplaceMods(s, from), '%') < Count(s[from..], '%')
    decreases |s| - from
  {
    match FirstMatch(s, from)
    case None =>
    case Some(m) =>
      ReplaceModsPercent(s, m.end);
      MatchPercent(s, m);
      PassCounts(s, from, m, '%');
  }

  /** The counts of `c` in one pass split at the first match, before and after the rewrite. */
  lemma PassCounts(s: string, from: nat, m: ModMatch, c: char)
    requires from <= |s| && FirstMatch(s, from) == Some(m)
    ensures Count(ReplaceMods(s, from), c)
            == Count(s[from..m.start], c) + Count(ModText(s, m), c) + Count(ReplaceMods(s, m.end), c)
    ensures Count(s[from..], c) == Count(s[from..m.start], c) + Count(s[m.start..m.end], c) + Count(s[m.end..], c)
  {
    var head, mid, rest := s[from..m.start], ModText(s, m), ReplaceMods(s, m.end);
    assert ReplaceMods(s, from) == head + mid + rest;
    CountSplit(s, from, m.start, c);
    CountSplit(s, m.start, m.end, c);
    assert s[m.start..m.end] == s[m.start..][..m.end - m.start];
    CountAppend(head + mid, rest, c);
    CountAppend(head, mid, c);
  }

  /** The rewrite loop: passes are repeated while the pattern still matches. */
  function ModFix(s: string): (r: string)
    ensures !HasMod(r)
    decreases Count(s, '%')
  {
    if HasMod(s) then
      ReplaceModsPercent(s, 0);
      assert s[0..] == s;
      ModFix(ReplaceMods(s, 0))
    else s
  }

  /** The '%' step: every '%' is padded with spaces, then the rewrite loop runs. */
  function ModRewrite(e: string): string
  {
    if Contains(e, '%') then ModFix(ReplaceStr(e, "%", " % ")) else e
  }

  /** Specification of preprocessExpression. */
  function PreprocessSpec(expr: string, isDegrees: bool): string
  {
    ModRewrite(Renamed(CloseParentheses(DropTrailingOperator(expr)), isDegrees))
  }

  /** preprocessExpression, with its rewrite loop. */
  method Preprocess(expr: string, isDegrees: bool) returns (r: string)
    ensures r == PreprocessSpec(expr, isDegrees)
    ensures !HasMod(r)
  {
    var expression := DropTrailingOperator(expr);
    expression := CloseParentheses(expression);
    expression := Renamed(expression, isDegrees);
    if Contains(expression, '%') {
      var tmp := ReplaceStr(expression, "%", " % ");
      ghost var padded := tmp;
      while HasMod(tmp)
        invariant ModFix(tmp) == ModFix(padded)
        decreases Count(tmp, '%')
      {
        ReplaceModsPercent(tmp, 0);
        assert tmp[0..] == tmp;
        tmp := ReplaceMods(tmp, 0);
      }
      expression := tmp;
    }
    r := expression;
  }

  /** The parenthesis balance of the text a pass rewrites is unchanged. */
  lemma {:induction false} ReplaceModsParentheses(s: string, from: nat)
    requires from <= |s|
    ensures Count(ReplaceMods(s, from), ')') - Count(ReplaceMods(s, from), '(')
            == Count(s[from..], ')') - Count(s[from..], '(')
    decreases |s| - from
  {
    match FirstMatch(s, from)
    case None =>
    case Some(m) =>
      ReplaceModsParentheses(s, m.end);
      MatchParentheses(s, m);
      PassCounts(s, from, m, '(');
      PassCounts(s, from, m, ')');
  }

  /** "mod(g1,g2)" adds one '(' and one ')' to the parentheses of the matched text. */
  lemma MatchParentheses(s: string, m: ModMatch)
    requires WellPlaced(s, m)
    ensures Count(ModText(s, m), '(') == Count(s[m.start..m.end], '(') + 1
    ensures Count(ModText(s, m), ')') == Count(s[m.start..m.end], ')') + 1
  {
    MatchParenthesis(s, m, '(');
    MatchParenthesis(s, m, ')');
  }

  lemma MatchParenthesis(s: string, m: ModMatch, c: char)
    requires WellPlaced(s, m) && (c == '(' || c == ')')
    ensures Count(ModText(s, m), c) == Count(s[m.start..m.end], c) + 1
  {
    var g1, gap, g2 := s[m.start..m.leftEnd], s[m.leftEnd..m.rightStart], s[m.rightStart..m.end];
    assert s[m.start..m.end] == g1 + gap + g2;
    assert forall i :: 0 <= i < |gap| ==> gap[i] == s[m.leftEnd + i];
    NoneOf(gap, c, x => x == '%' || IsRegexSpace(x));
    CountAppend(g1 + gap, g2, c);
    CountAppend(g1, gap, c);
    ModTextCount(g1, g2, c);
  }

  lemma ModTextCount(g1: string, g2: string, c: char)
    requires c == '(' || c == ')'
    ensures Count("mod(" + g1 + "," + g2 + ")", c) == Count(g1, c) + Count(g2, c) + 1
  {
    CountAppend("mod(" + g1 + "," + g2, ")", c);
    CountAppend("mod(" + g1 + ",", g2, c);
    CountAppend("mod(" + g1, ",", c);
    CountAppend("mod(", g1, c);
    assert Count(")", c) + Count(",", c) + Count("mod(", c) == 1;
  }

  lemma {:induction false} ModFixParentheses(s: string)
    ensures Count(ModFix(s), ')') - Count(ModFix(s), '(') == Count(s, ')') - Count(s, '(')
    decreases Count(s, '%')
  {
    if HasMod(s) {
      ReplaceModsPercent(s, 0);
      ReplaceModsParentheses(s, 0);
      assert s[0..] == s;
      ModFixParentheses(ReplaceMods(s, 0));
    }
  }

  /**
   * The expression handed to the evaluator never has more '(' than ')', and no modulo
   * pattern is left in it.
   */
  lemma PreprocessBalanced(expr: string, isDegrees: bool)
    ensures var r := PreprocessSpec(expr, isDegrees);
            Count(r, ')') >= Count(r, '(') && !HasMod(r)
  {
    var closed := CloseParentheses(DropTrailingOperator(expr));
    CloseParenthesesBalances(DropTrailingOperator(expr));
    var renamed := Renamed(closed, isDegrees);
    RenamedKeepsParentheses(closed, isDegrees, '(');
    RenamedKeepsParentheses(closed, isDegrees, ')');
    if Contains(renamed, '%') {
      var padded := ReplaceStr(renamed, "%", " % ");
      ReplaceStrCount(renamed, "%", " % ", '(');
      ReplaceStrCount(renamed, "%", " % ", ')');
      ModFixParentheses(padded);
    }
  }

  // ------------------------------------------------------------ the view model

  /** The view model: the screen state and the two stacks of the expression editor. */
  class CalculatorViewModel {
    var ui: CalculatorState
    var undoStack: seq<string>
    var redoStack: seq<string>

    function EditsOf(): Edits
      reads this
    {
      Edits(ui.expression, undoStack, redoStack)
    }

    constructor ()
      ensures ui == INITIAL && undoStack == [] && redoStack == []
    {
      ui := INITIAL;
      undoStack := [];
      redoStack := [];
    }

    method SetExpression(expression: string)
      modifies this
      ensures EditsOf() == SetExpressionEdit(old(EditsOf()), expression)
      ensures ui == old(ui).(expression := expression, status := Ready)
    {
      undoStack := undoStack + [ui.expression];
      redoStack := [];
      ui := ui.(expression := expression, status := Ready);
    }

    method Undo()
      modifies this
      ensures EditsOf() == UndoEdit(old(EditsOf()))
      ensures old(undoStack) == [] ==> ui == old(ui)
      ensures old(undoStack) != [] ==> ui == old(ui).(expression := EditsOf().expression, status := Ready)
    {
      if undoStack == [] {
        return;
      }
      var current := ui.expression;
      var previous := undoStack[|undoStack| - 1];
      undoStack := undoStack[..|undoStack| - 1];
      redoStack := redoStack + [current];
      ui := ui.(expression := previous, status := Ready);
    }

    method Redo()
      modifies this
      ensures EditsOf() == RedoEdit(old(EditsOf()))
      ensures old(redoStack) == [] ==> ui == old(ui)
      ensures old(redoStack) != [] ==> ui == old(ui).(expression := EditsOf().expression, status := Ready)
    {
      if redoStack == [] {
        return;
      }
      var current := ui.expression;
      var next := redoStack[|redoStack| - 1];
      redoStack := redoStack[..|redoStack| - 1];
      undoStack := undoStack + [current];
      ui := ui.(expression := next, status := Ready);
    }

    /** Any other action: one transition of the screen state; the stacks are untouched. */
    method Update(next: CalculatorState)
      modifies this
      ensures ui == next && undoStack == old(undoStack) && redoStack == old(redoStack)
    {
      ui := next;
    }

    method OnInputNumber(number: string)
      modifies this
      ensures ui == InputNumber(old(ui), number) && undoStack == old(undoStack) && redoStack == old(redoStack)
    {
      Update(InputNumber(ui, number));
    }

    method OnInputDecimal()
      modifies this
      ensures ui == InputDecimal(old(ui)) && undoStack == old(undoStack) && redoStack == old(redoStack)
    {
      Update(InputDecimal(ui));
    }

    method OnInputOperator(op: string)
      modifies this
      ensures ui == InputOperator(old(ui), op) && undoStack == old(undoStack) && redoStack == old(redoStack)
    {
      Update(InputOperator(ui, op));
    }

    method OnInputParenthesis(paren: string)
      modifies this
      ensures ui == InputParenthesis(old(ui), paren) && undoStack == old(undoStack) && redoStack == old(redoStack)
    {
      Update(InputParenthesis(ui, paren));
    }

    method OnApplyFunction(func: string)
      modifies this
      ensures ui == ApplyFunction(old(ui), func) && undoStack == old(undoStack) && redoStack == old(redoStack)
    {
      Update(ApplyFunction(ui, func));
    }

    method OnDelete()
      modifies this
      ensures ui == Delete(old(ui)) && undoStack == old(undoStack) && redoStack == old(redoStack)
    {
      Update(Delete(ui));
    }

    method OnClear()
      modifies this
      ensures ui == Clear(old(ui)) && undoStack == old(undoStack) && redoStack == old(redoStack)
    {
      Update(Clear(ui));
    }

    method OnRemoveHistoryItem(index: int)
      modifies this
      ensures ui == RemoveHistoryItem(old(ui), index) && undoStack == old(undoStack) && redoStack == old(redoStack)
    {
      Update(RemoveHistoryItem(ui, index));
    }

    method OnClearHistory()
      modifies this
      ensures ui == ClearHistory(old(ui)) && undoStack == old(undoStack) && redoStack == old(redoStack)
    {
      Update(ClearHistory(ui));
    }

    /** evaluate, given what the evaluator made of the preprocessed expression. */
    method OnEvaluate(outcome: Evaluation)
      modifies this
      ensures ui == Evaluate(old(ui), outcome) && undoStack == old(undoStack) && redoStack == old(redoStack)
    {
      Update(Evaluate(ui, outcome));
    }
  }
}
