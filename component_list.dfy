/**
 * What the series/parallel resistor and capacitor calculators share: a list of at least two
 * input rows, each with an identifier, a typed value and a unit multiplier, edited by events,
 * and the two ways of combining the positive values (plain sum, reciprocal of the sum of
 * reciprocals).
 */
module ComponentList {
  import opened Wrappers
  import opened Text

  /** One input row; the identifier stands for the row's random UUID. */
  datatype Input = Input(id: nat, value: string, multiplier: real)

  /** A positive double: finite, or positive infinity. */
  datatype Positive = Fin(r: real) | PosInf

  datatype Event =
    | ValueChanged(id: nat, value: string)
    | UnitChanged(id: nat, multiplier: real)
    | Add
    | Remove(id: nat)
    | Reset

  datatype Arrangement = Series | Parallel

  predicate DistinctIds(inputs: seq<Input>)
  {
    forall i, j :: 0 <= i < j < |inputs| ==> inputs[i].id != inputs[j].id
  }

  /** The list invariant: at least two rows, distinct identifiers below the next one, positive units. */
  predicate WellFormed(inputs: seq<Input>, nextId: nat)
  {
    |inputs| >= 2 && DistinctIds(inputs)
    && forall i :: 0 <= i < |inputs| ==> inputs[i].id < nextId && inputs[i].multiplier > 0.0
  }

  /** Two empty rows with the default unit, with fresh identifiers. */
  function Initial(nextId: nat, unit: real): (inputs: seq<Input>)
    requires unit > 0.0
    ensures WellFormed(inputs, nextId + 2)
    ensures |inputs| == 2 && forall i :: 0 <= i < 2 ==> inputs[i].value == "" && inputs[i].multiplier == unit
  {
    [Input(nextId, "", unit), Input(nextId + 1, "", unit)]
  }

  function SetValue(inputs: seq<Input>, id: nat, value: string): (r: seq<Input>)
    ensures |r| == |inputs|
    ensures forall i :: 0 <= i < |r| ==> r[i] == if inputs[i].id == id then inputs[i].(value := value) else inputs[i]
  {
    seq(|inputs|, i requires 0 <= i < |inputs| => if inputs[i].id == id then inputs[i].(value := value) else inputs[i])
  }

  function SetUnit(inputs: seq<Input>, id: nat, multiplier: real): (r: seq<Input>)
    ensures |r| == |inputs|
    ensures forall i :: 0 <= i < |r| ==> r[i] == if inputs[i].id == id then inputs[i].(multiplier := multiplier) else inputs[i]
  {
    seq(|inputs|, i requires 0 <= i < |inputs| => if inputs[i].id == id then inputs[i].(multiplier := multiplier) else inputs[i])
  }

  /** `filter { it.id != id }`. */
  function WithoutId(inputs: seq<Input>, id: nat): (r: seq<Input>)
    ensures |r| <= |inputs|
    ensures forall x :: x in r <==> x in inputs && x.id != id
  {
    if inputs == [] then []
    else (if inputs[0].id == id then [] else [inputs[0]]) + WithoutId(inputs[1..], id)
  }

  /** The rows and the next identifier after an event. */
  function Apply(inputs: seq<Input>, nextId: nat, unit: real, e: Event): (seq<Input>, nat)
    requires unit > 0.0
  {
    match e
    case Add => (inputs + [Input(nextId, "", unit)], nextId + 1)
    case Remove(id) => (if |inputs| > 2 then WithoutId(inputs, id) else inputs, nextId)
    case ValueChanged(id, value) => (SetValue(inputs, id, value), nextId)
    case UnitChanged(id, multiplier) => (SetUnit(inputs, id, multiplier), nextId)
    case Reset => (Initial(nextId, unit), nextId + 2)
  }

  /** With distinct identifiers, removing one identifier removes at most one row. */
  lemma {:induction false} WithoutIdSize(inputs: seq<Input>, id: nat)
    requires DistinctIds(inputs)
    ensures |WithoutId(inputs, id)| >= |inputs| - 1
  {
    if inputs != [] {
      var rest := inputs[1..];
      if inputs[0].id == id {
        forall x | x in rest ensures x.id != id {
          var j :| 0 <= j < |rest| && rest[j] == x;
          assert inputs[j + 1] == x;
        }
        WithoutIdKeeps(rest, id);
      } else {
        assert DistinctIds(rest);
        WithoutIdSize(rest, id);
      }
    }
  }

  /** Removing rows keeps the identifiers distinct. */
  lemma {:induction false} WithoutIdDistinct(inputs: seq<Input>, id: nat)
    requires DistinctIds(inputs)
    ensures DistinctIds(WithoutId(inputs, id))
  {
    if inputs != [] {
      var first, rest := inputs[0], inputs[1..];
      DistinctParts(inputs);
      WithoutIdDistinct(rest, id);
      var w := WithoutId(rest, id);
      if first.id != id {
        DistinctCons(first, w);
        assert WithoutId(inputs, id) == [first] + w;
      } else {
        assert WithoutId(inputs, id) == w;
      }
    }
  }

  /** The tail of a list with distinct identifiers has them too, and none is the head's. */
  lemma DistinctParts(inputs: seq<Input>)
    requires inputs != [] && DistinctIds(inputs)
    ensures DistinctIds(inputs[1..])
    ensures forall x :: x in inputs[1..] ==> x.id != inputs[0].id
  {
    var rest := inputs[1..];
    forall x | x in rest ensures x.id != inputs[0].id {
      var k :| 0 <= k < |rest| && rest[k] == x;
      assert inputs[k + 1] == x;
    }
  }

  lemma DistinctCons(x: Input, w: seq<Input>)
    requires DistinctIds(w) && forall y :: y in w ==> y.id != x.id
    ensures DistinctIds([x] + w)
  {
    var r := [x] + w;
    forall i, j | 0 <= i < j < |r| ensures r[i].id != r[j].id {
      if i == 0 {
        assert r[j] == w[j - 1] && r[j] in w;
      } else {
        assert r[i] == w[i - 1] && r[j] == w[j - 1];
      }
    }
  }

  lemma {:induction false} WithoutIdKeeps(inputs: seq<Input>, id: nat)
    requires forall x :: x in inputs ==> x.id != id
    ensures WithoutId(inputs, id) == inputs
  {
    if inputs != [] {
      assert inputs[0] in inputs;
      WithoutIdKeeps(inputs[1..], id);
      assert [inputs[0]] + inputs[1..] == inputs;
    }
  }

  /**
   * Every event keeps the list invariant: in particular removal never leaves fewer than two
   * rows, since it happens only when there are more than two and identifiers are distinct.
   */
  lemma ApplyKeepsWellFormed(inputs: seq<Input>, nextId: nat, unit: real, e: Event)
    requires unit > 0.0 && WellFormed(inputs, nextId)
    requires e.UnitChanged? ==> e.multiplier > 0.0
    ensures WellFormed(Apply(inputs, nextId, unit, e).0, Apply(inputs, nextId, unit, e).1)
  {
    match e
    case Remove(id) =>
      if |inputs| > 2 {
        WithoutIdSize(inputs, id);
        WithoutIdDistinct(inputs, id);
        var w := WithoutId(inputs, id);
        forall i | 0 <= i < |w| ensures w[i].id < nextId && w[i].multiplier > 0.0 {
          assert w[i] in inputs;
        }
      }
    case Add =>
      var r := inputs + [Input(nextId, "", unit)];
      forall i, j | 0 <= i < j < |r| ensures r[i].id != r[j].id {
        if j < |inputs| {
          assert r[i] == inputs[i] && r[j] == inputs[j];
        } else {
          assert r[i] == inputs[i];
        }
      }
    case ValueChanged(id, value) =>
      var r := SetValue(inputs, id, value);
      assert forall i :: 0 <= i < |r| ==> r[i].id == inputs[i].id;
    case UnitChanged(id, m) =>
      var r := SetUnit(inputs, id, m);
      assert forall i :: 0 <= i < |r| ==> r[i].id == inputs[i].id;
    case Reset =>
  }

  /** Editing a value or a unit changes only the rows with that identifier, and only that field. */
  lemma EditsTouchOnlyTarget(inputs: seq<Input>, nextId: nat, unit: real, e: Event)
    requires unit > 0.0 && (e.ValueChanged? || e.UnitChanged?)
    ensures var r := Apply(inputs, nextId, unit, e).0;
            && |r| == |inputs| && Apply(inputs, nextId, unit, e).1 == nextId
            && forall i :: 0 <= i < |r| ==>
                 r[i].id == inputs[i].id
                 && (inputs[i].id != e.id ==> r[i] == inputs[i])
                 && (inputs[i].id == e.id && e.ValueChanged? ==> r[i].value == e.value && r[i].multiplier == inputs[i].multiplier)
                 && (inputs[i].id == e.id && e.UnitChanged? ==> r[i].multiplier == e.multiplier && r[i].value == inputs[i].value)
  {
  }

  /** Adding appends exactly one empty row with the default unit. */
  lemma AddAppends(inputs: seq<Input>, nextId: nat, unit: real)
    requires unit > 0.0
    ensures var r := Apply(inputs, nextId, unit, Add).0;
            && |r| == |inputs| + 1 && r[..|inputs|] == inputs
            && r[|inputs|].value == "" && r[|inputs|].multiplier == unit
  {
    assert (inputs + [Input(nextId, "", unit)])[..|inputs|] == inputs;
  }

  // ------------------------------------------------------------ the totals

  /** `value.toDoubleOrNull()`, kept when above zero, times the unit multiplier. */
  function Scaled(input: Input): Option<Positive>
  {
    match ParseDouble(input.value)
    case Some(Finite(v)) => if v > 0.0 then Some(Fin(v * input.multiplier)) else None
    case Some(Infinity(negative)) => if negative then None else Some(PosInf)
    case _ => None
  }

  /** `mapNotNull` of Scaled over the rows. */
  function ValidValues(inputs: seq<Input>): (vs: seq<Positive>)
    ensures |vs| <= |inputs|
  {
    if inputs == [] then []
    else
      match Scaled(inputs[0])
      case Some(v) => [v] + ValidValues(inputs[1..])
      case None => ValidValues(inputs[1..])
  }

  /** No value is left exactly when no row is accepted. */
  lemma {:induction false} NoValidValues(inputs: seq<Input>)
    ensures ValidValues(inputs) == [] <==> forall i :: 0 <= i < |inputs| ==> Scaled(inputs[i]).None?
  {
    if inputs != [] {
      NoValidValues(inputs[1..]);
      if ValidValues(inputs) == [] {
        forall i | 0 <= i < |inputs| ensures Scaled(inputs[i]).None? {
          if i > 0 {
            assert inputs[1..][i - 1] == inputs[i];
          }
        }
      }
    }
  }

  /** Every value comes from an accepted row, and every accepted row gives one. */
  lemma {:induction false} ValidValuesExactly(inputs: seq<Input>)
    ensures forall v :: v in ValidValues(inputs) <==> exists i :: 0 <= i < |inputs| && Scaled(inputs[i]) == Some(v)
  {
    if inputs != [] {
      var rest := inputs[1..];
      ValidValuesExactly(rest);
      forall v | v in ValidValues(inputs) ensures exists i :: 0 <= i < |inputs| && Scaled(inputs[i]) == Some(v) {
        if Scaled(inputs[0]) != Some(v) {
          assert v in ValidValues(rest);
          var i :| 0 <= i < |rest| && Scaled(rest[i]) == Some(v);
          assert inputs[i + 1] == rest[i];
        }
      }
      forall v | exists i :: 0 <= i < |inputs| && Scaled(inputs[i]) == Some(v) ensures v in ValidValues(inputs) {
        var i :| 0 <= i < |inputs| && Scaled(inputs[i]) == Some(v);
        if i > 0 {
          assert rest[i - 1] == inputs[i];
          assert v in ValidValues(rest);
        }
      }
    }
  }

  /** `sum()` of positive doubles: infinite as soon as one term is. */
  function Sum(vs: seq<Positive>): Positive
  {
    if vs == [] then Fin(0.0)
    else
      match (vs[0], Sum(vs[1..]))
      case (Fin(a), Fin(b)) => Fin(a + b)
      case _ => PosInf
  }

  /** `sumOf { 1.0 / it }`: an infinite term adds 0. */
  function ReciprocalSum(vs: seq<Positive>): real
  {
    if vs == [] then 0.0
    else (match vs[0] case Fin(a) => if a == 0.0 then 0.0 else 1.0 / a case PosInf => 0.0) + ReciprocalSum(vs[1..])
  }

  /** `1.0 / sumOf { 1.0 / it }`: dividing by a zero sum gives positive infinity. */
  function Reciprocal(vs: seq<Positive>): Positive
  {
    var s := ReciprocalSum(vs);
    if s == 0.0 then PosInf else Fin(1.0 / s)
  }

  /** The combined total of the accepted values, or none when no row is accepted. */
  function Total(inputs: seq<Input>, combine: Arrangement, reciprocal: Arrangement): Option<Positive>
  {
    var vs := ValidValues(inputs);
    if vs == [] then None else Some(if combine == reciprocal then Reciprocal(vs) else Sum(vs))
  }

  predicate AllFinitePositive(vs: seq<Positive>)
  {
    forall i :: 0 <= i < |vs| ==> vs[i].Fin? && vs[i].r > 0.0
  }

  /** Each finite positive term is at most the plain sum. */
  lemma {:induction false} SumAtLeastEach(vs: seq<Positive>, i: nat)
    requires AllFinitePositive(vs) && i < |vs|
    ensures Sum(vs).Fin? && Sum(vs).r >= vs[i].r
  {
    SumFinite(vs[1..]);
    if i > 0 {
      SumAtLeastEach(vs[1..], i - 1);
    }
  }

  lemma {:induction false} SumFinite(vs: seq<Positive>)
    requires AllFinitePositive(vs)
    ensures Sum(vs).Fin? && Sum(vs).r >= 0.0
  {
    if vs != [] {
      SumFinite(vs[1..]);
    }
  }

  lemma {:induction false} ReciprocalSumAtLeast(vs: seq<Positive>, i: nat)
    requires AllFinitePositive(vs) && i < |vs|
    ensures ReciprocalSum(vs) >= 1.0 / vs[i].r > 0.0
  {
    ReciprocalSumNonNegative(vs[1..]);
    if i > 0 {
      ReciprocalSumAtLeast(vs[1..], i - 1);
    }
  }

  lemma {:induction false} ReciprocalSumNonNegative(vs: seq<Positive>)
    requires AllFinitePositive(vs)
    ensures ReciprocalSum(vs) >= 0.0
  {
    if vs != [] {
      ReciprocalSumNonNegative(vs[1..]);
    }
  }

  /** The reciprocal combination of finite positive values is at most each of them. */
  lemma ReciprocalAtMostEach(vs: seq<Positive>, i: nat)
    requires AllFinitePositive(vs) && i < |vs|
    ensures Reciprocal(vs).Fin? && 0.0 < Reciprocal(vs).r <= vs[i].r
  {
    ReciprocalSumAtLeast(vs, i);
    var s := ReciprocalSum(vs);
    var a := vs[i].r;
    assert s * a >= 1.0 by {
      assert s >= 1.0 / a;
    }
    assert 1.0 / s <= a by {
      assert (1.0 / s) * s == 1.0;
    }
  }

  /** Two finite values: the sum a + b, and the reciprocal combination a·b / (a + b). */
  lemma TwoValues(a: real, b: real)
    requires a > 0.0 && b > 0.0
    ensures Sum([Fin(a), Fin(b)]) == Fin(a + b)
    ensures Reciprocal([Fin(a), Fin(b)]) == Fin(a * b / (a + b))
  {
    var vs := [Fin(a), Fin(b)];
    assert vs[1..] == [Fin(b)] && vs[1..][1..] == [];
    assert ReciprocalSum([Fin(b)]) == 1.0 / b && Sum([Fin(b)]) == Fin(b) by {
      assert [Fin(b)][1..] == [];
    }
    assert ReciprocalSum(vs) == 1.0 / a + 1.0 / b;
    var s := 1.0 / a + 1.0 / b;
    assert s * (a * b) == a + b;
    assert s > 0.0;
    assert 1.0 / s == a * b / (a + b);
  }
}
