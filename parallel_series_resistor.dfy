/**
 * The series and parallel resistor calculators: rows of resistances edited by events, and
 * after every event the total of the rows holding a positive number.
 */
module ParallelSeriesResistor {
  import opened Wrappers
  import opened Text
  import opened ComponentList

  /** The multiplier of the default unit, kΩ. */
  const KILO_OHM: real := 1000.0

  /**
   * The total resistance: none without an accepted row; otherwise in series the sum, in
   * parallel the reciprocal of the summed reciprocals.
   */
  function TotalResistance(arrangement: Arrangement, resistors: seq<Input>): (r: Option<Positive>)
    ensures r.None? <==> forall i :: 0 <= i < |resistors| ==> Scaled(resistors[i]).None?
    ensures r.Some? && arrangement == Series ==> r.value == Sum(ValidValues(resistors))
    ensures r.Some? && arrangement == Parallel ==> r.value == Reciprocal(ValidValues(resistors))
  {
    NoValidValues(resistors);
    Total(resistors, arrangement, Parallel)
  }

  /** In series the total is at least each resistance; in parallel at most each. */
  lemma TotalBounds(arrangement: Arrangement, resistors: seq<Input>, i: nat)
    requires AllFinitePositive(ValidValues(resistors)) && i < |ValidValues(resistors)|
    ensures var t := TotalResistance(arrangement, resistors);
            && t.Some? && t.value.Fin?
            && (arrangement == Series ==> t.value.r >= ValidValues(resistors)[i].r)
            && (arrangement == Parallel ==> t.value.r <= ValidValues(resistors)[i].r)
  {
    var vs := ValidValues(resistors);
    if arrangement == Series {
      SumAtLeastEach(vs, i);
    } else {
      ReciprocalAtMostEach(vs, i);
    }
  }

  /** Example of `ComponentList.ValidValuesExactly`: an empty row is never counted. */
  lemma EmptyRowNotCounted(input: Input)
    requires input.value == ""
    ensures Scaled(input).None?
  {
  }

  class ResistorCalculatorViewModel {
    const arrangement: Arrangement
    var resistors: seq<Input>
    var nextId: nat
    var totalResistance: Option<Positive>

    predicate Valid()
      reads this
    {
      WellFormed(resistors, nextId)
    }

    /** Two empty rows in kΩ and no total. */
    constructor(arrangement: Arrangement)
      ensures Valid() && this.arrangement == arrangement
      ensures resistors == Initial(0, KILO_OHM) && nextId == 2 && totalResistance.None?
    {
      this.arrangement := arrangement;
      resistors := Initial(0, KILO_OHM);
      nextId := 2;
      totalResistance := None;
    }

    /** `onEvent`: the event is applied to the rows, then the total is recomputed. */
    method OnEvent(e: Event)
      requires Valid() && (e.UnitChanged? ==> e.multiplier > 0.0)
      modifies this
      ensures Valid()
      ensures (resistors, nextId) == Apply(old(resistors), old(nextId), KILO_OHM, e)
      ensures totalResistance == TotalResistance(arrangement, resistors)
    {
      ApplyKeepsWellFormed(resistors, nextId, KILO_OHM, e);
      var next := Apply(resistors, nextId, KILO_OHM, e);
      resistors, nextId := next.0, next.1;
      Calculate();
    }

    /** `calculate`. */
    method Calculate()
      modifies this
      ensures resistors == old(resistors) && nextId == old(nextId)
      ensures totalResistance == TotalResistance(arrangement, resistors)
    {
      totalResistance := TotalResistance(arrangement, resistors);
    }
  }

  /** Reset brings back two empty kΩ rows, so the total is cleared. */
  lemma ResetRestores(resistors: seq<Input>, nextId: nat, arrangement: Arrangement)
    ensures var r := Apply(resistors, nextId, KILO_OHM, Reset).0;
            && |r| == 2 && r[0].value == "" && r[1].value == ""
            && r[0].multiplier == KILO_OHM && r[1].multiplier == KILO_OHM
            && TotalResistance(arrangement, r).None?
  {
    var r := Apply(resistors, nextId, KILO_OHM, Reset).0;
    EmptyRowNotCounted(r[0]);
    EmptyRowNotCounted(r[1]);
  }
}
