/**
 * The series and parallel capacitor calculators: rows of capacitances edited by events, and
 * after every event the total of the rows holding a positive number.
 */
module ParallelSeriesCapacitor {
  import opened Wrappers
  import opened Text
  import opened ComponentList

  /** The multiplier of the default unit, µF. */
  const MICROFARAD: real := 0.000001

  /**
   * The total capacitance: none without an accepted row; otherwise in series the reciprocal
   * of the summed reciprocals, in parallel the sum.
   */
  function TotalCapacitance(arrangement: Arrangement, capacitors: seq<Input>): (r: Option<Positive>)
    ensures r.None? <==> forall i :: 0 <= i < |capacitors| ==> Scaled(capacitors[i]).None?
    ensures r.Some? && arrangement == Series ==> r.value == Reciprocal(ValidValues(capacitors))
    ensures r.Some? && arrangement == Parallel ==> r.value == Sum(ValidValues(capacitors))
  {
    NoValidValues(capacitors);
    Total(capacitors, arrangement, Series)
  }

  /** In series the total is at most each capacitance; in parallel at least each. */
  lemma TotalBounds(arrangement: Arrangement, capacitors: seq<Input>, i: nat)
    requires AllFinitePositive(ValidValues(capacitors)) && i < |ValidValues(capacitors)|
    ensures var t := TotalCapacitance(arrangement, capacitors);
            && t.Some? && t.value.Fin?
            && (arrangement == Series ==> t.value.r <= ValidValues(capacitors)[i].r)
            && (arrangement == Parallel ==> t.value.r >= ValidValues(capacitors)[i].r)
  {
    var vs := ValidValues(capacitors);
    if arrangement == Series {
      ReciprocalAtMostEach(vs, i);
    } else {
      SumAtLeastEach(vs, i);
    }
  }

  /** Example of `ComponentList.ValidValuesExactly`: an empty row is never counted. */
  lemma EmptyRowNotCounted(input: Input)
    requires input.value == ""
    ensures Scaled(input).None?
  {
  }

  class CapacitorCalculatorViewModel {
    const arrangement: Arrangement
    var capacitors: seq<Input>
    var nextId: nat
    var totalCapacitance: Option<Positive>

    predicate Valid()
      reads this
    {
      WellFormed(capacitors, nextId)
    }

    /** Two empty rows in µF and no total. */
    constructor(arrangement: Arrangement)
      ensures Valid() && this.arrangement == arrangement
      ensures capacitors == Initial(0, MICROFARAD) && nextId == 2 && totalCapacitance.None?
    {
      this.arrangement := arrangement;
      capacitors := Initial(0, MICROFARAD);
      nextId := 2;
      totalCapacitance := None;
    }

    /** `onEvent`: the event is applied to the rows, then the total is recomputed. */
    method OnEvent(e: Event)
      requires Valid() && (e.UnitChanged? ==> e.multiplier > 0.0)
      modifies this
      ensures Valid()
      ensures (capacitors, nextId) == Apply(old(capacitors), old(nextId), MICROFARAD, e)
      ensures totalCapacitance == TotalCapacitance(arrangement, capacitors)
    {
      ApplyKeepsWellFormed(capacitors, nextId, MICROFARAD, e);
      var next := Apply(capacitors, nextId, MICROFARAD, e);
      capacitors, nextId := next.0, next.1;
      Calculate();
    }

    /** `calculate`. */
    method Calculate()
      modifies this
      ensures capacitors == old(capacitors) && nextId == old(nextId)
      ensures totalCapacitance == TotalCapacitance(arrangement, capacitors)
    {
      totalCapacitance := TotalCapacitance(arrangement, capacitors);
    }
  }

  /** Reset brings back two empty µF rows, so the total is cleared. */
  lemma ResetRestores(capacitors: seq<Input>, nextId: nat, arrangement: Arrangement)
    ensures var r := Apply(capacitors, nextId, MICROFARAD, Reset).0;
            && |r| == 2 && r[0].value == "" && r[1].value == ""
            && r[0].multiplier == MICROFARAD && r[1].multiplier == MICROFARAD
            && TotalCapacitance(arrangement, r).None?
  {
    var r := Apply(capacitors, nextId, MICROFARAD, Reset).0;
    EmptyRowNotCounted(r[0]);
    EmptyRowNotCounted(r[1]);
  }
}
