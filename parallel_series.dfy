/**
 * The list of component values shared by the generic parallel/series screens: text rows that
 * can be edited, appended and removed, never fewer than two, with a recalculation after every
 * change that took effect.
 */
module ParallelSeries {

  /** `updateValue` on the list: an index inside the list gets the new text. */
  function Updated(values: seq<string>, index: nat, value: string): (r: seq<string>)
    ensures |r| == |values|
    ensures index < |values| ==> r[index] == value
    ensures forall i :: 0 <= i < |values| && i != index ==> r[i] == values[i]
  {
    if index < |values| then values[index := value] else values
  }

  /** `removeValue` on the list: only when more than two rows remain and the index is inside. */
  function Removed(values: seq<string>, index: nat): (r: seq<string>)
    ensures |values| > 2 && index < |values| ==> |r| == |values| - 1
    ensures !(|values| > 2 && index < |values|) ==> r == values
    ensures |values| > 2 && index < |values| ==>
              forall i :: 0 <= i < |r| ==> r[i] == values[if i < index then i else i + 1]
  {
    if |values| > 2 && index < |values| then values[..index] + values[index + 1..] else values
  }

  class ParallelSeriesViewModel {
    var values: seq<string>
    /** How many times the concrete calculator's `calculate` has been called. */
    var calculations: nat

    predicate Valid()
      reads this
    {
      |values| >= 2
    }

    /** Two empty rows. */
    constructor()
      ensures Valid() && values == ["", ""] && calculations == 0
    {
      values := ["", ""];
      calculations := 0;
    }

    method Calculate()
      modifies this
      ensures values == old(values) && calculations == old(calculations) + 1
    {
      calculations := calculations + 1;
    }

    /** `updateValue`: an index past the end changes nothing and does not recalculate. */
    method UpdateValue(index: nat, value: string)
      requires Valid()
      modifies this
      ensures Valid()
      ensures values == Updated(old(values), index, value)
      ensures calculations == old(calculations) + (if index < |old(values)| then 1 else 0)
    {
      if index < |values| {
        values := values[index := value];
        Calculate();
      }
    }

    /** `addValue`: an empty row at the end. */
    method AddValue()
      requires Valid()
      modifies this
      ensures Valid()
      ensures values == old(values) + [""]
      ensures calculations == old(calculations) + 1
    {
      values := values + [""];
      Calculate();
    }

    /** `removeValue`: refused while only two rows remain or for an index past the end. */
    method RemoveValue(index: nat)
      requires Valid()
      modifies this
      ensures Valid()
      ensures values == Removed(old(values), index)
      ensures calculations == old(calculations) + (if |old(values)| > 2 && index < |old(values)| then 1 else 0)
    {
      if |values| > 2 && index < |values| {
        values := values[..index] + values[index + 1..];
        Calculate();
      }
    }
  }

  /** Removing the row just added gives back the list before. */
  lemma AddThenRemove(values: seq<string>)
    requires |values| >= 2
    ensures Removed(values + [""], |values|) == values
  {
    assert (values + [""])[..|values|] == values;
  }
}
