/** The logic gates reference: seven gates, each with a name and the boolean function it computes. */
module LogicGates {

  datatype Gate = AND | OR | NOT | NAND | NOR | XOR | XNOR
  {
    function Name(): string
    {
      match this
      case AND => "AND"
      case OR => "OR"
      case NOT => "NOT"
      case NAND => "NAND"
      case NOR => "NOR"
      case XOR => "XOR"
      case XNOR => "XNOR"
    }

    /** The gate's output for inputs A and B; NOT reads only A. */
    function Calculate(a: bool, b: bool): bool
    {
      match this
      case AND => a && b
      case OR => a || b
      case NOT => !a
      case NAND => !(a && b)
      case NOR => !(a || b)
      case XOR => a != b
      case XNOR => !(a != b)
    }

    predicate IsUnary() { this == NOT }
  }

  /** The gates in the order the reference lists them. */
  const GATES: seq<Gate> := [AND, OR, NOT, NAND, NOR, XOR, XNOR]

  /** The list names each gate exactly once, in the order AND, OR, NOT, NAND, NOR, XOR, XNOR. */
  lemma GateOrder(g: Gate)
    ensures |GATES| == 7 && g in GATES
    ensures forall i, j :: 0 <= i < j < |GATES| ==> GATES[i] != GATES[j]
    ensures forall i :: 0 <= i < |GATES| ==> GATES[i].Name() == ["AND", "OR", "NOT", "NAND", "NOR", "XOR", "XNOR"][i]
  {
  }

  /** NAND, NOR and XNOR are the negations of AND, OR and XOR. */
  lemma Negations(a: bool, b: bool)
    ensures NAND.Calculate(a, b) == !AND.Calculate(a, b)
    ensures NOR.Calculate(a, b) == !OR.Calculate(a, b)
    ensures XNOR.Calculate(a, b) == !XOR.Calculate(a, b)
  {
  }

  /** NOT ignores its second input and is the only unary gate; every other gate reads B. */
  lemma UnaryGate(g: Gate, a: bool)
    ensures g.IsUnary() <==> g == NOT
    ensures g.IsUnary() ==> g.Calculate(a, true) == g.Calculate(a, false)
    ensures !g.IsUnary() ==> exists x :: g.Calculate(x, true) != g.Calculate(x, false)
  {
    if !g.IsUnary() {
      if g.Calculate(true, true) == g.Calculate(true, false) {
        assert g.Calculate(false, true) != g.Calculate(false, false);
      }
    }
  }

  /** No two gates have the same truth table. */
  lemma DistinctTruthTables(g: Gate, h: Gate)
    requires g != h
    ensures exists a, b :: g.Calculate(a, b) != h.Calculate(a, b)
  {
    if g.Calculate(false, false) == h.Calculate(false, false)
       && g.Calculate(false, true) == h.Calculate(false, true)
       && g.Calculate(true, false) == h.Calculate(true, false) {
      assert g.Calculate(true, true) != h.Calculate(true, true);
    }
  }
}
