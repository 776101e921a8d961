/**
 * The calculator's operator and parenthesis enumerations: each operator's symbol, precedence
 * and associativity, which operators are unary, and the opposite of a parenthesis.
 */
module CalculatorAction {

  datatype Operator = PLUS | MINUS | MULTIPLY | DIVIDE | POWER | MODULO | NEGATE | PERCENT
  {
    function Symbol(): string
    {
      match this
      case PLUS => "+"
      case MINUS => "-"
      case MULTIPLY => "×"
      case DIVIDE => "÷"
      case POWER => "^"
      case MODULO => "%"
      case NEGATE => "±"
      case PERCENT => "%"
    }

    function Precedence(): nat
    {
      match this
      case PLUS => 1
      case MINUS => 1
      case MULTIPLY => 2
      case DIVIDE => 2
      case POWER => 3
      case MODULO => 2
      case NEGATE => 4
      case PERCENT => 4
    }

    predicate IsRightAssociative() { this == POWER }

    predicate IsBinary() { this != NEGATE && this != PERCENT }

    predicate IsUnary() { !IsBinary() }
  }

  /** All operators, in declaration order. */
  const OPERATORS: seq<Operator> := [PLUS, MINUS, MULTIPLY, DIVIDE, POWER, MODULO, NEGATE, PERCENT]

  lemma OperatorsListed(op: Operator)
    ensures op in OPERATORS
  {
  }

  /** Unary exactly when not binary; only NEGATE and PERCENT are unary, and they bind tightest. */
  lemma UnaryOperators(op: Operator, other: Operator)
    ensures op.IsUnary() <==> !op.IsBinary()
    ensures op.IsUnary() <==> op == NEGATE || op == PERCENT
    ensures op.IsUnary() && other.IsBinary() ==> op.Precedence() > other.Precedence()
  {
  }

  /** POWER is the only right-associative operator, and it binds tightest among binary ones. */
  lemma RightAssociative(op: Operator)
    ensures op.IsRightAssociative() <==> op == POWER
    ensures op.IsBinary() && op != POWER ==> op.Precedence() < POWER.Precedence()
  {
  }

  /** The operators written with `s`. */
  function WithSymbol(ops: seq<Operator>, s: string): (r: seq<Operator>)
    ensures forall op :: op in r <==> op in ops && op.Symbol() == s
  {
    if ops == [] then []
    else if ops[0].Symbol() == s then [ops[0]] + WithSymbol(ops[1..], s)
    else WithSymbol(ops[1..], s)
  }

  /** MODULO and PERCENT share "%"; any other two operators have different symbols. */
  lemma SymbolsDiffer(op: Operator, other: Operator)
    requires op != other && op.Symbol() == other.Symbol()
    ensures op.Symbol() == "%"
    ensures (op == MODULO && other == PERCENT) || (op == PERCENT && other == MODULO)
  {
    assert op.Symbol()[0] == other.Symbol()[0];
  }

  /** "%" names exactly MODULO and PERCENT; every other symbol exactly one operator. */
  lemma SharedSymbol(op: Operator)
    ensures forall o :: o in WithSymbol(OPERATORS, "%") <==> o == MODULO || o == PERCENT
    ensures op.Symbol() != "%" ==> forall o :: o in WithSymbol(OPERATORS, op.Symbol()) <==> o == op
  {
    forall o: Operator
      ensures o in OPERATORS
      ensures o.Symbol() == "%" <==> o == MODULO || o == PERCENT
      ensures o.Symbol() == op.Symbol() && o != op ==> op.Symbol() == "%"
    {
      OperatorsListed(o);
      if o.Symbol() == "%" && o != MODULO {
        SymbolsDiffer(o, MODULO);
      }
      if o.Symbol() == op.Symbol() && o != op {
        SymbolsDiffer(op, o);
      }
    }
  }

  datatype ParenthesisType = OPEN | CLOSE
  {
    function Symbol(): string
    {
      match this
      case OPEN => "("
      case CLOSE => ")"
    }

    /** The other kind of parenthesis. */
    function Opposite(): (p: ParenthesisType)
      ensures p != this
      ensures p.Symbol() != Symbol()
    {
      match this
      case OPEN => CLOSE
      case CLOSE => OPEN
    }
  }

  /** Taking the opposite twice gives back the parenthesis. */
  lemma OppositeInvolution(p: ParenthesisType)
    ensures p.Opposite().Opposite() == p
  {
  }
}
