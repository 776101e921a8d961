/**
 * The matrix calculator: two 3×3 grids of which the top-left size×size block is used (size 2
 * or 3), and the sum, difference, product or determinant of that block.
 */
module Matrices {
  import opened Wrappers
  import opened Text

  type Matrix = seq<seq<real>>

  /** `m` has at least `n` rows, each with at least `n` cells. */
  predicate Covers(m: Matrix, n: nat)
  {
    |m| >= n && forall i :: 0 <= i < n ==> |m[i]| >= n
  }

  predicate IsSquare(m: Matrix, n: nat)
  {
    |m| == n && forall i :: 0 <= i < n ==> |m[i]| == n
  }

  /** Two n×n matrices with the same entries are equal. */
  lemma SameEntries(m1: Matrix, m2: Matrix, n: nat)
    requires IsSquare(m1, n) && IsSquare(m2, n)
    requires forall i, j :: 0 <= i < n && 0 <= j < n ==> m1[i][j] == m2[i][j]
    ensures m1 == m2
  {
    forall i | 0 <= i < n
      ensures m1[i] == m2[i]
    {
    }
  }

  /** The top-left n×n block of `m`. */
  function Block(m: Matrix, n: nat): (r: Matrix)
    requires Covers(m, n)
    ensures IsSquare(r, n)
    ensures forall i, j :: 0 <= i < n && 0 <= j < n ==> r[i][j] == m[i][j]
  {
    seq(n, i requires 0 <= i < n => m[i][..n])
  }

  /** `addMatrices`. */
  function Add(a: Matrix, b: Matrix, n: nat): (r: Matrix)
    requires Covers(a, n) && Covers(b, n)
    ensures IsSquare(r, n)
    ensures forall i, j :: 0 <= i < n && 0 <= j < n ==> r[i][j] == a[i][j] + b[i][j]
  {
    seq(n, i requires 0 <= i < n => seq(n, j requires 0 <= j < n => a[i][j] + b[i][j]))
  }

  /** `subtractMatrices`. */
  function Subtract(a: Matrix, b: Matrix, n: nat): (r: Matrix)
    requires Covers(a, n) && Covers(b, n)
    ensures IsSquare(r, n)
    ensures forall i, j :: 0 <= i < n && 0 <= j < n ==> r[i][j] == a[i][j] - b[i][j]
  {
    seq(n, i requires 0 <= i < n => seq(n, j requires 0 <= j < n => a[i][j] - b[i][j]))
  }

  /** Subtracting what was added gives back the block; addition does not depend on the order. */
  lemma AddSubtract(a: Matrix, b: Matrix, n: nat)
    requires Covers(a, n) && Covers(b, n)
    ensures Subtract(Add(a, b, n), b, n) == Block(a, n)
    ensures Add(a, b, n) == Add(b, a, n)
  {
    SameEntries(Subtract(Add(a, b, n), b, n), Block(a, n), n);
    SameEntries(Add(a, b, n), Add(b, a, n), n);
  }

  /** `sumOf { k -> a[row][k] * b[k][col] }` over `0 until k`, summed from k = 0 upwards. */
  function Dot(a: Matrix, b: Matrix, row: nat, col: nat, k: nat): real
    requires |a| > row && |a[row]| >= k && |b| >= k
    requires forall t :: 0 <= t < k ==> |b[t]| > col
  {
    if k == 0 then 0.0 else Dot(a, b, row, col, k - 1) + a[row][k - 1] * b[k - 1][col]
  }

  /** `multiplyMatrices`. */
  function Multiply(a: Matrix, b: Matrix, n: nat): (r: Matrix)
    requires Covers(a, n) && Covers(b, n)
    ensures IsSquare(r, n)
    ensures forall i, j :: 0 <= i < n && 0 <= j < n ==> r[i][j] == Dot(a, b, i, j, n)
  {
    seq(n, i requires 0 <= i < n => seq(n, j requires 0 <= j < n => Dot(a, b, i, j, n)))
  }

  function Identity(n: nat): (m: Matrix)
    ensures IsSquare(m, n)
    ensures forall i, j :: 0 <= i < n && 0 <= j < n ==> m[i][j] == if i == j then 1.0 else 0.0
  {
    seq(n, i requires 0 <= i < n => seq(n, j requires 0 <= j < n => if i == j then 1.0 else 0.0))
  }

  /** The first k products of a row of the identity pick out one entry of the column. */
  lemma {:induction false} DotIdentityLeft(b: Matrix, n: nat, row: nat, col: nat, k: nat)
    requires Covers(b, n) && row < n && col < n && k <= n
    ensures Dot(Identity(n), b, row, col, k) == if row < k then b[row][col] else 0.0
  {
    if k > 0 {
      DotIdentityLeft(b, n, row, col, k - 1);
    }
  }

  lemma {:induction false} DotIdentityRight(a: Matrix, n: nat, row: nat, col: nat, k: nat)
    requires Covers(a, n) && row < n && col < n && k <= n
    ensures Dot(a, Identity(n), row, col, k) == if col < k then a[row][col] else 0.0
  {
    if k > 0 {
      DotIdentityRight(a, n, row, col, k - 1);
    }
  }

  /** The identity is neutral for the product, on either side. */
  lemma MultiplyIdentity(m: Matrix, n: nat)
    requires Covers(m, n)
    ensures Multiply(Identity(n), m, n) == Block(m, n)
    ensures Multiply(m, Identity(n), n) == Block(m, n)
  {
    var l, r := Multiply(Identity(n), m, n), Multiply(m, Identity(n), n);
    forall i, j | 0 <= i < n && 0 <= j < n
      ensures l[i][j] == m[i][j] && r[i][j] == m[i][j]
    {
      DotIdentityLeft(m, n, i, j, n);
      DotIdentityRight(m, n, i, j, n);
    }
    SameEntries(l, Block(m, n), n);
    SameEntries(r, Block(m, n), n);
  }

  /** `calculateDeterminant`: the 2×2 formula, the 3×3 expansion along the first row, else 0. */
  function Determinant(m: Matrix, size: int): real
    requires Covers(m, 3)
  {
    if size == 2 then m[0][0] * m[1][1] - m[0][1] * m[1][0]
    else if size == 3 then
      m[0][0] * (m[1][1] * m[2][2] - m[1][2] * m[2][1])
      - m[0][1] * (m[1][0] * m[2][2] - m[1][2] * m[2][0])
      + m[0][2] * (m[1][0] * m[2][1] - m[1][1] * m[2][0])
    else 0.0
  }

  function Transpose(m: Matrix, n: nat): (t: Matrix)
    requires Covers(m, n)
    ensures IsSquare(t, n)
    ensures forall i, j :: 0 <= i < n && 0 <= j < n ==> t[i][j] == m[j][i]
  {
    seq(n, i requires 0 <= i < n => seq(n, j requires 0 <= j < n => m[j][i]))
  }

  /** The identity has determinant 1; any size other than 2 or 3 gives 0. */
  lemma DeterminantIdentity(m: Matrix, size: int)
    requires Covers(m, 3)
    ensures Determinant(Identity(3), 2) == 1.0 && Determinant(Identity(3), 3) == 1.0
    ensures size != 2 && size != 3 ==> Determinant(m, size) == 0.0
  {
  }

  /** Transposing does not change the determinant. */
  lemma DeterminantTranspose(m: Matrix, size: int)
    requires Covers(m, 3)
    ensures Determinant(Transpose(m, 3), size) == Determinant(m, size)
  {
  }

  /** Swapping the first two rows changes the sign of the determinant. */
  lemma DeterminantRowSwap(m: Matrix, size: int)
    requires Covers(m, 3)
    ensures Determinant(m[0 := m[1]][1 := m[0]], size) == -Determinant(m, size)
  {
  }

  /** The size field: the parsed integer coerced into 2..3, or 2 when it does not parse. */
  function CoerceSize(text: string): (n: nat)
    ensures 2 <= n <= 3
    ensures ParseInt(text, INT_MIN, INT_MAX).None? ==> n == 2
    ensures ParseInt(text, INT_MIN, INT_MAX).Some? && 2 <= ParseInt(text, INT_MIN, INT_MAX).value <= 3
            ==> n == ParseInt(text, INT_MIN, INT_MAX).value
    ensures ParseInt(text, INT_MIN, INT_MAX).Some? && ParseInt(text, INT_MIN, INT_MAX).value < 2 ==> n == 2
    ensures ParseInt(text, INT_MIN, INT_MAX).Some? && ParseInt(text, INT_MIN, INT_MAX).value > 3 ==> n == 3
  {
    match ParseInt(text, INT_MIN, INT_MAX)
    case None => 2
    case Some(v) => if v < 2 then 2 else if v > 3 then 3 else v
  }

  datatype Operation = Addition | Subtraction | Multiplication | DeterminantOf

  /** What "Calculer" stores: the n×n result, or the determinant as a 1×1 matrix. */
  function Compute(op: Operation, a: Matrix, b: Matrix, n: nat): (r: Matrix)
    requires Covers(a, 3) && Covers(b, 3) && n <= 3
    ensures op.DeterminantOf? ==> r == [[Determinant(a, n)]]
    ensures !op.DeterminantOf? ==> IsSquare(r, n)
  {
    match op
    case Addition => Add(a, b, n)
    case Subtraction => Subtract(a, b, n)
    case Multiplication => Multiply(a, b, n)
    case DeterminantOf => [[Determinant(a, n)]]
  }

  function Zero(): (m: Matrix)
    ensures IsSquare(m, 3) && forall i, j :: 0 <= i < 3 && 0 <= j < 3 ==> m[i][j] == 0.0
  {
    seq(3, i => seq(3, j => 0.0))
  }

  /** The 3×3 contents of a grid. */
  function Contents(m: array2<real>): (r: Matrix)
    requires m.Length0 == 3 && m.Length1 == 3
    reads m
    ensures IsSquare(r, 3) && forall i, j :: 0 <= i < 3 && 0 <= j < 3 ==> r[i][j] == m[i, j]
  {
    seq(3, i requires 0 <= i < 3 reads m => seq(3, j requires 0 <= j < 3 reads m => m[i, j]))
  }

  class MatrixCalculator {
    var size: nat
    var a: array2<real>
    var b: array2<real>
    var result: Option<Matrix>
    var operation: Operation

    predicate Valid()
      reads this
    {
      a.Length0 == 3 && a.Length1 == 3 && b.Length0 == 3 && b.Length1 == 3 && a != b && 2 <= size <= 3
    }

    constructor()
      ensures Valid() && fresh(a) && fresh(b)
      ensures size == 2 && Contents(a) == Zero() && Contents(b) == Zero()
      ensures result.None? && operation == Addition
    {
      var za := new real[3, 3]((i, j) => 0.0);
      var zb := new real[3, 3]((i, j) => 0.0);
      SameEntries(Contents(za), Zero(), 3);
      SameEntries(Contents(zb), Zero(), 3);
      size := 2;
      a, b := za, zb;
      result := None;
      operation := Addition;
    }

    /** A new size: both grids are replaced by zeros and the result is cleared. */
    method OnSizeChange(text: string)
      requires Valid()
      modifies this
      ensures Valid() && fresh(a) && fresh(b)
      ensures size == CoerceSize(text) && Contents(a) == Zero() && Contents(b) == Zero()
      ensures result.None? && operation == old(operation)
    {
      size := CoerceSize(text);
      a := new real[3, 3]((i, j) => 0.0);
      b := new real[3, 3]((i, j) => 0.0);
      result := None;
      SameEntries(Contents(a), Zero(), 3);
      SameEntries(Contents(b), Zero(), 3);
    }

    /** A cell edit: the text read as a number, 0 when it is not one, written in place. */
    method OnCellChange(inB: bool, row: nat, col: nat, text: string)
      requires Valid() && row < 3 && col < 3
      modifies if inB then b else a
      ensures Valid() && a == old(a) && b == old(b)
      ensures var v := ParseDecimal(text).GetOr(0.0);
              if inB then Contents(b) == old(Contents(b))[row := old(Contents(b))[row][col := v]]
                          && Contents(a) == old(Contents(a))
              else Contents(a) == old(Contents(a))[row := old(Contents(a))[row][col := v]]
                   && Contents(b) == old(Contents(b))
    {
      var v := ParseDecimal(text).GetOr(0.0);
      ghost var before := if inB then Contents(b) else Contents(a);
      if inB {
        b[row, col] := v;
        SameEntries(Contents(b), before[row := before[row][col := v]], 3);
      } else {
        a[row, col] := v;
        SameEntries(Contents(a), before[row := before[row][col := v]], 3);
      }
    }

    method SelectOperation(op: Operation)
      modifies this
      ensures operation == op && size == old(size) && a == old(a) && b == old(b) && result == old(result)
    {
      operation := op;
    }

    /** "Calculer": the selected operation on the size×size blocks. */
    method Calculate()
      requires Valid()
      modifies this
      ensures Valid() && size == old(size) && a == old(a) && b == old(b) && operation == old(operation)
      ensures result == Some(Compute(operation, Contents(a), Contents(b), size))
    {
      result := Some(Compute(operation, Contents(a), Contents(b), size));
    }
  }
}
