/**
 * The sparse Levenshtein matrix: distances stored per cell, with a
 * precision band around the main diagonal outside which nothing is stored.
 */
module Matrix {
  import opened Wrappers

  /** A matrix dimension; both are at least one (input length + 1). */
  type Dim = n: nat | n >= 1 witness 1

  /** Precision derived from the input size when none is given. */
  function DefaultPrecision(rows: nat, cols: nat): (p: nat)
    ensures p * 25 <= rows + cols < (p + 1) * 25
  {
    (rows + cols) / 25
  }

  /** The given precision, or the size-derived default; 0 means unlimited. */
  function ResolvePrecision(rows: nat, cols: nat, precision: Option<nat>): (p: nat)
    ensures precision.Some? ==> p == precision.value
    ensures precision.None? ==> p == DefaultPrecision(rows, cols)
    ensures precision.None? && rows + cols < 25 ==> p == 0
  {
    match precision
    case Some(v) => v
    case None => DefaultPrecision(rows, cols)
  }

  /** The one-dimensional storage key of a cell. */
  function GetCoord(cols: nat, row: nat, col: nat): nat {
    cols * col + row
  }

  /**
   * The storage key is injective on cells whose row is below `cols`, which
   * is what lets the model key the stored values by the cell itself.
   */
  lemma GetCoordInjective(cols: nat, row1: nat, col1: nat, row2: nat, col2: nat)
    requires row1 < cols && row2 < cols
    requires GetCoord(cols, row1, col1) == GetCoord(cols, row2, col2)
    ensures row1 == row2 && col1 == col2
  {
    if col1 < col2 {
      MulStep(cols, col1, col2);
    } else if col2 < col1 {
      MulStep(cols, col2, col1);
    }
  }

  lemma {:induction false} MulStep(cols: nat, a: nat, b: nat)
    requires a < b
    ensures cols * a + cols <= cols * b
    decreases b - a
  {
    assert cols * (a + 1) == cols * a + cols;
    if b > a + 1 {
      MulStep(cols, a + 1, b);
    }
  }

  /**
   * The row of the main diagonal at column `col`, `col / rows * cols`
   * rounded down (computed in whole numbers here).
   */
  function DiagonalRow(rows: Dim, cols: nat, col: nat): nat {
    col * cols / rows
  }

  /**
   * Whether a cell lies outside the precision band. Precision 0 disables
   * the band; the first and last row and column are always inside.
   */
  function IsOutsidePrecisionRange(rows: Dim, cols: Dim, precision: nat, row: nat, col: nat): (outside: bool)
    ensures precision == 0 ==> !outside
    ensures row == 0 || col == 0 || row == cols - 1 || col == rows - 1 ==> !outside
    ensures row <= precision && col <= precision ==> !outside
  {
    if precision == 0 then false
    else if row == 0 || col == 0 then false
    else if row == cols - 1 || col == rows - 1 then false
    else if row > precision && row - precision > DiagonalRow(rows, cols, col) then true
    else if col > precision && col - precision > DiagonalRow(cols, rows, row) then true
    else false
  }

  /** The value stored for a cell, if any. */
  function Stored(values: map<(nat, nat), nat>, row: nat, col: nat): (r: Option<nat>)
    ensures r.Some? <==> (row, col) in values
    ensures r.Some? ==> r.value == values[(row, col)]
  {
    if (row, col) in values then Some(values[(row, col)]) else None
  }

  /**
   * Levenshtein matrix of a source (indexing rows, `cols - 1` chunks) and a
   * destination (indexing columns, `rows - 1` chunks). The stored values
   * are keyed by cell; the C++ code keys them by `GetCoord`.
   */
  class LevenshteinMatrix {
    const rows: Dim
    const cols: Dim
    const precision: nat
    var values: map<(nat, nat), nat>

    constructor(rows: Dim, cols: Dim, precision: Option<nat>)
      ensures this.rows == rows && this.cols == cols
      ensures this.precision == ResolvePrecision(rows, cols, precision)
      ensures values == map[] && Valid()
    {
      this.rows := rows;
      this.cols := cols;
      this.precision := if precision.Some? then precision.value else (rows + cols) / 25;
      values := map[];
    }

    predicate InRange(row: nat, col: nat) {
      !IsOutsidePrecisionRange(rows, cols, precision, row, col)
    }

    /** Only cells within the precision range are ever stored. */
    predicate Valid()
      reads this
    {
      forall k :: k in values ==> InRange(k.0, k.1)
    }

    /** The stored value, present only for a set cell within the precision range. */
    function Get(row: nat, col: nat): (r: Option<nat>)
      reads this
      ensures r == if InRange(row, col) then Stored(values, row, col) else None
      ensures Valid() ==> r == Stored(values, row, col)
    {
      if !InRange(row, col) then None
      else if (row, col) !in values then None
      else Some(values[(row, col)])
    }

    /** Stores a value; a no-op outside the precision range. */
    method Set(row: nat, col: nat, value: nat)
      modifies this
      ensures !InRange(row, col) ==> values == old(values)
      ensures InRange(row, col) ==> values == old(values)[(row, col) := value]
      ensures InRange(row, col) ==> Get(row, col) == Some(value)
      ensures forall r: nat, c: nat :: (r, c) != (row, col) ==> Get(r, c) == old(Get(r, c))
      ensures old(Valid()) ==> Valid()
    {
      if InRange(row, col) {
        values := values[(row, col) := value];
      }
    }
  }
}
