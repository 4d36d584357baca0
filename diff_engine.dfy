/**
 * The generic sequence differ: filling the banded Levenshtein matrix of a
 * source and a destination chunk sequence, and walking it back from the
 * bottom-right corner to emit addition, deletion and modification deltas.
 *
 * The matrix is indexed (source position i, destination position j), with
 * 0 <= i <= |source| and 0 <= j <= |destination|.
 */
module DiffEngine {
  import opened Wrappers
  import opened Utility
  import opened Matrix
  import opened Differences

  /** Whether cell (i, j) of the matrix for `s` against `t` lies outside the precision band. */
  predicate Outside<T>(s: seq<T>, t: seq<T>, p: nat, i: nat, j: nat) {
    IsOutsidePrecisionRange(|t| + 1, |s| + 1, p, i, j)
  }

  /** Cost of the diagonal step: 0 for equal chunks, 1 otherwise. */
  function Cost<T(==)>(a: T, b: T): nat {
    if a == b then 0 else 1
  }

  /** Adds `d` to a present value (`Utility::apply` with an increment). */
  function Plus(o: Option<nat>, d: nat): (r: Option<nat>)
    ensures r.Some? <==> o.Some?
    ensures r.Some? ==> r.value == o.value + d
  {
    match o
    case None => None
    case Some(v) => Some(v + d)
  }

  /** `Plus` is `Utility::apply` of an increment by `d`. */
  lemma PlusIsApply(o: Option<nat>, d: nat)
    ensures Plus(o, d) == Apply(o, k => k + d)
  {
  }

  /**
   * The value the construction leaves in cell (i, j): absent outside the
   * band; the borders hold i and j; any other cell holds the least present
   * of top + 1, left + 1 and diagonal + cost.
   */
  function Cell<T(==)>(s: seq<T>, t: seq<T>, p: nat, i: nat, j: nat): Option<nat>
    requires i <= |s| && j <= |t|
    decreases i + j
  {
    if Outside(s, t, p, i, j) then None
    else if j == 0 then Some(i)
    else if i == 0 then Some(j)
    else LeastOf(Plus(Cell(s, t, p, i - 1, j), 1),
                 Plus(Cell(s, t, p, i, j - 1), 1),
                 Plus(Cell(s, t, p, i - 1, j - 1), Cost(s[i - 1], t[j - 1])))
  }

  /**
   * Every in-band interior cell has an in-band predecessor: the band does
   * not cut the matrix into pieces. The construction dereferences the
   * minimum of the predecessors, so it needs this.
   */
  predicate BandConnected<T>(s: seq<T>, t: seq<T>, p: nat) {
    forall i: nat, j: nat :: 1 <= i <= |s| && 1 <= j <= |t| && !Outside(s, t, p, i, j) ==>
      !Outside(s, t, p, i - 1, j) || !Outside(s, t, p, i, j - 1) || !Outside(s, t, p, i - 1, j - 1)
  }

  /** Without a band every cell is in range, so the band is trivially connected. */
  lemma UnlimitedPrecisionIsConnected<T>(s: seq<T>, t: seq<T>)
    ensures BandConnected(s, t, 0)
  {
  }

  lemma {:induction false} MulAtLeast(n: nat, k: nat)
    requires k >= 1
    ensures n * k >= n
    decreases k
  {
    if k > 1 {
      MulAtLeast(n, k - 1);
      assert n * k == n * (k - 1) + n;
    }
  }

  /** Multiplying by a positive `n` and dividing by it again gives back `a`. */
  lemma DivCancel(a: nat, n: nat)
    requires n >= 1
    ensures a * n / n == a
  {
    var q := a * n / n;
    var r := a * n % n;
    assert a * n == n * q + r && 0 <= r < n;
    assert n * (a - q) == r;
    MulAtLeast(n, if q < a then a - q else 1);
    MulAtLeast(n, if q > a then q - a else 1);
  }

  /**
   * For equally long inputs the band is a diagonal strip, connected for
   * every precision: the diagonal predecessor stays in range, except on the
   * always-kept last row or column, where the predecessor along it does.
   */
  lemma SquareBandIsConnected<T>(s: seq<T>, t: seq<T>, p: nat)
    requires |s| == |t|
    ensures BandConnected(s, t, p)
  {
    var n := |s| + 1;
    forall i: nat, j: nat | 1 <= i <= |s| && 1 <= j <= |t| && !Outside(s, t, p, i, j)
      ensures !Outside(s, t, p, i - 1, j) || !Outside(s, t, p, i, j - 1) || !Outside(s, t, p, i - 1, j - 1)
    {
      if i == |s| {
        assert !Outside(s, t, p, i, j - 1);
      } else if j == |t| {
        assert !Outside(s, t, p, i - 1, j);
      } else if i > 1 && j > 1 && p != 0 {
        DivCancel(j, n);
        DivCancel(i, n);
        DivCancel(j - 1, n);
        DivCancel(i - 1, n);
        assert !Outside(s, t, p, i - 1, j - 1);
      }
    }
  }

  /** With a connected band, a cell holds a value exactly when it is in range. */
  lemma {:induction false} CellPresent<T>(s: seq<T>, t: seq<T>, p: nat, i: nat, j: nat)
    requires i <= |s| && j <= |t| && BandConnected(s, t, p)
    ensures Cell(s, t, p, i, j).Some? <==> !Outside(s, t, p, i, j)
    decreases i + j
  {
    if !Outside(s, t, p, i, j) && i != 0 && j != 0 {
      CellPresent(s, t, p, i - 1, j);
      CellPresent(s, t, p, i, j - 1);
      CellPresent(s, t, p, i - 1, j - 1);
      LeastOfIsLeast(Plus(Cell(s, t, p, i - 1, j), 1), Plus(Cell(s, t, p, i, j - 1), 1),
                     Plus(Cell(s, t, p, i - 1, j - 1), Cost(s[i - 1], t[j - 1])));
    }
  }

  /** The bottom-right corner, where the backtrack starts, always holds a value when the band is connected. */
  lemma CornerPresent<T>(s: seq<T>, t: seq<T>, p: nat)
    requires BandConnected(s, t, p)
    ensures Cell(s, t, p, |s|, |t|).Some?
  {
    CellPresent(s, t, p, |s|, |t|);
  }

  /**
   * The minimum the C++ fill loop computes at interior cell (i, j) from its
   * three predecessors, whether or not (i, j) is in the band. In the band it
   * is the cell's defined value.
   */
  function Candidates<T(==)>(s: seq<T>, t: seq<T>, p: nat, i: nat, j: nat): (r: Option<nat>)
    requires 1 <= i <= |s| && 1 <= j <= |t|
    ensures !Outside(s, t, p, i, j) ==> r == Cell(s, t, p, i, j)
  {
    LeastOf(Plus(Cell(s, t, p, i - 1, j), 1),
            Plus(Cell(s, t, p, i, j - 1), 1),
            Plus(Cell(s, t, p, i - 1, j - 1), Cost(s[i - 1], t[j - 1])))
  }

  /**
   * What the fill loop as written needs: it dereferences the minimum at
   * every interior cell, off-band cells included, so every one of them must
   * have a present candidate.
   */
  predicate FillDefinedAsWritten<T(==)>(s: seq<T>, t: seq<T>, p: nat) {
    forall i: nat, j: nat :: 1 <= i <= |s| && 1 <= j <= |t| ==> Candidates(s, t, p, i, j).Some?
  }

  /**
   * Two inputs of 99 chunks each at the default precision 8: the band is
   * connected, yet off-band cell (50, 10) has all three predecessors off the
   * band too, so the fill loop as written dereferences an empty minimum.
   */
  lemma SquareBandFillUndefined<T>(s: seq<T>, t: seq<T>)
    requires |s| == 99 && |t| == 99
    ensures var p := ResolvePrecision(|t| + 1, |s| + 1, None);
      && p == 8 && BandConnected(s, t, p) && Outside(s, t, p, 50, 10)
      && !FillDefinedAsWritten(s, t, p)
  {
    var p := ResolvePrecision(|t| + 1, |s| + 1, None);
    assert p == 8;
    SquareBandIsConnected(s, t, p);
    CornerOffBand(s, t);
    assert Cell(s, t, p, 49, 10) == None && Cell(s, t, p, 50, 9) == None && Cell(s, t, p, 49, 9) == None;
    assert Candidates(s, t, p, 50, 10).None?;
  }

  /** Cell (50, 10) and its three predecessors lie outside the precision-8 band of two 99-chunk inputs. */
  lemma CornerOffBand<T>(s: seq<T>, t: seq<T>)
    requires |s| == 99 && |t| == 99
    ensures Outside(s, t, 8, 50, 10) && Outside(s, t, 8, 49, 10)
    ensures Outside(s, t, 8, 50, 9) && Outside(s, t, 8, 49, 9)
  {
    assert DiagonalRow(100, 100, 10) == 10 && DiagonalRow(100, 100, 9) == 9;
  }

  /**
   * On a connected band every in-band interior cell has a present minimum:
   * a fill that skips the off-band cells never dereferences an empty one.
   */
  lemma InBandCandidatesPresent<T>(s: seq<T>, t: seq<T>, p: nat, i: nat, j: nat)
    requires 1 <= i <= |s| && 1 <= j <= |t| && BandConnected(s, t, p) && !Outside(s, t, p, i, j)
    ensures Candidates(s, t, p, i, j).Some?
  {
    CellPresent(s, t, p, i, j);
  }


  // ---------------------------------------------------------------------
  // The backtrack
  // ---------------------------------------------------------------------

  /** The stored values of a matrix, keyed by cell, as the backtrack reads them. */
  type Grid = map<(nat, nat), nat>

  /** The grid stores exactly the values the construction defines, cell by cell. */
  ghost predicate HoldsCells<T>(g: Grid, s: seq<T>, t: seq<T>, p: nat) {
    forall i: nat, j: nat {:trigger Cell(s, t, p, i, j)} :: i <= |s| && j <= |t| ==> Stored(g, i, j) == Cell(s, t, p, i, j)
  }

  /** The backtrack's move out of a cell: a silent diagonal step, or one of the three edits. */
  datatype Step = Keep | Modify | Add | Delete

  /** The neighbours of cell (i, j); a neighbour outside the matrix is absent. */
  function Top(g: Grid, i: nat, j: nat): Option<nat> {
    if i != 0 then Stored(g, i - 1, j) else None
  }

  function Left(g: Grid, i: nat, j: nat): Option<nat> {
    if j != 0 then Stored(g, i, j - 1) else None
  }

  function Diag(g: Grid, i: nat, j: nat): Option<nat> {
    if i != 0 && j != 0 then Stored(g, i - 1, j - 1) else None
  }

  /** No neighbour holds a value: the C++ code would step outside the matrix from here. */
  predicate Stuck(g: Grid, i: nat, j: nat) {
    Left(g, i, j).None? && Top(g, i, j).None? && Diag(g, i, j).None?
  }

  /** The neighbour a move goes to. */
  function Target(g: Grid, i: nat, j: nat, step: Step): Option<nat> {
    match step
    case Keep => Diag(g, i, j)
    case Modify => Diag(g, i, j)
    case Add => Left(g, i, j)
    case Delete => Top(g, i, j)
  }

  /**
   * The least of three optional values under the optional comparison,
   * spelled out without the comparator argument: a first-order form that
   * keeps proofs cheap, bridged to the C++ code's three-way minimum `Min3`
   * by `LeastOfIsMin3`.
   */
  function LeastOf(a: Option<nat>, b: Option<nat>, c: Option<nat>): Option<nat> {
    if CmpOptionals(a, b) then (if CmpOptionals(a, c) then a else c)
    else if CmpOptionals(b, c) then b else c
  }

  lemma LeastOfIsMin3(a: Option<nat>, b: Option<nat>, c: Option<nat>)
    ensures LeastOf(a, b, c) == Min3(a, b, c, CmpOptionals)
  {
  }

  /** The least of three is one of them, none is below it, and it is absent only when all three are. */
  lemma LeastOfIsLeast(a: Option<nat>, b: Option<nat>, c: Option<nat>)
    ensures var r := LeastOf(a, b, c);
      && (r == a || r == b || r == c)
      && !CmpOptionals(a, r) && !CmpOptionals(b, r) && !CmpOptionals(c, r)
      && (r.None? <==> a.None? && b.None? && c.None?)
  {
    LeastOfIsMin3(a, b, c);
    Min3OptionalsIsLeast(a, b, c);
  }

  /**
   * The move out of cell (i, j): it goes to a least neighbour, the diagonal
   * when that is least, else the left one (an addition), else the top one
   * (a deletion); a diagonal move is silent when the cell equals its
   * diagonal neighbour.
   */
  function NextStep(g: Grid, i: nat, j: nat): Step {
    var minimum := LeastOf(Left(g, i, j), Top(g, i, j), Diag(g, i, j));
    if minimum == Diag(g, i, j) then
      if Stored(g, i, j) == Diag(g, i, j) then Keep else Modify
    else if minimum == Left(g, i, j) then Add
    else Delete
  }

  /**
   * The move goes to a present neighbour unless all are absent, and to a
   * least one; the left one only when it is less than the diagonal, the top
   * one only when it is less than both others; a diagonal move is silent
   * exactly when the cell equals its diagonal neighbour.
   */
  lemma NextStepIsLeast(g: Grid, i: nat, j: nat)
    ensures var step := NextStep(g, i, j);
      var target := Target(g, i, j, step);
      && (!Stuck(g, i, j) ==> target.Some?)
      && !CmpOptionals(Left(g, i, j), target) && !CmpOptionals(Top(g, i, j), target)
      && !CmpOptionals(Diag(g, i, j), target)
      && (step.Add? ==> CmpOptionals(Left(g, i, j), Diag(g, i, j)))
      && (step.Delete? ==> CmpOptionals(Top(g, i, j), Diag(g, i, j)) && CmpOptionals(Top(g, i, j), Left(g, i, j)))
      && (step.Keep? <==> (step.Keep? || step.Modify?) && Stored(g, i, j) == Diag(g, i, j))
  {
    LeastOfIsLeast(Left(g, i, j), Top(g, i, j), Diag(g, i, j));
  }

  /** How the chunks of each side are shown, and the source context of a change at an offset. */
  datatype Presenter = Presenter(
    sourceDisplay: seq<string>,
    destinationDisplay: seq<string>,
    context: nat -> DataContext)

  predicate Fits<T>(s: seq<T>, t: seq<T>, pres: Presenter) {
    |pres.sourceDisplay| == |s| && |pres.destinationDisplay| == |t|
  }

  predicate InGrid(i: nat, j: nat, pres: Presenter) {
    i <= |pres.sourceDisplay| && j <= |pres.destinationDisplay|
  }

  /** The delta a move out of (i, j) emits; the context is taken at source offset `i - 1` on `size_t`. */
  function EditDelta(step: Step, i: nat, j: nat, pres: Presenter): DataDelta
    requires step != Keep && InGrid(i, j, pres)
    requires step == Delete ==> i >= 1
    requires step != Delete ==> j >= 1
  {
    var ctx := pres.context(SizeDec(i));
    match step
    case Modify => DataDelta(Modification, [pres.destinationDisplay[j - 1]], ctx, i, j, 1, 1)
    case Add => DataDelta(Addition, [pres.destinationDisplay[j - 1]], ctx, i, j, 0, 1)
    case Delete => DataDelta(Deletion, [pres.sourceDisplay[i - 1]], ctx, i, j, 1, 0)
  }

  /**
   * The deltas of the backtrack from (i, j) to (0, 0), in ascending order
   * (the order after the final reversal). A stuck walk stops; the lemmas
   * below show this cannot happen on a matrix the construction built.
   */
  function Script(g: Grid, i: nat, j: nat, pres: Presenter): seq<DataDelta>
    requires InGrid(i, j, pres)
    decreases i + j
  {
    if (i == 0 && j == 0) || Stuck(g, i, j) then []
    else
      match NextStep(g, i, j)
      case Keep => Script(g, i - 1, j - 1, pres)
      case Modify => Script(g, i - 1, j - 1, pres) + [EditDelta(Modify, i, j, pres)]
      case Add => Script(g, i, j - 1, pres) + [EditDelta(Add, i, j, pres)]
      case Delete => Script(g, i - 1, j, pres) + [EditDelta(Delete, i, j, pres)]
  }

  /** One unfolding of `Script`: the deltas before the cell the move reaches, then the delta the move emits. */
  lemma ScriptUnfold(g: Grid, i: nat, j: nat, pres: Presenter)
    requires InGrid(i, j, pres) && (i != 0 || j != 0) && !Stuck(g, i, j)
    ensures match NextStep(g, i, j)
      case Keep => i >= 1 && j >= 1 && Script(g, i, j, pres) == Script(g, i - 1, j - 1, pres)
      case Modify => i >= 1 && j >= 1
        && Script(g, i, j, pres) == Script(g, i - 1, j - 1, pres) + [EditDelta(Modify, i, j, pres)]
      case Add => j >= 1 && Script(g, i, j, pres) == Script(g, i, j - 1, pres) + [EditDelta(Add, i, j, pres)]
      case Delete => (i >= 1 && Script(g, i, j, pres) == Script(g, i - 1, j, pres) + [EditDelta(Delete, i, j, pres)])
  {
  }

  /**
   * One unfolding of `Script` told by the cell the move reaches and the
   * deltas it emits: nothing for a silent diagonal move, else one delta.
   */
  lemma ScriptMove(g: Grid, i: nat, j: nat, pres: Presenter) returns (ni: nat, nj: nat, emitted: seq<DataDelta>)
    requires InGrid(i, j, pres) && (i != 0 || j != 0) && !Stuck(g, i, j)
    ensures var step := NextStep(g, i, j);
      && (step == Keep || step == Modify ==> i >= 1 && j >= 1 && (ni, nj) == (i - 1, j - 1))
      && (step == Add ==> j >= 1 && (ni, nj) == (i, j - 1))
      && (step == Delete ==> i >= 1 && (ni, nj) == (i - 1, j))
      && (step == Keep <==> emitted == [])
      && (step != Keep ==> emitted == [EditDelta(step, i, j, pres)])
    ensures InGrid(ni, nj, pres) && ni + nj < i + j && Target(g, i, j, NextStep(g, i, j)) == Stored(g, ni, nj)
    ensures Script(g, i, j, pres) == Script(g, ni, nj, pres) + emitted
  {
    ScriptUnfold(g, i, j, pres);
    match NextStep(g, i, j)
    case Keep =>
      ni, nj, emitted := i - 1, j - 1, [];
    case Modify =>
      ni, nj, emitted := i - 1, j - 1, [EditDelta(Modify, i, j, pres)];
    case Add =>
      ni, nj, emitted := i, j - 1, [EditDelta(Add, i, j, pres)];
    case Delete =>
      ni, nj, emitted := i - 1, j, [EditDelta(Delete, i, j, pres)];
  }

  /**
   * The matrix rule against the backtrack rule, on the three neighbour
   * values: the neighbour the backtrack picks is present, and the cell is
   * that neighbour plus the cost of the move.
   */
  lemma MinimumStep(top: Option<nat>, left: Option<nat>, diag: Option<nat>, c: nat)
    requires c <= 1
    requires LeastOf(Plus(top, 1), Plus(left, 1), Plus(diag, c)).Some?
    ensures var v := LeastOf(Plus(top, 1), Plus(left, 1), Plus(diag, c));
            var minimum := LeastOf(left, top, diag);
      && (minimum == diag ==> diag.Some? && v.value == diag.value + c)
      && (minimum != diag && minimum == left ==> left.Some? && v.value == left.value + 1)
      && (minimum != diag && minimum != left && minimum == top ==> top.Some? && v.value == top.value + 1)
  {
    LeastOfIsLeast(left, top, diag);
    LeastOfIsLeast(Plus(top, 1), Plus(left, 1), Plus(diag, c));
  }

  /**
   * One move of the backtrack over a built matrix, from a cell holding a
   * value: the walk is not stuck, it reaches a cell holding a value,
   * smaller by 1 for an edit and equal for a silent step; a silent step
   * happens only on equal chunks, a modification only on different ones.
   */
  lemma StepFacts<T>(g: Grid, s: seq<T>, t: seq<T>, p: nat, i: nat, j: nat)
    requires HoldsCells(g, s, t, p) && i <= |s| && j <= |t| && (i != 0 || j != 0) && Stored(g, i, j).Some?
    ensures !Stuck(g, i, j)
    ensures match NextStep(g, i, j)
      case Keep => i >= 1 && j >= 1 && Stored(g, i - 1, j - 1) == Stored(g, i, j) && s[i - 1] == t[j - 1]
      case Modify => i >= 1 && j >= 1 && Stored(g, i - 1, j - 1).Some? && s[i - 1] != t[j - 1]
                     && Stored(g, i, j).value == Stored(g, i - 1, j - 1).value + 1
      case Add => j >= 1 && Stored(g, i, j - 1).Some? && Stored(g, i, j).value == Stored(g, i, j - 1).value + 1
      case Delete => i >= 1 && Stored(g, i - 1, j).Some? && Stored(g, i, j).value == Stored(g, i - 1, j).value + 1
  {
    assert Stored(g, i, j) == Cell(s, t, p, i, j);
    if i == 0 {
      assert Stored(g, i, j - 1) == Cell(s, t, p, i, j - 1);
    } else if j == 0 {
      assert Stored(g, i - 1, j) == Cell(s, t, p, i - 1, j);
    } else {
      assert Stored(g, i - 1, j) == Cell(s, t, p, i - 1, j);
      assert Stored(g, i, j - 1) == Cell(s, t, p, i, j - 1);
      assert Stored(g, i - 1, j - 1) == Cell(s, t, p, i - 1, j - 1);
      MinimumStep(Cell(s, t, p, i - 1, j), Cell(s, t, p, i, j - 1), Cell(s, t, p, i - 1, j - 1), Cost(s[i - 1], t[j - 1]));
    }
  }

  /** On a built matrix the walk from any cell holding a value never gets stuck. */
  lemma NeverStuck<T>(g: Grid, s: seq<T>, t: seq<T>, p: nat)
    requires HoldsCells(g, s, t, p)
    ensures forall i: nat, j: nat :: i <= |s| && j <= |t| && (i != 0 || j != 0) && Stored(g, i, j).Some? ==> !Stuck(g, i, j)
  {
    forall i: nat, j: nat | i <= |s| && j <= |t| && (i != 0 || j != 0) && Stored(g, i, j).Some?
      ensures !Stuck(g, i, j)
    {
      StepFacts(g, s, t, p, i, j);
    }
  }

  /** The number of emitted deltas equals the value in the starting cell. */
  lemma {:induction false} ScriptLength<T>(g: Grid, s: seq<T>, t: seq<T>, p: nat, i: nat, j: nat, pres: Presenter)
    requires HoldsCells(g, s, t, p) && i <= |s| && j <= |t| && Fits(s, t, pres) && Stored(g, i, j).Some?
    ensures |Script(g, i, j, pres)| == Stored(g, i, j).value
    decreases i + j
  {
    if i == 0 && j == 0 {
      assert Stored(g, 0, 0) == Cell(s, t, p, 0, 0);
    } else {
      StepFacts(g, s, t, p, i, j);
      ScriptUnfold(g, i, j, pres);
      match NextStep(g, i, j)
      case Keep => ScriptLength(g, s, t, p, i - 1, j - 1, pres);
      case Modify => ScriptLength(g, s, t, p, i - 1, j - 1, pres);
      case Add => ScriptLength(g, s, t, p, i, j - 1, pres);
      case Delete => ScriptLength(g, s, t, p, i - 1, j, pres);
    }
  }

  /** The delta a move out of (i, j) emits has one of three shapes, with the context at offset i - 1. */
  predicate Shaped(d: DataDelta, pres: Presenter) {
    && d.sourceFileContext == pres.context(SizeDec(d.indicatorSource))
    && match d.kind
       case Modification =>
         && 1 <= d.indicatorSource <= |pres.sourceDisplay| && 1 <= d.indicatorDestination <= |pres.destinationDisplay|
         && d.indicatorSourceLen == 1 && d.indicatorDestLen == 1
         && d.deltaInfo == [pres.destinationDisplay[d.indicatorDestination - 1]]
       case Addition =>
         && d.indicatorSource <= |pres.sourceDisplay| && 1 <= d.indicatorDestination <= |pres.destinationDisplay|
         && d.indicatorSourceLen == 0 && d.indicatorDestLen == 1
         && d.deltaInfo == [pres.destinationDisplay[d.indicatorDestination - 1]]
       case Deletion =>
         && 1 <= d.indicatorSource <= |pres.sourceDisplay| && d.indicatorDestination <= |pres.destinationDisplay|
         && d.indicatorSourceLen == 1 && d.indicatorDestLen == 0
         && d.deltaInfo == [pres.sourceDisplay[d.indicatorSource - 1]]
  }

  lemma EditDeltaShaped(step: Step, i: nat, j: nat, pres: Presenter)
    requires step != Keep && InGrid(i, j, pres)
    requires step == Delete ==> i >= 1
    requires step != Delete ==> j >= 1
    requires step == Modify ==> i >= 1
    ensures Shaped(EditDelta(step, i, j, pres), pres)
    ensures EditDelta(step, i, j, pres).indicatorSource == i && EditDelta(step, i, j, pres).indicatorDestination == j
  {
  }

  /**
   * Deltas in ascending order of both positions, none past (i, j), each of
   * one of the three shapes; stated from the last delta backwards.
   */
  predicate OrderedUpTo(script: seq<DataDelta>, i: nat, j: nat, pres: Presenter)
    decreases |script|
  {
    script == [] ||
      var d := script[|script| - 1];
      && d.indicatorSource <= i && d.indicatorDestination <= j && Shaped(d, pres)
      && OrderedUpTo(script[..|script| - 1], d.indicatorSource, d.indicatorDestination, pres)
  }

  /** The same property, stated over every delta and every pair of deltas. */
  lemma {:induction false} OrderedUpToMeans(script: seq<DataDelta>, i: nat, j: nat, pres: Presenter)
    requires OrderedUpTo(script, i, j, pres)
    ensures forall k :: 0 <= k < |script| ==>
      script[k].indicatorSource <= i && script[k].indicatorDestination <= j && Shaped(script[k], pres)
    ensures forall a, b :: 0 <= a < b < |script| ==>
      script[a].indicatorSource <= script[b].indicatorSource
      && script[a].indicatorDestination <= script[b].indicatorDestination
    decreases |script|
  {
    if script != [] {
      var n := |script| - 1;
      var d := script[n];
      var init := script[..n];
      OrderedUpToMeans(init, d.indicatorSource, d.indicatorDestination, pres);
      assert forall k :: 0 <= k < n ==> script[k] == init[k];
    }
  }

  lemma OrderedWiden(script: seq<DataDelta>, i: nat, j: nat, i': nat, j': nat, pres: Presenter)
    requires OrderedUpTo(script, i, j, pres) && i <= i' && j <= j'
    ensures OrderedUpTo(script, i', j', pres)
  {
  }

  lemma OrderedAppend(script: seq<DataDelta>, i: nat, j: nat, d: DataDelta, pres: Presenter)
    requires OrderedUpTo(script, i, j, pres) && i <= d.indicatorSource && j <= d.indicatorDestination
    requires Shaped(d, pres)
    ensures OrderedUpTo(script + [d], d.indicatorSource, d.indicatorDestination, pres)
  {
    assert (script + [d])[..|script|] == script;
    OrderedWiden(script, i, j, d.indicatorSource, d.indicatorDestination, pres);
  }

  /**
   * The deltas come in ascending order of both positions, none past the
   * starting cell, each of one of the three shapes.
   */
  lemma {:induction false} ScriptOrdered(g: Grid, i: nat, j: nat, pres: Presenter)
    requires InGrid(i, j, pres)
    ensures OrderedUpTo(Script(g, i, j, pres), i, j, pres)
    decreases i + j
  {
    if (i != 0 || j != 0) && !Stuck(g, i, j) {
      var ni, nj, emitted := ScriptMove(g, i, j, pres);
      ScriptOrdered(g, ni, nj, pres);
      if emitted == [] {
        OrderedWiden(Script(g, ni, nj, pres), ni, nj, i, j, pres);
      } else {
        EditDeltaShaped(NextStep(g, i, j), i, j, pres);
        OrderedAppend(Script(g, ni, nj, pres), ni, nj, emitted[0], pres);
      }
    }
  }

  // ---------------------------------------------------------------------
  // The script is a patch
  // ---------------------------------------------------------------------

  /** Chunks that compare equal are displayed alike. */
  predicate DisplaysAgree<T(==)>(s: seq<T>, t: seq<T>, pres: Presenter)
    requires Fits(s, t, pres)
  {
    forall a, b :: 0 <= a < |s| && 0 <= b < |t| && s[a] == t[b] ==>
      pres.sourceDisplay[a] == pres.destinationDisplay[b]
  }
  /** Applying a list whose last delta is `d`: `d` goes first. */
  lemma ApplyPatchOfAppend(src: seq<string>, prev: seq<DataDelta>, d: DataDelta)
    ensures ApplyPatch(src, prev + [d]) == ApplyPatch(ApplyDelta(src, d), prev)
  {
    assert (prev + [d])[..|prev + [d]| - 1] == prev;
  }

  /** An addition after chunk i of a sequence whose first i chunks are `head`. */
  lemma ApplyAddition(head: seq<string>, rest: seq<string>, x: string, ctx: DataContext, j: nat)
    ensures ApplyDelta(head + rest, DataDelta(Addition, [x], ctx, |head|, j, 0, 1)) == head + ([x] + rest)
  {
    var input := head + rest;
    assert Take(input, |head|) == head;
    assert Drop(input, |head|) == rest;
  }

  /** A one-chunk deletion of the chunk right after `head`. */
  lemma ApplyDeletion(head: seq<string>, gone: string, rest: seq<string>, ctx: DataContext, j: nat)
    ensures ApplyDelta(head + [gone] + rest, DataDelta(Deletion, [gone], ctx, |head| + 1, j, 1, 0)) == head + rest
  {
    var input := head + [gone] + rest;
    assert Take(input, |head|) == head;
    assert Drop(input, |head| + 1) == rest;
  }

  /** A one-chunk modification of the chunk right after `head`. */
  lemma ApplyModification(head: seq<string>, gone: string, rest: seq<string>, x: string, ctx: DataContext, j: nat)
    ensures ApplyDelta(head + [gone] + rest, DataDelta(Modification, [x], ctx, |head| + 1, j, 1, 1)) == head + ([x] + rest)
  {
    var input := head + [gone] + rest;
    assert Take(input, |head|) == head;
    assert Drop(input, |head| + 1) == rest;
  }

  lemma SplitLast(xs: seq<string>, k: nat)
    requires 1 <= k <= |xs|
    ensures xs[..k] == xs[..k - 1] + [xs[k - 1]]
  {
  }

  /** The cases of `ScriptApplies` on plain sequences: each move keeps "prefix of source + rest" in step. */
  lemma PatchAfterKeep(src: seq<string>, dst: seq<string>, i: nat, j: nat, rest: seq<string>, prev: seq<DataDelta>)
    requires 1 <= i <= |src| && 1 <= j <= |dst| && src[i - 1] == dst[j - 1]
    requires ApplyPatch(src[..i - 1] + ([dst[j - 1]] + rest), prev) == dst[..j - 1] + ([dst[j - 1]] + rest)
    ensures ApplyPatch(src[..i] + rest, prev) == dst[..j] + rest
  {
    assert src[..i] + rest == src[..i - 1] + ([dst[j - 1]] + rest) by {
      SplitLast(src, i);
    }
    assert dst[..j - 1] + ([dst[j - 1]] + rest) == dst[..j] + rest by {
      SplitLast(dst, j);
    }
  }

  lemma PatchAfterModify(src: seq<string>, dst: seq<string>, i: nat, j: nat, rest: seq<string>, prev: seq<DataDelta>, ctx: DataContext)
    requires 1 <= i <= |src| && 1 <= j <= |dst|
    requires ApplyPatch(src[..i - 1] + ([dst[j - 1]] + rest), prev) == dst[..j - 1] + ([dst[j - 1]] + rest)
    ensures ApplyPatch(src[..i] + rest, prev + [DataDelta(Modification, [dst[j - 1]], ctx, i, j, 1, 1)]) == dst[..j] + rest
  {
    var d := DataDelta(Modification, [dst[j - 1]], ctx, i, j, 1, 1);
    ApplyPatchOfAppend(src[..i] + rest, prev, d);
    assert ApplyDelta(src[..i] + rest, d) == src[..i - 1] + ([dst[j - 1]] + rest) by {
      SplitLast(src, i);
      assert src[..i] + rest == src[..i - 1] + [src[i - 1]] + rest;
      ApplyModification(src[..i - 1], src[i - 1], rest, dst[j - 1], ctx, j);
    }
    assert dst[..j - 1] + ([dst[j - 1]] + rest) == dst[..j] + rest by {
      SplitLast(dst, j);
    }
  }

  lemma PatchAfterAdd(src: seq<string>, dst: seq<string>, i: nat, j: nat, rest: seq<string>, prev: seq<DataDelta>, ctx: DataContext)
    requires i <= |src| && 1 <= j <= |dst|
    requires ApplyPatch(src[..i] + ([dst[j - 1]] + rest), prev) == dst[..j - 1] + ([dst[j - 1]] + rest)
    ensures ApplyPatch(src[..i] + rest, prev + [DataDelta(Addition, [dst[j - 1]], ctx, i, j, 0, 1)]) == dst[..j] + rest
  {
    var d := DataDelta(Addition, [dst[j - 1]], ctx, i, j, 0, 1);
    ApplyPatchOfAppend(src[..i] + rest, prev, d);
    ApplyAddition(src[..i], rest, dst[j - 1], ctx, j);
    assert dst[..j - 1] + ([dst[j - 1]] + rest) == dst[..j] + rest by {
      SplitLast(dst, j);
    }
  }

  lemma PatchAfterDelete(src: seq<string>, dst: seq<string>, i: nat, j: nat, rest: seq<string>, prev: seq<DataDelta>, ctx: DataContext)
    requires 1 <= i <= |src| && j <= |dst|
    requires ApplyPatch(src[..i - 1] + rest, prev) == dst[..j] + rest
    ensures ApplyPatch(src[..i] + rest, prev + [DataDelta(Deletion, [src[i - 1]], ctx, i, j, 1, 0)]) == dst[..j] + rest
  {
    var d := DataDelta(Deletion, [src[i - 1]], ctx, i, j, 1, 0);
    ApplyPatchOfAppend(src[..i] + rest, prev, d);
    assert ApplyDelta(src[..i] + rest, d) == src[..i - 1] + rest by {
      SplitLast(src, i);
      assert src[..i] + rest == src[..i - 1] + [src[i - 1]] + rest;
      ApplyDeletion(src[..i - 1], src[i - 1], rest, ctx, j);
    }
  }

  /**
   * Applying the emitted deltas to the source displays gives the destination
   * displays: the script is a correct patch, for any precision.
   */
  lemma {:induction false} ScriptApplies<T>(g: Grid, s: seq<T>, t: seq<T>, p: nat, i: nat, j: nat, pres: Presenter, rest: seq<string>)
    requires HoldsCells(g, s, t, p) && i <= |s| && j <= |t| && Fits(s, t, pres) && DisplaysAgree(s, t, pres)
    requires Stored(g, i, j).Some?
    ensures ApplyPatch(pres.sourceDisplay[..i] + rest, Script(g, i, j, pres)) == pres.destinationDisplay[..j] + rest
    decreases i + j
  {
    if i != 0 || j != 0 {
      var i', j', rest' := AppliesStep(g, s, t, p, i, j, pres, rest);
      ScriptApplies(g, s, t, p, i', j', pres, rest');
    }
  }

  /**
   * One move of the backtrack out of (i, j): the cell it reaches and the
   * tail the rest of the patch must then produce, such that a correct
   * patch from there is a correct patch from (i, j).
   */
  lemma AppliesStep<T>(g: Grid, s: seq<T>, t: seq<T>, p: nat, i: nat, j: nat, pres: Presenter, rest: seq<string>)
    returns (i': nat, j': nat, rest': seq<string>)
    requires HoldsCells(g, s, t, p) && i <= |s| && j <= |t| && Fits(s, t, pres) && DisplaysAgree(s, t, pres)
    requires Stored(g, i, j).Some? && (i != 0 || j != 0)
    ensures i' <= i && j' <= j && i' + j' < i + j && Stored(g, i', j').Some?
    ensures ApplyPatch(pres.sourceDisplay[..i'] + rest', Script(g, i', j', pres)) == pres.destinationDisplay[..j'] + rest'
      ==> ApplyPatch(pres.sourceDisplay[..i] + rest, Script(g, i, j, pres)) == pres.destinationDisplay[..j] + rest
  {
    var src := pres.sourceDisplay;
    var dst := pres.destinationDisplay;
    StepFacts(g, s, t, p, i, j);
    match NextStep(g, i, j)
    case Keep =>
      i', j', rest' := i - 1, j - 1, [dst[j - 1]] + rest;
      if ApplyPatch(src[..i'] + rest', Script(g, i', j', pres)) == dst[..j'] + rest' {
        KeepApplies(g, i, j, pres, rest);
      }
    case Modify =>
      i', j', rest' := i - 1, j - 1, [dst[j - 1]] + rest;
      if ApplyPatch(src[..i'] + rest', Script(g, i', j', pres)) == dst[..j'] + rest' {
        ModifyApplies(g, i, j, pres, rest);
      }
    case Add =>
      i', j', rest' := i, j - 1, [dst[j - 1]] + rest;
      if ApplyPatch(src[..i'] + rest', Script(g, i', j', pres)) == dst[..j'] + rest' {
        AddApplies(g, i, j, pres, rest);
      }
    case Delete =>
      i', j', rest' := i - 1, j, rest;
      if ApplyPatch(src[..i'] + rest', Script(g, i', j', pres)) == dst[..j'] + rest' {
        DeleteApplies(g, i, j, pres, rest);
      }
  }

  /** A silent diagonal move keeps the patch correct when the two displayed chunks are equal. */
  lemma KeepApplies(g: Grid, i: nat, j: nat, pres: Presenter, rest: seq<string>)
    requires InGrid(i, j, pres) && 1 <= i && 1 <= j && !Stuck(g, i, j) && NextStep(g, i, j) == Keep
    requires pres.sourceDisplay[i - 1] == pres.destinationDisplay[j - 1]
    requires var dst := pres.destinationDisplay;
      ApplyPatch(pres.sourceDisplay[..i - 1] + ([dst[j - 1]] + rest), Script(g, i - 1, j - 1, pres))
        == dst[..j - 1] + ([dst[j - 1]] + rest)
    ensures ApplyPatch(pres.sourceDisplay[..i] + rest, Script(g, i, j, pres)) == pres.destinationDisplay[..j] + rest
  {
    ScriptUnfold(g, i, j, pres);
    PatchAfterKeep(pres.sourceDisplay, pres.destinationDisplay, i, j, rest, Script(g, i - 1, j - 1, pres));
  }

  /** A diagonal move emitting a modification keeps the patch correct. */
  lemma ModifyApplies(g: Grid, i: nat, j: nat, pres: Presenter, rest: seq<string>)
    requires InGrid(i, j, pres) && 1 <= i && 1 <= j && !Stuck(g, i, j) && NextStep(g, i, j) == Modify
    requires var dst := pres.destinationDisplay;
      ApplyPatch(pres.sourceDisplay[..i - 1] + ([dst[j - 1]] + rest), Script(g, i - 1, j - 1, pres))
        == dst[..j - 1] + ([dst[j - 1]] + rest)
    ensures ApplyPatch(pres.sourceDisplay[..i] + rest, Script(g, i, j, pres)) == pres.destinationDisplay[..j] + rest
  {
    ScriptUnfold(g, i, j, pres);
    PatchAfterModify(pres.sourceDisplay, pres.destinationDisplay, i, j, rest, Script(g, i - 1, j - 1, pres),
                     pres.context(SizeDec(i)));
  }

  /** A move left emitting an addition keeps the patch correct. */
  lemma AddApplies(g: Grid, i: nat, j: nat, pres: Presenter, rest: seq<string>)
    requires InGrid(i, j, pres) && 1 <= j && (i != 0 || j != 0) && !Stuck(g, i, j) && NextStep(g, i, j) == Add
    requires var dst := pres.destinationDisplay;
      ApplyPatch(pres.sourceDisplay[..i] + ([dst[j - 1]] + rest), Script(g, i, j - 1, pres))
        == dst[..j - 1] + ([dst[j - 1]] + rest)
    ensures ApplyPatch(pres.sourceDisplay[..i] + rest, Script(g, i, j, pres)) == pres.destinationDisplay[..j] + rest
  {
    ScriptUnfold(g, i, j, pres);
    PatchAfterAdd(pres.sourceDisplay, pres.destinationDisplay, i, j, rest, Script(g, i, j - 1, pres),
                  pres.context(SizeDec(i)));
  }

  /** A move up emitting a deletion keeps the patch correct. */
  lemma DeleteApplies(g: Grid, i: nat, j: nat, pres: Presenter, rest: seq<string>)
    requires InGrid(i, j, pres) && 1 <= i && !Stuck(g, i, j) && NextStep(g, i, j) == Delete
    requires ApplyPatch(pres.sourceDisplay[..i - 1] + rest, Script(g, i - 1, j, pres)) == pres.destinationDisplay[..j] + rest
    ensures ApplyPatch(pres.sourceDisplay[..i] + rest, Script(g, i, j, pres)) == pres.destinationDisplay[..j] + rest
  {
    ScriptUnfold(g, i, j, pres);
    PatchAfterDelete(pres.sourceDisplay, pres.destinationDisplay, i, j, rest, Script(g, i - 1, j, pres),
                     pres.context(SizeDec(i)));
  }

  /** In the matrix of a sequence against itself every diagonal cell holds 0. */
  lemma {:induction false} SelfDiagonalIsZero<T>(s: seq<T>, p: nat, i: nat)
    requires i <= |s|
    ensures Cell(s, s, p, i, i) == Some(0)
  {
    if i != 0 {
      SelfDiagonalIsZero(s, p, i - 1);
      DivCancel(i, |s| + 1);
      assert !Outside(s, s, p, i, i);
      LeastOfIsLeast(Plus(Cell(s, s, p, i - 1, i), 1), Plus(Cell(s, s, p, i, i - 1), 1), Some(0));
    }
  }

  /** Diffing a sequence against itself emits no delta, for any precision. */
  lemma SelfDiffIsEmpty<T>(g: Grid, s: seq<T>, p: nat, pres: Presenter)
    requires HoldsCells(g, s, s, p) && Fits(s, s, pres)
    ensures Script(g, |s|, |s|, pres) == []
  {
    SelfDiagonalIsZero(s, p, |s|);
    assert Stored(g, |s|, |s|) == Cell(s, s, p, |s|, |s|);
    ScriptLength(g, s, s, p, |s|, |s|, pres);
  }

  /**
   * Against an empty source every move is an addition at source position 0:
   * one delta per destination chunk, in order.
   */
  lemma {:induction false} ScriptFromEmptySource<T>(g: Grid, s: seq<T>, t: seq<T>, p: nat, j: nat, pres: Presenter)
    requires |s| == 0 && HoldsCells(g, s, t, p) && Fits(s, t, pres) && j <= |t|
    ensures |Script(g, 0, j, pres)| == j
    ensures forall k :: 0 <= k < j ==> Script(g, 0, j, pres)[k] == EditDelta(Add, 0, k + 1, pres)
  {
    if j > 0 {
      ScriptFromEmptySource(g, s, t, p, j - 1, pres);
      assert Stored(g, 0, j - 1) == Cell(s, t, p, 0, j - 1) == Some(j - 1);
      assert NextStep(g, 0, j) == Add;
    }
  }

  // ---------------------------------------------------------------------
  // Edit distance
  // ---------------------------------------------------------------------

  /** One edit of an alignment: a kept chunk, a substitution, an insertion or a removal. */
  datatype EditOp = Match | Substitute | Insert | Remove

  /**
   * `ops` aligns `s[..i]` with `t[..j]`, read from the end: a match or a
   * substitution consumes a chunk of each (a match only of equal chunks),
   * an insertion one of `t`, a removal one of `s`.
   */
  ghost predicate IsAlignment<T>(s: seq<T>, t: seq<T>, i: nat, j: nat, ops: seq<EditOp>)
    requires i <= |s| && j <= |t|
    decreases |ops|
  {
    if ops == [] then i == 0 && j == 0
    else
      var rest := ops[..|ops| - 1];
      match ops[|ops| - 1]
      case Match => i > 0 && j > 0 && s[i - 1] == t[j - 1] && IsAlignment(s, t, i - 1, j - 1, rest)
      case Substitute => i > 0 && j > 0 && IsAlignment(s, t, i - 1, j - 1, rest)
      case Insert => j > 0 && IsAlignment(s, t, i, j - 1, rest)
      case Remove => i > 0 && IsAlignment(s, t, i - 1, j, rest)
  }

  /** Number of edits in an alignment: everything but matches. */
  function OpsCost(ops: seq<EditOp>): nat {
    if ops == [] then 0 else OpsCost(ops[..|ops| - 1]) + (if ops[|ops| - 1] == Match then 0 else 1)
  }

  /** Without a band every cell holds a value. */
  lemma ExactCellPresent<T>(s: seq<T>, t: seq<T>, i: nat, j: nat)
    requires i <= |s| && j <= |t|
    ensures Cell(s, t, 0, i, j).Some?
  {
    UnlimitedPrecisionIsConnected(s, t);
    CellPresent(s, t, 0, i, j);
    assert !Outside(s, t, 0, i, j);
  }

  /** Without a band every cell holds a value, bounded by each predecessor plus the cost of the step from it. */
  lemma {:induction false} ExactCellBounds<T>(s: seq<T>, t: seq<T>, i: nat, j: nat)
    requires i <= |s| && j <= |t|
    ensures Cell(s, t, 0, i, j).Some?
    ensures i > 0 ==> Cell(s, t, 0, i - 1, j).Some? && Cell(s, t, 0, i, j).value <= Cell(s, t, 0, i - 1, j).value + 1
    ensures j > 0 ==> Cell(s, t, 0, i, j - 1).Some? && Cell(s, t, 0, i, j).value <= Cell(s, t, 0, i, j - 1).value + 1
    ensures i > 0 && j > 0 ==>
      (Cell(s, t, 0, i - 1, j - 1).Some?
       && Cell(s, t, 0, i, j).value <= Cell(s, t, 0, i - 1, j - 1).value + Cost(s[i - 1], t[j - 1]))
  {
    ExactCellPresent(s, t, i, j);
    if i > 0 && j > 0 {
      ExactInteriorBounds(s, t, i, j);
    } else if i > 0 {
      ExactBorderCells(s, t, i, j);
    } else if j > 0 {
      ExactBorderCells(s, t, i, j);
    }
  }

  /** Without a band an interior cell is at most each predecessor plus the cost of the step from it. */
  lemma ExactInteriorBounds<T>(s: seq<T>, t: seq<T>, i: nat, j: nat)
    requires 0 < i <= |s| && 0 < j <= |t|
    ensures Cell(s, t, 0, i, j).Some? && Cell(s, t, 0, i - 1, j).Some?
    ensures Cell(s, t, 0, i, j - 1).Some? && Cell(s, t, 0, i - 1, j - 1).Some?
    ensures Cell(s, t, 0, i, j).value <= Cell(s, t, 0, i - 1, j).value + 1
    ensures Cell(s, t, 0, i, j).value <= Cell(s, t, 0, i, j - 1).value + 1
    ensures Cell(s, t, 0, i, j).value <= Cell(s, t, 0, i - 1, j - 1).value + Cost(s[i - 1], t[j - 1])
  {
    ExactCellPresent(s, t, i - 1, j);
    ExactCellPresent(s, t, i, j - 1);
    ExactCellPresent(s, t, i - 1, j - 1);
    var top, left, diag := Cell(s, t, 0, i - 1, j), Cell(s, t, 0, i, j - 1), Cell(s, t, 0, i - 1, j - 1);
    var cost := Cost(s[i - 1], t[j - 1]);
    assert !Outside(s, t, 0, i, j);
    assert Cell(s, t, 0, i, j) == LeastOf(Plus(top, 1), Plus(left, 1), Plus(diag, cost));
    LeastOfStepBounds(top, left, diag, cost);
  }

  /** The least of three present predecessors, each plus the cost of its step, is at most each of them. */
  lemma LeastOfStepBounds(top: Option<nat>, left: Option<nat>, diag: Option<nat>, cost: nat)
    requires top.Some? && left.Some? && diag.Some?
    ensures var r := LeastOf(Plus(top, 1), Plus(left, 1), Plus(diag, cost));
      && r.Some? && r.value <= top.value + 1 && r.value <= left.value + 1 && r.value <= diag.value + cost
  {
    LeastOfIsLeast(Plus(top, 1), Plus(left, 1), Plus(diag, cost));
  }

  /** Without a band the borders count their distance from the corner. */
  lemma ExactBorderCells<T>(s: seq<T>, t: seq<T>, i: nat, j: nat)
    requires i <= |s| && j <= |t| && (i == 0 || j == 0)
    ensures Cell(s, t, 0, i, j) == Some(i + j)
    ensures i > 0 ==> Cell(s, t, 0, i - 1, j) == Some(i - 1 + j)
    ensures j > 0 ==> Cell(s, t, 0, i, j - 1) == Some(i + j - 1)
  {
  }

  /** Every alignment costs at least the value of the unbanded matrix. */
  lemma {:induction false} AlignmentCostsAtLeastCell<T>(s: seq<T>, t: seq<T>, i: nat, j: nat, ops: seq<EditOp>)
    requires i <= |s| && j <= |t| && IsAlignment(s, t, i, j, ops)
    ensures Cell(s, t, 0, i, j).Some? && OpsCost(ops) >= Cell(s, t, 0, i, j).value
    decreases |ops|
  {
    ExactCellBounds(s, t, i, j);
    if ops != [] {
      var rest := ops[..|ops| - 1];
      var op := ops[|ops| - 1];
      assert OpsCost(ops) == OpsCost(rest) + (if op == Match then 0 else 1);
      if op == Match || op == Substitute {
        AlignmentCostsAtLeastCell(s, t, i - 1, j - 1, rest);
      } else if op == Insert {
        AlignmentCostsAtLeastCell(s, t, i, j - 1, rest);
      } else {
        AlignmentCostsAtLeastCell(s, t, i - 1, j, rest);
      }
    }
  }

  /** The alignment the backtrack follows: one operation per move. */
  function TraceOps(g: Grid, i: nat, j: nat): seq<EditOp>
    decreases i + j
  {
    if (i == 0 && j == 0) || Stuck(g, i, j) then []
    else
      match NextStep(g, i, j)
      case Keep => TraceOps(g, i - 1, j - 1) + [Match]
      case Modify => TraceOps(g, i - 1, j - 1) + [Substitute]
      case Add => TraceOps(g, i, j - 1) + [Insert]
      case Delete => TraceOps(g, i - 1, j) + [Remove]
  }

  /** The backtrack over a built matrix follows an alignment costing exactly the starting cell's value. */
  lemma {:induction false} TraceIsAlignment<T>(g: Grid, s: seq<T>, t: seq<T>, p: nat, i: nat, j: nat)
    requires HoldsCells(g, s, t, p) && i <= |s| && j <= |t| && Stored(g, i, j).Some?
    ensures IsAlignment(s, t, i, j, TraceOps(g, i, j))
    ensures OpsCost(TraceOps(g, i, j)) == Stored(g, i, j).value
    decreases i + j
  {
    if i == 0 && j == 0 {
      assert Stored(g, 0, 0) == Cell(s, t, p, 0, 0);
    } else {
      StepFacts(g, s, t, p, i, j);
      match NextStep(g, i, j)
      case Keep =>
        var rest := TraceOps(g, i - 1, j - 1);
        assert TraceOps(g, i, j) == rest + [Match];
        TraceIsAlignment(g, s, t, p, i - 1, j - 1);
        AlignmentAppend(s, t, i, j, rest, Match);
      case Modify =>
        var rest := TraceOps(g, i - 1, j - 1);
        assert TraceOps(g, i, j) == rest + [Substitute];
        TraceIsAlignment(g, s, t, p, i - 1, j - 1);
        AlignmentAppend(s, t, i, j, rest, Substitute);
      case Add =>
        var rest := TraceOps(g, i, j - 1);
        assert TraceOps(g, i, j) == rest + [Insert];
        TraceIsAlignment(g, s, t, p, i, j - 1);
        AlignmentAppend(s, t, i, j, rest, Insert);
      case Delete =>
        var rest := TraceOps(g, i - 1, j);
        assert TraceOps(g, i, j) == rest + [Remove];
        TraceIsAlignment(g, s, t, p, i - 1, j);
        AlignmentAppend(s, t, i, j, rest, Remove);
    }
  }

  /** An alignment of the prefixes the operation starts from, extended by that operation. */
  lemma AlignmentAppend<T>(s: seq<T>, t: seq<T>, i: nat, j: nat, rest: seq<EditOp>, op: EditOp)
    requires i <= |s| && j <= |t|
    requires match op
      case Match => i > 0 && j > 0 && s[i - 1] == t[j - 1] && IsAlignment(s, t, i - 1, j - 1, rest)
      case Substitute => i > 0 && j > 0 && IsAlignment(s, t, i - 1, j - 1, rest)
      case Insert => j > 0 && IsAlignment(s, t, i, j - 1, rest)
      case Remove => i > 0 && IsAlignment(s, t, i - 1, j, rest)
    ensures IsAlignment(s, t, i, j, rest + [op])
    ensures OpsCost(rest + [op]) == OpsCost(rest) + (if op == Match then 0 else 1)
  {
    assert (rest + [op])[..|rest|] == rest;
  }

  /**
   * Over a matrix built with precision 0 the corner value is the edit
   * distance: the backtrack's alignment attains it, no alignment costs
   * less, and the script has exactly that many deltas.
   */
  lemma ExactCornerIsEditDistance<T>(g: Grid, s: seq<T>, t: seq<T>, pres: Presenter)
    requires HoldsCells(g, s, t, 0) && Fits(s, t, pres)
    ensures Stored(g, |s|, |t|).Some?
    ensures IsAlignment(s, t, |s|, |t|, TraceOps(g, |s|, |t|))
    ensures OpsCost(TraceOps(g, |s|, |t|)) == Stored(g, |s|, |t|).value
    ensures forall ops :: IsAlignment(s, t, |s|, |t|, ops) ==> OpsCost(ops) >= Stored(g, |s|, |t|).value
    ensures |Script(g, |s|, |t|, pres)| == Stored(g, |s|, |t|).value
  {
    ExactCellBounds(s, t, |s|, |t|);
    assert Stored(g, |s|, |t|) == Cell(s, t, 0, |s|, |t|);
    TraceIsAlignment(g, s, t, 0, |s|, |t|);
    ScriptLength(g, s, t, 0, |s|, |t|, pres);
    forall ops | IsAlignment(s, t, |s|, |t|, ops)
      ensures OpsCost(ops) >= Stored(g, |s|, |t|).value
    {
      AlignmentCostsAtLeastCell(s, t, |s|, |t|, ops);
    }
  }

  /**
   * A band never makes the backtrack shorter than the edit distance: its
   * script is as long as some alignment costs, so no shorter than the
   * unbanded corner.
   */
  lemma BandedScriptAtLeastEditDistance<T>(g: Grid, s: seq<T>, t: seq<T>, p: nat, pres: Presenter)
    requires HoldsCells(g, s, t, p) && Fits(s, t, pres) && Stored(g, |s|, |t|).Some?
    ensures exists ops :: IsAlignment(s, t, |s|, |t|, ops) && OpsCost(ops) == |Script(g, |s|, |t|, pres)|
    ensures Cell(s, t, 0, |s|, |t|).Some? && |Script(g, |s|, |t|, pres)| >= Cell(s, t, 0, |s|, |t|).value
  {
    var ops := TraceOps(g, |s|, |t|);
    TraceIsAlignment(g, s, t, p, |s|, |t|);
    ScriptLength(g, s, t, p, |s|, |t|, pres);
    AlignmentCostsAtLeastCell(s, t, |s|, |t|, ops);
  }

  // ---------------------------------------------------------------------
  // Building the matrix
  // ---------------------------------------------------------------------

  /**
   * The cells filled once the interior fill reaches cell (i, j): both
   * borders, every row above i, and row i left of j.
   */
  predicate Done(m: nat, n: nat, i: nat, j: nat, r: nat, c: nat) {
    r <= m && c <= n && (r == 0 || c == 0 || r < i || (r == i && c < j))
  }

  /** The grid holds the defined value on every filled cell, and nothing elsewhere. */
  ghost predicate FilledUpTo<T>(g: Grid, s: seq<T>, t: seq<T>, p: nat, i: nat, j: nat) {
    forall r: nat, c: nat {:trigger Stored(g, r, c)} ::
      Stored(g, r, c) == (if Done(|s|, |t|, i, j, r, c) then Cell(s, t, p, r, c) else None)
  }

  /** The first border loop has stored i in cell (i, 0) for every i below `upTo`, and nothing else. */
  ghost predicate FirstColumnUpTo(g: Grid, upTo: nat) {
    forall r: nat, c: nat :: Stored(g, r, c) == (if c == 0 && r < upTo then Some(r) else None)
  }

  /** The whole first column up to row m is stored, and j in cell (0, j) for every j below `upTo`. */
  ghost predicate BordersUpTo(g: Grid, m: nat, upTo: nat) {
    forall r: nat, c: nat :: Stored(g, r, c) ==
      (if c == 0 && r <= m then Some(r) else if r == 0 && c < upTo then Some(c) else None)
  }

  lemma FirstColumnStep(g: Grid, i: nat)
    requires FirstColumnUpTo(g, i)
    ensures FirstColumnUpTo(g[(i, 0) := i], i + 1)
  {
    var g' := g[(i, 0) := i];
    forall r: nat, c: nat
      ensures Stored(g', r, c) == (if c == 0 && r < i + 1 then Some(r) else None)
    {
      if (r, c) != (i, 0) {
        assert Stored(g', r, c) == Stored(g, r, c);
      }
    }
  }

  lemma FirstColumnDone(g: Grid, m: nat)
    requires FirstColumnUpTo(g, m + 1)
    ensures BordersUpTo(g, m, 0)
  {
  }

  lemma BordersStep(g: Grid, m: nat, j: nat)
    requires BordersUpTo(g, m, j)
    ensures BordersUpTo(g[(0, j) := j], m, j + 1)
  {
    var g' := g[(0, j) := j];
    forall r: nat, c: nat
      ensures Stored(g', r, c) == (if c == 0 && r <= m then Some(r) else if r == 0 && c < j + 1 then Some(c) else None)
    {
      if (r, c) != (0, j) {
        assert Stored(g', r, c) == Stored(g, r, c);
      }
    }
  }

  /** After both border loops, the borders are filled with their defined values. */
  lemma BordersFilled<T>(g: Grid, s: seq<T>, t: seq<T>, p: nat)
    requires BordersUpTo(g, |s|, |t| + 1)
    ensures FilledUpTo(g, s, t, p, 1, 1)
  {
    forall r: nat, c: nat
      ensures Stored(g, r, c) == (if Done(|s|, |t|, 1, 1, r, c) then Cell(s, t, p, r, c) else None)
    {
      if Done(|s|, |t|, 1, 1, r, c) {
        assert Cell(s, t, p, r, c) == if c == 0 then Some(r) else Some(c);
      }
    }
  }

  /**
   * One step of the interior fill: with a connected band, storing the least
   * of the three candidates at an in-range cell (and nothing outside the
   * band) keeps the grid filled with the defined values.
   */
  lemma FilledStep<T>(g: Grid, s: seq<T>, t: seq<T>, p: nat, i: nat, j: nat)
    requires 1 <= i <= |s| && 1 <= j <= |t| && BandConnected(s, t, p) && FilledUpTo(g, s, t, p, i, j)
    ensures var best := Min3(Plus(Stored(g, i - 1, j), 1), Plus(Stored(g, i, j - 1), 1),
                             Plus(Stored(g, i - 1, j - 1), Cost(s[i - 1], t[j - 1])), CmpOptionals);
      FilledUpTo(if Outside(s, t, p, i, j) then g else g[(i, j) := best.GetOr(0)], s, t, p, i, j + 1)
  {
    var best := Min3(Plus(Stored(g, i - 1, j), 1), Plus(Stored(g, i, j - 1), 1),
                     Plus(Stored(g, i - 1, j - 1), Cost(s[i - 1], t[j - 1])), CmpOptionals);
    var g' := if Outside(s, t, p, i, j) then g else g[(i, j) := best.GetOr(0)];
    LeastOfIsMin3(Plus(Stored(g, i - 1, j), 1), Plus(Stored(g, i, j - 1), 1),
                  Plus(Stored(g, i - 1, j - 1), Cost(s[i - 1], t[j - 1])));
    assert Stored(g, i - 1, j) == Cell(s, t, p, i - 1, j);
    assert Stored(g, i, j - 1) == Cell(s, t, p, i, j - 1);
    assert Stored(g, i - 1, j - 1) == Cell(s, t, p, i - 1, j - 1);
    assert Stored(g, i, j) == None;
    CellPresent(s, t, p, i, j);
    assert Stored(g', i, j) == Cell(s, t, p, i, j);
    forall r: nat, c: nat
      ensures Stored(g', r, c) == (if Done(|s|, |t|, i, j + 1, r, c) then Cell(s, t, p, r, c) else None)
    {
      if (r, c) != (i, j) {
        assert Stored(g', r, c) == Stored(g, r, c);
      }
    }
  }

  /** A finished row of the interior fill is the start of the next one. */
  lemma FilledNextRow<T>(g: Grid, s: seq<T>, t: seq<T>, p: nat, i: nat)
    requires FilledUpTo(g, s, t, p, i, |t| + 1)
    ensures FilledUpTo(g, s, t, p, i + 1, 1)
  {
    forall r: nat, c: nat
      ensures Stored(g, r, c) == (if Done(|s|, |t|, i + 1, 1, r, c) then Cell(s, t, p, r, c) else None)
    {
      assert Done(|s|, |t|, i, |t| + 1, r, c) == Done(|s|, |t|, i + 1, 1, r, c);
    }
  }

  /** Once the interior fill has passed the last row, the grid holds every defined value. */
  lemma FilledHoldsCells<T>(g: Grid, s: seq<T>, t: seq<T>, p: nat)
    requires FilledUpTo(g, s, t, p, |s| + 1, 1)
    ensures HoldsCells(g, s, t, p)
  {
    forall r: nat, c: nat | r <= |s| && c <= |t|
      ensures Stored(g, r, c) == Cell(s, t, p, r, c)
    {
      assert Done(|s|, |t|, |s| + 1, 1, r, c);
    }
  }

  /**
   * Fills the matrix of `source` against `destination`: both borders, then
   * the in-band interior cells row by row. Unlike the C++ loop, it skips
   * the off-band cells, whose minimum it would only throw away and which
   * can be empty (`SquareBandFillUndefined`). When the band is connected
   * every stored value is the defined one and every minimum taken is
   * present (`InBandCandidatesPresent`); otherwise an in-band cell without
   * a present predecessor gets 0.
   */
  method ConstructLevenshteinMatrix<T(==)>(source: seq<T>, destination: seq<T>, precision: Option<nat>)
    returns (matrix: LevenshteinMatrix)
    ensures fresh(matrix) && matrix.Valid()
    ensures matrix.rows == |destination| + 1 && matrix.cols == |source| + 1
    ensures matrix.precision == ResolvePrecision(|destination| + 1, |source| + 1, precision)
    ensures BandConnected(source, destination, matrix.precision) ==>
      HoldsCells(matrix.values, source, destination, matrix.precision)
  {
    matrix := new LevenshteinMatrix(|destination| + 1, |source| + 1, precision);
    ghost var p := matrix.precision;
    for i := 0 to |source| + 1
      invariant matrix.Valid() && FirstColumnUpTo(matrix.values, i)
    {
      FirstColumnStep(matrix.values, i);
      matrix.Set(i, 0, i);
    }
    FirstColumnDone(matrix.values, |source|);
    for j := 0 to |destination| + 1
      invariant matrix.Valid() && BordersUpTo(matrix.values, |source|, j)
    {
      BordersStep(matrix.values, |source|, j);
      matrix.Set(0, j, j);
    }
    BordersFilled(matrix.values, source, destination, p);
    for i := 1 to |source| + 1
      invariant matrix.Valid()
      invariant BandConnected(source, destination, p) ==> FilledUpTo(matrix.values, source, destination, p, i, 1)
    {
      for j := 1 to |destination| + 1
        invariant matrix.Valid()
        invariant BandConnected(source, destination, p) ==> FilledUpTo(matrix.values, source, destination, p, i, j)
      {
        if BandConnected(source, destination, p) {
          FilledStep(matrix.values, source, destination, p, i, j);
        }
        if matrix.InRange(i, j) {
          var modificationCost := if source[i - 1] == destination[j - 1] then 0 else 1;
          var best := Min3(Plus(matrix.Get(i - 1, j), 1), Plus(matrix.Get(i, j - 1), 1),
                           Plus(matrix.Get(i - 1, j - 1), modificationCost), CmpOptionals);
          matrix.Set(i, j, best.GetOr(0));
        }
      }
      if BandConnected(source, destination, p) {
        FilledNextRow(matrix.values, source, destination, p, i);
      }
    }
    if BandConnected(source, destination, p) {
      FilledHoldsCells(matrix.values, source, destination, p);
    }
  }

  // ---------------------------------------------------------------------
  // Walking the matrix back
  // ---------------------------------------------------------------------

  /** From every cell up to (m, n) that holds a value, the walk has somewhere to go. */
  ghost predicate Walkable(g: Grid, m: nat, n: nat) {
    forall i: nat, j: nat {:trigger Stuck(g, i, j)} ::
      i <= m && j <= n && (i != 0 || j != 0) && Stored(g, i, j).Some? ==> !Stuck(g, i, j)
  }

  /** A matrix the construction built over a connected band can be walked back from its corner. */
  lemma BuiltMatrixIsWalkable<T>(g: Grid, s: seq<T>, t: seq<T>, p: nat)
    requires HoldsCells(g, s, t, p) && BandConnected(s, t, p)
    ensures Walkable(g, |s|, |t|) && Stored(g, |s|, |t|).Some?
  {
    NeverStuck(g, s, t, p);
    CornerPresent(s, t, p);
    assert Stored(g, |s|, |t|) == Cell(s, t, p, |s|, |t|);
  }

  /** The walk's bookkeeping: the script still to come, then the deltas pushed so far in reverse. */
  lemma WalkStep(whole: seq<DataDelta>, here: seq<DataDelta>, next: seq<DataDelta>, pushed: seq<DataDelta>, d: DataDelta)
    requires whole == here + Reversed(pushed) && here == next + [d]
    ensures whole == next + Reversed(pushed + [d])
  {
    ReversedAppend(pushed, d);
  }

  /**
   * One move of the walk back keeps the split of the whole script: the part
   * still to walk from the cell the move reaches, then what was pushed so
   * far followed by what the move emits. The reached cell holds a value.
   */
  lemma WalkMove(g: Grid, i: nat, j: nat, pres: Presenter, whole: seq<DataDelta>, pushed: seq<DataDelta>, step: Step)
    returns (ni: nat, nj: nat, emitted: seq<DataDelta>)
    requires InGrid(i, j, pres) && (i != 0 || j != 0) && !Stuck(g, i, j) && step == NextStep(g, i, j)
    requires whole == Script(g, i, j, pres) + Reversed(pushed)
    ensures step == Keep ==> i >= 1 && j >= 1 && (ni, nj) == (i - 1, j - 1) && emitted == []
    ensures step == Modify ==> (i >= 1 && j >= 1 && (ni, nj) == (i - 1, j - 1)
      && emitted == [DataDelta(Modification, [pres.destinationDisplay[j - 1]], pres.context(SizeDec(i)), i, j, 1, 1)])
    ensures step == Add ==> (j >= 1 && (ni, nj) == (i, j - 1)
      && emitted == [DataDelta(Addition, [pres.destinationDisplay[j - 1]], pres.context(SizeDec(i)), i, j, 0, 1)])
    ensures step == Delete ==> (i >= 1 && (ni, nj) == (i - 1, j)
      && emitted == [DataDelta(Deletion, [pres.sourceDisplay[i - 1]], pres.context(SizeDec(i)), i, j, 1, 0)])
    ensures Stored(g, ni, nj).Some? && whole == Script(g, ni, nj, pres) + Reversed(pushed + emitted)
  {
    ni, nj, emitted := ScriptMove(g, i, j, pres);
    NextStepIsLeast(g, i, j);
    if emitted == [] {
      assert pushed + emitted == pushed;
    } else {
      WalkStep(whole, Script(g, i, j, pres), Script(g, ni, nj, pres), pushed, emitted[0]);
    }
  }

  /**
   * One turn of the walk back: reads the present neighbours, takes their
   * least by the optional comparison and picks the move as the C++ code
   * does. Its error branch is unreachable once some neighbour is
   * present.
   */
  method ChooseStep(matrix: LevenshteinMatrix, i: nat, j: nat) returns (step: Step)
    requires matrix.Valid() && !Stuck(matrix.values, i, j)
    ensures step == NextStep(matrix.values, i, j)
  {
    ghost var g := matrix.values;
    var leftVal, topVal, leftTopVal := None, None, None;
    if i != 0 { topVal := matrix.Get(i - 1, j); }
    if j != 0 { leftVal := matrix.Get(i, j - 1); }
    if i != 0 && j != 0 { leftTopVal := matrix.Get(i - 1, j - 1); }
    assert leftVal == Left(g, i, j) && topVal == Top(g, i, j) && leftTopVal == Diag(g, i, j);
    var minimum := Min3(leftVal, topVal, leftTopVal, CmpOptionals);
    Min3OptionalsIsLeast(leftVal, topVal, leftTopVal);
    LeastOfIsMin3(leftVal, topVal, leftTopVal);
    if minimum == leftTopVal {
      if matrix.Get(i, j) == matrix.Get(i - 1, j - 1) {
        step := Keep;
      } else {
        step := Modify;
      }
    } else if minimum == leftVal {
      step := Add;
    } else {
      assert minimum == topVal;
      step := Delete;
    }
  }

  /**
   * Walks the matrix back from the bottom-right corner, pushing a delta for
   * every edit, and reverses the list at the end: the result is the
   * ascending script of the backtrack.
   */
  method LevenshteinMatrixToDeltas<T>(matrix: LevenshteinMatrix, source: seq<T>, destination: seq<T>,
                                      filename: string, dstFilename: string, pres: Presenter)
    returns (result: DataDifference)
    requires matrix.Valid() && Fits(source, destination, pres)
    requires Walkable(matrix.values, |source|, |destination|)
    requires Stored(matrix.values, |source|, |destination|).Some?
    ensures fresh(result)
    ensures result.sourceName == filename && result.destinationName == dstFilename
    ensures result.forcedOutputStyle == Default
    ensures result.deltas == Script(matrix.values, |source|, |destination|, pres)
  {
    ghost var g := matrix.values;
    ghost var whole := Script(g, |source|, |destination|, pres);
    var deltas := [];
    var i: nat, j: nat := |source|, |destination|;
    while i != 0 || j != 0
      invariant i <= |source| && j <= |destination| && Stored(g, i, j).Some?
      invariant whole == Script(g, i, j, pres) + Reversed(deltas)
      decreases i + j
    {
      var step := ChooseStep(matrix, i, j);
      ghost var ni, nj, emitted := WalkMove(g, i, j, pres, whole, deltas, step);
      ghost var pushed := deltas;
      match step {
      case Keep =>
        i, j := i - 1, j - 1;
      case Modify =>
        deltas := deltas + [DataDelta(Modification, [pres.destinationDisplay[j - 1]], pres.context(SizeDec(i)), i, j, 1, 1)];
        i, j := i - 1, j - 1;
      case Add =>
        deltas := deltas + [DataDelta(Addition, [pres.destinationDisplay[j - 1]], pres.context(SizeDec(i)), i, j, 0, 1)];
        j := j - 1;
      case Delete =>
        deltas := deltas + [DataDelta(Deletion, [pres.sourceDisplay[i - 1]], pres.context(SizeDec(i)), i, j, 1, 0)];
        i := i - 1;
      }
      assert i == ni && j == nj && deltas == pushed + emitted;
    }
    result := new DataDifference(filename, dstFilename, Reversed(deltas), Default);
  }

  // ---------------------------------------------------------------------
  // The whole differ
  // ---------------------------------------------------------------------

  /**
   * The backtrack of a matrix holding the construction's cells turns the
   * source display into the destination display, when equal chunks are
   * displayed alike.
   */
  lemma BuiltScriptApplies<T>(g: Grid, s: seq<T>, t: seq<T>, p: nat, pres: Presenter)
    requires HoldsCells(g, s, t, p) && Fits(s, t, pres) && Stored(g, |s|, |t|).Some?
    requires DisplaysAgree(s, t, pres)
    ensures ApplyPatch(pres.sourceDisplay, Script(g, |s|, |t|, pres)) == pres.destinationDisplay
  {
    ScriptApplies(g, s, t, p, |s|, |t|, pres, []);
    assert pres.sourceDisplay[..|s|] + [] == pres.sourceDisplay;
    assert pres.destinationDisplay[..|t|] + [] == pres.destinationDisplay;
  }

  /**
   * The differ's common flow: fill the matrix of the two chunk sequences,
   * then walk it back into a difference named after both inputs. The band
   * must be connected: otherwise the construction dereferences an absent
   * minimum.
   */
  method DiffChunks<T(==)>(source: seq<T>, destination: seq<T>, precision: Option<nat>,
                           filename: string, dstFilename: string, pres: Presenter)
    returns (result: DataDifference)
    requires Fits(source, destination, pres)
    requires BandConnected(source, destination, ResolvePrecision(|destination| + 1, |source| + 1, precision))
    ensures fresh(result)
    ensures result.sourceName == filename && result.destinationName == dstFilename
    ensures result.forcedOutputStyle == Default
    ensures OrderedUpTo(result.deltas, |source|, |destination|, pres)
    ensures DisplaysAgree(source, destination, pres) ==> ApplyPatch(pres.sourceDisplay, result.deltas) == pres.destinationDisplay
    ensures source == destination ==> result.deltas == []
    ensures ResolvePrecision(|destination| + 1, |source| + 1, precision) == 0 ==>
      forall ops :: IsAlignment(source, destination, |source|, |destination|, ops) ==> |result.deltas| <= OpsCost(ops)
    ensures ResolvePrecision(|destination| + 1, |source| + 1, precision) == 0 ==>
      exists ops :: IsAlignment(source, destination, |source|, |destination|, ops) && OpsCost(ops) == |result.deltas|
    ensures |source| == 0 ==> |result.deltas| == |destination|
    ensures |source| == 0 ==> forall k :: 0 <= k < |destination| ==> result.deltas[k] == EditDelta(Add, 0, k + 1, pres)
  {
    var matrix := ConstructLevenshteinMatrix(source, destination, precision);
    BuiltMatrixIsWalkable(matrix.values, source, destination, matrix.precision);
    ScriptOrdered(matrix.values, |source|, |destination|, pres);
    if DisplaysAgree(source, destination, pres) {
      BuiltScriptApplies(matrix.values, source, destination, matrix.precision, pres);
    }
    if source == destination {
      SelfDiffIsEmpty(matrix.values, source, matrix.precision, pres);
    }
    if matrix.precision == 0 {
      ExactCornerIsEditDistance(matrix.values, source, destination, pres);
    }
    if |source| == 0 {
      ScriptFromEmptySource(matrix.values, source, destination, matrix.precision, |destination|, pres);
    }
    result := LevenshteinMatrixToDeltas(matrix, source, destination, filename, dstFilename, pres);

  }
}
