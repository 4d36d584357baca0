/**
 * The differ's result: deltas with their source context, the list of deltas
 * between two inputs, and its normalisation, which merges runs of adjacent
 * additions or deletions into single deltas.
 */
module Differences {
  import opened Utility

  /** Whether a chunk was added, deleted or modified, going from source to destination. */
  datatype DataDeltaKind = Addition | Deletion | Modification

  /** Output style a differ may force on its result. */
  datatype ForcedOutput = Default | DirectPrint

  /**
   * Context of a change: raw chunks around it (usually source lines), split
   * into a before part `[0, maxIdxOfBeforeContext)`, an on part
   * `[maxIdxOfBeforeContext, maxIdxOfOnContext)` and an after part (the rest).
   */
  datatype DataContext = DataContext(rawData: seq<string>, maxIdxOfBeforeContext: nat, maxIdxOfOnContext: nat)
  {
    /** The three parts are in order: before ends no later than on. */
    predicate WellFormed() {
      maxIdxOfBeforeContext <= maxIdxOfOnContext <= SIZE_MAX
    }
  }

  /**
   * One chunk change: its payload (`deltaInfo`), the source context, the
   * affected positions in source and destination and the lengths there.
   */
  datatype DataDelta = DataDelta(
    kind: DataDeltaKind,
    deltaInfo: seq<string>,
    sourceFileContext: DataContext,
    indicatorSource: nat,
    indicatorDestination: nat,
    indicatorSourceLen: nat,
    indicatorDestLen: nat)

  // ---------------------------------------------------------------------
  // Merging contexts
  // ---------------------------------------------------------------------

  /**
   * Where the copy of the right-hand context starts: at its last on-chunk.
   * The index is clamped to the data; see `MergeWithNewContextAsWritten`
   * for the unclamped C++ code.
   */
  function CopyStart(rhs: DataContext): (k: nat)
    ensures k <= |rhs.rawData|
    ensures 1 <= rhs.maxIdxOfOnContext <= |rhs.rawData| + 1 ==> k == rhs.maxIdxOfOnContext - 1
  {
    if rhs.maxIdxOfOnContext == 0 then 0 else Min(rhs.maxIdxOfOnContext - 1, |rhs.rawData|)
  }

  /** The new end of the on part: this context's on part grown by the on part of `rhs` (on `size_t`). */
  function MergedOnIndex(lhs: DataContext, rhs: DataContext): (on: nat)
    ensures on <= SIZE_MAX
    ensures lhs.WellFormed() && rhs.WellFormed()
            && lhs.maxIdxOfOnContext + (rhs.maxIdxOfOnContext - rhs.maxIdxOfBeforeContext) <= SIZE_MAX
        ==> on == lhs.maxIdxOfOnContext + (rhs.maxIdxOfOnContext - rhs.maxIdxOfBeforeContext)
  {
    SizeAdd(SizeAdd(lhs.maxIdxOfBeforeContext, SizeSub(lhs.maxIdxOfOnContext, lhs.maxIdxOfBeforeContext)),
            SizeSub(rhs.maxIdxOfOnContext, rhs.maxIdxOfBeforeContext))
  }

  /**
   * Merges the context of a following change into this one: this context's
   * after part is dropped, and the on and after parts of `rhs` are appended.
   */
  function MergeWithNewContext(lhs: DataContext, rhs: DataContext): (r: DataContext)
    ensures r.maxIdxOfBeforeContext == lhs.maxIdxOfBeforeContext
    ensures r.maxIdxOfOnContext == MergedOnIndex(lhs, rhs)
    ensures r.rawData == VectorSlice(lhs.rawData, 0, lhs.maxIdxOfOnContext) + rhs.rawData[CopyStart(rhs)..]
    // the before and on chunks of this context are kept in place
    ensures forall k :: 0 <= k < Min(lhs.maxIdxOfOnContext, |lhs.rawData|) ==> r.rawData[k] == lhs.rawData[k]
    // the on chunk of a one-chunk right-hand context lands right after this context's on part
    ensures rhs.maxIdxOfOnContext == rhs.maxIdxOfBeforeContext + 1 && rhs.maxIdxOfBeforeContext < |rhs.rawData|
            && lhs.maxIdxOfOnContext <= |lhs.rawData|
        ==> r.rawData[lhs.maxIdxOfOnContext] == rhs.rawData[rhs.maxIdxOfBeforeContext]
    ensures lhs.WellFormed() && rhs.WellFormed() && MergedOnIndex(lhs, rhs) >= lhs.maxIdxOfOnContext
        ==> r.WellFormed()
  {
    var kept := VectorSlice(lhs.rawData, 0, lhs.maxIdxOfOnContext);
    DataContext(kept + rhs.rawData[CopyStart(rhs)..], lhs.maxIdxOfBeforeContext, MergedOnIndex(lhs, rhs))
  }

  /**
   * The range copied from `rhs` starts at `rhs.maxIdxOfOnContext - 1`; the
   * C++ code forms that iterator without a check, which is only defined
   * when the start lies within the data or one past its end.
   */
  predicate MergeDefined(rhs: DataContext) {
    1 <= rhs.maxIdxOfOnContext <= |rhs.rawData| + 1
  }

  /** The merge as written, on the inputs where it is defined; there it agrees with the clamped merge. */
  function MergeWithNewContextAsWritten(lhs: DataContext, rhs: DataContext): (r: DataContext)
    requires MergeDefined(rhs)
    ensures r == MergeWithNewContext(lhs, rhs)
  {
    var kept := VectorSlice(lhs.rawData, 0, lhs.maxIdxOfOnContext);
    DataContext(kept + rhs.rawData[rhs.maxIdxOfOnContext - 1..], lhs.maxIdxOfBeforeContext, MergedOnIndex(lhs, rhs))
  }

  // ---------------------------------------------------------------------
  // Normalisation
  // ---------------------------------------------------------------------

  /**
   * A delta merges into the one before it iff it is not a modification, it
   * has the same kind, and it starts where the earlier one ends in the source.
   */
  predicate Mergeable(back: DataDelta, cur: DataDelta) {
    && cur.kind != Modification
    && cur.kind == back.kind
    && back.indicatorSource + back.indicatorSourceLen == cur.indicatorSource
  }

  /** `back` absorbing `cur`: lengths add up, contexts merge, payloads concatenate. */
  function Merge(back: DataDelta, cur: DataDelta): (r: DataDelta)
    ensures r.kind == back.kind
    ensures r.indicatorSource == back.indicatorSource && r.indicatorDestination == back.indicatorDestination
    ensures r.indicatorSourceLen == back.indicatorSourceLen + cur.indicatorSourceLen
    ensures r.indicatorDestLen == back.indicatorDestLen + cur.indicatorDestLen
    ensures r.deltaInfo == back.deltaInfo + cur.deltaInfo
  {
    back.(indicatorSourceLen := back.indicatorSourceLen + cur.indicatorSourceLen,
          indicatorDestLen := back.indicatorDestLen + cur.indicatorDestLen,
          sourceFileContext := MergeWithNewContext(back.sourceFileContext, cur.sourceFileContext),
          deltaInfo := back.deltaInfo + cur.deltaInfo)
  }

  /** One step of normalisation: `delta` merges into the last output delta or is appended. */
  function NormalizeStep(acc: seq<DataDelta>, delta: DataDelta): (r: seq<DataDelta>)
    ensures |r| == (if acc != [] && Mergeable(acc[|acc| - 1], delta) then |acc| else |acc| + 1)
    ensures acc != [] && Mergeable(acc[|acc| - 1], delta)
        ==> r == acc[..|acc| - 1] + [Merge(acc[|acc| - 1], delta)]
    ensures !(acc != [] && Mergeable(acc[|acc| - 1], delta)) ==> r == acc + [delta]
  {
    if acc == [] then [delta]
    else if Mergeable(acc[|acc| - 1], delta) then acc[..|acc| - 1] + [Merge(acc[|acc| - 1], delta)]
    else acc + [delta]
  }

  /** The normalised list: deltas folded through `NormalizeStep` in order. */
  function Normalized(deltas: seq<DataDelta>): seq<DataDelta>
  {
    if deltas == [] then [] else NormalizeStep(Normalized(deltas[..|deltas| - 1]), deltas[|deltas| - 1])
  }

  /** No two adjacent deltas satisfy the merge condition. */
  predicate NoMergeablePair(deltas: seq<DataDelta>) {
    forall k :: 0 <= k < |deltas| - 1 ==> !Mergeable(deltas[k], deltas[k + 1])
  }

  function SourceLenTotal(deltas: seq<DataDelta>): nat {
    if deltas == [] then 0 else SourceLenTotal(deltas[..|deltas| - 1]) + deltas[|deltas| - 1].indicatorSourceLen
  }

  function DestLenTotal(deltas: seq<DataDelta>): nat {
    if deltas == [] then 0 else DestLenTotal(deltas[..|deltas| - 1]) + deltas[|deltas| - 1].indicatorDestLen
  }

  /** Every payload string of every delta, in list order. */
  function AllInfo(deltas: seq<DataDelta>): seq<string> {
    if deltas == [] then [] else AllInfo(deltas[..|deltas| - 1]) + deltas[|deltas| - 1].deltaInfo
  }

  /** The output is no longer than the input; it is empty iff the input is. */
  lemma {:induction false} NormalizedLength(deltas: seq<DataDelta>)
    ensures |Normalized(deltas)| <= |deltas|
    ensures Normalized(deltas) == [] <==> deltas == []
  {
    if deltas != [] {
      NormalizedLength(deltas[..|deltas| - 1]);
    }
  }

  lemma TotalsOfAppend(acc: seq<DataDelta>, d: DataDelta)
    ensures SourceLenTotal(acc + [d]) == SourceLenTotal(acc) + d.indicatorSourceLen
    ensures DestLenTotal(acc + [d]) == DestLenTotal(acc) + d.indicatorDestLen
    ensures AllInfo(acc + [d]) == AllInfo(acc) + d.deltaInfo
  {
    assert (acc + [d])[..|acc + [d]| - 1] == acc;
  }

  /** One normalisation step keeps the length totals and the concatenated payloads. */
  lemma NormalizeStepKeepsTotals(acc: seq<DataDelta>, d: DataDelta)
    ensures SourceLenTotal(NormalizeStep(acc, d)) == SourceLenTotal(acc) + d.indicatorSourceLen
    ensures DestLenTotal(NormalizeStep(acc, d)) == DestLenTotal(acc) + d.indicatorDestLen
    ensures AllInfo(NormalizeStep(acc, d)) == AllInfo(acc) + d.deltaInfo
  {
    if acc != [] && Mergeable(acc[|acc| - 1], d) {
      var init := acc[..|acc| - 1];
      var last := acc[|acc| - 1];
      assert acc == init + [last];
      TotalsOfAppend(init, last);
      TotalsOfAppend(init, Merge(last, d));
    } else {
      TotalsOfAppend(acc, d);
    }
  }

  /** Normalisation preserves the totals of source and destination lengths, and all payloads in order. */
  lemma {:induction false} NormalizedKeepsTotals(deltas: seq<DataDelta>)
    ensures SourceLenTotal(Normalized(deltas)) == SourceLenTotal(deltas)
    ensures DestLenTotal(Normalized(deltas)) == DestLenTotal(deltas)
    ensures AllInfo(Normalized(deltas)) == AllInfo(deltas)
  {
    if deltas != [] {
      var init := deltas[..|deltas| - 1];
      NormalizedKeepsTotals(init);
      NormalizeStepKeepsTotals(Normalized(init), deltas[|deltas| - 1]);
    }
  }

  /** After normalisation no adjacent pair can be merged any more. */
  lemma {:induction false} NormalizedHasNoMergeablePair(deltas: seq<DataDelta>)
    ensures NoMergeablePair(Normalized(deltas))
  {
    if deltas != [] {
      var init := deltas[..|deltas| - 1];
      NormalizedHasNoMergeablePair(init);
      NormalizeStepKeepsNoMergeablePair(Normalized(init), deltas[|deltas| - 1]);
    }
  }

  /** One normalisation step keeps a list free of mergeable pairs. */
  lemma NormalizeStepKeepsNoMergeablePair(acc: seq<DataDelta>, d: DataDelta)
    requires NoMergeablePair(acc)
    ensures NoMergeablePair(NormalizeStep(acc, d))
  {
    var r := NormalizeStep(acc, d);
    if acc != [] && Mergeable(acc[|acc| - 1], d) {
      forall k | 0 <= k < |r| - 1
        ensures !Mergeable(r[k], r[k + 1])
      {
        if k + 1 == |r| - 1 {
          assert r[k] == acc[k] && r[k + 1] == Merge(acc[k + 1], d);
          assert !Mergeable(acc[k], acc[k + 1]);
        } else {
          assert r[k] == acc[k] && r[k + 1] == acc[k + 1];
        }
      }
    } else {
      forall k | 0 <= k < |r| - 1
        ensures !Mergeable(r[k], r[k + 1])
      {
        if k + 1 < |acc| {
          assert r[k] == acc[k] && r[k + 1] == acc[k + 1];
        }
      }
    }
  }

  /** A list with no mergeable adjacent pair is left as it is. */
  lemma {:induction false} NormalizedIsIdentityWithoutMergeablePair(deltas: seq<DataDelta>)
    requires NoMergeablePair(deltas)
    ensures Normalized(deltas) == deltas
  {
    if deltas != [] {
      var init := deltas[..|deltas| - 1];
      assert NoMergeablePair(init) by {
        forall k | 0 <= k < |init| - 1
          ensures !Mergeable(init[k], init[k + 1])
        {
          assert init[k] == deltas[k] && init[k + 1] == deltas[k + 1];
        }
      }
      NormalizedIsIdentityWithoutMergeablePair(init);
      assert deltas == init + [deltas[|deltas| - 1]];
    }
  }

  /** Normalising twice is the same as normalising once. */
  lemma NormalizedIsIdempotent(deltas: seq<DataDelta>)
    ensures Normalized(Normalized(deltas)) == Normalized(deltas)
  {
    NormalizedHasNoMergeablePair(deltas);
    NormalizedIsIdentityWithoutMergeablePair(Normalized(deltas));
  }

  // ---------------------------------------------------------------------
  // Meaning of a delta list as a patch
  // ---------------------------------------------------------------------

  /** The first `n` chunks (all of them if there are fewer; none if `n` is negative). */
  function Take(xs: seq<string>, n: int): (r: seq<string>)
    ensures |r| == Max(0, Min(n, |xs|)) && r == xs[..|r|]
  {
    xs[..Max(0, Min(n, |xs|))]
  }

  /** All but the first `n` chunks. */
  function Drop(xs: seq<string>, n: int): (r: seq<string>)
    ensures |r| == |xs| - Max(0, Min(n, |xs|)) && r == xs[|xs| - |r|..]
  {
    xs[Max(0, Min(n, |xs|))..]
  }

  /**
   * Applies one delta to a sequence of source chunks. Positions are
   * 1-based, as in the patch output: an addition goes after chunk
   * `indicatorSource`; a deletion or modification replaces the
   * `indicatorSourceLen` chunks starting at chunk `indicatorSource`.
   */
  function ApplyDelta(src: seq<string>, d: DataDelta): seq<string> {
    match d.kind
    case Addition => Take(src, d.indicatorSource) + d.deltaInfo + Drop(src, d.indicatorSource)
    case Deletion =>
      Take(src, d.indicatorSource - 1) + Drop(src, d.indicatorSource - 1 + d.indicatorSourceLen)
    case Modification =>
      Take(src, d.indicatorSource - 1) + d.deltaInfo + Drop(src, d.indicatorSource - 1 + d.indicatorSourceLen)
  }

  /** Applies a delta list in ascending position order, last delta first, so earlier positions stay valid. */
  function ApplyPatch(src: seq<string>, deltas: seq<DataDelta>): seq<string>
    decreases |deltas|
  {
    if deltas == [] then src
    else ApplyPatch(ApplyDelta(src, deltas[|deltas| - 1]), deltas[..|deltas| - 1])
  }

  // ---------------------------------------------------------------------
  // The difference object
  // ---------------------------------------------------------------------

  /** The whole set of changes between a source and a destination. */
  class DataDifference {
    var sourceName: string
    var destinationName: string
    var deltas: seq<DataDelta>
    var forcedOutputStyle: ForcedOutput

    constructor(sourceName: string, destinationName: string, deltas: seq<DataDelta>, forcedOutputStyle: ForcedOutput)
      ensures this.sourceName == sourceName && this.destinationName == destinationName
      ensures this.deltas == deltas && this.forcedOutputStyle == forcedOutputStyle
    {
      this.sourceName := sourceName;
      this.destinationName := destinationName;
      this.deltas := deltas;
      this.forcedOutputStyle := forcedOutputStyle;
    }

    /** The loop body of `Normalize`: `delta` merges into the last kept delta, or is kept after it. */
    static method PushOrMerge(newDeltas: seq<DataDelta>, delta: DataDelta) returns (r: seq<DataDelta>)
      ensures r == NormalizeStep(newDeltas, delta)
    {
      if newDeltas == [] {
        r := newDeltas + [delta];
      } else if Mergeable(newDeltas[|newDeltas| - 1], delta) {
        r := newDeltas[..|newDeltas| - 1] + [Merge(newDeltas[|newDeltas| - 1], delta)];
      } else {
        r := newDeltas + [delta];
      }
    }

    /** Merges adjacent additions, and adjacent deletions, in one pass. */
    method Normalize()
      modifies this
      ensures deltas == Normalized(old(deltas))
      ensures sourceName == old(sourceName) && destinationName == old(destinationName)
      ensures forcedOutputStyle == old(forcedOutputStyle)
    {
      var input := deltas;
      var newDeltas: seq<DataDelta> := [];
      var k := 0;
      while k < |input|
        invariant k <= |input|
        invariant newDeltas == Normalized(input[..k])
        invariant unchanged(this)
      {
        var delta := input[k];
        assert input[..k + 1][..k] == input[..k] && input[..k + 1][k] == delta;
        newDeltas := PushOrMerge(newDeltas, delta);
        k := k + 1;
      }
      assert input[..k] == input;
      deltas := newDeltas;
    }
  }
}
