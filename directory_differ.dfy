/**
 * The directory chunk source: a directory tree is flattened, pre-order,
 * into one identifier line per entry (its path relative to the root, with
 * `/` for a directory or the hash of the contents for a file); the lines are
 * compared by their hashes and displayed as they are.
 */
module DirectoryDiffer {
  import opened Wrappers
  import opened Utility
  import opened Modes
  import opened Differences
  import opened DiffEngine
  import opened Matrix
  import TextDiffer

  /**
   * An entry of the loaded tree: its path relative to the root, whether it
   * is shown as a directory, the hash of its first 4096 bytes (0 unless it
   * is a readable regular file) and its children keyed by name.
   */
  datatype FsEntry = FsEntry(relativePath: string, displayAsDirectory: bool, hash: bv32, contents: seq<(string, FsEntry)>)

  /** Strict lexicographic order on names, the order of the `std::map` of children. */
  predicate NameLess(a: string, b: string) {
    if a == [] then b != []
    else if b == [] then false
    else a[0] < b[0] || (a[0] == b[0] && NameLess(a[1..], b[1..]))
  }

  /** Children are listed in ascending name order at every level, as the map iterates them. */
  predicate Ordered(e: FsEntry)
    decreases e
  {
    && (forall k :: 0 <= k < |e.contents| - 1 ==> NameLess(e.contents[k].0, e.contents[k + 1].0))
    && forall k :: 0 <= k < |e.contents| ==> Ordered(e.contents[k].1)
  }

  /** The line an entry is shown as. */
  function Identifier(e: FsEntry): (id: string)
  {
    e.relativePath + (if e.displayAsDirectory then "/" else " (" + U32ToHexString(e.hash) + ")")
  }

  /** A directory's line is its path and a slash. */
  lemma DirectoryIdentifierShape(e: FsEntry)
    requires e.displayAsDirectory
    ensures Identifier(e) == e.relativePath + "/"
  {
  }

  /** A file's line is its path, then its hash in hex between parentheses. */
  lemma FileIdentifierShape(e: FsEntry)
    requires !e.displayAsDirectory
    ensures Identifier(e) == (e.relativePath + " (") + U32ToHexString(e.hash) + ")"
  {
  }

  /** A changed file hash shows as a changed line: identifiers of files at one path differ with their hashes. */
  lemma IdentifierShowsHash(a: FsEntry, b: FsEntry)
    requires !a.displayAsDirectory && !b.displayAsDirectory && a.relativePath == b.relativePath
    requires Identifier(a) == Identifier(b)
    ensures a.hash == b.hash
  {
    FileIdentifierShape(a);
    FileIdentifierShape(b);
    MiddleCancels(a.relativePath + " (", U32ToHexString(a.hash), U32ToHexString(b.hash), ")");
    U32ToHexStringInjective(a.hash, b.hash);
  }

  lemma MiddleCancels(p: string, x: string, y: string, s: string)
    requires p + x + s == p + y + s
    ensures x == y
  {
    var whole := p + x + s;
    assert |x| == |y|;
    assert whole[|p|..|p| + |x|] == x;
    assert (p + y + s)[|p|..|p| + |y|] == y;
  }

  /** A directory's line and a file's line never coincide: one ends in `/`, the other in `)`. */
  lemma DirectoryAndFileIdentifiersDiffer(d: FsEntry, f: FsEntry)
    requires d.displayAsDirectory && !f.displayAsDirectory
    ensures Identifier(d) != Identifier(f)
  {
    assert Identifier(d)[|Identifier(d)| - 1] == '/';
    assert Identifier(f)[|Identifier(f)| - 1] == ')';
  }

  /** The pre-order flattening: the entry's line, then each child's flattening in order. */
  function Flatten(e: FsEntry): (view: seq<string>)
    decreases e, 1
  {
    [Identifier(e)] + FlattenChildren(e, |e.contents|)
  }

  /** The entry's own line comes first, before any of its children's. */
  lemma FlattenStartsWithEntry(e: FsEntry)
    ensures |Flatten(e)| >= 1 && Flatten(e)[0] == Identifier(e)
  {
  }

  /** The flattenings of the first `n` children of `e`, in order. */
  function FlattenChildren(e: FsEntry, n: nat): (view: seq<string>)
    requires n <= |e.contents|
    ensures |view| >= n
    decreases e, 0, n
  {
    if n == 0 then []
    else FlattenChildren(e, n - 1) + Flatten(e.contents[n - 1].1)
  }

  /** The number of entries of the tree. */
  function EntryCount(e: FsEntry): nat
    decreases e, 1
  {
    1 + ChildrenCount(e, |e.contents|)
  }

  function ChildrenCount(e: FsEntry, n: nat): nat
    requires n <= |e.contents|
    decreases e, 0, n
  {
    if n == 0 then 0 else ChildrenCount(e, n - 1) + EntryCount(e.contents[n - 1].1)
  }

  /** The view has one line per entry of the tree. */
  lemma {:induction false} FlattenHasOneLinePerEntry(e: FsEntry)
    ensures |Flatten(e)| == EntryCount(e)
    decreases e, 1
  {
    ChildrenHaveOneLinePerEntry(e, |e.contents|);
  }

  lemma {:induction false} ChildrenHaveOneLinePerEntry(e: FsEntry, n: nat)
    requires n <= |e.contents|
    ensures |FlattenChildren(e, n)| == ChildrenCount(e, n)
    decreases e, 0, n
  {
    if n > 0 {
      ChildrenHaveOneLinePerEntry(e, n - 1);
      FlattenHasOneLinePerEntry(e.contents[n - 1].1);
    }
  }

  /**
   * The k-th child's block follows the blocks of the children before it,
   * right after the entry's own line.
   */
  lemma {:induction false} ChildBlockPosition(e: FsEntry, k: nat)
    requires k < |e.contents|
    ensures var start := 1 + ChildrenCount(e, k);
      && start + EntryCount(e.contents[k].1) <= |Flatten(e)|
      && Flatten(e)[start..start + EntryCount(e.contents[k].1)] == Flatten(e.contents[k].1)
  {
    var child := e.contents[k].1;
    ChildrenHaveOneLinePerEntry(e, k);
    FlattenHasOneLinePerEntry(child);
    PrefixOfChildren(e, k + 1, |e.contents|);
    var before := FlattenChildren(e, k);
    var block := Flatten(child);
    var upTo := FlattenChildren(e, k + 1);
    var all := FlattenChildren(e, |e.contents|);
    assert upTo == before + block;
    assert all[..|upTo|] == upTo;
    assert Flatten(e) == [Identifier(e)] + all;
    calc {
      Flatten(e)[1 + |before|..1 + |before| + |block|];
      all[|before|..|before| + |block|];
      upTo[|before|..|before| + |block|];
      block;
    }
  }

  /** No name comes before itself. */
  lemma {:induction false} NameLessIrreflexive(a: string)
    ensures !NameLess(a, a)
    decreases |a|
  {
    if a != [] {
      NameLessIrreflexive(a[1..]);
    }
  }

  /** Name order is transitive. */
  lemma {:induction false} NameLessTransitive(a: string, b: string, c: string)
    requires NameLess(a, b) && NameLess(b, c)
    ensures NameLess(a, c)
    decreases |a|
  {
    if a != [] && a[0] == b[0] && b[0] == c[0] {
      NameLessTransitive(a[1..], b[1..], c[1..]);
    }
  }

  /** In an ordered entry every earlier child has a smaller name than every later one. */
  lemma {:induction false} ChildNamesAscend(e: FsEntry, j: nat, k: nat)
    requires Ordered(e) && j < k < |e.contents|
    ensures NameLess(e.contents[j].0, e.contents[k].0)
    decreases k - j
  {
    if j + 1 < k {
      ChildNamesAscend(e, j + 1, k);
      NameLessTransitive(e.contents[j].0, e.contents[j + 1].0, e.contents[k].0);
    }
  }

  lemma {:induction false} ChildrenCountMonotone(e: FsEntry, n: nat, m: nat)
    requires n <= m <= |e.contents|
    ensures ChildrenCount(e, n) <= ChildrenCount(e, m)
    decreases m - n
  {
    if n < m {
      ChildrenCountMonotone(e, n, m - 1);
    }
  }

  /**
   * In the view of an ordered entry, children come in ascending name order
   * with distinct names: the block of a child ends before the block of any
   * child with a larger name begins.
   */
  lemma ChildBlocksFollowNameOrder(e: FsEntry, j: nat, k: nat)
    requires Ordered(e) && j < k < |e.contents|
    ensures NameLess(e.contents[j].0, e.contents[k].0)
    ensures e.contents[j].0 != e.contents[k].0
    ensures 1 + ChildrenCount(e, j) + EntryCount(e.contents[j].1) <= 1 + ChildrenCount(e, k)
  {
    ChildNamesAscend(e, j, k);
    NameLessIrreflexive(e.contents[j].0);
    ChildrenCountMonotone(e, j + 1, k);
  }

  /** The flattening of fewer children is a prefix of the flattening of more. */
  lemma {:induction false} PrefixOfChildren(e: FsEntry, n: nat, m: nat)
    requires n <= m <= |e.contents|
    ensures |FlattenChildren(e, n)| <= |FlattenChildren(e, m)|
    ensures FlattenChildren(e, m)[..|FlattenChildren(e, n)|] == FlattenChildren(e, n)
    decreases m - n
  {
    if n < m {
      PrefixOfChildren(e, n, m - 1);
      assert FlattenChildren(e, m) == FlattenChildren(e, m - 1) + Flatten(e.contents[m - 1].1);
    }
  }

  /** Appending the next child's block extends the view of the children before it. */
  lemma AppendChildBlock(view: seq<string>, e: FsEntry, k: nat)
    requires k < |e.contents|
    ensures view + FlattenChildren(e, k + 1) == view + FlattenChildren(e, k) + Flatten(e.contents[k].1)
  {
  }

  /** Appending an entry's flattening is appending its line, then its children's blocks. */
  lemma AppendFlatten(view: seq<string>, e: FsEntry)
    ensures view + Flatten(e) == view + [Identifier(e)] + FlattenChildren(e, |e.contents|)
  {
  }

  /** The hash each line is compared by. */
  function IdentifierHash(id: string): bv32 {
    Murmur3Hash(Bytes(id))
  }

  /** `hashes` holds, in lockstep, the hash of each line of `view`. */
  predicate InLockstep(view: seq<string>, hashes: seq<bv32>) {
    && |hashes| == |view|
    && forall k :: 0 <= k < |view| ==> hashes[k] == IdentifierHash(view[k])
  }

  lemma InLockstepAppend(view: seq<string>, hashes: seq<bv32>, more: seq<string>, moreHashes: seq<bv32>)
    requires InLockstep(view, hashes) && InLockstep(more, moreHashes)
    ensures InLockstep(view + more, hashes + moreHashes)
  {
  }

  /** The directory's context is the text window: four lines before, two from the offset on. */
  function DirectoryPresenter(source: seq<string>, destination: seq<string>): (pres: Presenter)
    ensures pres.sourceDisplay == source && pres.destinationDisplay == destination
    ensures forall offset :: pres.context(offset) == TextDiffer.TextContext(source, offset)
  {
    Presenter(source, destination, (offset: nat) => TextDiffer.TextContext(source, offset))
  }

  /** A directory: the loaded tree and its flattened, hashed view. */
  class DirectoryDiffer {
    const filename: string
    const mode: LoadMode
    const precision: Option<nat>
    var rootEntry: FsEntry
    var stringifiedView: seq<string>
    var stringifiedViewHashes: seq<bv32>

    ghost predicate Valid()
      reads this
    {
      && Ordered(rootEntry)
      && InLockstep(stringifiedView, stringifiedViewHashes)
    }

    constructor(filename: string, mode: LoadMode, precision: Option<nat>, rootEntry: FsEntry)
      requires Ordered(rootEntry)
      ensures this.filename == filename && this.mode == mode && this.precision == precision
      ensures this.rootEntry == rootEntry
      ensures stringifiedView == [] && stringifiedViewHashes == []
      ensures Valid()
    {
      this.filename := filename;
      this.mode := mode;
      this.precision := precision;
      this.rootEntry := rootEntry;
      stringifiedView := [];
      stringifiedViewHashes := [];
    }

    /**
     * `LoadData`: the loaded tree (absent when the root is not a directory
     * or listing it fails) replaces the root entry and its flattening is
     * appended to the view.
     */
    method LoadData(listing: Option<FsEntry>) returns (ok: bool)
      requires Valid()
      requires listing.Some? ==> Ordered(listing.value)
      modifies this
      ensures Valid()
      ensures ok <==> listing.Some?
      ensures ok ==> rootEntry == listing.value && stringifiedView == old(stringifiedView) + Flatten(listing.value)
      ensures !ok ==> stringifiedView == old(stringifiedView) && rootEntry == old(rootEntry)
    {
      if listing.None? {
        return false;
      }
      rootEntry := listing.value;
      AddToStringifiedView(rootEntry);
      return true;
    }

    /** One line and its hash pushed onto the view. */
    method PushLine(id: string)
      requires Valid()
      modifies this
      ensures Valid()
      ensures stringifiedView == old(stringifiedView) + [id]
      ensures rootEntry == old(rootEntry)
    {
      var h := Murmur3(Bytes(id));
      assert InLockstep([id], [h]);
      InLockstepAppend(stringifiedView, stringifiedViewHashes, [id], [h]);
      stringifiedView := stringifiedView + [id];
      stringifiedViewHashes := stringifiedViewHashes + [h];
    }

    /** `addToStringifiedView`: appends the entry's line and hash, then each child's, recursively. */
    method AddToStringifiedView(file: FsEntry)
      requires Valid()
      modifies this
      ensures Valid()
      ensures stringifiedView == old(stringifiedView) + Flatten(file)
      ensures rootEntry == old(rootEntry)
      decreases file, 1
    {
      PushLine(Identifier(file));
      ghost var start := stringifiedView;
      var k := 0;
      while k < |file.contents|
        invariant k <= |file.contents|
        invariant Valid()
        invariant stringifiedView == start + FlattenChildren(file, k)
        invariant rootEntry == old(rootEntry)
      {
        AddToStringifiedView(file.contents[k].1);
        AppendChildBlock(start, file, k);
        k := k + 1;
      }
      AppendFlatten(old(stringifiedView), file);
    }

    /**
     * `Diff` against another directory: entry lines are diffed by their
     * hashes, shown as they are, with contexts from this view.
     */
    method Diff(other: DirectoryDiffer) returns (result: DataDifference)
      requires Valid() && other.Valid()
      requires BandConnected(stringifiedViewHashes, other.stringifiedViewHashes,
                             ResolvePrecision(|other.stringifiedViewHashes| + 1, |stringifiedViewHashes| + 1, precision))
      ensures fresh(result)
      ensures result.sourceName == filename && result.destinationName == other.filename
      ensures result.forcedOutputStyle == Default
      ensures OrderedUpTo(result.deltas, |stringifiedView|, |other.stringifiedView|,
                          DirectoryPresenter(stringifiedView, other.stringifiedView))
      ensures DisplaysAgree(stringifiedViewHashes, other.stringifiedViewHashes,
                            DirectoryPresenter(stringifiedView, other.stringifiedView)) ==>
        ApplyPatch(stringifiedView, result.deltas) == other.stringifiedView
      ensures stringifiedView == other.stringifiedView ==> result.deltas == []
    {
      var pres := DirectoryPresenter(stringifiedView, other.stringifiedView);
      if stringifiedView == other.stringifiedView {
        assert stringifiedViewHashes == other.stringifiedViewHashes;
      }
      result := DiffChunks(stringifiedViewHashes, other.stringifiedViewHashes, precision, filename, other.filename, pres);
    }
  }
}
