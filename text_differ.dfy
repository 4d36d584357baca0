/**
 * The text chunk source: a file is a list of lines, compared by the hash of
 * each line after normalisation (whitespace and case are dropped unless the
 * load mode makes them significant) and displayed as the raw line.
 */
module TextDiffer {
  import opened Wrappers
  import opened Utility
  import opened Modes
  import opened Differences
  import opened DiffEngine
  import opened Contexts
  import opened Matrix
  import opened Streams

  // ---------------------------------------------------------------------
  // Normalisation
  // ---------------------------------------------------------------------

  predicate IsUpper(c: char) {
    'A' <= c <= 'Z'
  }

  /** `tolower` in the C locale: only the 26 ASCII capitals change. */
  function ToLower(c: char): (r: char)
    ensures !IsUpper(r)
    ensures IsSpace(r) <==> IsSpace(c)
    ensures !IsUpper(c) ==> r == c
  {
    if IsUpper(c) then (c as int + 32) as char else c
  }

  /** The text without its whitespace, the rest in order (`erase(remove_if(..., isspace))`). */
  function StripSpaces(s: string): (r: string)
    ensures |r| <= |s|
    ensures forall k :: 0 <= k < |r| ==> !IsSpace(r[k])
  {
    if s == [] then []
    else StripSpaces(s[..|s| - 1]) + (if IsSpace(s[|s| - 1]) then [] else [s[|s| - 1]])
  }

  /** Every character lowered (`transform(..., tolower)`). */
  function Lowered(s: string): (r: string)
    ensures |r| == |s|
    ensures forall k :: 0 <= k < |s| ==> r[k] == ToLower(s[k])
  {
    seq(|s|, k requires 0 <= k < |s| => ToLower(s[k]))
  }

  /** The text a line is compared by: whitespace stripped if `strip`, then lowered if `lower`. */
  function Normalize(text: string, strip: bool, lower: bool): (r: string)
    ensures strip ==> forall k :: 0 <= k < |r| ==> !IsSpace(r[k])
    ensures lower ==> forall k :: 0 <= k < |r| ==> !IsUpper(r[k])
  {
    if strip && lower then Lowered(StripSpaces(text))
    else if strip then StripSpaces(text)
    else if lower then Lowered(text)
    else text
  }

  /** The text a line is compared by under `mode`: only the strict flags keep whitespace or case. */
  function NormalizedText(text: string, mode: LoadMode): string {
    Normalize(text, !Has(mode, TEXT_STRICT_WHITESPACE), !Has(mode, TEXT_STRICT_CASE))
  }

  /** Stripping distributes over concatenation. */
  lemma {:induction false} StripSpacesOfAppend(a: string, b: string)
    ensures StripSpaces(a + b) == StripSpaces(a) + StripSpaces(b)
    decreases |b|
  {
    if b == [] {
      assert a + b == a;
    } else {
      var b' := b[..|b| - 1];
      StripSpacesOfAppend(a, b');
      assert (a + b)[..|a + b| - 1] == a + b';
      assert b[..|b| - 1] == b';
    }
  }

  /** A text without whitespace is left as it is. */
  lemma {:induction false} StripSpacesKeepsSpaceless(s: string)
    requires forall k :: 0 <= k < |s| ==> !IsSpace(s[k])
    ensures StripSpaces(s) == s
  {
    if s != [] {
      StripSpacesKeepsSpaceless(s[..|s| - 1]);
      assert s[..|s| - 1] + [s[|s| - 1]] == s;
    }
  }

  /** Normalising distributes over concatenation. */
  lemma NormalizeOfAppend(a: string, b: string, strip: bool, lower: bool)
    ensures Normalize(a + b, strip, lower) == Normalize(a, strip, lower) + Normalize(b, strip, lower)
  {
    if strip {
      StripSpacesOfAppend(a, b);
    }
    var sa := if strip then StripSpaces(a) else a;
    var sb := if strip then StripSpaces(b) else b;
    if lower {
      assert Lowered(sa + sb) == Lowered(sa) + Lowered(sb);
    }
  }

  /** Normalising twice is normalising once. */
  lemma NormalizeIsIdempotent(text: string, strip: bool, lower: bool)
    ensures Normalize(Normalize(text, strip, lower), strip, lower) == Normalize(text, strip, lower)
  {
    var n := Normalize(text, strip, lower);
    if strip {
      StripSpacesKeepsSpaceless(n);
    }
    if lower {
      assert Lowered(n) == n;
    }
  }

  lemma NormalizedTextIsIdempotent(text: string, mode: LoadMode)
    ensures NormalizedText(NormalizedText(text, mode), mode) == NormalizedText(text, mode)
  {
    NormalizeIsIdempotent(text, !Has(mode, TEXT_STRICT_WHITESPACE), !Has(mode, TEXT_STRICT_CASE));
  }

  /** With both strict flags a line is compared exactly as written. */
  lemma StrictNormalizationIsIdentity(text: string, mode: LoadMode)
    requires Has(mode, TEXT_STRICT_CASE) && Has(mode, TEXT_STRICT_WHITESPACE)
    ensures NormalizedText(text, mode) == text
  {
  }

  /** Without strict whitespace, inserting a whitespace character anywhere changes nothing. */
  lemma NormalizationIgnoresWhitespace(x: string, c: char, y: string, mode: LoadMode)
    requires IsSpace(c) && !Has(mode, TEXT_STRICT_WHITESPACE)
    ensures NormalizedText(x + [c] + y, mode) == NormalizedText(x + y, mode)
  {
    var lower := !Has(mode, TEXT_STRICT_CASE);
    NormalizeOfAppend(x + [c], y, true, lower);
    NormalizeOfAppend(x, [c], true, lower);
    NormalizeOfAppend(x, y, true, lower);
    assert StripSpaces([c]) == StripSpaces([]) + [];
    assert Normalize([c], true, lower) == [];
  }

  /** Without strict case, the case of any one character changes nothing. */
  lemma NormalizationIgnoresCase(x: string, c: char, y: string, mode: LoadMode)
    requires !Has(mode, TEXT_STRICT_CASE)
    ensures NormalizedText(x + [c] + y, mode) == NormalizedText(x + [ToLower(c)] + y, mode)
  {
    var strip := !Has(mode, TEXT_STRICT_WHITESPACE);
    NormalizeOfAppend(x + [c], y, strip, true);
    NormalizeOfAppend(x, [c], strip, true);
    NormalizeOfAppend(x + [ToLower(c)], y, strip, true);
    NormalizeOfAppend(x, [ToLower(c)], strip, true);
    assert StripSpaces([c]) == StripSpaces([]) + (if IsSpace(c) then [] else [c]);
    assert StripSpaces([ToLower(c)]) == StripSpaces([]) + (if IsSpace(c) then [] else [ToLower(c)]);
    assert Normalize([c], strip, true) == Normalize([ToLower(c)], strip, true);
  }

  /** `normalizeText`: strip whitespace in place, then lower every character in place. */
  method NormalizeText(text: string, mode: LoadMode) returns (r: string)
    ensures r == NormalizedText(text, mode)
  {
    r := text;
    if !Has(mode, TEXT_STRICT_WHITESPACE) {
      var kept: string := [];
      var k := 0;
      while k < |r|
        invariant k <= |r|
        invariant kept == StripSpaces(r[..k])
      {
        assert r[..k + 1][..k] == r[..k];
        if !IsSpace(r[k]) {
          kept := kept + [r[k]];
        }
        k := k + 1;
      }
      assert r[..k] == r;
      r := kept;
    }
    if !Has(mode, TEXT_STRICT_CASE) {
      ghost var stripped := r;
      var k := 0;
      while k < |r|
        invariant k <= |r| == |stripped|
        invariant forall m :: 0 <= m < k ==> r[m] == ToLower(stripped[m])
        invariant r[k..] == stripped[k..]
      {
        r := r[k := ToLower(r[k])];
        k := k + 1;
      }
      assert r == Lowered(stripped);
    }
  }

  /** The hash a line is compared by. */
  function LineHash(line: string, mode: LoadMode): bv32 {
    Murmur3Hash(Bytes(NormalizedText(line, mode)))
  }

  // ---------------------------------------------------------------------
  // Context
  // ---------------------------------------------------------------------

  const TEXT_CONTEXT_BEFORE: nat := 4
  const TEXT_CONTEXT_AFTER: nat := 2

  /** `generateContext`: up to four lines before the offset and two from it on; one line changed. */
  function TextContext(lines: seq<string>, offset: nat): (ctx: DataContext)
    ensures ctx.maxIdxOfBeforeContext == Min(offset, TEXT_CONTEXT_BEFORE)
    ensures ctx.maxIdxOfOnContext == ctx.maxIdxOfBeforeContext + 1
  {
    var before := BeforeIndex(offset, TEXT_CONTEXT_BEFORE, TEXT_CONTEXT_AFTER);
    DataContext(Window(lines, offset, TEXT_CONTEXT_BEFORE, TEXT_CONTEXT_AFTER), before, before + 1)
  }

  /** Around a line of the file, the context is the lines next to it, with that line at the before index. */
  lemma TextContextAroundLine(lines: seq<string>, offset: nat)
    requires offset < |lines| && |lines| + TEXT_CONTEXT_AFTER <= SIZE_MAX
    ensures var ctx := TextContext(lines, offset);
      && ctx.rawData == lines[Max(0, offset - TEXT_CONTEXT_BEFORE)..Min(|lines|, offset + TEXT_CONTEXT_AFTER)]
      && ctx.maxIdxOfBeforeContext < |ctx.rawData|
      && ctx.rawData[ctx.maxIdxOfBeforeContext] == lines[offset]
      && ctx.WellFormed()
  {
    WindowAroundOffset(lines, offset, TEXT_CONTEXT_BEFORE, TEXT_CONTEXT_AFTER);
  }

  /**
   * A change before the first line is reported at offset `0 - 1`, which
   * wraps to `SIZE_MAX`: its context is empty with the on part at 4..5,
   * out of the range the C++ code's context merge can copy from.
   */
  lemma TextContextBeforeFirstLine(lines: seq<string>)
    requires |lines| + TEXT_CONTEXT_BEFORE <= SIZE_MAX
    ensures TextContext(lines, SizeDec(0)) == DataContext([], 4, 5)
    ensures !MergeDefined(TextContext(lines, SizeDec(0)))
  {
    WindowAtWrappedOffset(lines, TEXT_CONTEXT_BEFORE, TEXT_CONTEXT_AFTER);
  }

  /** How the backtrack shows text lines: raw lines, and the context of the source file. */
  function TextPresenter(source: seq<string>, destination: seq<string>): (pres: Presenter)
    ensures pres.sourceDisplay == source && pres.destinationDisplay == destination
    ensures forall offset :: pres.context(offset) == TextContext(source, offset)
  {
    Presenter(source, destination, (offset: nat) => TextContext(source, offset))
  }

  /**
   * An empty file against one of two or more lines gives additions at
   * source position 0 whose deltas normalisation merges; the second one's
   * context lies outside the domain of the C++ code's context merge
   * (`MergeWithNewContextAsWritten`), which the clamped merge completes
   * with an empty context.
   */
  lemma LeadingAdditionsLeaveMergeDomain(destination: seq<string>)
    requires 2 <= |destination|
    ensures var pres := TextPresenter([], destination);
      var first := EditDelta(Add, 0, 1, pres);
      var second := EditDelta(Add, 0, 2, pres);
      && Mergeable(first, second)
      && !MergeDefined(second.sourceFileContext)
      && MergeWithNewContext(first.sourceFileContext, second.sourceFileContext) == DataContext([], 4, 6)
  {
    TextContextBeforeFirstLine([]);
  }

  // ---------------------------------------------------------------------
  // The differ
  // ---------------------------------------------------------------------

  /** `hashes` holds, in lockstep, the hash of each line. */
  predicate HashesOf(lines: seq<string>, hashes: seq<bv32>, mode: LoadMode) {
    && |hashes| == |lines|
    && forall k :: 0 <= k < |lines| ==> hashes[k] == LineHash(lines[k], mode)
  }

  lemma HashesOfAppend(lines: seq<string>, hashes: seq<bv32>, more: seq<string>, moreHashes: seq<bv32>, mode: LoadMode)
    requires HashesOf(lines, hashes, mode) && HashesOf(more, moreHashes, mode)
    ensures HashesOf(lines + more, hashes + moreHashes, mode)
  {
    forall k | 0 <= k < |lines + more|
      ensures (hashes + moreHashes)[k] == LineHash((lines + more)[k], mode)
    {
      if k < |lines| {
        assert (lines + more)[k] == lines[k] && (hashes + moreHashes)[k] == hashes[k];
      } else {
        assert (lines + more)[k] == more[k - |lines|] && (hashes + moreHashes)[k] == moreHashes[k - |lines|];
      }
    }
  }

  /** A text file: its lines and, in lockstep, the hash of each normalised line. */
  class TextFileDiffer {
    const filename: string
    const mode: LoadMode
    const precision: Option<nat>
    var lines: seq<string>
    var lineHashes: seq<bv32>

    ghost predicate Valid()
      reads this
    {
      HashesOf(lines, lineHashes, mode)
    }

    constructor(filename: string, mode: LoadMode, precision: Option<nat>)
      ensures this.filename == filename && this.mode == mode && this.precision == precision
      ensures lines == [] && lineHashes == []
      ensures Valid()
    {
      this.filename := filename;
      this.mode := mode;
      this.precision := precision;
      lines := [];
      lineHashes := [];
    }

    /**
     * `LoadData`: the lines the file reads as (absent when it cannot be
     * opened) are appended with their hashes.
     */
    method LoadData(input: Option<seq<string>>) returns (ok: bool)
      requires Valid()
      modifies this
      ensures Valid()
      ensures ok <==> input.Some?
      ensures lines == old(lines) + (if ok then input.value else [])
    {
      if input.None? {
        return false;
      }
      var added: seq<string> := [];
      var addedHashes: seq<bv32> := [];
      var k := 0;
      while k < |input.value|
        invariant k <= |input.value| && added == input.value[..k]
        invariant HashesOf(added, addedHashes, mode)
        invariant unchanged(this)
      {
        var line := input.value[k];
        var normalized := NormalizeText(line, mode);
        var hash := Murmur3(Bytes(normalized));
        assert HashesOf([line], [hash], mode);
        HashesOfAppend(added, addedHashes, [line], [hash], mode);
        added := added + [line];
        addedHashes := addedHashes + [hash];
        assert input.value[..k + 1] == input.value[..k] + [line];
        k := k + 1;
      }
      assert added == input.value;
      HashesOfAppend(lines, lineHashes, added, addedHashes, mode);
      lines := lines + added;
      lineHashes := lineHashes + addedHashes;
      return true;
    }

    /**
     * `Diff` against another text file: the lines are diffed by their
     * hashes, shown raw, with contexts from this file.
     */
    method Diff(other: TextFileDiffer) returns (result: DataDifference)
      requires Valid() && other.Valid()
      requires BandConnected(lineHashes, other.lineHashes,
                             ResolvePrecision(|other.lineHashes| + 1, |lineHashes| + 1, precision))
      ensures fresh(result)
      ensures result.sourceName == filename && result.destinationName == other.filename
      ensures result.forcedOutputStyle == Default
      ensures OrderedUpTo(result.deltas, |lines|, |other.lines|, TextPresenter(lines, other.lines))
      ensures DisplaysAgree(lineHashes, other.lineHashes, TextPresenter(lines, other.lines)) ==>
        ApplyPatch(lines, result.deltas) == other.lines
      ensures (mode == other.mode && |lines| == |other.lines|
               && forall k :: 0 <= k < |lines| ==> NormalizedText(lines[k], mode) == NormalizedText(other.lines[k], mode))
        ==> result.deltas == []
      ensures |lines| == 0 ==> |result.deltas| == |other.lines|
      ensures |lines| == 0 ==> forall k :: 0 <= k < |other.lines| ==>
        result.deltas[k] == EditDelta(Add, 0, k + 1, TextPresenter(lines, other.lines))
    {
      var pres := TextPresenter(lines, other.lines);
      if mode == other.mode && |lines| == |other.lines|
         && forall k :: 0 <= k < |lines| ==> NormalizedText(lines[k], mode) == NormalizedText(other.lines[k], mode)
      {
        assert lineHashes == other.lineHashes;
      }
      result := DiffChunks(lineHashes, other.lineHashes, precision, filename, other.filename, pres);
    }
  }
}
