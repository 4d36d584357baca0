/**
 * The binary chunk source: a file is its bytes, compared directly and
 * displayed one byte at a time as the hex string of the (signed) C++ `char`.
 */
module BinaryDiffer {
  import opened Wrappers
  import opened Utility
  import opened Modes
  import opened Differences
  import opened DiffEngine
  import opened Contexts
  import opened Matrix

  /** Each byte shown as its hex string, in order. */
  function HexStrings(bytes: seq<bv8>): (r: seq<string>)
    ensures |r| == |bytes|
    ensures forall k :: 0 <= k < |bytes| ==> r[k] == ByteToHexString(bytes[k])
  {
    seq(|bytes|, k requires 0 <= k < |bytes| => ByteToHexString(bytes[k]))
  }

  /** Distinct bytes are shown as distinct strings, so the hex view loses nothing. */
  lemma ByteToHexStringInjective(a: bv8, b: bv8)
    requires ByteToHexString(a) == ByteToHexString(b)
    ensures a == b
  {
    HexStringRoundTrip(SignExtend(a), 2);
    HexStringRoundTrip(SignExtend(b), 2);
    assert a as nat == b as nat;
    assert a == (a as nat) as bv8 && b == (b as nat) as bv8;
  }

  lemma HexStringsInjective(xs: seq<bv8>, ys: seq<bv8>)
    requires HexStrings(xs) == HexStrings(ys)
    ensures xs == ys
  {
    forall k | 0 <= k < |xs|
      ensures xs[k] == ys[k]
    {
      ByteToHexStringInjective(xs[k], ys[k]);
    }
  }

  const BINARY_CONTEXT_BEFORE: nat := 8
  const BINARY_CONTEXT_AFTER: nat := 8

  /** `generateContext`: up to eight bytes either side of the offset, as hex strings; one byte changed. */
  function BinaryContext(data: seq<bv8>, offset: nat): (ctx: DataContext)
    ensures ctx.maxIdxOfBeforeContext == Min(offset, BINARY_CONTEXT_BEFORE)
    ensures ctx.maxIdxOfOnContext == ctx.maxIdxOfBeforeContext + 1
  {
    var before := BeforeIndex(offset, BINARY_CONTEXT_BEFORE, BINARY_CONTEXT_AFTER);
    DataContext(HexStrings(Window(data, offset, BINARY_CONTEXT_BEFORE, BINARY_CONTEXT_AFTER)), before, before + 1)
  }

  /** Around a byte of the file, the context shows the bytes next to it, that byte at the before index. */
  lemma BinaryContextAroundByte(data: seq<bv8>, offset: nat)
    requires offset < |data| && |data| + BINARY_CONTEXT_AFTER <= SIZE_MAX
    ensures var ctx := BinaryContext(data, offset);
      && ctx.rawData == HexStrings(data[Max(0, offset - BINARY_CONTEXT_BEFORE)..Min(|data|, offset + BINARY_CONTEXT_AFTER)])
      && ctx.maxIdxOfBeforeContext < |ctx.rawData|
      && ctx.rawData[ctx.maxIdxOfBeforeContext] == ByteToHexString(data[offset])
      && ctx.WellFormed()
  {
    WindowAroundOffset(data, offset, BINARY_CONTEXT_BEFORE, BINARY_CONTEXT_AFTER);
  }

  /** A change before the first byte has an empty context with the on part at 8..9. */
  lemma BinaryContextBeforeFirstByte(data: seq<bv8>)
    requires |data| + BINARY_CONTEXT_BEFORE <= SIZE_MAX
    ensures BinaryContext(data, SizeDec(0)) == DataContext([], 8, 9)
    ensures !MergeDefined(BinaryContext(data, SizeDec(0)))
  {
    WindowAtWrappedOffset(data, BINARY_CONTEXT_BEFORE, BINARY_CONTEXT_AFTER);
  }

  /** How the backtrack shows bytes: hex strings, and the context of the source file. */
  function BinaryPresenter(source: seq<bv8>, destination: seq<bv8>): (pres: Presenter)
    ensures pres.sourceDisplay == HexStrings(source) && pres.destinationDisplay == HexStrings(destination)
    ensures forall offset :: pres.context(offset) == BinaryContext(source, offset)
  {
    Presenter(HexStrings(source), HexStrings(destination), (offset: nat) => BinaryContext(source, offset))
  }

  /** A binary file: the bytes it was loaded with. */
  class BinaryFileDiffer {
    const filename: string
    const mode: LoadMode
    const precision: Option<nat>
    var data: seq<bv8>

    constructor(filename: string, mode: LoadMode, precision: Option<nat>)
      ensures this.filename == filename && this.mode == mode && this.precision == precision
      ensures data == []
    {
      this.filename := filename;
      this.mode := mode;
      this.precision := precision;
      data := [];
    }

    /** `LoadData`: the file's bytes (absent when it cannot be opened) replace the data. */
    method LoadData(input: Option<seq<bv8>>) returns (ok: bool)
      modifies this
      ensures ok <==> input.Some?
      ensures data == if ok then input.value else old(data)
    {
      if input.None? {
        return false;
      }
      data := input.value;
      return true;
    }

    /**
     * `Diff` against another binary file: bytes are diffed directly and
     * shown in hex, so the script always rewrites this file's hex view into
     * the other's.
     */
    method Diff(other: BinaryFileDiffer) returns (result: DataDifference)
      requires BandConnected(data, other.data, ResolvePrecision(|other.data| + 1, |data| + 1, precision))
      ensures fresh(result)
      ensures result.sourceName == filename && result.destinationName == other.filename
      ensures result.forcedOutputStyle == Default
      ensures OrderedUpTo(result.deltas, |data|, |other.data|, BinaryPresenter(data, other.data))
      ensures ApplyPatch(HexStrings(data), result.deltas) == HexStrings(other.data)
      ensures data == other.data ==> result.deltas == []
      ensures |data| == 0 ==> |result.deltas| == |other.data|
    {
      var pres := BinaryPresenter(data, other.data);
      assert DisplaysAgree(data, other.data, pres);
      result := DiffChunks(data, other.data, precision, filename, other.filename, pres);
    }
  }
}
