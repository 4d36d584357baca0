/**
 * The image differ: it loads one PPM image per side, and its difference is
 * the left image XORed with the right one, written out as a PPM file and
 * handed over as a single modification that is printed unchanged.
 */
module PPMDiffer {
  import opened Wrappers
  import opened Streams
  import opened Modes
  import opened Differences
  import opened PPM
  import opened PPMImage
  import opened PPMFiles
  import Args
  import Outputs

  /** An image differ has no context to give: no raw chunks, both parts empty. */
  function GenerateContext(offset: nat): (c: DataContext)
    ensures c.rawData == [] && c.maxIdxOfBeforeContext == 0 && c.maxIdxOfOnContext == 0
  {
    DataContext([], 0, 0)
  }

  /** The one delta of an image difference: the written image, no context, all positions 0. */
  function ImageDelta(img: Image): (d: DataDelta)
    ensures d.kind == Modification && d.deltaInfo == [PPMText(img)]
    ensures d.sourceFileContext == GenerateContext(0)
    ensures d.indicatorSource == 0 && d.indicatorDestination == 0
    ensures d.indicatorSourceLen == 0 && d.indicatorDestLen == 0
  {
    DataDelta(Modification, [PPMText(img)], GenerateContext(0), 0, 0, 0, 0)
  }

  class PPMFileDiffer {
    const filename: string
    const mode: LoadMode
    /** The loaded image; null until `LoadData` succeeds. */
    var file: PPMFile?

    /** A loaded image has a version the reader accepts. */
    ghost predicate Valid()
      reads this, file
    {
      file != null ==> ValidVersion(file.version)
    }

    constructor(filename: string, mode: LoadMode)
      ensures this.filename == filename && this.mode == mode
      ensures file == null
      ensures Valid()
    {
      this.filename := filename;
      this.mode := mode;
      file := null;
    }

    /**
     * `LoadData`: reads the image from the file's words (absent when the
     * file cannot be opened); on success the differ holds a new object
     * with that image, on failure it keeps what it had.
     */
    method LoadData(input: Option<seq<string>>) returns (ok: bool)
      requires Valid()
      modifies this
      ensures Valid()
      ensures ok <==> input.Some? && LoadedImage(input.value).Some?
      ensures ok ==> file != null && fresh(file) && file.Contents() == LoadedImage(input.value).value
      ensures !ok ==> file == old(file)
    {
      if input.None? {
        return false;
      }
      var loaded := PPMFile.Load(input.value);
      if loaded.None? {
        return false;
      }
      LoadedImageShape(input.value);
      file := loaded.value;
      return true;
    }

    /**
     * `Diff`: nothing when no image was loaded; otherwise the loaded image
     * is replaced by its XOR with the other side's image, and the result
     * names both files and carries that image's text as its single
     * modification, to be printed as it is.
     */
    method Diff(other: PPMFileDiffer) returns (r: Option<DataDifference>)
      requires Valid() && other.Valid()
      requires file != null ==> other.file != null
      modifies file
      ensures Valid()
      ensures r.None? <==> file == null
      ensures file != null ==> file.Contents() == Xored(old(file.Contents()), old(other.file.Contents()))
      ensures r.Some? ==>
        && fresh(r.value)
        && r.value.sourceName == filename && r.value.destinationName == other.filename
        && r.value.deltas == [ImageDelta(file.Contents())]
        && r.value.forcedOutputStyle == DirectPrint
    {
      if file == null {
        return None;
      }
      var xored := file.XORWith(other.file);
      XoredShape(old(file.Contents()), old(other.file.Contents()));
      ValueCountByRows(xored.Contents());
      var text := xored.Serialize();
      var delta := DataDelta(Modification, [text], GenerateContext(0), 0, 0, 0, 0);
      var difference := new DataDifference(filename, other.filename, [delta], DirectPrint);
      return Some(difference);
    }
  }

  /** The difference is printed directly, whatever the user asked for and wherever standard output goes. */
  lemma ImageDifferenceIsPrintedDirectly(img: Image, forcedOutputStyle: Option<Args.ForcedOutputStyle>, stdoutIsTerminal: bool)
    ensures Outputs.GetOutput(forcedOutputStyle, DirectPrint, stdoutIsTerminal) == Outputs.DirectOutput
    ensures Outputs.DirectText([ImageDelta(img)]) == PPMText(img)
  {
    Outputs.DirectTextOfSingle(ImageDelta(img));
  }

  /** What the differ prints is a PPM file that reads back as the XORed image. */
  lemma PrintedDifferenceLoadsBack(a: Image, b: Image)
    requires ValidVersion(a.version) && ValidVersion(b.version)
    requires Loadable(Xored(a, b))
    ensures LoadedImage(Words(Outputs.DirectText([ImageDelta(Xored(a, b))]))) == Some(Xored(a, b))
  {
    ImageDifferenceIsPrintedDirectly(Xored(a, b), None, false);
    LoadOfWritten(Xored(a, b));
  }

  /** Diffing the printed difference against the right image again gives back the left image. */
  lemma DifferenceAgainRestores(a: Image, b: Image)
    requires SameShape(a, b) && Loadable(Xored(a, b))
    ensures var printed := LoadedImage(Words(Outputs.DirectText([ImageDelta(Xored(a, b))])));
      printed.Some? && Xored(printed.value, b) == a
  {
    PrintedDifferenceLoadsBack(a, b);
    XorTwiceRestores(a, b);
  }
}
