/**
 * `PPMFile`, the loaded image object: its header fields and values are
 * changed in place by the operations the image differ applies.
 */
module PPMFiles {
  import opened Wrappers
  import opened Utility
  import opened Streams
  import opened PPM
  import opened PPMImage

  // ---------------------------------------------------------------------
  // What the writer's loops have written so far
  // ---------------------------------------------------------------------

  /** The text of `n` blocks, the `j`-th written by `show` for the values from index `from + j * step` on. */
  function BlocksText(show: nat -> string, from: nat, step: nat, n: nat): string
    decreases n
  {
    if n == 0 then "" else BlocksText(show, from, step, n - 1) + show(from + Times(n - 1, step))
  }

  /** Blocks whose texts are the renderings of their tokens render to the joined texts. */
  lemma {:induction false} BlocksTextIsRender(show: nat -> string, block: nat -> seq<Token>, from: nat, step: nat, n: nat)
    requires forall k :: show(k) == Render(block(k))
    ensures BlocksText(show, from, step, n) == Render(Blocks(block, from, step, n))
    decreases n
  {
    if n > 0 {
      var last := from + Times(n - 1, step);
      BlocksTextIsRender(show, block, from, step, n - 1);
      RenderAppend(Blocks(block, from, step, n - 1), block(last));
    }
  }

  /** The spaces written after a pixel: two when it has several values. */
  function PixelPad(vpp: nat): string {
    if vpp > 1 then "  " else ""
  }

  /** The first `n` of the values from index `k` on, each followed by a space. */
  function ValuesText(data: seq<Unsigned>, k: nat, n: nat): string {
    BlocksText((j: nat) => Numeral(data, j) + " ", k, 1, n)
  }

  /** The pixel at index `k`: its values, then the pad. */
  function PixelText(data: seq<Unsigned>, k: nat, vpp: nat): string {
    ValuesText(data, k, vpp) + PixelPad(vpp)
  }

  /** The first `columns` pixels of the row starting at index `k`. */
  function RowText(data: seq<Unsigned>, k: nat, columns: nat, vpp: nat): string {
    BlocksText((j: nat) => PixelText(data, j, vpp), k, vpp, columns)
  }

  /** The first `rows` lines of `width` pixels from index `k` on. */
  function RowsText(data: seq<Unsigned>, k: nat, width: nat, vpp: nat, rows: nat): string {
    BlocksText((j: nat) => RowText(data, j, width, vpp) + "\n", k, Times(width, vpp), rows)
  }

  /** One more value written. */
  lemma ValuesTextStep(data: seq<Unsigned>, k: nat, n: nat, text: string, value: string)
    requires text == ValuesText(data, k, n)
    requires value == Numeral(data, k + n) + " "
    ensures text + value == ValuesText(data, k, n + 1)
  {
    TimesIsProduct(n, 1);
  }

  /** One more pixel written. */
  lemma RowTextStep(data: seq<Unsigned>, k: nat, columns: nat, vpp: nat, text: string, pixel: string)
    requires text == RowText(data, k, columns, vpp)
    requires pixel == PixelText(data, k + Times(columns, vpp), vpp)
    ensures text + pixel == RowText(data, k, columns + 1, vpp)
  {
  }

  /** One more line written. */
  lemma RowsTextStep(data: seq<Unsigned>, k: nat, width: nat, vpp: nat, rows: nat, text: string, from: nat, line: string)
    requires text == RowsText(data, k, width, vpp, rows)
    requires from == k + Times(rows, Times(width, vpp))
    requires line == RowText(data, from, width, vpp)
    ensures text + (line + "\n") == RowsText(data, k, width, vpp, rows + 1)
  {
  }

  lemma PixelTextIsRender(data: seq<Unsigned>, k: nat, vpp: nat)
    ensures PixelText(data, k, vpp) == Render(PixelTokens(data, k, vpp))
  {
    var show := (j: nat) => Numeral(data, j) + " ";
    var value := (j: nat) => ValueTokens(data, j);
    forall j: nat
      ensures show(j) == Render(value(j))
    {
      assert Render(value(j)) == TokenText(value(j)[0]) + Render([]);
    }
    BlocksTextIsRender(show, value, k, 1, vpp);
    var pad: seq<Token> := if vpp > 1 then [Gap("  ")] else [];
    RenderAppend(ValuesTokens(data, k, vpp), pad);
    if vpp > 1 {
      assert Render(pad) == TokenText(pad[0]) + Render([]);
    }
  }

  lemma RowTextIsRender(data: seq<Unsigned>, k: nat, columns: nat, vpp: nat)
    ensures RowText(data, k, columns, vpp) == Render(RowTokens(data, k, columns, vpp))
  {
    var show := (j: nat) => PixelText(data, j, vpp);
    var pixel := (j: nat) => PixelTokens(data, j, vpp);
    forall j: nat
      ensures show(j) == Render(pixel(j))
    {
      PixelTextIsRender(data, j, vpp);
    }
    BlocksTextIsRender(show, pixel, k, vpp, columns);
  }

  /** The text the writer's loops produce is the rendering of the writes the image's text is made of. */
  lemma RowsTextIsRender(data: seq<Unsigned>, k: nat, width: nat, vpp: nat, rows: nat)
    ensures RowsText(data, k, width, vpp, rows) == Render(RowsTokens(data, k, width, vpp, rows))
  {
    var show := (j: nat) => RowText(data, j, width, vpp) + "\n";
    var line := (j: nat) => LineTokens(data, j, width, vpp);
    forall j: nat
      ensures show(j) == Render(line(j))
    {
      var newline: seq<Token> := [Gap("\n")];
      RowTextIsRender(data, j, width, vpp);
      RenderAppend(RowTokens(data, j, width, vpp), newline);
      assert Render(newline) == TokenText(newline[0]) + Render([]);
    }
    BlocksTextIsRender(show, line, k, Times(width, vpp), rows);
  }

  /** A PPM image held in memory. */
  class PPMFile {
    /** 1 for P1, 2 for P2, 3 for P3. */
    var version: nat
    var width: nat
    var height: nat
    /** Exactly 1 for P1; the number of shades (P2) or of values per colour (P3) otherwise. */
    var colorDepth: nat
    /** The values row by row, three per pixel for P3. */
    var data: seq<Unsigned>

    /** The image the object holds. */
    function Contents(): Image
      reads this
    {
      Image(version, width, height, colorDepth, data)
    }

    /** An object holding `img` (also the copy constructor, given the copied object's contents). */
    constructor(img: Image)
      ensures Contents() == img
    {
      version := img.version;
      width := img.width;
      height := img.height;
      colorDepth := img.colorDepth;
      data := img.data;
    }

    /**
     * `Load` over the words of the file: nothing unless the loader accepts
     * them, else a new object holding the loaded image.
     */
    static method Load(words: seq<string>) returns (r: Option<PPMFile>)
      ensures r.None? <==> LoadedImage(words).None?
      ensures r.Some? ==> fresh(r.value) && r.value.Contents() == LoadedImage(words).value
    {
      var header := ReadHeader(words);
      if header.None? {
        return None;
      }
      var h := header.value;
      var start := DataStart(h.version);
      var toRead := SizeMul(SizeMul(h.width, h.height), ValuesPerPixel(h.version));
      var data: seq<Unsigned> := [];
      var i := 0;
      while i < toRead
        invariant i <= toRead
        invariant ReadValues(words, start, i) == Some(data)
      {
        var val := ParseUnsigned(WordAt(words, start + i), UNSIGNED_MODULUS);
        ReadValuesNext(words, start, i, data);
        if val.None? {
          ReadValuesFailurePersists(words, start, i + 1, toRead);
          return None;
        }
        data := data + [val.value as Unsigned];
        i := i + 1;
      }
      var file := new PPMFile(h.(data := data));
      return Some(file);
    }

    /**
     * The header part of `Load`: the version word must be P1, P2 or P3; the
     * dimensions and, except for P1, the depth are read as `size_t`; the
     * pixel count on `size_t` and the depth of a P2/P3 must not be zero.
     */
    static method ReadHeader(words: seq<string>) returns (header: Option<Image>)
      ensures header == LoadedHeader(words)
    {
      var first := if |words| > 0 then words[0] else "";
      var version: nat;
      if first == "P1" {
        version := 1;
      } else if first == "P2" {
        version := 2;
      } else if first == "P3" {
        version := 3;
      } else {
        return None;
      }
      assert HeaderVersion(WordAt(words, 0)) == Some(version);
      var width := ParseUnsigned(WordAt(words, 1), SIZE_MODULUS);
      var height := ParseUnsigned(WordAt(words, 2), SIZE_MODULUS);
      var depth := if version > 1 then ParseUnsigned(WordAt(words, 3), SIZE_MODULUS) else Some(1);
      if width.None? || height.None? || depth.None? {
        return None;
      }
      if SizeMul(width.value, height.value) == 0 {
        return None;
      }
      if version > 1 && depth.value == 0 {
        return None;
      }
      return Some(Image(version, width.value, height.value, depth.value, []));
    }

    /** The header lines `operator<<` writes: the version, the dimensions and, unless P1, the depth. */
    method WriteHeader() returns (text: string)
      ensures text == HeaderText(Contents())
    {
      text := "P" + DecimalString(version) + "\n";
      text := text + DecimalString(width) + " " + DecimalString(height) + "\n";
      if version != 1 {
        text := text + DecimalString(colorDepth) + "\n";
      }
    }

    /** The values of the pixel at index `k` as `operator<<` writes them, with the pad after a P3 pixel. */
    method WritePixel(k: nat) returns (text: string)
      requires k + ValuesPerPixel(version) <= |data|
      ensures text == PixelText(data, k, ValuesPerPixel(version))
    {
      var values := data;
      var vpp := if version <= 2 then 1 else 3;
      var written := "";
      var nthColor := 0;
      while nthColor < vpp
        invariant nthColor <= vpp
        invariant written == ValuesText(values, k, nthColor)
      {
        var value := Numeral(values, k + nthColor) + " ";
        ValuesTextStep(values, k, nthColor, written, value);
        written, nthColor := written + value, nthColor + 1;
      }
      assert vpp == ValuesPerPixel(version) && values == data;
      text := written;
      if vpp > 1 {
        text := text + "  ";
      }
      assert text == written + PixelPad(vpp);
    }

    /** The `width` pixels of the row starting at index `k`, as `operator<<` writes them. */
    method WriteRow(k: nat) returns (text: string)
      requires k + Times(width, ValuesPerPixel(version)) <= |data|
      ensures text == RowText(data, k, width, ValuesPerPixel(version))
    {
      var vpp := ValuesPerPixel(version);
      text := "";
      var from := k;
      var column := 0;
      while column < width
        invariant column <= width
        invariant from == k + Times(column, vpp)
        invariant text == RowText(data, k, column, vpp)
      {
        TimesAppend(column, vpp);
        TimesMonotone(column + 1, width, vpp);
        var pixel := WritePixel(from);
        RowTextStep(data, k, column, vpp, text, pixel);
        text := text + pixel;
        from := from + vpp;
        column := column + 1;
      }
    }

    /**
     * `operator<<`: the header lines, then each row's values, each followed
     * by a space, two more spaces after each pixel of a P3, and a newline
     * after each row.
     */
    method Serialize() returns (text: string)
      requires Times(height, Times(width, ValuesPerPixel(version))) <= |data|
      ensures text == PPMText(Contents())
    {
      var header := WriteHeader();
      var vpp := ValuesPerPixel(version);
      var stride := Times(width, vpp);
      var body := "";
      var k := 0;
      var row := 0;
      while row < height
        invariant row <= height
        invariant k == Times(row, stride)
        invariant body == RowsText(data, 0, width, vpp, row)
      {
        TimesAppend(row, stride);
        TimesMonotone(row + 1, height, stride);
        var line := WriteRow(k);
        RowsTextStep(data, 0, width, vpp, row, body, k, line);
        body := body + (line + "\n");
        k := k + stride;
        row := row + 1;
      }
      text := header + body;
      RowsTextIsRender(data, 0, width, vpp, height);
    }

    /**
     * `enlarge`: rebuilds the values row by row (each old row, read on from
     * where the previous one stopped, then the extra zeros), adds zero rows,
     * and grows the dimensions.
     */
    method Enlarge(targetWidth: nat, targetHeight: nat)
      modifies this
      ensures Contents() == Enlarged(old(Contents()), targetWidth, targetHeight)
    {
      var newData := EnlargedValues(targetWidth, targetHeight);
      data := newData;
      width := width + Growth(width, targetWidth);
      height := height + Growth(height, targetHeight);
    }

    /**
     * The loops of `enlarge`: each old row, read on from where the previous
     * one stopped, then the extra zeros; then the zero rows.
     */
    method EnlargedValues(targetWidth: nat, targetHeight: nat) returns (newData: seq<Unsigned>)
      ensures newData == Enlarged(Contents(), targetWidth, targetHeight).data
    {
      var extraWidth := Growth(width, targetWidth);
      var extraHeight := Growth(height, targetHeight);
      newData := [];
      var vpp := ValuesPerPixel(version);
      var extraValues := Times(extraWidth, vpp);
      var currentValues := Times(width, vpp);
      var k := 0;
      var row := 0;
      while row < height
        invariant row <= height
        invariant k == Times(row, currentValues)
        invariant newData == EnlargedRows(data, row, currentValues, extraValues)
      {
        var copied := CopyRow(k, currentValues);
        var zeros := ZeroValues(extraValues);
        newData := newData + copied;
        newData := newData + zeros;
        TimesAppend(row, currentValues);
        k := k + currentValues;
        row := row + 1;
      }
      var below := ZeroValues(Times(extraHeight, Times(width + extraWidth, vpp)));
      newData := newData + below;
    }

    /** The `n` values from index `from` on, each 0 past the end, read one at a time. */
    method CopyRow(from: nat, n: nat) returns (values: seq<Unsigned>)
      ensures values == CopyValues(data, from, n)
    {
      values := [];
      var l := 0;
      while l < n
        invariant l <= n
        invariant values == CopyValues(data, from, l)
      {
        values := values + [if from + l < |data| then data[from + l] else 0];
        l := l + 1;
      }
    }

    /** `n` zero values, appended one at a time. */
    static method ZeroValues(n: nat) returns (zeros: seq<Unsigned>)
      ensures zeros == Zeros(n)
    {
      zeros := [];
      var l := 0;
      while l < n
        invariant l <= n
        invariant zeros == Zeros(l)
      {
        zeros := zeros + [0];
        l := l + 1;
      }
    }

    /**
     * `upgradeVersion`: nothing when the target is not above the current
     * version; a P1 has its values turned into grays in place and becomes a
     * P2; a P2 headed for P3 only has its version raised; the depth becomes
     * the target depth.
     */
    method UpgradeVersion(targetVersion: nat, targetColorDepth: nat)
      modifies this
      ensures Contents() == Upgraded(old(Contents()), targetVersion, targetColorDepth)
    {
      if targetVersion <= version {
        return;
      }
      if version == 1 {
        var values := data;
        var i := 0;
        while i < |values|
          invariant i <= |values| == |data|
          invariant forall k :: 0 <= k < i ==> values[k] == GrayOf(data[k], targetColorDepth)
          invariant forall k :: i <= k < |values| ==> values[k] == data[k]
        {
          values := values[i := if values[i] == 0 then 0 else (targetColorDepth % UNSIGNED_MODULUS) as Unsigned];
          i := i + 1;
        }
        assert values == GraysOf(data, targetColorDepth);
        data := values;
        version := version + 1;
      }
      if version == 2 && targetVersion == 3 {
        version := version + 1;
      }
      colorDepth := targetColorDepth;
    }

    /**
     * `XORWith`: upgrades this image to the other's version and a copy of
     * the other to this one's new version, enlarges both to the larger
     * size, then XORs the values in place. Returns the receiver.
     */
    method XORWith(other: PPMFile) returns (self: PPMFile)
      requires ValidVersion(version) && ValidVersion(other.version)
      modifies this
      ensures self == this
      ensures Contents() == Xored(old(Contents()), old(other.Contents()))
    {
      ghost var a := Contents();
      ghost var b := other.Contents();
      var rhs := new PPMFile(other.Contents());
      UpgradeVersion(rhs.version, rhs.colorDepth);
      rhs.UpgradeVersion(version, colorDepth);
      assert other.width == b.width && other.height == b.height;
      Enlarge(other.width, other.height);
      rhs.Enlarge(width, height);
      XorOperandsAgree(a, b);
      assert Contents() == XorLeft(a, b);
      assert rhs.Contents() == XorRight(a, b);
      var values := XoredValues(rhs);
      data := values;
      return this;
    }

    /** The XOR loop of `XORWith`: each value XOR-ed with the other image's value at the same index. */
    method XoredValues(rhs: PPMFile) returns (values: seq<Unsigned>)
      requires |rhs.data| == |data|
      ensures values == XorValues(data, rhs.data)
    {
      values := data;
      var i := 0;
      while i < |values|
        invariant i <= |values| == |data|
        invariant forall k :: 0 <= k < i ==> values[k] == Xor(data[k], rhs.data[k])
        invariant forall k :: i <= k < |values| ==> values[k] == data[k]
      {
        values := values[i := Xor(values[i], rhs.data[i])];
        i := i + 1;
      }
    }
  }
}
