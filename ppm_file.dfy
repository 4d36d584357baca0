/**
 * The plain Netpbm image (P1 bitmap, P2 graymap, P3 pixmap, ASCII only):
 * loading it from the words of a file, writing it back, and the in-place
 * operations the image differ uses to XOR two images of possibly different
 * version and size.
 */
module PPM {
  import opened Wrappers
  import opened Utility
  import opened Streams

  /** Number of distinct values of `unsigned` (32 bits). */
  const UNSIGNED_MODULUS: nat := 0x1_0000_0000

  /** A value of type `unsigned`. */
  newtype Unsigned = x: int | 0 <= x < 0x1_0000_0000

  function Pow2(n: nat): (p: nat)
    ensures p >= 1
  {
    if n == 0 then 1 else 2 * Pow2(n - 1)
  }

  lemma {:induction false} Pow2Add(a: nat, b: nat)
    ensures Pow2(a + b) == Pow2(a) * Pow2(b)
    decreases a
  {
    if a > 0 {
      Pow2Add(a - 1, b);
    }
  }

  lemma Pow2Of32()
    ensures Pow2(32) == UNSIGNED_MODULUS
  {
    assert Pow2(4) == 16;
    Pow2Add(4, 4);
    Pow2Add(8, 8);
    Pow2Add(16, 16);
  }

  /** Exclusive or of the lowest `bits` binary digits of `x` and `y`, lowest digit first. */
  function XorBits(x: nat, y: nat, bits: nat): nat
    decreases bits
  {
    if bits == 0 then 0
    else (if x % 2 == y % 2 then 0 else 1) + 2 * XorBits(x / 2, y / 2, bits - 1)
  }

  /** The exclusive or of `bits` binary digits has no more digits. */
  lemma {:induction false} XorBitsBound(x: nat, y: nat, bits: nat)
    ensures XorBits(x, y, bits) < Pow2(bits)
    decreases bits
  {
    if bits > 0 {
      XorBitsBound(x / 2, y / 2, bits - 1);
    }
  }

  /** `x ^ y` on `unsigned`. */
  function Xor(x: Unsigned, y: Unsigned): Unsigned {
    XorBitsBound(x as nat, y as nat, 32);
    Pow2Of32();
    XorBits(x as nat, y as nat, 32) as Unsigned
  }

  lemma {:induction false} XorBitsSelf(x: nat, bits: nat)
    ensures XorBits(x, x, bits) == 0
    decreases bits
  {
    if bits > 0 {
      XorBitsSelf(x / 2, bits - 1);
    }
  }

  lemma {:induction false} XorBitsCancel(x: nat, y: nat, bits: nat)
    requires x < Pow2(bits)
    ensures XorBits(XorBits(x, y, bits), y, bits) == x
    decreases bits
  {
    if bits > 0 {
      var d := if x % 2 == y % 2 then 0 else 1;
      var rest := XorBits(x / 2, y / 2, bits - 1);
      var z := d + 2 * rest;
      assert XorBits(x, y, bits) == z;
      assert z % 2 == d && z / 2 == rest;
      assert x / 2 < Pow2(bits - 1);
      XorBitsCancel(x / 2, y / 2, bits - 1);
      assert XorBits(z, y, bits) == (if d == y % 2 then 0 else 1) + 2 * (x / 2);
    }
  }

  /** A value XOR-ed with itself is zero. */
  lemma XorSelf(x: Unsigned)
    ensures Xor(x, x) == 0
  {
    XorBitsSelf(x as nat, 32);
  }

  /** XOR-ing twice with the same value gives the first value back. */
  lemma XorCancel(x: Unsigned, y: Unsigned)
    ensures Xor(Xor(x, y), y) == x
  {
    Pow2Of32();
    XorBitsBound(x as nat, y as nat, 32);
    XorBitsCancel(x as nat, y as nat, 32);
  }

  /**
   * The value of an image: version (1 for P1, 2 for P2, 3 for P3), width and
   * height in pixels, colour depth (1 for P1) and the values, row by row,
   * one per pixel up to P2 and three per pixel (red, green, blue) for P3.
   */
  datatype Image = Image(version: nat, width: nat, height: nat, colorDepth: nat, data: seq<Unsigned>)

  function ValuesPerPixel(version: nat): (vpp: nat)
    ensures vpp == 1 || vpp == 3
    ensures vpp == 3 <==> version > 2
  {
    if version <= 2 then 1 else 3
  }

  predicate ValidVersion(version: nat) {
    1 <= version <= 3
  }

  /** Number of values the image's dimensions call for. */
  function ValueCount(img: Image): nat {
    img.width * img.height * ValuesPerPixel(img.version)
  }

  /** The image holds exactly the values its dimensions call for. */
  predicate WellSized(img: Image) {
    |img.data| == ValueCount(img)
  }

  /** The value at index `k`, or 0 past the end. */
  function At(data: seq<Unsigned>, k: nat): (v: Unsigned)
    ensures k < |data| ==> v == data[k]
  {
    if k < |data| then data[k] else 0
  }

  lemma RowMajorBound(r: nat, c: nat, rows: nat, columns: nat)
    requires r < rows && c < columns
    ensures r * columns + c < rows * columns
  {
    calc {
      r * columns + c;
    <
      r * columns + columns;
    ==
      (r + 1) * columns;
    <=
      rows * columns;
    }
  }

  // ---------------------------------------------------------------------
  // Loading
  // ---------------------------------------------------------------------

  /** The version a header word announces: only the ASCII formats are known. */
  function HeaderVersion(word: string): (v: Option<nat>)
    ensures v.Some? ==> ValidVersion(v.value) && word == "P" + DecimalString(v.value)
    ensures v.None? ==> word != "P1" && word != "P2" && word != "P3"
  {
    assert DecimalString(1) == "1" && DecimalString(2) == "2" && DecimalString(3) == "3";
    if word == "P1" then Some(1) else if word == "P2" then Some(2) else if word == "P3" then Some(3) else None
  }

  lemma HeaderVersionOfWritten(version: nat)
    requires ValidVersion(version)
    ensures HeaderVersion("P" + DecimalString(version)) == Some(version)
  {
    var digits := DecimalString(version);
    assert digits == [DigitChar(version)];
    var word := "P" + digits;
    assert |word| == 2 && word[0] == 'P' && word[1] == DigitChar(version);
    if version == 1 {
      assert word == "P1";
    } else if version == 2 {
      assert word == "P2";
    } else {
      assert word == "P3";
    }
  }

  /** The `i`-th word of the file; reading past the end yields nothing readable. */
  function WordAt(words: seq<string>, i: nat): string {
    if i < |words| then words[i] else ""
  }

  /** Index of the first value: after the header, the dimensions and (except P1) the depth. */
  function DataStart(version: nat): nat {
    if version > 1 then 4 else 3
  }

  /** The first `n` values read as `unsigned` from word `from` on, or nothing if one fails. */
  function ReadValues(words: seq<string>, from: nat, n: nat): (r: Option<seq<Unsigned>>)
    ensures r.Some? ==> |r.value| == n
    decreases n
  {
    if n == 0 then Some([])
    else match ReadValues(words, from, n - 1)
      case None => None
      case Some(values) =>
        match ParseUnsigned(WordAt(words, from + n - 1), UNSIGNED_MODULUS)
        case None => None
        case Some(v) => Some(values + [v as Unsigned])
  }

  /** Reading one more value: the read so far, then the next word read as `unsigned`. */
  lemma ReadValuesNext(words: seq<string>, from: nat, n: nat, values: seq<Unsigned>)
    requires ReadValues(words, from, n) == Some(values)
    ensures ParseUnsigned(WordAt(words, from + n), UNSIGNED_MODULUS).None? ==> ReadValues(words, from, n + 1).None?
    ensures ParseUnsigned(WordAt(words, from + n), UNSIGNED_MODULUS).Some? ==>
      ReadValues(words, from, n + 1) == Some(values + [ParseUnsigned(WordAt(words, from + n), UNSIGNED_MODULUS).value as Unsigned])
  {
  }

  /** Once a read has failed, reading more values fails as well. */
  lemma {:induction false} ReadValuesFailurePersists(words: seq<string>, from: nat, n: nat, m: nat)
    requires n <= m && ReadValues(words, from, n).None?
    ensures ReadValues(words, from, m).None?
    decreases m - n
  {
    if n < m {
      ReadValuesFailurePersists(words, from, n, m - 1);
    }
  }

  /**
   * `PPMFile::Load` over the words of the file. The header word must be P1,
   * P2 or P3. Width, height and (except for P1, whose depth is 1) the depth
   * follow as `size_t`; the image is refused when `width * height` is zero
   * on `size_t` or the depth of a P2/P3 is zero. Then `width * height`
   * values (three times as many for P3) are read as `unsigned`; a missing
   * or unreadable one refuses the image. A header number that cannot be
   * read also ends with no image: the field is then zero, which fails a
   * check, or the stream has failed, which fails the first value read.
   */
  function LoadedImage(words: seq<string>): (r: Option<Image>)
  {
    match LoadedHeader(words)
    case None => None
    case Some(header) =>
      match ReadValues(words, DataStart(header.version), ValuesToRead(header))
      case None => None
      case Some(data) => Some(header.(data := data))
  }

  /** The header fields `Load` accepts, as an image with no values read yet. */
  function LoadedHeader(words: seq<string>): (r: Option<Image>)
    ensures r.Some? ==> r.value.data == []
  {
    match HeaderVersion(WordAt(words, 0))
    case None => None
    case Some(version) =>
      var width := ParseUnsigned(WordAt(words, 1), SIZE_MODULUS);
      var height := ParseUnsigned(WordAt(words, 2), SIZE_MODULUS);
      var depth := if version > 1 then ParseUnsigned(WordAt(words, 3), SIZE_MODULUS) else Some(1);
      if width.None? || height.None? || depth.None? then None
      else if SizeMul(width.value, height.value) == 0 then None
      else if version > 1 && depth.value == 0 then None
      else Some(Image(version, width.value, height.value, depth.value, []))
  }

  /** Number of values `Load` reads: the `size_t` product of the dimensions and the values per pixel. */
  function ValuesToRead(header: Image): nat {
    SizeMul(SizeMul(header.width, header.height), ValuesPerPixel(header.version))
  }

  /**
   * What a loaded image looks like: a known header, P1 with depth 1, a
   * non-zero depth otherwise, a non-zero `size_t` pixel count, and as many
   * values as the `size_t` product of the dimensions calls for, which is
   * every value when that product does not wrap.
   */
  lemma LoadedImageShape(words: seq<string>)
    requires LoadedImage(words).Some?
    ensures var img := LoadedImage(words).value;
      && |words| >= 1 && words[0] == "P" + DecimalString(img.version)
      && ValidVersion(img.version)
      && (img.version == 1 ==> img.colorDepth == 1)
      && (img.version > 1 ==> 1 <= img.colorDepth)
      && img.width < SIZE_MODULUS && img.height < SIZE_MODULUS && img.colorDepth < SIZE_MODULUS
      && SizeMul(img.width, img.height) != 0
      && |img.data| == SizeMul(SizeMul(img.width, img.height), ValuesPerPixel(img.version))
      && (ValueCount(img) <= SIZE_MAX ==> WellSized(img))
  {
    var img := LoadedImage(words).value;
    var vpp := ValuesPerPixel(img.version);
    if ValueCount(img) <= SIZE_MAX {
      assert img.width * img.height <= img.width * img.height * vpp;
    }
  }

  // ---------------------------------------------------------------------
  // Writing
  // ---------------------------------------------------------------------

  /** `a * b` by repeated addition, which keeps the index arithmetic of rows linear. */
  function Times(a: nat, b: nat): nat
    decreases a
  {
    if a == 0 then 0 else b + Times(a - 1, b)
  }

  lemma {:induction false} TimesIsProduct(a: nat, b: nat)
    ensures Times(a, b) == a * b
    decreases a
  {
    if a > 0 {
      TimesIsProduct(a - 1, b);
      assert b + (a - 1) * b == a * b;
    }
  }

  /** What `<<` writes for the value at index `k`. */
  function Numeral(data: seq<Unsigned>, k: nat): (w: string)
  {
    DecimalString(At(data, k) as nat)
  }

  /**
   * The writes of one of the writer's nested loops: `n` blocks, one after
   * the other, the `j`-th written by `block` for the values from index
   * `from + j * step` on.
   */
  function Blocks(block: nat -> seq<Token>, from: nat, step: nat, n: nat): seq<Token>
    decreases n
  {
    if n == 0 then [] else Blocks(block, from, step, n - 1) + block(from + Times(n - 1, step))
  }

  /** A single value: its numeral, then a space. */
  function ValueTokens(data: seq<Unsigned>, k: nat): seq<Token> {
    [Field(Numeral(data, k))]
  }

  /** The writes of the `n` values from index `from` on. */
  function ValuesTokens(data: seq<Unsigned>, from: nat, n: nat): seq<Token> {
    Blocks((k: nat) => ValueTokens(data, k), from, 1, n)
  }

  /** One pixel: its values, then two more spaces when a pixel has several values. */
  function PixelTokens(data: seq<Unsigned>, from: nat, vpp: nat): seq<Token> {
    ValuesTokens(data, from, vpp) + (if vpp > 1 then [Gap("  ")] else [])
  }

  /** `columns` pixels of a row, the first one starting at index `from`. */
  function RowTokens(data: seq<Unsigned>, from: nat, columns: nat, vpp: nat): seq<Token> {
    Blocks((k: nat) => PixelTokens(data, k, vpp), from, vpp, columns)
  }

  /** One line of the image: a row of `width` pixels, then a newline. */
  function LineTokens(data: seq<Unsigned>, from: nat, width: nat, vpp: nat): seq<Token> {
    RowTokens(data, from, width, vpp) + [Gap("\n")]
  }

  /** `rows` lines of `width` pixels, the first one starting at index `from`. */
  function RowsTokens(data: seq<Unsigned>, from: nat, width: nat, vpp: nat, rows: nat): seq<Token> {
    Blocks((k: nat) => LineTokens(data, k, width, vpp), from, Times(width, vpp), rows)
  }

  /** `P<version>`, then `<width> <height>`, then the depth unless P1, one line each. */
  function HeaderText(img: Image): (text: string)
    ensures |text| >= 1 && EndsInSpace(text)
  {
    ("P" + DecimalString(img.version) + "\n")
    + (DecimalString(img.width) + " ")
    + (DecimalString(img.height) + "\n")
    + (if img.version != 1 then DecimalString(img.colorDepth) + "\n" else "")
  }

  /** `operator<<` of an image: the header, then `height` lines of pixels. */
  function PPMText(img: Image): string {
    HeaderText(img) + Render(RowsTokens(img.data, 0, img.width, ValuesPerPixel(img.version), img.height))
  }

  // ---------------------------------------------------------------------
  // Reading back what was written
  // ---------------------------------------------------------------------

  /** The numerals of the `n` values from index `from` on. */
  function Numerals(data: seq<Unsigned>, from: nat, n: nat): (ws: seq<string>)
    ensures |ws| == n
  {
    seq(n, i requires 0 <= i < n => Numeral(data, from + i))
  }

  lemma NumeralsAppend(data: seq<Unsigned>, from: nat, n: nat, m: nat)
    ensures Numerals(data, from, n) + Numerals(data, from + n, m) == Numerals(data, from, n + m)
  {
    var whole := Numerals(data, from, n + m);
    forall i | 0 <= i < n + m
      ensures (Numerals(data, from, n) + Numerals(data, from + n, m))[i] == whole[i]
    {
      if i >= n {
        assert Numerals(data, from + n, m)[i - n] == Numeral(data, from + i);
      }
    }
  }

  /** Blocks that each write the numerals of their values write the numerals of all of them. */
  lemma {:induction false} BlocksFields(block: nat -> seq<Token>, data: seq<Unsigned>, from: nat, step: nat, n: nat)
    requires forall k :: FieldWords(block(k)) == Numerals(data, k, step)
    ensures FieldWords(Blocks(block, from, step, n)) == Numerals(data, from, Times(n, step))
    decreases n
  {
    if n > 0 {
      var done := Times(n - 1, step);
      var front := Blocks(block, from, step, n - 1);
      calc {
        FieldWords(Blocks(block, from, step, n));
        FieldWords(front + block(from + done));
        { FieldWordsAppend(front, block(from + done)); }
        FieldWords(front) + FieldWords(block(from + done));
        { BlocksFields(block, data, from, step, n - 1); }
        Numerals(data, from, done) + Numerals(data, from + done, step);
        { NumeralsAppend(data, from, done, step); }
        Numerals(data, from, done + step);
      }
    }
  }

  /** Blocks that each write well-formed tokens write well-formed tokens. */
  lemma {:induction false} BlocksWellFormed(block: nat -> seq<Token>, from: nat, step: nat, n: nat)
    requires forall k :: WellFormedTokens(block(k))
    ensures WellFormedTokens(Blocks(block, from, step, n))
    decreases n
  {
    if n > 0 {
      BlocksWellFormed(block, from, step, n - 1);
      WellFormedAppend(Blocks(block, from, step, n - 1), block(from + Times(n - 1, step)));
    }
  }

  lemma ValueTokensFields(data: seq<Unsigned>, k: nat)
    ensures FieldWords(ValueTokens(data, k)) == Numerals(data, k, 1)
    ensures WellFormedTokens(ValueTokens(data, k))
  {
    var ts := ValueTokens(data, k);
    assert FieldWords(ts) == [ts[0].word] + FieldWords([]);
    DecimalStringIsWord(At(data, k) as nat);
    assert TokenOk(ts[0]);
  }

  lemma PixelTokensFields(data: seq<Unsigned>, from: nat, vpp: nat)
    ensures FieldWords(PixelTokens(data, from, vpp)) == Numerals(data, from, vpp)
    ensures WellFormedTokens(PixelTokens(data, from, vpp))
  {
    var value := (k: nat) => ValueTokens(data, k);
    var pad: seq<Token> := if vpp > 1 then [Gap("  ")] else [];
    forall k: nat
      ensures FieldWords(value(k)) == Numerals(data, k, 1) && WellFormedTokens(value(k))
    {
      ValueTokensFields(data, k);
    }
    BlocksFields(value, data, from, 1, vpp);
    BlocksWellFormed(value, from, 1, vpp);
    TimesIsProduct(vpp, 1);
    FieldWordsAppend(ValuesTokens(data, from, vpp), pad);
    WellFormedAppend(ValuesTokens(data, from, vpp), pad);
  }

  lemma LineTokensFields(data: seq<Unsigned>, from: nat, width: nat, vpp: nat)
    ensures FieldWords(LineTokens(data, from, width, vpp)) == Numerals(data, from, Times(width, vpp))
    ensures WellFormedTokens(LineTokens(data, from, width, vpp))
  {
    var pixel := (k: nat) => PixelTokens(data, k, vpp);
    var newline: seq<Token> := [Gap("\n")];
    forall k: nat
      ensures FieldWords(pixel(k)) == Numerals(data, k, vpp) && WellFormedTokens(pixel(k))
    {
      PixelTokensFields(data, k, vpp);
    }
    BlocksFields(pixel, data, from, vpp, width);
    BlocksWellFormed(pixel, from, vpp, width);
    var row := RowTokens(data, from, width, vpp);
    FieldWordsAppend(row, newline);
    assert FieldWords(newline) == [];
    assert FieldWords(row) + [] == FieldWords(row);
    assert TokenOk(newline[0]);
    WellFormedAppend(row, newline);
  }

  /** The writes of `rows` lines: one field per value, holding its numeral, and nothing else but white space. */
  lemma RowsTokensFields(data: seq<Unsigned>, from: nat, width: nat, vpp: nat, rows: nat)
    ensures FieldWords(RowsTokens(data, from, width, vpp, rows)) == Numerals(data, from, Times(rows, Times(width, vpp)))
    ensures WellFormedTokens(RowsTokens(data, from, width, vpp, rows))
  {
    var line := (k: nat) => LineTokens(data, k, width, vpp);
    forall k: nat
      ensures FieldWords(line(k)) == Numerals(data, k, Times(width, vpp)) && WellFormedTokens(line(k))
    {
      LineTokensFields(data, k, width, vpp);
    }
    BlocksFields(line, data, from, Times(width, vpp), rows);
    BlocksWellFormed(line, from, Times(width, vpp), rows);
  }

  /** The words of the header: the version word, the dimensions and the depth unless P1. */
  function HeaderWords(img: Image): seq<string> {
    ["P" + DecimalString(img.version), DecimalString(img.width), DecimalString(img.height)]
    + (if img.version != 1 then [DecimalString(img.colorDepth)] else [])
  }

  lemma VersionWordIsWord(version: nat)
    ensures IsWord("P" + DecimalString(version))
  {
    var digits := DecimalString(version);
    DecimalStringIsWord(version);
    assert forall k :: 1 <= k < |"P" + digits| ==> ("P" + digits)[k] == digits[k - 1];
  }

  /** A word and one white-space character: one word, and nothing after it can extend it. */
  lemma TerminatedField(word: string, sep: char)
    requires IsWord(word) && IsSpace(sep)
    ensures Words(word + [sep]) == [word] && EndsInSpace(word + [sep])
  {
    WordsOfTerminatedWord(word, [sep]);
  }

  lemma WordsOfHeaderText(img: Image)
    ensures Words(HeaderText(img)) == HeaderWords(img)
  {
    var version := "P" + DecimalString(img.version);
    var line1 := version + "\n";
    var w := DecimalString(img.width) + " ";
    var h := DecimalString(img.height) + "\n";
    var d: string := if img.version != 1 then DecimalString(img.colorDepth) + "\n" else "";
    var dWords: seq<string> := if img.version != 1 then [DecimalString(img.colorDepth)] else [];
    VersionWordIsWord(img.version);
    TerminatedField(version, '\n');
    DecimalStringIsWord(img.width);
    TerminatedField(DecimalString(img.width), ' ');
    DecimalStringIsWord(img.height);
    TerminatedField(DecimalString(img.height), '\n');
    if img.version != 1 {
      DecimalStringIsWord(img.colorDepth);
      TerminatedField(DecimalString(img.colorDepth), '\n');
    }
    WordsOfPieces(line1, w, [version], [DecimalString(img.width)]);
    EndsInSpaceAppend(line1, w);
    WordsOfPieces(line1 + w, h, [version, DecimalString(img.width)], [DecimalString(img.height)]);
    EndsInSpaceAppend(line1 + w, h);
    WordsOfPieces(line1 + w + h, d, [version, DecimalString(img.width), DecimalString(img.height)], dWords);
  }

  /** An image the loader accepts back from its own output. */
  predicate Loadable(img: Image) {
    && ValidVersion(img.version)
    && (img.version == 1 ==> img.colorDepth == 1)
    && (img.version > 1 ==> 1 <= img.colorDepth < SIZE_MODULUS)
    && 1 <= img.width && 1 <= img.height
    && ValueCount(img) <= SIZE_MAX
    && WellSized(img)
  }

  lemma {:induction false} ReadValuesOfNumerals(words: seq<string>, from: nat, data: seq<Unsigned>, n: nat)
    requires n <= |data| && from + |data| <= |words|
    requires forall k :: 0 <= k < |data| ==> ParseUnsigned(words[from + k], UNSIGNED_MODULUS) == Some(data[k] as nat)
    ensures ReadValues(words, from, n) == Some(data[..n])
    decreases n
  {
    if n > 0 {
      ReadValuesOfNumerals(words, from, data, n - 1);
      var v := data[n - 1];
      assert ParseUnsigned(WordAt(words, from + n - 1), UNSIGNED_MODULUS) == Some(v as nat);
      assert data[..n] == data[..n - 1] + [v];
    }
  }

  /** The row arithmetic of the writer counts exactly the values the dimensions call for. */
  lemma ValueCountByRows(img: Image)
    ensures Times(img.height, Times(img.width, ValuesPerPixel(img.version))) == ValueCount(img)
  {
    var vpp := ValuesPerPixel(img.version);
    TimesIsProduct(img.width, vpp);
    TimesIsProduct(img.height, img.width * vpp);
    assert img.height * (img.width * vpp) == img.width * img.height * vpp;
  }

  lemma AtMostProduct(a: nat, b: nat)
    requires b >= 1
    ensures a <= a * b
  {
    assert a * b == a * (b - 1) + a;
  }

  /** The `size_t` products the loader computes for a loadable image do not wrap. */
  lemma LoadableSizes(img: Image)
    requires Loadable(img)
    ensures img.width < SIZE_MODULUS && img.height < SIZE_MODULUS
    ensures SizeMul(img.width, img.height) == img.width * img.height != 0
    ensures SizeMul(SizeMul(img.width, img.height), ValuesPerPixel(img.version)) == |img.data|
  {
    var area := img.width * img.height;
    AtMostProduct(area, ValuesPerPixel(img.version));
    AtMostProduct(img.width, img.height);
    assert area == img.height * img.width;
    AtMostProduct(img.height, img.width);
    AtMostProduct(1, area);
  }

  /** The words of the written file: the header's, then one numeral per value. */
  lemma WordsOfPPMText(img: Image)
    requires WellSized(img)
    ensures Words(PPMText(img)) == HeaderWords(img) + Numerals(img.data, 0, |img.data|)
  {
    var vpp := ValuesPerPixel(img.version);
    var tokens := RowsTokens(img.data, 0, img.width, vpp, img.height);
    ValueCountByRows(img);
    RowsTokensFields(img.data, 0, img.width, vpp, img.height);
    WordsOfRender(tokens);
    WordsOfHeaderText(img);
    WordsOfPieces(HeaderText(img), Render(tokens), HeaderWords(img), Numerals(img.data, 0, |img.data|));
  }

  /** Words that read back as a loadable image's header fields and values load as that image. */
  lemma LoadOfFields(img: Image, words: seq<string>)
    requires Loadable(img)
    requires HeaderVersion(WordAt(words, 0)) == Some(img.version)
    requires ParseUnsigned(WordAt(words, 1), SIZE_MODULUS) == Some(img.width)
    requires ParseUnsigned(WordAt(words, 2), SIZE_MODULUS) == Some(img.height)
    requires img.version > 1 ==> ParseUnsigned(WordAt(words, 3), SIZE_MODULUS) == Some(img.colorDepth)
    requires ReadValues(words, DataStart(img.version), |img.data|) == Some(img.data)
    ensures LoadedImage(words) == Some(img)
  {
    LoadableSizes(img);
  }

  /** The header words of a loadable image read back as its fields. */
  lemma ParseHeaderWords(img: Image, words: seq<string>)
    requires Loadable(img)
    requires |words| >= DataStart(img.version) && words[..DataStart(img.version)] == HeaderWords(img)
    ensures HeaderVersion(WordAt(words, 0)) == Some(img.version)
    ensures ParseUnsigned(WordAt(words, 1), SIZE_MODULUS) == Some(img.width)
    ensures ParseUnsigned(WordAt(words, 2), SIZE_MODULUS) == Some(img.height)
    ensures img.version > 1 ==> ParseUnsigned(WordAt(words, 3), SIZE_MODULUS) == Some(img.colorDepth)
  {
    var header := HeaderWords(img);
    assert words[0] == header[0] && words[1] == header[1] && words[2] == header[2];
    HeaderVersionOfWritten(img.version);
    LoadableSizes(img);
    ParseUnsignedOfDecimal(img.width, SIZE_MODULUS);
    ParseUnsignedOfDecimal(img.height, SIZE_MODULUS);
    if img.version > 1 {
      assert words[3] == header[3];
      ParseUnsignedOfDecimal(img.colorDepth, SIZE_MODULUS);
    }
  }

  /** The numerals after the header read back as the values written. */
  lemma ReadValuesOfWritten(img: Image, words: seq<string>, start: nat)
    requires start <= |words| && words == words[..start] + Numerals(img.data, 0, |img.data|)
    ensures ReadValues(words, start, |img.data|) == Some(img.data)
  {
    var values := Numerals(img.data, 0, |img.data|);
    forall k | 0 <= k < |img.data|
      ensures ParseUnsigned(words[start + k], UNSIGNED_MODULUS) == Some(img.data[k] as nat)
    {
      assert words[start + k] == values[k];
      ParseUnsignedOfDecimal(img.data[k] as nat, UNSIGNED_MODULUS);
    }
    ReadValuesOfNumerals(words, start, img.data, |img.data|);
    assert img.data[..|img.data|] == img.data;
  }

  /** Writing an image and loading the words written gives the image back. */
  lemma LoadOfWritten(img: Image)
    requires Loadable(img)
    ensures LoadedImage(Words(PPMText(img))) == Some(img)
  {
    WordsOfPPMText(img);
    var header := HeaderWords(img);
    var words := header + Numerals(img.data, 0, |img.data|);
    assert |header| == DataStart(img.version);
    assert words[..|header|] == header;
    ReadValuesOfWritten(img, words, |header|);
    ParseHeaderWords(img, words);
    LoadOfFields(img, words);
  }
}
