# diffeek core, modelled in Dafny

diffeek is a command-line tool, written in C++, that compares two inputs and
prints their difference. It picks a comparison by the kind of input:

- text files, line by line;
- binary files, byte by byte;
- directory trees, entry by entry;
- plain Netpbm images (PPM, PGM, PBM), value by value.

The difference is printed in one of three styles: a unified patch file,
a graphical view, or the differ's own payload passed straight through.

This project models the core of that program and proves properties of the
model:

- **Command line.** `ArgParser::parse` reads the options and the two file
  names into `ArgData` (module `Args`).
- **Choosing a differ.** `FileDiffer::GetInstance` picks the differ by file
  name, by directory test and by the first bytes of the file (`FileDiffer`).
  The load-mode flags and their operators are in `Modes`.
- **Generic differ.**
  - The sparse, banded Levenshtein matrix (`Matrix`).
  - Its construction, and the backtrack that turns it into addition,
    deletion and modification deltas (`DiffEngine`, for `FileDiffer.h`).
  - The difference object and its normalisation, which merges runs of
    adjacent additions or deletions (`Differences`).
- **Chunk sources.**
  - Text lines: hashed after whitespace and case normalisation (`TextDiffer`).
  - Bytes: shown as hex (`BinaryDiffer`).
  - Directory entries: flattened pre-order, children in name order
    (`DirectoryDiffer`).
  - The context window each source cuts around a change (`Contexts`).
- **Images.**
  - Loading and writing a plain PPM file (`PPM`, `Streams`).
  - Upgrading, enlarging and XOR-ing images, stated as values (`PPMImage`).
  - The same operations as in-place methods of the image object
    (`PPMFiles`).
  - The image differ, whose difference is the XOR of both images
    (`PPMDiffer`).
- **Output.** Choosing the output, the patch-file writer and the direct
  writer (`Outputs`).
- **Helpers.** The hash, hex formatting, optional comparison and minimum,
  and clamped slicing (`Utility`).

The model takes the C++ code's form:

- Classes whose methods change their fields are Dafny classes:
  - the matrix;
  - the text, binary, directory and image differs;
  - the loaded image;
  - the difference;
  - the argument parser.
- Loops stay loops. Each is proved against a function that states what it
  computes, and the properties are proved about those functions.
- `size_t` arithmetic is modelled on unbounded integers, with explicit
  wrap-around where the code relies on it. For example, `i - 1` at `i = 0`
  gives the context of a change before the first chunk.
- Where the documentation and the code disagree, the model follows the
  code. The step from a P2 to a P3 image computes three values per pixel,
  but `PPMFile.cpp:148-156` never stores them. So the model keeps one value
  per pixel and changes only the version (`PPMImage.UpgradeToPixmapKeepsGrays`).

## Model

| member | source | states |
|---|---|---|
| Utility.SizeSub | src/FileDiffer/TextFileDiffer.cpp:49 | `size_t` subtraction: the true difference when it is not negative, otherwise it wraps around to `2^64 - (b - a)` |
| Utility.SizeDec | src/FileDiffer/FileDiffer.h:212 | `i - 1` on `size_t`: 0 wraps around to `SIZE_MAX`, any other value drops by one |
| Utility.SizeAdd | src/FileDiffer/TextFileDiffer.cpp:49 | `size_t` addition: the true sum up to `SIZE_MAX`, past it the sum less `2^64` |
| Utility.SizeMul | src/FileDiffer/DataStructures/PPMFile.cpp:37-47 | `size_t` product: the true product whenever it fits, never above `SIZE_MAX` |
| Utility.CmpOptionals | src/Utility.cpp:24-28 | an absent value is never less; a present value is less than an absent one; two present values compare by `<` |
| Utility.CmpOptionalsIsStrictOrder | src/Utility.cpp:24-28 | the optional comparison is irreflexive, asymmetric and transitive |
| Utility.Min2 | src/Utility.cpp:38-41 | the first value when the comparator says it is less, otherwise the second (ties go to the second) |
| Utility.Min3 | src/Utility.cpp:51-54 | the three-way minimum is one of its three arguments |
| Utility.Min3OptionalsIsLeast | src/Utility.cpp:24-54 | under the optional comparison the three-way minimum is one of the three, none of them is below it, and it is absent only when all three are |
| Utility.Apply | src/Utility.cpp:56-60 | present exactly when the input is, and then holds `f` of the input |
| Utility.VectorSlice | src/Utility.cpp:89-98 | empty when `from` is past the data or `to < from`; otherwise the elements from `from` up to `min(to, size)`, element by element |
| Utility.Reversed | src/FileDiffer/FileDiffer.h:240 | same length, element `k` is element `size - 1 - k` of the input |
| Utility.ReversedAppend | src/FileDiffer/FileDiffer.h:209-240 | reversing after a `push_back` puts the pushed element first |
| Utility.SignExtend | src/Utility.cpp:126 | a `char` promoted to 32 bits keeps values below `0x80` and sign-extends the others to `0xFFFFFF00 + b` |
| Utility.Bytes | src/Utility.cpp:114-126 | one byte per character, each the low byte of the character |
| Utility.Finalize | src/Utility.cpp:140-145 | the final avalanche of the hash, mixing in the count of characters consumed |
| Utility.Murmur3 | src/Utility.cpp:113-148 | the hash loop (two characters per round, the index clamped to the size) computes `Murmur3Hash`, and an empty collection hashes to 0 |
| Utility.RoundsPadOddTail | src/Utility.cpp:124-138 | for an odd-length collection, the rounds equal the rounds over the collection padded with `'x'` |
| Utility.RoundsPadLast | src/Utility.cpp:126 | the last single character is read as a block whose high byte is `'x'` |
| Utility.Murmur3PadsOddTail | src/Utility.cpp:113-148 | the hash of an odd-length collection is the padded rounds finalised with the true length, not the padded one |
| Utility.RoundsAppendPair | src/Utility.cpp:124-138 | appending two characters to an even-length collection adds exactly one more round, on their packed block |
| Utility.HexDigit | src/Utility.cpp:72 | a digit below 16 is a lower-case hex character that reads back as that digit |
| Utility.ToHex | src/Utility.cpp:72 | `std::hex` writes only hex digits, at least one |
| Utility.PadLeft | src/Utility.cpp:71 | `setfill('0') << setw(width)`: length `max(|s|, width)`, `s` at the end, zeros before it |
| Utility.NumberToHexString | src/Utility.cpp:67-74 | `"0x"` then at least `width` hex digits |
| Utility.ParseHexOfToHex | src/Utility.cpp:72 | the hex digits written for `n` read back as `n` |
| Utility.ParseHexIgnoresLeadingZeros | src/Utility.cpp:71 | zero padding does not change the value read |
| Utility.ParseHexOfZeros | src/Utility.cpp:71 | padding alone reads as 0 |
| Utility.HexStringRoundTrip | src/Utility.cpp:67-74 | reading back the digits after `"0x"` gives the value formatted |
| Utility.U32ToHexStringInjective | src/Utility.cpp:67-74 | different 32-bit values get different hex strings |
| Utility.Min | src/FileDiffer/TextFileDiffer.cpp:51 | `std::min` on numbers: at most both arguments and equal to one of them |
| Utility.CharToByte | src/FileDiffer/TextFileDiffer.cpp:30-33 | a character of a line read as the byte a C++ `char` holds, its low eight bits |
| Utility.Pack | src/Utility.cpp:126 | one block of the hash: the first `char` promoted to 32 bits, OR-ed with the second promoted and shifted left by 8 |
| Utility.Block | src/Utility.cpp:126 | the block read at index `idx`: that char and the next, or `'x'` in place of the next past the end |
| Utility.Scramble | src/Utility.cpp:128-130 | the block XOR-ed with `0xcc9e2d51`, rotated left by 15 and XOR-ed with `0x1b873593` |
| Utility.MixRound | src/Utility.cpp:132-134 | the scrambled block XOR-ed into the state, which is rotated left by 13, XOR-ed with 5 and increased by `0xe6546b64` modulo `2^32` |
| Utility.RoundsFrom | src/Utility.cpp:124-138 | the loop of the hash from index `idx`: one round per two chars, the index clamped to the size after the last round |
| Utility.RoundsWith | src/Utility.cpp:124-138 | the same loop with any mixing step: which blocks are read and in what order does not depend on the mixing |
| Utility.Murmur3Hash | src/Utility.cpp:113-148 | 0 for an empty collection; otherwise the rounds from seed `0x5aa6` over blocks of two chars, then the finalisation with the clamped index |
| Utility.ByteToHexString | src/FileDiffer/BinaryFileDiffer.cpp:16-17 | a byte shown as `numberToHexString` of a `char`: the value promoted to `int`, in two hex digits at least |
| Utility.U32ToHexString | src/FileDiffer/DirectoryDiffer.cpp:70 | a 32-bit hash shown as `numberToHexString`: `0x` and at least eight hex digits |
| Modes.OrHasEither | src/FileDiffer/FileDiffer.cpp:93-95 | a flag is in `lhs \| rhs` exactly when it is in either operand |
| Modes.AndHasBoth | src/FileDiffer/FileDiffer.cpp:101-103 | a flag is in `lhs & rhs` exactly when it is in both operands |
| Modes.OrIdempotent | src/FileDiffer/FileDiffer.cpp:96-99 | `\|=` with the same flags twice is the same as once |
| Modes.StrictModeFlags | src/ArgParser.cpp:71-75 | the mode `-s` sets has the three strict flags and not the permissive one |
| Modes.IsFlag | src/FileDiffer/FileDiffer.h:27-32 | the four load-mode flags, one bit each |
| Modes.Or | src/FileDiffer/FileDiffer.cpp:93-95 | `operator|`: the bitwise OR of the two modes |
| Modes.And | src/FileDiffer/FileDiffer.cpp:101-103 | `operator&`: the bitwise AND of the two modes |
| Modes.Has | src/FileDiffer/TextFileDiffer.cpp:59 | a flag is set in a mode when their AND is not zero |
| Streams.WordsOfAppend | src/FileDiffer/DataStructures/PPMFile.cpp:13-51 | text ending in white space splits into words independently of what follows it |
| Streams.WordsOfRender | src/FileDiffer/DataStructures/PPMFile.cpp:65-82 | what is written as words separated by white space is read back by `>>` as exactly those words |
| Streams.DecimalString | src/FileDiffer/DataStructures/PPMFile.cpp:66-75 | `<<` of an unsigned value writes at least one digit and no leading zero |
| Streams.DecimalRoundTrip | src/FileDiffer/DataStructures/PPMFile.cpp:51-75 | the digits written for `n` read back as `n` |
| Streams.DecimalStringInjective | src/FileDiffer/DataStructures/PPMFile.cpp:75 | different values are written differently |
| Streams.DigitRun | src/ArgParser.cpp:54 | the leading run of digits: all digits, and the character after it is not one |
| Streams.DigitRunOfDigits | src/ArgParser.cpp:54 | a run of digits followed by a non-digit is measured exactly |
| Streams.ParseUnsigned | src/FileDiffer/DataStructures/PPMFile.cpp:26-51 | `>>` into an unsigned variable succeeds exactly on a non-empty word of digits whose value fits, and then yields that value |
| Streams.ParseUnsignedOfDecimal | src/FileDiffer/DataStructures/PPMFile.cpp:51-75 | a value that fits is read back from the word written for it |
| Streams.IsSpace | src/FileDiffer/TextFileDiffer.cpp:61 | `isspace` in the C locale: space, tab, line feed, vertical tab, form feed and carriage return |
| Streams.Words | src/FileDiffer/DataStructures/PPMFile.cpp:13-51 | the words successive `>>` reads take from the text: the runs of non-space characters, in order |
| Streams.Render | src/FileDiffer/DataStructures/PPMFile.cpp:65-82 | the text a sequence of writes produces |
| Streams.ParseDecimal | src/FileDiffer/DataStructures/PPMFile.cpp:26-51 | the value of a word of decimal digits |
| PPM.XorBitsBound | src/FileDiffer/DataStructures/PPMFile.cpp:128 | the bitwise XOR of `bits` binary digits has no more digits |
| PPM.XorSelf | src/FileDiffer/DataStructures/PPMFile.cpp:128 | an `unsigned` XORed with itself is 0 |
| PPM.XorCancel | src/FileDiffer/DataStructures/PPMFile.cpp:128 | XORing twice with the same `unsigned` gives the first value back |
| PPM.ValuesPerPixel | src/FileDiffer/DataStructures/PPMFile.cpp:70 | three values per pixel exactly for versions above 2, one otherwise |
| PPM.HeaderVersion | src/FileDiffer/DataStructures/PPMFile.cpp:12-24 | only `P1`, `P2` and `P3` are accepted, as versions 1 to 3; every other word is refused |
| PPM.HeaderVersionOfWritten | src/FileDiffer/DataStructures/PPMFile.cpp:13-66 | the header word written for a version is read back as that version |
| PPM.ReadValues | src/FileDiffer/DataStructures/PPMFile.cpp:49-60 | a successful read yields exactly the requested number of values |
| PPM.ReadValuesNext | src/FileDiffer/DataStructures/PPMFile.cpp:49-59 | one more turn of the loop fails when the next word is not an unsigned value, and otherwise appends that value |
| PPM.ReadValuesFailurePersists | src/FileDiffer/DataStructures/PPMFile.cpp:52-55 | once a value fails to read, the whole read fails |
| PPM.LoadedHeader | src/FileDiffer/DataStructures/PPMFile.cpp:12-44 | the accepted header fields, with no values read yet |
| PPM.LoadedImageShape | src/FileDiffer/DataStructures/PPMFile.cpp:3-63 | a loaded image has a known header word, depth 1 for P1 and a non-zero depth otherwise, a non-zero `size_t` pixel count, and exactly as many values as the `size_t` product of the dimensions calls for, so every value when the product does not wrap |
| PPM.TimesIsProduct | src/FileDiffer/DataStructures/PPMFile.cpp:72-75 | counting values row by row equals the product |
| PPM.HeaderText | src/FileDiffer/DataStructures/PPMFile.cpp:66-68 | the header is non-empty and ends in white space |
| PPM.NumeralsAppend | src/FileDiffer/DataStructures/PPMFile.cpp:72-80 | the numerals of two consecutive ranges of values are the numerals of their union |
| PPM.BlocksFields | src/FileDiffer/DataStructures/PPMFile.cpp:72-80 | loops whose blocks each write the numerals of their values write the numerals of all of them |
| PPM.BlocksWellFormed | src/FileDiffer/DataStructures/PPMFile.cpp:72-80 | loops whose blocks each write words and white space write words and white space |
| PPM.ValueTokensFields | src/FileDiffer/DataStructures/PPMFile.cpp:75 | one value writes its numeral as one word |
| PPM.PixelTokensFields | src/FileDiffer/DataStructures/PPMFile.cpp:74-77 | a pixel writes the numerals of its values, and the extra spaces of a P3 pixel hold no word |
| PPM.LineTokensFields | src/FileDiffer/DataStructures/PPMFile.cpp:73-79 | a line writes the numerals of its `width * vpp` values |
| PPM.RowsTokensFields | src/FileDiffer/DataStructures/PPMFile.cpp:72-80 | the rows write one word per value, its numeral, and nothing else but white space |
| PPM.VersionWordIsWord | src/FileDiffer/DataStructures/PPMFile.cpp:66 | `P<version>` is a single word |
| PPM.TerminatedField | src/FileDiffer/DataStructures/PPMFile.cpp:66-68 | a word followed by white space is read as that word, and nothing after it can extend it |
| PPM.WordsOfHeaderText | src/FileDiffer/DataStructures/PPMFile.cpp:66-68 | the written header reads as the version word, the width, the height and (unless P1) the depth |
| PPM.ReadValuesOfNumerals | src/FileDiffer/DataStructures/PPMFile.cpp:49-60 | words that each read back as a value read back as the whole prefix of values |
| PPM.ValueCountByRows | src/FileDiffer/DataStructures/PPMFile.cpp:47-76 | the writer's row arithmetic counts exactly the values the loader reads |
| PPM.LoadableSizes | src/FileDiffer/DataStructures/PPMFile.cpp:37-47 | for a loadable image the loader's `size_t` products do not wrap and the pixel count is not zero |
| PPM.WordsOfPPMText | src/FileDiffer/DataStructures/PPMFile.cpp:65-82 | the written file reads as the header words followed by one numeral per value |
| PPM.LoadOfFields | src/FileDiffer/DataStructures/PPMFile.cpp:3-63 | words that read back as a loadable image's header fields and values load as that image |
| PPM.ParseHeaderWords | src/FileDiffer/DataStructures/PPMFile.cpp:12-32 | the header words of a loadable image read back as its fields |
| PPM.ReadValuesOfWritten | src/FileDiffer/DataStructures/PPMFile.cpp:49-60 | the numerals after the header read back as the values written |
| PPM.LoadOfWritten | src/FileDiffer/DataStructures/PPMFile.cpp:3-82 | writing a loadable image with `<<` and loading the words written gives the image back |
| PPM.Xor | src/FileDiffer/DataStructures/PPMFile.cpp:128-130 | `x ^ y` on `unsigned`, bit by bit over 32 bits |
| PPM.ValidVersion | src/FileDiffer/DataStructures/PPMFile.cpp:15-24 | the versions the loader accepts: 1, 2 or 3 |
| PPM.ValueCount | src/FileDiffer/DataStructures/PPMFile.cpp:47 | the number of values the dimensions call for: width times height, three times as many for P3 |
| PPM.WellSized | src/FileDiffer/DataStructures/PPMFile.cpp:47-60 | the image holds exactly the values its dimensions call for |
| PPM.DataStart | src/FileDiffer/DataStructures/PPMFile.cpp:26-32 | the index of the first value word: after the header word, the dimensions and, except for P1, the depth |
| PPM.LoadedImage | src/FileDiffer/DataStructures/PPMFile.cpp:3-63 | `Load` over the words of the file: P1, P2 or P3; then the dimensions and (except P1, whose depth is 1) the depth; refused when `width * height` is zero on `size_t` or a P2/P3 depth is zero; then the values, refused when one is missing or unreadable |
| PPM.ValuesToRead | src/FileDiffer/DataStructures/PPMFile.cpp:47 | the number of values `Load` reads: the `size_t` product of the dimensions and the values per pixel |
| PPM.PPMText | src/FileDiffer/DataStructures/PPMFile.cpp:65-82 | `operator<<`: the header lines, then `height` lines of `width` pixels, each value followed by a space, two more spaces after a pixel of several values |
| PPM.HeaderWords | src/FileDiffer/DataStructures/PPMFile.cpp:66-68 | the words of the header: `P` and the version, the dimensions, and the depth unless P1 |
| PPM.Loadable | src/FileDiffer/DataStructures/PPMFile.cpp:3-63 | an image whose written text the loader reads back: a valid version, depth 1 for P1 and a nonzero `size_t` depth otherwise, nonzero dimensions whose value count fits a `size_t`, and exactly that many values |
| PPMImage.Growth | src/FileDiffer/DataStructures/PPMFile.cpp:85-109 | a dimension grows to the target when the target is larger, and otherwise keeps its size |
| PPMImage.CopyValuesAt | src/FileDiffer/DataStructures/PPMFile.cpp:96 | value `k` copied from index `from` is the old value at `from + k`, or 0 past the end of the data |
| PPMImage.CopyAllValues | src/FileDiffer/DataStructures/PPMFile.cpp:96 | copying every value from the start gives the values back |
| PPMImage.EnlargedRowsLength | src/FileDiffer/DataStructures/PPMFile.cpp:94-99 | the row loop writes `rows * (current + extra)` values |
| PPMImage.EnlargedRowsAt | src/FileDiffer/DataStructures/PPMFile.cpp:94-99 | in an enlarged row, inside the old row the value is the old one (read on from where the previous row stopped) and to its right it is 0 |
| PPMImage.EnlargedRowsWithoutExtra | src/FileDiffer/DataStructures/PPMFile.cpp:94-99 | with no extra columns, the rows are the old values read on from the start |
| PPMImage.EnlargedShape | src/FileDiffer/DataStructures/PPMFile.cpp:84-110 | the enlarged image is as wide and high as the larger of the old size and the target, keeps its version and depth, and holds exactly the values its new size calls for, whatever the old number of values was |
| PPMImage.EnlargedDataAt | src/FileDiffer/DataStructures/PPMFile.cpp:94-105 | a value of the enlarged data is the old value inside the old rows and 0 elsewhere |
| PPMImage.EnlargedData | src/FileDiffer/DataStructures/PPMFile.cpp:94-107 | the new values are the enlarged old rows followed by the zero rows |
| PPMImage.EnlargedKeepsValues | src/FileDiffer/DataStructures/PPMFile.cpp:84-110 | every old value keeps its row and its place in the row |
| PPMImage.EnlargedIsZeroElsewhere | src/FileDiffer/DataStructures/PPMFile.cpp:98-105 | everything the old image did not cover is 0, which is black in a P2 or P3 and white in a P1 |
| PPMImage.EnlargeIgnoresSmallerTargets | src/FileDiffer/DataStructures/PPMFile.cpp:85-86 | targets no larger than the image are ignored |
| PPMImage.EnlargeToOwnSizeIsIdentity | src/FileDiffer/DataStructures/PPMFile.cpp:84-110 | an image holding exactly its values is unchanged by enlarging it to its own size |
| PPMImage.GraysOf | src/FileDiffer/DataStructures/PPMFile.cpp:140-143 | one gray per value, in place |
| PPMImage.UpgradeToLowerIsNoOp | src/FileDiffer/DataStructures/PPMFile.cpp:135 | a target not above the current version changes nothing, not even the depth |
| PPMImage.UpgradedShape | src/FileDiffer/DataStructures/PPMFile.cpp:134-159 | between known versions the result has the larger version, keeps width, height and the number of values, and takes the target depth exactly when the version went up |
| PPMImage.UpgradeOfBitmap | src/FileDiffer/DataStructures/PPMFile.cpp:138-145 | upgrading a P1: 0 stays 0, every other value becomes the target depth (so a P1 black pixel, 1, becomes P2 white) |
| PPMImage.UpgradeToPixmapKeepsGrays | src/FileDiffer/DataStructures/PPMFile.cpp:148-156 | as written, a P2 raised to P3 keeps one value per pixel, so it no longer holds the values a P3 of its size needs |
| PPMImage.XorValues | src/FileDiffer/DataStructures/PPMFile.cpp:127-129 | values XORed position by position, as many as the operands have |
| PPMImage.XorOperandsAgree | src/FileDiffer/DataStructures/PPMFile.cpp:113-124 | after the upgrades and enlargements both operands have the same version, the larger width and height, and the same number of values: the three assertions before the XOR loop hold |
| PPMImage.XoredShape | src/FileDiffer/DataStructures/PPMFile.cpp:112-132 | the XOR image has the larger version, width and height of the two and holds exactly the values its size calls for |
| PPMImage.XorOfSameShape | src/FileDiffer/DataStructures/PPMFile.cpp:112-132 | for images of one shape nothing is upgraded or enlarged: the header is kept and the values are XORed position by position |
| PPMImage.XorWithItselfIsZero | src/FileDiffer/DataStructures/PPMFile.cpp:112-132 | an image XORed with itself has every value 0 |
| PPMImage.XorTwiceRestores | src/FileDiffer/DataStructures/PPMFile.cpp:112-132 | XORing the difference with the second image again gives the first image back |
| PPMImage.Enlarged | src/FileDiffer/DataStructures/PPMFile.cpp:84-110 | `enlarge`: each old row keeps its values (0 past the end of the data) and gets zeros on its right up to the target width; zero rows follow up to the target height |
| PPMImage.GrayOf | src/FileDiffer/DataStructures/PPMFile.cpp:138-142 | a P1 value as a P2 gray: 0 stays 0, anything else becomes the target depth cut to 32 bits |
| PPMImage.Upgraded | src/FileDiffer/DataStructures/PPMFile.cpp:134-159 | `upgradeVersion`: nothing when the target is not above the version; else P1 values become grays, a P2 going to P3 only changes its version, and the depth becomes the target depth |
| PPMImage.Xored | src/FileDiffer/DataStructures/PPMFile.cpp:112-132 | `XORWith`: the receiver upgraded to the other's version and depth, a copy of the other upgraded to the receiver's new ones, both enlarged to the larger size, then the values XOR-ed pairwise |
| PPMImage.UpgradedToP2 | src/FileDiffer/DataStructures/PPMFile.cpp:136-145 | the P1 step of `upgradeVersion`: a P1 image becomes a P2 of the same size whose values are the grays of its bits; any other image is left as it is |
| PPMImage.UpgradedToP3 | src/FileDiffer/DataStructures/PPMFile.cpp:147-156 | the P2 step of `upgradeVersion`: only the version becomes 3, since the three-value pixels are never stored |
| PPMImage.XorLeft | src/FileDiffer/DataStructures/PPMFile.cpp:116-119 | the receiver of `XORWith` once upgraded to the other's version and depth and enlarged to the other's size |
| PPMImage.XorRight | src/FileDiffer/DataStructures/PPMFile.cpp:113-120 | the copy of the other operand, upgraded to the receiver's new version and depth and enlarged to the receiver's new size |
| PPMImage.SameShape | src/FileDiffer/DataStructures/PPMFile.cpp:122-124 | two images of the same valid version and size, each holding exactly its values |
| PPMFiles.ValuesTextStep | src/FileDiffer/DataStructures/PPMFile.cpp:74-76 | writing one more value extends the text of the values written so far |
| PPMFiles.RowTextStep | src/FileDiffer/DataStructures/PPMFile.cpp:73-78 | writing one more pixel extends the text of the row |
| PPMFiles.RowsTextStep | src/FileDiffer/DataStructures/PPMFile.cpp:72-80 | writing one more line extends the text of the rows |
| PPMFiles.BlocksTextIsRender | src/FileDiffer/DataStructures/PPMFile.cpp:72-80 | loops whose blocks' texts are their writes render to the joined texts |
| PPMFiles.PixelTextIsRender | src/FileDiffer/DataStructures/PPMFile.cpp:74-77 | the text of a pixel is the rendering of its writes |
| PPMFiles.RowTextIsRender | src/FileDiffer/DataStructures/PPMFile.cpp:73-78 | the text of a row is the rendering of its writes |
| PPMFiles.RowsTextIsRender | src/FileDiffer/DataStructures/PPMFile.cpp:72-80 | the text the writer's loops produce is the rendering of the writes the image text is made of |
| PPMFiles.PPMFile.constructor | src/FileDiffer/DataStructures/PPMFile.cpp:113 | the new object holds the given image (also the copy the XOR makes of its right operand) |
| PPMFiles.PPMFile.Load | src/FileDiffer/DataStructures/PPMFile.cpp:3-63 | nothing exactly when the loader refuses the words; otherwise a new object holding the loaded image |
| PPMFiles.PPMFile.ReadHeader | src/FileDiffer/DataStructures/PPMFile.cpp:12-44 | the header fields `Load` accepts, or nothing |
| PPMFiles.PPMFile.WriteHeader | src/FileDiffer/DataStructures/PPMFile.cpp:66-68 | the header lines `<<` writes |
| PPMFiles.PPMFile.WritePixel | src/FileDiffer/DataStructures/PPMFile.cpp:74-77 | the values of one pixel, each followed by a space, and two more spaces after a P3 pixel |
| PPMFiles.PPMFile.WriteRow | src/FileDiffer/DataStructures/PPMFile.cpp:73-78 | the `width` pixels of one row |
| PPMFiles.PPMFile.Serialize | src/FileDiffer/DataStructures/PPMFile.cpp:65-82 | `<<` writes exactly `PPMText` of the image, which `LoadOfWritten` reads back |
| PPMFiles.PPMFile.Enlarge | src/FileDiffer/DataStructures/PPMFile.cpp:84-110 | the new image is `Enlarged` of the old one (its properties are the `Enlarged*` lemmas) |
| PPMFiles.PPMFile.EnlargedValues | src/FileDiffer/DataStructures/PPMFile.cpp:87-105 | the loops of `enlarge` build exactly the enlarged values |
| PPMFiles.PPMFile.CopyRow | src/FileDiffer/DataStructures/PPMFile.cpp:96 | the `n` values from `from` on, 0 past the end of the data |
| PPMFiles.PPMFile.ZeroValues | src/FileDiffer/DataStructures/PPMFile.cpp:98-105 | `n` zeros |
| PPMFiles.PPMFile.UpgradeVersion | src/FileDiffer/DataStructures/PPMFile.cpp:134-159 | the new image is `Upgraded` of the old one |
| PPMFiles.PPMFile.XORWith | src/FileDiffer/DataStructures/PPMFile.cpp:112-132 | returns the receiver, whose image becomes `Xored` of the two old images, aliasing included |
| PPMFiles.PPMFile.XoredValues | src/FileDiffer/DataStructures/PPMFile.cpp:127-129 | the XOR loop computes `XorValues` of the two operands' values |
| PPMFiles.PixelPad | src/FileDiffer/DataStructures/PPMFile.cpp:77 | two spaces after a pixel of several values, none otherwise |
| PPMFiles.RowsText | src/FileDiffer/DataStructures/PPMFile.cpp:72-80 | the rows of pixels the writer's nested loops print, each value followed by a space and each row by a newline |
| PPMFiles.PPMFile.Contents | src/FileDiffer/DataStructures/PPMFile.h:13-25 | the image the object holds: version, width, height, depth and values |
| Args.SpaceRun | src/ArgParser.cpp:58 | the leading white space `std::stoi` skips: all white space, and the character after it is not |
| Args.Stoi | src/ArgParser.cpp:58 | a converted value always fits an `int` |
| Args.StoiOfDecimal | src/ArgParser.cpp:58 | a written number that fits an `int` converts to itself, whatever non-digit follows it |
| Args.StoiOfNegative | src/ArgParser.cpp:58 | a minus sign negates, down to the least `int` |
| Args.StoiOfTooLarge | src/ArgParser.cpp:58 | a number above the greatest `int` makes `std::stoi` throw `out_of_range` |
| Args.FormatNamed | src/ArgParser.cpp:43-48 | the format a lower-cased `-F` argument names: text, binary, directory or folder, ppm, pgm, pbm or pnm; nothing for any other name |
| Args.VRun | src/ArgParser.cpp:100-101 | the run of `v` counted from index `idx` stays within the argument |
| Args.Step | src/ArgParser.cpp:17-108 | one turn of the loop always moves on to a later argument, or leaves `parse` |
| Args.StdinAlias | src/ArgParser.cpp:124-125 | `-` is replaced by the name of standard input, so no file name is `-` afterwards |
| Args.Parsed | src/ArgParser.cpp:7-133 | `parse` of the whole command line, starting after the program name |
| Args.ArgParser.SelectFormat | src/ArgParser.cpp:44-48 | the `-F` chain sets the format its argument names and keeps the earlier one for an unknown name |
| Args.ArgParser.CountVerbosity | src/ArgParser.cpp:97-102 | a `-v` argument raises the verbosity by one, and by one more for each `v` that follows `-v` directly |
| Args.ArgParser.ReadOption | src/ArgParser.cpp:37-107 | the option branches of the loop take exactly the turn `Step` describes: the index they go on at, the new settings, or the outcome they return |
| Args.ArgParser.Parse | src/ArgParser.cpp:7-133 | the loop over the arguments, with its early returns and the file-name checks after it, returns exactly `Parsed(argv)` |
| Args.RunKeepsValid | src/ArgParser.cpp:17-133 | the loop only ever stores a precision of 0 or at least 2, and an accepted result has valid file names unless it asks for help |
| Args.ParsedIsValid | src/ArgParser.cpp:7-133 | a returned result has a precision of 0 or at least 2, and, unless it asks for help, two file names without `-` and not both standard input |
| Args.FinishAccepts | src/ArgParser.cpp:110-132 | the checks after the loop accept exactly two names that are not both standard input, and return them in order with `-` replaced |
| Args.NonEmpty | src/ArgParser.cpp:20 | empty arguments are skipped; the others keep their order |
| Args.AfterDoubleDash | src/ArgParser.cpp:24-33 | after `--` every non-empty argument is a file name, even one that looks like an option |
| Args.HelpStopsParsing | src/ArgParser.cpp:67-70 | `-h` or `--help` returns at once with `showUsage` set and what was parsed so far, with no file names needed |
| Args.UnknownOptionFails | src/ArgParser.cpp:105-107 | an option nobody knows makes the whole parse fail |
| Args.VerbosityCounts | src/ArgParser.cpp:97-103 | `-vvv` counts three, `--verbose` counts two, `-vxv` counts one |
| Args.AnyDashVIsVerbosity | src/ArgParser.cpp:97 | every argument starting with `-v` raises the verbosity, `-verbose` and `-vanilla` included |
| Args.FormatSwitchSkipsOneMore | src/ArgParser.cpp:42-50 | a complete `-F` takes the next argument as its format name, lower-cased, and then skips one more argument |
| Args.HugePrecisionTerminates | src/ArgParser.cpp:57-65 | a precision too large for an `int` escapes the `noexcept` function and ends the program |
| Args.PrecisionOneIgnored | src/ArgParser.cpp:59-61 | a precision of 1 is refused and the option has no effect |
| Args.PrecisionOptionOverrides | src/ArgParser.cpp:52-65 | a valid `-x n` or `--precision n` overrides whatever precision was set before it: the run from there is the same for every earlier precision, and goes on two arguments later with precision `n`, so the last valid one wins |
| Args.OutputStyleOptionOverrides | src/ArgParser.cpp:86-95 | `-p`, `-g` and their long forms override any output style forced before them, so the last one wins |
| Args.StyleStep | src/ArgParser.cpp:86-95 | an output-style option forces its style and the loop goes on with the next argument |
| Args.StdinTwiceRefused | src/ArgParser.cpp:121-131 | standard input twice is refused; any other name twice is accepted |
| Args.ArgParser.constructor | src/ArgParser.cpp:5 | the parser keeps the argument vector it is given |
| Args.IsVerbosity | src/ArgParser.cpp:97 | an argument starting with `-v`, or `--verbose` |
| Args.IsFilenameArg | src/ArgParser.cpp:24 | an argument taken as a file name: not starting with `-`, or after `--`, or `-` alone |
| Args.Run | src/ArgParser.cpp:17-133 | the loop from argument `i` on, turn by turn, then the checks after it |
| Args.Finish | src/ArgParser.cpp:110-132 | the checks after the loop: exactly two names, `-` replaced by standard input, refused when both are standard input |
| Args.PrecisionOk | src/ArgParser.cpp:59-60 | a precision `-x` stores: none, 0, or at least 2 |
| Args.FilenamesOk | src/ArgParser.cpp:121-131 | two file names without `-` that are not both standard input |
| FileDiffer.EndsWithIffSuffix | src/FileDiffer/FileDiffer.cpp:7-11 | a name ends with a term exactly when it is that term with something, maybe nothing, put before it |
| FileDiffer.StringEndsWith | src/FileDiffer/FileDiffer.cpp:7-11 | the backward comparison loop answers true exactly when `str` ends with `searchTerm` (false when `str` is shorter) |
| FileDiffer.MatchesAny | src/FileDiffer/FileDiffer.cpp:20-35 | the loop over one extension list answers true exactly when the name ends with one of them |
| FileDiffer.KindByContent | src/FileDiffer/FileDiffer.cpp:50-74 | the kind the first bytes decide: binary for a leading control byte, an image for `P` and a digit `0` to `3`, binary for a control byte among the first 1024, text otherwise |
| FileDiffer.Sniff | src/FileDiffer/FileDiffer.cpp:50-74 | the byte loop, reading at most 1024 bytes and returning as soon as it can decide, returns `KindByContent` of the bytes |
| FileDiffer.DetectedKind | src/FileDiffer/FileDiffer.cpp:19-75 | a recognised suffix decides first, then the directory flag, then the standard-input name, then the contents |
| FileDiffer.GetInstance | src/FileDiffer/FileDiffer.cpp:19-75 | the differ `GetInstance` creates is of the kind `DetectedKind` names |
| FileDiffer.ForcedKind | src/FileDiffer/FileDiffer.cpp:77-91 | `Automatic` detects the kind; any other format picks its differ |
| FileDiffer.GetInstanceForced | src/FileDiffer/FileDiffer.cpp:77-91 | the differ the forcing overload creates is of the kind `ForcedKind` names |
| FileDiffer.NameDecidesFirst | src/FileDiffer/FileDiffer.cpp:20-35 | a recognised suffix decides alone: neither the directory flag nor the contents are consulted |
| FileDiffer.ImageSuffixIsImage | src/FileDiffer/FileDiffer.cpp:20-23 | image suffixes are tried before the others: `x.ppm` is an image whatever it holds |
| FileDiffer.SlashIsDirectory | src/FileDiffer/FileDiffer.cpp:32-35 | a name ending in `/` is a directory even if it is not one on disk |
| FileDiffer.StdinIsText | src/FileDiffer/FileDiffer.cpp:43-48 | standard input without a known suffix is compared as text and never read ahead |
| FileDiffer.EmptyFileIsText | src/FileDiffer/FileDiffer.cpp:54-74 | an empty or unreadable file is text |
| FileDiffer.HeaderZeroIsImage | src/FileDiffer/FileDiffer.cpp:59 | the header test accepts `P0` too, although no image format is numbered 0 |
| FileDiffer.HeaderBeatsLaterControlBytes | src/FileDiffer/FileDiffer.cpp:59-63 | an image header wins over control bytes that follow it |
| FileDiffer.ControlByteMeansBinary | src/FileDiffer/FileDiffer.cpp:68-71 | a control byte among the first 1024 makes the file binary unless an image header comes first |
| FileDiffer.TextMeansNoControlByte | src/FileDiffer/FileDiffer.cpp:54-74 | a file is text exactly when it has no image header and no control byte among its first 1024 bytes |
| FileDiffer.OnlyFirstBytesMatter | src/FileDiffer/FileDiffer.cpp:54 | bytes past the first 1024 do not change the kind |
| FileDiffer.ForcedFormatIgnoresFile | src/FileDiffer/FileDiffer.cpp:79-87 | a forced format other than `Automatic` ignores the name, the disk and the contents |
| FileDiffer.EndsWith | src/FileDiffer/FileDiffer.cpp:7-11 | the string ends with the search term |
| FileDiffer.EndsWithAny | src/FileDiffer/FileDiffer.cpp:20-35 | the name ends with one of the listed extensions |
| FileDiffer.KindByName | src/FileDiffer/FileDiffer.cpp:20-35 | the kind the name's extension decides, trying image, text, binary and directory extensions in that order, or none |
| FileDiffer.IsControl | src/FileDiffer/FileDiffer.cpp:68 | a byte below `0x20` other than line feed, carriage return and tab |
| FileDiffer.HasPPMHeader | src/FileDiffer/FileDiffer.cpp:59 | the file starts with `P` and a digit from `0` to `3` |
| FileDiffer.ControlWithin | src/FileDiffer/FileDiffer.cpp:54-72 | one of the first `n` bytes is a control byte |
| Outputs.GetOutput | src/DataOutput/DataOutput.cpp:8-33 | direct output exactly when the differ demands direct printing; graphical output exactly when it does not and the user forced graphical output or forced nothing while standard output is a terminal; patch-file output otherwise |
| Outputs.PipeGetsPatchfile | src/DataOutput/DataOutput.cpp:14-28 | without any forcing, a pipe gets a patch file; a forced graphical style wins over the pipe |
| Outputs.DirectWrite | src/DataOutput/DirectOutput.cpp:5-12 | the two nested loops write every payload string of every delta, in order, with nothing between them |
| Outputs.ConcatAppend | src/DataOutput/DirectOutput.cpp:7-9 | writing two lists of strings one after the other writes their texts one after the other |
| Outputs.DirectTextAppend | src/DataOutput/DirectOutput.cpp:6-10 | deltas written one after another write their payloads one after another |
| Outputs.DirectTextOfSingle | src/DataOutput/DirectOutput.cpp:6-10 | a single delta with a single payload string, as the image differ makes, is written as exactly that string |
| Outputs.WriteHunkBody | src/DataOutput/PatchfileOutput.cpp:45-68 | the lines written for one delta, chosen by its kind |
| Outputs.WritePrefixedLines | src/DataOutput/PatchfileOutput.cpp:47-54 | an addition writes each payload string as a `+` line and a deletion each as a `-` line, in order |
| Outputs.WriteModifiedLines | src/DataOutput/PatchfileOutput.cpp:56-65 | a modification writes each new line as a `+` line, preceded by the `-` line of the source line it replaces when the context holds one, walking the context from the start of its on part |
| Outputs.PatchfileWrite | src/DataOutput/PatchfileOutput.cpp:36-72 | the text written is the two name lines, then for each delta its `@@ -S,s +D,d @@` line and its lines |
| Outputs.PatchTextAppend | src/DataOutput/PatchfileOutput.cpp:41-69 | the patch for more deltas continues the patch for the first ones with the hunks of the others |
| Outputs.EmptyDifferencePatch | src/DataOutput/PatchfileOutput.cpp:38-39 | a difference without deltas writes only the two name lines |
| Outputs.ModificationWithoutContext | src/DataOutput/PatchfileOutput.cpp:56-65 | without source lines to show, a modification writes only its new lines, like an addition |
| Outputs.ModificationPairsLines | src/DataOutput/PatchfileOutput.cpp:56-65 | when the context covers the on part, each new line comes right after the source line it replaces |
| Outputs.ExpectLiteral | src/DataOutput/PatchfileOutput.cpp:43-44 | a literal at the front is taken off |
| Outputs.ReadNumberOfDecimal | src/DataOutput/PatchfileOutput.cpp:43-44 | a written number followed by a non-digit reads back as that number |
| Outputs.HunkHeaderRoundTrip | src/DataOutput/PatchfileOutput.cpp:43-44 | the hunk header written for a delta reads back as the delta's four positions |
| Outputs.DirectText | src/DataOutput/DirectOutput.cpp:5-12 | every payload string of every delta, in order, with nothing between them |
| Outputs.Concat | src/DataOutput/PatchfileOutput.cpp:41-69 | strings written one after another |
| Outputs.Line | src/DataOutput/PatchfileOutput.cpp:48 | a prefix, the text and the end of line `std::endl` writes |
| Outputs.FileHeader | src/DataOutput/PatchfileOutput.cpp:38-39 | the two lines `--- source` and `+++ destination` |
| Outputs.HunkHeader | src/DataOutput/PatchfileOutput.cpp:43-44 | the line `@@ -S,s +D,d @@` with the delta's positions and lengths in decimal |
| Outputs.PrefixedLines | src/DataOutput/PatchfileOutput.cpp:46-55 | each payload string on a line of its own after the prefix |
| Outputs.ModifiedLines | src/DataOutput/PatchfileOutput.cpp:56-65 | for each new line, the source line it replaces (counted from the before index, while the context has one) after `-`, then the new line after `+` |
| Outputs.HunkBody | src/DataOutput/PatchfileOutput.cpp:45-68 | the lines of a delta by kind: `+` lines for an addition, `-` lines for a deletion, replaced and new lines for a modification |
| Outputs.Hunk | src/DataOutput/PatchfileOutput.cpp:41-69 | one delta's header line, then its lines |
| Outputs.Hunks | src/DataOutput/PatchfileOutput.cpp:41-69 | one hunk per delta, in the order of the deltas |
| Outputs.PatchText | src/DataOutput/PatchfileOutput.cpp:36-72 | the whole patch: the file header, then one hunk per delta in order |
| Outputs.ReadHunkHeader | src/DataOutput/PatchfileOutput.cpp:43-44 | the four numbers read back from a line of the form `@@ -S,s +D,d @@`, or nothing |
| PPMDiffer.GenerateContext | src/FileDiffer/PPMFileDiffer.cpp:42-44 | an image differ gives no context: no raw chunks and both parts empty |
| PPMDiffer.ImageDelta | src/FileDiffer/PPMFileDiffer.cpp:21-30 | the one delta of an image difference: a modification whose single payload is the written image, with no context and all positions 0 |
| PPMDiffer.PPMFileDiffer.LoadData | src/FileDiffer/PPMFileDiffer.cpp:35-40 | true exactly when the file can be opened and loads as an image; then the differ holds a new object with that image, and otherwise it keeps what it had |
| PPMDiffer.PPMFileDiffer.Diff | src/FileDiffer/PPMFileDiffer.cpp:6-33 | nothing exactly when no image was loaded; otherwise the loaded image becomes its XOR with the other side's image, and the result names both files, forces direct printing and carries that image's text as its single modification |
| PPMDiffer.ImageDifferenceIsPrintedDirectly | src/FileDiffer/PPMFileDiffer.cpp:17-32 | whatever the user forced and wherever standard output goes, an image difference is printed directly, as exactly the XOR image's text |
| PPMDiffer.PrintedDifferenceLoadsBack | src/FileDiffer/PPMFileDiffer.cpp:15-32 | what the image differ prints is a PPM file that loads back as the XOR image |
| PPMDiffer.DifferenceAgainRestores | src/FileDiffer/PPMFileDiffer.cpp:15-32 | for images of one shape, diffing the printed difference against the right image again gives back the left image |
| PPMDiffer.PPMFileDiffer.constructor | src/FileDiffer/PPMFileDiffer.cpp:3-4 | the name and load mode are kept and no image is loaded |
| Differences.CopyStart | src/DataOutput/DataDifference.cpp:56 | the copy of the right-hand context starts at its last on-chunk, `maxIdxOfOnContext - 1`, whenever the C++ code's iterator is defined, and never past the data |
| Differences.MergedOnIndex | src/DataOutput/DataDifference.cpp:58-59 | for well-formed contexts whose sum fits `size_t`, the new end of the on part is this on part grown by the on part of `rhs` |
| Differences.MergeWithNewContext | src/DataOutput/DataDifference.cpp:52-62 | the before index is kept; the data is this context cut after its on part followed by `rhs` from its last on-chunk; this context's before and on chunks stay in place; a one-chunk right-hand on part lands right after this on part; well-formedness is kept |
| Differences.MergeWithNewContextAsWritten | src/DataOutput/DataDifference.cpp:52-62 | the merge as written, on the inputs where its iterator is defined, equals the clamped merge |
| Differences.Merge | src/DataOutput/DataDifference.cpp:17-22 | the earlier delta absorbing the later one keeps its kind and positions, adds up both lengths and concatenates the payloads |
| Differences.NormalizeStep | src/DataOutput/DataDifference.cpp:8-25 | a delta merges into the last output delta exactly when it is mergeable with it, and is appended otherwise |
| Differences.NormalizedLength | src/DataOutput/DataDifference.cpp:3-29 | normalising never lengthens the list, and the result is empty exactly when the input is |
| Differences.TotalsOfAppend | src/DataOutput/DataDifference.cpp:17-22 | the length totals and the payloads of a list grow by those of an appended delta |
| Differences.NormalizeStepKeepsTotals | src/DataOutput/DataDifference.cpp:8-25 | one step keeps the source and destination length totals and the payloads in order |
| Differences.NormalizedKeepsTotals | src/DataOutput/DataDifference.cpp:3-29 | normalisation keeps the totals of source and destination lengths and every payload string in order |
| Differences.NormalizedHasNoMergeablePair | src/DataOutput/DataDifference.cpp:3-29 | after normalisation no two adjacent deltas can be merged any more |
| Differences.NormalizedIsIdentityWithoutMergeablePair | src/DataOutput/DataDifference.cpp:3-29 | a list with no mergeable adjacent pair is left as it is |
| Differences.NormalizedIsIdempotent | src/DataOutput/DataDifference.cpp:3-29 | normalising twice is the same as normalising once |
| Differences.DataDifference.constructor | src/DataOutput/DataDifference.cpp:31-34 | the four fields hold the arguments |
| Differences.DataDifference.Normalize | src/DataOutput/DataDifference.cpp:3-29 | the one-pass loop replaces the deltas by `Normalized` of the old ones and keeps the names and the output style |
| Differences.DataDifference.PushOrMerge | src/DataOutput/DataDifference.cpp:8-25 | one pass of the loop: a delta that is not a modification, has the kind of the last kept delta and starts where it ends in the source is merged into it; any other delta is kept after it |
| Differences.WellFormed | src/DataOutput/DataDifference.h:41-50 | the before part ends no later than the on part, and both indices fit a `size_t` |
| Differences.MergeDefined | src/DataOutput/DataDifference.cpp:56 | the start iterator `rhs.rawData.begin() + rhs.maxIdxOfOnContext - 1` lies within the data or one past it |
| Differences.Mergeable | src/DataOutput/DataDifference.cpp:14-15 | a delta merges into the one before it exactly when it is not a modification, has the same kind, and starts where the earlier one ends in the source |
| Differences.Normalized | src/DataOutput/DataDifference.cpp:3-29 | the deltas folded in order: each merges into the last output delta when mergeable, else is appended |
| Differences.NoMergeablePair | src/DataOutput/DataDifference.cpp:14-15 | no two adjacent deltas satisfy the merge condition |
| Differences.SourceLenTotal | src/DataOutput/DataDifference.cpp:17 | the sum of the source lengths of the deltas |
| Differences.DestLenTotal | src/DataOutput/DataDifference.cpp:18 | the sum of the destination lengths of the deltas |
| Differences.AllInfo | src/DataOutput/DataDifference.cpp:22 | every payload string of every delta, in list order |
| Differences.ApplyDelta | src/DataOutput/PatchfileOutput.cpp:45-65 | the meaning of one hunk: an addition inserts its chunks after source chunk `indicatorSource`; a deletion removes `indicatorSourceLen` chunks from chunk `indicatorSource` on; a modification replaces them with its chunks |
| Differences.ApplyPatch | src/DataOutput/PatchfileOutput.cpp:41-69 | the hunks applied from the last to the first, so the earlier positions stay valid |
| Contexts.WindowStart | src/FileDiffer/TextFileDiffer.cpp:49 | the window starts at `offset - before`, or at 0 when that subtraction wraps around |
| Contexts.WindowEnd | src/FileDiffer/TextFileDiffer.cpp:49 | the window ends at `offset + after` on `size_t`, wrapping past `SIZE_MAX` |
| Contexts.BeforeIndex | src/FileDiffer/TextFileDiffer.cpp:51 | the index of the changed chunk inside the window is `min(offset, before)` when the after length is not the larger |
| Contexts.WindowAroundOffset | src/FileDiffer/TextFileDiffer.cpp:43-56 | for an offset inside the data, the window is the plain slice around it and the changed chunk sits at the before index |
| Contexts.WindowAtWrappedOffset | src/FileDiffer/FileDiffer.h:222 | the offset of a change before the first chunk wraps to `SIZE_MAX`, whose window is empty and whose before index is the full before length |
| Contexts.Window | src/FileDiffer/TextFileDiffer.cpp:49 | the slice `vectorSlice(data, offset - before clamped at 0, offset + after)` around a change, with the `size_t` arithmetic of the sources |
| Matrix.DefaultPrecision | src/FileDiffer/DataStructures/LevenshteinMatrix.cpp:5 | the default precision is `(rows + cols) / 25`, rounded down |
| Matrix.ResolvePrecision | src/FileDiffer/DataStructures/LevenshteinMatrix.cpp:3-6 | the given precision when there is one, else the default, which is 0 (unlimited) for inputs with fewer than 25 cells across |
| Matrix.GetCoordInjective | src/FileDiffer/DataStructures/LevenshteinMatrix.cpp:20-22 | the storage key `cols * col + row` is injective on cells whose row is below `cols`, so keying the values by cell is equivalent |
| Matrix.IsOutsidePrecisionRange | src/FileDiffer/DataStructures/LevenshteinMatrix.cpp:24-40 | precision 0 disables the band; the first and last row and column are always inside; cells within `precision` of the origin are inside |
| Matrix.Stored | src/FileDiffer/DataStructures/LevenshteinMatrix.cpp:10-11 | present exactly when the cell is stored, and then its value |
| Matrix.LevenshteinMatrix.constructor | src/FileDiffer/DataStructures/LevenshteinMatrix.cpp:3-6 | the dimensions given, the resolved precision, nothing stored |
| Matrix.LevenshteinMatrix.Get | src/FileDiffer/DataStructures/LevenshteinMatrix.cpp:8-12 | nothing outside the precision band or for a cell never set; otherwise the stored value |
| Matrix.LevenshteinMatrix.Set | src/FileDiffer/DataStructures/LevenshteinMatrix.cpp:14-18 | a no-op outside the band; inside, the cell reads back the value, every other cell reads as before, and only in-band cells are ever stored |
| Matrix.GetCoord | src/FileDiffer/DataStructures/LevenshteinMatrix.cpp:20-22 | the storage key of a cell, `cols * col + row` |
| Matrix.DiagonalRow | src/FileDiffer/DataStructures/LevenshteinMatrix.cpp:30-31 | the row of the main diagonal at a column, `col / rows * cols` rounded down, computed exactly on integers |
| DiffEngine.Plus | src/FileDiffer/FileDiffer.h:149-152 | an increment applied to an optional value: present exactly when the value is, and then larger by the increment |
| DiffEngine.PlusIsApply | src/FileDiffer/FileDiffer.h:149-152 | the increment is `Utility::apply` of `k + d` |
| DiffEngine.UnlimitedPrecisionIsConnected | src/FileDiffer/DataStructures/LevenshteinMatrix.cpp:25-26 | with precision 0 the band covers the whole matrix and so cannot be cut into pieces |
| DiffEngine.SquareBandIsConnected | src/FileDiffer/DataStructures/LevenshteinMatrix.cpp:24-40 | for inputs of equal length every in-band interior cell has an in-band predecessor, whatever the precision |
| DiffEngine.CellPresent | src/FileDiffer/FileDiffer.h:130-159 | on a connected band a cell of the built matrix holds a value exactly when it lies inside the band |
| DiffEngine.CornerPresent | src/FileDiffer/FileDiffer.h:187 | on a connected band the bottom-right corner, where the backtrack starts, holds a value |
| DiffEngine.Candidates | src/FileDiffer/FileDiffer.h:148-153 | the minimum of the three predecessor values the fill loop computes at an interior cell; at an in-band cell it is the cell's defined value |
| DiffEngine.FillDefinedAsWritten | src/FileDiffer/FileDiffer.h:144-154 | the fill loop as written dereferences that minimum at every interior cell, off-band cells included, so every one of them needs a present candidate |
| DiffEngine.SquareBandFillUndefined | src/FileDiffer/FileDiffer.h:148 | for two inputs of 99 chunks at the default precision 8 the band is connected, yet off-band cell (50, 10) has no present candidate, so the loop as written dereferences an empty optional |
| DiffEngine.InBandCandidatesPresent | src/FileDiffer/FileDiffer.h:144-154 | on a connected band every in-band interior cell has a present minimum |
| DiffEngine.LeastOfIsMin3 | src/Utility.cpp:51-54 | the least-of-three used by the backtrack is `Utility::min` with `cmpOptionals` |
| DiffEngine.LeastOfIsLeast | src/Utility.cpp:51-54 | the least of three optionals is one of them, none is below it, and it is absent only when all three are |
| DiffEngine.NextStepIsLeast | src/FileDiffer/FileDiffer.h:192-237 | the backtrack moves to a least neighbour, present unless all are absent; it prefers the diagonal, then the left neighbour, then the top one; a diagonal move is silent exactly when the cell equals its diagonal neighbour |
| DiffEngine.ScriptUnfold | src/FileDiffer/FileDiffer.h:201-237 | each move emits nothing (a kept chunk), a modification, an addition or a deletion after the deltas of the cell it reaches |
| DiffEngine.ScriptMove | src/FileDiffer/FileDiffer.h:201-237 | each move reaches a cell closer to the origin whose value is the neighbour chosen, and the script from here is the script from there plus what the move emits |
| DiffEngine.MinimumStep | src/FileDiffer/FileDiffer.h:148-203 | the neighbour the backtrack picks (diagonal, else left, else top) is present, and the value the construction stored is that neighbour plus the cost of the move |
| DiffEngine.StepFacts | src/FileDiffer/FileDiffer.h:192-237 | on a built matrix a cell holding a value is never stuck; a silent step reaches an equal value and happens only on equal chunks; a modification happens only on different chunks; every emitted delta reaches a value one less |
| DiffEngine.NeverStuck | src/FileDiffer/FileDiffer.h:198-237 | on a built matrix the backtrack never meets the case where all neighbours are absent, so the `logic_error` is never thrown |
| DiffEngine.ScriptLength | src/FileDiffer/FileDiffer.h:179-242 | the number of deltas emitted equals the value in the starting cell |
| DiffEngine.EditDeltaShaped | src/FileDiffer/FileDiffer.h:209-232 | a modification replaces one chunk by one, an addition adds one, a deletion removes one; each at positions `i` and `j` with the context taken at `i - 1` |
| DiffEngine.OrderedUpToMeans | src/FileDiffer/FileDiffer.h:240 | after the reversal the deltas stand in ascending position order on both sides |
| DiffEngine.OrderedWiden | src/FileDiffer/FileDiffer.h:240 | ordering up to a position stays true up to any later position |
| DiffEngine.OrderedAppend | src/FileDiffer/FileDiffer.h:240 | a delta at or after the last position extends the ordering |
| DiffEngine.ScriptOrdered | src/FileDiffer/FileDiffer.h:179-242 | the reversed deltas stand in ascending order of source and destination positions, all within the inputs |
| DiffEngine.ApplyPatchOfAppend | src/DataOutput/PatchfileOutput.cpp:41-69 | applying a delta list whose last delta is `d` applies `d` first |
| DiffEngine.ApplyAddition | src/DataOutput/PatchfileOutput.cpp:46-50 | an addition at position `i` inserts its chunk after the first `i` chunks |
| DiffEngine.ApplyDeletion | src/DataOutput/PatchfileOutput.cpp:51-55 | a deletion at position `i` removes the `i`-th chunk |
| DiffEngine.ApplyModification | src/DataOutput/PatchfileOutput.cpp:56-65 | a modification at position `i` replaces the `i`-th chunk |
| DiffEngine.PatchAfterKeep | src/FileDiffer/FileDiffer.h:204-206 | a silent diagonal move over equal chunks keeps the patch correct |
| DiffEngine.PatchAfterModify | src/FileDiffer/FileDiffer.h:207-216 | a modification move keeps the patch correct |
| DiffEngine.PatchAfterAdd | src/FileDiffer/FileDiffer.h:218-225 | an addition move keeps the patch correct |
| DiffEngine.PatchAfterDelete | src/FileDiffer/FileDiffer.h:226-233 | a deletion move keeps the patch correct |
| DiffEngine.ScriptApplies | src/FileDiffer/FileDiffer.h:179-242 | applying the deltas of the backtrack from (i, j) to the first `i` source chunks gives the first `j` destination chunks, whatever follows them |
| DiffEngine.AppliesStep | src/FileDiffer/FileDiffer.h:201-237 | one move of the backtrack preserves that correctness |
| DiffEngine.KeepApplies | src/FileDiffer/FileDiffer.h:204-206 | a kept chunk costs nothing and keeps the patch correct |
| DiffEngine.ModifyApplies | src/FileDiffer/FileDiffer.h:207-216 | an emitted modification keeps the patch correct |
| DiffEngine.AddApplies | src/FileDiffer/FileDiffer.h:218-225 | an emitted addition keeps the patch correct |
| DiffEngine.DeleteApplies | src/FileDiffer/FileDiffer.h:226-233 | an emitted deletion keeps the patch correct |
| DiffEngine.SelfDiagonalIsZero | src/FileDiffer/FileDiffer.h:130-159 | in the matrix of a sequence against itself every diagonal cell holds 0, for any precision |
| DiffEngine.SelfDiffIsEmpty | src/FileDiffer/FileDiffer.h:179-242 | diffing a sequence against itself emits no delta |
| DiffEngine.ScriptFromEmptySource | src/FileDiffer/FileDiffer.h:218-225 | from an empty source the difference is one addition per destination chunk, in order |
| DiffEngine.OpsCost | src/FileDiffer/FileDiffer.h:146 | the cost of an alignment counts every edit and no kept chunk |
| DiffEngine.ExactCellPresent | src/FileDiffer/FileDiffer.h:130-159 | without a band every cell holds a value |
| DiffEngine.ExactCellBounds | src/FileDiffer/FileDiffer.h:135-156 | without a band each cell is at most each predecessor plus the cost of the step from it |
| DiffEngine.ExactInteriorBounds | src/FileDiffer/FileDiffer.h:144-156 | the same for an interior cell and its three predecessors |
| DiffEngine.LeastOfStepBounds | src/FileDiffer/FileDiffer.h:148-154 | the least of three present step values is at most each of them |
| DiffEngine.ExactBorderCells | src/FileDiffer/FileDiffer.h:135-140 | without a band the borders hold their distance from the origin |
| DiffEngine.AlignmentCostsAtLeastCell | src/FileDiffer/FileDiffer.h:130-159 | every alignment of the prefixes costs at least the value of the unbanded matrix |
| DiffEngine.TraceIsAlignment | src/FileDiffer/FileDiffer.h:179-242 | the backtrack follows an alignment costing exactly the value of its starting cell |
| DiffEngine.ExactCornerIsEditDistance | src/FileDiffer/FileDiffer.h:121-159 | without a band the corner holds the edit distance: it is the cost of the traced alignment, no alignment costs less, and the difference has that many deltas |
| DiffEngine.BandedScriptAtLeastEditDistance | src/FileDiffer/DataStructures/LevenshteinMatrix.cpp:24-40 | with a band the difference still follows an alignment and is never shorter than the edit distance |
| DiffEngine.FirstColumnStep | src/FileDiffer/FileDiffer.h:135-137 | the first border loop stores `i` in cell (i, 0) and nothing else |
| DiffEngine.FirstColumnDone | src/FileDiffer/FileDiffer.h:135-137 | after it the whole first column is stored |
| DiffEngine.BordersStep | src/FileDiffer/FileDiffer.h:138-140 | the second border loop stores `j` in cell (0, j) and nothing else |
| DiffEngine.BordersFilled | src/FileDiffer/FileDiffer.h:135-140 | after both loops the borders hold the values the construction defines |
| DiffEngine.FilledStep | src/FileDiffer/FileDiffer.h:146-154 | one interior step stores the defined value of its cell |
| DiffEngine.FilledNextRow | src/FileDiffer/FileDiffer.h:144-145 | a finished row starts the next one |
| DiffEngine.FilledHoldsCells | src/FileDiffer/FileDiffer.h:144-156 | after the last row the matrix holds every defined value and nothing else |
| DiffEngine.ConstructLevenshteinMatrix | src/FileDiffer/FileDiffer.h:130-159 | a new matrix of `destination + 1` rows and `source + 1` columns with the resolved precision; on a connected band it stores exactly the band's Levenshtein values, cell by cell, and nothing outside the band; it takes the minimum only at in-band cells (see "## Findings") |
| DiffEngine.BuiltMatrixIsWalkable | src/FileDiffer/FileDiffer.h:189-238 | a built matrix over a connected band can be walked back from its corner without getting stuck |
| DiffEngine.WalkStep | src/FileDiffer/FileDiffer.h:209-240 | pushing a delta and reversing at the end keeps the script in order |
| DiffEngine.WalkMove | src/FileDiffer/FileDiffer.h:201-237 | each branch of the loop moves to the cell the script moves to and pushes the delta the script emits |
| DiffEngine.ChooseStep | src/FileDiffer/FileDiffer.h:192-203 | reading the three neighbours from the matrix gives the backtrack's move |
| DiffEngine.LevenshteinMatrixToDeltas | src/FileDiffer/FileDiffer.h:179-242 | a new difference named after both inputs, default output, holding exactly the backtrack's deltas in ascending order |
| DiffEngine.BuiltScriptApplies | src/FileDiffer/FileDiffer.h:179-242 | when equal chunks are displayed alike, applying the difference to the displayed source gives the displayed destination |
| DiffEngine.DiffChunks | src/FileDiffer/TextFileDiffer.cpp:13-17 | the shared diff flow: ordered deltas; applying them turns source into destination; no delta for equal inputs; without a band as many deltas as the edit distance; from an empty source one addition per destination chunk |
| DiffEngine.Outside | src/FileDiffer/DataStructures/LevenshteinMatrix.cpp:24-40 | a cell of the matrix for `s` against `t` lies outside the band, the matrix having `|t| + 1` rows and `|s| + 1` columns |
| DiffEngine.Cost | src/FileDiffer/FileDiffer.h:146 | the cost of a modification step: 0 for equal chunks, 1 otherwise |
| DiffEngine.Cell | src/FileDiffer/FileDiffer.h:130-159 | the value the construction leaves in a cell: absent outside the band; `i` and `j` on the borders; elsewhere the least present of top + 1, left + 1 and diagonal + cost |
| DiffEngine.BandConnected | src/FileDiffer/FileDiffer.h:148 | every in-band interior cell has an in-band predecessor, so the fill never takes the minimum of three absent values at an in-band cell |
| DiffEngine.HoldsCells | src/FileDiffer/FileDiffer.h:130-159 | the stored values are exactly the defined cell values |
| DiffEngine.Top | src/FileDiffer/FileDiffer.h:194 | the neighbour above, read only when `i` is not 0 |
| DiffEngine.Left | src/FileDiffer/FileDiffer.h:195 | the neighbour to the left, read only when `j` is not 0 |
| DiffEngine.Diag | src/FileDiffer/FileDiffer.h:196 | the diagonal neighbour, read only when neither index is 0 |
| DiffEngine.Stuck | src/FileDiffer/FileDiffer.h:234-237 | no neighbour holds a value, where the C++ code throws `logic_error` |
| DiffEngine.Target | src/FileDiffer/FileDiffer.h:201-233 | the neighbour each move goes to |
| DiffEngine.LeastOf | src/Utility.cpp:51-54 | the three-way minimum under the optional comparison, written without the comparator argument |
| DiffEngine.NextStep | src/FileDiffer/FileDiffer.h:199-237 | the move out of a cell: the diagonal when it is the minimum, silent when the cell equals it; else the left neighbour (an addition); else the top one (a deletion) |
| DiffEngine.EditDelta | src/FileDiffer/FileDiffer.h:209-232 | the delta a move emits: a modification or addition of destination chunk `j - 1`, or a deletion of source chunk `i - 1`, at positions `i` and `j`, with the context at `i - 1` |
| DiffEngine.Script | src/FileDiffer/FileDiffer.h:187-240 | the deltas the walk from (i, j) back to the origin emits, in the order after the final reversal |
| DiffEngine.Shaped | src/FileDiffer/FileDiffer.h:209-232 | a delta has one of the three shapes a move emits, with its context taken at offset `indicatorSource - 1` |
| DiffEngine.OrderedUpTo | src/FileDiffer/FileDiffer.h:240 | the deltas stand in ascending order of both positions, none beyond (i, j), each of one of the three shapes |
| DiffEngine.DisplaysAgree | src/FileDiffer/TextFileDiffer.cpp:15-17 | chunks that compare equal are displayed alike |
| DiffEngine.IsAlignment | src/FileDiffer/FileDiffer.h:144-154 | a sequence of edits aligns the two prefixes: a match or substitution takes a chunk of each (a match only of equal chunks), an insertion one of the destination, a removal one of the source |
| DiffEngine.TraceOps | src/FileDiffer/FileDiffer.h:187-238 | the edits the walk follows, one per move |
| TextDiffer.ToLower | src/FileDiffer/TextFileDiffer.cpp:66 | `tolower` in the C locale: the result is never an ASCII capital, whitespace stays whitespace, and anything but a capital is kept |
| TextDiffer.StripSpaces | src/FileDiffer/TextFileDiffer.cpp:61 | the result holds no whitespace and is no longer than the text |
| TextDiffer.Lowered | src/FileDiffer/TextFileDiffer.cpp:66 | every character lowered, in place, length kept |
| TextDiffer.Normalize | src/FileDiffer/TextFileDiffer.cpp:58-70 | stripping leaves no whitespace; lowering leaves no capital |
| TextDiffer.StripSpacesOfAppend | src/FileDiffer/TextFileDiffer.cpp:61 | stripping distributes over concatenation |
| TextDiffer.StripSpacesKeepsSpaceless | src/FileDiffer/TextFileDiffer.cpp:61 | a text without whitespace is kept as it is |
| TextDiffer.NormalizeOfAppend | src/FileDiffer/TextFileDiffer.cpp:58-70 | normalising distributes over concatenation |
| TextDiffer.NormalizeIsIdempotent | src/FileDiffer/TextFileDiffer.cpp:58-70 | normalising twice is normalising once |
| TextDiffer.NormalizedTextIsIdempotent | src/FileDiffer/TextFileDiffer.cpp:58-70 | the same under every load mode |
| TextDiffer.StrictNormalizationIsIdentity | src/FileDiffer/TextFileDiffer.cpp:59-64 | with both strict flags a line is compared exactly as written |
| TextDiffer.NormalizationIgnoresWhitespace | src/FileDiffer/TextFileDiffer.cpp:59-62 | without strict whitespace, a whitespace character inserted anywhere makes no difference |
| TextDiffer.NormalizationIgnoresCase | src/FileDiffer/TextFileDiffer.cpp:64-67 | without strict case, the case of any character makes no difference |
| TextDiffer.NormalizeText | src/FileDiffer/TextFileDiffer.cpp:58-70 | the in-place erase and transform loops give the normalised text |
| TextDiffer.TextContext | src/FileDiffer/TextFileDiffer.cpp:43-56 | the changed line sits at `min(offset, 4)`, and one line is changed |
| TextDiffer.TextContextAroundLine | src/FileDiffer/TextFileDiffer.cpp:43-56 | for a line of the file, the context is up to four lines before it and two from it on, with that line at the before index |
| TextDiffer.TextContextBeforeFirstLine | src/FileDiffer/FileDiffer.h:222 | a change before the first line gets offset `0 - 1`, whose context is empty with the on part at 4..5, outside what the context merge can copy from |
| TextDiffer.TextPresenter | src/FileDiffer/TextFileDiffer.cpp:15-17 | lines are shown as written, with contexts from the source file |
| TextDiffer.LeadingAdditionsLeaveMergeDomain | src/DataOutput/DataDifference.cpp:14-20 | an empty file against two or more lines yields two mergeable additions whose second context lies outside the C++ merge's domain |
| TextDiffer.HashesOfAppend | src/FileDiffer/TextFileDiffer.cpp:31-34 | appending lines with their hashes keeps lines and hashes in lockstep |
| TextDiffer.TextFileDiffer.constructor | src/FileDiffer/TextFileDiffer.cpp:3 | the arguments are kept and no line is loaded |
| TextDiffer.TextFileDiffer.LoadData | src/FileDiffer/TextFileDiffer.cpp:22-41 | fails exactly when the file cannot be opened; otherwise every line is appended together with the hash of its normalised text |
| TextDiffer.TextFileDiffer.Diff | src/FileDiffer/TextFileDiffer.cpp:5-20 | a new difference named after both files, in ascending order; when equal hashes mean equal lines it turns this file's lines into the other's; lines equal after normalisation give no delta; an empty file gives one addition per line |
| TextDiffer.NormalizedText | src/FileDiffer/TextFileDiffer.cpp:58-70 | the text a line is compared by: whitespace removed unless strict whitespace is set, lowered unless strict case is set |
| TextDiffer.LineHash | src/FileDiffer/TextFileDiffer.cpp:33 | the Murmur3 hash of the normalised line |
| TextDiffer.HashesOf | src/FileDiffer/TextFileDiffer.cpp:31-34 | the hash list holds, index for index, the hash of each line |
| BinaryDiffer.HexStrings | src/FileDiffer/BinaryFileDiffer.cpp:16-19 | each byte shown as its hex string, in order |
| BinaryDiffer.ByteToHexStringInjective | src/Utility.cpp:67-74 | distinct bytes are shown as distinct strings |
| BinaryDiffer.HexStringsInjective | src/FileDiffer/BinaryFileDiffer.cpp:16-19 | the hex view of a byte sequence determines the bytes |
| BinaryDiffer.BinaryContext | src/FileDiffer/BinaryFileDiffer.cpp:41-58 | the changed byte sits at `min(offset, 8)`, and one byte is changed |
| BinaryDiffer.BinaryContextAroundByte | src/FileDiffer/BinaryFileDiffer.cpp:41-58 | for a byte of the file, the context is up to eight bytes either side as hex strings, with that byte at the before index |
| BinaryDiffer.BinaryContextBeforeFirstByte | src/FileDiffer/FileDiffer.h:222 | a change before the first byte gets an empty context with the on part at 8..9, outside what the context merge can copy from |
| BinaryDiffer.BinaryPresenter | src/FileDiffer/BinaryFileDiffer.cpp:15-19 | bytes are shown as hex strings, with contexts from the source file |
| BinaryDiffer.BinaryFileDiffer.constructor | src/FileDiffer/BinaryFileDiffer.cpp:3 | the arguments are kept and no byte is loaded |
| BinaryDiffer.BinaryFileDiffer.LoadData | src/FileDiffer/BinaryFileDiffer.cpp:24-39 | fails exactly when the file cannot be opened; otherwise the file's bytes replace the data |
| BinaryDiffer.BinaryFileDiffer.Diff | src/FileDiffer/BinaryFileDiffer.cpp:5-22 | a new difference named after both files, in ascending order; applying it to this file's hex view gives the other's; equal data gives no delta; an empty file gives one addition per byte |
| DirectoryDiffer.DirectoryIdentifierShape | src/FileDiffer/DirectoryDiffer.cpp:66-68 | a directory's line is its relative path and a slash |
| DirectoryDiffer.FileIdentifierShape | src/FileDiffer/DirectoryDiffer.cpp:66-71 | a file's line is its relative path, then its hash in hex between parentheses |
| DirectoryDiffer.IdentifierShowsHash | src/FileDiffer/DirectoryDiffer.cpp:63-72 | two files at one path have the same line only when their hashes agree, so a changed hash shows as a changed line |
| DirectoryDiffer.DirectoryAndFileIdentifiersDiffer | src/FileDiffer/DirectoryDiffer.cpp:67-71 | a directory's line never equals a file's line |
| DirectoryDiffer.FlattenStartsWithEntry | src/FileDiffer/DirectoryDiffer.cpp:75-81 | an entry's own line comes before its children's |
| DirectoryDiffer.FlattenChildren | src/FileDiffer/DirectoryDiffer.cpp:79-81 | the flattening of the first `n` children holds at least one line per child |
| DirectoryDiffer.FlattenHasOneLinePerEntry | src/FileDiffer/DirectoryDiffer.cpp:63-82 | the view has exactly one line per entry of the tree |
| DirectoryDiffer.ChildrenHaveOneLinePerEntry | src/FileDiffer/DirectoryDiffer.cpp:79-81 | the children's part of the view has one line per entry below them |
| DirectoryDiffer.ChildBlockPosition | src/FileDiffer/DirectoryDiffer.cpp:79-81 | each child's subtree is one contiguous block of the view, right after the blocks of the children before it |
| DirectoryDiffer.NameLessIrreflexive | src/FileDiffer/DirectoryDiffer.h:18 | no name comes before itself in the map's order |
| DirectoryDiffer.NameLessTransitive | src/FileDiffer/DirectoryDiffer.h:18 | the map's name order is transitive |
| DirectoryDiffer.ChildNamesAscend | src/FileDiffer/DirectoryDiffer.h:18 | in a loaded tree every earlier child's name is smaller than every later one's |
| DirectoryDiffer.ChildrenCountMonotone | src/FileDiffer/DirectoryDiffer.cpp:79-81 | more children never hold fewer entries |
| DirectoryDiffer.ChildBlocksFollowNameOrder | src/FileDiffer/DirectoryDiffer.cpp:79-81 | children's blocks appear in ascending, distinct name order: an earlier name's whole block ends before a later name's block starts |
| DirectoryDiffer.PrefixOfChildren | src/FileDiffer/DirectoryDiffer.cpp:79-81 | the view of fewer children is a prefix of the view of more |
| DirectoryDiffer.InLockstepAppend | src/FileDiffer/DirectoryDiffer.cpp:73-76 | appending lines with their hashes keeps the view and the hashes in lockstep |
| DirectoryDiffer.DirectoryPresenter | src/FileDiffer/DirectoryDiffer.cpp:40-53 | lines are shown as they are, with the text context of four lines before and two from the offset on |
| DirectoryDiffer.DirectoryDiffer.constructor | src/FileDiffer/DirectoryDiffer.cpp:3 | the arguments are kept and the view is empty |
| DirectoryDiffer.DirectoryDiffer.LoadData | src/FileDiffer/DirectoryDiffer.cpp:21-38 | fails exactly when the tree cannot be listed, keeping the view; otherwise the tree becomes the root entry and its flattening is appended to the view |
| DirectoryDiffer.DirectoryDiffer.PushLine | src/FileDiffer/DirectoryDiffer.cpp:73-76 | one line and its hash are pushed; the root entry is kept |
| DirectoryDiffer.DirectoryDiffer.AddToStringifiedView | src/FileDiffer/DirectoryDiffer.cpp:63-82 | the entry's pre-order flattening is appended to the view, hashes in lockstep |
| DirectoryDiffer.DirectoryDiffer.Diff | src/FileDiffer/DirectoryDiffer.cpp:5-19 | a new difference named after both directories, in ascending order; when equal hashes mean equal lines it turns this view into the other's; equal views give no delta |
| DirectoryDiffer.NameLess | src/FileDiffer/DirectoryDiffer.cpp:79 | the order in which the `std::map` of a directory's contents iterates over its names |
| DirectoryDiffer.Ordered | src/FileDiffer/DirectoryDiffer.cpp:79 | every directory's children stand in ascending name order, as the `std::map` holds them |
| DirectoryDiffer.Identifier | src/FileDiffer/DirectoryDiffer.cpp:64-72 | the line of an entry: its path relative to the root, then `/` for a directory, or a space and its hash in hex in parentheses for a file |
| DirectoryDiffer.Flatten | src/FileDiffer/DirectoryDiffer.cpp:63-82 | the pre-order flattening: the entry's line, then the flattening of each child in name order |
| DirectoryDiffer.EntryCount | src/FileDiffer/DirectoryDiffer.cpp:63-82 | the number of lines the flattening of an entry has |
| DirectoryDiffer.IdentifierHash | src/FileDiffer/DirectoryDiffer.cpp:73 | the Murmur3 hash of an entry's line |
| DirectoryDiffer.InLockstep | src/FileDiffer/DirectoryDiffer.cpp:75-76 | the hash list holds, index for index, the hash of each line of the view |

## Left out

- Matrix.DiagonalRow: the band test projects a cell onto the diagonal with `double` arithmetic truncated to `size_t` (`LevenshteinMatrix.cpp:30-31`). The model uses the exact integer floor `col * cols / rows`, which can differ by one where the `double` product rounds.
- Matrix.IsOutsidePrecisionRange: inherits that floor projection.
- DiffEngine.ConstructLevenshteinMatrix: skips the off-band interior cells, where the C++ loop dereferences the minimum of three predecessors and then drops the value (`FileDiffer.h:144-154`). That dereference is undefined behaviour at every cell whose three predecessors all lie outside the band, off-band cells on a connected band included; see "## Findings". The stored values are proved only when the band is connected (`BandConnected`). An in-band cell with no in-band predecessor, possible only on a band that is not connected, is also undefined behaviour in the C++ code; the model stores 0 there.
- DiffEngine.DiffChunks: requires `BandConnected`, because the backtrack needs every in-band cell filled. So do the text, binary and directory `Diff` methods. The band is proved connected for precision 0 and for inputs of equal length. On such bands the C++ code is still undefined wherever an off-band cell has no in-band predecessor, as for two inputs of 99 chunks at the default precision; the model follows the corrected construction.
- Differences.MergeWithNewContext: clamps the start of the copy from the right-hand context. The C++ code forms that iterator unchecked, which is undefined when `rhs.maxIdxOfOnContext` is 0 or more than one past the data. See "## Findings".
- Differences.CopyStart: the clamped start used by that merge.
- PPM.LoadedImage: reads each value with `Streams.ParseUnsigned`, which accepts only a whole word of decimal digits. C++ `>>` into an unsigned also accepts three other kinds of word: `+5`, read as 5; `-1`, read as the type's maximum; and a last word such as `12abc`, read as 12. The model rejects those files.
- Streams.ParseUnsigned: the same restriction, for the same reason.
- Utility.CharToByte: takes a character to be one C++ `char`, its low byte. Lines holding characters above 255, such as UTF-8 text decoded to code points, hash differently from the C++ bytes.
- PPMImage.EnlargedShape: the image's width, height and value counts are unbounded, so the `size_t` products in `enlarge` (`PPMFile.cpp:90-91,102-103`) never wrap in the model.
- PPMFiles.PPMFile.Serialize: requires the data to hold at least the values the header calls for. The C++ writer indexes `data` unchecked (`PPMFile.cpp:75`), so a shorter vector is undefined behaviour. Every XOR result meets the requirement, and so does every loaded image whose value count does not wrap `size_t` (`PPM.LoadedImageShape`, `PPMImage.XoredShape`).
- PPMFiles.PPMFile.XORWith: requires versions 1 to 3 on both sides, which is all the loader accepts (`PPMFile.cpp:12-44`).
- TextDiffer.TextFileDiffer.Diff: takes another text differ. The path where `dynamic_cast` finds a differ of another kind and returns nothing (`TextFileDiffer.cpp:6-11`) is not modelled.
- BinaryDiffer.BinaryFileDiffer.Diff: takes another binary differ; the other-kind path (`BinaryFileDiffer.cpp:6-11`) is not modelled.
- DirectoryDiffer.DirectoryDiffer.Diff: takes another directory differ; the other-kind path (`DirectoryDiffer.cpp:6-10`) is not modelled.
- PPMDiffer.PPMFileDiffer.Diff: takes another image differ; the other-kind path (`PPMFileDiffer.cpp:9-13`) is not modelled. It also needs the other side loaded whenever this side is, because the C++ code dereferences the other side's image without checking it (`PPMFileDiffer.cpp:15`).
- TextDiffer.ToLower: `tolower` and `isspace` in the C locale, ASCII only, as `Streams.IsSpace` also is. Other locales are not modelled.
- DiffEngine.BuiltScriptApplies: holds only under `DisplaysAgree`, which says chunks with equal hashes are displayed alike. The differs compare 32-bit hashes, so a collision between different lines or entries breaks the round-trip. The same condition guards the round-trip clauses of the text and directory `Diff` methods.
- Args.Stoi: an `out_of_range` thrown by `std::stoi` escapes the `noexcept` parse and ends the program. The model returns `Terminated`.
- Outputs.PatchfileWrite: the bool returned by `std::cout.good()` is not modelled. Standard output is the returned text. The same holds for `Outputs.DirectWrite`.
- Outputs.GetOutput: whether descriptor 1 is a terminal (`isatty`) is a parameter.
- FileDiffer.GetInstance: file bytes and the directory test are parameters. The result is the kind of differ that would be constructed, not the object.
- DirectoryDiffer.DirectoryDiffer.LoadData: the directory listing is a parameter, an ordered tree of entries. Each entry's hash of its first 4096 bytes (`DirectoryDiffer.cpp:84-110`) is a field of that tree.
- The logger and every message sent to it are not modelled; no branch of the code depends on them.
- The graphical output (`GraphicalOutput`), `main.cpp` and the driver in `Diffeek.cpp`, which loads both differs and prints their difference, are not part of this model.
- The `operator<<` debug printer of the Levenshtein matrix is not modelled.

## Findings

| source | as written | input that shows it | evidently intended | confidence | as-written member | corrected member |
|---|---|---|---|---|---|---|
| src/DataOutput/DataDifference.cpp:56 | `mergeWithNewContext` copies from `rhs.rawData.begin() + rhs.maxIdxOfOnContext - 1` unchecked. A change before the first chunk has an empty context with its on part at 4..5 (text) or 8..9 (binary). For such a context that iterator lies beyond the end, which is undefined behaviour. | An empty text file diffed against a file of two lines: the backtrack emits two additions at source position 0, normalisation merges them, and the second one's context is `([], 4, 5)` (`TextDiffer.LeadingAdditionsLeaveMergeDomain`, `TextDiffer.TextContextBeforeFirstLine`, `BinaryDiffer.BinaryContextBeforeFirstByte`) | copy the right-hand on and after parts, which are empty when the right-hand context has no data | not executed | Differences.MergeWithNewContextAsWritten | Differences.MergeWithNewContext |
| src/FileDiffer/FileDiffer.h:148 | The interior loop runs over every cell and dereferences `Utility::min` of the three predecessors before `Set` discards off-band values. Where all three predecessors lie outside the band, the minimum is an empty optional and the dereference is undefined behaviour. | Two files of 99 lines each at the default precision 8: the band is connected, yet cell (50, 10) and its predecessors (49, 10), (50, 9) and (49, 9) all lie outside it (`DiffEngine.SquareBandFillUndefined`) | take the minimum only at in-band cells, which on a connected band always have one (`DiffEngine.InBandCandidatesPresent`) | not executed | DiffEngine.SquareBandFillUndefined | DiffEngine.ConstructLevenshteinMatrix |
