/**
 * Choosing the differ for a file: by the suffix of its name, then by
 * whether it is a directory, then by the first bytes of its contents,
 * unless the user forced a data format.
 *
 * The file system is not modelled: whether the name is a directory and the
 * bytes a binary stream reads from it are parameters (a file that cannot be
 * opened reads as no bytes). The result is the kind of differ constructed.
 */
module FileDiffer {
  import opened Wrappers
  import opened Modes

  /** The four differ classes a file can be given to. */
  datatype DifferKind = PPMKind | TextKind | BinaryKind | DirectoryKind

  type byte = bv8

  // ---------------------------------------------------------------------
  // Suffixes
  // ---------------------------------------------------------------------

  /** `str` ends with `searchTerm`. */
  predicate EndsWith(str: string, searchTerm: string) {
    |searchTerm| <= |str| && str[|str| - |searchTerm|..] == searchTerm
  }

  /** Ending with a term is being that term with something (maybe nothing) put before it. */
  lemma EndsWithIffSuffix(str: string, searchTerm: string)
    ensures EndsWith(str, searchTerm) <==> exists prefix :: str == prefix + searchTerm
  {
    if EndsWith(str, searchTerm) {
      var prefix := str[..|str| - |searchTerm|];
      assert str == prefix + searchTerm;
    }
    if exists prefix :: str == prefix + searchTerm {
      var prefix :| str == prefix + searchTerm;
      assert str[|prefix|..] == searchTerm;
    }
  }

  /** Compares the two strings backwards from their last characters. */
  method StringEndsWith(str: string, searchTerm: string) returns (r: bool)
    ensures r <==> EndsWith(str, searchTerm)
  {
    if |str| < |searchTerm| {
      return false;
    }
    var i, j := |str|, |searchTerm|;
    while i > 0 && j > 0
      invariant 0 <= j <= |searchTerm| && i - j == |str| - |searchTerm|
      invariant forall k :: j <= k < |searchTerm| ==> str[|str| - |searchTerm| + k] == searchTerm[k]
    {
      if str[i - 1] != searchTerm[j - 1] {
        return false;
      }
      i, j := i - 1, j - 1;
    }
    assert j == 0;
    assert str[|str| - |searchTerm|..] == searchTerm;
    return true;
  }

  const DIRECTORY_EXTENSIONS: seq<string> := ["/"]
  const PPM_EXTENSIONS: seq<string> := [".pbm", ".pgm", ".ppm"]
  const TEXT_EXTENSIONS: seq<string> :=
    [".txt", ".md", ".latex", ".tex", ".cpp", ".tpp", ".h", ".rs", ".html", ".xml", ".json"]
  const BINARY_EXTENSIONS: seq<string> := [".out", ".bin"]

  /** The name standard input is read under; it is never read to guess its format. */
  const STDIN: string := "/dev/stdin"

  predicate EndsWithAny(filename: string, extensions: seq<string>) {
    exists k :: 0 <= k < |extensions| && EndsWith(filename, extensions[k])
  }

  /** Tries the extensions in order and stops at the first that matches. */
  method MatchesAny(filename: string, extensions: seq<string>) returns (r: bool)
    ensures r <==> EndsWithAny(filename, extensions)
  {
    for k := 0 to |extensions|
      invariant forall m :: 0 <= m < k ==> !EndsWith(filename, extensions[m])
    {
      var matches := StringEndsWith(filename, extensions[k]);
      if matches {
        return true;
      }
    }
    return false;
  }

  /** The kind a name's suffix decides, trying image, text, binary and directory suffixes in that order. */
  function KindByName(filename: string): (r: Option<DifferKind>) {
    if EndsWithAny(filename, PPM_EXTENSIONS) then Some(PPMKind)
    else if EndsWithAny(filename, TEXT_EXTENSIONS) then Some(TextKind)
    else if EndsWithAny(filename, BINARY_EXTENSIONS) then Some(BinaryKind)
    else if EndsWithAny(filename, DIRECTORY_EXTENSIONS) then Some(DirectoryKind)
    else None
  }

  // ---------------------------------------------------------------------
  // Contents
  // ---------------------------------------------------------------------

  /** How many leading bytes are looked at. */
  const SNIFF_LENGTH: nat := 1024

  /** A control byte other than line feed, carriage return and tab. */
  predicate IsControl(b: byte) {
    b < 0x20 && b != 0x0A && b != 0x0D && b != 0x09
  }

  /** The file starts with `P` and a digit from `0` to `3`. */
  predicate HasPPMHeader(bytes: seq<byte>) {
    |bytes| >= 2 && bytes[0] == 0x50 && 0x30 <= bytes[1] <= 0x33
  }

  /** One of the first `n` bytes is a control byte. */
  predicate ControlWithin(bytes: seq<byte>, n: nat) {
    exists k :: 0 <= k < n && k < |bytes| && IsControl(bytes[k])
  }

  /**
   * The kind the first bytes suggest: a control byte in the first position
   * makes a binary file; otherwise an image header makes an image; otherwise
   * a control byte among the first 1024 makes a binary file; anything else
   * is text.
   */
  function KindByContent(bytes: seq<byte>): DifferKind {
    if |bytes| >= 1 && IsControl(bytes[0]) then BinaryKind
    else if HasPPMHeader(bytes) then PPMKind
    else if ControlWithin(bytes, SNIFF_LENGTH) then BinaryKind
    else TextKind
  }

  /** Reads at most 1024 bytes, one at a time, and decides as soon as it can. */
  method Sniff(bytes: seq<byte>) returns (kind: DifferKind)
    ensures kind == KindByContent(bytes)
  {
    var firstChar: byte := 0;
    var byteCount := 0;
    while byteCount < SNIFF_LENGTH
      invariant byteCount <= SNIFF_LENGTH && byteCount <= |bytes|
      invariant byteCount >= 1 ==> firstChar == bytes[0]
      invariant byteCount >= 2 ==> !HasPPMHeader(bytes)
      invariant !ControlWithin(bytes, byteCount)
    {
      if byteCount >= |bytes| {
        break;
      }
      var byteRead := bytes[byteCount];
      if byteCount == 0 {
        firstChar := byteRead;
      }
      if byteCount == 1 && firstChar == 0x50 && 0x30 <= byteRead <= 0x33 {
        return PPMKind;
      }
      if IsControl(byteRead) {
        return BinaryKind;
      }
      byteCount := byteCount + 1;
    }
    assert !ControlWithin(bytes, SNIFF_LENGTH);
    return TextKind;
  }

  // ---------------------------------------------------------------------
  // Choosing the differ
  // ---------------------------------------------------------------------

  /** The kind chosen for a file when no format is forced. */
  function DetectedKind(filename: string, isDirectory: bool, bytes: seq<byte>): DifferKind {
    match KindByName(filename)
    case Some(kind) => kind
    case None =>
      if isDirectory then DirectoryKind
      else if filename == STDIN then TextKind
      else KindByContent(bytes)
  }

  method GetInstance(filename: string, isDirectory: bool, bytes: seq<byte>) returns (kind: DifferKind)
    ensures kind == DetectedKind(filename, isDirectory, bytes)
  {
    var matches := MatchesAny(filename, PPM_EXTENSIONS);
    if matches {
      return PPMKind;
    }
    matches := MatchesAny(filename, TEXT_EXTENSIONS);
    if matches {
      return TextKind;
    }
    matches := MatchesAny(filename, BINARY_EXTENSIONS);
    if matches {
      return BinaryKind;
    }
    matches := MatchesAny(filename, DIRECTORY_EXTENSIONS);
    if matches {
      return DirectoryKind;
    }
    if isDirectory {
      return DirectoryKind;
    }
    if filename == STDIN {
      return TextKind;
    }
    kind := Sniff(bytes);
  }

  /** The kind chosen when the user forced `forcedFormat`; `Automatic` detects it. */
  function ForcedKind(forcedFormat: DataFormat, filename: string, isDirectory: bool, bytes: seq<byte>): DifferKind {
    match forcedFormat
    case Automatic => DetectedKind(filename, isDirectory, bytes)
    case Binary => BinaryKind
    case Text => TextKind
    case PPM => PPMKind
    case Directory => DirectoryKind
  }

  method GetInstanceForced(forcedFormat: DataFormat, filename: string, isDirectory: bool, bytes: seq<byte>)
    returns (kind: DifferKind)
    ensures kind == ForcedKind(forcedFormat, filename, isDirectory, bytes)
  {
    if forcedFormat == Automatic {
      kind := GetInstance(filename, isDirectory, bytes);
      return;
    }
    match forcedFormat {
      case Binary => kind := BinaryKind;
      case Text => kind := TextKind;
      case PPM => kind := PPMKind;
      case Directory => kind := DirectoryKind;
    }
  }

  // ---------------------------------------------------------------------
  // Properties
  // ---------------------------------------------------------------------

  /** A recognised suffix decides alone: neither the directory flag nor the contents are consulted. */
  lemma NameDecidesFirst(filename: string, isDirectory: bool, bytes: seq<byte>, ext: string)
    requires ext in PPM_EXTENSIONS + TEXT_EXTENSIONS + BINARY_EXTENSIONS + DIRECTORY_EXTENSIONS
    requires EndsWith(filename, ext)
    ensures KindByName(filename).Some?
    ensures DetectedKind(filename, isDirectory, bytes) == DetectedKind(filename, false, [])
  {
    var all := PPM_EXTENSIONS + TEXT_EXTENSIONS + BINARY_EXTENSIONS + DIRECTORY_EXTENSIONS;
    var k :| 0 <= k < |all| && all[k] == ext;
    if k < 3 {
      assert PPM_EXTENSIONS[k] == ext;
    } else if k < 14 {
      assert TEXT_EXTENSIONS[k - 3] == ext;
    } else if k < 16 {
      assert BINARY_EXTENSIONS[k - 14] == ext;
    } else {
      assert DIRECTORY_EXTENSIONS[k - 16] == ext;
    }
  }

  /** Image suffixes are tried before text ones: `x.ppm` is an image whatever it holds. */
  lemma ImageSuffixIsImage(stem: string, isDirectory: bool, bytes: seq<byte>)
    ensures DetectedKind(stem + ".ppm", isDirectory, bytes) == PPMKind
  {
    EndsWithIffSuffix(stem + ".ppm", PPM_EXTENSIONS[2]);
  }

  /** A name ending in `/` is a directory even if it is not one on disk. */
  lemma SlashIsDirectory(stem: string, isDirectory: bool, bytes: seq<byte>)
    requires !EndsWithAny(stem + "/", PPM_EXTENSIONS + TEXT_EXTENSIONS + BINARY_EXTENSIONS)
    ensures DetectedKind(stem + "/", isDirectory, bytes) == DirectoryKind
  {
    var name := stem + "/";
    EndsWithIffSuffix(name, DIRECTORY_EXTENSIONS[0]);
    forall k | 0 <= k < |PPM_EXTENSIONS| ensures !EndsWith(name, PPM_EXTENSIONS[k]) {
      assert (PPM_EXTENSIONS + TEXT_EXTENSIONS + BINARY_EXTENSIONS)[k] == PPM_EXTENSIONS[k];
    }
    forall k | 0 <= k < |TEXT_EXTENSIONS| ensures !EndsWith(name, TEXT_EXTENSIONS[k]) {
      assert (PPM_EXTENSIONS + TEXT_EXTENSIONS + BINARY_EXTENSIONS)[k + 3] == TEXT_EXTENSIONS[k];
    }
    forall k | 0 <= k < |BINARY_EXTENSIONS| ensures !EndsWith(name, BINARY_EXTENSIONS[k]) {
      assert (PPM_EXTENSIONS + TEXT_EXTENSIONS + BINARY_EXTENSIONS)[k + 14] == BINARY_EXTENSIONS[k];
    }
  }

  /** Standard input without a known suffix is compared as text and never read ahead. */
  lemma StdinIsText(bytes: seq<byte>)
    ensures DetectedKind(STDIN, false, bytes) == TextKind
  {
    assert !EndsWithAny(STDIN, PPM_EXTENSIONS) by {
      forall k | 0 <= k < 3 ensures !EndsWith(STDIN, PPM_EXTENSIONS[k]) {
        assert STDIN[|STDIN| - 1] == 'n';
      }
    }
    assert !EndsWithAny(STDIN, TEXT_EXTENSIONS) by {
      forall k | 0 <= k < 11 ensures !EndsWith(STDIN, TEXT_EXTENSIONS[k]) {
        assert STDIN[|STDIN| - 1] == 'n';
      }
    }
    assert !EndsWithAny(STDIN, BINARY_EXTENSIONS) by {
      forall k | 0 <= k < 2 ensures !EndsWith(STDIN, BINARY_EXTENSIONS[k]) {
        assert STDIN[|STDIN| - 1] == 'n';
      }
    }
    assert !EndsWithAny(STDIN, DIRECTORY_EXTENSIONS) by {
      assert STDIN[|STDIN| - 1] == 'n';
    }
  }

  /** An empty (or unreadable) file is text. */
  lemma EmptyFileIsText()
    ensures KindByContent([]) == TextKind
  {
  }

  /** The header test takes `P0` too, although no image format is numbered 0. */
  lemma HeaderZeroIsImage()
    ensures KindByContent([0x50, 0x30]) == PPMKind
  {
  }

  /** An image header wins over control bytes that follow it. */
  lemma HeaderBeatsLaterControlBytes(bytes: seq<byte>)
    requires HasPPMHeader(bytes)
    ensures KindByContent(bytes) == PPMKind
  {
  }

  /** A control byte among the first 1024 makes the file binary, unless an image header comes first. */
  lemma ControlByteMeansBinary(bytes: seq<byte>, k: nat)
    requires k < SNIFF_LENGTH && k < |bytes| && IsControl(bytes[k])
    requires !HasPPMHeader(bytes)
    ensures KindByContent(bytes) == BinaryKind
  {
  }

  /** Text is what has no control byte among the first 1024 bytes and no image header. */
  lemma TextMeansNoControlByte(bytes: seq<byte>)
    ensures KindByContent(bytes) == TextKind <==> !HasPPMHeader(bytes) && !ControlWithin(bytes, SNIFF_LENGTH)
  {
  }

  /** Only the first 1024 bytes are looked at. */
  lemma OnlyFirstBytesMatter(bytes: seq<byte>, rest: seq<byte>)
    requires |bytes| >= SNIFF_LENGTH
    ensures KindByContent(bytes + rest) == KindByContent(bytes)
  {
    var joined := bytes + rest;
    assert joined[0] == bytes[0] && joined[1] == bytes[1];
    if ControlWithin(bytes, SNIFF_LENGTH) {
      var k :| 0 <= k < SNIFF_LENGTH && k < |bytes| && IsControl(bytes[k]);
      assert joined[k] == bytes[k];
    }
    if ControlWithin(joined, SNIFF_LENGTH) {
      var k :| 0 <= k < SNIFF_LENGTH && k < |joined| && IsControl(joined[k]);
      assert joined[k] == bytes[k];
    }
  }

  /** A forced format other than `Automatic` ignores the name, the disk and the contents. */
  lemma ForcedFormatIgnoresFile(forcedFormat: DataFormat, filename: string, isDirectory: bool, bytes: seq<byte>)
    requires forcedFormat != Automatic
    ensures ForcedKind(forcedFormat, filename, isDirectory, bytes) == ForcedKind(forcedFormat, "", false, [])
  {
  }
}
