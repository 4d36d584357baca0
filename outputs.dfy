/**
 * Writing a difference out: choosing the output, the patch-file format and
 * the direct output that passes a differ's payload through unchanged.
 *
 * Standard output is modelled as the text written to it: each writer
 * returns that text. Whether the stream is still good afterwards, and
 * whether descriptor 1 is a terminal, are not observed here; the latter
 * is a parameter of the choice.
 */
module Outputs {
  import opened Wrappers
  import opened Streams
  import opened Differences
  import Args

  // ---------------------------------------------------------------------
  // Choosing the output
  // ---------------------------------------------------------------------

  /** The three ways a difference can be written. */
  datatype OutputKind = DirectOutput | PatchfileOutput | GraphicalOutput

  /**
   * A differ that demands direct printing gets it; otherwise a style the
   * user forced; otherwise the graphical output on a terminal and a patch
   * file anywhere else.
   */
  function GetOutput(forcedOutputStyle: Option<Args.ForcedOutputStyle>, differenceStyle: ForcedOutput, stdoutIsTerminal: bool)
    : (kind: OutputKind)
    ensures kind == DirectOutput <==> differenceStyle == DirectPrint
    ensures kind == GraphicalOutput <==>
      differenceStyle != DirectPrint &&
      (forcedOutputStyle == Some(Args.Graphical) || (forcedOutputStyle.None? && stdoutIsTerminal))
  {
    if differenceStyle == DirectPrint then DirectOutput
    else if forcedOutputStyle.Some? then
      match forcedOutputStyle.value
      case Patchfile => PatchfileOutput
      case Graphical => GraphicalOutput
    else if !stdoutIsTerminal then PatchfileOutput
    else GraphicalOutput
  }

  /** A pipe gets a patch file unless the user or the differ says otherwise. */
  lemma PipeGetsPatchfile(differenceStyle: ForcedOutput)
    requires differenceStyle == Default
    ensures GetOutput(None, differenceStyle, false) == PatchfileOutput
    ensures GetOutput(Some(Args.Graphical), differenceStyle, false) == GraphicalOutput
  {
  }

  // ---------------------------------------------------------------------
  // Direct output
  // ---------------------------------------------------------------------

  /** Every payload string of every delta, in order, with nothing between them. */
  function DirectText(deltas: seq<DataDelta>): (text: string) {
    if deltas == [] then "" else DirectText(deltas[..|deltas| - 1]) + Concat(deltas[|deltas| - 1].deltaInfo)
  }

  /** The strings one after another. */
  function Concat(lines: seq<string>): (text: string) {
    if lines == [] then "" else Concat(lines[..|lines| - 1]) + lines[|lines| - 1]
  }

  method DirectWrite(difference: DataDifference) returns (text: string)
    ensures text == DirectText(difference.deltas)
  {
    var deltas := difference.deltas;
    text := "";
    for n := 0 to |deltas|
      invariant text == DirectText(deltas[..n])
    {
      assert deltas[..n + 1][..n] == deltas[..n];
      var info := deltas[n].deltaInfo;
      ghost var before := text;
      for k := 0 to |info|
        invariant text == before + Concat(info[..k])
      {
        assert info[..k + 1][..k] == info[..k];
        text := text + info[k];
      }
      assert info[..|info|] == info;
    }
    assert deltas[..|deltas|] == deltas;
  }

  lemma {:induction false} ConcatAppend(a: seq<string>, b: seq<string>)
    ensures Concat(a + b) == Concat(a) + Concat(b)
    decreases |b|
  {
    if b == [] {
      assert a + b == a;
    } else {
      var init := b[..|b| - 1];
      assert (a + b)[..|a + b| - 1] == a + init;
      ConcatAppend(a, init);
    }
  }

  /** Deltas written one after another write their payloads one after another. */
  lemma {:induction false} DirectTextAppend(a: seq<DataDelta>, b: seq<DataDelta>)
    ensures DirectText(a + b) == DirectText(a) + DirectText(b)
    decreases |b|
  {
    if b == [] {
      assert a + b == a;
    } else {
      var init := b[..|b| - 1];
      assert (a + b)[..|a + b| - 1] == a + init;
      DirectTextAppend(a, init);
    }
  }

  /** A single delta with a single payload string, as the image differ makes, is written exactly as that string. */
  lemma DirectTextOfSingle(delta: DataDelta)
    requires |delta.deltaInfo| == 1
    ensures DirectText([delta]) == delta.deltaInfo[0]
  {
    assert [delta][..0] == [];
    assert delta.deltaInfo[..0] == [];
    assert Concat(delta.deltaInfo) == delta.deltaInfo[0];
  }

  // ---------------------------------------------------------------------
  // Patch files
  // ---------------------------------------------------------------------

  /** One line: `prefix`, then `s`, then the end of line `std::endl` writes. */
  function Line(prefix: string, s: string): string {
    prefix + s + "\n"
  }

  /** The two header lines naming the files. */
  function FileHeader(sourceName: string, destinationName: string): string {
    Line("--- ", sourceName) + Line("+++ ", destinationName)
  }

  /** `@@ -S,s +D,d @@`: where the change is in source and destination and how long it is in each. */
  function HunkHeader(delta: DataDelta): string {
    "@@ -" + (DecimalString(delta.indicatorSource) + ("," + (DecimalString(delta.indicatorSourceLen)
      + (" +" + (DecimalString(delta.indicatorDestination) + ("," + (DecimalString(delta.indicatorDestLen) + " @@\n")))))))
  }

  /** Each string on a line of its own after `prefix`, one line per string. */
  function PrefixedPieces(prefix: string, lines: seq<string>): (pieces: seq<string>)
    ensures |pieces| == |lines|
  {
    seq(|lines|, k requires 0 <= k < |lines| => Line(prefix, lines[k]))
  }

  function PrefixedLines(prefix: string, lines: seq<string>): string {
    Concat(PrefixedPieces(prefix, lines))
  }

  /** The source line at index `k` of the context, marked as removed, if the context has one there. */
  function ReplacedLine(rawData: seq<string>, k: nat): string {
    if k < |rawData| then Line("-", rawData[k]) else ""
  }

  /**
   * A modification, one piece per new line: the source line it replaces,
   * counted from `start` in the context as long as the context has one,
   * then the new line.
   */
  function ModifiedPieces(rawData: seq<string>, start: nat, info: seq<string>): (pieces: seq<string>)
    ensures |pieces| == |info|
  {
    seq(|info|, k requires 0 <= k < |info| => ReplacedLine(rawData, start + k) + Line("+", info[k]))
  }

  function ModifiedLines(rawData: seq<string>, start: nat, info: seq<string>): string {
    Concat(ModifiedPieces(rawData, start, info))
  }

  function HunkBody(delta: DataDelta): string {
    match delta.kind
    case Addition => PrefixedLines("+", delta.deltaInfo)
    case Deletion => PrefixedLines("-", delta.deltaInfo)
    case Modification =>
      ModifiedLines(delta.sourceFileContext.rawData, delta.sourceFileContext.maxIdxOfBeforeContext, delta.deltaInfo)
  }

  /** What one delta writes: its header line, then its lines. */
  function Hunk(delta: DataDelta): string {
    HunkHeader(delta) + HunkBody(delta)
  }

  /** What each delta writes, in order. */
  function Hunks(deltas: seq<DataDelta>): (hunks: seq<string>)
    ensures |hunks| == |deltas|
  {
    seq(|deltas|, k requires 0 <= k < |deltas| => Hunk(deltas[k]))
  }

  /** The whole patch file for a difference. */
  function PatchText(sourceName: string, destinationName: string, deltas: seq<DataDelta>): string {
    FileHeader(sourceName, destinationName) + Concat(Hunks(deltas))
  }

  /** The lines of one delta, by its kind. */
  method WriteHunkBody(delta: DataDelta) returns (text: string)
    ensures text == HunkBody(delta)
  {
    match delta.kind {
      case Addition =>
        text := WritePrefixedLines("+", delta.deltaInfo);
      case Deletion =>
        text := WritePrefixedLines("-", delta.deltaInfo);
      case Modification =>
        text := WriteModifiedLines(delta.sourceFileContext, delta.deltaInfo);
    }
  }

  /** Each added or deleted line after its mark. */
  method WritePrefixedLines(prefix: string, info: seq<string>) returns (text: string)
    ensures text == PrefixedLines(prefix, info)
  {
    ghost var pieces := PrefixedPieces(prefix, info);
    text := "";
    for k := 0 to |info|
      invariant text == Concat(pieces[..k])
    {
      ConcatSnoc(pieces, k);
      text := text + Line(prefix, info[k]);
    }
    assert pieces[..|info|] == pieces;
  }

  /** Each new line after the source line it replaces, walking the context from the start of its on part. */
  method WriteModifiedLines(context: DataContext, info: seq<string>) returns (text: string)
    ensures text == ModifiedLines(context.rawData, context.maxIdxOfBeforeContext, info)
  {
    ghost var pieces := ModifiedPieces(context.rawData, context.maxIdxOfBeforeContext, info);
    text := "";
    var k := context.maxIdxOfBeforeContext;
    for idx := 0 to |info|
      invariant k == context.maxIdxOfBeforeContext + idx
      invariant text == Concat(pieces[..idx])
    {
      ghost var before := text;
      if k < |context.rawData| {
        text := text + Line("-", context.rawData[k]);
      }
      assert text == before + ReplacedLine(context.rawData, k);
      text := text + Line("+", info[idx]);
      Associative(before, ReplacedLine(context.rawData, k), Line("+", info[idx]));
      ConcatSnoc(pieces, idx);
      k := k + 1;
    }
    assert pieces[..|info|] == pieces;
  }

  /** Writes the names, then each delta's header and lines, as `PatchfileOutput::Write` streams them. */
  method PatchfileWrite(difference: DataDifference) returns (text: string)
    ensures text == PatchText(difference.sourceName, difference.destinationName, difference.deltas)
  {
    var deltas := difference.deltas;
    text := Line("--- ", difference.sourceName);
    text := text + Line("+++ ", difference.destinationName);
    ghost var header := text;
    ghost var hunks := Hunks(deltas);
    for n := 0 to |deltas|
      invariant text == header + Concat(hunks[..n])
    {
      var delta := deltas[n];
      var headerLine := "@@ -" + (DecimalString(delta.indicatorSource) + ("," + (DecimalString(delta.indicatorSourceLen)
        + (" +" + (DecimalString(delta.indicatorDestination) + ("," + (DecimalString(delta.indicatorDestLen) + " @@\n")))))));
      var body := WriteHunkBody(delta);
      assert hunks[n] == headerLine + body;
      ConcatSnoc(hunks, n);
      Associative(header, Concat(hunks[..n]), hunks[n]);
      text := text + (headerLine + body);
    }
    assert hunks[..|deltas|] == hunks;
  }

  /** One more string after the first `n`. */
  lemma ConcatSnoc(pieces: seq<string>, n: nat)
    requires n < |pieces|
    ensures Concat(pieces[..n + 1]) == Concat(pieces[..n]) + pieces[n]
  {
    assert pieces[..n + 1][..n] == pieces[..n];
  }

  lemma Associative(a: string, b: string, c: string)
    ensures a + b + c == a + (b + c)
  {
  }

  /** A patch for more deltas continues the patch for the first ones with their hunks. */
  lemma PatchTextAppend(sourceName: string, destinationName: string, a: seq<DataDelta>, b: seq<DataDelta>)
    ensures PatchText(sourceName, destinationName, a + b) == PatchText(sourceName, destinationName, a) + Concat(Hunks(b))
  {
    assert Hunks(a + b) == Hunks(a) + Hunks(b);
    ConcatAppend(Hunks(a), Hunks(b));
  }

  /** No deltas, no hunks: only the two name lines. */
  lemma EmptyDifferencePatch(sourceName: string, destinationName: string)
    ensures PatchText(sourceName, destinationName, []) == "--- " + sourceName + "\n+++ " + destinationName + "\n"
  {
  }

  /** Without source lines to show, a modification writes only its new lines, like an addition. */
  lemma ModificationWithoutContext(start: nat, info: seq<string>)
    ensures ModifiedLines([], start, info) == PrefixedLines("+", info)
  {
    var pieces := ModifiedPieces([], start, info);
    forall k | 0 <= k < |info|
      ensures pieces[k] == PrefixedPieces("+", info)[k]
    {
      assert "" + Line("+", info[k]) == Line("+", info[k]);
    }
    assert pieces == PrefixedPieces("+", info);
  }

  /** With the whole on part in the context, each new line comes right after the source line it replaces. */
  lemma ModificationPairsLines(rawData: seq<string>, start: nat, info: seq<string>, k: nat)
    requires start + |info| <= |rawData| && k < |info|
    ensures ModifiedPieces(rawData, start, info)[k] == "-" + rawData[start + k] + "\n" + ("+" + info[k] + "\n")
  {
  }

  // ---------------------------------------------------------------------
  // Reading a hunk header back
  // ---------------------------------------------------------------------

  /** The positions a hunk header gives. */
  datatype Positions = Positions(source: nat, sourceLen: nat, destination: nat, destLen: nat)

  /** `s` with `literal` taken off its front. */
  function Expect(literal: string, s: string): (r: Option<string>) {
    if |literal| <= |s| && s[..|literal|] == literal then Some(s[|literal|..]) else None
  }

  /** A decimal number at the front of `s` and what follows it. */
  function ReadNumber(s: string): (r: Option<(nat, string)>) {
    var n := DigitRun(s);
    if n == 0 then None else Some((ParseDecimal(s[..n]), s[n..]))
  }

  /** The positions a line of the form `@@ -S,s +D,d @@` names. */
  function ReadHunkHeader(line: string): (r: Option<Positions>) {
    match Expect("@@ -", line)
    case None => None
    case Some(s0) =>
      match ReadNumber(s0)
      case None => None
      case Some((source, s1)) =>
        match Expect(",", s1)
        case None => None
        case Some(s2) =>
          match ReadNumber(s2)
          case None => None
          case Some((sourceLen, s3)) =>
            match Expect(" +", s3)
            case None => None
            case Some(s4) =>
              match ReadNumber(s4)
              case None => None
              case Some((destination, s5)) =>
                match Expect(",", s5)
                case None => None
                case Some(s6) =>
                  match ReadNumber(s6)
                  case None => None
                  case Some((destLen, s7)) =>
                    if s7 == " @@\n" then Some(Positions(source, sourceLen, destination, destLen)) else None
  }

  lemma ExpectLiteral(literal: string, rest: string)
    ensures Expect(literal, literal + rest) == Some(rest)
  {
    assert (literal + rest)[..|literal|] == literal;
    assert (literal + rest)[|literal|..] == rest;
  }

  lemma ReadNumberOfDecimal(n: nat, rest: string)
    requires rest != [] && !IsDigit(rest[0])
    ensures ReadNumber(DecimalString(n) + rest) == Some((n, rest))
  {
    var s := DecimalString(n) + rest;
    DigitRunOfDigits(DecimalString(n), rest);
    assert s[..|DecimalString(n)|] == DecimalString(n);
    assert s[|DecimalString(n)|..] == rest;
    DecimalRoundTrip(n);
  }

  /** The header written for a delta reads back as the delta's four positions. */
  lemma HunkHeaderRoundTrip(delta: DataDelta)
    ensures ReadHunkHeader(HunkHeader(delta)) ==
      Some(Positions(delta.indicatorSource, delta.indicatorSourceLen, delta.indicatorDestination, delta.indicatorDestLen))
  {
    var a := DecimalString(delta.indicatorSource);
    var b := DecimalString(delta.indicatorSourceLen);
    var c := DecimalString(delta.indicatorDestination);
    var d := DecimalString(delta.indicatorDestLen);
    var s7 := " @@\n";
    var s6 := d + s7;
    var s5 := "," + s6;
    var s4 := c + s5;
    var s3 := " +" + s4;
    var s2 := b + s3;
    var s1 := "," + s2;
    var s0 := a + s1;
    ExpectLiteral("@@ -", s0);
    ReadNumberOfDecimal(delta.indicatorSource, s1);
    ExpectLiteral(",", s2);
    ReadNumberOfDecimal(delta.indicatorSourceLen, s3);
    ExpectLiteral(" +", s4);
    ReadNumberOfDecimal(delta.indicatorDestination, s5);
    ExpectLiteral(",", s6);
    ReadNumberOfDecimal(delta.indicatorDestLen, s7);
  }
}
