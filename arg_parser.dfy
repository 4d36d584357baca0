/**
 * The command line: options, the two file names, and what they select.
 *
 * `argv` is a parameter; the messages `parse` sends to the logger are not
 * modelled. `parse` is `noexcept`, so the `out_of_range` that `std::stoi`
 * throws for a precision outside `int` ends the program: the model returns
 * `Terminated` there.
 */
module Args {
  import opened Wrappers
  import opened Streams
  import opened Modes
  import TextDiffer

  /** The output style the user may force. */
  datatype ForcedOutputStyle = Patchfile | Graphical

  /** What the command line asks for. */
  datatype ArgData = ArgData(
    firstFilename: string,
    secondFilename: string,
    dataFormat: DataFormat,
    dataLoadMode: LoadMode,
    showUsage: bool,
    forcedOutputStyle: Option<ForcedOutputStyle>,
    precision: Option<nat>,
    verbosity: nat)

  /** A default-constructed `ArgData`. */
  const DEFAULT_ARG_DATA := ArgData("", "", Automatic, PERMISSIVE, false, None, None, 0)

  /** The name standard input is opened under. */
  const STDIN: string := "/dev/stdin"

  // ---------------------------------------------------------------------
  // std::stoi
  // ---------------------------------------------------------------------

  const INT_MIN: int := -0x8000_0000
  const INT_MAX: int := 0x7FFF_FFFF

  /** What `std::stoi` does: return a value, or throw one of two exceptions. */
  datatype Conversion = Converted(value: int) | InvalidArgument | OutOfRange

  /** Length of the run of white space `s` starts with. */
  function SpaceRun(s: string): (n: nat)
    ensures n <= |s|
    ensures forall k :: 0 <= k < n ==> IsSpace(s[k])
    ensures n < |s| ==> !IsSpace(s[n])
  {
    if s == [] || !IsSpace(s[0]) then 0 else 1 + SpaceRun(s[1..])
  }

  /**
   * Base-10 `strtol` into an `int`: leading white space, an optional sign,
   * then as many digits as there are; what follows them is ignored.
   */
  function Stoi(s: string): (r: Conversion)
    ensures r.Converted? ==> INT_MIN <= r.value <= INT_MAX
  {
    var t := s[SpaceRun(s)..];
    var signed := |t| >= 1 && (t[0] == '+' || t[0] == '-');
    var digits := if signed then t[1..] else t;
    var n := DigitRun(digits);
    if n == 0 then InvalidArgument
    else
      var magnitude: int := ParseDecimal(digits[..n]);
      var value := if |t| >= 1 && t[0] == '-' then -magnitude else magnitude;
      if INT_MIN <= value <= INT_MAX then Converted(value) else OutOfRange
  }

  /** A written number that fits an `int` reads back, whatever non-digit follows it. */
  lemma StoiOfDecimal(n: nat, tail: string)
    requires n <= INT_MAX
    requires tail == [] || !IsDigit(tail[0])
    ensures Stoi(DecimalString(n) + tail) == Converted(n)
  {
    var s := DecimalString(n) + tail;
    assert s[0] == DecimalString(n)[0];
    assert SpaceRun(s) == 0;
    assert s[0..] == s;
    DigitRunOfDigits(DecimalString(n), tail);
    assert s[..|DecimalString(n)|] == DecimalString(n);
    DecimalRoundTrip(n);
  }

  /** A minus sign negates, down to the least `int`. */
  lemma StoiOfNegative(n: nat)
    requires n <= -INT_MIN
    ensures Stoi("-" + DecimalString(n)) == Converted(-(n as int))
  {
    var s := "-" + DecimalString(n);
    assert SpaceRun(s) == 0;
    assert s[0..] == s && s[1..] == DecimalString(n);
    DigitRunOfDigits(DecimalString(n), []);
    assert DecimalString(n) + [] == DecimalString(n);
    assert DecimalString(n)[..|DecimalString(n)|] == DecimalString(n);
    DecimalRoundTrip(n);
  }

  /** Numbers outside `int` make `std::stoi` throw `out_of_range`. */
  lemma StoiOfTooLarge(n: nat)
    requires n > INT_MAX
    ensures Stoi(DecimalString(n)) == OutOfRange
  {
    var s := DecimalString(n);
    assert SpaceRun(s) == 0;
    assert s[0..] == s;
    DigitRunOfDigits(s, []);
    assert s + [] == s && s[..|s|] == s;
    DecimalRoundTrip(n);
  }

  // ---------------------------------------------------------------------
  // The parse
  // ---------------------------------------------------------------------

  /** What `parse` ends in: a returned value, or the program terminated by an escaping exception. */
  datatype Outcome = Returned(data: Option<ArgData>) | Terminated

  /** What the loop carries from one argument to the next. */
  datatype ParseState = ParseState(result: ArgData, filenames: seq<string>, everythingIsFilename: bool)

  const INITIAL_STATE := ParseState(DEFAULT_ARG_DATA, [], false)

  /** What one turn of the loop does: go on at a later index, or leave `parse`. */
  datatype Turn = Next(i: nat, state: ParseState) | Stop(outcome: Outcome)

  /** `-s`: strict, strict case and strict whitespace, and nothing else. */
  const STRICT_MODE: LoadMode := Or(Or(STRICT, TEXT_STRICT_CASE), TEXT_STRICT_WHITESPACE)

  /** The format `-F` names, given in lower case; absent for a name it does not know. */
  function FormatNamed(name: string): (r: Option<DataFormat>) {
    if name == "text" then Some(Text)
    else if name == "binary" then Some(Binary)
    else if name == "directory" || name == "folder" then Some(Directory)
    else if name == "ppm" || name == "pgm" || name == "pbm" || name == "pnm" then Some(PPM)
    else None
  }

  /** How many `v` follow one another in `arg` from index `idx` on. */
  function VRun(arg: string, idx: nat): (n: nat)
    ensures idx + n <= |arg| || n == 0
    decreases |arg| - idx
  {
    if idx < |arg| && arg[idx] == 'v' then 1 + VRun(arg, idx + 1) else 0
  }

  /** An argument that starts with `-v`. */
  predicate IsVerbosity(arg: string) {
    (|arg| >= 2 && arg[..2] == "-v") || arg == "--verbose"
  }

  /** An argument that is taken as a file name. */
  predicate IsFilenameArg(arg: string, everythingIsFilename: bool)
    requires arg != []
  {
    arg[0] != '-' || everythingIsFilename || (arg[0] == '-' && |arg| == 1)
  }

  /** One turn of the loop on `argv[i]`. */
  function Step(argv: seq<string>, i: nat, st: ParseState): (t: Turn)
    requires i < |argv|
    ensures t.Next? ==> t.i > i
  {
    var arg := argv[i];
    var result := st.result;
    if arg == [] then Next(i + 1, st)
    else if IsFilenameArg(arg, st.everythingIsFilename) then Next(i + 1, st.(filenames := st.filenames + [arg]))
    else if arg == "--" then Next(i + 1, st.(everythingIsFilename := true))
    else if arg == "-F" then
      if i + 1 == |argv| then Next(i + 1, st)
      else
        var format := FormatNamed(TextDiffer.Lowered(argv[i + 1]));
        var newResult := if format.Some? then result.(dataFormat := format.value) else result;
        Next(i + 3, st.(result := newResult))
    else if arg == "-x" || arg == "--precision" then
      if i + 1 == |argv| then Next(i + 1, st)
      else
        match Stoi(argv[i + 1])
        case OutOfRange => Stop(Terminated)
        case InvalidArgument => Next(i + 2, st)
        case Converted(x) =>
          if x == 0 || x >= 2 then Next(i + 2, st.(result := result.(precision := Some(x)))) else Next(i + 2, st)
    else if arg == "-h" || arg == "--help" then Stop(Returned(Some(result.(showUsage := true))))
    else if arg == "-s" || arg == "--strict" then Next(i + 1, st.(result := result.(dataLoadMode := STRICT_MODE)))
    else if arg == "--text-strictcase" then
      Next(i + 1, st.(result := result.(dataLoadMode := Or(result.dataLoadMode, TEXT_STRICT_CASE))))
    else if arg == "--text-strictwhitespace" then
      Next(i + 1, st.(result := result.(dataLoadMode := Or(result.dataLoadMode, TEXT_STRICT_WHITESPACE))))
    else if arg == "-p" || arg == "--patchfile" then Next(i + 1, st.(result := result.(forcedOutputStyle := Some(Patchfile))))
    else if arg == "-g" || arg == "--graphical" then Next(i + 1, st.(result := result.(forcedOutputStyle := Some(Graphical))))
    else if IsVerbosity(arg) then Next(i + 1, st.(result := result.(verbosity := result.verbosity + 1 + VRun(arg, 2))))
    else Stop(Returned(None))
  }

  /** `-` names standard input. */
  function StdinAlias(name: string): (r: string)
    ensures r != "-"
  {
    if name == "-" then STDIN else name
  }

  /** After the loop: exactly two file names, not both standard input. */
  function Finish(st: ParseState): Outcome {
    if |st.filenames| < 2 || |st.filenames| >= 3 then Returned(None)
    else
      var first := StdinAlias(st.filenames[0]);
      var second := StdinAlias(st.filenames[1]);
      if first == second && first == STDIN then Returned(None)
      else Returned(Some(st.result.(firstFilename := first, secondFilename := second)))
  }

  /** The loop from index `i` on, then the file-name checks. */
  function Run(argv: seq<string>, i: nat, st: ParseState): Outcome
    decreases |argv| - i
  {
    if i >= |argv| then Finish(st)
    else
      match Step(argv, i, st)
      case Stop(outcome) => outcome
      case Next(next, st') => Run(argv, next, st')
  }

  /** What `parse` makes of the whole command line; `argv[0]` is the program name. */
  function Parsed(argv: seq<string>): Outcome {
    Run(argv, 1, INITIAL_STATE)
  }

  class ArgParser {
    const argv: seq<string>

    constructor(argv: seq<string>)
      ensures this.argv == argv
    {
      this.argv := argv;
    }

    /** The `-F` chain: the format its lower-cased argument names, or the one set before for an unknown name. */
    static method SelectFormat(result: ArgData, fArg: string) returns (r: ArgData)
      ensures r == if FormatNamed(fArg).Some? then result.(dataFormat := FormatNamed(fArg).value) else result
    {
      r := result;
      if fArg == "text" {
        r := r.(dataFormat := Text);
      } else if fArg == "binary" {
        r := r.(dataFormat := Binary);
      } else if fArg == "directory" || fArg == "folder" {
        r := r.(dataFormat := Directory);
      } else if fArg == "ppm" || fArg == "pgm" || fArg == "pbm" || fArg == "pnm" {
        r := r.(dataFormat := PPM);
      }
    }

    /** A `-v...` argument: one level for the option, one more for each `v` after `-v`. */
    static method CountVerbosity(arg: string, verbosity: nat) returns (r: nat)
      ensures r == verbosity + 1 + VRun(arg, 2)
    {
      r := verbosity + 1;
      var vIdx := 2;
      while |arg| > vIdx && arg[vIdx] == 'v'
        invariant 2 <= vIdx
        invariant r + VRun(arg, vIdx) == verbosity + 1 + VRun(arg, 2)
        decreases |arg| - vIdx
      {
        r := r + 1;
        vIdx := vIdx + 1;
      }
    }

    /**
     * The options among the branches of the loop: `argv[at]` is not empty,
     * not a file name and not `--`. The turn ends at a later index or
     * leaves `parse`.
     */
    method ReadOption(at: nat, st: ParseState) returns (t: Turn)
      requires at < |argv| && argv[at] != [] && !IsFilenameArg(argv[at], st.everythingIsFilename) && argv[at] != "--"
      ensures t == Step(argv, at, st)
    {
      var result := st.result;
      var currentArg := argv[at];
      var i := at;
      if currentArg == "-F" {
        if i + 1 == |argv| {
          i := i + 1;
        } else {
          i := i + 1;
          var fArg := TextDiffer.Lowered(argv[i]);
          result := SelectFormat(result, fArg);
          i := i + 1;
          i := i + 1;
        }
      } else if currentArg == "-x" || currentArg == "--precision" {
        if i + 1 == |argv| {
          i := i + 1;
        } else {
          i := i + 1;
          var conversion := Stoi(argv[i]);
          match conversion {
            case OutOfRange =>
              return Stop(Terminated);
            case InvalidArgument =>
            case Converted(x) =>
              if x == 0 || x >= 2 {
                result := result.(precision := Some(x));
              }
          }
          i := i + 1;
        }
      } else if currentArg == "-h" || currentArg == "--help" {
        result := result.(showUsage := true);
        return Stop(Returned(Some(result)));
      } else if currentArg == "-s" || currentArg == "--strict" {
        result := result.(dataLoadMode := STRICT_MODE);
        i := i + 1;
      } else if currentArg == "--text-strictcase" {
        result := result.(dataLoadMode := Or(result.dataLoadMode, TEXT_STRICT_CASE));
        i := i + 1;
      } else if currentArg == "--text-strictwhitespace" {
        result := result.(dataLoadMode := Or(result.dataLoadMode, TEXT_STRICT_WHITESPACE));
        i := i + 1;
      } else if currentArg == "-p" || currentArg == "--patchfile" {
        result := result.(forcedOutputStyle := Some(Patchfile));
        i := i + 1;
      } else if currentArg == "-g" || currentArg == "--graphical" {
        result := result.(forcedOutputStyle := Some(Graphical));
        i := i + 1;
      } else if IsVerbosity(currentArg) {
        var verbosity := CountVerbosity(currentArg, result.verbosity);
        result := result.(verbosity := verbosity);
        i := i + 1;
      } else {
        return Stop(Returned(None));
      }
      return Next(i, st.(result := result));
    }

    /** Reads the arguments left to right and returns as soon as the outcome is known. */
    method Parse() returns (r: Outcome)
      ensures r == Parsed(argv)
    {
      var result := DEFAULT_ARG_DATA;
      var filenames: seq<string> := [];
      var everythingIsFilename := false;
      var i := 1;
      while i < |argv|
        invariant Run(argv, i, ParseState(result, filenames, everythingIsFilename)) == Parsed(argv)
        decreases |argv| - i
      {
        ghost var before := ParseState(result, filenames, everythingIsFilename);
        ghost var i0 := i;
        var currentArg := argv[i];
        if currentArg == [] {
          i := i + 1;
        } else if currentArg[0] != '-' || everythingIsFilename || (currentArg[0] == '-' && |currentArg| == 1) {
          filenames := filenames + [currentArg];
          i := i + 1;
        } else if currentArg == "--" {
          everythingIsFilename := true;
          i := i + 1;
        } else {
          var turn := ReadOption(i, ParseState(result, filenames, everythingIsFilename));
          match turn {
            case Stop(outcome) =>
              return outcome;
            case Next(next, state) =>
              i := next;
              result := state.result;
          }
        }
        assert Step(argv, i0, before) == Next(i, ParseState(result, filenames, everythingIsFilename));
      }
      if |filenames| < 2 {
        return Returned(None);
      }
      if |filenames| >= 3 {
        return Returned(None);
      }
      result := result.(firstFilename := filenames[0], secondFilename := filenames[1]);
      if result.firstFilename == "-" {
        result := result.(firstFilename := STDIN);
      }
      if result.secondFilename == "-" {
        result := result.(secondFilename := STDIN);
      }
      if result.firstFilename == result.secondFilename && result.firstFilename == STDIN {
        return Returned(None);
      }
      return Returned(Some(result));
    }
  }

  // ---------------------------------------------------------------------
  // Properties
  // ---------------------------------------------------------------------

  /** The precision `-x` accepts: zero (unlimited) or at least two. */
  predicate PrecisionOk(precision: Option<nat>) {
    precision.None? || precision.value == 0 || precision.value >= 2
  }

  /** File names that can be opened: `-` replaced, and standard input at most once. */
  predicate FilenamesOk(d: ArgData) {
    d.firstFilename != "-" && d.secondFilename != "-" && !(d.firstFilename == STDIN && d.secondFilename == STDIN)
  }

  /**
   * Once an `ArgData` is returned its data are valid: the precision is zero
   * or at least two, and unless usage was asked for, the file names are two
   * names that are not both standard input.
   */
  lemma {:induction false} RunKeepsValid(argv: seq<string>, i: nat, st: ParseState)
    requires PrecisionOk(st.result.precision)
    ensures Run(argv, i, st).Returned? && Run(argv, i, st).data.Some? ==>
      var d := Run(argv, i, st).data.value;
      PrecisionOk(d.precision) && (!d.showUsage ==> FilenamesOk(d))
    decreases |argv| - i
  {
    if i < |argv| {
      match Step(argv, i, st)
      case Stop(_) =>
      case Next(next, st') => RunKeepsValid(argv, next, st');
    }
  }

  lemma ParsedIsValid(argv: seq<string>, d: ArgData)
    requires Parsed(argv) == Returned(Some(d))
    ensures PrecisionOk(d.precision)
    ensures !d.showUsage ==> FilenamesOk(d)
  {
    RunKeepsValid(argv, 1, INITIAL_STATE);
  }

  /** The checks after the loop accept exactly two names that are not both standard input. */
  lemma FinishAccepts(st: ParseState)
    ensures Finish(st).Returned?
    ensures Finish(st).data.Some? <==>
      |st.filenames| == 2 && !(StdinAlias(st.filenames[0]) == STDIN && StdinAlias(st.filenames[1]) == STDIN)
    ensures Finish(st).data.Some? ==>
      Finish(st).data.value == st.result.(firstFilename := StdinAlias(st.filenames[0]), secondFilename := StdinAlias(st.filenames[1]))
  {
  }

  /** The non-empty arguments, in order. */
  function NonEmpty(args: seq<string>): (r: seq<string>)
    ensures forall k :: 0 <= k < |r| ==> r[k] != []
  {
    if args == [] then [] else (if args[0] == [] then [] else [args[0]]) + NonEmpty(args[1..])
  }

  /** After `--` every non-empty argument is a file name, even one that looks like an option. */
  lemma {:induction false} AfterDoubleDash(argv: seq<string>, i: nat, st: ParseState)
    requires i <= |argv| && st.everythingIsFilename
    ensures Run(argv, i, st) == Finish(st.(filenames := st.filenames + NonEmpty(argv[i..])))
    decreases |argv| - i
  {
    if i == |argv| {
      assert argv[i..] == [];
      assert st.filenames + [] == st.filenames;
    } else {
      assert argv[i..][1..] == argv[i + 1..];
      var pushed := if argv[i] == [] then [] else [argv[i]];
      var st' := st.(filenames := st.filenames + pushed);
      assert Step(argv, i, st) == Next(i + 1, st');
      AfterDoubleDash(argv, i + 1, st');
      assert st'.filenames + NonEmpty(argv[i + 1..]) == st.filenames + NonEmpty(argv[i..]);
    }
  }

  /** `-h` anywhere before an unknown option returns at once, with no file names needed. */
  lemma HelpStopsParsing(argv: seq<string>, i: nat, st: ParseState)
    requires i < |argv| && !st.everythingIsFilename
    requires argv[i] == "-h" || argv[i] == "--help"
    ensures Run(argv, i, st) == Returned(Some(st.result.(showUsage := true)))
  {
  }

  /**
   * A valid precision option overrides whatever precision was set before
   * it: the run from there is the same for every earlier precision, and
   * goes on past the option's argument with the new one.
   */
  lemma PrecisionOptionOverrides(argv: seq<string>, i: nat, st: ParseState, earlier: Option<nat>, n: nat)
    requires i + 1 < |argv| && !st.everythingIsFilename
    requires (argv[i] == "-x" || argv[i] == "--precision") && argv[i + 1] == DecimalString(n)
    requires (n == 0 || n >= 2) && n <= INT_MAX
    ensures Run(argv, i, st.(result := st.result.(precision := earlier))) == Run(argv, i, st)
    ensures Run(argv, i, st) == Run(argv, i + 2, st.(result := st.result.(precision := Some(n))))
  {
    StoiOfDecimal(n, []);
    assert DecimalString(n) + [] == DecimalString(n);
  }

  /**
   * `-p`, `-g` and their long forms override whatever output style was
   * forced before them, so the last such option wins.
   */
  lemma OutputStyleOptionOverrides(argv: seq<string>, i: nat, st: ParseState, earlier: Option<ForcedOutputStyle>)
    requires i < |argv| && !st.everythingIsFilename
    requires argv[i] == "-p" || argv[i] == "--patchfile" || argv[i] == "-g" || argv[i] == "--graphical"
    ensures Run(argv, i, st.(result := st.result.(forcedOutputStyle := earlier))) == Run(argv, i, st)
  {
    var before := st.(result := st.result.(forcedOutputStyle := earlier));
    if argv[i] == "-p" || argv[i] == "--patchfile" {
      StyleStep(argv, i, st, Patchfile);
      StyleStep(argv, i, before, Patchfile);
    } else {
      StyleStep(argv, i, st, Graphical);
      StyleStep(argv, i, before, Graphical);
    }
  }

  /** The turn on an output-style option: force that style and go on with the next argument. */
  lemma StyleStep(argv: seq<string>, i: nat, st: ParseState, style: ForcedOutputStyle)
    requires i < |argv| && !st.everythingIsFilename
    requires if style == Patchfile then argv[i] == "-p" || argv[i] == "--patchfile" else argv[i] == "-g" || argv[i] == "--graphical"
    ensures Run(argv, i, st) == Run(argv, i + 1, st.(result := st.result.(forcedOutputStyle := Some(style))))
  {
    assert Step(argv, i, st) == Next(i + 1, st.(result := st.result.(forcedOutputStyle := Some(style))));
  }

  /** An option nobody knows makes the whole parse fail. */
  lemma UnknownOptionFails(argv: seq<string>, i: nat, st: ParseState)
    requires i < |argv| && !st.everythingIsFilename
    requires |argv[i]| >= 2 && argv[i][0] == '-'
    requires argv[i] !in ["--", "-F", "-x", "--precision", "-h", "--help", "-s", "--strict",
      "--text-strictcase", "--text-strictwhitespace", "-p", "--patchfile", "-g", "--graphical", "--verbose"]
    requires argv[i][1] != 'v'
    ensures Run(argv, i, st) == Returned(None)
  {
    assert argv[i][..2][1] == argv[i][1];
  }

  /** `-v` counts once, and each further `v` right after it once more; `--verbose` counts twice. */
  lemma VerbosityCounts()
    ensures VRun("-vvv", 2) == 2
    ensures VRun("--verbose", 2) == 1
    ensures VRun("-vxv", 2) == 0
  {
  }

  /** Every argument that starts with `-v` is taken as a verbosity switch, `-verbose` and `-vanilla` too. */
  lemma AnyDashVIsVerbosity(argv: seq<string>, i: nat, st: ParseState, rest: string)
    requires i < |argv| && !st.everythingIsFilename
    requires argv[i] == "-v" + rest && (rest == [] || rest[0] != 'v')
    ensures Run(argv, i, st) == Run(argv, i + 1, st.(result := st.result.(verbosity := st.result.verbosity + 1)))
  {
    var arg := argv[i];
    assert arg[..2] == "-v" && arg[0] == '-' && arg[1] == 'v';
    assert VRun(arg, 2) == 0 by {
      if |arg| > 2 {
        assert arg[2] == rest[0];
      }
    }
  }

  /** A well-formed `-F` takes the next argument as its format name and then skips one more. */
  lemma FormatSwitchSkipsOneMore()
    ensures Parsed(["diffeek", "-F", "TEXT", "skipped", "a", "b"]) ==
      Returned(Some(DEFAULT_ARG_DATA.(firstFilename := "a", secondFilename := "b", dataFormat := Text)))
    ensures Parsed(["diffeek", "-F", "text", "a", "b"]) == Returned(None)
  {
    var argv := ["diffeek", "-F", "TEXT", "skipped", "a", "b"];
    assert TextDiffer.Lowered("TEXT") == "text";
    var st := INITIAL_STATE.(result := DEFAULT_ARG_DATA.(dataFormat := Text));
    assert Step(argv, 1, INITIAL_STATE) == Next(4, st);
    assert Run(argv, 4, st) == Finish(st.(filenames := ["a", "b"]));
    var argv2 := ["diffeek", "-F", "text", "a", "b"];
    assert TextDiffer.Lowered("text") == "text";
    assert Step(argv2, 1, INITIAL_STATE) == Next(4, st);
    assert Run(argv2, 4, st) == Finish(st.(filenames := ["b"]));
  }

  /** A precision too large for an `int` ends the program. */
  lemma HugePrecisionTerminates(argv: seq<string>, i: nat, st: ParseState, n: nat)
    requires i + 1 < |argv| && !st.everythingIsFilename
    requires argv[i] == "-x" && argv[i + 1] == DecimalString(n) && n > INT_MAX
    ensures Run(argv, i, st) == Terminated
  {
    StoiOfTooLarge(n);
  }

  /** A precision of one is refused and the option has no effect. */
  lemma PrecisionOneIgnored(argv: seq<string>, i: nat, st: ParseState)
    requires i + 1 < |argv| && !st.everythingIsFilename
    requires argv[i] == "-x" && argv[i + 1] == "1"
    ensures Run(argv, i, st) == Run(argv, i + 2, st)
  {
    StoiOfDecimal(1, []);
    assert DecimalString(1) + [] == "1";
  }

  /** The same name twice is allowed unless it is standard input. */
  lemma StdinTwiceRefused()
    ensures Parsed(["diffeek", "-", "/dev/stdin"]) == Returned(None)
    ensures Parsed(["diffeek", "a", "a"]) == Returned(Some(DEFAULT_ARG_DATA.(firstFilename := "a", secondFilename := "a")))
  {
    var argv := ["diffeek", "-", "/dev/stdin"];
    assert Step(argv, 1, INITIAL_STATE) == Next(2, INITIAL_STATE.(filenames := ["-"]));
    assert Step(argv, 2, INITIAL_STATE.(filenames := ["-"])) == Next(3, INITIAL_STATE.(filenames := ["-", "/dev/stdin"]));
    var argv2 := ["diffeek", "a", "a"];
    assert Step(argv2, 1, INITIAL_STATE) == Next(2, INITIAL_STATE.(filenames := ["a"]));
    assert Step(argv2, 2, INITIAL_STATE.(filenames := ["a"])) == Next(3, INITIAL_STATE.(filenames := ["a", "a"]));
  }
}
