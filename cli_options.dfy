/**
 * The option handling of the classic command-line front end that runs before any
 * hardware is touched: the file-name check, the single-operation counter, the
 * `--wp-range` validator, the option switch of parse_options with its abort rules,
 * the guard blocks of main and the count of buses whose decode limit is too small.
 *
 * Options arrive already scanned: each token is what getopt_long returned together
 * with its argument (and, for -r/-w/-v, the file name that get_optional_filename
 * picked). Aborts (cli_classic_abort_usage, which exits with status 1) and the
 * `exit(0)` of -R/-h end the scan with a result instead of ending the process.
 */
module CliOptions {
  import opened Common

  // ---------------------------------------------------------------------------
  // check_filename
  // ---------------------------------------------------------------------------

  /** What check_filename reports about a file name argument. */
  datatype FilenameVerdict =
    | NoFile        // "Error: No <type> file specified." (returns 1)
    | DashWarning   // "Warning: Supplied <type> file name starts with -" (returns 0)
    | FileOk        // returns 0 silently

  /**
   * A missing or empty name is an error; a name of two or more characters that
   * starts with '-' is accepted with a warning ("-" alone is stdin and not warned).
   */
  function CheckFilename(name: Option<string>): (v: FilenameVerdict)
    requires name.Some? ==> NoNul(name.value)
    ensures v == NoFile <==> name.None? || name.value == ""
    ensures v == DashWarning <==> name.Some? && |name.value| >= 2 && name.value[0] == '-'
  {
    if name.None? || CharAt(name.value, 0) == '\0' then NoFile
    else if CharAt(name.value, 0) == '-' && CharAt(name.value, 1) != '\0' then DashWarning
    else FileOk
  }

  /** The return value of check_filename. */
  function CheckFilenameRet(v: FilenameVerdict): int {
    if v == NoFile then 1 else 0
  }

  // ---------------------------------------------------------------------------
  // parse_wp_range
  // ---------------------------------------------------------------------------

  /** strchr: the first index of `c` in `s`, if any. */
  function FindFirst(s: string, c: char): (r: Option<nat>)
    ensures r.Some? ==> r.value < |s| && s[r.value] == c
    ensures r.Some? ==> forall j :: 0 <= j < r.value ==> s[j] != c
    ensures r.None? ==> forall j :: 0 <= j < |s| ==> s[j] != c
    decreases |s|
  {
    if s == [] then None
    else if s[0] == c then Some(0)
    else match FindFirst(s[1..], c) {
      case None => None
      case Some(k) => Some(k + 1)
    }
  }

  /** strrchr: the last index of `c` in `s`, if any. */
  function FindLast(s: string, c: char): (r: Option<nat>)
    ensures r.Some? ==> r.value < |s| && s[r.value] == c
    ensures r.Some? ==> forall j :: r.value < j < |s| ==> s[j] != c
    ensures r.None? ==> forall j :: 0 <= j < |s| ==> s[j] != c
    decreases |s|
  {
    if s == [] then None
    else if s[|s| - 1] == c then Some(|s| - 1)
    else FindLast(s[..|s| - 1], c)
  }

  /** A well-formed `<start>,<len>` argument: exactly one comma, neither first nor last. */
  ghost predicate OneInteriorComma(s: string) {
    exists i :: 0 < i < |s| - 1 && s[i] == ',' &&
      forall j :: 0 <= j < |s| && s[j] == ',' ==> j == i
  }

  /** The outcome of parse_wp_range: its return value and the two unsigned ints it leaves behind. */
  datatype WpRangeParse = WpRangeParse(ret: int, start: nat, len: nat)

  /**
   * parse_wp_range on `optarg` with the previous values of the two outputs. `strtoul`
   * stands for the C library number parse (it stops at the first character that is not
   * part of a number, so the comma ends the first value); its result is truncated to
   * `unsigned int` by the assignment.
   */
  function ParseWpRange(optarg: Option<string>, start: nat, len: nat, strtoul: string -> nat): (r: WpRangeParse)
    requires optarg.Some? ==> NoNul(optarg.value)
    ensures r.ret == 0 || r.ret == -1
    ensures r.ret == 0 <==> optarg.Some? && OneInteriorComma(optarg.value)
    ensures r.ret == -1 ==> r.start == start && r.len == len
    ensures r.ret == 0 ==> exists i :: (0 < i < |optarg.value| - 1 && optarg.value[i] == ',' &&
                                        r.start == strtoul(optarg.value) % U32_LIMIT &&
                                        r.len == strtoul(optarg.value[i + 1..]) % U32_LIMIT)
  {
    if optarg.None? then WpRangeParse(-1, start, len)
    else
      var s := optarg.value;
      var delim := FindFirst(s, ',');
      WpRangeFormat(s);
      if delim != FindLast(s, ',') || delim.None? || delim.value == 0 || CharAt(s, delim.value + 1) == '\0' then
        WpRangeParse(-1, start, len)
      else
        WpRangeParse(0, strtoul(s) % U32_LIMIT, strtoul(s[delim.value + 1..]) % U32_LIMIT)
  }

  /** The test parse_wp_range makes with strchr and strrchr is the one-interior-comma rule. */
  lemma WpRangeFormat(s: string)
    requires NoNul(s)
    ensures (FindFirst(s, ',') == FindLast(s, ',') && FindFirst(s, ',').Some? &&
             FindFirst(s, ',').value != 0 && CharAt(s, FindFirst(s, ',').value + 1) != '\0')
            <==> OneInteriorComma(s)
  {
    var delim := FindFirst(s, ',');
    if OneInteriorComma(s) {
      var i :| 0 < i < |s| - 1 && s[i] == ',' && forall j :: 0 <= j < |s| && s[j] == ',' ==> j == i;
      OneCommaFound(s, i);
    }
    if delim == FindLast(s, ',') && delim.Some? && delim.value != 0 && CharAt(s, delim.value + 1) != '\0' {
      var k := delim.value;
      assert forall j :: 0 <= j < k ==> s[j] != ',';
      assert FindLast(s, ',') == Some(k);
      assert forall j :: k < j < |s| ==> s[j] != ',';
      assert 0 < k < |s| - 1 && s[k] == ',';
    }
  }

  /** For a well-formed argument, strchr and strrchr both find its only comma. */
  lemma OneCommaFound(s: string, i: nat)
    requires 0 < i < |s| - 1 && s[i] == ','
    requires forall j :: 0 <= j < |s| && s[j] == ',' ==> j == i
    requires NoNul(s)
    ensures FindFirst(s, ',') == Some(i) && FindLast(s, ',') == Some(i)
    ensures CharAt(s, i + 1) != '\0'
  {
    var f := FindFirst(s, ',');
    var l := FindLast(s, ',');
    assert f.Some? by { assert s[i] == ','; }
    assert l.Some? by { assert s[i] == ','; }
  }

  /** "1,2" is accepted and ",2", "1,", "1,2,3" and a missing argument are refused. */
  lemma WpRangeExamples(strtoul: string -> nat, start: nat, len: nat)
    ensures ParseWpRange(Some("1,2"), start, len, strtoul).ret == 0
    ensures ParseWpRange(Some(",2"), start, len, strtoul) == WpRangeParse(-1, start, len)
    ensures ParseWpRange(Some("1,"), start, len, strtoul) == WpRangeParse(-1, start, len)
    ensures ParseWpRange(Some("1,2,3"), start, len, strtoul) == WpRangeParse(-1, start, len)
    ensures ParseWpRange(None, start, len, strtoul) == WpRangeParse(-1, start, len)
  {
    var s := "1,2,3";
    assert s[1] == ',' && s[3] == ',';
  }

  // ---------------------------------------------------------------------------
  // The options record and the option tokens
  // ---------------------------------------------------------------------------

  /** One `-i region[:file]` argument. */
  datatype IncludeArg = IncludeArg(region: string, file: Option<string>)

  /** The operations of struct cli_options: at most one may be requested. */
  datatype Operations = Operations(
    readIt: bool, writeIt: bool, verifyIt: bool, extractIt: bool, eraseIt: bool,
    flashName: bool, flashSize: bool, listSupported: bool)

  /** Where the layout comes from: a layout file, the Intel flash descriptor, or an fmap. */
  datatype LayoutSource = LayoutSource(
    layoutfile: Option<string>, ifd: bool, fmap: bool, fmapfile: Option<string>, fmapVerify: bool)

  /** The write-protection requests. */
  datatype WpRequest = WpRequest(
    wpStart: nat, wpLen: nat,
    enableWp: bool, disableWp: bool, printWpStatus: bool,
    setWpRange: bool, setWpRegion: bool, printWpRanges: bool,
    wpRegion: Option<string>)

  /**
   * struct cli_options, its fields grouped (the programmer parameter string and the
   * RPMC fields are not modelled).
   */
  datatype Options = Options(
    op: Operations,
    layout: LayoutSource,
    wp: WpRequest,
    filename: Option<string>,
    dontVerifyIt: bool, dontVerifyAll: bool,
    prog: Option<string>,
    includeArgs: seq<IncludeArg>,
    force: bool, showProgress: bool,
    logfile: Option<string>, referencefile: Option<string>, chipToProbe: Option<string>,
    sacrificeRatio: int)

  /** The zero-initialised record main starts from. */
  const NoOptions: Options := Options(
    Operations(false, false, false, false, false, false, false, false),
    LayoutSource(None, false, false, None, false),
    WpRequest(0, 0, false, false, false, false, false, false, None),
    None, false, false, None, [], false, false, None, None, None, 0)

  /** What getopt_long handed to the option switch, with its argument. */
  datatype Token =
    | ReadOpt(imageFile: Option<string>)          // -r
    | WriteOpt(imageFile: Option<string>)         // -w
    | VerifyOpt(imageFile: Option<string>)        // -v
    | NoVerifyOpt                            // -n
    | NoVerifyAllOpt                         // -N
    | ExtractOpt                             // -x
    | ChipOpt(name: string)                  // -c
    | VerboseOpt                             // -V
    | EraseOpt                               // -E
    | ForceOpt                               // -f
    | LayoutOpt(file: string)                // -l
    | IfdOpt                                 // --ifd
    | FmapFileOpt(file: string)              // --fmap-file
    | FmapOpt                                // --fmap
    | FmapVerifyOpt                          // --fmap-verify
    | IncludeOpt(arg: IncludeArg)            // -i
    | FlashContentsOpt(file: string)         // --flash-contents
    | FlashNameOpt                           // --flash-name
    | FlashSizeOpt                           // --flash-size
    | WpStatusOpt                            // --wp-status
    | WpListOpt                              // --wp-list
    | WpRangeOpt(rangeArg: Option<string>)   // --wp-range
    | WpRegionOpt(name: string)              // --wp-region
    | WpEnableOpt                            // --wp-enable
    | WpDisableOpt                           // --wp-disable
    | ListSupportedOpt                       // -L
    | ProgrammerOpt(progArg: string)         // -p
    | VersionOpt                             // -R
    | HelpOpt                                // -h
    | LogOpt(file: string)                   // -o
    | ProgressOpt                            // --progress
    | SacrificeRatioOpt(value: int)          // --sacrifice-ratio, value as atoi read it
    | UnknownOpt                             // '?' or ':' from getopt_long

  /** Why option scanning stopped with exit status 1. */
  datatype AbortReason =
    | MoreThanOneOperation
    | VerifyAndNoVerify
    | LayoutTwice
    | LayoutAndIfd
    | LayoutAndFmapFile
    | FmapFileAndIfd
    | FmapTwice
    | FmapFileAndLayout
    | FmapAndIfd
    | LayoutAndFmap
    | FmapVerifyAndIfd
    | FmapVerifyAndLayout
    | FmapVerifyWithReadOrVerify
    | IncludeRejected
    | FlashContentsTwice
    | WpRangeInvalid
    | ProgrammerTwice
    | UnknownProgrammer
    | NoLogFilename
    | UnknownOption
    | ExtraParameter

  /** How parse_options ends. */
  datatype ParseResult =
    | Parsed(opts: Options)
    | Aborted(reason: AbortReason)
    | ExitedOk                               // -R or -h: exit(0)

  /** The scan so far: still reading options, or stopped. */
  datatype Scan =
    | Scanning(opts: Options, ops: nat)
    | Stopped(result: ParseResult)

  /**
   * The computations the switch calls that live outside the modelled files: the number
   * parse behind --wp-range, the programmer-table lookup behind -p, and
   * register_include_arg (given the arguments registered before).
   */
  datatype Env = Env(
    strtoul: string -> nat,
    programmerKnown: string -> bool,
    registerOk: (seq<IncludeArg>, IncludeArg) -> bool)

  /** cli_classic_validate_singleop: the counter goes up and a second operation aborts. */
  function SingleOp(o: Options, ops: nat): (s: Scan)
    ensures ops == 0 ==> s == Scanning(o, 1)
    ensures ops >= 1 ==> s == Stopped(Aborted(MoreThanOneOperation))
  {
    if ops + 1 > 1 then Stopped(Aborted(MoreThanOneOperation)) else Scanning(o, ops + 1)
  }

  /** A token that counts as an operation. */
  predicate IsOperation(t: Token) {
    t.ReadOpt? || t.WriteOpt? || t.VerifyOpt? || t.ExtractOpt? || t.EraseOpt? ||
    t.FlashNameOpt? || t.FlashSizeOpt? || t.ListSupportedOpt? || t.VersionOpt? || t.HelpOpt?
  }

  /** A token that selects where the layout comes from. */
  predicate IsLayoutSource(t: Token) {
    t.LayoutOpt? || t.IfdOpt? || t.FmapFileOpt? || t.FmapOpt? || t.FmapVerifyOpt?
  }

  /** One pass through parse_options' switch. */
  function Step(env: Env, o: Options, ops: nat, t: Token): Scan
    requires t.WpRangeOpt? && t.rangeArg.Some? ==> NoNul(t.rangeArg.value)
  {
    match t
    case ReadOpt(f) => SingleOp(o.(filename := f, op := o.op.(readIt := true)), ops)
    case WriteOpt(f) => SingleOp(o.(filename := f, op := o.op.(writeIt := true)), ops)
    case VerifyOpt(f) =>
      if ops + 1 > 1 then Stopped(Aborted(MoreThanOneOperation))
      else if o.dontVerifyIt then Stopped(Aborted(VerifyAndNoVerify))
      else Scanning(o.(filename := f, op := o.op.(verifyIt := true)), ops + 1)
    case NoVerifyOpt =>
      if o.op.verifyIt then Stopped(Aborted(VerifyAndNoVerify))
      else Scanning(o.(dontVerifyIt := true), ops)
    case NoVerifyAllOpt => Scanning(o.(dontVerifyAll := true), ops)
    case ExtractOpt => SingleOp(o.(op := o.op.(extractIt := true)), ops)
    case ChipOpt(name) => Scanning(o.(chipToProbe := Some(name)), ops)
    case VerboseOpt => Scanning(o, ops)
    case EraseOpt => SingleOp(o.(op := o.op.(eraseIt := true)), ops)
    case ForceOpt => Scanning(o.(force := true), ops)
    case LayoutOpt(f) =>
      if o.layout.layoutfile.Some? then Stopped(Aborted(LayoutTwice))
      else if o.layout.ifd then Stopped(Aborted(LayoutAndIfd))
      else if o.layout.fmap then Stopped(Aborted(LayoutAndFmapFile))
      else Scanning(o.(layout := o.layout.(layoutfile := Some(f))), ops)
    case IfdOpt =>
      if o.layout.layoutfile.Some? then Stopped(Aborted(LayoutAndIfd))
      else if o.layout.fmap then Stopped(Aborted(FmapFileAndIfd))
      else Scanning(o.(layout := o.layout.(ifd := true)), ops)
    case FmapFileOpt(f) =>
      if o.layout.fmap then Stopped(Aborted(FmapTwice))
      else if o.layout.ifd then Stopped(Aborted(FmapFileAndIfd))
      else if o.layout.layoutfile.Some? then Stopped(Aborted(FmapFileAndLayout))
      else Scanning(o.(layout := o.layout.(fmapfile := Some(f), fmap := true)), ops)
    case FmapOpt =>
      if o.layout.fmap then Stopped(Aborted(FmapTwice))
      else if o.layout.ifd then Stopped(Aborted(FmapAndIfd))
      else if o.layout.layoutfile.Some? then Stopped(Aborted(LayoutAndFmap))
      else Scanning(o.(layout := o.layout.(fmap := true)), ops)
    case FmapVerifyOpt =>
      if o.layout.fmap then Stopped(Aborted(FmapTwice))
      else if o.layout.ifd then Stopped(Aborted(FmapVerifyAndIfd))
      else if o.layout.layoutfile.Some? then Stopped(Aborted(FmapVerifyAndLayout))
      else if o.op.readIt || o.op.verifyIt then Stopped(Aborted(FmapVerifyWithReadOrVerify))
      else Scanning(o.(layout := o.layout.(fmap := true, fmapVerify := true)), ops)
    case IncludeOpt(a) =>
      if !env.registerOk(o.includeArgs, a) then Stopped(Aborted(IncludeRejected))
      else Scanning(o.(includeArgs := o.includeArgs + [a]), ops)
    case FlashContentsOpt(f) =>
      if o.referencefile.Some? then Stopped(Aborted(FlashContentsTwice))
      else Scanning(o.(referencefile := Some(f)), ops)
    case FlashNameOpt => SingleOp(o.(op := o.op.(flashName := true)), ops)
    case FlashSizeOpt => SingleOp(o.(op := o.op.(flashSize := true)), ops)
    case WpStatusOpt => Scanning(o.(wp := o.wp.(printWpStatus := true)), ops)
    case WpListOpt => Scanning(o.(wp := o.wp.(printWpRanges := true)), ops)
    case WpRangeOpt(arg) =>
      var p := ParseWpRange(arg, o.wp.wpStart, o.wp.wpLen, env.strtoul);
      if p.ret < 0 then Stopped(Aborted(WpRangeInvalid))
      else Scanning(o.(wp := o.wp.(wpStart := p.start, wpLen := p.len, setWpRange := true)), ops)
    case WpRegionOpt(name) => Scanning(o.(wp := o.wp.(setWpRegion := true, wpRegion := Some(name))), ops)
    case WpEnableOpt => Scanning(o.(wp := o.wp.(enableWp := true)), ops)
    case WpDisableOpt => Scanning(o.(wp := o.wp.(disableWp := true)), ops)
    case ListSupportedOpt => SingleOp(o.(op := o.op.(listSupported := true)), ops)
    case ProgrammerOpt(arg) =>
      if o.prog.Some? then Stopped(Aborted(ProgrammerTwice))
      else if !env.programmerKnown(arg) then Stopped(Aborted(UnknownProgrammer))
      else Scanning(o.(prog := Some(arg)), ops)
    case VersionOpt => if ops + 1 > 1 then Stopped(Aborted(MoreThanOneOperation)) else Stopped(ExitedOk)
    case HelpOpt => if ops + 1 > 1 then Stopped(Aborted(MoreThanOneOperation)) else Stopped(ExitedOk)
    case LogOpt(f) =>
      if f == "" then Stopped(Aborted(NoLogFilename))
      else Scanning(o.(logfile := Some(f)), ops)
    case ProgressOpt => Scanning(o.(showProgress := true), ops)
    case SacrificeRatioOpt(v) => Scanning(o.(sacrificeRatio := v), ops)
    case UnknownOpt => Stopped(Aborted(UnknownOption))
  }

  /** Every --wp-range argument is a C string. */
  predicate WellFormedTokens(toks: seq<Token>) {
    forall k :: 0 <= k < |toks| ==> (toks[k].WpRangeOpt? && toks[k].rangeArg.Some? ==> NoNul(toks[k].rangeArg.value))
  }

  /** The scan after the given tokens, taken in order until one stops it. */
  function ScanTokens(env: Env, toks: seq<Token>): Scan
    requires WellFormedTokens(toks)
    decreases |toks|
  {
    if toks == [] then Scanning(NoOptions, 0)
    else match ScanTokens(env, toks[..|toks| - 1]) {
      case Stopped(r) => Stopped(r)
      case Scanning(o, ops) => Step(env, o, ops, toks[|toks| - 1])
    }
  }

  /** What parse_options returns: after the loop, a leftover non-option argument aborts. */
  function Finish(s: Scan, extraParameter: bool): ParseResult {
    match s
    case Stopped(r) => r
    case Scanning(o, _) => if extraParameter then Aborted(ExtraParameter) else Parsed(o)
  }

  lemma WellFormedPrefix(toks: seq<Token>, k: nat)
    requires WellFormedTokens(toks) && k <= |toks|
    ensures WellFormedTokens(toks[..k])
  {
  }

  /** Once the scan has stopped, further tokens change nothing. */
  lemma {:induction false} StoppedStays(env: Env, toks: seq<Token>, k: nat)
    requires WellFormedTokens(toks) && k <= |toks|
    requires ScanTokens(env, toks[..k]).Stopped?
    ensures ScanTokens(env, toks) == ScanTokens(env, toks[..k])
    decreases |toks| - k
  {
    if k < |toks| {
      assert WellFormedTokens(toks[..k + 1]);
      assert toks[..k + 1][..k] == toks[..k];
      StoppedStays(env, toks, k + 1);
    } else {
      assert toks[..k] == toks;
    }
  }

  /**
   * parse_options: the getopt_long loop feeding the switch, then the leftover-argument
   * check (`extraParameter` is optind < argc when the loop ends).
   */
  method ParseOptions(env: Env, toks: seq<Token>, extraParameter: bool) returns (r: ParseResult)
    requires WellFormedTokens(toks)
    ensures r == Finish(ScanTokens(env, toks), extraParameter)
  {
    var opts := NoOptions;
    var ops := 0;
    var i := 0;
    while i < |toks|
      invariant 0 <= i <= |toks|
      invariant WellFormedTokens(toks[..i])
      invariant ScanTokens(env, toks[..i]) == Scanning(opts, ops)
    {
      var t := toks[i];
      assert toks[..i + 1][..i] == toks[..i];
      assert WellFormedTokens(toks[..i + 1]);
      var s := Step(env, opts, ops, t);
      if s.Stopped? {
        StoppedStays(env, toks, i + 1);
        return s.result;
      }
      opts, ops := s.opts, s.ops;
      i := i + 1;
    }
    assert toks[..i] == toks;
    if extraParameter {
      return Aborted(ExtraParameter);
    }
    return Parsed(opts);
  }

  // ---------------------------------------------------------------------------
  // What a completed scan guarantees
  // ---------------------------------------------------------------------------

  function B(b: bool): nat { if b then 1 else 0 }

  /** How many operation flags are set. */
  function OperationCount(o: Options): nat {
    B(o.op.readIt) + B(o.op.writeIt) + B(o.op.verifyIt) + B(o.op.extractIt) + B(o.op.eraseIt) +
    B(o.op.flashName) + B(o.op.flashSize) + B(o.op.listSupported)
  }

  /** How many layout sources are selected (fmap covers --fmap, --fmap-file and --fmap-verify). */
  function LayoutSourceCount(o: Options): nat {
    B(o.layout.layoutfile.Some?) + B(o.layout.ifd) + B(o.layout.fmap)
  }

  /** The consistency a scan keeps while it runs. */
  predicate Consistent(o: Options, ops: nat) {
    ops <= 1 && OperationCount(o) <= ops &&
    !(o.op.verifyIt && o.dontVerifyIt) &&
    LayoutSourceCount(o) <= 1 &&
    (o.layout.fmapfile.Some? ==> o.layout.fmap && !o.layout.fmapVerify) &&
    (o.layout.fmapVerify ==> o.layout.fmap) &&
    (o.logfile.Some? ==> o.logfile.value != "")
  }

  /** One pass through the switch keeps the scan consistent. */
  lemma StepConsistent(env: Env, o: Options, ops: nat, t: Token)
    requires t.WpRangeOpt? && t.rangeArg.Some? ==> NoNul(t.rangeArg.value)
    requires Consistent(o, ops)
    ensures Step(env, o, ops, t).Scanning? ==> Consistent(Step(env, o, ops, t).opts, Step(env, o, ops, t).ops)
  {
    if IsOperation(t) || t.NoVerifyOpt? {
      OperationStepConsistent(env, o, ops, t);
    } else if IsLayoutSource(t) {
      LayoutStepConsistent(env, o, ops, t);
    } else {
      OtherStepConsistent(env, o, ops, t);
    }
  }

  lemma OperationStepConsistent(env: Env, o: Options, ops: nat, t: Token)
    requires IsOperation(t) || t.NoVerifyOpt?
    requires Consistent(o, ops)
    ensures Step(env, o, ops, t).Scanning? ==> Consistent(Step(env, o, ops, t).opts, Step(env, o, ops, t).ops)
  {
    if t.ReadOpt? || t.WriteOpt? || t.VerifyOpt? || t.NoVerifyOpt? {
      ImageOperationStepConsistent(env, o, ops, t);
    } else {
      assert OperationCount(o) <= ops;
    }
  }

  lemma ImageOperationStepConsistent(env: Env, o: Options, ops: nat, t: Token)
    requires t.ReadOpt? || t.WriteOpt? || t.VerifyOpt? || t.NoVerifyOpt?
    requires Consistent(o, ops)
    ensures Step(env, o, ops, t).Scanning? ==> Consistent(Step(env, o, ops, t).opts, Step(env, o, ops, t).ops)
  {
  }

  lemma LayoutStepConsistent(env: Env, o: Options, ops: nat, t: Token)
    requires IsLayoutSource(t)
    requires Consistent(o, ops)
    ensures Step(env, o, ops, t).Scanning? ==> Consistent(Step(env, o, ops, t).opts, Step(env, o, ops, t).ops)
  {
  }

  lemma OtherStepConsistent(env: Env, o: Options, ops: nat, t: Token)
    requires !IsOperation(t) && !t.NoVerifyOpt? && !IsLayoutSource(t)
    requires t.WpRangeOpt? && t.rangeArg.Some? ==> NoNul(t.rangeArg.value)
    requires Consistent(o, ops)
    ensures Step(env, o, ops, t).Scanning? ==> Consistent(Step(env, o, ops, t).opts, Step(env, o, ops, t).ops)
  {
    if t.WpStatusOpt? || t.WpListOpt? || t.WpRangeOpt? || t.WpRegionOpt? || t.WpEnableOpt? || t.WpDisableOpt? {
      WpStepConsistent(env, o, ops, t);
    } else {
      SettingStepConsistent(env, o, ops, t);
    }
  }

  lemma WpStepConsistent(env: Env, o: Options, ops: nat, t: Token)
    requires t.WpStatusOpt? || t.WpListOpt? || t.WpRangeOpt? || t.WpRegionOpt? || t.WpEnableOpt? || t.WpDisableOpt?
    requires t.WpRangeOpt? && t.rangeArg.Some? ==> NoNul(t.rangeArg.value)
    requires Consistent(o, ops)
    ensures Step(env, o, ops, t).Scanning? ==> Consistent(Step(env, o, ops, t).opts, Step(env, o, ops, t).ops)
  {
    var s := Step(env, o, ops, t);
    if s.Scanning? {
      assert s.ops == ops && SameChecked(o, s.opts);
      KeepsConsistent(o, ops, s.opts);
    }
  }

  lemma SettingStepConsistent(env: Env, o: Options, ops: nat, t: Token)
    requires !IsOperation(t) && !t.NoVerifyOpt? && !IsLayoutSource(t)
    requires !(t.WpStatusOpt? || t.WpListOpt? || t.WpRangeOpt? || t.WpRegionOpt? || t.WpEnableOpt? || t.WpDisableOpt?)
    requires Consistent(o, ops)
    ensures Step(env, o, ops, t).Scanning? ==> Consistent(Step(env, o, ops, t).opts, Step(env, o, ops, t).ops)
  {
    var s := Step(env, o, ops, t);
    if s.Scanning? && !t.LogOpt? {
      assert s.ops == ops && SameChecked(o, s.opts);
      KeepsConsistent(o, ops, s.opts);
    }
  }

  /** Two option sets agree on every field the consistency invariant looks at, the log file aside. */
  predicate SameChecked(o: Options, o2: Options) {
    o2.op == o.op && o2.dontVerifyIt == o.dontVerifyIt && o2.layout == o.layout && o2.logfile == o.logfile
  }

  lemma KeepsConsistent(o: Options, ops: nat, o2: Options)
    requires Consistent(o, ops) && SameChecked(o, o2)
    ensures Consistent(o2, ops)
  {
  }

  /** Every state the scan passes through is consistent. */
  lemma {:induction false} ScanConsistent(env: Env, toks: seq<Token>)
    requires WellFormedTokens(toks)
    ensures ScanTokens(env, toks).Scanning? ==> Consistent(ScanTokens(env, toks).opts, ScanTokens(env, toks).ops)
    decreases |toks|
  {
    if toks != [] {
      var init := toks[..|toks| - 1];
      WellFormedPrefix(toks, |toks| - 1);
      ScanConsistent(env, init);
      var s := ScanTokens(env, init);
      if s.Scanning? {
        StepConsistent(env, s.opts, s.ops, toks[|toks| - 1]);
      }
    }
  }

  /**
   * Options that parse cleanly name at most one operation, at most one layout source,
   * never both --verify and --noverify, and no empty log file name.
   */
  lemma {:induction false} ParsedOptionsConsistent(env: Env, toks: seq<Token>, extraParameter: bool)
    requires WellFormedTokens(toks)
    requires Finish(ScanTokens(env, toks), extraParameter).Parsed?
    ensures var o := Finish(ScanTokens(env, toks), extraParameter).opts;
      OperationCount(o) <= 1 && LayoutSourceCount(o) <= 1 && !(o.op.verifyIt && o.dontVerifyIt) &&
      (o.layout.fmapfile.Some? ==> o.layout.fmap) && (o.layout.fmapVerify ==> o.layout.fmap) &&
      (o.logfile.Some? ==> o.logfile.value != "")
  {
    ScanConsistent(env, toks);
    NeverStopsParsed(env, toks);
    var s := ScanTokens(env, toks);
    assert s.Scanning? && Finish(s, extraParameter).opts == s.opts;
    assert Consistent(s.opts, s.ops);
  }

  /** The scan only stops with an abort or a clean exit; parsed options come from a finished scan. */
  lemma {:induction false} NeverStopsParsed(env: Env, toks: seq<Token>)
    requires WellFormedTokens(toks)
    ensures ScanTokens(env, toks).Stopped? ==> !ScanTokens(env, toks).result.Parsed?
    decreases |toks|
  {
    if toks != [] {
      WellFormedPrefix(toks, |toks| - 1);
      NeverStopsParsed(env, toks[..|toks| - 1]);
    }
  }

  /** A second operation on the command line aborts, whatever it is. */
  lemma SecondOperationAborts(env: Env, toks: seq<Token>, t: Token)
    requires WellFormedTokens(toks) && IsOperation(t)
    requires ScanTokens(env, toks).Scanning? && OperationCount(ScanTokens(env, toks).opts) >= 1
    ensures WellFormedTokens(toks + [t])
    ensures ScanTokens(env, toks + [t]) == Stopped(Aborted(MoreThanOneOperation))
  {
    ScanConsistent(env, toks);
    assert (toks + [t])[..|toks|] == toks;
  }

  /**
   * A second layout source aborts; the one repetition let through is --ifd after --ifd.
   */
  lemma SecondLayoutSourceAborts(env: Env, toks: seq<Token>, t: Token)
    requires WellFormedTokens(toks) && IsLayoutSource(t)
    requires ScanTokens(env, toks).Scanning? && LayoutSourceCount(ScanTokens(env, toks).opts) >= 1
    requires !(t.IfdOpt? && ScanTokens(env, toks).opts.layout.ifd)
    ensures WellFormedTokens(toks + [t])
    ensures ScanTokens(env, toks + [t]).Stopped? && ScanTokens(env, toks + [t]).result.Aborted?
  {
    assert (toks + [t])[..|toks|] == toks;
  }

  /** --ifd given twice is accepted. */
  lemma IfdTwiceAccepted(env: Env)
    ensures WellFormedTokens([IfdOpt, IfdOpt])
    ensures Finish(ScanTokens(env, [IfdOpt, IfdOpt]), false).Parsed?
    ensures Finish(ScanTokens(env, [IfdOpt, IfdOpt]), false).opts.layout.ifd
  {
    assert [IfdOpt, IfdOpt][..1] == [IfdOpt];
    assert [IfdOpt][..0] == [];
  }

  /**
   * --verify and --noverify exclude each other in either order (when no other operation
   * was given first).
   */
  lemma VerifyNoVerifyExclusive(env: Env, f: Option<string>)
    ensures WellFormedTokens([VerifyOpt(f), NoVerifyOpt]) && WellFormedTokens([NoVerifyOpt, VerifyOpt(f)])
    ensures ScanTokens(env, [VerifyOpt(f), NoVerifyOpt]) == Stopped(Aborted(VerifyAndNoVerify))
    ensures ScanTokens(env, [NoVerifyOpt, VerifyOpt(f)]) == Stopped(Aborted(VerifyAndNoVerify))
  {
    assert [VerifyOpt(f), NoVerifyOpt][..1] == [VerifyOpt(f)];
    assert [NoVerifyOpt, VerifyOpt(f)][..1] == [NoVerifyOpt];
    assert [VerifyOpt(f)][..0] == [] && [NoVerifyOpt][..0] == [];
    assert ScanTokens(env, [VerifyOpt(f)]) == Scanning(NoOptions.(filename := f, op := NoOptions.op.(verifyIt := true)), 1);
    assert ScanTokens(env, [NoVerifyOpt]) == Scanning(NoOptions.(dontVerifyIt := true), 0);
  }

  /**
   * The --fmap-verify check sees only -r/-v that came before it: "-r f --fmap-verify"
   * aborts, but "--fmap-verify -r f" parses with both set.
   */
  lemma FmapVerifyOrderDependent(env: Env, f: Option<string>)
    ensures WellFormedTokens([ReadOpt(f), FmapVerifyOpt]) && WellFormedTokens([FmapVerifyOpt, ReadOpt(f)])
    ensures ScanTokens(env, [ReadOpt(f), FmapVerifyOpt]) == Stopped(Aborted(FmapVerifyWithReadOrVerify))
    ensures Finish(ScanTokens(env, [FmapVerifyOpt, ReadOpt(f)]), false).Parsed?
    ensures var o := Finish(ScanTokens(env, [FmapVerifyOpt, ReadOpt(f)]), false).opts;
      o.op.readIt && o.layout.fmapVerify
  {
    assert [ReadOpt(f), FmapVerifyOpt][..1] == [ReadOpt(f)];
    assert [FmapVerifyOpt, ReadOpt(f)][..1] == [FmapVerifyOpt];
    assert [ReadOpt(f)][..0] == [] && [FmapVerifyOpt][..0] == [];
    assert ScanTokens(env, [ReadOpt(f)]) == Scanning(NoOptions.(filename := f, op := NoOptions.op.(readIt := true)), 1);
    assert ScanTokens(env, [FmapVerifyOpt]) == Scanning(NoOptions.(layout := NoOptions.layout.(fmap := true, fmapVerify := true)), 0);
  }

  /** A --wp-range argument that is not `<start>,<len>` aborts the scan. */
  lemma BadWpRangeAborts(env: Env, toks: seq<Token>, arg: Option<string>)
    requires WellFormedTokens(toks) && (arg.Some? ==> NoNul(arg.value))
    requires ScanTokens(env, toks).Scanning?
    requires !(arg.Some? && OneInteriorComma(arg.value))
    ensures WellFormedTokens(toks + [WpRangeOpt(arg)])
    ensures ScanTokens(env, toks + [WpRangeOpt(arg)]) == Stopped(Aborted(WpRangeInvalid))
  {
    assert (toks + [WpRangeOpt(arg)])[..|toks|] == toks;
  }

  // ---------------------------------------------------------------------------
  // The guard blocks of main
  // ---------------------------------------------------------------------------

  /** Every file name that was given passes check_filename (the checks right after parsing). */
  function FileNamesOk(o: Options): (ok: bool)
    requires o.filename.Some? ==> NoNul(o.filename.value)
    requires o.layout.layoutfile.Some? ==> NoNul(o.layout.layoutfile.value)
    requires o.layout.fmapfile.Some? ==> NoNul(o.layout.fmapfile.value)
    requires o.referencefile.Some? ==> NoNul(o.referencefile.value)
    requires o.logfile.Some? ==> NoNul(o.logfile.value)
    ensures ok <==> (o.filename != Some("") && o.layout.layoutfile != Some("") && o.layout.fmapfile != Some("") &&
                     o.referencefile != Some("") && o.logfile != Some(""))
  {
    (o.filename.None? || CheckFilenameRet(CheckFilename(o.filename)) == 0) &&
    (o.layout.layoutfile.None? || CheckFilenameRet(CheckFilename(o.layout.layoutfile)) == 0) &&
    (o.layout.fmapfile.None? || CheckFilenameRet(CheckFilename(o.layout.fmapfile)) == 0) &&
    (o.referencefile.None? || CheckFilenameRet(CheckFilename(o.referencefile)) == 0) &&
    (o.logfile.None? || CheckFilenameRet(CheckFilename(o.logfile)) == 0)
  }

  /** Whether any operation that touches the chip was requested (RPMC is not modelled). */
  predicate AnyOperation(o: Options) {
    o.op.readIt || o.op.writeIt || o.op.verifyIt || o.op.eraseIt || o.op.flashName || o.op.flashSize ||
    o.op.extractIt || o.wp.setWpRange || o.wp.setWpRegion || o.wp.enableWp || o.wp.disableWp ||
    o.wp.printWpStatus || o.wp.printWpRanges
  }

  /** The verdict of the guards that follow probing. */
  datatype Guard =
    | NothingToDo          // "No operations were specified." (status 0)
    | WpEnableAndDisable   // status 1
    | WpRangeAndRegion     // status 1
    | NoImageFile          // "Error: No image file specified." (status 1)
    | IncludeFileMissing   // an -i argument without a file (status 1)
    | Proceed

  /**
   * The guard blocks of main, in order: nothing requested, --wp-enable with --wp-disable,
   * --wp-range with --wp-region, and a read/write/verify that has neither an image file
   * nor a file for every -i argument.
   */
  function OperationGuards(o: Options): (g: Guard)
    ensures g == NothingToDo <==> !AnyOperation(o)
    ensures g == WpEnableAndDisable <==> AnyOperation(o) && o.wp.enableWp && o.wp.disableWp
    ensures g == WpRangeAndRegion ==> o.wp.setWpRange && o.wp.setWpRegion
    ensures g == Proceed <==> (AnyOperation(o) && !(o.wp.enableWp && o.wp.disableWp) &&
                               !(o.wp.setWpRange && o.wp.setWpRegion) &&
                               ((o.op.readIt || o.op.writeIt || o.op.verifyIt) && o.filename.None? ==>
                                  o.includeArgs != [] &&
                                  forall k :: 0 <= k < |o.includeArgs| ==> o.includeArgs[k].file.Some?))
  {
    if !AnyOperation(o) then NothingToDo
    else if o.wp.enableWp && o.wp.disableWp then WpEnableAndDisable
    else if o.wp.setWpRange && o.wp.setWpRegion then WpRangeAndRegion
    else if (o.op.readIt || o.op.writeIt || o.op.verifyIt) && o.filename.None? then
      if o.includeArgs == [] then NoImageFile
      else if !IncludeArgsHaveFiles(o.includeArgs) then IncludeFileMissing
      else Proceed
    else Proceed
  }

  /** check_include_args_filename succeeds: every -i argument names a file. */
  function IncludeArgsHaveFiles(args: seq<IncludeArg>): (ok: bool)
    ensures ok <==> forall k :: 0 <= k < |args| ==> args[k].file.Some?
    decreases |args|
  {
    if args == [] then true
    else args[|args| - 1].file.Some? && IncludeArgsHaveFiles(args[..|args| - 1])
  }

  /**
   * The ratio the context ends up with: an out-of-range request (valid is 0-50) falls
   * back to 0, and 0 leaves the context's zero-initialised value.
   */
  function SacrificeRatio(requested: int): (r: int)
    ensures 0 <= r <= 50
    ensures 0 <= requested <= 50 ==> r == requested
    ensures !(0 <= requested <= 50) ==> r == 0
  {
    if requested != 0 then
      if requested < 0 || requested > 50 then 0 else requested
    else 0
  }

  // ---------------------------------------------------------------------------
  // count_max_decode_exceedings
  // ---------------------------------------------------------------------------

  /** The bus types of enum chipbustype that carry a decode limit. */
  datatype Bus = Parallel | Lpc | Fwh | Spi

  /** struct decode_sizes: the largest chip each bus can map, in bytes. */
  datatype DecodeSizes = DecodeSizes(parallel: nat, lpc: nat, fwh: nat, spi: nat)

  function Limit(d: DecodeSizes, b: Bus): nat {
    match b
    case Parallel => d.parallel
    case Lpc => d.lpc
    case Fwh => d.fwh
    case Spi => d.spi
  }

  /** The chip size as `uint32_t size = total_size * 1024` computes it (modulo 2^32). */
  function ChipBytes(totalSizeKb: nat): nat {
    (totalSizeKb * 1024) % U32_LIMIT
  }

  /** The buses both sides support whose decode limit is below the chip size. */
  function ExceededBuses(master: set<Bus>, chip: set<Bus>, d: DecodeSizes, totalSizeKb: nat): set<Bus> {
    set b | b in master * chip && Limit(d, b) < ChipBytes(totalSizeKb)
  }

  /** Taking one element out of a set. */
  lemma RemoveOne<T>(s: set<T>, x: T)
    ensures |s| == B(x in s) + |s - {x}|
  {
    if x in s {
      assert s == (s - {x}) + {x};
    } else {
      assert s - {x} == s;
    }
  }

  /** A set of buses has one element per bus type it contains. */
  lemma BusSetCard(s: set<Bus>)
    ensures |s| == B(Parallel in s) + B(Lpc in s) + B(Fwh in s) + B(Spi in s)
  {
    var s1 := s - {Parallel};
    RemoveOne(s, Parallel);
    var s2 := s1 - {Lpc};
    RemoveOne(s1, Lpc);
    var s3 := s2 - {Fwh};
    RemoveOne(s2, Fwh);
    var s4 := s3 - {Spi};
    RemoveOne(s3, Spi);
    assert s4 == {} by {
      forall b | b in s4 ensures false {
        match b
        case Parallel =>
        case Lpc =>
        case Fwh =>
        case Spi =>
      }
    }
  }

  /** count_max_decode_exceedings: one increment per shared bus whose limit is exceeded. */
  method CountMaxDecodeExceedings(master: set<Bus>, chip: set<Bus>, d: DecodeSizes, totalSizeKb: nat)
    returns (limitExceeded: nat)
    ensures limitExceeded == |ExceededBuses(master, chip, d, totalSizeKb)|
    ensures limitExceeded <= 4
  {
    var size := ChipBytes(totalSizeKb);
    var buses := master * chip;
    limitExceeded := 0;
    if Parallel in buses && d.parallel < size {
      limitExceeded := limitExceeded + 1;
    }
    if Lpc in buses && d.lpc < size {
      limitExceeded := limitExceeded + 1;
    }
    if Fwh in buses && d.fwh < size {
      limitExceeded := limitExceeded + 1;
    }
    if Spi in buses && d.spi < size {
      limitExceeded := limitExceeded + 1;
    }
    ghost var e := ExceededBuses(master, chip, d, totalSizeKb);
    BusSetCard(e);
  }

  /** The cardinality of a subset is at most that of the set. */
  lemma {:induction false} SubsetCard<T>(a: set<T>, b: set<T>)
    requires a <= b
    ensures |a| <= |b|
    decreases |a|
  {
    if a != {} {
      var x :| x in a;
      SubsetCard(a - {x}, b - {x});
    }
  }

  /**
   * When more buses are shared than exceeded (the bitcount test in main), some shared bus
   * can map the whole chip.
   */
  lemma SomeBusFits(master: set<Bus>, chip: set<Bus>, d: DecodeSizes, totalSizeKb: nat)
    ensures |ExceededBuses(master, chip, d, totalSizeKb)| <= |master * chip|
    ensures |master * chip| > |ExceededBuses(master, chip, d, totalSizeKb)| ==>
      exists b :: b in master * chip && Limit(d, b) >= ChipBytes(totalSizeKb)
  {
    var e := ExceededBuses(master, chip, d, totalSizeKb);
    SubsetCard(e, master * chip);
    if |master * chip| > |e| {
      if forall b :: b in master * chip ==> Limit(d, b) < ChipBytes(totalSizeKb) {
        assert master * chip <= e;
        SubsetCard(master * chip, e);
      }
    }
  }

  /** A chip of 4 GiB or more wraps the size to a smaller value before the comparison. */
  lemma ChipBytesWraps()
    ensures ChipBytes(4 * 1024 * 1024) == 0
    ensures ExceededBuses({Spi}, {Spi}, DecodeSizes(0, 0, 0, 0), 4 * 1024 * 1024) == {}
  {
  }
}
