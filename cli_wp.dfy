/**
 * The write-protect commands of the classic command-line front end (cli_classic.c):
 * listing the protection ranges a chip offers, applying a new configuration
 * (read, modify, write back) with diagnosis of a failed write, and showing the status.
 *
 * The chip's write-protect backend is a set of parameters: the result of listing the
 * ranges, the results of the two configuration reads, and the write as a function of
 * the configuration written. Output is the sequence of messages printed, each to the
 * informational stream or to the error stream.
 */
module CliWp {
  import opened Common
  import opened Format
  import opened LibFlashrom

  /** A message printed with msg_ginfo (Info) or msg_gerr (Err). */
  datatype Message = Info(text: string) | Err(text: string)

  /** get_wp_error_str: the explanation printed for a write-protect result. */
  function GetWpErrorStr(err: WpResult): string {
    match err
    case WpErrChipUnsupported => "WP operations are not implemented for this chip"
    case WpErrReadFailed => "failed to read the current WP configuration"
    case WpErrWriteFailed => "failed to write the new WP configuration"
    case WpErrVerifyFailed => "unexpected WP configuration read back from chip"
    case WpErrModeUnsupported => "the requested protection mode is not supported"
    case WpErrRangeUnsupported => "the requested protection range is not supported"
    case WpErrRangeListUnavailable => "could not determine what protection ranges are available"
    case WpErrUnsupportedState => "can't operate on current WP configuration of the chip"
    case _ => "unknown WP error"
  }

  /** The error an explanation stands for (WpErrOther for "unknown WP error"). */
  function ErrorOfStr(s: string): WpResult {
    if s == "WP operations are not implemented for this chip" then WpErrChipUnsupported
    else if s == "failed to read the current WP configuration" then WpErrReadFailed
    else if s == "failed to write the new WP configuration" then WpErrWriteFailed
    else if s == "unexpected WP configuration read back from chip" then WpErrVerifyFailed
    else if s == "the requested protection mode is not supported" then WpErrModeUnsupported
    else if s == "the requested protection range is not supported" then WpErrRangeUnsupported
    else if s == "could not determine what protection ranges are available" then WpErrRangeListUnavailable
    else if s == "can't operate on current WP configuration of the chip" then WpErrUnsupportedState
    else WpErrOther
  }

  /** Every specific error can be told from its explanation: distinct errors print distinct texts. */
  lemma WpErrorStrIdentifies(e: WpResult)
    requires e != WpOk
    ensures ErrorOfStr(GetWpErrorStr(e)) == e
  {
    if e.WpErrChipUnsupported? || e.WpErrReadFailed? || e.WpErrWriteFailed? || e.WpErrVerifyFailed? {
      AccessErrorsIdentified(e);
    } else if e.WpErrModeUnsupported? || e.WpErrRangeUnsupported? {
      SettingErrorsIdentified(e);
    } else if e.WpErrRangeListUnavailable? || e.WpErrUnsupportedState? {
      StateErrorsIdentified(e);
    } else {
      OtherErrorIdentified();
    }
  }

  /** The chip-access errors map back from their texts. */
  lemma AccessErrorsIdentified(e: WpResult)
    requires e.WpErrChipUnsupported? || e.WpErrReadFailed? || e.WpErrWriteFailed? || e.WpErrVerifyFailed?
    ensures ErrorOfStr(GetWpErrorStr(e)) == e
  {
    match e
    case WpErrChipUnsupported =>
    case WpErrReadFailed =>
      assert "failed to read the current WP configuration" != "WP operations are not implemented for this chip";
    case WpErrWriteFailed =>
      assert "failed to write the new WP configuration" != "WP operations are not implemented for this chip";
      assert "failed to write the new WP configuration" != "failed to read the current WP configuration";
    case WpErrVerifyFailed =>
      assert "unexpected WP configuration read back from chip" != "WP operations are not implemented for this chip";
      assert "unexpected WP configuration read back from chip" != "failed to read the current WP configuration";
      assert "unexpected WP configuration read back from chip" != "failed to write the new WP configuration";
  }

  /** The protection-setting errors map back from their texts. */
  lemma SettingErrorsIdentified(e: WpResult)
    requires e.WpErrModeUnsupported? || e.WpErrRangeUnsupported?
    ensures ErrorOfStr(GetWpErrorStr(e)) == e
  {
    match e
    case WpErrModeUnsupported =>
      assert "the requested protection mode is not supported" != "WP operations are not implemented for this chip";
      assert "the requested protection mode is not supported" != "failed to read the current WP configuration";
      assert "the requested protection mode is not supported" != "failed to write the new WP configuration";
      assert "the requested protection mode is not supported" != "unexpected WP configuration read back from chip";
    case WpErrRangeUnsupported =>
      assert "the requested protection range is not supported" != "WP operations are not implemented for this chip";
      assert "the requested protection range is not supported" != "failed to read the current WP configuration";
      assert "the requested protection range is not supported" != "failed to write the new WP configuration";
      assert "the requested protection range is not supported" != "unexpected WP configuration read back from chip";
      assert "the requested protection range is not supported" != "the requested protection mode is not supported";
  }

  /** The range-list and chip-state errors map back from their texts. */
  lemma StateErrorsIdentified(e: WpResult)
    requires e.WpErrRangeListUnavailable? || e.WpErrUnsupportedState?
    ensures ErrorOfStr(GetWpErrorStr(e)) == e
  {
    match e
    case WpErrRangeListUnavailable =>
      assert "could not determine what protection ranges are available" != "WP operations are not implemented for this chip";
      assert "could not determine what protection ranges are available" != "failed to read the current WP configuration";
      assert "could not determine what protection ranges are available" != "failed to write the new WP configuration";
      assert "could not determine what protection ranges are available" != "unexpected WP configuration read back from chip";
      assert "could not determine what protection ranges are available" != "the requested protection mode is not supported";
      assert "could not determine what protection ranges are available" != "the requested protection range is not supported";
    case WpErrUnsupportedState =>
      assert "can't operate on current WP configuration of the chip" != "WP operations are not implemented for this chip";
      assert "can't operate on current WP configuration of the chip" != "failed to read the current WP configuration";
      assert "can't operate on current WP configuration of the chip" != "failed to write the new WP configuration";
      assert "can't operate on current WP configuration of the chip" != "unexpected WP configuration read back from chip";
      assert "can't operate on current WP configuration of the chip" != "the requested protection mode is not supported";
      assert "can't operate on current WP configuration of the chip" != "the requested protection range is not supported";
      assert "can't operate on current WP configuration of the chip" != "could not determine what protection ranges are available";
  }

  /** "unknown WP error" is printed exactly for OK and the generic error, the results without a case of their own. */
  lemma UnknownWpErrorStr(err: WpResult)
    ensures GetWpErrorStr(err) == "unknown WP error" <==> err == WpOk || err == WpErrOther
  {
    if err != WpOk && err != WpErrOther && GetWpErrorStr(err) == "unknown WP error" {
      WpErrorStrIdentifies(err);
      OtherErrorIdentified();
      assert false;
    }
  }

  /** The generic error's text is none of the specific ones. */
  lemma OtherErrorIdentified()
    ensures ErrorOfStr(GetWpErrorStr(WpErrOther)) == WpErrOther
  {
    assert "unknown WP error" != "WP operations are not implemented for this chip";
    assert "unknown WP error" != "failed to read the current WP configuration";
    assert "unknown WP error" != "failed to write the new WP configuration";
    assert "unknown WP error" != "unexpected WP configuration read back from chip";
    assert "unknown WP error" != "the requested protection mode is not supported";
    assert "unknown WP error" != "the requested protection range is not supported";
    assert "unknown WP error" != "could not determine what protection ranges are available";
    assert "unknown WP error" != "can't operate on current WP configuration of the chip";
  }

  // ---------------------------------------------------------------------------------
  // print_wp_range

  datatype Location = NoLocation | Lower | Upper

  /** The readable part of print_wp_range's line: (none), (all) or (<location><num>/<den>). */
  datatype RangeLabel = NoneLabel | AllLabel | Fraction(location: Location, num: nat, den: nat)

  function Pow2(k: nat): (p: nat)
    ensures p >= 1
  {
    if k == 0 then 1 else 2 * Pow2(k - 1)
  }

  /**
   * The fraction len/chipLen with common factors of two removed, and the number of
   * halvings; afterwards the two sides are not both even.
   */
  function Reduce(len: nat, chipLen: nat): (r: (nat, nat, nat))
    requires len > 0
    ensures r.0 > 0
    ensures r.0 % 2 == 1 || r.1 % 2 == 1
    decreases len
  {
    if chipLen % 2 == 0 && len % 2 == 0 then
      var r := Reduce(len / 2, chipLen / 2);
      (r.0, r.1, r.2 + 1)
    else
      (len, chipLen, 0)
  }

  /** Both sides of the fraction are divided by the same power of two, 2^halvings. */
  lemma {:induction false} ReduceScales(len: nat, chipLen: nat)
    requires len > 0
    ensures var r := Reduce(len, chipLen); r.0 * Pow2(r.2) == len && r.1 * Pow2(r.2) == chipLen
    decreases len
  {
    if chipLen % 2 == 0 && len % 2 == 0 {
      ReduceScales(len / 2, chipLen / 2);
      var r := Reduce(len / 2, chipLen / 2);
      DoublePow2(r.0, r.2);
      DoublePow2(r.1, r.2);
    }
  }

  lemma DoublePow2(a: nat, k: nat)
    ensures a * Pow2(k + 1) == 2 * (a * Pow2(k))
  {
  }

  lemma MulSwap(a: nat, b: nat, c: nat)
    ensures a * (b * c) == (a * c) * b
  {
  }

  /**
   * What print_wp_range says about a range of a chip of chipLen bytes: none for an empty
   * range, all for the whole chip, else the reduced fraction, "upper" when the range ends
   * at the chip's end (size_t subtraction) and otherwise "lower" when it starts at 0.
   */
  function DescribeWpRange(start: nat, len: nat, chipLen: nat): (d: RangeLabel)
    ensures d.NoneLabel? <==> len == 0
    ensures d.AllLabel? <==> 0 < len == chipLen
    ensures d.Fraction? ==> d.num > 0
  {
    if len == 0 then NoneLabel
    else if len == chipLen then AllLabel
    else
      var location :=
        if start == (chipLen - len) % SIZE_LIMIT then Upper
        else if start == 0 then Lower
        else NoLocation;
      var r := Reduce(len, chipLen);
      Fraction(location, r.0, r.1)
  }

  /**
   * The description of a partial range keeps the range's share of the chip
   * (num/den == len/chipLen), with common factors of two removed.
   */
  lemma DescribeWpRangeRatio(start: nat, len: nat, chipLen: nat)
    requires 0 < len && len != chipLen
    ensures DescribeWpRange(start, len, chipLen).Fraction?
    ensures var d := DescribeWpRange(start, len, chipLen);
      d.num * chipLen == len * d.den && (d.num % 2 == 1 || d.den % 2 == 1)
  {
    var r := Reduce(len, chipLen);
    ReduceScales(len, chipLen);
    MulSwap(r.0, r.1, Pow2(r.2));
  }

  /**
   * For a range that fits in the chip, "upper" exactly when it ends at the chip's end,
   * "lower" exactly when it starts at 0 and does not end there.
   */
  lemma DescribeWpRangeLocation(start: nat, len: nat, chipLen: nat)
    requires 0 < len <= chipLen < SIZE_LIMIT && len != chipLen
    ensures DescribeWpRange(start, len, chipLen).Fraction?
    ensures DescribeWpRange(start, len, chipLen).location == Upper <==> start + len == chipLen
    ensures DescribeWpRange(start, len, chipLen).location == Lower <==> start == 0 && start + len != chipLen
  {
    assert (chipLen - len) % SIZE_LIMIT == chipLen - len;
  }

  /** A range of 2^j bytes in a chip of 2^(j+m) bytes is 1/2^m of it, after j halvings. */
  lemma {:induction false} ReducePowersOfTwo(j: nat, m: nat)
    requires m > 0
    ensures Reduce(Pow2(j), Pow2(j + m)) == (1, Pow2(m), j)
    decreases j
  {
    if j > 0 {
      var a', b' := Pow2(j - 1), Pow2(j - 1 + m);
      assert Pow2(j) == 2 * a' && Pow2(j + m) == 2 * b';
      ReducePowersOfTwo(j - 1, m);
      HalveBoth(a', b');
    } else {
      assert Pow2(0) == 1;
    }
  }

  /** Doubling both sides adds one halving. */
  lemma HalveBoth(a: nat, b: nat)
    requires a > 0
    ensures Reduce(2 * a, 2 * b) == (Reduce(a, b).0, Reduce(a, b).1, Reduce(a, b).2 + 1)
  {
    var x, y := 2 * a, 2 * b;
    assert x % 2 == 0 && x / 2 == a;
    assert y % 2 == 0 && y / 2 == b;
    assert Reduce(x, y) == (Reduce(a, b).0, Reduce(a, b).1, Reduce(a, b).2 + 1);
  }

  lemma Pow2Values()
    ensures Pow2(3) == 8 && Pow2(17) == 0x2_0000 && Pow2(20) == 0x10_0000
  {
    assert Pow2(4) == 16;
    assert Pow2(8) == 256;
    assert Pow2(12) == 4096;
    assert Pow2(16) == 0x1_0000;
    assert Pow2(17) == 0x2_0000;
  }

  const CHIP_1MIB: nat := 0x10_0000

  /** A 128 KiB range at the bottom of a 1 MiB chip is its lower eighth. */
  lemma LowerEighthExample()
    ensures DescribeWpRange(0, 0x2_0000, CHIP_1MIB) == Fraction(Lower, 1, 8)
  {
    Pow2Values();
    ReducePowersOfTwo(17, 3);
  }

  function LocationText(l: Location): string {
    match l
    case NoLocation => ""
    case Lower => "lower "
    case Upper => "upper "
  }

  function LabelText(d: RangeLabel): string {
    match d
    case NoneLabel => "(none)"
    case AllLabel => "(all)"
    case Fraction(l, num, den) => "(" + LocationText(l) + Decimal(num) + "/" + Decimal(den) + ")"
  }

  /** The lower eighth is printed as "(lower 1/8)". */
  lemma LowerEighthText()
    ensures LabelText(Fraction(Lower, 1, 8)) == "(lower 1/8)"
  {
    assert Decimal(1) == "1" && Decimal(8) == "8";
  }

  /** An empty range is "(none)"; a non-empty range as long as the chip is "(all)", wherever it starts. */
  lemma NoneAndAllLabels(start: nat, len: nat, chipLen: nat)
    ensures len == 0 ==> LabelText(DescribeWpRange(start, len, chipLen)) == "(none)"
    ensures 0 < len == chipLen ==> LabelText(DescribeWpRange(start, len, chipLen)) == "(all)"
  {
  }

  /** The text print_wp_range prints for a range of a chip of chipLen bytes. */
  function RangeText(start: nat, len: nat, chipLen: nat): string {
    "start=0x" + Hex08(start) + " length=0x" + Hex08(len) + " " + LabelText(DescribeWpRange(start, len, chipLen))
  }

  /**
   * print_wp_range: prints the range and its description; the reduction of the fraction
   * is the loop of the source, halving both sides while both are even.
   */
  method PrintWpRange(start: nat, len: nat, chipLen: nat) returns (text: string)
    ensures text == RangeText(start, len, chipLen)
  {
    var description: RangeLabel;
    if len == 0 {
      description := NoneLabel;
    } else if len == chipLen {
      description := AllLabel;
    } else {
      var location := NoLocation;
      if start == 0 {
        location := Lower;
      }
      if start == (chipLen - len) % SIZE_LIMIT {
        location := Upper;
      }
      var c, l := chipLen, len;
      while c % 2 == 0 && l % 2 == 0
        invariant l > 0
        invariant Reduce(l, c).0 == Reduce(len, chipLen).0 && Reduce(l, c).1 == Reduce(len, chipLen).1
        decreases l
      {
        assert Reduce(l, c) == (Reduce(l / 2, c / 2).0, Reduce(l / 2, c / 2).1, Reduce(l / 2, c / 2).2 + 1);
        c := c / 2;
        l := l / 2;
      }
      assert Reduce(l, c) == (l, c, 0);
      description := Fraction(location, l, c);
      assert description == DescribeWpRange(start, len, chipLen);
    }
    text := "start=0x" + Hex08(start) + " length=0x" + Hex08(len) + " " + LabelText(description);
  }

  // ---------------------------------------------------------------------------------
  // wp_cli

  /** A write-protect configuration as a value: what a read fills in and a write sends. */
  datatype WpConfig = WpConfig(mode: WpMode, start: nat, len: nat)

  /** One operation on the transient configuration object, in the order performed. */
  datatype WpStep = CfgNew | ReadCfg | SetRangeStep | SetModeStep(mode: WpMode) | WriteCfg | Release

  function ModeName(m: WpMode): string {
    match m
    case WpModeDisabled => "disabled"
    case WpModeHardware => "hardware"
    case WpModePowerCycle => "power_cycle"
    case WpModePermanent => "permanent"
  }

  const HARDWARE_NOTE: string := "Note: hardware status register protection is enabled. The chip's "
    + "WP# pin" + " must be set to an inactive voltage level to be able to change the WP settings.\n"
  const POWER_CYCLE_NOTE: string := "Note: power-cycle status register protection is enabled. A "
    + "power-off, power-on cycle" + " is usually required to change the chip's WP settings.\n"
  const PERMANENT_NOTE: string := "Note: permanent status " + "register protection is " + "enabled. The chip's WP "
    + "settings " + "cannot be modified" + ".\n"

  /** The note printed after a failed verification, keyed on the mode before the change. */
  function WpNote(oldMode: WpMode): (n: seq<Message>)
    ensures |n| <= 1 && (n == [] <==> oldMode == WpModeDisabled)
    ensures forall k :: 0 <= k < |n| ==> n[k].Err?
  {
    match oldMode
    case WpModeHardware => [Err(HARDWARE_NOTE)]
    case WpModePowerCycle => [Err(POWER_CYCLE_NOTE)]
    case WpModePermanent => [Err(PERMANENT_NOTE)]
    case WpModeDisabled => []
  }

  /** w occurs in s. */
  predicate Contains(s: string, w: string) {
    exists i :: 0 <= i <= |s| && w <= s[i..]
  }

  lemma ContainsMiddle(a: string, w: string, c: string)
    ensures Contains(a + w + c, w)
  {
    assert (a + w + c)[|a|..] == w + c;
  }

  /**
   * The hardware note gives the WP# pin guidance, the power-cycle note asks for a power
   * cycle, the permanent note says the settings cannot be modified, and a disabled chip
   * gets no note.
   */
  lemma WpNoteGuidance()
    ensures WpNote(WpModeHardware) == [Err(HARDWARE_NOTE)] && Contains(HARDWARE_NOTE, "WP# pin")
    ensures WpNote(WpModePowerCycle) == [Err(POWER_CYCLE_NOTE)] && Contains(POWER_CYCLE_NOTE, "power-off, power-on cycle")
    ensures WpNote(WpModePermanent) == [Err(PERMANENT_NOTE)] && Contains(PERMANENT_NOTE, "cannot be modified")
    ensures WpNote(WpModeDisabled) == []
  {
    ContainsMiddle("Note: hardware status register protection is enabled. The chip's ", "WP# pin",
      " must be set to an inactive voltage level to be able to change the WP settings.\n");
    ContainsMiddle("Note: power-cycle status register protection is enabled. A ", "power-off, power-on cycle",
      " is usually required to change the chip's WP settings.\n");
    ContainsMiddle("Note: permanent status " + "register protection is " + "enabled. The chip's WP " + "settings ",
      "cannot be modified", ".\n");
  }

  /** The permanent-mode note carries no WP# pin guidance. */
  lemma PermanentNoteHasNoPinGuidance()
    ensures !Contains(PERMANENT_NOTE, "WP# pin")
  {
    assert '#' !in PERMANENT_NOTE;
    forall i | 0 <= i <= |PERMANENT_NOTE|
      ensures !("WP# pin" <= PERMANENT_NOTE[i..])
    {
      if i + 2 < |PERMANENT_NOTE| {
        assert PERMANENT_NOTE[i..][2] == PERMANENT_NOTE[i + 2];
      }
    }
  }

  /** The configuration written back: the range replaced if asked, then disable, then enable. */
  function NewWpConfig(read: WpConfig, enableWp: bool, disableWp: bool, setWpRange: bool, wpStart: nat, wpLen: nat): (c: WpConfig)
    ensures c.mode == (if enableWp then WpModeHardware else if disableWp then WpModeDisabled else read.mode)
    ensures (c.start, c.len) == (if setWpRange then (wpStart, wpLen) else (read.start, read.len))
  {
    var c := read;
    var c := if setWpRange then c.(start := wpStart, len := wpLen) else c;
    var c := if disableWp then c.(mode := WpModeDisabled) else c;
    if enableWp then c.(mode := WpModeHardware) else c
  }

  /** The messages after a successful change. */
  function AppliedMessages(enableWp: bool, disableWp: bool, setWpRange: bool, wpStart: nat, wpLen: nat, chipLen: nat): seq<Message> {
    (if disableWp then [Info("Disabled hardware protection\n")] else [])
    + (if enableWp then [Info("Enabled hardware protection\n")] else [])
    + (if setWpRange then [Info("Activated protection range: " + RangeText(wpStart, wpLen, chipLen) + "\n")] else [])
  }

  /** The error message of a failed change, with the note for the mode read before it. */
  function ApplyFailureMessages(res: WpResult, oldMode: WpMode): seq<Message> {
    [Err("Failed to apply new WP settings: " + GetWpErrorStr(res) + "\n")]
      + (if res == WpErrVerifyFailed then WpNote(oldMode) else [])
  }

  /** The changes made to the configuration read from the chip, in the order made. */
  function MutationSteps(enableWp: bool, disableWp: bool, setWpRange: bool): seq<WpStep> {
    (if setWpRange then [SetRangeStep] else [])
    + (if disableWp then [SetModeStep(WpModeDisabled)] else [])
    + (if enableWp then [SetModeStep(WpModeHardware)] else [])
  }

  /**
   * The configuration object's life in the change part of wp_cli: allocated, read from
   * the chip, modified (range, then disable, then enable) and written back, and released
   * on every path. It reaches the chip only when allocation and read both succeeded; the
   * mode before the change stays "disabled" when nothing was read.
   */
  method ReadModifyWrite(enableWp: bool, disableWp: bool, setWpRange: bool, wpStart: nat, wpLen: nat,
                         allocOk: bool, readResult: WpResult, readConfig: WpConfig,
                         writeCfg: WpConfig -> WpResult)
    returns (res: WpResult, oldMode: WpMode, written: Option<WpConfig>, steps: seq<WpStep>)
    ensures written.Some? <==> allocOk && readResult == WpOk
    ensures written.Some? ==> written.value == NewWpConfig(readConfig, enableWp, disableWp, setWpRange, wpStart, wpLen)
    ensures res == if written.Some? then writeCfg(written.value) else if allocOk then readResult else WpErrOther
    ensures oldMode == if written.Some? then readConfig.mode else WpModeDisabled
    ensures steps == [CfgNew] + (if allocOk then [ReadCfg] else [])
      + (if written.Some? then MutationSteps(enableWp, disableWp, setWpRange) + [WriteCfg] else []) + [Release]
  {
    oldMode := WpModeDisabled;
    steps := [CfgNew];
    var cfg;
    res, cfg := WpCfgNew(allocOk);
    written := None;
    if res == WpOk {
      steps := steps + [ReadCfg];
      res := readResult;
      if res == WpOk {
        cfg.SetMode(readConfig.mode);
        cfg.SetRange(readConfig.start, readConfig.len);
      }
    }
    if res == WpOk {
      oldMode := cfg.GetMode();
      if setWpRange {
        cfg.SetRange(wpStart, wpLen);
        steps := steps + [SetRangeStep];
      }
      if disableWp {
        cfg.SetMode(WpModeDisabled);
        steps := steps + [SetModeStep(WpModeDisabled)];
      }
      if enableWp {
        cfg.SetMode(WpModeHardware);
        steps := steps + [SetModeStep(WpModeHardware)];
      }
      written := Some(WpConfig(cfg.mode, cfg.start, cfg.len));
      steps := steps + [WriteCfg];
      res := writeCfg(written.value);
    }
    steps := steps + [Release];
  }

  /**
   * The change part of wp_cli, run when a range, disable or enable was requested. A
   * failure prints the error and, for a failed verification, the note for the mode read
   * before the change; success reports what was changed.
   */
  method ApplyWpSettings(enableWp: bool, disableWp: bool, setWpRange: bool, wpStart: nat, wpLen: nat,
                         chipLen: nat, allocOk: bool, readResult: WpResult, readConfig: WpConfig,
                         writeCfg: WpConfig -> WpResult)
    returns (ret: int, out: seq<Message>, written: Option<WpConfig>)
    ensures ret == 0 || ret == 1
    ensures written.Some? <==> allocOk && readResult == WpOk
    ensures written.Some? ==> written.value == NewWpConfig(readConfig, enableWp, disableWp, setWpRange, wpStart, wpLen)
    ensures var res := if written.Some? then writeCfg(written.value) else if allocOk then readResult else WpErrOther;
      ret == 0 <==> res == WpOk
    ensures var res := if written.Some? then writeCfg(written.value) else if allocOk then readResult else WpErrOther;
      res != WpOk ==> out == ApplyFailureMessages(res, if written.Some? then readConfig.mode else WpModeDisabled)
    ensures var res := if written.Some? then writeCfg(written.value) else if allocOk then readResult else WpErrOther;
      res == WpOk ==> out == AppliedMessages(enableWp, disableWp, setWpRange, wpStart, wpLen, chipLen)
  {
    var res, oldMode, steps;
    res, oldMode, written, steps := ReadModifyWrite(enableWp, disableWp, setWpRange, wpStart, wpLen,
                                                    allocOk, readResult, readConfig, writeCfg);
    if res != WpOk {
      out := [Err("Failed to apply new WP settings: " + GetWpErrorStr(res) + "\n")];
      if res == WpErrVerifyFailed {
        out := out + WpNote(oldMode);
      }
      assert out == ApplyFailureMessages(res, oldMode);
      return 1, out, written;
    }
    ghost var disabled := if disableWp then [Info("Disabled hardware protection\n")] else [];
    ghost var enabled := if enableWp then [Info("Enabled hardware protection\n")] else [];
    out := [];
    if disableWp {
      out := out + [Info("Disabled hardware protection\n")];
    }
    assert out == disabled;
    if enableWp {
      out := out + [Info("Enabled hardware protection\n")];
    }
    assert out == disabled + enabled;
    if setWpRange {
      var text := PrintWpRange(wpStart, wpLen, chipLen);
      out := out + [Info("Activated protection range: " + text + "\n")];
    }
    assert out == AppliedMessages(enableWp, disableWp, setWpRange, wpStart, wpLen, chipLen);
    ret := 0;
  }

  /** The line listing one available range. */
  function RangeLine(r: WpRange, chipLen: nat): Message {
    Info("\t" + RangeText(r.start, r.len, chipLen) + "\n")
  }

  /** The lines listing the available ranges. */
  function RangeListMessages(ranges: seq<WpRange>, chipLen: nat): (m: seq<Message>)
    ensures |m| == |ranges|
  {
    seq(|ranges|, i requires 0 <= i < |ranges| => RangeLine(ranges[i], chipLen))
  }

  /** Appending the next expected line keeps the lines a prefix of the expected ones. */
  lemma ExtendLines(lines: seq<Message>, expected: seq<Message>, line: Message)
    requires |lines| < |expected| && lines == expected[..|lines|] && line == expected[|lines|]
    ensures lines + [line] == expected[..|lines| + 1]
  {
  }

  /** The listing part of wp_cli: every available range, in order, or the error. */
  method ListWpRanges(getRangesResult: WpResult, list: WpRanges, chipLen: nat) returns (ret: int, out: seq<Message>)
    ensures ret == 0 || ret == 1
    ensures ret == 0 <==> getRangesResult == WpOk
    ensures ret == 1 ==> out == [Err("Failed to get list of protection ranges: " + GetWpErrorStr(getRangesResult) + "\n")]
    ensures ret == 0 ==> out == [Info("Available protection ranges:\n")] + RangeListMessages(list.ranges, chipLen)
  {
    if getRangesResult != WpOk {
      return 1, [Err("Failed to get list of protection ranges: " + GetWpErrorStr(getRangesResult) + "\n")];
    }
    var count := WpRangesGetCount(list);
    ghost var expected := RangeListMessages(list.ranges, chipLen);
    var lines: seq<Message> := [];
    for i := 0 to count
      invariant |lines| == i && lines == expected[..i]
    {
      var r := WpRangesGetRange(list, i);
      var text := PrintWpRange(r.1.value.start, r.1.value.len, chipLen);
      var line := Info("\t" + text + "\n");
      assert line == RangeLine(list.ranges[i], chipLen) == expected[i];
      ExtendLines(lines, expected, line);
      lines := lines + [line];
    }
    assert lines == expected;
    return 0, [Info("Available protection ranges:\n")] + lines;
  }

  /** The status part of wp_cli: the configuration read from the chip, or the error. */
  method ShowWpStatus(chipLen: nat, allocOk: bool, readResult: WpResult, readConfig: WpConfig)
    returns (ret: int, out: seq<Message>, steps: seq<WpStep>)
    ensures ret == 0 || ret == 1
    ensures ret == 0 <==> allocOk && readResult == WpOk
    ensures ret == 1 ==> out == [Err("Failed to get WP status: " + GetWpErrorStr(if allocOk then readResult else WpErrOther) + "\n")]
    ensures ret == 0 ==> out == [
      Info("Protection range: " + RangeText(readConfig.start, readConfig.len, chipLen) + "\n"),
      Info("Protection mode: " + ModeName(readConfig.mode) + "\n")]
    ensures |steps| >= 2 && steps[0] == CfgNew && steps[|steps| - 1] == Release
  {
    steps := [CfgNew];
    var res, cfg := WpCfgNew(allocOk);
    if res == WpOk {
      steps := steps + [ReadCfg];
      res := readResult;
      if res == WpOk {
        cfg.SetMode(readConfig.mode);
        cfg.SetRange(readConfig.start, readConfig.len);
      }
    }
    if res != WpOk {
      steps := steps + [Release];
      return 1, [Err("Failed to get WP status: " + GetWpErrorStr(res) + "\n")], steps;
    }
    var start, len := cfg.GetRange();
    var mode := cfg.GetMode();
    steps := steps + [Release];
    var text := PrintWpRange(start, len, chipLen);
    out := [Info("Protection range: " + text + "\n"), Info("Protection mode: " + ModeName(mode) + "\n")];
    ret := 0;
  }

  /** What the chip's write-protect backend answers during one wp_cli run. */
  datatype WpBackend = WpBackend(
    getRangesResult: WpResult, ranges: WpRanges,
    applyAllocOk: bool, applyReadResult: WpResult, applyReadConfig: WpConfig,
    writeCfg: WpConfig -> WpResult,
    statusAllocOk: bool, statusReadResult: WpResult, statusReadConfig: WpConfig)

  /**
   * wp_cli: list, then change, then status, each only if requested; the first part that
   * fails ends the command with 1 and nothing after it runs.
   */
  method WpCli(enableWp: bool, disableWp: bool, printWpStatus: bool, printWpRanges: bool,
               setWpRange: bool, wpStart: nat, wpLen: nat, chipTotalSizeKb: nat, b: WpBackend)
    returns (ret: int, out: seq<Message>, written: Option<WpConfig>)
    ensures ret == 0 || ret == 1
    ensures printWpRanges && b.getRangesResult != WpOk ==> ret == 1 && written.None?
    ensures written.Some? ==>
      (setWpRange || disableWp || enableWp) && b.applyAllocOk && b.applyReadResult == WpOk
      && written.value == NewWpConfig(b.applyReadConfig, enableWp, disableWp, setWpRange, wpStart, wpLen)
    ensures !(setWpRange || disableWp || enableWp) ==> written.None?
    ensures ret == 0 <==>
      (printWpRanges ==> b.getRangesResult == WpOk)
      && ((setWpRange || disableWp || enableWp) ==>
            b.applyAllocOk && b.applyReadResult == WpOk
            && b.writeCfg(NewWpConfig(b.applyReadConfig, enableWp, disableWp, setWpRange, wpStart, wpLen)) == WpOk)
      && (printWpStatus ==> b.statusAllocOk && b.statusReadResult == WpOk)
    ensures !printWpRanges && !printWpStatus && !(setWpRange || disableWp || enableWp) ==> ret == 0 && out == []
  {
    var chipLen := FlashGetsize(chipTotalSizeKb);
    out := [];
    written := None;
    if printWpRanges {
      var r, o := ListWpRanges(b.getRangesResult, b.ranges, chipLen);
      out := out + o;
      if r != 0 {
        return 1, out, None;
      }
    }
    if setWpRange || disableWp || enableWp {
      var r, o, w := ApplyWpSettings(enableWp, disableWp, setWpRange, wpStart, wpLen, chipLen,
                                        b.applyAllocOk, b.applyReadResult, b.applyReadConfig, b.writeCfg);
      out := out + o;
      written := w;
      if r != 0 {
        return 1, out, written;
      }
    }
    if printWpStatus {
      var r, o, _ := ShowWpStatus(chipLen, b.statusAllocOk, b.statusReadResult, b.statusReadConfig);
      out := out + o;
      if r != 0 {
        return 1, out, written;
      }
    }
    ret := 0;
  }
}
