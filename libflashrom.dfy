/**
 * The library layer of flashrom (libflashrom.c): the flash context with its operation
 * flags and per-stage progress reporting, chip probing across the registered programmer
 * masters (both API versions), layouts taken from an Intel Firmware Descriptor or from an
 * fmap, and the small write-protect configuration objects.
 *
 * Hardware and lower layers are parameters: `probe(master, startchip)` stands for
 * probe_flash, returning a chip index, NO_CHIPS or INTERNAL; descriptor and fmap
 * parsing results are given as values; allocations are boolean outcomes.
 */
module LibFlashrom {
  import opened Common
  import opened Layout

  // ---------------------------------------------------------------------------------
  // Operation flags

  datatype Flag =
    | Force | ForceBoardmismatch | VerifyAfterWrite | VerifyWholeChip
    | SkipUnreadableRegions | SkipUnwritableRegions
    | UnknownFlag(code: int)  // any value outside the enumeration

  // ---------------------------------------------------------------------------------
  // Progress reporting

  /** The stages of a hardware transaction, indexing the per-stage counters. */
  datatype Stage = ReadStage | WriteStage | EraseStage
  {
    function Index(): (i: nat)
      ensures i < 3
    {
      match this
      case ReadStage => 0
      case WriteStage => 1
      case EraseStage => 2
    }
  }

  datatype StageProgress = StageProgress(current: nat, total: nat)

  /** struct flashrom_progress: what a callback sees. */
  datatype ProgressState = ProgressState(stage: Stage, current: nat, total: nat, userData: nat)

  /** One callback invocation: which kind of callback and the (stage, current, total) it got. */
  datatype ProgressReport = ProgressReport(deprecated: bool, stage: Stage, current: nat, total: nat, userData: nat)

  /**
   * The counter of one stage after `increment` more units of work: size_t addition wraps,
   * and a total the implementation under-reported is raised to the current value.
   */
  function AdvanceStage(p: StageProgress, increment: nat): (r: StageProgress)
    requires p.current < SIZE_LIMIT && p.total < SIZE_LIMIT
    ensures r.current <= r.total < SIZE_LIMIT
    ensures r.current == (p.current + increment) % SIZE_LIMIT
    ensures r.total == (if r.current > p.total then r.current else p.total)
    ensures p.current + increment < SIZE_LIMIT && p.current <= p.total ==>
      p.current <= r.current && p.total <= r.total
  {
    var current := (p.current + increment) % SIZE_LIMIT;
    StageProgress(current, if current > p.total then current else p.total)
  }

  /** Repeated updates of one stage without wrap-around never move its counter backwards. */
  lemma {:induction false} ProgressMonotonic(p: StageProgress, increments: seq<nat>)
    requires p.current <= p.total < SIZE_LIMIT
    requires p.current + Sum(increments) < SIZE_LIMIT
    ensures AdvanceAll(p, increments).current == p.current + Sum(increments)
    ensures p.total <= AdvanceAll(p, increments).total
    ensures AdvanceAll(p, increments).current <= AdvanceAll(p, increments).total
    decreases |increments|
  {
    if increments != [] {
      var init := increments[..|increments| - 1];
      ProgressMonotonic(p, init);
    }
  }

  function Sum(xs: seq<nat>): nat
    decreases |xs|
  {
    if xs == [] then 0 else Sum(xs[..|xs| - 1]) + xs[|xs| - 1]
  }

  /** A stage counter after the given updates, in order. */
  function AdvanceAll(p: StageProgress, increments: seq<nat>): (r: StageProgress)
    requires p.current < SIZE_LIMIT && p.total < SIZE_LIMIT
    ensures r.current < SIZE_LIMIT && r.total < SIZE_LIMIT
    decreases |increments|
  {
    if increments == [] then p
    else AdvanceStage(AdvanceAll(p, increments[..|increments| - 1]), increments[|increments| - 1])
  }

  /**
   * struct flashrom_flashctx, reduced to what this layer updates: the chip size, the
   * six flags, the two mutually exclusive progress callbacks (identified by a number)
   * with their state, the per-stage counters, and the callback invocations made so far.
   */
  class FlashContext {
    var chipTotalSizeKb: nat
    var force: bool
    var forceBoardmismatch: bool
    var verifyAfterWrite: bool
    var verifyWholeChip: bool
    var skipUnreadableRegions: bool
    var skipUnwritableRegions: bool
    var progressCallback: Option<nat>
    var deprecatedProgressCallback: Option<nat>
    /** The caller's struct flashrom_progress registered with the deprecated setter. */
    var deprecatedProgressState: ProgressState
    var progressState: ProgressState
    var stageProgress: array<StageProgress>
    var reports: seq<ProgressReport>
    var sacrificeRatio: nat

    /** At most one callback registered; every stage's counter within size_t, current <= total. */
    predicate Valid()
      reads this, stageProgress
    {
      stageProgress.Length == 3
      && !(progressCallback.Some? && deprecatedProgressCallback.Some?)
      && forall s :: 0 <= s < 3 ==> stageProgress[s].current <= stageProgress[s].total < SIZE_LIMIT
    }

    /** A context as malloc + memset(0) leaves it, bound to a chip of the given size. */
    constructor (totalSizeKb: nat)
      ensures Valid() && fresh(stageProgress)
      ensures chipTotalSizeKb == totalSizeKb
      ensures !force && !forceBoardmismatch && !verifyAfterWrite && !verifyWholeChip
      ensures !skipUnreadableRegions && !skipUnwritableRegions
      ensures progressCallback.None? && deprecatedProgressCallback.None?
      ensures stageProgress[..] == [StageProgress(0, 0), StageProgress(0, 0), StageProgress(0, 0)]
      ensures reports == [] && sacrificeRatio == 0
    {
      chipTotalSizeKb := totalSizeKb;
      force, forceBoardmismatch, verifyAfterWrite, verifyWholeChip := false, false, false, false;
      skipUnreadableRegions, skipUnwritableRegions := false, false;
      progressCallback, deprecatedProgressCallback := None, None;
      deprecatedProgressState := ProgressState(ReadStage, 0, 0, 0);
      progressState := ProgressState(ReadStage, 0, 0, 0);
      stageProgress := new StageProgress[3](_ => StageProgress(0, 0));
      reports := [];
      sacrificeRatio := 0;
    }

    /** flashrom_flag_get: the flag's value; an unknown flag reads as false. */
    function FlagGet(flag: Flag): bool
      reads this
    {
      match flag
      case Force => force
      case ForceBoardmismatch => forceBoardmismatch
      case VerifyAfterWrite => verifyAfterWrite
      case VerifyWholeChip => verifyWholeChip
      case SkipUnreadableRegions => skipUnreadableRegions
      case SkipUnwritableRegions => skipUnwritableRegions
      case UnknownFlag(_) => false
    }

    /** flashrom_flag_set: sets exactly the named flag; an unknown flag changes nothing. */
    method FlagSet(flag: Flag, value: bool)
      modifies this
      ensures !flag.UnknownFlag? ==> FlagGet(flag) == value
      ensures forall f :: f != flag ==> FlagGet(f) == old(FlagGet(f))
      ensures chipTotalSizeKb == old(chipTotalSizeKb) && stageProgress == old(stageProgress)
      ensures progressCallback == old(progressCallback) && deprecatedProgressCallback == old(deprecatedProgressCallback)
      ensures progressState == old(progressState) && deprecatedProgressState == old(deprecatedProgressState)
      ensures reports == old(reports) && sacrificeRatio == old(sacrificeRatio)
    {
      match flag
      case Force => force := value;
      case ForceBoardmismatch => forceBoardmismatch := value;
      case VerifyAfterWrite => verifyAfterWrite := value;
      case VerifyWholeChip => verifyWholeChip := value;
      case SkipUnreadableRegions => skipUnreadableRegions := value;
      case SkipUnwritableRegions => skipUnwritableRegions := value;
      case UnknownFlag(_) =>
    }

    /**
     * flashrom_set_progress_callback (deprecated API): ignored when a v2 callback is
     * registered; otherwise registers the callback and the caller's state, and copies that
     * state into the context.
     */
    method SetProgressCallback(callback: Option<nat>, state: ProgressState)
      requires Valid()
      modifies this
      ensures Valid() && stageProgress == old(stageProgress)
      ensures old(progressCallback).Some? ==>
        deprecatedProgressCallback == old(deprecatedProgressCallback)
        && deprecatedProgressState == old(deprecatedProgressState) && progressState == old(progressState)
      ensures old(progressCallback).None? ==>
        deprecatedProgressCallback == callback && deprecatedProgressState == state && progressState == state
      ensures progressCallback == old(progressCallback) && reports == old(reports)
      ensures chipTotalSizeKb == old(chipTotalSizeKb) && sacrificeRatio == old(sacrificeRatio)
      ensures forall f :: FlagGet(f) == old(FlagGet(f))
    {
      if progressCallback.Some? {
        return;
      }
      deprecatedProgressCallback := callback;
      deprecatedProgressState := state;
      progressState := state;
    }

    /**
     * flashrom_set_progress_callback_v2: ignored when a deprecated callback is registered;
     * otherwise registers the callback and the caller's user data.
     */
    method SetProgressCallbackV2(callback: Option<nat>, userData: nat)
      requires Valid()
      modifies this
      ensures Valid() && stageProgress == old(stageProgress)
      ensures old(deprecatedProgressCallback).Some? ==>
        progressCallback == old(progressCallback) && progressState == old(progressState)
      ensures old(deprecatedProgressCallback).None? ==>
        progressCallback == callback && progressState == old(progressState).(userData := userData)
      ensures deprecatedProgressCallback == old(deprecatedProgressCallback)
      ensures deprecatedProgressState == old(deprecatedProgressState) && reports == old(reports)
      ensures chipTotalSizeKb == old(chipTotalSizeKb) && sacrificeRatio == old(sacrificeRatio)
      ensures forall f :: FlagGet(f) == old(FlagGet(f))
    {
      if deprecatedProgressCallback.Some? {
        return;
      }
      progressCallback := callback;
      progressState := progressState.(userData := userData);
    }

    predicate HasProgressCallback()
      reads this
    {
      progressCallback.Some? || deprecatedProgressCallback.Some?
    }

    /**
     * update_progress: without a callback nothing happens. Otherwise the stage's counter
     * advances (AdvanceStage), the context's progress state mirrors it, and the registered
     * callback is invoked once with the new (stage, current, total).
     */
    method UpdateProgress(stage: Stage, increment: nat)
      requires Valid()
      modifies this, stageProgress
      ensures Valid() && stageProgress == old(stageProgress)
      ensures !HasProgressCallback() ==>
        stageProgress[..] == old(stageProgress[..]) && progressState == old(progressState)
        && reports == old(reports) && deprecatedProgressState == old(deprecatedProgressState)
      ensures HasProgressCallback() ==>
        var p := AdvanceStage(old(stageProgress[stage.Index()]), increment);
        stageProgress[..] == old(stageProgress[..])[stage.Index() := p]
        && progressState == old(progressState).(stage := stage, current := p.current, total := p.total)
        && reports == old(reports) + [ProgressReport(progressCallback.None?, stage, p.current, p.total, progressState.userData)]
        && deprecatedProgressState == (if progressCallback.Some? then old(deprecatedProgressState) else progressState)
      ensures progressCallback == old(progressCallback) && deprecatedProgressCallback == old(deprecatedProgressCallback)
      ensures chipTotalSizeKb == old(chipTotalSizeKb) && sacrificeRatio == old(sacrificeRatio)
      ensures forall f :: FlagGet(f) == old(FlagGet(f))
    {
      if !HasProgressCallback() {
        return;
      }
      var i := stage.Index();
      var p := AdvanceStage(stageProgress[i], increment);
      stageProgress[i] := p;
      progressState := progressState.(stage := stage, current := p.current, total := p.total);
      if progressCallback.Some? {
        reports := reports + [ProgressReport(false, stage, p.current, p.total, progressState.userData)];
      } else {
        deprecatedProgressState := progressState;
        reports := reports + [ProgressReport(true, stage, p.current, p.total, progressState.userData)];
      }
    }

    /**
     * init_progress: without a callback nothing happens. Otherwise the stage restarts at
     * 0 of `total` (size_t) and the callback is invoked once with that starting point.
     */
    method InitProgress(stage: Stage, total: nat)
      requires Valid() && total < SIZE_LIMIT
      modifies this, stageProgress
      ensures Valid() && stageProgress == old(stageProgress)
      ensures !HasProgressCallback() ==>
        stageProgress[..] == old(stageProgress[..]) && progressState == old(progressState) && reports == old(reports)
        && deprecatedProgressState == old(deprecatedProgressState)
      ensures HasProgressCallback() ==>
        stageProgress[..] == old(stageProgress[..])[stage.Index() := StageProgress(0, total)]
        && progressState == old(progressState).(stage := stage, current := 0, total := total)
        && reports == old(reports) + [ProgressReport(progressCallback.None?, stage, 0, total, progressState.userData)]
        && deprecatedProgressState == (if progressCallback.Some? then old(deprecatedProgressState) else progressState)
      ensures progressCallback == old(progressCallback) && deprecatedProgressCallback == old(deprecatedProgressCallback)
      ensures chipTotalSizeKb == old(chipTotalSizeKb) && sacrificeRatio == old(sacrificeRatio)
      ensures forall f :: FlagGet(f) == old(FlagGet(f))
    {
      if !HasProgressCallback() {
        return;
      }
      stageProgress[stage.Index()] := StageProgress(0, total);
      UpdateProgress(stage, 0);
    }
  }

  /**
   * flashrom_flash_getsize: the chip size in bytes, computed as total_size * 1024 in
   * 32-bit unsigned arithmetic (total_size is an unsigned int counted in kilobytes).
   */
  function FlashGetsize(totalSizeKb: nat): (r: nat)
    ensures r < U32_LIMIT
    ensures totalSizeKb < 0x40_0000 ==> r == totalSizeKb * 1024
    ensures r % 1024 == 0
  {
    (totalSizeKb * 1024) % U32_LIMIT
  }

  /** A chip of 4 GiB or more reports a wrapped size: exactly 4 GiB reads as 0. */
  lemma GetsizeWrapsAt4GiB()
    ensures FlashGetsize(0x40_0000) == 0
    ensures FlashGetsize(0x40_0001) == 1024
  {
  }

  // ---------------------------------------------------------------------------------
  // Probing

  /** probe_flash's error results (ERROR_FLASHROM_PROBE_NO_CHIPS_FOUND / _INTERNAL_ERROR). */
  const NO_CHIPS: int := -1
  const INTERNAL: int := -2

  /**
   * probe_flash returns, for every master and start index, a chip index within the chip
   * database or one of the two error codes. The index is also at or after the start, but
   * nothing proved here needs that, so the predicate does not state it.
   */
  ghost predicate ValidProbe(probe: (nat, int) -> int, chipCount: nat) {
    forall m: nat, s: int :: probe(m, s) == NO_CHIPS || probe(m, s) == INTERNAL || 0 <= probe(m, s) < chipCount
  }

  /**
   * The value flashrom_flash_probe returns, computed master by master from master i on;
   * `found` says a single chip has been bound on an earlier master (ret == 0 so far).
   */
  function ProbeV1From(probe: (nat, int) -> int, masterCount: nat, i: nat, found: bool): (r: int)
    ensures r in {0, 1, 2, 3}
    decreases masterCount - i
  {
    if i >= masterCount then (if found then 0 else 2)
    else
      var flashIdx := if found then NO_CHIPS else probe(i, 0);
      if !found && flashIdx == NO_CHIPS then ProbeV1From(probe, masterCount, i + 1, false)
      else if flashIdx == INTERNAL then 1
      else
        var second := probe(i, flashIdx + 1);
        if second == INTERNAL then 1
        else if second != NO_CHIPS then 3
        else ProbeV1From(probe, masterCount, i + 1, true)
  }

  /**
   * flashrom_flash_probe: 1 when the context cannot be allocated, else 0 for exactly one
   * match, 2 for none, 3 for more than one, 1 for an internal probe error.
   */
  method FlashProbe(masterCount: nat, probe: (nat, int) -> int, allocOk: bool) returns (ret: int)
    ensures ret == (if allocOk then ProbeV1From(probe, masterCount, 0, false) else 1)
  {
    if !allocOk {
      return 1;
    }
    ret := 2;
    var i := 0;
    while i < masterCount
      invariant 0 <= i <= masterCount
      invariant ret == 0 || ret == 2
      invariant ProbeV1From(probe, masterCount, 0, false) == ProbeV1From(probe, masterCount, i, ret == 0)
      decreases masterCount - i
    {
      // the C condition `!ret || (flash_idx = probe_flash(...)) != NO_CHIPS` short-circuits
      var flashIdx := NO_CHIPS;
      if ret != 0 {
        flashIdx := probe(i, 0);
      }
      if ret == 0 || flashIdx != NO_CHIPS {
        if flashIdx == INTERNAL {
          ret := 1;
          break;
        }
        ret := 0;
        var secondFlashIdx := probe(i, flashIdx + 1);
        if secondFlashIdx == INTERNAL {
          ret := 1;
          break;
        }
        if secondFlashIdx != NO_CHIPS {
          ret := 3;
          break;
        }
      }
      i := i + 1;
    }
  }

  /** No chip found: 2 exactly when every master reports no chip from index 0. */
  lemma {:induction false} ProbeV1NoChips(probe: (nat, int) -> int, masterCount: nat, i: nat)
    requires i <= masterCount
    ensures ProbeV1From(probe, masterCount, i, false) == 2 <==>
      forall m :: i <= m < masterCount ==> probe(m, 0) == NO_CHIPS
    decreases masterCount - i
  {
    if i < masterCount {
      ProbeV1NoChips(probe, masterCount, i + 1);
      if probe(i, 0) != NO_CHIPS {
        ProbeV1FoundNotTwo(probe, masterCount, i + 1);
      }
    }
  }

  lemma {:induction false} ProbeV1FoundNotTwo(probe: (nat, int) -> int, masterCount: nat, i: nat)
    ensures ProbeV1From(probe, masterCount, i, true) != 2
    decreases masterCount - i
  {
    if i < masterCount {
      ProbeV1FoundNotTwo(probe, masterCount, i + 1);
    }
  }

  /** After a bound chip, success means no later master finds any chip from index 0. */
  lemma {:induction false} ProbeV1FoundExact(probe: (nat, int) -> int, masterCount: nat, i: nat)
    requires i <= masterCount
    ensures ProbeV1From(probe, masterCount, i, true) == 0 <==>
      forall m :: i <= m < masterCount ==> probe(m, 0) == NO_CHIPS
    decreases masterCount - i
  {
    if i < masterCount {
      ProbeV1FoundExact(probe, masterCount, i + 1);
    }
  }

  /**
   * Exactly one chip: the probe succeeds precisely when some master f is the first to
   * find a chip, finds no second one after it, and no later master finds any chip.
   */
  lemma {:induction false} ProbeV1Unique(probe: (nat, int) -> int, masterCount: nat, chipCount: nat, i: nat)
    requires ValidProbe(probe, chipCount) && i <= masterCount
    ensures ProbeV1From(probe, masterCount, i, false) == 0 <==> exists f :: UniqueAt(probe, masterCount, i, f)
    decreases masterCount - i
  {
    if i < masterCount {
      var idx := probe(i, 0);
      if idx == NO_CHIPS {
        ProbeV1Unique(probe, masterCount, chipCount, i + 1);
        if ProbeV1From(probe, masterCount, i, false) == 0 {
          var f :| UniqueAt(probe, masterCount, i + 1, f);
          assert UniqueAt(probe, masterCount, i, f);
        }
        if f: nat :| UniqueAt(probe, masterCount, i, f) {
          assert f != i;
          assert UniqueAt(probe, masterCount, i + 1, f);
        }
      } else if idx >= 0 {
        ProbeV1FoundExact(probe, masterCount, i + 1);
        if ProbeV1From(probe, masterCount, i, false) == 0 {
          assert UniqueAt(probe, masterCount, i, i);
        }
        if f: nat :| UniqueAt(probe, masterCount, i, f) {
          assert f == i;
        }
      } else {
        assert ProbeV1From(probe, masterCount, i, false) == 1;
        assert forall f: nat :: !UniqueAt(probe, masterCount, i, f);
      }
    }
  }

  /**
   * Master f is the only one on which probing finds a chip (every master from i up to f
   * finds none), and the probe after that chip on f finds no second one.
   */
  ghost predicate UniqueAt(probe: (nat, int) -> int, masterCount: nat, i: nat, f: nat) {
    i <= f < masterCount
    && (forall m :: i <= m < f ==> probe(m, 0) == NO_CHIPS)
    && probe(f, 0) >= 0 && probe(f, probe(f, 0) + 1) == NO_CHIPS
    && (forall m :: f < m < masterCount ==> probe(m, 0) == NO_CHIPS)
  }

  /**
   * The matches flashrom_flash_probe_v2 collects on one master, starting the search at
   * `start` with room for `room` more names, and the last probe_flash result.
   */
  function MasterMatches(probe: (nat, int) -> int, master: nat, start: int, room: nat): (r: (seq<nat>, int))
    ensures |r.0| <= room
    decreases room
  {
    if room == 0 then ([], start)
    else
      var found := probe(master, start);
      if found < 0 then ([], found)
      else
        var rest := MasterMatches(probe, master, found + 1, room - 1);
        ([found] + rest.0, rest.1)
  }

  /**
   * The chip indices matched on the first n masters, in order, capped at `cap` names, and
   * the last value of startchip.
   */
  function AllMatches(probe: (nat, int) -> int, n: nat, cap: nat): (r: (seq<nat>, int))
    ensures |r.0| <= cap
    decreases n
  {
    if n == 0 then ([], 0)
    else
      var prev := AllMatches(probe, n - 1, cap);
      var here := MasterMatches(probe, n - 1, 0, cap - |prev.0|);
      (prev.0 + here.0, here.1)
  }

  /** The result of flashrom_flash_probe_v2: -1 after an internal error, else the match count. */
  function ProbeV2Result(probe: (nat, int) -> int, masterCount: nat, cap: nat): int {
    var m := AllMatches(probe, masterCount, cap);
    if m.1 == INTERNAL then -1 else |m.0|
  }

  /**
   * flashrom_flash_probe_v2: probes every master from chip 0, collecting every match (up to
   * the size of the chip database) by restarting after each hit; returns the names and
   * the count, or -1 if the last probe of the last master ended in an internal error.
   * Only the first match is bound into the caller's context (`bound`); every later one is
   * probed into a throwaway context that is released.
   */
  method FlashProbeV2(masterCount: nat, probe: (nat, int) -> int, chipNames: seq<string>)
    returns (ret: int, matchedNames: seq<string>, bound: Option<nat>)
    requires ValidProbe(probe, |chipNames|)
    ensures var m := AllMatches(probe, masterCount, |chipNames|);
      |matchedNames| == |m.0|
      && (forall k :: 0 <= k < |m.0| ==> m.0[k] < |chipNames| && matchedNames[k] == chipNames[m.0[k]])
    ensures ret == ProbeV2Result(probe, masterCount, |chipNames|)
    ensures var m := AllMatches(probe, masterCount, |chipNames|).0;
      bound == if |m| > 0 then Some(m[0]) else None
  {
    var startchip := 0;
    var matched: seq<nat> := [];
    matchedNames := [];
    bound := None;
    var i := 0;
    while i < masterCount
      invariant 0 <= i <= masterCount
      invariant (matched, startchip) == AllMatches(probe, i, |chipNames|)
      invariant NamesOf(matched, matchedNames, chipNames)
      invariant bound == if |matched| > 0 then Some(matched[0]) else None
    {
      ghost var before := matched;
      matched, matchedNames, bound, startchip := ProbeMaster(i, probe, chipNames, matched, matchedNames, bound);
      assert AllMatches(probe, i + 1, |chipNames|)
        == (before + MasterMatches(probe, i, 0, |chipNames| - |before|).0, MasterMatches(probe, i, 0, |chipNames| - |before|).1);
      i := i + 1;
    }
    ret := if startchip == INTERNAL then -1 else |matchedNames|;
  }

  /** `names` holds the database name of each matched chip index, in order. */
  predicate NamesOf(matched: seq<nat>, names: seq<string>, chipNames: seq<string>) {
    |names| == |matched|
    && forall k :: 0 <= k < |matched| ==> matched[k] < |chipNames| && names[k] == chipNames[matched[k]]
  }

  /**
   * The inner loop of flashrom_flash_probe_v2 for master i: probes from chip 0, appending
   * each match and restarting after it, until a probe fails or the name list is full.
   * The first match overall (when nothing was matched before) is the one bound.
   */
  method ProbeMaster(i: nat, probe: (nat, int) -> int, chipNames: seq<string>,
                     matched0: seq<nat>, names0: seq<string>, bound0: Option<nat>)
    returns (matched: seq<nat>, matchedNames: seq<string>, bound: Option<nat>, startchip: int)
    requires ValidProbe(probe, |chipNames|)
    requires |matched0| <= |chipNames| && NamesOf(matched0, names0, chipNames)
    requires bound0 == if |matched0| > 0 then Some(matched0[0]) else None
    ensures var h := MasterMatches(probe, i, 0, |chipNames| - |matched0|);
      matched == matched0 + h.0 && startchip == h.1
    ensures NamesOf(matched, matchedNames, chipNames)
    ensures bound == if |matched| > 0 then Some(matched[0]) else None
  {
    matched, matchedNames, bound := matched0, names0, bound0;
    startchip := 0;
    ghost var here: seq<nat> := [];
    ghost var whole := MasterMatches(probe, i, 0, |chipNames| - |matched0|);
    assert [] + whole.0 == whole.0;
    while |matched| < |chipNames|
      invariant |matched0| <= |matched| <= |chipNames| && matched == matched0 + here
      invariant NamesOf(matched, matchedNames, chipNames)
      invariant bound == if |matched| > 0 then Some(matched[0]) else None
      invariant whole.0 == here + MasterMatches(probe, i, startchip, |chipNames| - |matched|).0
      invariant whole.1 == MasterMatches(probe, i, startchip, |chipNames| - |matched|).1
      decreases |chipNames| - |matched|
    {
      var found := probe(i, startchip);
      if found < 0 {
        assert MasterMatches(probe, i, startchip, |chipNames| - |matched|) == ([], found);
        assert here + [] == here;
        startchip := found;
        return;
      }
      startchip := found;
      if |matched| == 0 {
        bound := Some(found);
      }
      ghost var rest := MasterMatches(probe, i, found + 1, |chipNames| - |matched| - 1);
      assert here + ([found] + rest.0) == (here + [found]) + rest.0;
      matched := matched + [found];
      here := here + [found];
      matchedNames := matchedNames + [chipNames[found]];
      startchip := startchip + 1;
    }
    assert here + [] == here;
  }

  /** With a non-empty chip database, v2 matches nothing exactly when no master finds a chip at 0. */
  lemma {:induction false} ProbeV2NoMatches(probe: (nat, int) -> int, n: nat, cap: nat)
    requires cap > 0
    ensures |AllMatches(probe, n, cap).0| == 0 <==> forall m :: 0 <= m < n ==> probe(m, 0) < 0
    decreases n
  {
    if n > 0 {
      ProbeV2NoMatches(probe, n - 1, cap);
    }
  }

  /** When v1 finds no chip at all, v2 reports zero matches (and no error). */
  lemma ProbeV1NoneMeansV2None(probe: (nat, int) -> int, masterCount: nat, cap: nat)
    requires cap > 0
    requires ProbeV1From(probe, masterCount, 0, false) == 2
    ensures ProbeV2Result(probe, masterCount, cap) == 0
  {
    ProbeV1NoChips(probe, masterCount, 0);
    ProbeV2NoMatches(probe, masterCount, cap);
    if masterCount > 0 {
      assert AllMatches(probe, masterCount, cap).1 == NO_CHIPS;
    }
  }

  // ---------------------------------------------------------------------------------
  // Layout from an Intel Firmware Descriptor

  /**
   * compare_region_with_dump, as written: nonzero ("differ") unless the chip region's
   * start equals the dump region's **end**, the ends are equal, and the names are equal.
   */
  function CompareRegionWithDump(a: Region, b: Region): (r: int)
    ensures r == 0 || r == 1
    ensures a == b && a.start != a.end ==> r == 1
  {
    if a.start != b.end || a.end != b.end || a.name != b.name then 1 else 0
  }

  /** As written, a multi-byte region never matches an identical copy of itself. */
  lemma IdenticalIfdRegionsMismatch()
    ensures CompareRegionWithDump(Region(0, 0xfff, "fd"), Region(0, 0xfff, "fd")) == 1
  {
  }

  /**
   * The lockstep walk of flashrom_layout_read_from_ifd with the comparison as written:
   * true when both lists end together and every pair compared equal.
   */
  function LockstepAsWritten(a: Layout, b: Layout): (ok: bool)
    ensures ok ==> |a| == |b|
    ensures ok ==> forall k :: 0 <= k < |a| ==> a[k].region.start == b[k].region.end && a[k].region.end == b[k].region.end
    decreases |a|
  {
    if a == [] || b == [] then a == [] && b == []
    else CompareRegionWithDump(a[0].region, b[0].region) == 0 && LockstepAsWritten(a[1..], b[1..])
  }

  /** As written, a descriptor dump identical to the chip's is rejected once any region spans more than one byte. */
  lemma IdenticalDescriptorsRejected(l: Layout, k: nat)
    requires k < |l| && l[k].region.start != l[k].region.end
    ensures !LockstepAsWritten(l, l)
  {
  }

  /** The intended comparison: equal start, end and name. */
  function RegionsMatch(a: Region, b: Region): (r: bool)
    ensures r <==> a == b
  {
    a.start == b.start && a.end == b.end && a.name == b.name
  }

  /** The image passed as the reference dump. */
  datatype Dump = NoDump | UnparsableDump | DumpLayout(layout: Layout)

  /** Both layouts list the same regions in the same order. */
  predicate SameRegions(a: Layout, b: Layout) {
    |a| == |b| && forall k :: 0 <= k < |a| ==> a[k].region == b[k].region
  }

  /**
   * The lockstep walk with the intended comparison: both lists end together exactly when
   * they list the same regions in the same order.
   */
  method DumpMatchesIntended(chip: Layout, d: Layout) returns (same: bool)
    ensures same <==> SameRegions(chip, d)
  {
    var k := 0;
    while k < |chip| && k < |d| && RegionsMatch(chip[k].region, d[k].region)
      invariant 0 <= k <= |chip| && k <= |d|
      invariant forall j :: 0 <= j < k ==> chip[j].region == d[j].region
    {
      k := k + 1;
    }
    same := k == |chip| && k == |d|;
  }

  /**
   * flashrom_layout_read_from_ifd: 6 on a big-endian host, 1 if flash access cannot be
   * prepared, 2 if the descriptor cannot be read, 3 if it cannot be parsed, 4 if the dump
   * cannot be parsed, 5 if the dump's regions differ from the chip's (walking both in
   * order with compare_region_with_dump as written; a different count also differs),
   * else 0 with the chip's layout.
   */
  method LayoutReadFromIfd(littleEndian: bool, prepareOk: bool, readOk: bool,
                           chipLayout: Option<Layout>, dump: Dump)
    returns (ret: int, layout: Option<Layout>)
    ensures ret in {0, 1, 2, 3, 4, 5, 6}
    ensures layout.Some? <==> ret == 0
    ensures !littleEndian ==> ret == 6
    ensures littleEndian ==> (!prepareOk <==> ret == 1)
    ensures littleEndian && prepareOk ==> (!readOk <==> ret == 2)
    ensures littleEndian && prepareOk && readOk ==> (chipLayout.None? <==> ret == 3)
    ensures littleEndian && prepareOk && readOk && chipLayout.Some? ==>
      match dump
      case NoDump => ret == 0
      case UnparsableDump => ret == 4
      case DumpLayout(d) => (ret == 0 <==> LockstepAsWritten(chipLayout.value, d)) && (ret != 0 ==> ret == 5)
    ensures ret == 0 ==> layout == chipLayout
  {
    if !littleEndian {
      return 6, None;
    }
    if !prepareOk {
      return 1, None;
    }
    if !readOk {
      return 2, None;
    }
    if chipLayout.None? {
      return 3, None;
    }
    var chip := chipLayout.value;
    if dump.UnparsableDump? {
      return 4, None;
    }
    if dump.DumpLayout? {
      var d := dump.layout;
      var k := 0;
      while k < |chip| && k < |d| && CompareRegionWithDump(chip[k].region, d[k].region) == 0
        invariant 0 <= k <= |chip| && k <= |d|
        invariant LockstepAsWritten(chip, d) == LockstepAsWritten(chip[k..], d[k..])
      {
        assert chip[k..][1..] == chip[k + 1..] && d[k..][1..] == d[k + 1..];
        k := k + 1;
      }
      if k < |chip| || k < |d| {
        return 5, None;
      }
    }
    return 0, chipLayout;
  }

  // ---------------------------------------------------------------------------------
  // Layout from an fmap

  /** FMAP_STRLEN: the longest area name a layout region keeps. */
  const FMAP_STRLEN: nat := 32

  /** struct fmap_area: 32-bit offset and size, and its name. */
  datatype FmapArea = FmapArea(offset: nat, size: nat, name: string)

  /** The layout entry an fmap area becomes: end computed in 32-bit arithmetic, name cut to 32. */
  function FmapEntry(a: FmapArea): (e: RomEntry)
    requires a.size > 0
    ensures e.region.start == a.offset && |e.region.name| <= FMAP_STRLEN
    ensures !e.included && e.file.None?
    ensures a.offset + a.size <= U32_LIMIT ==> e.region.start <= e.region.end && RegionSize(e.region) == a.size
  {
    var name := if |a.name| <= FMAP_STRLEN then a.name else a.name[..FMAP_STRLEN];
    RomEntry(Region(a.offset, (a.offset + a.size - 1) % U32_LIMIT, name), false, None)
  }

  /** The layout flashrom_layout_parse_fmap builds: the non-empty areas, in fmap order. */
  function FmapLayout(areas: seq<FmapArea>): Layout
    decreases |areas|
  {
    if areas == [] then []
    else
      var a := areas[|areas| - 1];
      FmapLayout(areas[..|areas| - 1]) + (if a.size == 0 then [] else [FmapEntry(a)])
  }

  function CountNonEmpty(areas: seq<FmapArea>): nat
    decreases |areas|
  {
    if areas == [] then 0
    else CountNonEmpty(areas[..|areas| - 1]) + (if areas[|areas| - 1].size == 0 then 0 else 1)
  }

  /**
   * The fmap layout has one entry per non-empty area, none included, each a 32-character
   * name at most, and each non-wrapping area's region spans exactly its size.
   */
  lemma {:induction false} FmapLayoutShape(areas: seq<FmapArea>)
    ensures |FmapLayout(areas)| == CountNonEmpty(areas)
    ensures forall k :: 0 <= k < |FmapLayout(areas)| ==>
      !FmapLayout(areas)[k].included && |FmapLayout(areas)[k].region.name| <= FMAP_STRLEN
    ensures (forall j :: 0 <= j < |areas| ==> areas[j].offset + areas[j].size <= U32_LIMIT) ==>
      forall k :: 0 <= k < |FmapLayout(areas)| ==>
        FmapLayout(areas)[k].region.start <= FmapLayout(areas)[k].region.end
    decreases |areas|
  {
    if areas != [] {
      var init := areas[..|areas| - 1];
      assert forall j :: 0 <= j < |init| ==> init[j] == areas[j];
      FmapLayoutShape(init);
    }
  }

  /**
   * flashrom_layout_parse_fmap: 1 without an fmap, when a new layout cannot be made, or
   * when adding a region fails (area index k, addOk(k) false); else 0 with FmapLayout.
   * Zero-size areas are skipped.
   */
  method LayoutParseFmap(fmap: Option<seq<FmapArea>>, newOk: bool, addOk: nat -> bool)
    returns (ret: int, layout: Option<Layout>)
    ensures ret == 0 || ret == 1
    ensures layout.Some? <==> ret == 0
    ensures ret == 0 <==> fmap.Some? && newOk && forall k :: 0 <= k < |fmap.value| && fmap.value[k].size > 0 ==> addOk(k)
    ensures ret == 0 ==> layout == Some(FmapLayout(fmap.value))
  {
    if fmap.None? || !newOk {
      return 1, None;
    }
    var areas := fmap.value;
    var l: Layout := [];
    var i := 0;
    while i < |areas|
      invariant 0 <= i <= |areas|
      invariant l == FmapLayout(areas[..i])
      invariant forall k :: 0 <= k < i && areas[k].size > 0 ==> addOk(k)
    {
      assert areas[..i + 1][..i] == areas[..i];
      var area := areas[i];
      if area.size != 0 {
        if !addOk(i) {
          return 1, None;
        }
        l := l + [FmapEntry(area)];
      }
      i := i + 1;
    }
    assert areas[..i] == areas;
    return 0, Some(l);
  }

  // ---------------------------------------------------------------------------------
  // Write-protect configuration objects

  datatype WpMode = WpModeDisabled | WpModeHardware | WpModePowerCycle | WpModePermanent

  /** enum flashrom_wp_result. */
  datatype WpResult =
    | WpOk | WpErrChipUnsupported | WpErrOther | WpErrReadFailed | WpErrWriteFailed
    | WpErrVerifyFailed | WpErrModeUnsupported | WpErrRangeUnsupported
    | WpErrRangeListUnavailable | WpErrUnsupportedState

  datatype WpRange = WpRange(start: nat, len: nat)

  /** struct flashrom_wp_ranges: the protection ranges the chip offers. */
  datatype WpRanges = WpRanges(ranges: seq<WpRange>)

  /** struct flashrom_wp_cfg: a transient read/modify/write buffer. */
  class WpCfg {
    var mode: WpMode
    var start: nat
    var len: nat

    /** The zero-filled configuration calloc returns. */
    constructor ()
      ensures mode == WpModeDisabled && start == 0 && len == 0
    {
      mode, start, len := WpModeDisabled, 0, 0;
    }

    /** flashrom_wp_set_mode. */
    method SetMode(m: WpMode)
      modifies this
      ensures mode == m && start == old(start) && len == old(len)
    {
      mode := m;
    }

    /** flashrom_wp_get_mode. */
    method GetMode() returns (m: WpMode)
      ensures m == mode
    {
      m := mode;
    }

    /** flashrom_wp_set_range. */
    method SetRange(s: nat, l: nat)
      modifies this
      ensures start == s && len == l && mode == old(mode)
    {
      start, len := s, l;
    }

    /** flashrom_wp_get_range. */
    method GetRange() returns (s: nat, l: nat)
      ensures s == start && l == len
    {
      s, l := start, len;
    }
  }

  /** flashrom_wp_cfg_new: a fresh zeroed configuration, or WpErrOther when calloc fails. */
  method WpCfgNew(allocOk: bool) returns (res: WpResult, cfg: WpCfg?)
    ensures allocOk ==> res == WpOk && cfg != null && fresh(cfg)
    ensures allocOk ==> cfg != null && cfg.mode == WpModeDisabled && cfg.start == 0 && cfg.len == 0
    ensures !allocOk ==> res == WpErrOther && cfg == null
  {
    if !allocOk {
      return WpErrOther, null;
    }
    cfg := new WpCfg();
    res := WpOk;
  }

  /** flashrom_wp_ranges_get_count. */
  function WpRangesGetCount(list: WpRanges): (n: nat)
    ensures n == |list.ranges|
  {
    |list.ranges|
  }

  /**
   * flashrom_wp_ranges_get_range: the range at `index`, or WpErrOther (and no range) when
   * the index is not below the count.
   */
  function WpRangesGetRange(list: WpRanges, index: nat): (r: (WpResult, Option<WpRange>))
    ensures r.0 == WpOk <==> index < WpRangesGetCount(list)
    ensures r.0 != WpOk ==> r.0 == WpErrOther && r.1.None?
    ensures r.0 == WpOk ==> r.1 == Some(list.ranges[index])
  {
    if index >= |list.ranges| then (WpErrOther, None) else (WpOk, Some(list.ranges[index]))
  }
}
