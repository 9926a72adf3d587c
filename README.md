# flashrom command-line core, modelled in Dafny

This project models the part of flashrom that runs around the chip itself. It covers
three source files.

- **The classic command-line front end** (`cli_classic.c`). This includes:
  - the option switch of `parse_options`, with its abort rules;
  - the file-name, single-operation and write-protect guards of `main`;
  - the `--wp-range` validator;
  - the write-protect commands (`wp_cli`: list the ranges, read-modify-write the configuration, show the status);
  - the human-readable range description of `print_wp_range`;
  - the assembly of chip-sized image buffers from a whole-chip file and `-i <region>:<file>` include files, in `do_read`, `do_extract`, `do_write` and `do_verify`;
  - the count of buses whose decode limit is too small for the chip.
- **The library layer** (`libflashrom.c`). This includes:
  - the flash context, with its six operation flags and its per-stage progress counters;
  - the rule that only one progress callback can be registered;
  - chip probing across all programmer masters, in both API versions;
  - layouts read from an Intel flash descriptor (with an optional dump to compare against) or from an fmap;
  - the write-protect configuration and range-list accessors.
- **musl's getopt** (`cli_getopt.c`). It implements the `getopt()` interface of POSIX.1-2017 (System Interfaces) and the Utility Syntax Guidelines in section 12.2 of POSIX.1-2017 (Base Definitions). It adds the GNU-style extensions: `getopt_long` and `getopt_long_only`, with their permutation of non-option arguments.

## Modules

Each module is one `.dfy` file.

- **`Common`**: `Option`, the C widths `uint32_t` (`U32_LIMIT`) and `size_t` (`SIZE_LIMIT`), and C strings held as Dafny strings (no NUL inside, read as NUL past the end).
- **`Layout`**: a layout is a sequence of entries. Each entry has a closed byte range `[start, end]`, a name, an "included" mark and an optional include file.
- **`Format`**: the `%zu` and `%08zx` renderings, with their round trips.
- **`LibFlashrom`**:
  - the flash context (`FlashContext`, a class with the fields the library updates);
  - `WpCfg` (a class);
  - probing, IFD, fmap and range-list functions.
- **`CliWp`**: `get_wp_error_str`, `print_wp_range` (a method with the halving loop) and `wp_cli`, split into its three parts.
- **`CliImage`**: the include-file overlay and extraction, plus `do_read`, `do_extract`, `do_write` and `do_verify`. Buffers are `array<bv8>`.
- **`CliOptions`**: `check_filename`, `parse_wp_range`, `cli_classic_validate_singleop`, the `parse_options` switch, the guards of `main`, the sacrifice-ratio clamp and `count_max_decode_exceedings`.
- **`CliGetopt`**:
  - the four cursors (`optind`, `optpos`, `optarg`, `optopt`) are the fields of class `OptState`;
  - `getopt` and the short path take argv as a sequence;
  - `__getopt_long` takes argv as an `array`, because `permute` rotates it in place.
  - Each method is proved against a specification function (`GetoptSpec`, `CoreSpec`, `GetoptLongSpec`), and the lemmas state what those functions mean.

### Parameters of the model

The model replaces hardware, files and foreign code with parameters:
- `probe_flash` is a function `probe(master, startchip)`. It returns a chip index, `NO_CHIPS` (-1) or `INTERNAL` (-2).
- Reading a whole descriptor, an fmap or a layout file is given as its outcome.
- The chip write-protect backend is a record holding:
  - the range list;
  - the two configuration reads;
  - the write, as a function of the configuration written.
- The file system is a map from names to contents. A read of `size` bytes succeeds exactly when the file holds that many bytes. Writes fail exactly for a given set of names.
- `flashrom_image_read`, `_write` and `_verify` are parameters.
- Allocation outcomes are booleans.
- `strtoul`, programmer-table lookup and `register_include_arg` are functions in `CliOptions.Env`.
- Messages are modelled only where the source promises their text: `wp_cli`'s lines, and the label `print_wp_range` prints.

### Quirks modelled as written

- **`--fmap-verify` check** (`cli_classic.c:879`): it only sees a `-r` or `-v` given earlier. `CliOptions.FmapVerifyOrderDependent` shows that the later order passes.
- **`--ifd` twice**: accepted, because the `--ifd` case does not test `ifd` (`CliOptions.IfdTwiceAccepted`).
- **Negative read result** (`cli_classic.c:640`): `do_read` treats only a positive result from the read primitive as failure. A negative result goes on to write the files and is returned when no whole-chip file is given.
- **Probe v2 error report** (`libflashrom.c:411`): `flashrom_flash_probe_v2` reports -1 only when the last probe call returned the internal error. An internal error on an earlier master is forgotten.
- **Uninitialised buffer in `do_write`/`do_verify`**: `malloc` leaves the buffer uninitialised. With no `-w`/`-v` file, the bytes outside include regions are an arbitrary `junk` parameter.
- **Probe v1 after a match**: once a chip is bound, `flash_idx` stays at -1 on later masters. Their "second match" probe therefore starts at chip 0, and any chip found there gives 3.
- **Unsigned widths**:
  - `print_wp_range` computes `chip_len - len` in `size_t`;
  - `flashrom_flash_getsize` and `count_max_decode_exceedings` compute `total_size * 1024` in 32 bits;
  - fmap region ends are computed in 32 bits.
- **Descriptor dump comparison** (`libflashrom.c:460`): `compare_region_with_dump` compares the chip region's start with the dump region's end, so `flashrom_layout_read_from_ifd` rejects an identical dump once a region spans more than one byte (see "## Findings").
- **Mode after a failed read**: when the configuration cannot be read, the mode used to choose the verification note stays "disabled".

## Model

| member | source | states |
|---|---|---|
| `Format.NumeralRoundTrip` | cli_classic.c:263 | parsing the `%zu`/`%x` digits of n gives back n |
| `Format.Hex08RoundTrip` | cli_classic.c:240 | the `%08zx` rendering has at least eight digits and parses back to n |
| `Format.DecimalRoundTrip` | cli_classic.c:263 | the `%zu` rendering parses back to n |
| `Format.ZeroPad` | cli_classic.c:240 | zero padding keeps the digits at the end, with only '0's before them, up to the width |
| `CliWp.GetWpErrorStr` | cli_classic.c:269-290 | the explanation of each write-protect result, one text per error case and "unknown WP error" otherwise; what the texts promise is stated by the two lemmas below |
| `CliWp.UnknownWpErrorStr` | cli_classic.c:269-290 | "unknown WP error" exactly for OK and the generic error, the results without a case of their own |
| `CliWp.WpErrorStrIdentifies` | cli_classic.c:269-290 | every error result has its own text: each message maps back to the error that produced it |
| `CliWp.AccessErrorsIdentified` | cli_classic.c:272-279 | the texts of the unsupported-chip, read, write and verify errors map back to those errors |
| `CliWp.SettingErrorsIdentified` | cli_classic.c:280-283 | the texts of the unsupported mode and unsupported range errors map back to those errors |
| `CliWp.StateErrorsIdentified` | cli_classic.c:284-287 | the texts of the unavailable range list and unsupported state errors map back to those errors |
| `CliWp.OtherErrorIdentified` | cli_classic.c:269-290 | "unknown WP error" maps back to the generic error |
| `CliWp.Reduce` | cli_classic.c:256-261 | the numerator is positive and, once reduced, not both parts are even |
| `CliWp.DescribeWpRange` | cli_classic.c:245-262 | "(none)" exactly for an empty range, "(all)" exactly for a non-empty range as long as the chip, otherwise a fraction with a positive numerator |
| `CliWp.DescribeWpRangeRatio` | cli_classic.c:249-263 | a partial range's fraction equals len/chip_len and is not reducible by 2 |
| `CliWp.DescribeWpRangeLocation` | cli_classic.c:250-254 | for a range inside the chip: "upper" iff it ends at the chip end, "lower" iff it starts at 0 and does not end there |
| `CliWp.NoneAndAllLabels` | cli_classic.c:245-248 | an empty range is "(none)"; a non-empty range the size of the chip is "(all)" |
| `CliWp.ReduceScales` | cli_classic.c:258-261 | the reduced fraction times 2^halvings gives back both the length and the chip size |
| `CliWp.ReducePowersOfTwo` | cli_classic.c:258-261 | 2^j bytes of a 2^(j+m)-byte chip reduce to 1/2^m after j halvings |
| `CliWp.LowerEighthExample` | cli_classic.c:249-263 | the range (0, 0x20000) of a 1 MiB chip is the lower 1/8 |
| `CliWp.LowerEighthText` | cli_classic.c:263 | that label prints as "(lower 1/8)" |
| `CliWp.PrintWpRange` | cli_classic.c:237-267 | the halving loop produces the range text: hex start and length, then the label whose fraction is the reduced len/chip_len |
| `CliWp.WpNote` | cli_classic.c:357-376 | at most one error line, and none exactly when the mode read before the change was DISABLED |
| `CliWp.WpNoteGuidance` | cli_classic.c:357-376 | HARDWARE gives the WP# pin note, POWER_CYCLE the power-cycle note, PERMANENT the "cannot be modified" note, DISABLED none |
| `CliWp.PermanentNoteHasNoPinGuidance` | cli_classic.c:369-372 | the permanent-mode note does not mention the WP# pin |
| `CliWp.NewWpConfig` | cli_classic.c:338-345 | the final mode is HARDWARE if enable, else DISABLED if disable, else the mode read; the range is replaced only when requested |
| `CliWp.ReadModifyWrite` | cli_classic.c:325-350 | writes iff allocation and read succeed, and then writes the read configuration mutated as requested; the result, the mode kept for the note (DISABLED without a read) and the order of calls: new, read, range, disable, enable, write, release |
| `CliWp.ApplyWpSettings` | cli_classic.c:325-392 | returns 1 exactly when the change fails; the error message, plus the note for the pre-change mode on a verification failure; otherwise the success messages |
| `CliWp.RangeListMessages` | cli_classic.c:313-320 | one line per available range |
| `CliWp.ListWpRanges` | cli_classic.c:302-323 | the error when the list is unavailable, else the header and every range in order |
| `CliWp.ShowWpStatus` | cli_classic.c:394-438 | 0 iff allocation and read succeed, then the range text and mode name read; otherwise the error line; the calls begin with new and end with release |
| `CliWp.WpCli` | cli_classic.c:292-441 | 0 iff the requested listing, change (allocation, read and write of the mutated configuration) and status read all succeed; a failed listing writes nothing; no write without a change request; nothing requested gives 0 and no output |
| `CliImage.Overlay` | cli_classic.c:572-579 | the include overlay keeps the buffer length |
| `CliImage.OverlayOutside` | cli_classic.c:572-579 | a byte outside every included file region keeps its value |
| `CliImage.OverlayInside` | cli_classic.c:572-579 | without overlaps, a byte inside an included region holds that file's byte at the same offset |
| `CliImage.OverlapOfPrefix` | cli_classic.c:567 | an overlap among the first entries is an overlap of the layout |
| `CliImage.ReadBufFromIncludeArgs` | cli_classic.c:559-581 | overlap: returns 1 with the buffer untouched; returns 0 iff no overlap and every include file is readable, and the buffer is then the overlay |
| `CliImage.IncludeFileWritesPrefix` | cli_classic.c:599-606 | the files of a layout prefix are a prefix of the layout's files |
| `CliImage.WriteBufToIncludeArgs` | cli_classic.c:595-609 | returns 0 iff every include file can be written, then exactly those files in layout order; else it stops at the first failure |
| `CliImage.DoRead` | cli_classic.c:628-653 | allocation failure is 1; a positive read result is returned with no file written; otherwise the include files first, then the whole-chip file |
| `CliImage.PrepareLayoutForExtraction` | cli_classic.c:657 | the same regions in the same order, every one included and with a file, a file the entry already names being kept |
| `CliImage.DoExtract` | cli_classic.c:655-659 | a read of the prepared layout with no whole-chip file: one file per region |
| `CliImage.ExtractedFilesTileImage` | cli_classic.c:655-659 | for a contiguous layout covering the chip, the extracted files laid end to end are the image |
| `CliImage.ContiguousFilesConcat` | cli_classic.c:655-659 | when every entry of a contiguous layout has a file, the files written concatenate to the image up to the last entry's end |
| `CliImage.DoWrite` | cli_classic.c:661-697 | the write primitive runs iff allocation, the `-w` file, the include files and the reference file all succeed; the new image is the assembled buffer; the reference is passed iff given |
| `CliImage.DoVerify` | cli_classic.c:699-727 | the verify primitive runs iff allocation, the `-v` file and the include files succeed, on the assembled buffer |
| `CliImage.AssembledImageLayout` | cli_classic.c:674-684 | the assembled image holds each include file inside its region and the operation file (or the uninitialised bytes) elsewhere |
| `CliOptions.CheckFilename` | cli_classic.c:192-202 | error iff the name is missing or empty; warning iff it has two or more characters and starts with '-' |
| `CliOptions.FindFirst` | cli_classic.c:223 | strchr: the first index of the character, or none |
| `CliOptions.FindLast` | cli_classic.c:223 | strrchr: the last index of the character, or none |
| `CliOptions.WpRangeFormat` | cli_classic.c:223-226 | the strchr/strrchr test accepts exactly the strings with one comma, neither first nor last |
| `CliOptions.ParseWpRange` | cli_classic.c:214-235 | 0 iff the argument is present with exactly one comma, neither first nor last; on -1 start and len are unchanged; on 0 start is parsed from the string and len from after the comma, both cut to 32 bits |
| `CliOptions.WpRangeExamples` | cli_classic.c:218-229 | "1,2" accepted; ",2", "1,", "1,2,3" and a missing argument refused |
| `CliOptions.SingleOp` | cli_classic.c:185-190 | the first operation counts; a second one aborts |
| `CliOptions.StoppedStays` | cli_classic.c:784-1031 | once an option aborts, later options change nothing |
| `CliOptions.ParseOptions` | cli_classic.c:773-1035 | the loop's result is the token-by-token scan, and a leftover argument aborts |
| `CliOptions.Step` | cli_classic.c:786-1030 | one pass through the switch for one token; its invariants are stated by the StepConsistent lemmas below |
| `CliOptions.ScanTokens` | cli_classic.c:784-1031 | the loop over the tokens, stopping at the first abort or exit; its invariants are stated by ScanConsistent and NeverStopsParsed |
| `CliOptions.StepConsistent` | cli_classic.c:786-1030 | one pass through the switch keeps at most one operation, at most one layout source, not both verify and noverify, and --fmap-file and --fmap-verify only together with --fmap |
| `CliOptions.OperationStepConsistent` | cli_classic.c:787-830 | the operation cases keep the scan consistent |
| `CliOptions.ImageOperationStepConsistent` | cli_classic.c:787-818 | the read, write, verify and noverify cases keep the scan consistent |
| `CliOptions.WpStepConsistent` | cli_classic.c:902-927 | the write-protect options keep the scan consistent |
| `CliOptions.SettingStepConsistent` | cli_classic.c:928-1026 | the remaining options keep the scan consistent |
| `CliOptions.LayoutStepConsistent` | cli_classic.c:834-883 | the layout-source cases keep the scan consistent |
| `CliOptions.OtherStepConsistent` | cli_classic.c:884-1030 | the remaining cases keep the scan consistent |
| `CliOptions.ScanConsistent` | cli_classic.c:784-1031 | every state the scan passes through is consistent |
| `CliOptions.NeverStopsParsed` | cli_classic.c:784-1031 | a scan that stopped early never carries parsed options: every early stop is an exit or an error |
| `CliOptions.ParsedOptionsConsistent` | cli_classic.c:773-1035 | parsed options have at most one operation, at most one layout source, not both verify and noverify, --fmap-file and --fmap-verify only together with --fmap, and no empty log file name |
| `CliOptions.SecondOperationAborts` | cli_classic.c:185-190 | any second operation aborts the scan |
| `CliOptions.SecondLayoutSourceAborts` | cli_classic.c:834-883 | a second layout source aborts, except `--ifd` after `--ifd` |
| `CliOptions.IfdTwiceAccepted` | cli_classic.c:843-849 | `--ifd --ifd` parses, with ifd set |
| `CliOptions.VerifyNoVerifyExclusive` | cli_classic.c:797-811 | `-v` with `-n` aborts in either order |
| `CliOptions.FmapVerifyOrderDependent` | cli_classic.c:871-883 | `-r` then `--fmap-verify` aborts; `--fmap-verify` then `-r` parses |
| `CliOptions.BadWpRangeAborts` | cli_classic.c:908-913 | a `--wp-range` argument that is not `<start>,<len>` aborts |
| `CliOptions.FileNamesOk` | cli_classic.c:1131-1140 | passes iff no given image, layout, fmap, reference or log file name is empty |
| `CliOptions.OperationGuards` | cli_classic.c:1328-1397 | nothing to do iff no operation; enable with disable rejected; range with region rejected; proceeds iff none of these and a read, write or verify without an image file has `-i` arguments, all with file names |
| `CliOptions.IncludeArgsHaveFiles` | cli_classic.c:1393-1396 | true iff every `-i` argument names a file |
| `CliOptions.SacrificeRatio` | cli_classic.c:1415-1421 | the ratio is kept when in 0..50 and otherwise becomes 0 |
| `CliOptions.CountMaxDecodeExceedings` | cli_classic.c:731-771 | the count is the number of buses shared by master and chip whose decode limit is below the 32-bit chip size, and at most 4 |
| `CliOptions.SomeBusFits` | cli_classic.c:1300-1309 | the count never exceeds the shared buses; when it is smaller, some shared bus fits the chip |
| `CliOptions.ChipBytesWraps` | cli_classic.c:735 | a 4 GiB chip wraps to size 0 and exceeds no limit |
| `LibFlashrom.AdvanceStage` | libflashrom.c:171-175 | current grows by the increment modulo size_t; total is raised to current when exceeded, so current <= total; without wrap-around neither value moves backwards |
| `LibFlashrom.ProgressMonotonic` | libflashrom.c:164-191 | without wrap-around, repeated updates advance current by the sum of the increments, never lower total, and keep current <= total |
| `LibFlashrom.FlashContext.FlagGet` | libflashrom.c:445-456 | the current value of each flag; with FlagSet it gives the set/get round trip |
| `LibFlashrom.FlashContext.FlagSet` | libflashrom.c:432-443 | a known flag reads back as the value; every other flag and every other field is unchanged |
| `LibFlashrom.FlashContext.SetProgressCallback` | libflashrom.c:118-135 | ignored when a v2 callback is set; otherwise the deprecated callback and its state are registered and progress_state is the state's copy; the v2 callback is unchanged |
| `LibFlashrom.FlashContext.SetProgressCallbackV2` | libflashrom.c:137-149 | ignored when a deprecated callback is set; otherwise the v2 callback and the user data are registered; the deprecated side is unchanged |
| `LibFlashrom.FlashContext.UpdateProgress` | libflashrom.c:164-191 | without a callback nothing changes; otherwise the stage advances as AdvanceStage says, progress_state mirrors it, one report goes to the v2 callback if set, else to the deprecated one, whose state receives progress_state |
| `LibFlashrom.FlashContext.InitProgress` | libflashrom.c:151-162 | without a callback nothing changes; otherwise the stage becomes (0, total), progress_state and one report show it, and the deprecated state mirrors progress_state exactly when the deprecated callback is the one set |
| `LibFlashrom.FlashGetsize` | libflashrom.c:417-420 | total_size * 1024 in 32 bits: exact below 4 GiB, always a multiple of 1024 |
| `LibFlashrom.GetsizeWrapsAt4GiB` | libflashrom.c:419 | a 4 GiB chip reports 0 |
| `LibFlashrom.ProbeV1From` | libflashrom.c:345-368 | the value of the master-by-master loop is one of 0, 1, 2, 3 |
| `LibFlashrom.FlashProbe` | libflashrom.c:333-374 | allocation failure is 1; otherwise the value of the master-by-master loop |
| `LibFlashrom.ProbeV1NoChips` | libflashrom.c:345-368 | 2 iff every master reports no chip |
| `LibFlashrom.ProbeV1FoundNotTwo` | libflashrom.c:347-353 | once a chip is bound, the result is never 2 ("no chip") |
| `LibFlashrom.ProbeV1FoundExact` | libflashrom.c:347-366 | after a chip is bound, the later masters are probed from chip 0 (flash_idx stays -1), and success iff none of them finds a chip |
| `LibFlashrom.ProbeV1Unique` | libflashrom.c:333-374 | success iff exactly one master finds a chip, the probe after that chip on the same master finds none, and no master after it finds one |
| `LibFlashrom.MasterMatches` | libflashrom.c:387-404 | one master's matches fit in the remaining room |
| `LibFlashrom.AllMatches` | libflashrom.c:385-405 | the matches never exceed the chip database size |
| `LibFlashrom.FlashProbeV2` | libflashrom.c:376-414 | the k-th matched name is the database entry of the k-th match, in master and start order; only the first match is bound into the caller's context; the result is -1 when the final probe was an internal error, else the match count |
| `LibFlashrom.ProbeMaster` | libflashrom.c:386-404 | one master's matches are appended, from chip 0, in probe order until a probe fails or the list is full, and the final startchip is that of the same walk in `MasterMatches`; the bound chip is the first match overall |
| `LibFlashrom.ProbeV2NoMatches` | libflashrom.c:385-405 | no match iff every master's probe from chip 0 fails |
| `LibFlashrom.ProbeV1NoneMeansV2None` | libflashrom.c:376-414 | when v1 finds no chip, v2 returns 0 |
| `LibFlashrom.CompareRegionWithDump` | libflashrom.c:458-465 | as written: an identical region spanning more than one byte compares unequal |
| `LibFlashrom.IdenticalIfdRegionsMismatch` | libflashrom.c:460 | as written: the region [0, 0xfff] differs from itself |
| `LibFlashrom.LockstepAsWritten` | libflashrom.c:502-513 | as written: the walk succeeds only for lists of equal length in which each chip region's start and end both equal the dump region's end |
| `LibFlashrom.IdenticalDescriptorsRejected` | libflashrom.c:502-513 | as written: a dump identical to the chip descriptor is rejected as soon as one region spans more than one byte |
| `LibFlashrom.RegionsMatch` | libflashrom.c:458-465 | the intended comparison: equal iff start, end and name are equal |
| `LibFlashrom.DumpMatchesIntended` | libflashrom.c:504-511 | the same walk with the intended comparison accepts exactly when both lists have the same regions in the same order |
| `LibFlashrom.LayoutReadFromIfd` | libflashrom.c:467-527 | 6 on a big-endian host, 1, 2 and 3 for a failed prepare, read and parse; no dump gives 0; an unparsable dump 4; with a dump, 0 iff the walk with the comparison as written passes every pair and both lists end together, else 5; the layout is the chip layout, set only on 0 |
| `LibFlashrom.FmapEntry` | libflashrom.c:552-553 | an area becomes an excluded entry without a file starting at the offset, with a name of at most 32 characters; without 32-bit overflow it ends at offset + size - 1, so it spans size bytes |
| `LibFlashrom.FmapLayout` | libflashrom.c:541-557 | the entries added for the fmap areas in order, skipping empty ones; its shape is stated by FmapLayoutShape |
| `LibFlashrom.FmapLayoutShape` | libflashrom.c:541-557 | one entry per non-empty area, each excluded with a name of at most 32 characters; without 32-bit overflow every entry has start <= end |
| `LibFlashrom.LayoutParseFmap` | libflashrom.c:530-560 | 0 iff an fmap is given, the layout can be created and every non-empty area can be added; the layout (one entry per non-empty area) is set only then |
| `LibFlashrom.WpCfg.constructor` | libflashrom.c:627-631 | a zero-filled configuration |
| `LibFlashrom.WpCfg.SetMode` | libflashrom.c:638-641 | sets the mode, keeps the range |
| `LibFlashrom.WpCfg.GetMode` | libflashrom.c:643-646 | returns the mode |
| `LibFlashrom.WpCfg.SetRange` | libflashrom.c:648-652 | sets the range, keeps the mode |
| `LibFlashrom.WpCfg.GetRange` | libflashrom.c:654-658 | returns the range |
| `LibFlashrom.WpCfgNew` | libflashrom.c:627-631 | a fresh zeroed configuration, or WpErrOther when allocation fails |
| `LibFlashrom.WpRangesGetCount` | libflashrom.c:693-696 | the number of ranges |
| `LibFlashrom.WpRangesGetRange` | libflashrom.c:698-707 | OK iff the index is within the count, with that range; otherwise WpErrOther and no output |
| `CliGetopt.Reset` | cli_getopt.c:52-55 | optind 0 restarts the scan at 1, any other value is kept |
| `CliGetopt.FirstOrEnd` | cli_getopt.c:93-96 | the first occurrence of the character, or the end |
| `CliGetopt.GetoptSpec` | cli_getopt.c:45-121 | optind never goes below its reset value, and stays within argc + 1 when it started within argc |
| `CliGetopt.ArgumentSpec` | cli_getopt.c:104-118 | an argument option moves optind forward, at most to argc + 1 |
| `CliGetopt.ShortSpec` | cli_getopt.c:74-120 | a short option moves optind forward, at most to argc + 1 |
| `CliGetopt.ScanOptstring` | cli_getopt.c:91-96 | the do-while loop stops just past the first occurrence of c, or past the terminator |
| `CliGetopt.GetoptEnd` | cli_getopt.c:57-72 | -1 exactly at the end of the options: optind at argc, a NULL, a non-option without '-' mode, "-", or "--" (which alone advances optind) |
| `CliGetopt.ShortSpecReturns` | cli_getopt.c:98-120 | the result is '?', ':' or the option character |
| `CliGetopt.ShortKindDeclared` | cli_getopt.c:93-104 | the first occurrence in optstring decides the argument kind |
| `CliGetopt.ShortOptionMeaning` | cli_getopt.c:81-118 | an undeclared character gives '?' with optopt; a no-argument option returns it and moves to the next character, or to the next element at the end of this one; a required argument is the rest of the element or the next element, else ':'/'?' with optopt; an optional argument only when attached; every argument case ends at the start of an element |
| `CliGetopt.Key` | cli_getopt.c:138-140 | the name part of the element is a prefix of its body |
| `CliGetopt.LongScan` | cli_getopt.c:134-148 | a match found is an entry the key abbreviates |
| `CliGetopt.LongScanFirst` | cli_getopt.c:134-146 | an exact name stops the scan at its first entry with count 1 |
| `CliGetopt.LongScanCount` | cli_getopt.c:134-148 | without an exact name the count is the number of entries the key abbreviates |
| `CliGetopt.LookupMeaning` | cli_getopt.c:134-148 | exact match wins; otherwise the count of prefix matches, 1 meaning a unique abbreviation |
| `CliGetopt.Looked` | cli_getopt.c:149-159 | with count 1 the entry is one the key abbreviates |
| `CliGetopt.LongMatchSpec` | cli_getopt.c:160-196 | a matched entry always advances optind, at most to argc + 1 |
| `CliGetopt.CoreSpec` | cli_getopt.c:123-210 | optind never goes back and stays within argc + 1 |
| `CliGetopt.LongOptionOutcome` | cli_getopt.c:134-207 | unknown or ambiguous "--name" gives '?', optopt 0 and advances; a match returns val with the "=value" or the next element as a required argument |
| `CliGetopt.LongArgumentErrors` | cli_getopt.c:164-186 | "=value" on a no-argument entry gives '?'; a missing required argument gives ':' or '?'; both set optopt to val |
| `CliGetopt.NextOption` | cli_getopt.c:234-240 | the first option-like element, everything skipped being a non-option |
| `CliGetopt.Resumed` | cli_getopt.c:230-243 | where the core resumes lies in [optind, argc) |
| `CliGetopt.Rotate` | cli_getopt.c:212-220 | permute keeps argv's length |
| `CliGetopt.RotateMeaning` | cli_getopt.c:212-220 | argv[src] ends at dest, each element in [dest, src) moves up one, the rest are unchanged: a permutation |
| `CliGetopt.Moved` | cli_getopt.c:245-250 | the permuted argv has the same length |
| `CliGetopt.MovedAt` | cli_getopt.c:245-250 | the element at each index after moving consumed elements before the skipped ones |
| `CliGetopt.RotateAt` | cli_getopt.c:212-220 | the element at each index after one element is rotated back to the destination |
| `CliGetopt.RotateMoved` | cli_getopt.c:247-248 | one more permute moves one more consumed element before the skipped ones |
| `CliGetopt.MovedPermutes` | cli_getopt.c:245-250 | moving the consumed elements only reorders argv |
| `CliGetopt.MovedLayout` | cli_getopt.c:245-250 | the consumed elements come first and the skipped ones follow, each keeping its order |
| `CliGetopt.GetoptLongSpec` | cli_getopt.c:222-252 | argv keeps its length |
| `CliGetopt.GetoptLongPermutes` | cli_getopt.c:232-251 | argv is a permutation; the skipped non-options sit right after the new optind, in their order |
| `CliGetopt.CompareName` | cli_getopt.c:136-140 | stops at '=' or the end exactly when the key is a prefix of the name, and then at the end of the key |
| `CliGetopt.LookupLong` | cli_getopt.c:134-148 | the scanning loop computes the table scan; on a match the argument position is the key's end |
| `CliGetopt.FindInOptstring` | cli_getopt.c:151-158 | true iff the name occurs in optstring |
| `CliGetopt.LookupElement` | cli_getopt.c:131-159 | computes the lookup (with the long-only retry against optstring), the body, and the position of '=' |
| `CliGetopt.Permute` | cli_getopt.c:212-220 | the array becomes its rotation |
| `CliGetopt.SkipOperands` | cli_getopt.c:233-242 | finds the next option-like element |
| `CliGetopt.MoveConsumed` | cli_getopt.c:245-249 | the repeated permutes move the consumed elements in front of the skipped ones |
| `CliGetopt.OptState.constructor` | cli_getopt.c:45-55 | the cursors start at optind 1, nothing pending |
| `CliGetopt.OptState.Getopt` | cli_getopt.c:45-121 | the new cursors and result are those of the getopt specification |
| `CliGetopt.OptState.ShortOption` | cli_getopt.c:74-120 | the short-option part of getopt meets its specification |
| `CliGetopt.OptState.ReadOptChar` | cli_getopt.c:74-86 | reads the option character and steps past it |
| `CliGetopt.OptState.ArgumentOption` | cli_getopt.c:104-118 | the argument handling meets its specification |
| `CliGetopt.OptState.GetoptLongCore` | cli_getopt.c:123-210 | the cursors, result and idx are those of the core specification |
| `CliGetopt.OptState.LongMatch` | cli_getopt.c:160-196 | the handling of a matched entry meets its specification |
| `CliGetopt.OptState.GetoptLongMode` | cli_getopt.c:222-252 | argv, cursors, result and idx are those of the long-option specification |
| `CliGetopt.OptState.GetoptLong` | cli_getopt.c:254-258 | `__getopt_long` without long-only mode |
| `CliGetopt.OptState.GetoptLongOnly` | cli_getopt.c:260-264 | `__getopt_long` in long-only mode |

## Left out

- Logging:
  - log callbacks and message formatting (`libflashrom.c:52-116`), usage text and every `msg_*` line except those above;
  - getopt's `opterr` and its diagnostics, which only decide what is printed.
- RPMC (`rpmc_cli` and its options): a separate hardware request/response protocol.
- Hardware and lower layers: these are parameters, and they are never implemented.
  - `probe_flash`, `flashrom_image_read`/`_write`/`_verify`;
  - the write-protect read/write/range hooks (`libflashrom.c:660-691`);
  - `read_flash`, `prepare_flash_access`/`finalize_flash_access`;
  - `layout_from_ich_descriptors`, fmap reading from ROM or buffer;
  - programmer init/shutdown.
- `strtoul` and `atoi`: abstract number parses. `--sacrifice-ratio` carries the value `atoi` produced.
- `flashrom_set_progress_callback`'s copy-back in `update_progress` (`libflashrom.c:187-189`): it copies through the user data pointer itself, so it writes memory the model does not have. The model reports the state to the callback and leaves `user_data` as it was.
- A write-protect mode outside the enumeration: every `WpMode` is one of the four modes, so `wp_cli`'s "unknown" branch is not reachable in the model.
- `prepare_layout_for_extraction` is not part of this model's sources. It is specified as: every region included, with a file named after the region unless it already has one. The replacement of blanks in region names is not modelled.
- Probe v2 result array: the `calloc`/`realloc` of `matched_names` and its NULL terminator. The model returns the names as a sequence.
- The probe v1 context: which chip ends up bound in `*flashctx`, and its release on failure. The model returns only the result code.
- `layout.c` helpers are not part of this model's sources: `included_regions_overlap`, `layout_next_included`, `process_include_args`, `register_include_arg` and `check_include_args_filename`. Overlap is modelled as any two included entries sharing a byte. Registration is a parameter. The filename check is "every `-i` has a file".
- ReadBufFromIncludeArgs: requires `IncludedFilesFit`, i.e. that every included region with a file satisfies start <= end < chip size. `read_buf_from_include_args` (`cli_classic.c:572-578`) never tests this. The `-l` layout is loaded (`cli_classic.c:1159`) before the chip size is known, and `layout.c` is not part of this model's sources. A region ending past the chip then makes the source copy the file past the end of the malloc'd buffer, which is undefined behaviour with no meaning on a sequence.
- DoWrite: the same `IncludedFilesFit` assumption, which `do_write` relies on when it calls `read_buf_from_include_args` before any library call (`cli_classic.c:683`). A region past the chip is the out-of-bounds write described for `ReadBufFromIncludeArgs`.
- DoVerify: the same `IncludedFilesFit` assumption, which `do_verify` relies on at `cli_classic.c:719`, with the same out-of-bounds write otherwise.
- WriteBufToIncludeArgs: the same `IncludedFilesFit` assumption. Otherwise `write_buf_to_include_args` (`cli_classic.c:599-606`) reads past the buffer, an out-of-bounds read.
- DoRead: the same `IncludedFilesFit` assumption, which it passes on to `WriteBufToIncludeArgs`.
- DoExtract: the same `IncludedFilesFit` assumption, which it passes on to `DoRead`.
- `-p`: the programmer-table prefix match and the `pparam` string. `-p` is modelled as a known/unknown oracle plus the "specified more than once" abort.
- `-V`: verbosity counters.
- `-o`: opening the log file.
- `get_optional_filename`: the file names of `-r`/`-w`/`-v` arrive already chosen in the tokens. How getopt_long produced the tokens is modelled separately in `CliGetopt`.
- getopt's `flag` field of `struct option`: flashrom's table sets it to NULL everywhere, so `val` is always returned.
- A NULL `longopts` table: flashrom never passes one.
- `mbtowc`: every character is one byte, so `mbtowc` and `mblen` consume exactly one.
- The steps of `main` between the guards (listing supported hardware, chip lookup by name, the forced read, progress setup, operation dispatch) are not modelled.
- `flashrom_supported_*` table copies, `flashrom_init`/`shutdown`, and layout release.

## Findings

| source | as written | input that shows it | evidently intended | confidence | as-written member | corrected member |
|---|---|---|---|---|---|---|
| libflashrom.c:460 | `compare_region_with_dump` tests `a->region.start != b->region.end` | chip and dump descriptors that both list the region [0, 0xfff] "fd": the check returns 5, "Descriptors don't match" | compare `a->region.start` with `b->region.start` | high (not executed) | `LibFlashrom.IdenticalIfdRegionsMismatch` | `LibFlashrom.DumpMatchesIntended` |

`LibFlashrom.LayoutReadFromIfd` walks the two descriptor lists as written: its result is 0 exactly when `LockstepAsWritten` holds, and `IdenticalDescriptorsRejected` shows that an identical dump with a multi-byte region then gives 5. `DumpMatchesIntended` is the same walk with the intended comparison (`RegionsMatch`), and it accepts exactly the dumps with the same regions.
