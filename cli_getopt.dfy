/**
 * The option scanner bundled with the front end: musl's getopt, which implements the
 * getopt() interface of POSIX.1-2017 (System Interfaces) and the Utility Syntax
 * Guidelines of section 12.2 of POSIX.1-2017 (Base Definitions), and its GNU-style
 * long-option extension with argument permutation.
 *
 * Characters are single bytes, so mbtowc always consumes one character (and reads
 * 0 at the terminator). Strings are the text of C strings (no NUL inside), read past
 * their end as NUL. argv ends in a NULL entry at index argc. The
 * global cursors optind, optpos, optarg and optopt are the fields of an OptState
 * object; opterr only decides whether a message is printed, and messages are not
 * modelled.
 */
module CliGetopt {
  import opened Common

  /** The C strings of argv (NULL entries are None). */
  type Argv = seq<Option<string>>

  /** The four cursors getopt keeps between calls. optarg is the text it points at. */
  datatype Cursor = Cursor(optind: int, optpos: nat, optarg: Option<string>, optopt: int)

  /** A call's effect on the cursors and its return value. */
  datatype Step = Step(cur: Cursor, ret: int)

  const QUESTION: int := '?' as int
  const COLON: int := ':' as int

  /** argv[argc] is the NULL terminator and every entry is a C string. */
  predicate ArgvOk(argv: Argv, argc: int) {
    0 <= argc < |argv| && argv[argc].None? &&
    forall k :: 0 <= k < |argv| ==> (argv[k].Some? ==> NoNul(argv[k].value))
  }

  /** optpos, when set, points inside the current element. */
  predicate Placed(argv: Argv, argc: int, c: Cursor) {
    0 <= c.optind &&
    (c.optpos == 0 || (c.optind < argc && c.optind < |argv| && argv[c.optind].Some? && c.optpos < |argv[c.optind].value|))
  }

  /** `if (!optind) { optind = 1; optpos = 0; }` */
  function Reset(c: Cursor): (r: Cursor)
    ensures r.optind == if c.optind == 0 then 1 else c.optind
  {
    if c.optind == 0 then c.(optind := 1, optpos := 0) else c
  }

  /** The first index of `c` in `s`, or |s| when there is none. */
  function FirstOrEnd(s: string, c: char): (i: nat)
    ensures i <= |s|
    ensures i < |s| ==> s[i] == c
    ensures forall j :: 0 <= j < i ==> s[j] != c
    decreases |s|
  {
    if s == [] then 0 else if s[0] == c then 0 else 1 + FirstOrEnd(s[1..], c)
  }

  /** optstring after the `optstring++` that skips a leading '+' or '-'. */
  function Shifted(optstring: string): (r: string)
    ensures NoNul(optstring) ==> NoNul(r)
  {
    if |optstring| > 0 && (optstring[0] == '-' || optstring[0] == '+') then optstring[1..] else optstring
  }

  /** A ':' first in optstring (after any '+' or '-'): a missing argument returns ':' instead of '?'. */
  predicate ColonMode(optstring: string) {
    CharAt(Shifted(optstring), 0) == ':'
  }

  /** The position of the option character in the current element. */
  function OptPos(c: Cursor): nat {
    if c.optpos == 0 then 1 else c.optpos
  }

  /** What getopt needs of its inputs. */
  predicate GetoptReady(argv: Argv, argc: int, optstring: string, c: Cursor) {
    ArgvOk(argv, argc) && NoNul(optstring) && Placed(argv, argc, Reset(c))
  }

  /** getopt: one short option (or the end of the options) per call. */
  function GetoptSpec(argv: Argv, argc: int, optstring: string, cur0: Cursor): (r: Step)
    requires GetoptReady(argv, argc, optstring, cur0)
    ensures Reset(cur0).optind <= r.cur.optind
    ensures Reset(cur0).optind <= argc ==> r.cur.optind <= argc + 1
  {
    var cur := Reset(cur0);
    if cur.optind >= argc || argv[cur.optind].None? then Step(cur, -1)
    else
      var s := argv[cur.optind].value;
      if CharAt(s, 0) != '-' then
        if CharAt(optstring, 0) == '-' then Step(cur.(optarg := Some(s), optind := cur.optind + 1), 1)
        else Step(cur, -1)
      else if CharAt(s, 1) == '\0' then Step(cur, -1)
      else if CharAt(s, 1) == '-' && CharAt(s, 2) == '\0' then Step(cur.(optind := cur.optind + 1), -1)
      else ShortSpec(argv, argc, optstring, cur)
  }

  /** The current element holds an option character at OptPos: getopt past its first checks. */
  predicate AtShortOption(argv: Argv, argc: int, optstring: string, cur: Cursor) {
    ArgvOk(argv, argc) && NoNul(optstring) && Placed(argv, argc, cur) &&
    cur.optind < argc && argv[cur.optind].Some? && CharAt(argv[cur.optind].value, 1) != '\0'
  }

  /** The option character getopt reads. */
  function OptChar(argv: Argv, argc: int, optstring: string, cur: Cursor): char
    requires AtShortOption(argv, argc, optstring, cur)
  {
    argv[cur.optind].value[OptPos(cur)]
  }

  /** The cursors once the option character is consumed: the next element if it was the last. */
  function NextInd(argv: Argv, argc: int, optstring: string, cur: Cursor): int
    requires AtShortOption(argv, argc, optstring, cur)
  {
    if CharAt(argv[cur.optind].value, OptPos(cur) + 1) == '\0' then cur.optind + 1 else cur.optind
  }

  function NextPos(argv: Argv, argc: int, optstring: string, cur: Cursor): nat
    requires AtShortOption(argv, argc, optstring, cur)
  {
    if CharAt(argv[cur.optind].value, OptPos(cur) + 1) == '\0' then 0 else OptPos(cur) + 1
  }

  /**
   * An option declared with ':' (`required` unless a second ':' follows): the argument
   * is the rest of the element, or the next element; none left is an error.
   */
  function ArgumentSpec(argv: Argv, argc: int, optstring: string, cur: Cursor, required: bool): (r: Step)
    requires AtShortOption(argv, argc, optstring, cur)
    ensures cur.optind <= r.cur.optind <= argc + 1
  {
    var c := OptChar(argv, argc, optstring, cur);
    var ind1 := NextInd(argv, argc, optstring, cur);
    var pos1 := NextPos(argv, argc, optstring, cur);
    var takes := required || pos1 != 0;
    var ind2 := if takes then ind1 + 1 else ind1;
    var pos2 := if takes then 0 else pos1;
    var arg := if takes && argv[ind1].Some? then Some(argv[ind1].value[pos1..]) else None;
    if ind2 > argc then Step(Cursor(ind2, pos2, arg, c as int), if ColonMode(optstring) then COLON else QUESTION)
    else Step(Cursor(ind2, pos2, arg, cur.optopt), c as int)
  }

  /** The option character: its lookup in optstring and the argument it may take. */
  function ShortSpec(argv: Argv, argc: int, optstring: string, cur: Cursor): (r: Step)
    requires AtShortOption(argv, argc, optstring, cur)
    ensures cur.optind <= r.cur.optind <= argc + 1
  {
    var c := OptChar(argv, argc, optstring, cur);
    var os := Shifted(optstring);
    var i0 := FirstOrEnd(os, c);
    if i0 == |os| || c == ':' then
      Step(Cursor(NextInd(argv, argc, optstring, cur), NextPos(argv, argc, optstring, cur), cur.optarg, c as int), QUESTION)
    else if CharAt(os, i0 + 1) == ':' then ArgumentSpec(argv, argc, optstring, cur, CharAt(os, i0 + 2) != ':')
    else Step(Cursor(NextInd(argv, argc, optstring, cur), NextPos(argv, argc, optstring, cur), cur.optarg, cur.optopt), c as int)
  }

  /**
   * getopt's do-while scan of optstring for the option character c: it stops just past
   * the first c or past the terminator, where it reads d.
   */
  method ScanOptstring(os: string, c: char) returns (i: nat, d: char)
    requires NoNul(os) && c != '\0'
    ensures i == FirstOrEnd(os, c) + 1
    ensures d == c <==> i - 1 < |os|
  {
    i := 0;
    d := '\0';
    var l := 1;
    while l != 0 && d != c
      invariant 0 <= i <= |os| + 1
      invariant forall j :: 0 <= j && j + 1 < i ==> os[j] != c
      invariant i == 0 ==> d == '\0' && l == 1
      invariant i > 0 ==> d == CharAt(os, i - 1) && (l == 0 <==> i - 1 >= |os|)
      decreases |os| + 1 - i
    {
      d := CharAt(os, i);
      l := if d == '\0' then 0 else 1;
      i := i + 1;
    }
  }

  // Long options (__getopt_long_core, permute, __getopt_long).

  /** `has_arg` of a long-option entry. */
  datatype HasArg = NoArgument | RequiredArgument | OptionalArgument

  /** One entry of the long-option table; the NULL-named terminator is the end of the sequence. */
  datatype LongOption = LongOption(name: string, hasArg: HasArg, val: int)

  predicate LongoptsOk(longopts: seq<LongOption>) {
    forall k :: 0 <= k < |longopts| ==> NoNul(longopts[k].name)
  }

  /** The element is looked up in the table: "--name" always, "-name" (not "--") in long-only mode. */
  predicate LongCandidate(s: string, longonly: bool) {
    CharAt(s, 0) == '-' &&
    ((longonly && CharAt(s, 1) != '\0' && CharAt(s, 1) != '-') || (CharAt(s, 1) == '-' && CharAt(s, 2) != '\0'))
  }

  /** Where the name starts: after "--", or after the single '-' of a long-only option. */
  function NameStart(s: string): nat {
    if CharAt(s, 1) == '-' then 2 else 1
  }

  /** The name, then possibly '=' and a value. */
  function LongBody(s: string): string
    requires NameStart(s) <= |s|
  {
    s[NameStart(s)..]
  }

  /** The name part of the body: everything before the first '='. */
  function Key(body: string): (key: string)
    ensures key <= body
  {
    body[..FirstOrEnd(body, '=')]
  }

  /** `mblen(s, MB_LEN_MAX)` with one-byte characters. */
  function Mblen(s: string): nat {
    if CharAt(s, 0) == '\0' then 0 else 1
  }

  /** The table scan's count of matching entries and the last one matched. */
  datatype Lookup = Lookup(cnt: nat, entry: nat)

  /**
   * The table scan from entry i on: an entry equal to the key stops it with count 1;
   * each entry the key abbreviates adds one to the count and becomes the match.
   */
  function LongScan(longopts: seq<LongOption>, key: string, i: nat, acc: Lookup): (r: Lookup)
    requires i <= |longopts|
    requires acc.cnt >= 1 ==> acc.entry < |longopts| && key <= longopts[acc.entry].name
    ensures r.cnt >= 1 ==> r.entry < |longopts| && key <= longopts[r.entry].name
    decreases |longopts| - i
  {
    if i == |longopts| then acc
    else if !(key <= longopts[i].name) then LongScan(longopts, key, i + 1, acc)
    else if key == longopts[i].name then Lookup(1, i)
    else LongScan(longopts, key, i + 1, Lookup(acc.cnt + 1, i))
  }

  /** The number of entries from i on whose name starts with the key. */
  function PrefixCount(longopts: seq<LongOption>, key: string, i: nat): nat
    requires i <= |longopts|
    decreases |longopts| - i
  {
    if i == |longopts| then 0
    else (if key <= longopts[i].name then 1 else 0) + PrefixCount(longopts, key, i + 1)
  }

  /** The first l characters of start occur in optstring from index i on. */
  predicate OccursAt(start: string, l: nat, optstring: string, i: nat) {
    forall j :: 0 <= j < l ==> CharAt(start, j) == CharAt(optstring, i + j)
  }

  predicate InOptstring(start: string, l: nat, optstring: string) {
    exists i :: 0 <= i < |optstring| && OccursAt(start, l, optstring, i)
  }

  /**
   * The count after the long-only rule: a single-letter name that optstring also
   * lists counts twice, so that the element is read as short options.
   */
  function Looked(s: string, optstring: string, longopts: seq<LongOption>, longonly: bool): (r: Lookup)
    requires LongCandidate(s, longonly)
    ensures r.cnt == 1 ==> r.entry < |longopts| && Key(LongBody(s)) <= longopts[r.entry].name
  {
    var key := Key(LongBody(s));
    var l := LongScan(longopts, key, 0, Lookup(0, 0));
    var len := NameStart(s) - 1 + |key|;
    if l.cnt == 1 && longonly && len == Mblen(s[1..]) && InOptstring(s[1..], len, optstring) then l.(cnt := 2)
    else l
  }

  /** What __getopt_long_core needs: a C string at optind and a placed optpos. */
  predicate CoreReady(argv: Argv, argc: int, optstring: string, longopts: seq<LongOption>, cur: Cursor) {
    ArgvOk(argv, argc) && NoNul(optstring) && LongoptsOk(longopts) &&
    1 <= cur.optind < argc && argv[cur.optind].Some? && Placed(argv, argc, cur)
  }

  /** A call's effect and the entry index it reports through idx (None: idx is not written). */
  datatype CoreStep = CoreStep(step: Step, idx: Option<nat>)

  /**
   * The entry m was matched: a value after '=' is its argument (an error for an entry
   * without one), a required argument is otherwise the next element.
   */
  function LongMatchSpec(argv: Argv, argc: int, optstring: string, longopts: seq<LongOption>, cur: Cursor, m: nat, body: string): (r: CoreStep)
    requires ArgvOk(argv, argc) && 0 <= cur.optind < argc && m < |longopts|
    ensures cur.optind < r.step.cur.optind <= argc + 1
  {
    var o := longopts[m];
    var ind := cur.optind + 1;
    var eq := FirstOrEnd(body, '=');
    if eq < |body| then
      if o.hasArg == NoArgument then CoreStep(Step(cur.(optind := ind, optopt := o.val), QUESTION), None)
      else CoreStep(Step(cur.(optind := ind, optarg := Some(body[eq + 1..])), o.val), Some(m))
    else if o.hasArg == RequiredArgument then
      if argv[ind].None? then CoreStep(Step(cur.(optind := ind, optopt := o.val), if ColonMode(optstring) then COLON else QUESTION), None)
      else CoreStep(Step(cur.(optind := ind + 1, optarg := argv[ind]), o.val), Some(m))
    else CoreStep(Step(cur.(optind := ind), o.val), Some(m))
  }

  /** __getopt_long_core: a long option at optind, or else getopt's reading of it. */
  function CoreSpec(argv: Argv, argc: int, optstring: string, longopts: seq<LongOption>, longonly: bool, cur: Cursor): (r: CoreStep)
    requires CoreReady(argv, argc, optstring, longopts, cur)
    ensures cur.optind <= r.step.cur.optind <= argc + 1
  {
    var cur1 := cur.(optarg := None);
    var s := argv[cur.optind].value;
    if !LongCandidate(s, longonly) then CoreStep(GetoptSpec(argv, argc, optstring, cur1), None)
    else
      var l := Looked(s, optstring, longopts, longonly);
      if l.cnt == 1 then LongMatchSpec(argv, argc, optstring, longopts, cur1, l.entry, LongBody(s))
      else if CharAt(s, 1) == '-' then CoreStep(Step(cur1.(optind := cur.optind + 1, optopt := 0), QUESTION), None)
      else CoreStep(GetoptSpec(argv, argc, optstring, cur1), None)
  }

  /** No '+' or '-' first in optstring: non-options are skipped and then moved behind the options. */
  predicate Permuting(optstring: string) {
    CharAt(optstring, 0) != '+' && CharAt(optstring, 0) != '-'
  }

  /** An element that begins with '-' and has more after it. */
  predicate OptionLike(s: string) {
    CharAt(s, 0) == '-' && CharAt(s, 1) != '\0'
  }

  /** The first option-like element from i on, unless the end of argv or a NULL comes first. */
  function NextOption(argv: Argv, argc: int, i: int): (r: Option<nat>)
    requires 0 <= i && argc < |argv|
    ensures r.Some? ==> i <= r.value < argc && argv[r.value].Some? && OptionLike(argv[r.value].value)
    ensures r.Some? ==> forall j :: i <= j < r.value ==> argv[j].Some? && !OptionLike(argv[j].value)
    decreases argc - i
  {
    if i >= argc || argv[i].None? then None
    else if OptionLike(argv[i].value) then Some(i)
    else NextOption(argv, argc, i + 1)
  }

  /** The element __getopt_long hands to the core, if any. */
  function Resumed(argv: Argv, argc: int, optstring: string, cur: Cursor): (r: Option<nat>)
    requires ArgvOk(argv, argc) && 0 <= cur.optind
    ensures r.Some? ==> cur.optind <= r.value < argc && argv[r.value].Some?
  {
    if cur.optind >= argc || argv[cur.optind].None? then None
    else if Permuting(optstring) then NextOption(argv, argc, cur.optind)
    else Some(cur.optind)
  }

  /** What __getopt_long needs: C strings throughout and an optpos placed in the element it resumes at. */
  predicate LongReady(argv: Argv, argc: int, optstring: string, longopts: seq<LongOption>, cur0: Cursor) {
    ArgvOk(argv, argc) && NoNul(optstring) && LongoptsOk(longopts) && 0 <= cur0.optind &&
    (Resumed(argv, argc, optstring, Reset(cur0)).Some? ==>
       Placed(argv, argc, Reset(cur0).(optind := Resumed(argv, argc, optstring, Reset(cur0)).value)))
  }

  /** The effect of permute(argv, dest, src): argv[src] moves to dest, the elements between shift up. */
  function Rotate(s: Argv, dest: nat, src: nat): (r: Argv)
    requires dest <= src < |s|
    ensures |r| == |s|
  {
    s[..dest] + [s[src]] + s[dest..src] + s[src + 1..]
  }

  /** argv with the elements [mid, end) moved in front of [skipped, mid). */
  function Moved(s: Argv, skipped: nat, mid: nat, end: nat): (r: Argv)
    requires skipped <= mid <= end <= |s|
    ensures |r| == |s|
  {
    s[..skipped] + s[mid..end] + s[skipped..mid] + s[end..]
  }

  /** A call of __getopt_long: the new argv, cursors, return value and idx. */
  datatype LongStep = LongStep(argv: Argv, cur: Cursor, ret: int, idx: Option<nat>)

  /**
   * __getopt_long: skip non-options (when permuting), run the core at the first option,
   * then move the elements it consumed in front of the skipped ones.
   */
  function GetoptLongSpec(argv: Argv, argc: int, optstring: string, longopts: seq<LongOption>, longonly: bool, cur0: Cursor): (r: LongStep)
    requires LongReady(argv, argc, optstring, longopts, cur0)
    ensures |r.argv| == |argv|
  {
    var cur := Reset(cur0);
    var resumed := Resumed(argv, argc, optstring, cur);
    if resumed.None? then LongStep(argv, cur, -1, None)
    else
      var core := CoreSpec(argv, argc, optstring, longopts, longonly, cur.(optind := resumed.value));
      var st := core.step;
      if resumed.value > cur.optind then
        LongStep(Moved(argv, cur.optind, resumed.value, st.cur.optind),
                 st.cur.(optind := cur.optind + st.cur.optind - resumed.value), st.ret, core.idx)
      else LongStep(argv, st.cur, st.ret, core.idx)
  }

  /** getopt_long's comparison of the element's name with one table entry. */
  method CompareName(body: string, name: string) returns (n: nat)
    requires NoNul(body) && NoNul(name)
    ensures (CharAt(body, n) == '\0' || CharAt(body, n) == '=') <==> Key(body) <= name
    ensures Key(body) <= name ==> n == |Key(body)|
  {
    n := 0;
    while CharAt(body, n) != '\0' && CharAt(body, n) != '=' && CharAt(body, n) == CharAt(name, n)
      invariant n <= |body| && n <= |name|
      invariant body[..n] == name[..n]
      invariant forall j :: 0 <= j < n ==> body[j] != '='
      decreases |body| - n
    {
      n := n + 1;
    }
  }

  /** The loop over the long-option table; it also yields where the name ends (`arg`). */
  method LookupLong(longopts: seq<LongOption>, body: string) returns (l: Lookup, argPos: nat)
    requires LongoptsOk(longopts) && NoNul(body)
    ensures l == LongScan(longopts, Key(body), 0, Lookup(0, 0))
    ensures l.cnt >= 1 ==> argPos == |Key(body)|
  {
    ghost var key := Key(body);
    var cnt, entry := 0, 0;
    argPos := 0;
    var i := 0;
    while i < |longopts|
      invariant i <= |longopts|
      invariant cnt >= 1 ==> entry < |longopts| && key <= longopts[entry].name && argPos == |key|
      invariant LongScan(longopts, key, i, Lookup(cnt, entry)) == LongScan(longopts, key, 0, Lookup(0, 0))
      decreases |longopts| - i
    {
      var name := longopts[i].name;
      var n := CompareName(body, name);
      if CharAt(body, n) == '\0' || CharAt(body, n) == '=' {
        argPos := n;
        entry := i;
        if CharAt(name, n) == '\0' {
          assert name == key;
          return Lookup(1, i), argPos;
        }
        cnt := cnt + 1;
      }
      i := i + 1;
    }
    return Lookup(cnt, entry), argPos;
  }

  /** The long-only check that the first l characters of start appear in optstring. */
  method FindInOptstring(start: string, l: nat, optstring: string) returns (found: bool)
    requires l <= |start| && NoNul(start) && NoNul(optstring)
    ensures found <==> InOptstring(start, l, optstring)
  {
    var i := 0;
    while CharAt(optstring, i) != '\0'
      invariant i <= |optstring|
      invariant forall k :: 0 <= k < i ==> !OccursAt(start, l, optstring, k)
      decreases |optstring| - i
    {
      var j := 0;
      while j < l && start[j] == CharAt(optstring, i + j)
        invariant j <= l
        invariant forall m :: 0 <= m < j ==> CharAt(start, m) == CharAt(optstring, i + m)
        decreases l - j
      {
        j := j + 1;
      }
      if j == l {
        assert OccursAt(start, l, optstring, i);
        return true;
      }
      assert CharAt(start, j) != CharAt(optstring, i + j);
      i := i + 1;
    }
    return false;
  }

  /** The table lookup of __getopt_long_core for element s, with the long-only rule applied. */
  method LookupElement(s: string, optstring: string, longopts: seq<LongOption>, longonly: bool)
    returns (l: Lookup, body: string, argPos: nat)
    requires LongCandidate(s, longonly) && NoNul(s) && NoNul(optstring) && LongoptsOk(longopts)
    ensures l == Looked(s, optstring, longopts, longonly)
    ensures body == LongBody(s) && NoNul(body)
    ensures l.cnt == 1 ==> argPos == FirstOrEnd(body, '=')
  {
    var start := s[1..];
    var off := if CharAt(start, 0) == '-' then 1 else 0;
    body := start[off..];
    assert body == LongBody(s);
    l, argPos := LookupLong(longopts, body);
    if l.cnt == 1 && longonly && off + argPos == Mblen(start) {
      var found := FindInOptstring(start, off + argPos, optstring);
      if found {
        l := l.(cnt := 2);
      }
    }
  }

  /** permute(argv, dest, src). */
  method Permute(av: array<Option<string>>, dest: nat, src: nat)
    requires dest <= src < av.Length
    modifies av
    ensures av[..] == Rotate(old(av[..]), dest, src)
  {
    ghost var s := av[..];
    var tmp := av[src];
    var i := src;
    while i > dest
      invariant dest <= i <= src
      invariant forall k :: 0 <= k <= i ==> av[k] == s[k]
      invariant forall k :: i < k <= src ==> av[k] == s[k - 1]
      invariant forall k :: src < k < av.Length ==> av[k] == s[k]
      decreases i
    {
      av[i] := av[i - 1];
      i := i - 1;
    }
    av[dest] := tmp;
    forall k | 0 <= k < av.Length
      ensures av[k] == Rotate(s, dest, src)[k]
    {
      RotateAt(s, dest, src, k);
    }
  }

  /** Before the first permute nothing has moved. */
  lemma {:induction false} MovedNothing(s: Argv, skipped: nat, end: nat)
    requires skipped <= end <= |s|
    ensures Moved(s, skipped, end, end) == s
  {
    assert s == s[..skipped] + s[skipped..end] + s[end..];
  }

  /**
   * permute(argv, dest, src): the element at src lands at dest, each element in [dest, src)
   * moves up by one, the rest stay, and nothing is lost or duplicated.
   */
  lemma {:induction false} RotateMeaning(s: Argv, dest: nat, src: nat)
    requires dest <= src < |s|
    ensures var r := Rotate(s, dest, src);
      r[dest] == s[src] &&
      (forall k :: dest <= k < src ==> r[k + 1] == s[k]) &&
      (forall k :: 0 <= k < |s| && (k < dest || k > src) ==> r[k] == s[k]) &&
      multiset(r) == multiset(s)
  {
    var r := Rotate(s, dest, src);
    assert s == s[..dest] + s[dest..src] + [s[src]] + s[src + 1..];
    forall k | dest <= k < src
      ensures r[k + 1] == s[k]
    {
      assert r[k + 1] == s[dest..src][k - dest];
    }
  }

  /** The element at each position of a Moved argv. */
  lemma MovedAt(s: Argv, skipped: nat, mid: nat, end: nat, k: nat)
    requires skipped <= mid <= end <= |s| && k < |s|
    ensures Moved(s, skipped, mid, end)[k] ==
      if k < skipped then s[k]
      else if k < skipped + (end - mid) then s[mid + (k - skipped)]
      else if k < end then s[k - (end - mid)]
      else s[k]
  {
    var a, b, c, d := s[..skipped], s[mid..end], s[skipped..mid], s[end..];
    assert Moved(s, skipped, mid, end) == a + b + c + d;
  }

  /** The element at each position of a Rotate argv. */
  lemma RotateAt(s: Argv, dest: nat, src: nat, k: nat)
    requires dest <= src < |s| && k < |s|
    ensures Rotate(s, dest, src)[k] ==
      if k < dest then s[k] else if k == dest then s[src] else if k <= src then s[k - 1] else s[k]
  {
    var a, b, c := s[..dest], s[dest..src], s[src + 1..];
    assert Rotate(s, dest, src) == a + [s[src]] + b + c;
  }

  /** One more permute(argv, skipped, end - 1) moves one more consumed element to the front. */
  lemma {:induction false} RotateMoved(s: Argv, skipped: nat, mid: nat, end: nat)
    requires skipped < mid <= end <= |s|
    ensures Rotate(Moved(s, skipped, mid, end), skipped, end - 1) == Moved(s, skipped, mid - 1, end)
  {
    var m := Moved(s, skipped, mid, end);
    var r := Rotate(m, skipped, end - 1);
    var t := Moved(s, skipped, mid - 1, end);
    forall k | 0 <= k < |s|
      ensures r[k] == t[k]
    {
      RotateAt(m, skipped, end - 1, k);
      MovedAt(s, skipped, mid - 1, end, k);
      MovedAt(s, skipped, mid, end, end - 1);
      if skipped < k <= end - 1 {
        MovedAt(s, skipped, mid, end, k - 1);
      } else {
        MovedAt(s, skipped, mid, end, k);
      }
    }
  }

  /** __getopt_long's scan for the next option-like element. */
  method SkipOperands(argv: array<Option<string>>, argc: int, start: nat) returns (r: Option<nat>)
    requires argc < argv.Length
    ensures r == NextOption(argv[..], argc, start)
  {
    var i := start;
    while true
      invariant start <= i
      invariant NextOption(argv[..], argc, i) == NextOption(argv[..], argc, start)
      decreases argc - i
    {
      if i >= argc || argv[i].None? {
        return None;
      }
      if CharAt(argv[i].value, 0) == '-' && CharAt(argv[i].value, 1) != '\0' {
        return Some(i);
      }
      i := i + 1;
    }
  }

  /** `for (i=0; i<cnt; i++) permute(argv, skipped, optind-1);` with end the optind the core left. */
  method MoveConsumed(argv: array<Option<string>>, skipped: nat, resumed: nat, end: nat)
    requires skipped <= resumed <= end <= argv.Length
    modifies argv
    ensures argv[..] == Moved(old(argv[..]), skipped, resumed, end)
  {
    ghost var s0 := argv[..];
    var cnt := end - resumed;
    var i := 0;
    ghost var mid := end;
    MovedNothing(s0, skipped, end);
    while i < cnt
      invariant 0 <= i <= cnt && mid == end - i
      invariant argv[..] == Moved(s0, skipped, mid, end)
      decreases cnt - i
    {
      ghost var next := mid - 1;
      PermuteStep(argv, s0, skipped, mid, next, end);
      i, mid := i + 1, next;
    }
  }

  /** One permute of the loop, from one layout to the next. */
  method PermuteStep(argv: array<Option<string>>, ghost s0: Argv, skipped: nat, ghost mid: nat, ghost next: nat, end: nat)
    requires skipped <= next && next + 1 == mid <= end <= argv.Length == |s0|
    requires argv[..] == Moved(s0, skipped, mid, end)
    modifies argv
    ensures argv[..] == Moved(s0, skipped, next, end)
  {
    Permute(argv, skipped, end - 1);
    RotateMoved(s0, skipped, mid, end);
  }

  // Properties of the scanner.

  /** getopt has reached the end of the options: nothing left, a NULL, an operand (not in '-' mode), "-" or "--". */
  predicate AtEnd(argv: Argv, argc: int, optstring: string, cur: Cursor)
    requires 0 <= cur.optind && argc < |argv|
  {
    cur.optind >= argc || argv[cur.optind].None? ||
    (var s := argv[cur.optind].value;
     (CharAt(s, 0) != '-' && CharAt(optstring, 0) != '-') ||
     (CharAt(s, 0) == '-' && CharAt(s, 1) == '\0') ||
     (CharAt(s, 0) == '-' && CharAt(s, 1) == '-' && CharAt(s, 2) == '\0'))
  }

  /**
   * getopt returns -1 exactly at the end of the options; only "--" is stepped over, and
   * otherwise optind stays at the element that ended the scan.
   */
  lemma {:induction false} GetoptEnd(argv: Argv, argc: int, optstring: string, cur0: Cursor)
    requires GetoptReady(argv, argc, optstring, cur0)
    ensures var r := GetoptSpec(argv, argc, optstring, cur0);
      (r.ret == -1 <==> AtEnd(argv, argc, optstring, Reset(cur0))) &&
      (r.ret == -1 ==> r.cur == Reset(cur0) || (r.cur == Reset(cur0).(optind := Reset(cur0).optind + 1) && argv[Reset(cur0).optind] == Some("--")))
  {
    var cur := Reset(cur0);
    if !AtEnd(argv, argc, optstring, cur) {
      var s := argv[cur.optind].value;
      if CharAt(s, 0) == '-' {
        ShortSpecReturns(argv, argc, optstring, cur);
      }
    } else if cur.optind < argc && argv[cur.optind].Some? {
      var s := argv[cur.optind].value;
      if CharAt(s, 0) == '-' && CharAt(s, 1) == '-' && CharAt(s, 2) == '\0' {
        assert s == "--";
      }
    }
  }

  /** An option character is never NUL, so a short option never returns -1. */
  lemma {:induction false} ShortSpecReturns(argv: Argv, argc: int, optstring: string, cur: Cursor)
    requires AtShortOption(argv, argc, optstring, cur)
    ensures var r := ShortSpec(argv, argc, optstring, cur);
      r.ret == QUESTION || r.ret == COLON || r.ret == OptChar(argv, argc, optstring, cur) as int
    ensures OptChar(argv, argc, optstring, cur) != '\0'
  {
  }

  /** How optstring declares c: None when c is not an option character (':' never is). */
  function ShortKind(optstring: string, c: char): Option<HasArg> {
    var os := Shifted(optstring);
    var i := FirstOrEnd(os, c);
    if i == |os| || c == ':' then None
    else if CharAt(os, i + 1) != ':' then Some(NoArgument)
    else if CharAt(os, i + 2) != ':' then Some(RequiredArgument)
    else Some(OptionalArgument)
  }

  /** The first occurrence decides: "c" takes no argument, "c:" requires one, "c::" takes an attached one. */
  lemma {:induction false} ShortKindDeclared(optstring: string, c: char, i: nat)
    requires i < |Shifted(optstring)| && Shifted(optstring)[i] == c && c != ':'
    requires forall j :: 0 <= j < i ==> Shifted(optstring)[j] != c
    ensures ShortKind(optstring, c).Some?
    ensures ShortKind(optstring, c) == Some(RequiredArgument) <==> CharAt(Shifted(optstring), i + 1) == ':' && CharAt(Shifted(optstring), i + 2) != ':'
  {
    FirstOrEndIs(Shifted(optstring), c, i);
  }

  lemma {:induction false} FirstOrEndIs(s: string, c: char, i: nat)
    requires i < |s| && s[i] == c
    requires forall j :: 0 <= j < i ==> s[j] != c
    ensures FirstOrEnd(s, c) == i
  {
  }

  /** The text after the option character in its element. */
  function Rest(argv: Argv, argc: int, optstring: string, cur: Cursor): string
    requires AtShortOption(argv, argc, optstring, cur)
  {
    argv[cur.optind].value[OptPos(cur) + 1..]
  }

  /**
   * One short option, by how optstring declares it: an unknown character is reported in
   * optopt; an option without argument steps to the next character, or to the next element
   * at the end of this one; a required argument is the rest of the element, or else the
   * whole next element, and its absence is an error; an optional argument can only be
   * attached, and either way the scan moves on to the next element.
   */
  lemma {:induction false} ShortOptionMeaning(argv: Argv, argc: int, optstring: string, cur: Cursor)
    requires AtShortOption(argv, argc, optstring, cur)
    ensures var r := ShortSpec(argv, argc, optstring, cur);
      var c := OptChar(argv, argc, optstring, cur);
      var rest := Rest(argv, argc, optstring, cur);
      var kind := ShortKind(optstring, c);
      (kind.None? ==> r.ret == QUESTION && r.cur.optopt == c as int) &&
      (kind == Some(NoArgument) ==>
         r.ret == c as int && r.cur.optarg == cur.optarg
         && r.cur.optind == (if rest == "" then cur.optind + 1 else cur.optind)
         && r.cur.optpos == (if rest == "" then 0 else OptPos(cur) + 1)) &&
      (kind == Some(RequiredArgument) && rest != "" ==>
         r.ret == c as int && r.cur.optarg == Some(rest) && r.cur.optind == cur.optind + 1 && r.cur.optpos == 0) &&
      (kind == Some(RequiredArgument) && rest == "" && cur.optind + 1 < argc ==>
         r.ret == c as int && r.cur.optarg == argv[cur.optind + 1] && r.cur.optind == cur.optind + 2 && r.cur.optpos == 0) &&
      (kind == Some(RequiredArgument) && rest == "" && cur.optind + 1 == argc ==>
         r.ret == (if ColonMode(optstring) then COLON else QUESTION) && r.cur.optopt == c as int && r.cur.optind == argc + 1 && r.cur.optpos == 0) &&
      (kind == Some(OptionalArgument) ==>
         r.ret == c as int && r.cur.optarg == (if rest == "" then None else Some(rest))
         && r.cur.optind == cur.optind + 1 && r.cur.optpos == 0)
  {
    var s := argv[cur.optind].value;
    var p := OptPos(cur);
    if p + 1 < |s| {
      assert CharAt(s, p + 1) != '\0';
    } else {
      assert Rest(argv, argc, optstring, cur) == "";
    }
  }

  /** The table scan reports the first entry equal to the key whenever there is one. */
  lemma {:induction false} LongScanFirst(longopts: seq<LongOption>, key: string, i: nat, acc: Lookup)
    requires i <= |longopts|
    requires acc.cnt >= 1 ==> acc.entry < |longopts| && key <= longopts[acc.entry].name
    requires exists k :: i <= k < |longopts| && longopts[k].name == key
    ensures var r := LongScan(longopts, key, i, acc);
      r.cnt == 1 && longopts[r.entry].name == key && forall j :: i <= j < r.entry ==> longopts[j].name != key
    decreases |longopts| - i
  {
    if key == longopts[i].name {
    } else if !(key <= longopts[i].name) {
      LongScanFirst(longopts, key, i + 1, acc);
    } else {
      LongScanFirst(longopts, key, i + 1, Lookup(acc.cnt + 1, i));
    }
  }

  /** Without an exact entry the scan counts every entry the key abbreviates. */
  lemma {:induction false} LongScanCount(longopts: seq<LongOption>, key: string, i: nat, acc: Lookup)
    requires i <= |longopts|
    requires acc.cnt >= 1 ==> acc.entry < |longopts| && key <= longopts[acc.entry].name
    requires forall k :: i <= k < |longopts| ==> longopts[k].name != key
    ensures LongScan(longopts, key, i, acc).cnt == acc.cnt + PrefixCount(longopts, key, i)
    decreases |longopts| - i
  {
    if i < |longopts| {
      if !(key <= longopts[i].name) {
        LongScanCount(longopts, key, i + 1, acc);
      } else {
        LongScanCount(longopts, key, i + 1, Lookup(acc.cnt + 1, i));
      }
    }
  }

  /**
   * The table lookup: an exact name wins (the first such entry); otherwise the count is
   * the number of entries the key abbreviates, and a count of one names that entry.
   */
  lemma {:induction false} LookupMeaning(longopts: seq<LongOption>, key: string)
    ensures var r := LongScan(longopts, key, 0, Lookup(0, 0));
      ((exists k :: 0 <= k < |longopts| && longopts[k].name == key) ==>
         r.cnt == 1 && longopts[r.entry].name == key && forall j :: 0 <= j < r.entry ==> longopts[j].name != key) &&
      (!(exists k :: 0 <= k < |longopts| && longopts[k].name == key) ==> r.cnt == PrefixCount(longopts, key, 0)) &&
      (r.cnt == 1 ==> key <= longopts[r.entry].name)
  {
    if exists k :: 0 <= k < |longopts| && longopts[k].name == key {
      LongScanFirst(longopts, key, 0, Lookup(0, 0));
    } else {
      LongScanCount(longopts, key, 0, Lookup(0, 0));
    }
  }

  /**
   * A "--name[=value]" element under getopt_long: an unknown or ambiguous name is '?' with
   * optopt 0 and the element consumed; a resolved entry returns its val and reports its
   * index, with the value after '=' or, for a required argument, the next element.
   */
  lemma {:induction false} LongOptionOutcome(argv: Argv, argc: int, optstring: string, longopts: seq<LongOption>, cur: Cursor)
    requires CoreReady(argv, argc, optstring, longopts, cur)
    requires var s := argv[cur.optind].value; CharAt(s, 0) == '-' && CharAt(s, 1) == '-' && CharAt(s, 2) != '\0'
    ensures var s := argv[cur.optind].value;
      var body := s[2..];
      var key := Key(body);
      var exact := exists k :: 0 <= k < |longopts| && longopts[k].name == key;
      var r := CoreSpec(argv, argc, optstring, longopts, false, cur);
      (!exact && PrefixCount(longopts, key, 0) != 1 ==>
         r.idx.None? && r.step.ret == QUESTION && r.step.cur.optopt == 0 && r.step.cur.optind == cur.optind + 1) &&
      (r.idx.Some? ==>
         r.idx.value < |longopts| && key <= longopts[r.idx.value].name && (exact ==> longopts[r.idx.value].name == key) &&
         r.step.ret == longopts[r.idx.value].val &&
         (|key| < |body| ==> r.step.cur.optarg == Some(body[|key| + 1..]) && r.step.cur.optind == cur.optind + 1) &&
         (|key| == |body| && longopts[r.idx.value].hasArg == RequiredArgument ==>
            r.step.cur.optarg == argv[cur.optind + 1] && r.step.cur.optind == cur.optind + 2))
  {
    var s := argv[cur.optind].value;
    assert LongBody(s) == s[2..];
    LookupMeaning(longopts, Key(s[2..]));
  }

  /**
   * A "--" element that names one entry but misuses it: "=value" on an entry without an
   * argument is '?', and a required argument missing at the end of argv is ':' in ':'
   * mode and '?' otherwise; both set optopt to the entry's val and do not report idx.
   */
  lemma {:induction false} LongArgumentErrors(argv: Argv, argc: int, optstring: string, longopts: seq<LongOption>, cur: Cursor)
    requires CoreReady(argv, argc, optstring, longopts, cur)
    requires var s := argv[cur.optind].value; CharAt(s, 0) == '-' && CharAt(s, 1) == '-' && CharAt(s, 2) != '\0'
    requires Looked(argv[cur.optind].value, optstring, longopts, false).cnt == 1
    ensures var s := argv[cur.optind].value;
      var body := s[2..];
      var o := longopts[Looked(s, optstring, longopts, false).entry];
      var r := CoreSpec(argv, argc, optstring, longopts, false, cur);
      (|Key(body)| < |body| && o.hasArg == NoArgument ==>
         r.idx.None? && r.step.ret == QUESTION && r.step.cur.optopt == o.val && r.step.cur.optind == cur.optind + 1) &&
      (|Key(body)| == |body| && o.hasArg == RequiredArgument && argv[cur.optind + 1].None? ==>
         r.idx.None? && r.step.ret == (if ColonMode(optstring) then COLON else QUESTION) &&
         r.step.cur.optopt == o.val && r.step.cur.optind == cur.optind + 1)
  {
    var s := argv[cur.optind].value;
    assert LongBody(s) == s[2..];
  }

  /** Moving the consumed elements only reorders argv. */
  lemma {:induction false} MovedPermutes(s: Argv, skipped: nat, mid: nat, end: nat)
    requires skipped <= mid <= end <= |s|
    ensures multiset(Moved(s, skipped, mid, end)) == multiset(s)
  {
    assert s == s[..skipped] + s[skipped..mid] + s[mid..end] + s[end..];
  }

  /**
   * After the move: the consumed elements [mid, end) sit at skipped in their order, the skipped
   * operands follow them in theirs, and everything outside [skipped, end) is untouched.
   */
  lemma {:induction false} MovedLayout(s: Argv, skipped: nat, mid: nat, end: nat)
    requires skipped <= mid <= end <= |s|
    ensures var r := Moved(s, skipped, mid, end);
      r[..skipped] == s[..skipped] && r[end..] == s[end..] &&
      r[skipped..skipped + (end - mid)] == s[mid..end] &&
      r[skipped + (end - mid)..end] == s[skipped..mid]
  {
  }

  /**
   * A call of getopt_long only reorders argv, and when it skipped operands they now follow
   * the elements it consumed, which end at the new optind.
   */
  lemma {:induction false} GetoptLongPermutes(argv: Argv, argc: int, optstring: string, longopts: seq<LongOption>, longonly: bool, cur0: Cursor)
    requires LongReady(argv, argc, optstring, longopts, cur0)
    ensures var r := GetoptLongSpec(argv, argc, optstring, longopts, longonly, cur0);
      multiset(r.argv) == multiset(argv) &&
      (var cur := Reset(cur0);
       var resumed := Resumed(argv, argc, optstring, cur);
       resumed.Some? && resumed.value > cur.optind ==>
         var skippedCount := resumed.value - cur.optind;
         cur.optind <= r.cur.optind && r.cur.optind + skippedCount <= |argv| &&
         r.argv[r.cur.optind..r.cur.optind + skippedCount] == argv[cur.optind..resumed.value] &&
         (forall j :: cur.optind <= j < resumed.value ==> argv[j].Some? && !OptionLike(argv[j].value)))
  {
    var cur := Reset(cur0);
    var resumed := Resumed(argv, argc, optstring, cur);
    if resumed.Some? {
      var core := CoreSpec(argv, argc, optstring, longopts, longonly, cur.(optind := resumed.value));
      if resumed.value > cur.optind {
        var end := core.step.cur.optind;
        MovedPermutes(argv, cur.optind, resumed.value, end);
        MovedLayout(argv, cur.optind, resumed.value, end);
        var r := GetoptLongSpec(argv, argc, optstring, longopts, longonly, cur0);
        assert r.argv == Moved(argv, cur.optind, resumed.value, end);
        assert r.cur.optind == cur.optind + (end - resumed.value);
      }
    }
  }

  /** The cursor globals of the scanner. */
  class OptState {
    var optind: int
    var optpos: nat
    var optarg: Option<string>
    var optopt: int

    function Cur(): Cursor
      reads this
    {
      Cursor(optind, optpos, optarg, optopt)
    }

    /** `char *optarg; int optind=1, opterr=1, optopt, optpos;` */
    constructor()
      ensures Cur() == Cursor(1, 0, None, 0)
    {
      optind := 1;
      optpos := 0;
      optarg := None;
      optopt := 0;
    }

    /** getopt(argc, argv, optstring). */
    method Getopt(argv: Argv, argc: int, optstring: string) returns (ret: int)
      requires GetoptReady(argv, argc, optstring, Cur())
      modifies this
      ensures Step(Cur(), ret) == GetoptSpec(argv, argc, optstring, old(Cur()))
    {
      if optind == 0 {
        optind := 1;
        optpos := 0;
      }
      if optind >= argc || argv[optind].None? {
        return -1;
      }
      var s := argv[optind].value;
      if CharAt(s, 0) != '-' {
        if CharAt(optstring, 0) == '-' {
          optarg := Some(s);
          optind := optind + 1;
          return 1;
        }
        return -1;
      }
      if CharAt(s, 1) == '\0' {
        return -1;
      }
      if CharAt(s, 1) == '-' && CharAt(s, 2) == '\0' {
        optind := optind + 1;
        return -1;
      }
      ret := ShortOption(argv, argc, optstring);
    }

    /** The part of getopt that reads one option character and its argument. */
    method ShortOption(argv: Argv, argc: int, optstring: string) returns (ret: int)
      requires AtShortOption(argv, argc, optstring, Cur())
      modifies this
      ensures Step(Cur(), ret) == ShortSpec(argv, argc, optstring, old(Cur()))
    {
      ghost var cur := Cur();
      var c := ReadOptChar(argv, argc, optstring);
      var os := if CharAt(optstring, 0) == '-' || CharAt(optstring, 0) == '+' then optstring[1..] else optstring;
      assert os == Shifted(optstring);
      var i, d := ScanOptstring(os, c);
      if d != c || c == ':' {
        optopt := c as int;
        return QUESTION;
      }
      if CharAt(os, i) == ':' {
        ret := ArgumentOption(argv, argc, optstring, cur, c, os, CharAt(os, i + 1) != ':');
        return;
      }
      return c as int;
    }

    /** Reads the option character at optpos and steps past it (to the next element after the last). */
    method ReadOptChar(argv: Argv, argc: int, optstring: string) returns (c: char)
      requires AtShortOption(argv, argc, optstring, Cur())
      modifies this
      ensures c == OptChar(argv, argc, optstring, old(Cur())) && c != '\0'
      ensures Cur() == old(Cur()).(optind := NextInd(argv, argc, optstring, old(Cur())), optpos := NextPos(argv, argc, optstring, old(Cur())))
    {
      var s := argv[optind].value;
      if optpos == 0 {
        optpos := 1;
      }
      c := s[optpos];
      optpos := optpos + 1;
      if CharAt(s, optpos) == '\0' {
        optind := optind + 1;
        optpos := 0;
      }
    }

    /** An option declared with ':': getopt's optarg handling once the character is consumed. */
    method ArgumentOption(argv: Argv, argc: int, optstring: string, ghost cur: Cursor, c: char, os: string, required: bool) returns (ret: int)
      requires AtShortOption(argv, argc, optstring, cur)
      requires c == OptChar(argv, argc, optstring, cur) && os == Shifted(optstring)
      requires optind == NextInd(argv, argc, optstring, cur) && optpos == NextPos(argv, argc, optstring, cur)
      requires optarg == cur.optarg && optopt == cur.optopt
      modifies this
      ensures Step(Cur(), ret) == ArgumentSpec(argv, argc, optstring, cur, required)
    {
      optarg := None;
      if required || optpos != 0 {
        optarg := if argv[optind].Some? then Some(argv[optind].value[optpos..]) else None;
        optind := optind + 1;
        optpos := 0;
      }
      if optind > argc {
        optopt := c as int;
        if CharAt(os, 0) == ':' {
          return COLON;
        }
        return QUESTION;
      }
      return c as int;
    }

    /** __getopt_long_core. */
    method GetoptLongCore(argv: Argv, argc: int, optstring: string, longopts: seq<LongOption>, longonly: bool) returns (ret: int, idx: Option<nat>)
      requires CoreReady(argv, argc, optstring, longopts, Cur())
      modifies this
      ensures CoreStep(Step(Cur(), ret), idx) == CoreSpec(argv, argc, optstring, longopts, longonly, old(Cur()))
    {
      optarg := None;
      var s := argv[optind].value;
      if CharAt(s, 0) == '-' && ((longonly && CharAt(s, 1) != '\0' && CharAt(s, 1) != '-') || (CharAt(s, 1) == '-' && CharAt(s, 2) != '\0')) {
        var colon := CharAt(optstring, if CharAt(optstring, 0) == '+' || CharAt(optstring, 0) == '-' then 1 else 0) == ':';
        assert colon == ColonMode(optstring);
        var l, body, argPos := LookupElement(s, optstring, longopts, longonly);
        if l.cnt == 1 {
          ret, idx := LongMatch(argv, argc, optstring, longopts, l.entry, body, argPos, colon);
          return;
        }
        if CharAt(s, 1) == '-' {
          optopt := 0;
          optind := optind + 1;
          return QUESTION, None;
        }
      }
      ret := Getopt(argv, argc, optstring);
      idx := None;
    }

    /** The matched-entry branch of __getopt_long_core; eq is where the name ends in body. */
    method LongMatch(argv: Argv, argc: int, optstring: string, longopts: seq<LongOption>, m: nat, body: string, eq: nat, colon: bool)
      returns (ret: int, idx: Option<nat>)
      requires ArgvOk(argv, argc) && 0 <= optind < argc && m < |longopts|
      requires eq == FirstOrEnd(body, '=') && colon == ColonMode(optstring) && NoNul(body) && optarg.None?
      modifies this
      ensures CoreStep(Step(Cur(), ret), idx) == LongMatchSpec(argv, argc, optstring, longopts, old(Cur()), m, body)
    {
      var o := longopts[m];
      optind := optind + 1;
      if CharAt(body, eq) == '=' {
        if o.hasArg == NoArgument {
          optopt := o.val;
          return QUESTION, None;
        }
        optarg := Some(body[eq + 1..]);
      } else if o.hasArg == RequiredArgument {
        optarg := argv[optind];
        if optarg.None? {
          optopt := o.val;
          if colon {
            return COLON, None;
          }
          return QUESTION, None;
        }
        optind := optind + 1;
      }
      return o.val, Some(m);
    }

    /** __getopt_long(argc, argv, optstring, longopts, idx, longonly). */
    method GetoptLongMode(argv: array<Option<string>>, argc: int, optstring: string, longopts: seq<LongOption>, longonly: bool)
      returns (ret: int, idx: Option<nat>)
      requires LongReady(argv[..], argc, optstring, longopts, Cur())
      modifies this, argv
      ensures LongStep(argv[..], Cur(), ret, idx) == GetoptLongSpec(old(argv[..]), argc, optstring, longopts, longonly, old(Cur()))
    {
      ghost var s0 := argv[..];
      if optind == 0 {
        optind := 1;
        optpos := 0;
      }
      if optind >= argc || argv[optind].None? {
        return -1, None;
      }
      var skipped := optind;
      if CharAt(optstring, 0) != '+' && CharAt(optstring, 0) != '-' {
        var next := SkipOperands(argv, argc, optind);
        if next.None? {
          return -1, None;
        }
        optind := next.value;
      }
      var resumed := optind;
      ret, idx := GetoptLongCore(argv[..], argc, optstring, longopts, longonly);
      if resumed > skipped {
        var cnt := optind - resumed;
        MoveConsumed(argv, skipped, resumed, optind);
        optind := skipped + cnt;
      }
    }

    /** getopt_long(argc, argv, optstring, longopts, idx). */
    method GetoptLong(argv: array<Option<string>>, argc: int, optstring: string, longopts: seq<LongOption>) returns (ret: int, idx: Option<nat>)
      requires LongReady(argv[..], argc, optstring, longopts, Cur())
      modifies this, argv
      ensures LongStep(argv[..], Cur(), ret, idx) == GetoptLongSpec(old(argv[..]), argc, optstring, longopts, false, old(Cur()))
    {
      ret, idx := GetoptLongMode(argv, argc, optstring, longopts, false);
    }

    /** getopt_long_only(argc, argv, optstring, longopts, idx). */
    method GetoptLongOnly(argv: array<Option<string>>, argc: int, optstring: string, longopts: seq<LongOption>) returns (ret: int, idx: Option<nat>)
      requires LongReady(argv[..], argc, optstring, longopts, Cur())
      modifies this, argv
      ensures LongStep(argv[..], Cur(), ret, idx) == GetoptLongSpec(old(argv[..]), argc, optstring, longopts, true, old(Cur()))
    {
      ret, idx := GetoptLongMode(argv, argc, optstring, longopts, true);
    }
  }
}
