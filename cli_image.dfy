/**
 * Image buffer assembly in the classic command-line front end (cli_classic.c):
 * the include-file overlay of `-i <region>:<file>`, the extraction of included regions
 * into files, and the read / extract / write / verify transactions that build a
 * chip-sized buffer before handing it to the chip-programming primitive.
 *
 * File I/O is abstracted: a file system maps names to contents, a read of `size` bytes
 * succeeds exactly when the file exists with that many bytes (the check read_buf_from_file
 * makes), and a write fails exactly for the names in an `unwritable` set. The chip-level
 * primitives (flashrom_image_read / _write / _verify) are parameters.
 */
module CliImage {
  import opened Common
  import opened Layout

  type FileSystem = map<string, seq<bv8>>

  /** One file created by write_buf_to_file: its name and its contents. */
  datatype FileWrite = FileWrite(name: string, data: seq<bv8>)

  /** What read_buf_from_file(buf, size, name) puts into the buffer, if it succeeds. */
  function ReadFile(fs: FileSystem, name: string, size: nat): Option<seq<bv8>> {
    if name in fs && |fs[name]| == size then Some(fs[name]) else None
  }

  /** The entry's include file, if it has one, holds exactly the region's byte count. */
  predicate IncludeFileReadable(e: RomEntry, fs: FileSystem) {
    HasIncludeFile(e) ==> e.file.value in fs && |fs[e.file.value]| == e.region.end - e.region.start + 1
  }

  predicate IncludeFilesReadable(l: Layout, fs: FileSystem) {
    forall k :: 0 <= k < |l| ==> IncludeFileReadable(l[k], fs)
  }

  /** `buf` with `data` stored from offset `start` on. */
  function Patch(buf: seq<bv8>, start: nat, data: seq<bv8>): seq<bv8>
    requires start + |data| <= |buf|
  {
    seq(|buf|, i requires 0 <= i < |buf| => if start <= i < start + |data| then data[i - start] else buf[i])
  }

  /**
   * The buffer after every included entry with a file, in layout order, has had its
   * range [start, end] replaced by that file's contents.
   */
  function Overlay(buf: seq<bv8>, l: Layout, fs: FileSystem): (r: seq<bv8>)
    requires IncludedFilesFit(l, |buf|) && IncludeFilesReadable(l, fs)
    ensures |r| == |buf|
    decreases |l|
  {
    if l == [] then buf
    else
      var init := l[..|l| - 1];
      assert forall k :: 0 <= k < |init| ==> init[k] == l[k];
      var prev := Overlay(buf, init, fs);
      var e := l[|l| - 1];
      if HasIncludeFile(e) then Patch(prev, e.region.start, fs[e.file.value]) else prev
  }

  /** A byte that no included file region covers keeps the value it had. */
  lemma {:induction false} OverlayOutside(buf: seq<bv8>, l: Layout, fs: FileSystem, p: nat)
    requires IncludedFilesFit(l, |buf|) && IncludeFilesReadable(l, fs)
    requires p < |buf|
    requires forall k :: 0 <= k < |l| && HasIncludeFile(l[k]) ==> !(l[k].region.start <= p <= l[k].region.end)
    ensures Overlay(buf, l, fs)[p] == buf[p]
  {
    if l != [] {
      var init := l[..|l| - 1];
      assert forall k :: 0 <= k < |init| ==> init[k] == l[k];
      OverlayOutside(buf, init, fs, p);
    }
  }

  /** An overlap among the first n entries is an overlap of the whole layout. */
  lemma OverlapOfPrefix(l: Layout, n: nat)
    requires n <= |l|
    ensures IncludedRegionsOverlap(l[..n]) ==> IncludedRegionsOverlap(l)
  {
    if IncludedRegionsOverlap(l[..n]) {
      var i, j :| 0 <= i < j < n && l[..n][i].included && l[..n][j].included && Intersect(l[..n][i].region, l[..n][j].region);
      assert l[i] == l[..n][i] && l[j] == l[..n][j];
    }
  }

  /**
   * When the included regions do not overlap, every byte of an included region with a
   * file comes from that file, whatever was in the buffer before.
   */
  lemma {:induction false} OverlayInside(buf: seq<bv8>, l: Layout, fs: FileSystem, k: nat, p: nat)
    requires IncludedFilesFit(l, |buf|) && IncludeFilesReadable(l, fs)
    requires !IncludedRegionsOverlap(l)
    requires k < |l| && HasIncludeFile(l[k]) && l[k].region.start <= p <= l[k].region.end
    ensures Overlay(buf, l, fs)[p] == fs[l[k].file.value][p - l[k].region.start]
  {
    var n := |l| - 1;
    var init := l[..n];
    assert forall j :: 0 <= j < |init| ==> init[j] == l[j];
    if k < n {
      OverlapOfPrefix(l, n);
      OverlayInside(buf, init, fs, k, p);
      if HasIncludeFile(l[n]) {
        assert !(l[k].included && l[n].included && Intersect(l[k].region, l[n].region));
      }
    }
  }

  /**
   * read_buf_from_include_args: rejects overlapping included regions without touching the
   * buffer; otherwise lays each include file over its region, in layout order.
   */
  method ReadBufFromIncludeArgs(l: Layout, buf: array<bv8>, fs: FileSystem) returns (ret: int)
    requires IncludedFilesFit(l, buf.Length)
    modifies buf
    ensures ret == 0 || ret == 1
    ensures IncludedRegionsOverlap(l) ==> ret == 1 && buf[..] == old(buf[..])
    ensures ret == 0 <==> !IncludedRegionsOverlap(l) && IncludeFilesReadable(l, fs)
    ensures ret == 0 ==> buf[..] == Overlay(old(buf[..]), l, fs)
  {
    if IncludedRegionsOverlap(l) {
      return 1;
    }
    ghost var orig := buf[..];
    var k := 0;
    while k < |l|
      invariant 0 <= k <= |l|
      invariant IncludeFilesReadable(l[..k], fs)
      invariant IncludedFilesFit(l[..k], buf.Length)
      invariant buf[..] == Overlay(orig, l[..k], fs)
    {
      var e := l[k];
      assert l[..k + 1][..k] == l[..k];
      assert l[..k + 1][k] == e;
      if HasIncludeFile(e) {
        var data := ReadFile(fs, e.file.value, e.region.end - e.region.start + 1);
        if data.None? {
          assert !IncludeFileReadable(l[k], fs);
          return 1;
        }
        ghost var before := buf[..];
        forall i | e.region.start <= i <= e.region.end {
          buf[i] := data.value[i - e.region.start];
        }
        assert buf[..] == Patch(before, e.region.start, data.value);
      }
      k := k + 1;
    }
    assert l[..k] == l;
    return 0;
  }

  /** The files write_buf_to_include_args creates from `buf`, in layout order. */
  function IncludeFileWrites(buf: seq<bv8>, l: Layout): seq<FileWrite>
    requires IncludedFilesFit(l, |buf|)
    decreases |l|
  {
    if l == [] then []
    else
      var init := l[..|l| - 1];
      assert forall k :: 0 <= k < |init| ==> init[k] == l[k];
      var e := l[|l| - 1];
      IncludeFileWrites(buf, init)
        + (if HasIncludeFile(e) then [FileWrite(e.file.value, buf[e.region.start..e.region.end + 1])] else [])
  }

  predicate NoneUnwritable(ws: seq<FileWrite>, unwritable: set<string>) {
    forall i :: 0 <= i < |ws| ==> ws[i].name !in unwritable
  }

  /** `written` is the part of `planned` done before the first write that failed. */
  predicate StoppedAtFirstFailure(written: seq<FileWrite>, planned: seq<FileWrite>, unwritable: set<string>) {
    |written| < |planned| && written == planned[..|written|]
    && planned[|written|].name in unwritable && NoneUnwritable(written, unwritable)
  }

  /** The files of a prefix of the layout are a prefix of the layout's files. */
  lemma {:induction false} IncludeFileWritesPrefix(buf: seq<bv8>, l: Layout, k: nat)
    requires IncludedFilesFit(l, |buf|) && k <= |l|
    ensures IncludedFilesFit(l[..k], |buf|)
    ensures |IncludeFileWrites(buf, l[..k])| <= |IncludeFileWrites(buf, l)|
    ensures IncludeFileWrites(buf, l)[..|IncludeFileWrites(buf, l[..k])|] == IncludeFileWrites(buf, l[..k])
    decreases |l| - k
  {
    assert forall j :: 0 <= j < k ==> l[..k][j] == l[j];
    if k < |l| {
      var n := |l| - 1;
      var init := l[..n];
      assert forall j :: 0 <= j < |init| ==> init[j] == l[j];
      IncludeFileWritesPrefix(buf, init, k);
      assert init[..k] == l[..k];
    } else {
      assert l[..k] == l;
    }
  }

  /** One more entry of the layout adds its file, if it has one, at the end. */
  lemma IncludeFileWritesSnoc(buf: seq<bv8>, l: Layout, k: nat)
    requires IncludedFilesFit(l, |buf|) && k < |l|
    ensures IncludedFilesFit(l[..k], |buf|) && IncludedFilesFit(l[..k + 1], |buf|)
    ensures IncludeFileWrites(buf, l[..k + 1]) == IncludeFileWrites(buf, l[..k]) + LastWrite(buf, l[k])
  {
    assert l[..k + 1] == l[..k] + [l[k]];
    FitsPrefix(l, k, |buf|);
    IncludeFileWritesLast(buf, l[..k], l[k]);
  }

  /** The writes of a layout with one more entry are those of the layout, then that entry's file. */
  lemma IncludeFileWritesLast(buf: seq<bv8>, init: Layout, e: RomEntry)
    requires IncludedFilesFit(init, |buf|) && (HasIncludeFile(e) ==> e.region.start <= e.region.end < |buf|)
    ensures IncludedFilesFit(init + [e], |buf|)
    ensures IncludeFileWrites(buf, init + [e]) == IncludeFileWrites(buf, init) + LastWrite(buf, e)
  {
    var m := init + [e];
    forall k | 0 <= k < |m| && HasIncludeFile(m[k])
      ensures m[k].region.start <= m[k].region.end < |buf|
    {
      if k < |init| { assert m[k] == init[k]; } else { assert m[k] == e; }
    }
    assert m[..|m| - 1] == init && m[|m| - 1] == e;
    assert IncludeFileWrites(buf, m) == IncludeFileWrites(buf, m[..|m| - 1]) + LastWrite(buf, e);
  }

  /** The write an entry contributes when it comes last in the layout. */
  function LastWrite(buf: seq<bv8>, e: RomEntry): seq<FileWrite>
    requires HasIncludeFile(e) ==> e.region.start <= e.region.end < |buf|
  {
    if HasIncludeFile(e) then [FileWrite(e.file.value, buf[e.region.start..e.region.end + 1])] else []
  }

  lemma FitsPrefix(l: Layout, n: nat, size: nat)
    requires IncludedFilesFit(l, size) && n <= |l|
    ensures IncludedFilesFit(l[..n], size)
  {
    assert forall j :: 0 <= j < n ==> l[..n][j] == l[j];
  }

  /**
   * write_buf_to_include_args: writes each included region that has a file out of the
   * buffer, in layout order, and stops at the first write that fails.
   */
  method WriteBufToIncludeArgs(l: Layout, buf: array<bv8>, unwritable: set<string>)
    returns (ret: int, written: seq<FileWrite>)
    requires IncludedFilesFit(l, buf.Length)
    ensures ret == 0 || ret == 1
    ensures ret == 0 <==> NoneUnwritable(IncludeFileWrites(buf[..], l), unwritable)
    ensures ret == 0 ==> written == IncludeFileWrites(buf[..], l)
    ensures ret == 1 ==> StoppedAtFirstFailure(written, IncludeFileWrites(buf[..], l), unwritable)
  {
    ghost var b := buf[..];
    written := [];
    var k := 0;
    assert l[..0] == [];
    while k < |l|
      invariant 0 <= k <= |l|
      invariant IncludedFilesFit(l[..k], |b|)
      invariant written == IncludeFileWrites(b, l[..k])
      invariant NoneUnwritable(written, unwritable)
    {
      var e := l[k];
      IncludeFileWritesSnoc(b, l, k);
      if HasIncludeFile(e) {
        var w := FileWrite(e.file.value, buf[e.region.start..e.region.end + 1]);
        assert w.data == b[e.region.start..e.region.end + 1];
        if w.name in unwritable {
          IncludeFileWritesPrefix(b, l, k + 1);
          assert IncludeFileWrites(b, l)[|written|] == w;
          return 1, written;
        }
        written := written + [w];
      }
      k := k + 1;
    }
    assert l[..k] == l;
    return 0, written;
  }

  /**
   * do_read: reads the whole chip into a zeroed buffer, writes the include files out of it
   * first and then, if a file name was given, the whole image. Only a positive result of
   * the read primitive counts as failure; a negative one is returned when no file is given.
   *
   * The read primitive is (readRet, chipData): its return code and what it leaves in the buffer.
   */
  method DoRead(size: nat, l: Layout, filename: Option<string>, allocOk: bool,
                readRet: int, chipData: seq<bv8>, unwritable: set<string>)
    returns (ret: int, written: seq<FileWrite>)
    requires |chipData| == size
    requires IncludedFilesFit(l, size)
    ensures !allocOk ==> ret == 1 && written == []
    ensures allocOk && readRet > 0 ==> ret == readRet && written == []
    ensures allocOk && readRet <= 0 && !NoneUnwritable(IncludeFileWrites(chipData, l), unwritable) ==>
      ret == 1 && StoppedAtFirstFailure(written, IncludeFileWrites(chipData, l), unwritable)
    ensures allocOk && readRet <= 0 && NoneUnwritable(IncludeFileWrites(chipData, l), unwritable) ==>
      match filename
      case None => ret == readRet && written == IncludeFileWrites(chipData, l)
      case Some(f) =>
        ret == (if f in unwritable then 1 else 0)
        && written == IncludeFileWrites(chipData, l) + (if f in unwritable then [] else [FileWrite(f, chipData)])
  {
    if !allocOk {
      return 1, [];
    }
    var buf := new bv8[size];
    forall i | 0 <= i < size {
      buf[i] := chipData[i];
    }
    assert buf[..] == chipData;
    ret := readRet;
    if ret > 0 {
      return ret, [];
    }
    var incRet;
    incRet, written := WriteBufToIncludeArgs(l, buf, unwritable);
    if incRet != 0 {
      return 1, written;
    }
    if filename.Some? {
      if filename.value in unwritable {
        ret := 1;
      } else {
        written := written + [FileWrite(filename.value, buf[..])];
        ret := 0;
      }
    }
  }

  /**
   * The layout prepare_layout_for_extraction leaves behind: every region included, each
   * with a file, named after the region unless it already had one. (That helper lives in
   * layout.c, which is not part of this model.)
   */
  function PrepareLayoutForExtraction(l: Layout): (p: Layout)
    ensures |p| == |l| && AllWithFiles(p)
    ensures forall k :: 0 <= k < |l| ==> p[k].region == l[k].region && p[k].included
    ensures forall k :: 0 <= k < |l| ==> l[k].file.Some? ==> p[k].file == l[k].file
  {
    seq(|l|, k requires 0 <= k < |l| =>
      RomEntry(l[k].region, true, Some(if l[k].file.Some? then l[k].file.value else l[k].region.name)))
  }

  /** do_extract: a read with every region its own output file and no whole-chip file. */
  method DoExtract(size: nat, l: Layout, allocOk: bool, readRet: int, chipData: seq<bv8>, unwritable: set<string>)
    returns (ret: int, written: seq<FileWrite>)
    requires |chipData| == size
    requires AllRegionsFit(l, size)
    ensures IncludedFilesFit(PrepareLayoutForExtraction(l), size)
    ensures !allocOk ==> ret == 1 && written == []
    ensures allocOk && readRet > 0 ==> ret == readRet && written == []
    ensures allocOk && readRet <= 0 && NoneUnwritable(IncludeFileWrites(chipData, PrepareLayoutForExtraction(l)), unwritable) ==>
      ret == readRet && written == IncludeFileWrites(chipData, PrepareLayoutForExtraction(l))
    ensures allocOk && readRet <= 0 && !NoneUnwritable(IncludeFileWrites(chipData, PrepareLayoutForExtraction(l)), unwritable) ==>
      ret == 1 && StoppedAtFirstFailure(written, IncludeFileWrites(chipData, PrepareLayoutForExtraction(l)), unwritable)
  {
    var prepared := PrepareLayoutForExtraction(l);
    ret, written := DoRead(size, prepared, None, allocOk, readRet, chipData, unwritable);
  }

  /** The byte contents of a sequence of files, one after the other. */
  function Concat(ws: seq<FileWrite>): seq<bv8>
    decreases |ws|
  {
    if ws == [] then [] else Concat(ws[..|ws| - 1]) + ws[|ws| - 1].data
  }

  /** The regions cover [0, last end] back to back, in layout order. */
  predicate Contiguous(l: Layout) {
    |l| > 0 && l[0].region.start == 0
    && (forall k :: 0 <= k < |l| ==> l[k].region.start <= l[k].region.end)
    && (forall k :: 0 < k < |l| ==> l[k].region.start == l[k - 1].region.end + 1)
  }

  /**
   * Extraction round trip: for regions that tile the chip back to back, the files that
   * extraction writes, put end to end, are exactly the chip contents that were read.
   */
  lemma ExtractedFilesTileImage(buf: seq<bv8>, l: Layout)
    requires Contiguous(l) && l[|l| - 1].region.end + 1 == |buf|
    ensures IncludedFilesFit(PrepareLayoutForExtraction(l), |buf|)
    ensures Concat(IncludeFileWrites(buf, PrepareLayoutForExtraction(l))) == buf
  {
    var p := PrepareLayoutForExtraction(l);
    ContiguousEndsBounded(l);
    assert Contiguous(p) && IncludedFilesFit(p, |buf|);
    ContiguousFilesConcat(buf, p);
    assert buf[..p[|p| - 1].region.end + 1] == buf;
  }

  /** In a contiguous layout no region ends after the last one. */
  lemma {:induction false} ContiguousEndsBounded(l: Layout)
    requires Contiguous(l)
    ensures forall k :: 0 <= k < |l| ==> l[k].region.end <= l[|l| - 1].region.end
    decreases |l|
  {
    var n := |l| - 1;
    if n > 0 {
      var init := l[..n];
      assert forall k :: 0 <= k < |init| ==> init[k] == l[k];
      ContiguousEndsBounded(init);
    }
  }

  lemma SliceJoin(buf: seq<bv8>, a: nat, b: nat)
    requires a <= b <= |buf|
    ensures buf[..a] + buf[a..b] == buf[..b]
  {
  }

  /** Every entry of the layout has an include file. */
  predicate AllWithFiles(l: Layout) {
    forall k :: 0 <= k < |l| ==> HasIncludeFile(l[k])
  }

  /** For back-to-back regions that all have files, the files laid end to end are the buffer prefix. */
  lemma {:induction false} ContiguousFilesConcat(buf: seq<bv8>, p: Layout)
    requires Contiguous(p) && AllWithFiles(p) && IncludedFilesFit(p, |buf|)
    ensures Concat(IncludeFileWrites(buf, p)) == buf[..p[|p| - 1].region.end + 1]
    decreases |p|
  {
    var n := |p| - 1;
    var e := p[n];
    IncludeFileWritesSnoc(buf, p, n);
    assert p[..n + 1] == p;
    var ws := IncludeFileWrites(buf, p[..n]);
    var w := FileWrite(e.file.value, buf[e.region.start..e.region.end + 1]);
    assert IncludeFileWrites(buf, p) == ws + [w];
    assert (ws + [w])[..|ws|] == ws;
    if n == 0 {
      assert p[..n] == [];
    } else {
      var init := p[..n];
      assert forall k :: 0 <= k < |init| ==> init[k] == p[k];
      assert Contiguous(init) && AllWithFiles(init);
      ContiguousFilesConcat(buf, init);
      assert e.region.start == p[n - 1].region.end + 1;
      SliceJoin(buf, e.region.start, e.region.end + 1);
    }
  }

  /** What the write path hands to the write primitive. */
  datatype WriteRequest = WriteRequest(newcontents: seq<bv8>, refcontents: Option<seq<bv8>>)

  /** The operation file (if any) and the include files can all be loaded, without overlap. */
  predicate AssemblyOk(size: nat, l: Layout, filename: Option<string>, fs: FileSystem) {
    (filename.None? || ReadFile(fs, filename.value, size).Some?)
    && !IncludedRegionsOverlap(l) && IncludeFilesReadable(l, fs)
  }

  /**
   * The chip-sized image of the write and verify paths: the operation file seeds the
   * buffer (bytes left over from allocation, `junk`, when there is none) and the include
   * files are laid over it.
   */
  function AssembledImage(size: nat, l: Layout, filename: Option<string>, fs: FileSystem, junk: seq<bv8>): seq<bv8>
    requires |junk| == size && IncludedFilesFit(l, size) && AssemblyOk(size, l, filename, fs)
  {
    Overlay(if filename.Some? then fs[filename.value] else junk, l, fs)
  }

  /** Copies a loaded file into a chip-sized buffer (the effect of read_buf_from_file). */
  method Load(buf: array<bv8>, data: seq<bv8>)
    requires |data| == buf.Length
    modifies buf
    ensures buf[..] == data
  {
    forall i | 0 <= i < buf.Length {
      buf[i] := data[i];
    }
  }

  /**
   * do_write: the write primitive runs only after the operation file, the include files
   * and (if given) the reference file have all loaded; the reference buffer is passed
   * exactly when a reference file was given. Any earlier failure returns 1.
   * The malloc'ed buffer starts with arbitrary bytes `junk`.
   */
  method DoWrite(size: nat, l: Layout, filename: Option<string>, referencefile: Option<string>,
                 fs: FileSystem, allocOk: bool, junk: seq<bv8>, imageWrite: WriteRequest -> int)
    returns (ret: int, request: Option<WriteRequest>)
    requires |junk| == size && IncludedFilesFit(l, size)
    ensures request.Some? <==>
      allocOk && AssemblyOk(size, l, filename, fs)
      && (referencefile.None? || ReadFile(fs, referencefile.value, size).Some?)
    ensures request.None? ==> ret == 1
    ensures request.Some? ==>
      ret == imageWrite(request.value)
      && request.value.newcontents == AssembledImage(size, l, filename, fs, junk)
      && request.value.refcontents == (if referencefile.Some? then Some(fs[referencefile.value]) else None)
  {
    if !allocOk {
      return 1, None;
    }
    var newcontents := new bv8[size](i requires 0 <= i < size => junk[i]);
    assert newcontents[..] == junk;
    if filename.Some? {
      var data := ReadFile(fs, filename.value, size);
      if data.None? {
        return 1, None;
      }
      Load(newcontents, data.value);
    }
    var incRet := ReadBufFromIncludeArgs(l, newcontents, fs);
    if incRet != 0 {
      return 1, None;
    }
    var refOpt: Option<seq<bv8>> := None;
    if referencefile.Some? {
      var refData := ReadFile(fs, referencefile.value, size);
      if refData.None? {
        return 1, None;
      }
      var refcontents := new bv8[size];
      Load(refcontents, refData.value);
      refOpt := Some(refcontents[..]);
    }
    request := Some(WriteRequest(newcontents[..], refOpt));
    ret := imageWrite(request.value);
  }

  /**
   * do_verify: the same assembly as the write path, without a reference buffer; the
   * verify primitive runs only when assembly succeeded.
   */
  method DoVerify(size: nat, l: Layout, filename: Option<string>, fs: FileSystem,
                  allocOk: bool, junk: seq<bv8>, imageVerify: seq<bv8> -> int)
    returns (ret: int, verified: Option<seq<bv8>>)
    requires |junk| == size && IncludedFilesFit(l, size)
    ensures verified.Some? <==> allocOk && AssemblyOk(size, l, filename, fs)
    ensures verified.None? ==> ret == 1
    ensures verified.Some? ==>
      ret == imageVerify(verified.value) && verified.value == AssembledImage(size, l, filename, fs, junk)
  {
    if !allocOk {
      return 1, None;
    }
    var newcontents := new bv8[size](i requires 0 <= i < size => junk[i]);
    assert newcontents[..] == junk;
    if filename.Some? {
      var data := ReadFile(fs, filename.value, size);
      if data.None? {
        return 1, None;
      }
      Load(newcontents, data.value);
    }
    var incRet := ReadBufFromIncludeArgs(l, newcontents, fs);
    if incRet != 0 {
      return 1, None;
    }
    verified := Some(newcontents[..]);
    ret := imageVerify(verified.value);
  }

  /**
   * The assembled image holds each include file inside its region and the operation file
   * (or the allocation's leftover bytes) everywhere else.
   */
  lemma AssembledImageLayout(size: nat, l: Layout, filename: Option<string>, fs: FileSystem, junk: seq<bv8>, p: nat)
    requires |junk| == size && IncludedFilesFit(l, size) && AssemblyOk(size, l, filename, fs)
    requires p < size
    ensures forall k :: 0 <= k < |l| && HasIncludeFile(l[k]) && l[k].region.start <= p <= l[k].region.end ==>
      AssembledImage(size, l, filename, fs, junk)[p] == fs[l[k].file.value][p - l[k].region.start]
    ensures (forall k :: 0 <= k < |l| && HasIncludeFile(l[k]) ==> !(l[k].region.start <= p <= l[k].region.end)) ==>
      AssembledImage(size, l, filename, fs, junk)[p] == (if filename.Some? then fs[filename.value] else junk)[p]
  {
    var base := if filename.Some? then fs[filename.value] else junk;
    forall k | 0 <= k < |l| && HasIncludeFile(l[k]) && l[k].region.start <= p <= l[k].region.end
      ensures Overlay(base, l, fs)[p] == fs[l[k].file.value][p - l[k].region.start]
    {
      OverlayInside(base, l, fs, k, p);
    }
    if forall k :: 0 <= k < |l| && HasIncludeFile(l[k]) ==> !(l[k].region.start <= p <= l[k].region.end) {
      OverlayOutside(base, l, fs, p);
    }
  }
}
