/** Reading a range of lines: the scan of small files, and the index-and-map read of large ones. */
module LogReader {
  import opened Lines
  import opened LineIndexing

  const MEMORY_MAP_THRESHOLD := 100 * 1024 * 1024

  /** The lines numbered from `first` on. */
  function Number(lines: seq<Bytes>, first: int): (r: seq<LogEntry>)
    ensures |r| == |lines|
  {
    seq(|lines|, i requires 0 <= i < |lines| => LogEntry(first + i, lines[i]))
  }

  lemma NumberSnoc(lines: seq<Bytes>, line: Bytes, first: int)
    ensures Number(lines + [line], first) == Number(lines, first) + [LogEntry(first + |lines|, line)]
  {
  }

  lemma NoMoreLines(src: Bytes)
    ensures RawLinesFrom(src, |src|) == []
  {
  }

  lemma HeadOfRest<T>(all: seq<T>, k: nat, x: T, rest: seq<T>)
    requires k <= |all| && all[k..] == [x] + rest
    ensures k < |all| && all[k] == x && all[k + 1..] == rest
  {
    assert |all[k..]| == 1 + |rest|;
    assert all[k..][0] == all[k];
    assert all[k + 1..] == all[k..][1..];
  }

  /** The line at a position is the next of the list, and the rest of the list starts after it. */
  lemma AdvanceLine(src: Bytes, pos: nat, count: nat)
    requires pos < |src| && count <= |RawLines(src)| && RawLinesFrom(src, pos) == RawLines(src)[count..]
    ensures var e := NewlineFrom(src, pos);
      && count < |RawLines(src)| && RawLines(src)[count] == src[pos..e]
      && RawLinesFrom(src, if e < |src| then e + 1 else |src|) == RawLines(src)[count + 1..]
  {
    hide RawLines, RawLinesFrom, NewlineFrom, NewlineFree;
    var e := NewlineFrom(src, pos);
    RawLinesFromUnfold(src, pos);
    NoMoreLines(src);
    HeadOfRest(RawLines(src), count, src[pos..e], if e == |src| then [] else RawLinesFrom(src, e + 1));
  }

  /** `bufio.Scanner` with its default split function. */
  class Scanner {
    const src: Bytes
    var pos: nat
    var text: Bytes
    ghost var count: nat

    ghost predicate Valid()
      reads this
    {
      && pos <= |src| && count <= |RawLines(src)|
      && RawLinesFrom(src, pos) == RawLines(src)[count..]
    }

    constructor (src: Bytes)
      ensures Valid() && this.src == src && count == 0
    {
      this.src := src;
      pos, text, count := 0, [], 0;
    }

    /** Moves to the next line and drops its carriage return. */
    method Scan() returns (more: bool)
      requires Valid()
      modifies this
      ensures Valid()
      ensures more == (old(count) < |ScanLines(src)|)
      ensures more ==> count == old(count) + 1 && text == ScanLines(src)[count - 1]
      ensures more ==> var raw := RawLines(src)[count - 1];
        text == if |raw| > 0 && raw[|raw| - 1] == 13 then raw[..|raw| - 1] else raw
      ensures !more ==> count == old(count)
    {
      hide RawLines, RawLinesFrom, NewlineFrom, NewlineFree;
      NoMoreLines(src);
      if pos == |src| {
        return false;
      }
      AdvanceLine(src, pos, count);
      var e := NewlineFrom(src, pos);
      text := DropCR(src[pos..e]);
      pos := if e < |src| then e + 1 else |src|;
      count := count + 1;
      more := true;
    }
  }

  lemma RangeSnoc(lines: seq<Bytes>, s: int, e: int)
    requires 1 <= s <= e + 1 && e < |lines|
    ensures Range(lines, s, e + 1) == Range(lines, s, e) + [LogEntry(e + 1, lines[e])]
  {
  }

  lemma RangeEnds(lines: seq<Bytes>, s: int, e: int)
    requires 1 <= s
    ensures e < s ==> Range(lines, s, e) == []
    ensures |lines| <= e ==> Range(lines, s, e) == Range(lines, s, |lines|)
  {
  }

  /** The loop of the scanning read. */
  method ScanRange(file: Bytes, startLine: int, endLine: int) returns (entries: seq<LogEntry>)
    requires 1 <= startLine <= endLine
    ensures entries == Range(ScanLines(file), startLine, endLine)
  {
    hide RawLines, ScanLines, Range;
    var scanner := new Scanner(file);
    var currentLine := 0;
    entries := [];
    ghost var lines := ScanLines(file);
    RangeEnds(lines, startLine, 0);
    while true
      invariant scanner.Valid() && scanner.src == file && fresh(scanner)
      invariant currentLine == scanner.count <= endLine && currentLine <= |lines|
      invariant entries == Range(lines, startLine, currentLine)
      decreases |lines| - currentLine
    {
      var more := scanner.Scan();
      if !more {
        RangeEnds(lines, startLine, endLine);
        break;
      }
      RangeEnds(lines, startLine, currentLine);
      RangeEnds(lines, startLine, currentLine + 1);
      currentLine := currentLine + 1;
      if currentLine < startLine {
        continue;
      }
      if currentLine > endLine {
        break;
      }
      RangeSnoc(lines, startLine, currentLine - 1);
      entries := entries + [LogEntry(currentLine, scanner.text)];
    }
  }

  lemma CutLast(g: Bytes, b: byte)
    ensures RawLines(g + [b]) == Complete(g) + [if b == NL then Partial(g) else Partial(g) + [b]]
  {
    hide RawLines, Complete, Partial;
    Snoc(g, b);
    RawLinesByByte(g + [b]);
    assert Complete(g) + [Partial(g)] + [] == Complete(g) + [Partial(g)];
  }

  lemma CutStep(data: Bytes, i: nat)
    requires i < |data|
    ensures Complete(data[..i + 1]) == if data[i] == NL then Complete(data[..i]) + [Partial(data[..i])] else Complete(data[..i])
    ensures Partial(data[..i + 1]) == if data[i] == NL then [] else Partial(data[..i]) + [data[i]]
    ensures i + 1 == |data| ==> (RawLines(data) == Complete(data[..i])
      + [if data[i] == NL then Partial(data[..i]) else Partial(data[..i]) + [data[i]]])
  {
    hide RawLines, Complete, Partial;
    TakeSnoc(data, i);
    Snoc(data[..i], data[i]);
    CutLast(data[..i], data[i]);
  }

  lemma OneMoreByte(data: Bytes, start: nat, i: nat)
    requires start <= i < |data|
    ensures data[start..i + 1] == data[start..i] + [data[i]]
  {
  }

  lemma NothingCut(data: Bytes)
    ensures Complete(data[..0]) == [] && Partial(data[..0]) == [] && data[0..0] == []
    ensures data == [] ==> RawLines(data) == []
  {
    assert data[..0] == [];
  }

  lemma NoBytes(data: Bytes, i: nat)
    requires i <= |data|
    ensures data[i..i] == []
  {
  }

  /** The loop that cuts a mapped slice into numbered lines. */
  method CutMapped(data: Bytes, startLine: int) returns (entries: seq<LogEntry>)
    ensures entries == Number(RawLines(data), startLine)
  {
    hide *;
    entries := [];
    var lineNum, start := startLine, 0;
    ghost var lines: seq<Bytes> := [];
    NothingCut(data);
    for i := 0 to |data|
      invariant start <= i
      invariant lineNum == startLine + |lines| && entries == Number(lines, startLine)
      invariant i < |data| ==> lines == Complete(data[..i]) && data[start..i] == Partial(data[..i])
      invariant i == |data| ==> lines == RawLines(data)
    {
      CutStep(data, i);
      OneMoreByte(data, start, i);
      NoBytes(data, i + 1);
      if data[i] == NL || i == |data| - 1 {
        var end := i;
        if i == |data| - 1 && data[i] != NL {
          end := i + 1;
        }
        NumberSnoc(lines, data[start..end], startLine);
        assert data[i] == NL || data[start..end] == data[start..i + 1];
        entries := entries + [LogEntry(lineNum, data[start..end])];
        lines := lines + [data[start..end]];
        lineNum := lineNum + 1;
        start := i + 1;
      }
    }
  }

  /** A mapping of `length` bytes, of which the program can read those in `bytes`: touching a page
      that lies wholly past the end of the file is a fault. */
  datatype Mapping = Mapping(bytes: Bytes, length: int)

  lemma RoundingUp(n: nat, page: nat)
    requires page >= 1
    ensures n <= (n + page - 1) / page * page < n + page
    ensures (n + page - 1) / page * page % page == 0
  {
    var q, r := (n + page - 1) / page, (n + page - 1) % page;
    assert n + page - 1 == q * page + r;
    MultipleMod(q, 0, page);
  }

  /** The end of the last page that holds a byte of a file of n bytes. */
  function PageEnd(n: nat, page: nat): (r: nat)
    requires page >= 1
    ensures n <= r < n + page && r % page == 0
  {
    RoundingUp(n, page);
    (n + page - 1) / page * page
  }

  function ZeroBytes(n: nat): (r: Bytes)
    ensures |r| == n && forall k :: 0 <= k < n ==> r[k] == 0
  {
    seq(n, _ => 0)
  }

  /** Of `length` bytes from an offset on, those that a file and its padding have. */
  function Window(file: Bytes, pad: Bytes, offset: nat, length: nat): (r: Bytes)
    ensures var n := |file| + |pad|;
      |r| == if offset + length <= n then length else if offset <= n then n - offset else 0
    ensures forall k {:trigger r[k]} :: 0 <= k < |r| ==>
      r[k] == if offset + k < |file| then file[offset + k] else pad[offset + k - |file|]
    ensures offset + length <= |file| ==> r == file[offset..offset + length]
  {
    var padded := file + pad;
    if offset + length <= |padded| then padded[offset..offset + length]
    else if offset <= |padded| then padded[offset..]
    else []
  }

  /** `mmap` rejects an offset that is negative or not a multiple of the page size, and a length
      that is not positive. The rest of the last page reads as zeros. */
  function Mmap(file: Bytes, offset: int, length: int, page: nat): (r: Result<Mapping>)
    requires page >= 1
    ensures r.Ok? <==> 0 <= offset && offset % page == 0 && length > 0
    ensures r.Ok? ==> r.value.length == length
    ensures r.Ok? ==> |r.value.bytes| <= length && (|r.value.bytes| < length <==> offset + length > PageEnd(|file|, page))
    ensures r.Ok? && offset + length <= |file| ==> r.value.bytes == file[offset..offset + length]
  {
    if offset < 0 || offset % page != 0 || length <= 0 then Err
    else Ok(Mapping(Window(file, ZeroBytes(PageEnd(|file|, page) - |file|), offset, length), length))
  }

  /** What a mapping shows: the bytes of the file, then zeros. */
  lemma MappedBytes(file: Bytes, offset: int, length: int, page: nat, k: nat)
    requires page >= 1
    ensures var r := Mmap(file, offset, length, page);
      r.Ok? && k < |r.value.bytes| ==> r.value.bytes[k] == if offset + k < |file| then file[offset + k] else 0
  {
  }

  datatype ReadError = BadRange | NoFile | NoIndex | Failed | IndexPanic

  /** A fault ends the whole program. */
  datatype ReadResult = Entries(entries: seq<LogEntry>) | ReadFailed(error: ReadError) | ReadFault

  /** The outcome of the mapped read of `file` with any index. */
  function ReadMapped(v: IndexValue, file: Bytes, startLine: int, endLine: int, page: nat): ReadResult
    requires page >= 1 && 1 <= startLine <= endLine
  {
    var n := |v.offsets|;
    if startLine > n || endLine > n then ReadFailed(Failed)
    else
      var from := v.offsets[startLine - 1];
      var to := if endLine == n then v.sourceSize else v.offsets[endLine];
      var data := Mmap(file, from, to - from, page);
      if data.Err? then ReadFailed(Failed)
      else if |data.value.bytes| < data.value.length then ReadFault
      else Entries(Number(RawLines(data.value.bytes), startLine))
  }

  lemma NumberIsRange(lines: seq<Bytes>, s: int, e: int)
    requires 1 <= s <= e <= |lines|
    ensures Number(lines[s - 1..e], s) == Range(lines, s, e)
  {
  }

  lemma RangePastEnd(lines: seq<Bytes>, s: int, e: int)
    requires 1 <= s && |lines| <= e
    ensures Range(lines, s, e) == Range(lines, s, |lines|)
  {
  }

  /** The lines of a map that ends at the start of an indexed line. */
  lemma MapInside(f: Bytes, s: int, e: int)
    requires 1 <= s <= e < |Offsets(f)|
    requires 0 <= Offsets(f)[s - 1] <= Offsets(f)[e] <= |f|
    ensures Number(RawLines(f[Offsets(f)[s - 1]..Offsets(f)[e]]), s) == Range(RawLines(f), s, e)
  {
    hide RawLines, Complete, Partial, Offsets, Number, Range;
    OffsetsCutFile(f);
    SliceBetweenOffsets(f, s - 1, e);
    var part := f[Offsets(f)[s - 1]..Offsets(f)[e]];
    RawLinesByByte(part);
    assert RawLines(part) == Complete(part);
    RawLinesByByte(f);
    assert Complete(f)[s - 1..e] == RawLines(f)[s - 1..e];
    NumberIsRange(RawLines(f), s, e);
  }

  /** The lines of a map that runs to the end of the file. */
  lemma MapToEnd(f: Bytes, s: int)
    requires 1 <= s <= |RawLines(f)| && s <= |Offsets(f)|
    requires 0 <= Offsets(f)[s - 1] <= |f|
    ensures Number(RawLines(f[Offsets(f)[s - 1]..]), s) == Range(RawLines(f), s, |Offsets(f)|)
  {
    hide RawLines, Complete, Partial, Offsets, Number, Range;
    OffsetsCutFile(f);
    SliceFromOffset(f, s - 1);
    RawLinesByByte(f);
    var lines := RawLines(f);
    assert Complete(f)[s - 1..] + LastPiece(f) == lines[s - 1..|lines|];
    NumberIsRange(lines, s, |lines|);
    RangePastEnd(lines, s, |Offsets(f)|);
  }

  /** The last offset is the end of the file exactly when no line is left unterminated. */
  lemma LastOffset(f: Bytes)
    ensures |Offsets(f)| == |Complete(f)| + 1 && |RawLines(f)| <= |Offsets(f)| <= |RawLines(f)| + 1
    ensures Offsets(f)[|Complete(f)|] < |f| <==> |RawLines(f)| == |Offsets(f)|
  {
    hide RawLines, Complete, Partial, Offsets;
    OffsetsCutFile(f);
    RawLinesByByte(f);
  }

  /** With the index of the file when it was f, a mapped read answers as a scan would have
      answered then, up to carriage returns; it fails exactly when the range reaches past
      the index, starts past the last line, or starts off a page boundary. */
  lemma MappedReadsOldFile(f: Bytes, more: Bytes, s: int, e: int, page: nat)
    requires page >= 1 && 1 <= s <= e
    ensures ReadMapped(IndexOf(f), f + more, s, e, page)
      == if e <= |Offsets(f)| && s <= |RawLines(f)| && Offsets(f)[s - 1] % page == 0
         then Entries(Range(RawLines(f), s, e)) else ReadFailed(Failed)
  {
    hide RawLines, Complete, Partial, Offsets, Number, Range, Mmap;
    OffsetsCutFile(f);
    LastOffset(f);
    var o := Offsets(f);
    if e < |o| {
      MapInside(f, s, e);
      assert (f + more)[o[s - 1]..o[e]] == f[o[s - 1]..o[e]];
    } else if e == |o| && s <= |RawLines(f)| {
      MapToEnd(f, s);
      assert (f + more)[o[s - 1]..|f|] == f[o[s - 1]..];
    }
  }

  /** Where a mapped read of the lines s to e stops, with the index of f. */
  function MapEnd(f: Bytes, e: int): int
    requires 1 <= e <= |Offsets(f)|
  {
    if e == |Offsets(f)| then |f| else Offsets(f)[e]
  }

  /** When the log was cut to its first n bytes after its index was cached: a mapped read that
      does not fail kills the program exactly when the range ends past the last page of what is
      left, and answers as before when it ends within it. */
  lemma MappedReadsCutFile(f: Bytes, n: nat, s: int, e: int, page: nat)
    requires page >= 1 && 1 <= s <= e && n <= |f|
    ensures ReadMapped(IndexOf(f), f[..n], s, e, page) == ReadFailed(Failed)
      <==> ReadMapped(IndexOf(f), f, s, e, page) == ReadFailed(Failed)
    ensures ReadMapped(IndexOf(f), f[..n], s, e, page).ReadFault?
      <==> e <= |Offsets(f)| && s <= |RawLines(f)| && Offsets(f)[s - 1] % page == 0 && MapEnd(f, e) > PageEnd(n, page)
    ensures e <= |Offsets(f)| && MapEnd(f, e) <= n ==>
      ReadMapped(IndexOf(f), f[..n], s, e, page) == ReadMapped(IndexOf(f), f, s, e, page)
  {
    hide RawLines, Complete, Partial, Offsets, Number, Range, Mmap;
    OffsetsCutFile(f);
    LastOffset(f);
    assert f + [] == f;
    MappedReadsOldFile(f, [], s, e, page);
    if e <= |Offsets(f)| && MapEnd(f, e) <= n {
      assert f[..n][Offsets(f)[s - 1]..MapEnd(f, e)] == f[Offsets(f)[s - 1]..MapEnd(f, e)];
    }
  }

  /** No line numbered s to e ends in a carriage return. */
  ghost predicate NoCRWithin(lines: seq<Bytes>, s: int, e: int)
    requires 1 <= s
  {
    forall i :: s - 1 <= i < e && i < |lines| ==> !EndsInCR(lines[i])
  }

  /** Dropping carriage returns from entries. */
  function DropEntryCRs(entries: seq<LogEntry>): (r: seq<LogEntry>)
    ensures |r| == |entries|
  {
    seq(|entries|, i requires 0 <= i < |entries| => LogEntry(entries[i].lineNumber, DropCR(entries[i].content)))
  }

  lemma RangeDropCRs(lines: seq<Bytes>, s: int, e: int)
    requires 1 <= s
    ensures Range(DropCRs(lines), s, e) == DropEntryCRs(Range(lines, s, e))
    ensures Range(DropCRs(lines), s, e) == Range(lines, s, e) <==> NoCRWithin(lines, s, e)
  {
    var a, b := Range(DropCRs(lines), s, e), Range(lines, s, e);
    if i :| s - 1 <= i < e && i < |lines| && EndsInCR(lines[i]) {
      assert a[i + 1 - s].content != b[i + 1 - s].content;
    } else {
      assert a == b;
    }
  }

  /** The mapped read of a file with its own index agrees with the scan exactly when the range
      stays within the index, starts at an existing line on a page boundary, and holds no line
      that ends in a carriage return. */
  lemma MappedEqualsScan(f: Bytes, s: int, e: int, page: nat)
    requires page >= 1 && 1 <= s <= e
    ensures ReadMapped(IndexOf(f), f, s, e, page) == Entries(Range(ScanLines(f), s, e))
      <==> && e <= |Offsets(f)| && s <= |RawLines(f)|
           && Offsets(f)[s - 1] % page == 0
           && NoCRWithin(RawLines(f), s, e)
  {
    assert f + [] == f;
    MappedReadsOldFile(f, [], s, e, page);
    RangeDropCRs(RawLines(f), s, e);
  }

  lemma LinesAfterNewline(f: Bytes, rest: Bytes)
    ensures RawLines(f + [NL] + rest) == Complete(f) + ([Partial(f)] + RawLines(rest))
  {
    hide RawLines, Complete, Partial;
    AppendAfterNewline(f, rest);
    RawLinesByByte(f + [NL] + rest);
    RawLinesByByte(rest);
    assert Complete(f) + [Partial(f)] + Complete(rest) + LastPiece(rest)
      == Complete(f) + ([Partial(f)] + (Complete(rest) + LastPiece(rest)));
  }

  /** How the lines of a growing file continue after those it had. */
  lemma LinesAfterAppend(f: Bytes, more: Bytes)
    ensures var e := LineEnd(more);
      RawLines(f + more) ==
        if e < |more| then Complete(f) + ([Partial(f) + more[..e]] + RawLines(more[e + 1..]))
        else Complete(f) + (if Partial(f) + more == [] then [] else [Partial(f) + more])
  {
    var e := LineEnd(more);
    hide RawLines, Complete, Partial, LineEnd;
    RawLinesByByte(f + more);
    if e < |more| {
      AppendNewlineFree(f, more[..e]);
      SplitAtNewline(more, e);
      LinesAfterNewline(f + more[..e], more[e + 1..]);
      assert f + more == (f + more[..e]) + [NL] + more[e + 1..];
    } else {
      AppendNewlineFree(f, more);
      assert more[..e] == more;
    }
  }

  lemma RangeOfPrefix(a: seq<Bytes>, b: seq<Bytes>, m: nat, s: int, e: int)
    requires m <= |a| && m <= |b| && a[..m] == b[..m] && 1 <= s && e <= m
    ensures Range(a, s, e) == Range(b, s, e)
  {
    assert forall i :: 0 <= i < m ==> a[i] == a[..m][i] && b[i] == b[..m][i];
  }

  lemma AtLastIndexedLine(a: seq<Bytes>, b: seq<Bytes>, lines: seq<Bytes>, p: Bytes, more: Bytes, s: int)
    requires more != [] && 1 <= s <= |lines| + 1
    requires a == lines + (if p == [] then [] else [p])
    requires |b| > |lines| && b[..|lines|] == lines && b[|lines|] == p + more[..LineEnd(more)]
    ensures Range(a, s, |lines| + 1) == Range(b, s, |lines| + 1) <==> p != [] && more[0] == NL
  {
    var m := |lines|;
    var x, y := Range(a, s, m + 1), Range(b, s, m + 1);
    if p != [] {
      assert x[m + 1 - s].content == p && y[m + 1 - s].content == p + more[..LineEnd(more)];
      assert more[0] == NL <==> LineEnd(more) == 0;
      if more[0] == NL {
        assert p + more[..LineEnd(more)] == p;
        assert b[..m + 1] == b[..m] + [b[m]];
        RangeOfPrefix(a, b, m + 1, s, m + 1);
      }
    } else {
      assert |x| != |y|;
    }
  }

  /** A range that an old index answers is still right for the grown file when it ends before
      the index does; at the last indexed line, exactly when the file has not grown since or
      the first byte appended ended that line. */
  lemma OldRangeStillRight(f: Bytes, more: Bytes, s: int, e: int)
    requires 1 <= s <= e <= |Offsets(f)|
    ensures Range(RawLines(f), s, e) == Range(RawLines(f + more), s, e)
      <==> e < |Offsets(f)| || more == [] || (!Terminated(f) && more[0] == NL)
  {
    hide RawLines, Complete, Partial, Offsets, LineEnd, Range, StrictlyIncreasing, NewlineFree;
    OffsetsCutFile(f);
    RawLinesByByte(f);
    PartialFacts(f);
    var a, b, m := RawLines(f), RawLines(f + more), |Complete(f)|;
    assert a[..m] == Complete(f);
    if more == [] {
      assert f + [] == f;
    } else {
      LinesAfterAppend(f, more);
      assert b[..m] == Complete(f);
      if e <= m {
        RangeOfPrefix(a, b, m, s, e);
      } else {
        AtLastIndexedLine(a, b, Complete(f), Partial(f), more, s);
      }
    }
  }

  /** What the mapped read answers with the index it gets. */
  function ReadIndexed(log: Bytes, index: OpenResult, s: int, e: int, page: nat): ReadResult
    requires page >= 1 && 1 <= s <= e
  {
    match index
    case OpenPanicked => ReadFailed(IndexPanic)
    case OpenFailed => ReadFailed(NoIndex)
    case Opened(v) => ReadMapped(v, log, s, e, page)
  }

  /** What `ReadLogRange` answers for a log of these contents, when `cached` is the index that
      the service holds for it, if any. */
  function ReadRange(log: Option<Bytes>, index: OpenResult, s: int, e: int, page: nat): ReadResult
    requires page >= 1
  {
    if s < 1 || e < s then ReadFailed(BadRange)
    else if log.None? then ReadFailed(NoFile)
    else if |log.value| <= MEMORY_MAP_THRESHOLD then Entries(Range(ScanLines(log.value), s, e))
    else ReadIndexed(log.value, index, s, e, page)
  }

  /** The entries are those numbered from s up to e, or to the last line, in order, each with the
      content of its line. */
  ghost predicate IsRange(entries: seq<LogEntry>, lines: seq<Bytes>, s: int, e: int)
    requires 1 <= s
  {
    && |entries| == (if e < s || |lines| < s then 0 else if e < |lines| then e - s + 1 else |lines| - s + 1)
    && forall i :: 0 <= i < |entries| ==> entries[i].lineNumber == s + i && entries[i].content == lines[s + i - 1]
  }

  /** Which argument gives which error, and what a range read answers otherwise: the existing lines
      of the range for a file of at most 100 MB, and the mapped read for any larger one. */
  lemma ReadRangeMeaning(log: Option<Bytes>, index: OpenResult, s: int, e: int, page: nat)
    requires page >= 1
    ensures ReadRange(log, index, s, e, page) == ReadFailed(BadRange) <==> s < 1 || e < s
    ensures ReadRange(log, index, s, e, page) == ReadFailed(NoFile) <==> 1 <= s <= e && log.None?
    ensures 1 <= s <= e && log.Some? && |log.value| <= 104857600 ==>
      var r := ReadRange(log, index, s, e, page); r.Entries? && IsRange(r.entries, ScanLines(log.value), s, e)
    ensures 1 <= s <= e && log.Some? && |log.value| > 104857600 ==>
      match index
      case OpenPanicked => ReadRange(log, index, s, e, page) == ReadFailed(IndexPanic)
      case OpenFailed => ReadRange(log, index, s, e, page) == ReadFailed(NoIndex)
      case Opened(v) => ReadRange(log, index, s, e, page) == ReadMapped(v, log.value, s, e, page)
  {
    hide ScanLines, Number, RawLines, Mmap, Range;
  }

  // ----- where large files are answered otherwise -----

  lemma SecondOffset(f: Bytes)
    requires |f| > 1 && f[0] == NL
    ensures |Offsets(f)| >= 2 && Offsets(f)[1] == 1 && |RawLines(f)| >= 2
  {
    assert f == [NL] + f[1..] && Complete([NL]) == [[]] && Offsets([NL]) == [0, 1];
    AppendKeepsIndex([NL], f[1..]);
    LastOffset(f);
    OffsetsCutFile(f);
  }

  /** Every large file that starts with a newline: its second line, which the scan returns, cannot
      be read, as it does not start on a page boundary. */
  lemma LargeFileOffPage(f: Bytes, page: nat)
    requires |f| > MEMORY_MAP_THRESHOLD && f[0] == NL && page >= 2
    ensures |Range(ScanLines(f), 2, 2)| == 1
    ensures ReadRange(Some(f), Opened(IndexOf(f)), 2, 2, page) == ReadFailed(Failed)
  {
    SecondOffset(f);
    hide RawLines, Complete, Partial, Offsets;
    assert f + [] == f;
    MappedReadsOldFile(f, [], 2, 2, page);
  }

  lemma SomeLine(f: Bytes)
    requires f != []
    ensures |RawLines(f)| >= 1
  {
    RawLinesFromUnfold(f, 0);
  }

  /** Every large log that is cut to less, by a page or more, but stays large: a read of all its
      lines with the cached index ends the program. */
  lemma LargeFileCut(f: Bytes, n: nat, page: nat)
    requires MEMORY_MAP_THRESHOLD < n && n + page <= |f| && page >= 1
    ensures ReadRange(Some(f[..n]), Opened(IndexOf(f)), 1, |Offsets(f)|, page) == ReadFault
  {
    OffsetsCutFile(f);
    LastOffset(f);
    SomeLine(f);
    hide RawLines, Complete, Partial, Offsets;
    MappedReadsCutFile(f, n, 1, |Offsets(f)|, page);
  }

  /** What getting an index leaves behind: nothing when one is cached, else the index file as
      opening leaves it, and the index in the cache exactly when opening succeeds. */
  ghost predicate IndexEffect(before: map<string, Bytes>, after: map<string, Bytes>,
                              cache: map<string, LineIndex>, cache': map<string, LineIndex>, path: string, room: Option<nat>) {
    if path in cache then after == before && cache' == cache
    else
      var (idx, r) := OpenIndex(Lookup(before, path), Lookup(before, path + ".idx"), room);
      && Updated(before, after, path + ".idx", idx)
      && if r.Opened? then path in cache' && cache' == cache[path := cache'[path]] else cache' == cache
  }

  class LogService {
    var indexCache: map<string, LineIndex>

    constructor ()
      ensures indexCache == map[]
    {
      indexCache := map[];
    }

    /** The index the service would use for a file now. */
    function IndexFor(files: map<string, Bytes>, path: string, room: Option<nat>): OpenResult
      reads this, indexCache.Values
    {
      if path in indexCache then Opened(indexCache[path].Value())
      else OpenIndex(Lookup(files, path), Lookup(files, path + ".idx"), room).1
    }

    /** A cached index is returned as it is, however the file has changed since. */
    method GetOrCreateIndex(disk: Disk, path: string, room: Option<nat>) returns (index: LineIndex?, panicked: bool)
      modifies this, disk
      ensures var r := old(IndexFor(disk.files, path, room));
        && panicked == r.OpenPanicked?
        && (index != null) == r.Opened?
        && (index != null ==> path in indexCache && indexCache[path] == index && index.Value() == r.index)
      ensures IndexEffect(old(disk.files), disk.files, old(indexCache), indexCache, path, room)
      ensures index != null && path !in old(indexCache) ==> fresh(index)
    {
      if path in indexCache {
        return indexCache[path], false;
      }
      index, panicked := NewLineIndex(disk, path, room);
      if index == null {
        return;
      }
      indexCache := indexCache[path := index];
    }

    method ReadLogRangeMMap(disk: Disk, path: string, startLine: int, endLine: int, room: Option<nat>, page: nat)
      returns (r: ReadResult)
      requires page >= 1 && 1 <= startLine <= endLine && path in disk.files
      modifies this, disk
      ensures match old(IndexFor(disk.files, path, room))
        case OpenPanicked => r == ReadFailed(IndexPanic)
        case OpenFailed => r == ReadFailed(NoIndex)
        case Opened(v) => r == ReadMapped(v, old(disk.files)[path], startLine, endLine, page)
      ensures IndexEffect(old(disk.files), disk.files, old(indexCache), indexCache, path, room)
      ensures path in indexCache ==> Opened(indexCache[path].Value()) == old(IndexFor(disk.files, path, room))
    {
      hide RawLines, Number, OpenIndex, Offsets, Range, ScanLines;
      assert path + ".idx" != path by { assert |path + ".idx"| != |path|; }
      var index, panicked := GetOrCreateIndex(disk, path, room);
      assert Lookup(disk.files, path) == Lookup(old(disk.files), path);
      if panicked {
        return ReadFailed(IndexPanic);
      }
      if index == null {
        return ReadFailed(NoIndex);
      }
      var startOffset := index.GetOffset(startLine);
      if startOffset.Err? {
        return ReadFailed(Failed);
      }
      var endOffset := index.GetOffset(endLine + 1);
      if endOffset.Err? {
        var n := index.GetLineCount();
        if endLine == n {
          endOffset := Ok(index.sourceSize);
        } else {
          return ReadFailed(Failed);
        }
      }
      var file := disk.files[path];
      var data := Mmap(file, startOffset.value, endOffset.value - startOffset.value, page);
      if data.Err? {
        return ReadFailed(Failed);
      }
      if |data.value.bytes| < data.value.length {
        return ReadFault;     // in the loop, where it comes to the first page past the file
      }
      var entries := CutMapped(data.value.bytes, startLine);
      return Entries(entries);
    }

    method ReadLogRange(disk: Disk, path: string, startLine: int, endLine: int, room: Option<nat>, page: nat)
      returns (r: ReadResult)
      requires page >= 1
      modifies this, disk
      ensures r == ReadRange(Lookup(old(disk.files), path), old(IndexFor(disk.files, path, room)), startLine, endLine, page)
      ensures r == ReadFailed(BadRange) <==> startLine < 1 || endLine < startLine
      ensures r == ReadFailed(NoFile) <==> 1 <= startLine <= endLine && path !in old(disk.files)
      ensures 1 <= startLine <= endLine && path in old(disk.files) && |old(disk.files)[path]| <= 104857600 ==>
        r.Entries? && IsRange(r.entries, ScanLines(old(disk.files)[path]), startLine, endLine)
      ensures 1 <= startLine <= endLine && path in old(disk.files) && |old(disk.files)[path]| > 104857600 ==>
        match old(IndexFor(disk.files, path, room))
        case OpenPanicked => r == ReadFailed(IndexPanic)
        case OpenFailed => r == ReadFailed(NoIndex)
        case Opened(v) => r == ReadMapped(v, old(disk.files)[path], startLine, endLine, page)
      ensures if 1 <= startLine <= endLine && path in old(disk.files) && |old(disk.files)[path]| > MEMORY_MAP_THRESHOLD
        then IndexEffect(old(disk.files), disk.files, old(indexCache), indexCache, path, room)
        else disk.files == old(disk.files) && indexCache == old(indexCache)
    {
      ReadRangeMeaning(Lookup(disk.files, path), IndexFor(disk.files, path, room), startLine, endLine, page);
      hide ScanLines, ReadMapped, Range, IsRange, OpenIndex;
      if startLine < 1 || endLine < startLine {
        return ReadFailed(BadRange);
      }
      if path !in disk.files {
        return ReadFailed(NoFile);
      }
      if |disk.files[path]| > MEMORY_MAP_THRESHOLD {
        r := ReadLogRangeMMap(disk, path, startLine, endLine, room, page);
        return;
      }
      var entries := ScanRange(disk.files[path], startLine, endLine);
      return Entries(entries);
    }
  }
}
