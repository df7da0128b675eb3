/** Filtering a log: the scanner filter of small files, the chunked filter of large ones, and
    exactly when the two return the same entries. */
module LogFilter {
  import opened Lines
  import opened LineIndexing
  import opened LogReader

  const CHUNK_SIZE := 1024 * 1024

  /** A compiled regular expression is any predicate on the contents of a line. */
  datatype Pattern = NoPattern | BadPattern | Matching(matches: Bytes -> bool)

  datatype FilterOptions = FilterOptions(pattern: Pattern, startLine: int, endLine: int)

  const EVERYTHING := FilterOptions(NoPattern, 0, 0)

  /** Bounds that are not positive are not applied. */
  predicate InWindow(o: FilterOptions, n: int) {
    !(o.startLine > 0 && n < o.startLine) && !(o.endLine > 0 && n > o.endLine)
  }

  predicate Selected(o: FilterOptions, n: int, line: Bytes) {
    InWindow(o, n) && (o.pattern.Matching? ==> o.pattern.matches(line))
  }

  /** The selected lines with their numbers. */
  function Filtered(o: FilterOptions, lines: seq<Bytes>): seq<LogEntry> {
    if lines == [] then []
    else
      var n := |lines|;
      Filtered(o, lines[..n - 1]) + if Selected(o, n, lines[n - 1]) then [LogEntry(n, lines[n - 1])] else []
  }

  lemma FilteredSnoc(o: FilterOptions, lines: seq<Bytes>, line: Bytes)
    ensures Filtered(o, lines + [line])
      == Filtered(o, lines) + if Selected(o, |lines| + 1, line) then [LogEntry(|lines| + 1, line)] else []
  {
    assert (lines + [line])[..|lines|] == lines;
  }

  /** The entries are in strictly increasing line order, and they are the selected lines. */
  lemma {:induction false} FilteredMeaning(o: FilterOptions, lines: seq<Bytes>)
    ensures forall i, j :: 0 <= i < j < |Filtered(o, lines)| ==>
      Filtered(o, lines)[i].lineNumber < Filtered(o, lines)[j].lineNumber
    ensures forall e :: e in Filtered(o, lines) <==>
      && 1 <= e.lineNumber <= |lines| && e.content == lines[e.lineNumber - 1]
      && (o.startLine > 0 ==> o.startLine <= e.lineNumber) && (o.endLine > 0 ==> e.lineNumber <= o.endLine)
      && (o.pattern.Matching? ==> o.pattern.matches(e.content))
  {
    if lines != [] {
      FilteredMeaning(o, lines[..|lines| - 1]);
    }
  }

  /** Nothing past the end bound is selected. */
  lemma {:induction false} FilteredStop(o: FilterOptions, lines: seq<Bytes>, k: nat)
    requires k <= |lines| && 0 < o.endLine <= k
    ensures Filtered(o, lines) == Filtered(o, lines[..k])
  {
    if k < |lines| {
      var init := lines[..|lines| - 1];
      FilteredStop(o, init, k);
      assert init[..k] == lines[..k];
    } else {
      assert lines[..k] == lines;
    }
  }

  lemma FilteredStopAt(o: FilterOptions, all: seq<Bytes>, lines: seq<Bytes>)
    requires lines <= all && 0 < o.endLine <= |lines|
    ensures Filtered(o, all) == Filtered(o, lines)
  {
    FilteredStop(o, all, |lines|);
    assert all[..|lines|] == lines;
  }

  /** What the filter has for the n-th line of a list, if the list has one. */
  function Picked(o: FilterOptions, lines: seq<Bytes>, n: int): Option<Bytes> {
    if 1 <= n <= |lines| && Selected(o, n, lines[n - 1]) then Some(lines[n - 1]) else None
  }

  lemma {:induction false} NumbersBounded(o: FilterOptions, lines: seq<Bytes>)
    ensures forall i :: 0 <= i < |Filtered(o, lines)| ==> 1 <= Filtered(o, lines)[i].lineNumber <= |lines|
  {
    if lines != [] {
      NumbersBounded(o, lines[..|lines| - 1]);
    }
  }

  lemma PickedInit(o: FilterOptions, a: seq<Bytes>)
    requires a != []
    ensures forall n {:trigger Picked(o, a, n)} {:trigger Picked(o, a[..|a| - 1], n)} ::
      n != |a| ==> Picked(o, a, n) == Picked(o, a[..|a| - 1], n)
    ensures Picked(o, a[..|a| - 1], |a|) == None
  {
  }

  lemma LastEntries(x: seq<LogEntry>, y: seq<LogEntry>, s: bool, t: bool, u: LogEntry, v: LogEntry)
    requires u.lineNumber == v.lineNumber
    requires forall i :: 0 <= i < |x| ==> x[i].lineNumber < u.lineNumber
    requires forall i :: 0 <= i < |y| ==> y[i].lineNumber < u.lineNumber
    ensures x + (if s then [u] else []) == y + (if t then [v] else [])
      <==> x == y && s == t && (s ==> u == v)
  {
    var a, b := x + (if s then [u] else []), y + (if t then [v] else []);
    assert if s then a[|a| - 1] == u && a[..|a| - 1] == x else a == x;
    assert if t then b[|b| - 1] == v && b[..|b| - 1] == y else b == y;
  }

  lemma {:induction false} FilteredEqualIffLonger(o: FilterOptions, a: seq<Bytes>, b: seq<Bytes>)
    requires |b| < |a|
    ensures Filtered(o, a) == Filtered(o, b) <==> forall n :: Picked(o, a, n) == Picked(o, b, n)
    decreases |a| + |b|, 0
  {
    var n := |a|;
    FilteredEqualIff(o, a[..n - 1], b);
    PickedInit(o, a);
    NumbersBounded(o, b);
    if Selected(o, n, a[n - 1]) {
      assert Picked(o, a, n) != Picked(o, b, n);
      var fa := Filtered(o, a);
      assert fa[|fa| - 1].lineNumber == n;
      assert Filtered(o, b) != fa;
    } else {
      assert Picked(o, a, n) == Picked(o, b, n);
      assert forall k :: Picked(o, a, k) == Picked(o, a[..n - 1], k);
    }
  }

  /** Two lists are filtered to the same entries exactly when they agree line by line. */
  lemma {:induction false} FilteredEqualIff(o: FilterOptions, a: seq<Bytes>, b: seq<Bytes>)
    ensures Filtered(o, a) == Filtered(o, b) <==> forall n :: Picked(o, a, n) == Picked(o, b, n)
    decreases |a| + |b|
  {
    if |a| < |b| {
      FilteredEqualIffLonger(o, b, a);
    } else if |b| < |a| {
      FilteredEqualIffLonger(o, a, b);
    } else if a != [] {
      var n := |a|;
      var a', b' := a[..n - 1], b[..n - 1];
      FilteredEqualIff(o, a', b');
      NumbersBounded(o, a');
      NumbersBounded(o, b');
      PickedInit(o, a);
      PickedInit(o, b);
      var s, t := Selected(o, n, a[n - 1]), Selected(o, n, b[n - 1]);
      var u, v := LogEntry(n, a[n - 1]), LogEntry(n, b[n - 1]);
      LastEntries(Filtered(o, a'), Filtered(o, b'), s, t, u, v);
      assert Picked(o, a, n) == Picked(o, b, n) <==> s == t && (s ==> u == v);
    }
  }

  // ----- the two filters -----

  /** The loop of the scanner filter. */
  method FilterScan(file: Bytes, o: FilterOptions) returns (entries: seq<LogEntry>)
    requires !o.pattern.BadPattern?
    ensures entries == Filtered(o, ScanLines(file))
  {
    var scanner := new Scanner(file);
    var currentLine := 0;
    entries := [];
    ghost var lines := ScanLines(file);
    hide RawLines, ScanLines;
    while true
      invariant scanner.Valid() && scanner.src == file && fresh(scanner)
      invariant currentLine == scanner.count <= |lines|
      invariant entries == Filtered(o, lines[..currentLine])
      decreases |lines| - currentLine
    {
      var more := scanner.Scan();
      if !more {
        assert lines[..currentLine] == lines;
        break;
      }
      assert lines[..currentLine + 1][..currentLine] == lines[..currentLine];
      currentLine := currentLine + 1;
      if o.startLine > 0 && currentLine < o.startLine {
        continue;
      }
      if o.endLine > 0 && currentLine > o.endLine {
        FilteredStop(o, lines, currentLine - 1);
        break;
      }
      var line := scanner.text;
      if o.pattern.Matching? && !o.pattern.matches(line) {
        continue;
      }
      entries := entries + [LogEntry(currentLine, line)];
    }
  }

  /** The lines that the chunked filter sees: an unterminated last line loses its last byte,
      and is not seen at all when the file size is a multiple of the chunk size. */
  function ChunkedLines(f: Bytes, c: nat): seq<Bytes>
    requires c >= 1
  {
    if Partial(f) == [] || |f| % c == 0 then Complete(f)
    else Complete(f) + [Partial(f)[..|Partial(f)| - 1]]
  }

  /** `os.File.ReadAt`: fills the buffer, and reports the end of the file exactly when it
      reads fewer bytes than the buffer holds. */
  method ReadAt(file: Bytes, buffer: array<byte>, offset: nat) returns (n: nat, eof: bool)
    requires offset <= |file|
    modifies buffer
    ensures n == (if |file| - offset < buffer.Length then |file| - offset else buffer.Length)
    ensures eof == (n < buffer.Length)
    ensures buffer[..n] == file[offset..offset + n]
  {
    n := if |file| - offset < buffer.Length then |file| - offset else buffer.Length;
    eof := n < buffer.Length;
    for i := 0 to n
      invariant buffer[..i] == file[offset..offset + i]
    {
      buffer[i] := file[offset + i];
    }
  }

  /** The lines the chunked filter has completed after p bytes of the file. */
  ghost function Seen(f: Bytes, c: nat, p: nat): seq<Bytes>
    requires c >= 1 && p <= |f|
  {
    if p == |f| then ChunkedLines(f, c) else Complete(f[..p])
  }

  /** The bytes it then carries for the line to come. */
  ghost function Carried(f: Bytes, c: nat, p: nat): Bytes
    requires c >= 1 && p <= |f|
  {
    if p == |f| && |f| % c != 0 then [] else Partial(f[..p])
  }

  /** The bytes at which it completes a line. */
  predicate CompletesLine(f: Bytes, c: nat, p: nat)
    requires c >= 1 && p < |f|
  {
    f[p] == NL || (p == |f| - 1 && |f| % c != 0)
  }

  lemma SeenStep(f: Bytes, c: nat, p: nat)
    requires c >= 1 && p < |f|
    ensures Seen(f, c, p + 1) == if CompletesLine(f, c, p) then Seen(f, c, p) + [Carried(f, c, p)] else Seen(f, c, p)
    ensures Carried(f, c, p + 1) == if CompletesLine(f, c, p) then [] else Carried(f, c, p) + [f[p]]
    ensures Seen(f, c, p + 1) <= ChunkedLines(f, c)
  {
    hide Complete, Partial;
    TakeSnoc(f, p);
    Snoc(f[..p], f[p]);
    AppendKeepsIndex(f[..p + 1], f[p + 1..]);
    assert f[..p + 1] + f[p + 1..] == f;
    if p + 1 == |f| {
      assert f[..p + 1] == f;
      assert f[p] != NL ==> Partial(f)[..|Partial(f)| - 1] == Partial(f[..p]);
    }
  }

  lemma SeenAll(f: Bytes, c: nat)
    requires c >= 1
    ensures Seen(f, c, |f|) == ChunkedLines(f, c)
  {
  }

  lemma NextMultiple(offset: nat, n: nat, c: nat)
    requires c >= 1 && offset % c == 0 && n <= c
    ensures (offset + n) % c == if n == c then 0 else n
  {
    var q := offset / c;
    assert offset == q * c;
    if n == c {
      assert offset + n == (q + 1) * c;
      MultipleMod(q + 1, 0, c);
    } else {
      MultipleMod(q, n, c);
    }
  }

  /** What the chunked filter does with one line; `stop` reports its early return. */
  method TakeLine(o: FilterOptions, currentLine: int, line: Bytes, entries0: seq<LogEntry>)
    returns (entries: seq<LogEntry>, stop: bool)
    ensures entries == entries0 + if Selected(o, currentLine, line) then [LogEntry(currentLine, line)] else []
    ensures stop ==> 0 < o.endLine < currentLine
  {
    entries, stop := entries0, false;
    if o.startLine > 0 && currentLine < o.startLine {
      return;
    }
    if o.endLine > 0 && currentLine > o.endLine {
      return entries, true;
    }
    if !o.pattern.Matching? || o.pattern.matches(line) {
      entries := entries + [LogEntry(currentLine, line)];
    }
  }

  lemma ChunkByte(f: Bytes, offset: nat, c: nat, chunk: Bytes, eof: bool, i: nat)
    requires c >= 1 && offset + |chunk| <= |f| && chunk == f[offset..offset + |chunk|] && i < |chunk|
    requires eof <==> offset + |chunk| == |f| && |f| % c != 0
    ensures chunk[i] == f[offset + i]
    ensures CompletesLine(f, c, offset + i) <==> chunk[i] == NL || (eof && i == |chunk| - 1)
  {
  }

  /** One chunk of the chunked filter, read at `offset`. `stopped` reports the early return
      past the end line. */
  method FilterChunk(ghost f: Bytes, ghost offset: nat, ghost c: nat, chunk: Bytes, eof: bool, o: FilterOptions,
                     lineBuffer0: Bytes, currentLine0: nat, entries0: seq<LogEntry>)
    returns (lineBuffer: Bytes, currentLine: nat, entries: seq<LogEntry>, stopped: bool)
    requires c >= 1 && offset + |chunk| <= |f| && chunk == f[offset..offset + |chunk|]
    requires |chunk| > 0 ==> (eof <==> offset + |chunk| == |f| && |f| % c != 0)
    requires lineBuffer0 == Carried(f, c, offset) && currentLine0 == |Seen(f, c, offset)|
    requires entries0 == Filtered(o, Seen(f, c, offset))
    ensures stopped ==> entries == Filtered(o, ChunkedLines(f, c))
    ensures !stopped ==>
      && lineBuffer == Carried(f, c, offset + |chunk|) && currentLine == |Seen(f, c, offset + |chunk|)|
      && entries == Filtered(o, Seen(f, c, offset + |chunk|))
  {
    hide Seen, Carried, ChunkedLines, Filtered, Selected, CompletesLine;
    lineBuffer, currentLine, entries := lineBuffer0, currentLine0, entries0;
    var start := 0;
    for i := 0 to |chunk|
      invariant start <= i
      invariant currentLine == |Seen(f, c, offset + i)| && entries == Filtered(o, Seen(f, c, offset + i))
      invariant lineBuffer + chunk[start..i] == Carried(f, c, offset + i)
    {
      SeenStep(f, c, offset + i);
      ChunkByte(f, offset, c, chunk, eof, i);
      ghost var lines, part := Seen(f, c, offset + i), Carried(f, c, offset + i);
      ghost var next := Seen(f, c, offset + i + 1);
      if chunk[i] == NL || (eof && i == |chunk| - 1) {
        var line := lineBuffer + chunk[start..i];
        assert next == lines + [line] && |next| == |lines| + 1;
        lineBuffer := [];
        currentLine := currentLine + 1;
        FilteredSnoc(o, lines, line);
        var stop: bool;
        entries, stop := TakeLine(o, currentLine, line, entries);
        if stop {
          FilteredStopAt(o, ChunkedLines(f, c), next);
          return lineBuffer, currentLine, entries, true;
        }
        start := i + 1;
      } else {
        assert next == lines;
        assert lineBuffer + chunk[start..i + 1] == part + [chunk[i]];
      }
    }
    assert chunk[start..|chunk|] == chunk[start..];
    if start < |chunk| {
      lineBuffer := lineBuffer + chunk[start..];
    }
    stopped := false;
  }

  /** The chunked filter, for any chunk size. */
  method FilterChunked(file: Bytes, o: FilterOptions, c: nat) returns (entries: seq<LogEntry>)
    requires c >= 1 && !o.pattern.BadPattern?
    ensures entries == Filtered(o, ChunkedLines(file, c))
  {
    entries := [];
    var buffer := new byte[c];
    var lineBuffer: Bytes := [];
    var currentLine := 0;
    var offset := 0;
    assert file[..0] == [];
    while true
      invariant offset <= |file| && offset % c == 0
      invariant lineBuffer == Carried(file, c, offset) && currentLine == |Seen(file, c, offset)|
      invariant entries == Filtered(o, Seen(file, c, offset))
      decreases |file| - offset
    {
      hide Seen, Carried, ChunkedLines, Filtered;
      var n, eof := ReadAt(file, buffer, offset);
      NextMultiple(offset, n, c);
      var stopped: bool;
      lineBuffer, currentLine, entries, stopped :=
        FilterChunk(file, offset, c, buffer[..n], eof, o, lineBuffer, currentLine, entries);
      if stopped {
        return;
      }
      offset := offset + n;
      if eof {
        SeenAll(file, c);
        break;
      }
    }
  }

  /** Large files are filtered in chunks, small ones by the scanner. */
  method FilterLog(disk: Disk, path: string, o: FilterOptions) returns (r: Result<seq<LogEntry>>)
    ensures r.Err? <==> path !in disk.files || o.pattern.BadPattern?
    ensures r.Ok? ==> r.value == Filtered(o,
      if |disk.files[path]| > 104857600 then ChunkedLines(disk.files[path], 1048576)
      else ScanLines(disk.files[path]))
  {
    if path !in disk.files {
      return Err;
    }
    var file := disk.files[path];
    if o.pattern.BadPattern? {
      return Err;
    }
    var entries;
    if |file| > MEMORY_MAP_THRESHOLD {
      entries := FilterChunked(file, o, CHUNK_SIZE);
    } else {
      entries := FilterScan(file, o);
    }
    return Ok(entries);
  }

  // ----- when they agree -----

  /** A terminated line is treated alike when it does not end in a carriage return, or is
      selected neither with it nor without it. */
  predicate LineAgrees(o: FilterOptions, n: int, line: Bytes) {
    EndsInCR(line) ==> !Selected(o, n, line) && !Selected(o, n, DropCR(line))
  }

  /** An unterminated last line is treated alike when it is a carriage return that both filters
      remove, or when neither filter selects what it sees of the line. */
  predicate LastLineAgrees(o: FilterOptions, f: Bytes, c: nat)
    requires c >= 1
  {
    var n, p := |Complete(f)| + 1, Partial(f);
    if p == [] then true
    else if |f| % c == 0 then !Selected(o, n, DropCR(p))
    else EndsInCR(p) || (!Selected(o, n, p) && !Selected(o, n, p[..|p| - 1]))
  }

  ghost predicate FiltersAgree(o: FilterOptions, f: Bytes, c: nat)
    requires c >= 1
  {
    && (forall i :: 0 <= i < |Complete(f)| ==> LineAgrees(o, i + 1, Complete(f)[i]))
    && LastLineAgrees(o, f, c)
  }

  /** For every file, chunk size and options: the chunked filter returns what the scanner
      filter returns exactly when the lines agree one by one. */
  lemma ChunkedEqualsScanIff(o: FilterOptions, f: Bytes, c: nat)
    requires c >= 1
    ensures Filtered(o, ChunkedLines(f, c)) == Filtered(o, ScanLines(f)) <==> FiltersAgree(o, f, c)
  {
    hide Complete, Partial, Filtered, RawLines;
    var a, b := ChunkedLines(f, c), ScanLines(f);
    var m, p := |Complete(f)|, Partial(f);
    PartialFacts(f);
    RawLinesByByte(f);
    FilteredEqualIff(o, a, b);
    forall i | 0 <= i < m
      ensures Picked(o, a, i + 1) == Picked(o, b, i + 1) <==> LineAgrees(o, i + 1, Complete(f)[i])
    {
      assert a[i] == Complete(f)[i] && b[i] == DropCR(Complete(f)[i]);
    }
    assert Picked(o, a, m + 1) == Picked(o, b, m + 1) <==> LastLineAgrees(o, f, c) by {
      if p != [] {
        assert b[m] == DropCR(p);
      }
    }
    forall n | n < 1 || n > m + 1
      ensures Picked(o, a, n) == Picked(o, b, n)
    {
    }
    if FiltersAgree(o, f, c) {
      forall n ensures Picked(o, a, n) == Picked(o, b, n) {
        if 1 <= n <= m {
          assert LineAgrees(o, n - 1 + 1, Complete(f)[n - 1]);
        }
      }
    }
    if forall n :: Picked(o, a, n) == Picked(o, b, n) {
      forall i | 0 <= i < m
        ensures LineAgrees(o, i + 1, Complete(f)[i])
      {
        assert Picked(o, a, i + 1) == Picked(o, b, i + 1);
      }
    }
  }

  /** No carriage return stands right before a newline. */
  predicate NoCRLF(f: Bytes) {
    forall i :: 0 < i < |f| ==> !(f[i - 1] == CR && f[i] == NL)
  }

  ghost predicate NoLineEndsInCR(lines: seq<Bytes>) {
    forall i :: 0 <= i < |lines| ==> !EndsInCR(lines[i])
  }

  lemma {:induction false} NoCRLFIff(f: Bytes)
    ensures NoCRLF(f) <==> NoLineEndsInCR(Complete(f))
  {
    if f != [] {
      var g, n := f[..|f| - 1], |f|;
      NoCRLFIff(g);
      PartialFacts(g);
      assert NoCRLF(f) <==> NoCRLF(g) && !(n > 1 && f[n - 2] == CR && f[n - 1] == NL) by {
        assert forall i :: 0 <= i < n - 1 ==> f[i] == g[i];
      }
      if f[n - 1] == NL {
        assert Complete(f) == Complete(g) + [Partial(g)];
        assert Complete(f)[|Complete(g)|] == Partial(g);
        assert forall i :: 0 <= i < |Complete(g)| ==> Complete(f)[i] == Complete(g)[i];
      }
    }
  }

  /** Files that the chunks do not change: no carriage return before a newline, and the last
      line is terminated, or its last byte is a carriage return, which both filters remove when
      the size is not a multiple of the chunk size. */
  predicate ChunkSafe(f: Bytes, c: nat)
    requires c >= 1
  {
    NoCRLF(f) && (Terminated(f) || (f[|f| - 1] == CR && |f| % c != 0))
  }

  /** On such files, and on no others, the two filters agree for all options; elsewhere they
      already differ when everything is selected. */
  lemma ChunkedEqualsScanForAllOptions(o: FilterOptions, f: Bytes, c: nat)
    requires c >= 1
    ensures ChunkSafe(f, c) ==> Filtered(o, ChunkedLines(f, c)) == Filtered(o, ScanLines(f))
    ensures Filtered(EVERYTHING, ChunkedLines(f, c)) == Filtered(EVERYTHING, ScanLines(f)) <==> ChunkSafe(f, c)
  {
    ChunkedEqualsScanIff(o, f, c);
    ChunkedEqualsScanIff(EVERYTHING, f, c);
    NoCRLFIff(f);
    PartialFacts(f);
    hide Complete, Partial, Filtered, ChunkedLines;
    if FiltersAgree(EVERYTHING, f, c) {
      forall i | 0 <= i < |Complete(f)|
        ensures !EndsInCR(Complete(f)[i])
      {
        assert LineAgrees(EVERYTHING, i + 1, Complete(f)[i]);
      }
    }
  }

  /** Every large file whose last line is not terminated, unless it ends in a carriage return: the
      filter, which takes it in chunks, does not return all its lines even when everything is
      selected. */
  lemma LargeFileUnterminated(f: Bytes)
    requires |f| > MEMORY_MAP_THRESHOLD && f[|f| - 1] != NL && f[|f| - 1] != CR
    ensures Filtered(EVERYTHING, ChunkedLines(f, CHUNK_SIZE)) != Filtered(EVERYTHING, ScanLines(f))
  {
    hide Filtered, ChunkedLines, ScanLines;
    ChunkedEqualsScanForAllOptions(EVERYTHING, f, CHUNK_SIZE);
  }
}
