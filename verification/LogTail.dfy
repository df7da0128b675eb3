/** The last lines of a log, streaming a filtered log, and counting lines. */
module LogTail {
  import opened Lines
  import opened LineIndexing
  import opened LogReader
  import opened LogFilter

  const MAX_TAIL_LINES := 10000

  /** The number of the first of the last n lines of a list. */
  function TailStart(lines: seq<Bytes>, n: int): int {
    if |lines| < n then 1 else |lines| - n + 1
  }

  lemma SlotStep(total: nat, n: nat)
    requires n >= 1
    ensures (total % n + 1) % n == (total + 1) % n
  {
    var q, r := total / n, total % n;
    assert total == q * n + r;
    if r + 1 == n {
      assert total + 1 == (q + 1) * n;
      MultipleMod(q + 1, 0, n);
      MultipleMod(1, 0, n);
    } else {
      MultipleMod(q, r + 1, n);
      MultipleMod(0, r + 1, n);
    }
  }

  /** The slot that the ring overwrites next, moved on by i, holds the i-th oldest line. */
  lemma {:induction false} SlotOfOldest(total: nat, i: nat, n: nat)
    requires n >= 1 && n <= total
    ensures (total % n + i) % n == (total - n + i) % n
  {
    if i == 0 {
      var q, r := total / n, total % n;
      assert total - n == (q - 1) * n + r;
      assert q >= 1;
      MultipleMod(q - 1, r, n);
      MultipleMod(0, r, n);
    } else {
      SlotOfOldest(total, i - 1, n);
      SlotStep(total % n + i - 1, n);
      SlotStep(total - n + i - 1, n);
    }
  }

  /** Lines at most n - 1 apart are kept in different slots. */
  lemma SlotsDiffer(a: nat, b: nat, n: nat)
    requires n >= 1 && a < b < a + n
    ensures a % n != b % n
  {
    if a % n == b % n {
      var d := b / n - a / n;
      assert b - a == d * n;
      if d >= 1 {
        MultipleOrder(1, d, n);
      } else {
        MultipleOrder(d + (if d < 0 then -d else 0), 0, n);
      }
    }
  }

  /** Every line of the last n, once seen, is in the slot of its number. */
  ghost predicate Ring(lines: seq<Bytes>, total: nat, contents: seq<Bytes>, numbers: seq<int>)
    requires |contents| == |numbers| >= 1 && total <= |lines|
  {
    forall k :: 0 <= k < total && total - |contents| <= k ==>
      contents[k % |contents|] == lines[k] && numbers[k % |contents|] == k + 1
  }

  lemma RingEmpty(lines: seq<Bytes>, contents: seq<Bytes>, numbers: seq<int>)
    requires |contents| == |numbers| >= 1
    ensures Ring(lines, 0, contents, numbers)
  {
  }

  lemma RingStep(lines: seq<Bytes>, total: nat, contents: seq<Bytes>, numbers: seq<int>)
    requires |contents| == |numbers| >= 1 && total < |lines|
    requires Ring(lines, total, contents, numbers)
    ensures Ring(lines, total + 1, contents[total % |contents| := lines[total]], numbers[total % |contents| := total + 1])
  {
    var n := |contents|;
    forall k | 0 <= k < total && total + 1 - n <= k
      ensures k % n != total % n
    {
      SlotsDiffer(k, total, n);
    }
  }

  lemma RingLookup(lines: seq<Bytes>, total: nat, contents: seq<Bytes>, numbers: seq<int>, k: nat)
    requires |contents| == |numbers| >= 1 && total <= |lines|
    requires Ring(lines, total, contents, numbers) && k < total && total - |contents| <= k
    ensures contents[k % |contents|] == lines[k] && numbers[k % |contents|] == k + 1
  {
  }

  /** The loops that read the ring from its oldest line. */
  method ReadRing(ghost all: seq<Bytes>, lines: seq<Bytes>, lineNumbers: seq<int>, currentIndex: nat, totalLines: nat)
    returns (entries: seq<LogEntry>)
    requires |lines| == |lineNumbers| >= 1 && totalLines == |all| && currentIndex == totalLines % |lines|
    requires Ring(all, totalLines, lines, lineNumbers)
    ensures entries == Range(all, TailStart(all, |lines|), |all|)
  {
    hide Ring, Range;
    var n := |lines|;
    entries := [];
    if totalLines < n {
      RangeEnds(all, 1, 0);
      for i := 0 to totalLines
        invariant entries == Range(all, 1, i)
      {
        MultipleMod(0, i, n);
        RangeSnoc(all, 1, i);
        RingLookup(all, totalLines, lines, lineNumbers, i);
        entries := entries + [LogEntry(lineNumbers[i], lines[i])];
      }
    } else {
      RangeEnds(all, totalLines - n + 1, totalLines - n);
      for i := 0 to n
        invariant entries == Range(all, totalLines - n + 1, totalLines - n + i)
      {
        var idx := (currentIndex + i) % n;
        SlotOfOldest(totalLines, i, n);
        RangeSnoc(all, totalLines - n + 1, totalLines - n + i);
        RingLookup(all, totalLines, lines, lineNumbers, totalLines - n + i);
        entries := entries + [LogEntry(lineNumbers[idx], lines[idx])];
      }
    }
  }

  method FillRing(file: Bytes, lines: array<Bytes>, lineNumbers: array<int>)
    returns (currentIndex: nat, totalLines: nat)
    requires lines.Length == lineNumbers.Length >= 1
    modifies lines, lineNumbers
    ensures totalLines == |ScanLines(file)| && currentIndex == totalLines % lines.Length
    ensures Ring(ScanLines(file), totalLines, lines[..], lineNumbers[..])
  {
    var n := lines.Length;
    currentIndex, totalLines := 0, 0;
    var scanner := new Scanner(file);
    ghost var all, contents, numbers := ScanLines(file), lines[..], lineNumbers[..];
    RingEmpty(all, contents, numbers);
    hide RawLines, ScanLines, Ring;
    while true
      invariant scanner.Valid() && scanner.src == file && fresh(scanner)
      invariant totalLines == scanner.count <= |all| && currentIndex == totalLines % n
      invariant lines[..] == contents && lineNumbers[..] == numbers && Ring(all, totalLines, contents, numbers)
      decreases |all| - totalLines
    {
      var more := scanner.Scan();
      if !more {
        break;
      }
      RingStep(all, totalLines, contents, numbers);
      SlotStep(totalLines, n);
      contents, numbers := contents[currentIndex := all[totalLines]], numbers[currentIndex := totalLines + 1];
      totalLines := totalLines + 1;
      lines[currentIndex] := scanner.text;
      lineNumbers[currentIndex] := totalLines;
      currentIndex := (currentIndex + 1) % n;
    }
  }

  /** The last n lines, or all when there are fewer, with their own numbers. */
  lemma TailEntries(all: seq<Bytes>, n: int)
    requires n >= 1
    ensures var r := Range(all, TailStart(all, n), |all|);
      && |r| == (if |all| < n then |all| else n)
      && forall i :: 0 <= i < |r| ==> r[i] == LogEntry(|all| - |r| + i + 1, all[|all| - |r| + i])
  {
  }

  /** A ring buffer of n slots, overwritten as the scan goes on, then read from the oldest. */
  method TailFile(file: Bytes, n: nat) returns (entries: seq<LogEntry>)
    requires n >= 1
    ensures entries == Range(ScanLines(file), TailStart(ScanLines(file), n), |ScanLines(file)|)
  {
    hide *;
    var lines := new Bytes[n](_ => []);
    var lineNumbers := new int[n](_ => 0);
    var currentIndex, totalLines := FillRing(file, lines, lineNumbers);
    entries := ReadRing(ScanLines(file), lines[..], lineNumbers[..], currentIndex, totalLines);
  }

  method TailLog(disk: Disk, path: string, n: int) returns (r: Result<seq<LogEntry>>)
    ensures r.Err? <==> n < 1 || n > 10000 || path !in disk.files
    ensures r.Ok? ==> var all := ScanLines(disk.files[path]);
      r.value == Range(all, TailStart(all, n), |all|)
    ensures r.Ok? ==> var all, k := ScanLines(disk.files[path]), |r.value|;
      && k == (if |all| < n then |all| else n)
      && forall i :: 0 <= i < k ==> r.value[i] == LogEntry(|all| - k + i + 1, all[|all| - k + i])
  {
    if n < 1 || n > MAX_TAIL_LINES || path !in disk.files {
      return Err;
    }
    hide *;
    var entries := TailFile(disk.files[path], n);
    TailEntries(ScanLines(disk.files[path]), n);
    return Ok(entries);
  }

  // ----- streaming -----

  function Contents(entries: seq<LogEntry>): seq<Bytes> {
    seq(|entries|, i requires 0 <= i < |entries| => entries[i].content)
  }

  /** As many of the bytes as there is room for. */
  function UpTo(data: Bytes, room: nat): (r: Bytes)
    ensures |r| == (if |data| <= room then |data| else room) && r <= data
    ensures |data| <= room ==> r == data
  {
    if |data| <= room then data else data[..room]
  }

  /** An output that takes `room` more bytes before a write to it fails, in the middle of a line
      if it comes to that. */
  class Writer {
    var written: Bytes
    var room: nat

    constructor (room: nat)
      ensures written == [] && this.room == room
    {
      written, this.room := [], room;
    }

    /** One write, of the line and its newline. */
    method Println(line: Bytes) returns (ok: bool)
      modifies this
      ensures ok == (|line| + 1 <= old(room))
      ensures written == old(written) + UpTo(line + [NL], old(room)) && room == old(room) - |UpTo(line + [NL], old(room))|
    {
      var data := UpTo(line + [NL], room);
      ok := |line| + 1 <= room;
      written := written + data;
      room := room - |data|;
    }
  }

  /** What streaming writes: the contents of the filtered entries, as far as the output takes them. */
  function Streamed(o: FilterOptions, lines: seq<Bytes>, room: nat): Bytes {
    UpTo(Render(Contents(Filtered(o, lines))), room)
  }

  lemma StreamStep(o: FilterOptions, lines: seq<Bytes>, line: Bytes)
    ensures Contents(Filtered(o, lines + [line]))
      == Contents(Filtered(o, lines)) + if Selected(o, |lines| + 1, line) then [line] else []
  {
    FilteredSnoc(o, lines, line);
  }

  lemma {:induction false} FilteredGrows(o: FilterOptions, lines: seq<Bytes>, k: nat)
    requires k <= |lines|
    ensures Contents(Filtered(o, lines[..k])) <= Contents(Filtered(o, lines))
  {
    if k == |lines| {
      assert lines[..k] == lines;
    } else {
      var init := lines[..|lines| - 1];
      FilteredGrows(o, init, k);
      assert init[..k] == lines[..k];
      StreamStep(o, init, lines[|lines| - 1]);
      assert lines == init + [lines[|lines| - 1]];
    }
  }

  /** What one line adds to the output. */
  function Sending(o: FilterOptions, currentLine: int, line: Bytes): Bytes {
    if Selected(o, currentLine, line) then line + [NL] else []
  }

  /** What streaming does with one line: `stop` when the line is past the end, `ok` unless the
      output failed. */
  method SendLine(o: FilterOptions, currentLine: int, line: Bytes, writer: Writer) returns (stop: bool, ok: bool)
    modifies writer
    ensures stop ==> 0 < o.endLine < currentLine
    ensures ok == (|Sending(o, currentLine, line)| <= old(writer.room))
    ensures var data := UpTo(Sending(o, currentLine, line), old(writer.room));
      writer.written == old(writer.written) + data && writer.room == old(writer.room) - |data|
  {
    if o.startLine > 0 && currentLine < o.startLine {
      return false, true;
    }
    if o.endLine > 0 && currentLine > o.endLine {
      return true, true;
    }
    if o.pattern.Matching? {
      if !o.pattern.matches(line) {
        return false, true;
      }
    }
    ok := writer.Println(line);
    stop := false;
  }

  /** The contents that streaming has selected among the first k lines. */
  ghost function Sent(o: FilterOptions, lines: seq<Bytes>, k: nat): seq<Bytes>
    requires k <= |lines|
  {
    Contents(Filtered(o, lines[..k]))
  }

  lemma SentStep(o: FilterOptions, lines: seq<Bytes>, k: nat)
    requires k < |lines|
    ensures Sent(o, lines, k + 1) == Sent(o, lines, k) + if Selected(o, k + 1, lines[k]) then [lines[k]] else []
    ensures Render(Sent(o, lines, k + 1)) == Render(Sent(o, lines, k)) + Sending(o, k + 1, lines[k])
  {
    assert lines[..k + 1] == lines[..k] + [lines[k]];
    StreamStep(o, lines[..k], lines[k]);
    RenderSnoc(Sent(o, lines, k), lines[k]);
    assert !Selected(o, k + 1, lines[k]) ==> Sent(o, lines, k + 1) == Sent(o, lines, k);
  }

  lemma NothingSent(o: FilterOptions, lines: seq<Bytes>)
    ensures Render(Sent(o, lines, 0)) == []
  {
  }

  /** After the last line, or past the end bound, all of it has been sent. */
  lemma SentAll(o: FilterOptions, lines: seq<Bytes>, k: nat, room: nat)
    requires k == |lines| || (k < |lines| && 0 < o.endLine < k)
    requires |Render(Sent(o, lines, k))| <= room
    ensures Render(Contents(Filtered(o, lines))) == Render(Sent(o, lines, k)) == Streamed(o, lines, room)
  {
    if k == |lines| {
      assert lines[..k] == lines;
    } else {
      FilteredStop(o, lines, k);
    }
  }

  lemma {:induction false} RenderPrefix(a: seq<Bytes>, b: seq<Bytes>)
    requires a <= b
    ensures Render(a) <= Render(b)
  {
    if |a| < |b| {
      RenderPrefix(a, b[..|b| - 1]);
    } else {
      assert a == b;
    }
  }

  lemma UpToPrefix(a: Bytes, b: Bytes, all: Bytes, room: nat)
    requires a + b <= all && |a| <= room < |a| + |b|
    ensures UpTo(all, room) == a + UpTo(b, room - |a|)
  {
  }

  /** When the next line selected does not fit, the output has what fits, and the rest is not
      sent. */
  lemma SentFull(o: FilterOptions, lines: seq<Bytes>, k: nat, room: nat)
    requires k < |lines|
    requires var n := |Render(Sent(o, lines, k))|; n <= room < n + |Sending(o, k + 1, lines[k])|
    ensures |Render(Contents(Filtered(o, lines)))| > room
    ensures var a := Render(Sent(o, lines, k)); Streamed(o, lines, room) == a + UpTo(Sending(o, k + 1, lines[k]), room - |a|)
  {
    SentStep(o, lines, k);
    FilteredGrows(o, lines, k + 1);
    hide Render, Filtered, Contents, Sending;
    RenderPrefix(Sent(o, lines, k + 1), Contents(Filtered(o, lines)));
    UpToPrefix(Render(Sent(o, lines, k)), Sending(o, k + 1, lines[k]), Render(Contents(Filtered(o, lines))), room);
  }

  /** The loop of `StreamLog`. */
  method StreamLines(file: Bytes, o: FilterOptions, writer: Writer) returns (ok: bool)
    requires writer.written == []
    modifies writer
    ensures writer.written == Streamed(o, ScanLines(file), old(writer.room))
    ensures ok == (|Render(Contents(Filtered(o, ScanLines(file))))| <= old(writer.room))
  {
    hide *;
    var scanner := new Scanner(file);
    var currentLine := 0;
    ghost var lines, room := ScanLines(file), writer.room;
    NothingSent(o, lines);
    while true
      invariant scanner.Valid() && scanner.src == file && fresh(scanner)
      invariant currentLine == scanner.count <= |lines|
      invariant writer.written == Render(Sent(o, lines, currentLine))
      invariant writer.room == room - |writer.written|
      decreases |lines| - currentLine
    {
      var more := scanner.Scan();
      if !more {
        SentAll(o, lines, currentLine, room);
        return true;
      }
      SentStep(o, lines, currentLine);
      currentLine := currentLine + 1;
      var stop: bool;
      stop, ok := SendLine(o, currentLine, scanner.text, writer);
      if !ok {
        SentFull(o, lines, currentLine - 1, room);
        return;
      }
      if stop {
        SentAll(o, lines, currentLine, room);
        return true;
      }
    }
  }

  method StreamLog(disk: Disk, path: string, o: FilterOptions, writer: Writer) returns (ok: bool)
    requires writer.written == []
    modifies writer
    ensures path !in disk.files || o.pattern.BadPattern? ==> !ok && writer.written == []
    ensures path in disk.files && !o.pattern.BadPattern? ==>
      var all := Render(Contents(Filtered(o, ScanLines(disk.files[path]))));
      && writer.written <= all && |writer.written| == if |all| <= old(writer.room) then |all| else old(writer.room)
    ensures path in disk.files && !o.pattern.BadPattern? ==>
      && writer.written == Streamed(o, ScanLines(disk.files[path]), old(writer.room))
      && ok == (|Render(Contents(Filtered(o, ScanLines(disk.files[path]))))| <= old(writer.room))
  {
    if path !in disk.files || o.pattern.BadPattern? {
      return false;
    }
    ok := StreamLines(disk.files[path], o, writer);
  }

  lemma {:induction false} ContentsOfEverything(lines: seq<Bytes>)
    ensures Contents(Filtered(EVERYTHING, lines)) == lines
  {
    if lines != [] {
      var init, last := lines[..|lines| - 1], lines[|lines| - 1];
      ContentsOfEverything(init);
      StreamStep(EVERYTHING, init, last);
      assert lines == init + [last];
    }
  }

  lemma RenderLengthSnoc(lines: seq<Bytes>)
    requires lines != []
    ensures |Render(lines)| == |Render(lines[..|lines| - 1])| + |lines[|lines| - 1]| + 1
  {
  }

  lemma NoLineEndsInCRSnoc(a: seq<Bytes>)
    requires a != []
    ensures NoLineEndsInCR(a) <==> NoLineEndsInCR(a[..|a| - 1]) && !EndsInCR(a[|a| - 1])
  {
    hide EndsInCR;
  }

  lemma {:induction false} RenderLength(a: seq<Bytes>)
    ensures |Render(DropCRs(a))| <= |Render(a)|
    ensures |Render(DropCRs(a))| == |Render(a)| <==> NoLineEndsInCR(a)
  {
    if a != [] {
      var init, last := a[..|a| - 1], a[|a| - 1];
      RenderLength(init);
      RenderLengthSnoc(a);
      RenderLengthSnoc(DropCRs(a));
      hide Render;
      assert DropCRs(a)[..|a| - 1] == DropCRs(init);
      NoLineEndsInCRSnoc(a);
      hide NoLineEndsInCR;
    }
  }

  lemma RenderEndsInNewline(lines: seq<Bytes>)
    ensures Terminated(Render(lines))
  {
  }

  /** To an output that takes it all, streaming everything reproduces the file byte for byte
      exactly when its last line is terminated and no carriage return stands before a newline. */
  lemma StreamEverythingIff(f: Bytes, room: nat)
    requires room >= |Render(ScanLines(f))|
    ensures Streamed(EVERYTHING, ScanLines(f), room) == f <==> Terminated(f) && NoCRLF(f)
  {
    ContentsOfEverything(ScanLines(f));
    RenderEndsInNewline(ScanLines(f));
    hide Complete, Partial, RawLines, Render, Filtered, Contents;
    RawLinesByByte(f);
    PartialFacts(f);
    if Terminated(f) {
      assert RawLines(f) == Complete(f);
      RenderComplete(f);
      assert Render(Complete(f)) + Partial(f) == Render(Complete(f));
      RenderLength(Complete(f));
      NoCRLFIff(f);
      if NoLineEndsInCR(Complete(f)) {
        assert DropCRs(Complete(f)) == Complete(f);
      }
    }
  }

  // ----- streaming and filtering a large file -----

  lemma ScanLinesNewlineFree(f: Bytes)
    ensures forall i :: 0 <= i < |ScanLines(f)| ==> NewlineFree(ScanLines(f)[i])
  {
    CompleteNewlineFree(f);
    PartialFacts(f);
    RawLinesByByte(f);
    hide Complete, Partial, RawLines;
  }

  lemma ChunkedLinesNewlineFree(f: Bytes, c: nat)
    requires c >= 1
    ensures forall i :: 0 <= i < |ChunkedLines(f, c)| ==> NewlineFree(ChunkedLines(f, c)[i])
  {
    CompleteNewlineFree(f);
    PartialFacts(f);
    hide Complete, Partial;
  }

  lemma ContentsNewlineFree(o: FilterOptions, lines: seq<Bytes>)
    requires forall i :: 0 <= i < |lines| ==> NewlineFree(lines[i])
    ensures forall i :: 0 <= i < |Contents(Filtered(o, lines))| ==> NewlineFree(Contents(Filtered(o, lines))[i])
  {
    FilteredMeaning(o, lines);
    hide Filtered, NewlineFree;
    forall i | 0 <= i < |Contents(Filtered(o, lines))|
      ensures NewlineFree(Contents(Filtered(o, lines))[i])
    {
      var e := Filtered(o, lines)[i];
      assert e in Filtered(o, lines);
      assert NewlineFree(lines[e.lineNumber - 1]);
    }
  }

  /** Newline-free lines can be told from what is written of them. */
  lemma RenderInjective(a: seq<Bytes>, b: seq<Bytes>)
    requires forall i :: 0 <= i < |a| ==> NewlineFree(a[i])
    requires forall i :: 0 <= i < |b| ==> NewlineFree(b[i])
    ensures Render(a) == Render(b) <==> a == b
  {
    CompleteUnique(a, []);
    CompleteUnique(b, []);
    assert Render(a) + [] == Render(a) && Render(b) + [] == Render(b);
  }

  /** The number of the first line in the window. */
  function WindowStart(o: FilterOptions): int {
    if o.startLine > 0 then o.startLine else 1
  }

  /** Without a pattern, the entries are numbered without a gap from the start of the window. */
  lemma {:induction false} WindowNumbers(o: FilterOptions, lines: seq<Bytes>)
    requires !o.pattern.Matching?
    ensures var n, s, k := |lines|, WindowStart(o), |Filtered(o, lines)|;
      && (forall i :: 0 <= i < k ==> Filtered(o, lines)[i].lineNumber == s + i)
      && k == (if o.endLine > 0 && o.endLine < n then (if o.endLine >= s then o.endLine - s + 1 else 0)
               else if n >= s then n - s + 1 else 0)
  {
    if lines != [] {
      WindowNumbers(o, lines[..|lines| - 1]);
    }
  }

  lemma SameContentsSameEntries(o: FilterOptions, a: seq<Bytes>, b: seq<Bytes>)
    requires !o.pattern.Matching? && Contents(Filtered(o, a)) == Contents(Filtered(o, b))
    ensures Filtered(o, a) == Filtered(o, b)
  {
    WindowNumbers(o, a);
    WindowNumbers(o, b);
    var x, y := Filtered(o, a), Filtered(o, b);
    hide Filtered;
    forall i | 0 <= i < |x|
      ensures x[i] == y[i]
    {
      assert Contents(x)[i] == x[i].content && Contents(y)[i] == y[i].content;
    }
  }

  /** Streaming always scans, while filtering takes large files in chunks. An output that takes it
      all receives the contents of the filtered entries whenever the two filters agree; without a
      pattern, exactly then; and with every option, exactly for the files that the chunks do not
      change. */
  lemma StreamEqualsFilterIff(o: FilterOptions, f: Bytes, c: nat, room: nat)
    requires c >= 1 && room >= |Render(Contents(Filtered(o, ScanLines(f))))|
    ensures var same := Streamed(o, ScanLines(f), room) == Render(Contents(Filtered(o, ChunkedLines(f, c))));
      && (FiltersAgree(o, f, c) || ChunkSafe(f, c) ==> same)
      && (!o.pattern.Matching? ==> (same <==> FiltersAgree(o, f, c)))
      && (o == EVERYTHING ==> (same <==> ChunkSafe(f, c)))
  {
    var a, b := ChunkedLines(f, c), ScanLines(f);
    ChunkedEqualsScanIff(o, f, c);
    ChunkedEqualsScanForAllOptions(o, f, c);
    ChunkedLinesNewlineFree(f, c);
    ScanLinesNewlineFree(f);
    hide Filtered, Render, Contents, ChunkedLines, ScanLines, FiltersAgree, ChunkSafe, NewlineFree;
    ContentsNewlineFree(o, a);
    ContentsNewlineFree(o, b);
    RenderInjective(Contents(Filtered(o, a)), Contents(Filtered(o, b)));
    if !o.pattern.Matching? && Contents(Filtered(o, a)) == Contents(Filtered(o, b)) {
      SameContentsSameEntries(o, a, b);
    }
  }

  // ----- counting -----

  /** The line count of `GetLogStats`. */
  method CountLines(file: Bytes) returns (lineCount: nat)
    ensures lineCount == |RawLines(file)|
  {
    var scanner := new Scanner(file);
    lineCount := 0;
    ghost var n := |ScanLines(file)|;
    assert n == |RawLines(file)|;
    hide RawLines, ScanLines;
    while true
      invariant scanner.Valid() && scanner.src == file && fresh(scanner)
      invariant lineCount == scanner.count <= n == |ScanLines(file)|
      decreases n - lineCount
    {
      var more := scanner.Scan();
      if !more {
        break;
      }
      lineCount := lineCount + 1;
    }
  }

  /** The index counts one line more than there are exactly when the last line is terminated. */
  lemma IndexCountsOneMore(f: Bytes)
    ensures |Offsets(f)| == |RawLines(f)| + (if Terminated(f) then 1 else 0)
  {
    hide RawLines, Complete, Partial, Offsets;
    OffsetsCutFile(f);
    RawLinesByByte(f);
    PartialFacts(f);
  }
}
