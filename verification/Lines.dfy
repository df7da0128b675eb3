/** Files as byte sequences, and the two ways the log package cuts them into lines:
    the split function of `bufio.Scanner` and the byte-by-byte view that the fast paths
    maintain while they walk a buffer. */
module Lines {
  newtype byte = x: int | 0 <= x < 256
  type Bytes = seq<byte>

  const NL: byte := 10
  const CR: byte := 13

  datatype Option<+T> = None | Some(value: T)

  datatype Result<+T> = Ok(value: T) | Err

  /** One numbered line, as returned to the callers of the log service. */
  datatype LogEntry = LogEntry(lineNumber: int, content: Bytes)

  ghost predicate NewlineFree(s: Bytes) {
    forall i :: 0 <= i < |s| ==> s[i] != NL
  }

  /** The index of the first newline at or after i, or the length when there is none. */
  function NewlineFrom(f: Bytes, i: nat): (e: nat)
    requires i <= |f|
    ensures i <= e <= |f| && (e < |f| ==> f[e] == NL)
    ensures NewlineFree(f[i..e])
    decreases |f| - i
  {
    if i == |f| || f[i] == NL then i else NewlineFrom(f, i + 1)
  }

  function LineEnd(f: Bytes): (e: nat)
    ensures e <= |f| && NewlineFree(f[..e])
    ensures e < |f| ==> f[e] == NL
  {
    NewlineFrom(f, 0)
  }

  /** What `bufio.ScanLines` cuts the file into from a position on, before it drops carriage
      returns: every newline ends a line and a last unterminated piece is a line when it is not
      empty. */
  function RawLinesFrom(f: Bytes, pos: nat): seq<Bytes>
    requires pos <= |f|
    decreases |f| - pos
  {
    if pos == |f| then []
    else
      var e := NewlineFrom(f, pos);
      [f[pos..e]] + if e == |f| then [] else RawLinesFrom(f, e + 1)
  }

  function RawLines(f: Bytes): seq<Bytes> {
    RawLinesFrom(f, 0)
  }

  predicate EndsInCR(line: Bytes) {
    line != [] && line[|line| - 1] == CR
  }

  /** `bufio.ScanLines` removes one trailing carriage return from each line. */
  function DropCR(line: Bytes): Bytes {
    if EndsInCR(line) then line[..|line| - 1] else line
  }

  function DropCRs(lines: seq<Bytes>): (r: seq<Bytes>)
    ensures |r| == |lines|
    ensures forall i :: 0 <= i < |r| ==> r[i] == DropCR(lines[i])
  {
    seq(|lines|, i requires 0 <= i < |lines| => DropCR(lines[i]))
  }

  /** The tokens of a line scanner over the file. */
  function ScanLines(f: Bytes): seq<Bytes> {
    DropCRs(RawLines(f))
  }

  /** The bytes read since the last newline. */
  function Partial(f: Bytes): Bytes {
    if f == [] then []
    else
      var g := f[..|f| - 1];
      if f[|f| - 1] == NL then [] else Partial(g) + [f[|f| - 1]]
  }

  /** The newline-terminated lines of a file that is read byte by byte. */
  function Complete(f: Bytes): seq<Bytes> {
    if f == [] then []
    else
      var g := f[..|f| - 1];
      if f[|f| - 1] == NL then Complete(g) + [Partial(g)] else Complete(g)
  }

  /** True of the files whose last line, if any, is terminated. */
  predicate Terminated(f: Bytes) {
    f == [] || f[|f| - 1] == NL
  }

  lemma {:induction false} PartialFacts(f: Bytes)
    ensures NewlineFree(Partial(f))
    ensures Partial(f) == [] <==> Terminated(f)
    ensures Partial(f) != [] ==> Partial(f)[|Partial(f)| - 1] == f[|f| - 1]
  {
    if f != [] {
      PartialFacts(f[..|f| - 1]);
    }
  }

  lemma Snoc(f: Bytes, b: byte)
    ensures Complete(f + [b]) == if b == NL then Complete(f) + [Partial(f)] else Complete(f)
    ensures Partial(f + [b]) == if b == NL then [] else Partial(f) + [b]
  {
    assert (f + [b])[..|f|] == f;
  }

  lemma Assoc<T>(a: seq<T>, b: seq<T>, c: seq<T>)
    ensures a + (b + c) == a + b + c
  {
  }

  lemma Middle<T>(a: seq<T>, b: seq<T>, c: seq<T>)
    ensures (a + b + c)[|a|..|a| + |b|] == b
    ensures a + b + c == a + (b + c)
  {
  }

  lemma SplitSlice<T>(a: seq<T>, i: nat, j: nat, k: nat)
    requires i <= j <= k <= |a|
    ensures a[i..k] == a[i..j] + a[j..k]
  {
  }

  /** Slices of a sequence that one element was appended to. */
  lemma SliceOfSnoc<T>(a: seq<T>, x: T, i: nat, j: nat)
    requires i <= j <= |a|
    ensures (a + [x])[i..j] == a[i..j]
    ensures (a + [x])[i..] == a[i..] + [x]
  {
  }

  lemma TakeSnoc<T>(a: seq<T>, i: nat)
    requires i < |a|
    ensures a[..i + 1] == a[..i] + [a[i]]
    ensures i + 1 == |a| ==> a[..i + 1] == a
  {
  }

  lemma LastByte(f: Bytes, g: Bytes)
    requires g != []
    ensures g == g[..|g| - 1] + [g[|g| - 1]]
    ensures f + g == f + g[..|g| - 1] + [g[|g| - 1]]
  {
  }

  /** Reading on from f: only the first newline of g completes a line begun in f. */
  lemma {:induction false} AppendNewlineFree(f: Bytes, g: Bytes)
    requires NewlineFree(g)
    ensures Complete(f + g) == Complete(f)
    ensures Partial(f + g) == Partial(f) + g
  {
    if g == [] {
      assert f + g == f;
    } else {
      var g' := g[..|g| - 1];
      AppendNewlineFree(f, g');
      hide Complete, Partial;
      LastByte(f, g);
      Snoc(f + g', g[|g| - 1]);
      Assoc(Partial(f), g', [g[|g| - 1]]);
    }
  }

  /** The lines of a file are those up to any newline followed by those after it. */
  lemma {:induction false} AppendAfterNewline(f: Bytes, g: Bytes)
    ensures Complete(f + [NL] + g) == Complete(f) + [Partial(f)] + Complete(g)
    ensures Partial(f + [NL] + g) == Partial(g)
  {
    if g == [] {
      assert f + [NL] + g == f + [NL];
      Snoc(f, NL);
    } else {
      var g', b := g[..|g| - 1], g[|g| - 1];
      AppendAfterNewline(f, g');
      hide Complete, Partial;
      LastByte(f + [NL], g);
      Snoc(f + [NL] + g', b);
      Snoc(g', b);
      Assoc(Complete(f) + [Partial(f)], Complete(g'), [Partial(g')]);
    }
  }

  /** One more terminated line. */
  lemma AppendLine(f: Bytes, line: Bytes)
    requires Partial(f) == [] && NewlineFree(line)
    ensures Complete(f + (line + [NL])) == Complete(f) + [line]
    ensures Partial(f + (line + [NL])) == []
  {
    hide Complete, Partial, NewlineFree;
    AppendNewlineFree(f, line);
    Snoc(f + line, NL);
    Assoc(f, line, [NL]);
    assert [] + line == line;
  }

  /** The unterminated last line of a file, as a list of at most one line. */
  function LastPiece(f: Bytes): seq<Bytes> {
    if Partial(f) == [] then [] else [Partial(f)]
  }

  lemma LinesAtEnd(f: Bytes)
    requires Partial(f[..|f|]) == []
    ensures Complete(f[..|f|]) + RawLinesFrom(f, |f|) == Complete(f) + LastPiece(f)
  {
    assert f[..|f|] == f;
    hide Complete, Partial;
  }

  lemma PrefixAndLine(f: Bytes, pos: nat, e: nat)
    requires pos <= e <= |f|
    ensures e == |f| ==> f[..pos] + f[pos..e] == f
    ensures e < |f| && f[e] == NL ==> f[..e + 1] == f[..pos] + (f[pos..e] + [NL])
  {
  }

  lemma RawLinesFromUnfold(f: Bytes, pos: nat)
    requires pos < |f|
    ensures var e := NewlineFrom(f, pos);
      RawLinesFrom(f, pos) == [f[pos..e]] + if e == |f| then [] else RawLinesFrom(f, e + 1)
  {
    hide NewlineFrom;
  }

  lemma LinesToEnd(f: Bytes, pos: nat)
    requires pos < |f| && Partial(f[..pos]) == [] && NewlineFrom(f, pos) == |f|
    ensures Complete(f[..pos]) + RawLinesFrom(f, pos) == Complete(f) + LastPiece(f)
  {
    RawLinesFromUnfold(f, pos);
    assert NewlineFree(f[pos..|f|]);
    hide Complete, Partial, NewlineFree, RawLinesFrom, NewlineFrom;
    PrefixAndLine(f, pos, |f|);
    AppendNewlineFree(f[..pos], f[pos..|f|]);
    assert [] + f[pos..|f|] == f[pos..|f|];
  }

  lemma LinesToNewline(f: Bytes, pos: nat)
    requires pos < |f| && Partial(f[..pos]) == [] && NewlineFrom(f, pos) < |f|
    ensures var e := NewlineFrom(f, pos);
      && Partial(f[..e + 1]) == []
      && Complete(f[..pos]) + RawLinesFrom(f, pos) == Complete(f[..e + 1]) + RawLinesFrom(f, e + 1)
  {
    var e := NewlineFrom(f, pos);
    RawLinesFromUnfold(f, pos);
    hide Complete, Partial, NewlineFree, RawLinesFrom, NewlineFrom;
    PrefixAndLine(f, pos, e);
    AppendLine(f[..pos], f[pos..e]);
    Assoc(Complete(f[..pos]), [f[pos..e]], RawLinesFrom(f, e + 1));
  }

  lemma {:induction false} RawLinesFromByByte(f: Bytes, pos: nat)
    requires pos <= |f| && Partial(f[..pos]) == []
    ensures Complete(f[..pos]) + RawLinesFrom(f, pos) == Complete(f) + LastPiece(f)
    decreases |f| - pos
  {
    hide Complete, Partial, RawLinesFrom, NewlineFrom, NewlineFree, LastPiece;
    if pos == |f| {
      LinesAtEnd(f);
    } else if NewlineFrom(f, pos) == |f| {
      LinesToEnd(f, pos);
    } else {
      var e := NewlineFrom(f, pos);
      LinesToNewline(f, pos);
      RawLinesFromByByte(f, e + 1);
    }
  }

  /** The scanner's view and the byte-by-byte view of a file are the same. */
  lemma RawLinesByByte(f: Bytes)
    ensures RawLines(f) == Complete(f) + LastPiece(f)
  {
    assert f[..0] == [] && Complete([]) == [] && Partial([]) == [];
    RawLinesFromByByte(f, 0);
    assert [] + RawLines(f) == RawLines(f);
  }

  lemma SplitAtNewline(f: Bytes, e: nat)
    requires e < |f| && f[e] == NL
    ensures f == f[..e] + [NL] + f[e + 1..]
  {
  }

  /** A file that ends in a terminated line, followed by an unterminated rest. */
  lemma AppendRest(f: Bytes, rest: Bytes)
    requires Partial(f) == [] && NewlineFree(rest)
    ensures RawLines(f + rest) == Complete(f) + (if rest == [] then [] else [rest])
  {
    AppendNewlineFree(f, rest);
    assert [] + rest == rest;
    RawLinesByByte(f + rest);
  }

  /** Every line followed by a newline, as `fmt.Fprintln` writes them. */
  function Render(lines: seq<Bytes>): Bytes {
    if lines == [] then [] else Render(lines[..|lines| - 1]) + lines[|lines| - 1] + [NL]
  }

  lemma RenderSnoc(lines: seq<Bytes>, line: Bytes)
    ensures Render(lines + [line]) == Render(lines) + line + [NL]
  {
    assert (lines + [line])[..|lines|] == lines;
  }

  lemma NothingToRender()
    ensures Render(Complete([])) + Partial([]) == []
  {
  }

  lemma OneMoreRendered(g: Bytes, b: byte, lines: seq<Bytes>, p: Bytes)
    requires g == Render(lines) + p
    ensures b == NL ==> g + [b] == Render(lines + [p]) + []
    ensures g + [b] == Render(lines) + (p + [b])
  {
    hide Render;
    RenderSnoc(lines, p);
  }

  /** Cutting a file loses nothing. */
  lemma {:induction false} RenderComplete(f: Bytes)
    ensures f == Render(Complete(f)) + Partial(f)
  {
    hide *;
    if f == [] {
      NothingToRender();
    } else {
      var g, b := f[..|f| - 1], f[|f| - 1];
      RenderComplete(g);
      LastByte([], f);
      Snoc(g, b);
      OneMoreRendered(g, b, Complete(g), Partial(g));
    }
  }

  /** Cutting is the only way to write a file as newline-free lines and a newline-free rest. */
  lemma {:induction false} CompleteUnique(lines: seq<Bytes>, rest: Bytes)
    requires NewlineFree(rest)
    requires forall i :: 0 <= i < |lines| ==> NewlineFree(lines[i])
    ensures Complete(Render(lines) + rest) == lines
    ensures Partial(Render(lines) + rest) == rest
  {
    if lines == [] {
      assert Render(lines) + rest == [] + rest;
      AppendNewlineFree([], rest);
      assert Partial([]) + rest == rest;
    } else {
      var init, last := lines[..|lines| - 1], lines[|lines| - 1];
      CompleteUnique(init, last);
      AppendAfterNewline(Render(init) + last, rest);
      assert Render(lines) + rest == (Render(init) + last) + [NL] + rest;
      AppendNewlineFree([], rest);
      assert [] + rest == rest;
      assert lines == init + [last];
    }
  }

  lemma {:induction false} CompleteNewlineFree(f: Bytes)
    ensures forall i :: 0 <= i < |Complete(f)| ==> NewlineFree(Complete(f)[i])
  {
    if f != [] {
      CompleteNewlineFree(f[..|f| - 1]);
      PartialFacts(f[..|f| - 1]);
    }
  }

  /** The entries numbered start to end that exist among the lines. */
  function Range(lines: seq<Bytes>, start: int, end: int): (r: seq<LogEntry>)
    requires 1 <= start
    ensures var last := if end < |lines| then end else |lines|;
      |r| == (if start <= last then last - start + 1 else 0)
      && forall i :: 0 <= i < |r| ==> r[i] == LogEntry(start + i, lines[start + i - 1])
  {
    var last := if end < |lines| then end else |lines|;
    if start <= last then
      seq(last - start + 1, i requires 0 <= i < last - start + 1 => LogEntry(start + i, lines[start + i - 1]))
    else []
  }

  // ----- multiples -----

  lemma MultipleOrder(a: nat, b: nat, c: nat)
    requires a <= b
    ensures a * c <= b * c
  {
  }

  lemma MultipleMod(q: nat, r: nat, c: nat)
    requires r < c
    ensures (q * c + r) % c == r
  {
    var x := q * c + r;
    assert x == c * (x / c) + x % c;
    var d := x / c;
    if d < q {
      MultipleOrder(d + 1, q, c);
    } else if d > q {
      MultipleOrder(q + 1, d, c);
    }
  }
}
