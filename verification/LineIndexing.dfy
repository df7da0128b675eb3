/** The byte-offset index of a log file: what it is, how it is built in one pass, and how it
    is saved to disk and loaded back. */
module LineIndexing {
  import opened Lines
  import opened Int64Codec

  datatype IndexValue = IndexValue(sourceSize: int, offsets: seq<int>)

  /** Offset 0 and the offset after every newline. */
  function Offsets(f: Bytes): (r: seq<int>)
    ensures |r| >= 1
  {
    if f == [] then [0]
    else Offsets(f[..|f| - 1]) + (if f[|f| - 1] == NL then [|f|] else [])
  }

  function IndexOf(f: Bytes): IndexValue {
    IndexValue(|f|, Offsets(f))
  }

  ghost predicate StrictlyIncreasing(o: seq<int>) {
    forall i, j :: 0 <= i < j < |o| ==> o[i] < o[j]
  }

  lemma {:induction false} OffsetsShape(f: Bytes)
    ensures |Offsets(f)| == |Complete(f)| + 1 && Offsets(f)[0] == 0
    ensures StrictlyIncreasing(Offsets(f))
    ensures forall i :: 0 <= i < |Offsets(f)| ==> 0 <= Offsets(f)[i] <= |f|
  {
    if f != [] {
      OffsetsShape(f[..|f| - 1]);
    }
  }

  lemma OffsetsUnfold(f: Bytes)
    requires f != []
    ensures var g, b := f[..|f| - 1], f[|f| - 1];
      && Offsets(f) == Offsets(g) + (if b == NL then [|f|] else [])
      && Complete(f) == Complete(g) + (if b == NL then [Partial(g)] else [])
      && Partial(f) == if b == NL then [] else Partial(g) + [b]
  {
  }

  lemma EmptyCut()
    ensures Offsets([]) == [0] && Complete([]) == [] && Partial([]) == []
  {
  }

  lemma SlicesStep(g: Bytes, b: byte, o: seq<int>, lines: seq<Bytes>, p: seq<int>, lines': seq<Bytes>)
    requires |o| == |lines| + 1 && o <= p && lines <= lines' && |p| == |lines'| + 1
    requires p == o + (if b == NL then [|g| + 1] else [])
    requires forall i :: 0 <= i < |o| ==> 0 <= o[i] <= |g|
    requires lines' == lines + (if b == NL then [g[o[|lines|]..]] else [])
    requires forall i :: 0 <= i < |lines| ==> o[i] <= o[i + 1] && g[o[i]..o[i + 1]] == lines[i] + [NL]
    ensures forall i {:trigger lines'[i]} :: 0 <= i < |lines'| ==>
      0 <= p[i] <= p[i + 1] <= |g| + 1 && (g + [b])[p[i]..p[i + 1]] == lines'[i] + [NL]
    ensures (g + [b])[p[|lines'|]..] == if b == NL then [] else g[o[|lines|]..] + [b]
  {
    forall i | 0 <= i < |lines|
      ensures (g + [b])[p[i]..p[i + 1]] == lines'[i] + [NL]
    {
      SliceOfSnoc(g, b, o[i], o[i + 1]);
    }
    SliceOfSnoc(g, b, o[|lines|], |g|);
  }

  /** The slices between offsets are the terminated lines; the rest is the unterminated one. */
  lemma {:induction false} OffsetsCutFile(f: Bytes)
    ensures |Offsets(f)| == |Complete(f)| + 1 && Offsets(f)[0] == 0
    ensures StrictlyIncreasing(Offsets(f))
    ensures forall i :: 0 <= i < |Offsets(f)| ==> 0 <= Offsets(f)[i] <= |f|
    ensures forall i :: 0 <= i < |Complete(f)| ==> Offsets(f)[i] <= Offsets(f)[i + 1]
    ensures forall i :: 0 <= i < |Complete(f)| ==>
      f[Offsets(f)[i]..Offsets(f)[i + 1]] == Complete(f)[i] + [NL]
    ensures f[Offsets(f)[|Complete(f)|]..] == Partial(f)
  {
    hide Offsets, Complete, Partial, StrictlyIncreasing;
    OffsetsShape(f);
    if f == [] {
      EmptyCut();
    } else {
      var g, b := f[..|f| - 1], f[|f| - 1];
      OffsetsUnfold(f);
      OffsetsShape(g);
      OffsetsCutFile(g);
      assert f == g + [b];
      SlicesStep(g, b, Offsets(g), Complete(g), Offsets(f), Complete(f));
    }
  }

  /** There is one offset more than there are newlines. */
  lemma {:induction false} OneOffsetPerNewline(f: Bytes)
    ensures |Offsets(f)| == multiset(f)[NL] + 1
    ensures |Complete(f)| == multiset(f)[NL]
  {
    if f != [] {
      var g := f[..|f| - 1];
      OneOffsetPerNewline(g);
      assert f == g + [f[|f| - 1]];
    }
  }

  /** Appending to a file leaves the offsets and the terminated lines it had. */
  lemma {:induction false} AppendKeepsIndex(f: Bytes, more: Bytes)
    ensures Offsets(f) <= Offsets(f + more)
    ensures Complete(f) <= Complete(f + more)
  {
    if more == [] {
      assert f + more == f;
    } else {
      var m, b := more[..|more| - 1], more[|more| - 1];
      AppendKeepsIndex(f, m);
      assert (f + more)[..|f + more| - 1] == f + m;
    }
  }

  lemma SliceStep(f: Bytes, o: seq<int>, lines: seq<Bytes>, s: nat, e: nat)
    requires s < e <= |lines| && |o| == |lines| + 1
    requires 0 <= o[s] <= o[e - 1] <= o[e] <= |f|
    requires f[o[e - 1]..o[e]] == lines[e - 1] + [NL] && NewlineFree(lines[e - 1])
    requires Complete(f[o[s]..o[e - 1]]) == lines[s..e - 1] && Partial(f[o[s]..o[e - 1]]) == []
    ensures Complete(f[o[s]..o[e]]) == lines[s..e] && Partial(f[o[s]..o[e]]) == []
  {
    hide Complete, Partial, NewlineFree;
    AppendLine(f[o[s]..o[e - 1]], lines[e - 1]);
    assert f[o[s]..o[e]] == f[o[s]..o[e - 1]] + (lines[e - 1] + [NL]);
    assert lines[s..e] == lines[s..e - 1] + [lines[e - 1]];
  }

  /** Cutting the file at two offsets cuts its list of lines at the same places. */
  lemma {:induction false} SliceBetweenOffsets(f: Bytes, s: nat, e: nat)
    requires s <= e <= |Complete(f)|
    ensures |Offsets(f)| == |Complete(f)| + 1 && 0 <= Offsets(f)[s] <= Offsets(f)[e] <= |f|
    ensures Complete(f[Offsets(f)[s]..Offsets(f)[e]]) == Complete(f)[s..e]
    ensures Partial(f[Offsets(f)[s]..Offsets(f)[e]]) == []
  {
    OffsetsCutFile(f);
    if s < e {
      SliceBetweenOffsets(f, s, e - 1);
      CompleteNewlineFree(f);
      SliceStep(f, Offsets(f), Complete(f), s, e);
    }
  }

  lemma SliceRest(f: Bytes, o: seq<int>, lines: seq<Bytes>, s: nat)
    requires s <= |lines| && |o| == |lines| + 1
    requires 0 <= o[s] <= o[|lines|] <= |f|
    requires f[o[|lines|]..] == Partial(f) && NewlineFree(Partial(f))
    requires Complete(f[o[s]..o[|lines|]]) == lines[s..] && Partial(f[o[s]..o[|lines|]]) == []
    ensures RawLines(f[o[s]..]) == lines[s..] + LastPiece(f)
  {
    hide RawLines, Complete, Partial;
    AppendRest(f[o[s]..o[|lines|]], f[o[|lines|]..|f|]);
    SplitSlice(f, o[s], o[|lines|], |f|);
    assert f[o[s]..|f|] == f[o[s]..] && f[o[|lines|]..|f|] == f[o[|lines|]..];
  }

  /** The lines of the file from an offset to its end. */
  lemma SliceFromOffset(f: Bytes, s: nat)
    requires s <= |Complete(f)|
    ensures |Offsets(f)| == |Complete(f)| + 1 && 0 <= Offsets(f)[s] <= |f|
    ensures RawLines(f[Offsets(f)[s]..]) == Complete(f)[s..] + LastPiece(f)
  {
    OffsetsCutFile(f);
    SliceBetweenOffsets(f, s, |Complete(f)|);
    PartialFacts(f);
    SliceRest(f, Offsets(f), Complete(f), s);
  }

  // ----- saving and loading -----

  datatype LoadResult = Loaded(index: IndexValue) | LoadFailed | LoadPanicked

  /** The contents of a whole index file. */
  function Saved(v: IndexValue): (r: Bytes)
    ensures |r| == 16 + 8 * |v.offsets|
  {
    Encode(v.sourceSize) + Encode(|v.offsets|) + EncodeAll(v.offsets)
  }

  /** What loading a file with these contents yields. A negative count panics in `make`. */
  function Load(b: Bytes): LoadResult {
    if |b| < 16 then LoadFailed
    else
      var n := Decode(b[8..16]);
      if n < 0 then LoadPanicked
      else if |b| < 16 + 8 * n then LoadFailed
      else Loaded(IndexValue(Decode(b[..8]), DecodeAll(b[16..], n)))
  }

  lemma {:induction false} DecodeAllAt(b: Bytes, n: nat, i: nat)
    requires 8 * n <= |b| && i < n
    ensures DecodeAll(b, n)[i] == Decode(b[8 * i..8 * i + 8])
  {
    hide Decode;
    if i < n - 1 {
      DecodeAllAt(b, n - 1, i);
    }
  }

  lemma WordBehind(b: Bytes, i: nat)
    requires 16 + 8 * i + 8 <= |b|
    ensures b[16..][8 * i..8 * i + 8] == b[16 + 8 * i..16 + 8 * i + 8]
  {
  }

  /** The layout of an index file: the size, the count, then the offsets, a word each. A file that
      ends early does not load, and a negative count is a panic. */
  lemma LoadMeaning(b: Bytes)
    ensures Load(b).LoadPanicked? <==> |b| >= 16 && Decode(b[8..16]) < 0
    ensures Load(b).Loaded? <==> |b| >= 16 && 0 <= Decode(b[8..16]) && 16 + 8 * Decode(b[8..16]) <= |b|
    ensures Load(b).Loaded? ==>
      && Load(b).index.sourceSize == Decode(b[..8]) && |Load(b).index.offsets| == Decode(b[8..16])
      && forall i :: 0 <= i < Decode(b[8..16]) ==> Load(b).index.offsets[i] == Decode(b[16 + 8 * i..16 + 8 * i + 8])
  {
    hide Decode;
    if |b| >= 16 && 0 <= Decode(b[8..16]) && 16 + 8 * Decode(b[8..16]) <= |b| {
      var n := Decode(b[8..16]);
      forall i | 0 <= i < n
        ensures DecodeAll(b[16..], n)[i] == Decode(b[16 + 8 * i..16 + 8 * i + 8])
      {
        WordBehind(b, i);
        DecodeAllAt(b[16..], n, i);
      }
    }
  }

  predicate Storable(v: IndexValue) {
    && FitsInt64(v.sourceSize) && |v.offsets| < TWO_63
    && forall i :: 0 <= i < |v.offsets| ==> FitsInt64(v.offsets[i])
  }

  /** The header of an index file. */
  lemma SavedHeader(v: IndexValue)
    ensures Saved(v)[..8] == Encode(v.sourceSize)
    ensures Saved(v)[8..16] == Encode(|v.offsets|)
    ensures Saved(v)[..16] == Encode(v.sourceSize) + Encode(|v.offsets|)
    ensures Saved(v)[16..] == EncodeAll(v.offsets)
  {
    hide Encode, EncodeAll;
  }

  lemma SlicesOfPrefix(b: Bytes, rest: Bytes)
    requires |b| >= 16
    ensures (b + rest)[..8] == b[..8] && (b + rest)[8..16] == b[8..16] && (b + rest)[16..] == b[16..] + rest
  {
  }

  /** Loading restores what was saved, whatever bytes follow it. */
  lemma LoadSaved(v: IndexValue, rest: Bytes)
    requires Storable(v)
    ensures Load(Saved(v) + rest) == Loaded(v)
  {
    DecodeEncode(v.sourceSize);
    DecodeEncode(|v.offsets|);
    DecodeEncodeAll(v.offsets, rest);
    SavedHeader(v);
    SlicesOfPrefix(Saved(v), rest);
    hide Saved, Encode, Decode, EncodeAll, DecodeAll;
  }

  /** A save that was cut short anywhere does not load. */
  lemma LoadTruncated(v: IndexValue, k: nat)
    requires Storable(v)
    requires k < |Saved(v)|
    ensures Load(Saved(v)[..k]) == LoadFailed
  {
    SavedHeader(v);
    DecodeEncode(|v.offsets|);
    hide Saved, Encode, Decode;
    if k >= 16 {
      assert Saved(v)[..k][8..16] == Saved(v)[8..16];
    }
  }

  /** A file whose size an int64 can hold and whose newlines it can count. */
  predicate Indexable(f: Bytes) {
    |f| + 1 < TWO_63
  }

  lemma IndexStorable(f: Bytes)
    requires Indexable(f)
    ensures Storable(IndexOf(f))
  {
    OffsetsCutFile(f);
    OneOffsetPerNewline(f);
    assert |multiset(f)| == |f|;
    assert multiset(f)[NL] <= |f| by {
      assert multiset(f)[NL := 0] <= multiset(f);
    }
  }

  datatype OpenResult = Opened(index: IndexValue) | OpenFailed | OpenPanicked

  /** What a save leaves in the index file, and whether it reports success: `room` is how many
      bytes reach the disk before a write fails, `None` when the file cannot be created. */
  function SaveOutcome(v: IndexValue, idx: Option<Bytes>, room: Option<nat>): (Option<Bytes>, bool) {
    if room.None? then (idx, false)
    else if room.value >= |Saved(v)| then (Some(Saved(v)), true)
    else (Some(Saved(v)[..room.value]), false)
  }

  /** `newLineIndex`: the index file it leaves behind and its result, from the contents of the
      log file and of the index file, each possibly missing. */
  function OpenIndex(log: Option<Bytes>, idx: Option<Bytes>, room: Option<nat>): (Option<Bytes>, OpenResult) {
    var loaded := if idx.None? then LoadFailed else Load(idx.value);
    if loaded.LoadPanicked? then (idx, OpenPanicked)
    else if log.None? then (idx, OpenFailed)
    else if loaded.Loaded? && loaded.index.sourceSize == |log.value| then (idx, Opened(loaded.index))
    else
      var (idx', ok) := SaveOutcome(IndexOf(log.value), idx, room);
      (idx', if ok then Opened(IndexOf(log.value)) else OpenFailed)
  }

  /** A new index is opened exactly when the file can be created and there is room for all of its
      words; the file is left as it was, or holds the words as far as there was room. */
  ghost predicate SavedNew(v: IndexValue, idx: Option<Bytes>, room: Option<nat>, idx': Option<Bytes>, r: OpenResult) {
    var n := 16 + 8 * |v.offsets|;
    && r == (if room.Some? && n <= room.value then Opened(v) else OpenFailed)
    && idx' == match room
       case None => idx
       case Some(k) => Some(Saved(v)[..if k < n then k else n])
  }

  /** What opening comes to: an index file that panics; a missing log; a saved index of the size of
      the log, which is used as it is; else a new index of the log, if and only if the whole of it
      can be saved. */
  lemma OpenMeaning(log: Option<Bytes>, idx: Option<Bytes>, room: Option<nat>)
    ensures var (idx', r) := OpenIndex(log, idx, room);
      && (idx.Some? && Load(idx.value).LoadPanicked? ==> r == OpenPanicked && idx' == idx)
      && (!(idx.Some? && Load(idx.value).LoadPanicked?) && log.None? ==> r == OpenFailed && idx' == idx)
      && (!(idx.Some? && Load(idx.value).LoadPanicked?) && log.Some? ==>
          if idx.Some? && Load(idx.value).Loaded? && Load(idx.value).index.sourceSize == |log.value|
          then r == Opened(Load(idx.value).index) && idx' == idx
          else SavedNew(IndexValue(|log.value|, Offsets(log.value)), idx, room, idx', r))
  {
    hide Saved, Load, Offsets;
    if log.Some? {
      var whole := Saved(IndexOf(log.value));
      assert whole[..|whole|] == whole;
    }
  }

  lemma {:induction false} EncodeAllPrefix(xs: seq<int>, i: nat)
    requires i <= |xs|
    ensures EncodeAll(xs[..i]) == EncodeAll(xs)[..8 * i]
  {
    if i < |xs| {
      var init := xs[..|xs| - 1];
      EncodeAllPrefix(init, i);
      assert init[..i] == xs[..i];
    } else {
      assert xs[..i] == xs;
    }
  }

  /** Where the i-th offset stands in the index file. */
  lemma SavedWord(v: IndexValue, i: nat)
    requires i < |v.offsets|
    ensures Saved(v)[16 + 8 * i..16 + 8 * (i + 1)] == Encode(v.offsets[i])
  {
    EncodeAllPrefix(v.offsets, i);
    EncodeAllPrefix(v.offsets, i + 1);
    assert v.offsets[..i + 1][..i] == v.offsets[..i];
    assert EncodeAll(v.offsets)[8 * i..8 * (i + 1)] == EncodeAll(v.offsets[..i + 1])[8 * i..];
    assert Saved(v)[16..] == EncodeAll(v.offsets);
  }

  /** The files the package reads and writes, by path. */
  class Disk {
    var files: map<string, Bytes>

    constructor ()
      ensures files == map[]
    {
      files := map[];
    }

    /** One write to an open file: `left` more bytes fit before the disk refuses. */
    method Append(path: string, data: Bytes, left: nat) returns (left': nat, ok: bool)
      requires path in files
      modifies this
      ensures ok == (|data| <= left)
      ensures left' == if ok then left - |data| else 0
      ensures files == old(files)[path := old(files)[path] + (if ok then data else data[..left])]
    {
      ok := |data| <= left;
      files := files[path := files[path] + (if ok then data else data[..left])];
      left' := if ok then left - |data| else 0;
    }
  }

  /** `bufio.Reader.ReadBytes('\n')` at a position of the file. */
  method ReadBytes(src: Bytes, pos: nat) returns (line: Bytes, found: bool)
    requires pos <= |src|
    ensures found ==> line != [] && pos + |line| <= |src| && line == src[pos..pos + |line|]
    ensures found ==> line[|line| - 1] == 10 && forall k :: 0 <= k < |line| - 1 ==> line[k] != 10
    ensures found ==> NewlineFree(line[..|line| - 1])
    ensures !found ==> line == src[pos..] && NewlineFree(line)
  {
    line := [];
    while pos + |line| < |src|
      invariant pos + |line| <= |src| && line == src[pos..pos + |line|]
      invariant NewlineFree(line)
    {
      var b := src[pos + |line|];
      line := line + [b];
      if b == NL {
        return line, true;
      }
    }
    return line, false;
  }

  /** `binary.Read` of one int64 at a position of the file. */
  method ReadWord(src: Bytes, pos: nat) returns (value: int, ok: bool)
    ensures ok == (pos + 8 <= |src|)
    ensures ok ==> value == Decode(src[pos..pos + 8])
  {
    if pos + 8 <= |src| {
      return Decode(src[pos..pos + 8]), true;
    }
    return 0, false;
  }

  function Zeros(n: nat): (r: seq<int>)
    ensures |r| == n
  {
    seq(n, _ => 0)
  }

  /** The offsets when the first k of n have been read. */
  function Decoded(b: Bytes, n: nat, k: nat): (r: seq<int>)
    requires k <= n && 16 + 8 * k <= |b|
    ensures |r| == n
  {
    DecodeAll(b[16..], k) + Zeros(n - k)
  }

  lemma DecodedStep(b: Bytes, n: nat, k: nat, word: int)
    requires k < n && 16 + 8 * (k + 1) <= |b| && word == Decode(b[16 + 8 * k..16 + 8 * k + 8])
    ensures Decoded(b, n, k + 1) == Decoded(b, n, k)[k := word]
  {
    assert b[16..][8 * k..8 * (k + 1)] == b[16 + 8 * k..16 + 8 * k + 8];
    hide Decode;
  }

  lemma DecodedEnds(b: Bytes, n: nat)
    requires 16 <= |b|
    ensures Decoded(b, n, 0) == Zeros(n)
    ensures 16 + 8 * n <= |b| ==> Decoded(b, n, n) == DecodeAll(b[16..], n)
  {
    hide Decode;
  }

  /** The fields after an attempt to load an index file with these contents. */
  function AfterLoad(v: IndexValue, b: Bytes): IndexValue {
    if |b| < 8 then v
    else if |b| < 16 || Decode(b[8..16]) < 0 then v.(sourceSize := Decode(b[..8]))
    else
      var n := Decode(b[8..16]);
      IndexValue(Decode(b[..8]), Decoded(b, n, if |b| < 16 + 8 * n then (|b| - 16) / 8 else n))
  }

  lemma {:induction false} OffsetsNewlineFree(f: Bytes, g: Bytes)
    requires NewlineFree(g)
    ensures Offsets(f + g) == Offsets(f)
  {
    if g == [] {
      assert f + g == f;
    } else {
      OffsetsNewlineFree(f, g[..|g| - 1]);
      assert (f + g)[..|f + g| - 1] == f + g[..|g| - 1];
    }
  }

  lemma LineSplits(f: Bytes, pos: nat, line: Bytes)
    requires pos + |line| <= |f| && line == f[pos..pos + |line|] && line != []
    ensures f[..pos + |line|][..pos + |line| - 1] == f[..pos] + line[..|line| - 1]
    ensures f[..pos + |line|][pos + |line| - 1] == line[|line| - 1]
  {
  }

  lemma OffsetsStep(f: Bytes, pos: nat, line: Bytes)
    requires pos + |line| <= |f| && line == f[pos..pos + |line|]
    requires line != [] && line[|line| - 1] == NL && NewlineFree(line[..|line| - 1])
    ensures Offsets(f[..pos + |line|]) == Offsets(f[..pos]) + [pos + |line|]
  {
    OffsetsNewlineFree(f[..pos], line[..|line| - 1]);
    LineSplits(f, pos, line);
  }

  function Lookup<V>(m: map<string, V>, k: string): Option<V> {
    if k in m then Some(m[k]) else None
  }

  /** Only the file at the path may differ, and it is now `file`. */
  ghost predicate Updated(before: map<string, Bytes>, after: map<string, Bytes>, path: string, file: Option<Bytes>) {
    Lookup(after, path) == file && forall p :: p != path ==> Lookup(after, p) == Lookup(before, p)
  }

  /** The effect of a save on the files, in terms of what it leaves in the index file. */
  ghost predicate SaveEffect(v: IndexValue, before: map<string, Bytes>, after: map<string, Bytes>,
                             path: string, room: Option<nat>, ok: bool) {
    var (file, success) := SaveOutcome(v, Lookup(before, path), room);
    ok == success && Updated(before, after, path, file)
  }

  class LineIndex {
    var offsets: seq<int>
    var sourceSize: int
    const indexPath: string

    function Value(): IndexValue
      reads this
    {
      IndexValue(sourceSize, offsets)
    }

    constructor (indexPath: string)
      ensures this.indexPath == indexPath
    {
      this.indexPath := indexPath;
      offsets, sourceSize := [], 0;
    }

    /** The two words before the offsets. */
    method SaveHeader(disk: Disk, room: nat) returns (left: nat, ok: bool)
      requires indexPath in disk.files && disk.files[indexPath] == []
      modifies disk
      ensures ok == (16 <= room) && (ok ==> left == room - 16)
      ensures disk.files == old(disk.files)[indexPath := Saved(Value())[..if ok then 16 else room]]
    {
      SavedHeader(Value());
      ghost var whole := Saved(Value());
      hide Saved, Encode;
      left, ok := disk.Append(indexPath, Encode(sourceSize), room);
      assert disk.files[indexPath] == whole[..if ok then 8 else room];
      if !ok {
        return;
      }
      left, ok := disk.Append(indexPath, Encode(|offsets|), left);
      assert disk.files[indexPath] == whole[..if ok then 16 else room];
    }

    /** The loop of `save`: one word an offset. */
    method SaveOffsets(disk: Disk, room: nat) returns (ok: bool)
      requires indexPath in disk.files && disk.files[indexPath] == Saved(Value())[..16]
      modifies disk
      ensures ok == (8 * |offsets| <= room)
      ensures disk.files == old(disk.files)[indexPath := Saved(Value())[..16 + if ok then 8 * |offsets| else room]]
    {
      var left := room;
      for i := 0 to |offsets|
        invariant left == room - 8 * i
        invariant disk.files == old(disk.files)[indexPath := Saved(Value())[..16 + 8 * i]]
      {
        SavedWord(Value(), i);
        left, ok := disk.Append(indexPath, Encode(offsets[i]), left);
        if !ok {
          assert disk.files[indexPath] == Saved(Value())[..16 + room];
          return;
        }
        assert disk.files[indexPath] == Saved(Value())[..16 + 8 * (i + 1)];
      }
      ok := true;
    }

    /** Writes the index file word by word. */
    method Save(disk: Disk, room: Option<nat>) returns (ok: bool)
      modifies disk
      ensures SaveEffect(Value(), old(disk.files), disk.files, indexPath, room, ok)
      ensures ok == (room.Some? && 16 + 8 * |offsets| <= room.value)
      ensures room.None? ==> disk.files == old(disk.files)
      ensures room.Some? ==> disk.files == old(disk.files)[indexPath :=
        Saved(Value())[..if ok then 16 + 8 * |offsets| else room.value]]
    {
      if room.None? {
        return false;
      }
      hide Saved;
      disk.files := disk.files[indexPath := []];
      var left;
      left, ok := SaveHeader(disk, room.value);
      if !ok {
        return;
      }
      ok := SaveOffsets(disk, left);
      assert Saved(Value())[..|Saved(Value())|] == Saved(Value());
    }

    /** One pass over the log file, then a save. */
    method Build(disk: Disk, logPath: string, room: Option<nat>) returns (ok: bool)
      requires logPath != indexPath
      modifies this, disk
      ensures logPath !in old(disk.files) ==> !ok && disk.files == old(disk.files) && Value() == old(Value())
      ensures logPath in old(disk.files) ==>
        && Value() == IndexOf(old(disk.files)[logPath])
        && SaveEffect(Value(), old(disk.files), disk.files, indexPath, room, ok)
    {
      if logPath !in disk.files {
        return false;
      }
      var file := disk.files[logPath];
      sourceSize := |file|;
      var offset := 0;
      offsets := [0];
      while true
        invariant 0 <= offset <= |file|
        invariant sourceSize == |file| && offsets == Offsets(file[..offset])
        invariant disk.files == old(disk.files)
        decreases |file| - offset
      {
        var line, found := ReadBytes(file, offset);
        if !found {
          OffsetsNewlineFree(file[..offset], line);
          assert file == file[..offset] + line;
          break;
        }
        OffsetsStep(file, offset, line);
        offset := offset + |line|;
        offsets := offsets + [offset];
      }
      ok := Save(disk, room);
    }

    /** The loop of `load`: one word an offset, until the file ends. */
    method ReadOffsets(file: Bytes, n: nat) returns (k: nat)
      requires 16 <= |file|
      modifies this`offsets
      ensures k <= n && 16 + 8 * k <= |file| && (k < n ==> |file| < 16 + 8 * (k + 1))
      ensures offsets == Decoded(file, n, k)
    {
      offsets := Zeros(n);
      DecodedEnds(file, n);
      hide Decode, Decoded, Zeros;
      k := 0;
      while k < n
        invariant k <= n && 16 + 8 * k <= |file| && offsets == Decoded(file, n, k)
      {
        var word, ok := ReadWord(file, 16 + 8 * k);
        if !ok {
          return;
        }
        DecodedStep(file, n, k, word);
        offsets := offsets[k := word];
        k := k + 1;
      }
    }

    /** Reads the index file word by word; after a failure the fields hold what was read. */
    method LoadFrom(disk: Disk) returns (r: LoadResult)
      modifies this
      ensures r == if indexPath in disk.files then Load(disk.files[indexPath]) else LoadFailed
      ensures r.Loaded? ==> Value() == r.index
      ensures Value() == if indexPath in disk.files then AfterLoad(old(Value()), disk.files[indexPath]) else old(Value())
      ensures sourceSize == if indexPath in disk.files && |disk.files[indexPath]| >= 8
        then Decode(disk.files[indexPath][..8]) else old(sourceSize)
      ensures (indexPath !in disk.files || |disk.files[indexPath]| < 16 || r.LoadPanicked?) ==> offsets == old(offsets)
    {
      hide Decode, DecodeAll, Decoded;
      if indexPath !in disk.files {
        return LoadFailed;
      }
      var file := disk.files[indexPath];
      var word, ok := ReadWord(file, 0);
      if !ok {
        return LoadFailed;
      }
      sourceSize := word;
      word, ok := ReadWord(file, 8);
      if !ok {
        return LoadFailed;
      }
      var n := word;
      if n < 0 {
        return LoadPanicked;
      }
      var k := ReadOffsets(file, n);
      if k < n {
        return LoadFailed;
      }
      DecodedEnds(file, n);
      return Loaded(Value());
    }

    /** Line numbers are 1-based. */
    method GetOffset(lineNum: int) returns (r: Result<int>)
      ensures r == if 1 <= lineNum <= |offsets| then Ok(offsets[lineNum - 1]) else Err
    {
      if lineNum < 1 || lineNum > |offsets| {
        return Err;
      }
      return Ok(offsets[lineNum - 1]);
    }

    method GetLineCount() returns (n: nat)
      ensures n == |offsets|
    {
      n := |offsets|;
    }
  }

  /** Loads the saved index when the log still has the size it was made for, else builds it. */
  method NewLineIndex(disk: Disk, logPath: string, room: Option<nat>) returns (index: LineIndex?, panicked: bool)
    modifies disk
    ensures var (idx, r) := OpenIndex(Lookup(old(disk.files), logPath), Lookup(old(disk.files), logPath + ".idx"), room);
      && Updated(old(disk.files), disk.files, logPath + ".idx", idx)
      && panicked == r.OpenPanicked?
      && (index != null) == r.Opened?
      && (index != null ==> fresh(index) && index.Value() == r.index && index.indexPath == logPath + ".idx")
  {
    var idx := new LineIndex(logPath + ".idx");
    assert |logPath + ".idx"| != |logPath|;
    var loaded := idx.LoadFrom(disk);
    if loaded.LoadPanicked? {
      return null, true;
    }
    if loaded.Loaded? && logPath in disk.files && |disk.files[logPath]| == idx.sourceSize {
      return idx, false;
    }
    var ok := idx.Build(disk, logPath, room);
    if !ok {
      return null, false;
    }
    return idx, false;
  }
}
