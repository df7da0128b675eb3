/** A log file that only grows, its index file, and the index the service has cached, over any
    sequence of appends, restarts and index openings whose saves may be cut short. */
module IndexRuns {
  import opened Lines
  import opened LineIndexing
  import opened LogReader

  datatype World = World(log: Bytes, idx: Option<Bytes>, cache: Option<IndexValue>)

  datatype Step =
    | Append(more: Bytes)
    | Restart                       // the process ends: the cache is lost
    | Open(room: Option<nat>)       // `getOrCreateIndex`; `room` bytes of a save reach the disk

  function Fresh(log: Bytes): World {
    World(log, None, None)
  }

  function Do(w: World, step: Step): World {
    match step
    case Append(more) => w.(log := w.log + more)
    case Restart => w.(cache := None)
    case Open(room) =>
      if w.cache.Some? then w
      else
        var (idx, r) := OpenIndex(Some(w.log), w.idx, room);
        World(w.log, idx, if r.Opened? then Some(r.index) else None)
  }

  /** The log, its index file and the cached index, as a service finds them. */
  ghost function WorldOf(service: LogService, disk: Disk, path: string): World
    requires path in disk.files
    reads service, disk, service.indexCache.Values
  {
    World(disk.files[path], Lookup(disk.files, path + ".idx"),
          if path in service.indexCache then Some(service.indexCache[path].Value()) else None)
  }

  /** Getting an index is the step `Open`: it reads the log, may write the index file, and fills the
      cache; the log stays as it is. */
  method OpenStep(service: LogService, disk: Disk, path: string, room: Option<nat>) returns (index: LineIndex?)
    requires path in disk.files
    modifies service, disk
    ensures path in disk.files && disk.files[path] == old(disk.files)[path]
    ensures WorldOf(service, disk, path) == Do(old(WorldOf(service, disk, path)), Open(room))
    ensures index == if path in service.indexCache then service.indexCache[path] else null
  {
    hide OpenIndex;
    assert path + ".idx" != path by { assert |path + ".idx"| != |path|; }
    var panicked;
    index, panicked := service.GetOrCreateIndex(disk, path, room);
    assert Lookup(disk.files, path) == Lookup(old(disk.files), path);
  }

  /** A new service after the end of the old one is the step `Restart`, whatever was cached. */
  method RestartStep(disk: Disk, path: string, ghost cache: Option<IndexValue>) returns (service: LogService)
    requires path in disk.files
    ensures WorldOf(service, disk, path) == Do(World(disk.files[path], Lookup(disk.files, path + ".idx"), cache), Restart)
  {
    service := new LogService();
  }

  function Run(w: World, steps: seq<Step>): World {
    if steps == [] then w else Do(Run(w, steps[..|steps| - 1]), steps[|steps| - 1])
  }

  /** The bytes are the index of an earlier version of the log, possibly cut short. */
  ghost predicate CutSave(log: Bytes, b: Bytes) {
    exists n, k :: 0 <= n <= |log| && 0 <= k <= |Saved(IndexOf(log[..n]))|
      && b == Saved(IndexOf(log[..n]))[..k]
  }

  ghost predicate OldIndex(log: Bytes, v: IndexValue) {
    exists n :: 0 <= n <= |log| && v == IndexOf(log[..n])
  }

  ghost predicate Inv(w: World) {
    && (w.idx.Some? ==> CutSave(w.log, w.idx.value))
    && (w.cache.Some? ==> OldIndex(w.log, w.cache.value))
  }

  /** Loading such a file fails or yields the whole index of an earlier version. */
  lemma LoadCutSave(log: Bytes, b: Bytes)
    requires CutSave(log, b) && Indexable(log)
    ensures Load(b) == LoadFailed || (Load(b).Loaded? && OldIndex(log, Load(b).index))
  {
    var n, k :| 0 <= n <= |log| && 0 <= k <= |Saved(IndexOf(log[..n]))| && b == Saved(IndexOf(log[..n]))[..k];
    var v := IndexOf(log[..n]);
    IndexStorable(log[..n]);
    hide Saved, Load, Offsets;
    if k < |Saved(v)| {
      LoadTruncated(v, k);
    } else {
      LoadSaved(v, []);
      assert b == Saved(v) + [];
    }
  }

  lemma SavesAreCutSaves(log: Bytes, k: nat)
    requires k <= |Saved(IndexOf(log))|
    ensures CutSave(log, Saved(IndexOf(log))[..k])
    ensures CutSave(log, Saved(IndexOf(log)))
  {
    hide Saved, Offsets;
    var whole := Saved(IndexOf(log));
    assert log[..|log|] == log && whole[..|whole|] == whole;
  }

  /** Opening the index never panics, and when it succeeds it yields the index of the current
      contents; it succeeds whenever the disk takes the whole save. */
  lemma OpenIsCurrent(w: World, room: Option<nat>)
    requires Inv(w) && Indexable(w.log)
    ensures var (idx, r) := OpenIndex(Some(w.log), w.idx, room);
      && !r.OpenPanicked?
      && (r.Opened? ==> r.index == IndexOf(w.log))
      && (room.Some? && room.value >= |Saved(IndexOf(w.log))| ==> r.Opened?)
      && (idx.Some? ==> CutSave(w.log, idx.value))
  {
    hide Saved, Load, Offsets;
    assert w.log[..|w.log|] == w.log;
    if w.idx.Some? {
      LoadCutSave(w.log, w.idx.value);
    }
    var whole := Saved(IndexOf(w.log));
    SavesAreCutSaves(w.log, if room.Some? && room.value < |whole| then room.value else 0);
  }

  lemma AppendKeepsInv(w: World, more: Bytes)
    requires Inv(w)
    ensures Inv(w.(log := w.log + more))
  {
    var log := w.log + more;
    if w.idx.Some? {
      var n, k :| 0 <= n <= |w.log| && 0 <= k <= |Saved(IndexOf(w.log[..n]))|
        && w.idx.value == Saved(IndexOf(w.log[..n]))[..k];
      assert log[..n] == w.log[..n];
    }
    if w.cache.Some? {
      var n :| 0 <= n <= |w.log| && w.cache.value == IndexOf(w.log[..n]);
      assert log[..n] == w.log[..n];
    }
  }

  lemma StepKeepsInv(w: World, step: Step)
    requires Inv(w) && Indexable(w.log)
    ensures Inv(Do(w, step))
  {
    match step
    case Append(more) => AppendKeepsInv(w, more);
    case Restart =>
    case Open(room) =>
      OpenIsCurrent(w, room);
      assert w.log[..|w.log|] == w.log;
  }

  /** Over every run, the index file is a possibly truncated save of an earlier version of the
      log and the cached index is the whole index of an earlier version. */
  lemma {:induction false} RunKeepsInv(log: Bytes, steps: seq<Step>)
    requires Indexable(Run(Fresh(log), steps).log)
    ensures Inv(Run(Fresh(log), steps))
  {
    if steps != [] {
      RunKeepsInv(log, steps[..|steps| - 1]);
      StepKeepsInv(Run(Fresh(log), steps[..|steps| - 1]), steps[|steps| - 1]);
    }
  }

  /** After any run, a service with no cached index that opens one gets the index of the
      current file, whatever saves were cut short before. */
  lemma NewIndexOverRuns(log: Bytes, steps: seq<Step>, room: Option<nat>)
    requires Indexable(Run(Fresh(log), steps).log)
    ensures var w := Run(Fresh(log), steps);
      var r := OpenIndex(Some(w.log), w.idx, room).1;
      !r.OpenPanicked? && (r.Opened? ==> r.index == IndexOf(w.log))
  {
    RunKeepsInv(log, steps);
    OpenIsCurrent(Run(Fresh(log), steps), room);
  }

  /** After any run, with the cached index or a new one, every mapped read that ends before the
      index does and succeeds returns the lines of the current file; a mapped read fails only
      off a page boundary there. With a new index this holds up to the end of the file. */
  lemma RangeReadOverRuns(log: Bytes, steps: seq<Step>, s: int, e: int, page: nat, room: Option<nat>)
    requires Indexable(Run(Fresh(log), steps).log)
    requires page >= 1 && 1 <= s <= e
    ensures var w := Run(Fresh(log), steps);
      var r := if w.cache.Some? then Opened(w.cache.value) else OpenIndex(Some(w.log), w.idx, room).1;
      r.Opened? ==>
        && ((e < |r.index.offsets| || (w.cache.None? && e == |r.index.offsets| && s <= |RawLines(w.log)|)) ==>
            ReadMapped(r.index, w.log, s, e, page) ==
              if r.index.offsets[s - 1] % page == 0 then Entries(Range(RawLines(w.log), s, e)) else ReadFailed(Failed))
        && (e > |r.index.offsets| ==> ReadMapped(r.index, w.log, s, e, page) == ReadFailed(Failed))
  {
    RunKeepsInv(log, steps);
    var w := Run(Fresh(log), steps);
    OpenIsCurrent(w, room);
    var n := |w.log|;
    assert w.log[..n] == w.log;
    if w.cache.Some? {
      n :| 0 <= n <= |w.log| && w.cache.value == IndexOf(w.log[..n]);
    }
    var f, more := w.log[..n], w.log[n..];
    hide RawLines, Offsets, Run, Range, OpenIndex;
    assert f + more == w.log;
    MappedReadsOldFile(f, more, s, e, page);
    LastOffset(f);
    if e <= |Offsets(f)| {
      OldRangeStillRight(f, more, s, e);
    }
  }

  // ----- what the size check cannot see -----

  lemma {:induction false} OffsetAfterNewline(f: Bytes, i: nat)
    requires i < |f|
    ensures i + 1 in Offsets(f) <==> f[i] == NL
  {
    var g := f[..|f| - 1];
    OffsetsCutFile(g);
    if i < |g| {
      OffsetAfterNewline(g, i);
    }
  }

  lemma {:induction false} SameNewlinesSameOffsets(f: Bytes, g: Bytes)
    requires |f| == |g| && forall i :: 0 <= i < |f| ==> (f[i] == NL <==> g[i] == NL)
    ensures Offsets(f) == Offsets(g)
  {
    if f != [] {
      SameNewlinesSameOffsets(f[..|f| - 1], g[..|g| - 1]);
    }
  }

  /** A log replaced by another of the same size keeps the index of the old one; that index is
      right exactly when the newlines stand at the same places. */
  lemma ReplacedBySameSize(f: Bytes, g: Bytes, room: Option<nat>)
    requires |f| == |g| && Indexable(g)
    ensures OpenIndex(Some(f), Some(Saved(IndexOf(g))), room).1 == Opened(IndexOf(g))
    ensures IndexOf(g) == IndexOf(f) <==> forall i :: 0 <= i < |f| ==> (f[i] == NL <==> g[i] == NL)
  {
    IndexStorable(g);
    LoadSaved(IndexOf(g), []);
    assert Saved(IndexOf(g)) + [] == Saved(IndexOf(g));
    if forall i :: 0 <= i < |f| ==> (f[i] == NL <==> g[i] == NL) {
      SameNewlinesSameOffsets(f, g);
    }
    if Offsets(f) == Offsets(g) {
      forall i | 0 <= i < |f|
        ensures f[i] == NL <==> g[i] == NL
      {
        OffsetAfterNewline(f, i);
        OffsetAfterNewline(g, i);
      }
    }
  }
}
