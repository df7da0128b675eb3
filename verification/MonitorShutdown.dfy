/** Stopping the monitoring service: once stop is signalled, the workers need a bounded number of
    steps to exit, as long as they begin no further pass. */
module MonitorShutdown {
  import opened MonitorNode
  import opened MonitorRuns
  import opened MonitorInvariant
  import opened MonitorTheorems
  import opened MonitorResults

  ghost predicate AllExited(s: State) {
    forall w :: 0 <= w < |s.pcs| ==> s.pcs[w].Exited?
  }

  /** A step of a worker other than one that begins a pass. */
  predicate IsWindDown(a: Action) {
    || a.Snapshot? || a.Acquire? || a.Probe? || a.Record? || a.Store? || a.Notify? || a.Release?
    || a.EndPass? || a.Exit?
  }

  /** How many more steps a worker can take before it has exited, when there are so many objects:
      at most six for each node of its pass, one to end the pass, and one to exit. */
  function Weight(pc: PC, objects: nat): nat {
    match pc
    case Exited => 0
    case Idle => 1
    case Clocked(_) => 6 * objects + 3
    case _ => 6 * |pc.job.rest| + Phase(pc) + 2
  }

  function Weights(pcs: seq<PC>, objects: nat): nat {
    if pcs == [] then 0 else Weights(pcs[..|pcs| - 1], objects) + Weight(pcs[|pcs| - 1], objects)
  }

  lemma {:induction false} WeightReplaced(pcs: seq<PC>, w: nat, pc: PC, objects: nat)
    requires w < |pcs|
    ensures Weights(pcs[w := pc], objects) + Weight(pcs[w], objects) == Weights(pcs, objects) + Weight(pc, objects)
  {
    hide Weight;
    var last := |pcs| - 1;
    if w < last {
      WeightReplaced(pcs[..last], w, pc, objects);
      assert pcs[w := pc][..last] == pcs[..last][w := pc];
    } else {
      assert pcs[w := pc][..last] == pcs[..last];
    }
  }

  function Measure(s: State): nat {
    Weights(s.pcs, |s.objs.Keys|)
  }

  // ----- every step counts -----

  /** The worker moves to a place from which it has fewer steps to go; nothing else counts. */
  ghost predicate Lighter(s: State, w: nat, t: State)
    requires w < |s.pcs|
  {
    && |t.pcs| == |s.pcs| && t.pcs == s.pcs[w := t.pcs[w]] && t.objs.Keys == s.objs.Keys && t.stopped == s.stopped
    && Weight(t.pcs[w], |s.objs.Keys|) < Weight(s.pcs[w], |s.objs.Keys|)
  }

  lemma LighterMeasure(s: State, w: nat, t: State)
    requires w < |s.pcs| && Lighter(s, w, t)
    ensures Measure(t) < Measure(s)
  {
    hide Weight;
    WeightReplaced(s.pcs, w, t.pcs[w], |s.objs.Keys|);
  }

  lemma {:induction false} NoMoreThanKeys(list: seq<Ref>, keys: set<Ref>)
    requires NoDups(list) && forall r :: r in list ==> r in keys
    ensures |list| <= |keys|
  {
    if list != [] {
      var init, last := list[..|list| - 1], list[|list| - 1];
      assert forall r :: r in init ==> r in keys - {last};
      NoMoreThanKeys(init, keys - {last});
    }
  }

  lemma SnapshotLighter(s: State, w: nat, list: seq<Ref>)
    requires Enabled(s, Snapshot(w, list))
    ensures Lighter(s, w, Apply(s, Snapshot(w, list)))
  {
    NoMoreThanKeys(list, s.objs.Keys);
    hide IsSnapshot;
  }

  lemma TakenLighter(s: State, w: nat)
    requires w < |s.pcs| && s.pcs[w].Looping? && s.pcs[w].job.rest != [] && s.pcs[w].job.rest[0] in s.objs
    ensures Lighter(s, w, Taken(s, w, s.pcs[w].job))
  {
  }

  lemma AcquireLighter(s: State, w: nat)
    requires Enabled(s, Acquire(w))
    ensures Lighter(s, w, Apply(s, Acquire(w)))
  {
    AcquireIsTaken(s, w);
    hide Apply, Lighter, Taken, IsSnapshot;
    TakenLighter(s, w);
  }

  lemma ProbeLighter(s: State, w: nat, response: Response)
    requires Enabled(s, Probe(w, response))
    ensures Lighter(s, w, Apply(s, Probe(w, response)))
  {
    hide IsSnapshot, Classify;
  }

  lemma RecordLighter(s: State, w: nat)
    requires Enabled(s, Record(w))
    ensures Lighter(s, w, Apply(s, Record(w)))
  {
    hide IsSnapshot, Observe;
  }

  lemma StoreLighter(s: State, w: nat)
    requires Enabled(s, Store(w))
    ensures Lighter(s, w, Apply(s, Store(w)))
  {
    hide IsSnapshot;
  }

  lemma NotifyLighter(s: State, w: nat)
    requires Enabled(s, Notify(w))
    ensures Lighter(s, w, Apply(s, Notify(w)))
  {
    hide IsSnapshot, Decide;
  }

  lemma ReleaseLighter(s: State, w: nat)
    requires Enabled(s, Release(w))
    ensures Lighter(s, w, Apply(s, Release(w)))
  {
    hide IsSnapshot;
  }

  lemma EndPassLighter(s: State, w: nat)
    requires Enabled(s, EndPass(w))
    ensures Lighter(s, w, Apply(s, EndPass(w)))
  {
    hide IsSnapshot;
  }

  lemma ExitLighter(s: State, w: nat)
    requires Enabled(s, Exit(w))
    ensures Lighter(s, w, Apply(s, Exit(w)))
  {
    hide IsSnapshot;
  }

  lemma WindDownDecreases(s: State, a: Action)
    requires Enabled(s, a) && IsWindDown(a)
    ensures Measure(Apply(s, a)) < Measure(s) && Apply(s, a).stopped == s.stopped
  {
    hide Apply, Weight, Measure, IsSnapshot;
    match a
    case Snapshot(w, list) => SnapshotLighter(s, w, list); LighterMeasure(s, w, Apply(s, a));
    case Acquire(w) => AcquireLighter(s, w); LighterMeasure(s, w, Apply(s, a));
    case Probe(w, response) => ProbeLighter(s, w, response); LighterMeasure(s, w, Apply(s, a));
    case Record(w) => RecordLighter(s, w); LighterMeasure(s, w, Apply(s, a));
    case Store(w) => StoreLighter(s, w); LighterMeasure(s, w, Apply(s, a));
    case Notify(w) => NotifyLighter(s, w); LighterMeasure(s, w, Apply(s, a));
    case Release(w) => ReleaseLighter(s, w); LighterMeasure(s, w, Apply(s, a));
    case EndPass(w) => EndPassLighter(s, w); LighterMeasure(s, w, Apply(s, a));
    case Exit(w) => ExitLighter(s, w); LighterMeasure(s, w, Apply(s, a));
  }

  // ----- some step is always possible -----

  lemma {:induction false} ListOf(rs: set<Ref>) returns (list: seq<Ref>)
    ensures NoDups(list) && forall r :: r in list <==> r in rs
    decreases |rs|
  {
    if rs == {} {
      return [];
    }
    var r :| r in rs;
    list := ListOf(rs - {r});
    list := list + [r];
  }

  /** A snapshot can always be taken. */
  lemma SnapshotExists(s: State, now: int) returns (list: seq<Ref>)
    ensures IsSnapshot(s, now, list)
  {
    list := ListOf(set r | r in s.objs && IsRegistered(s, r) && now - s.objs[r].lastChecked >= s.objs[r].interval);
  }

  lemma RestingCanMove(s: State, w: nat) returns (a: Action)
    requires s.stopped && w < |s.pcs| && (s.pcs[w].Idle? || s.pcs[w].Clocked?)
    ensures Enabled(s, a) && IsWindDown(a)
  {
    hide IsSnapshot;
    if s.pcs[w].Idle? {
      a := Exit(w);
    } else {
      var list := SnapshotExists(s, s.pcs[w].now);
      a := Snapshot(w, list);
    }
  }

  lemma LoopingCanMove(s: State, w: nat) returns (a: Action)
    requires w < |s.pcs| && s.pcs[w].Looping? && Knows(s.pcs[w], s.objs)
    ensures Enabled(s, a) && IsWindDown(a)
  {
    hide IsSnapshot;
    if s.pcs[w].job.rest == [] {
      a := EndPass(w);
    } else {
      assert s.pcs[w].job.rest[0] in Pending(s.pcs[w]);
      a := Acquire(w);
    }
  }

  /** After the stop, a worker that has not exited can take a step without beginning a pass. */
  lemma WorkerCanMove(s: State, w: nat) returns (a: Action)
    requires Inv(s) && s.stopped && w < |s.pcs| && !s.pcs[w].Exited?
    ensures Enabled(s, a) && IsWindDown(a)
  {
    AllWorkersKnow(s.pcs, s.clock, s.objs, s.hist);
    assert Knows(s.pcs[w], s.objs);
    hide Inv, Enabled, Apply, Knows, MovedOn;
    if InFlight(s.pcs[w]) {
      a := NextStep(w, s.pcs[w]);
      MovesOn(s, w, 0);
    } else if s.pcs[w].Looping? {
      a := LoopingCanMove(s, w);
    } else {
      a := RestingCanMove(s, w);
    }
  }

  // ----- shutdown -----

  /** A run of steps of workers that begin no pass. */
  ghost predicate WindsDown(s: State, actions: seq<Action>, t: State) {
    Runs(s, actions, t) && forall i :: 0 <= i < |actions| ==> IsWindDown(actions[i])
  }

  lemma {:induction false} WindDownBounded(s: State, actions: seq<Action>, t: State)
    requires Inv(s) && WindsDown(s, actions, t)
    ensures |actions| + Measure(t) <= Measure(s) && Inv(t) && t.stopped == s.stopped
    decreases |actions|
  {
    hide Inv, Measure, Apply, Enabled, IsWindDown;
    if actions != [] {
      StepKeepsInv(s, actions[0]);
      WindDownDecreases(s, actions[0]);
      WindDownBounded(Apply(s, actions[0]), actions[1..], t);
    }
  }

  lemma WindsDownFrom(s: State, a: Action, rest: seq<Action>, t: State)
    requires Enabled(s, a) && IsWindDown(a) && WindsDown(Apply(s, a), rest, t)
    ensures WindsDown(s, [a] + rest, t)
  {
    hide Enabled, Apply, IsWindDown;
    assert ([a] + rest)[1..] == rest;
  }

  lemma {:induction false} WindDown(s: State) returns (actions: seq<Action>, t: State)
    requires Inv(s) && s.stopped
    ensures WindsDown(s, actions, t) && AllExited(t)
    decreases Measure(s)
  {
    hide Inv, Measure, Apply, Enabled, IsWindDown;
    if AllExited(s) {
      return [], s;
    }
    var w: nat :| w < |s.pcs| && !s.pcs[w].Exited?;
    var a := WorkerCanMove(s, w);
    StepKeepsInv(s, a);
    WindDownDecreases(s, a);
    actions, t := WindDown(Apply(s, a));
    WindsDownFrom(s, a, actions, t);
    actions := [a] + actions;
  }

  lemma NoneLeft(t: State, a: Action)
    requires AllExited(t) && IsWindDown(a)
    ensures !Enabled(t, a)
  {
    hide IsSnapshot;
  }

  /** In every state that the service can reach once stop is signalled: some schedule of the
      workers ends with all of them exited; and every schedule in which none begins a further pass
      is no longer than the measure, and can be continued unless all have exited. */
  lemma StopTerminates(config: Config, clock: int, workers: nat, before: seq<Action>, s: State)
    requires Runs(Init(config, clock, workers), before, s) && s.stopped
    ensures exists actions, t :: WindsDown(s, actions, t) && AllExited(t)
    ensures forall actions, t :: WindsDown(s, actions, t) ==>
      && |actions| <= Measure(s)
      && ((forall a :: IsWindDown(a) ==> !Enabled(t, a)) <==> AllExited(t))
  {
    InitInv(config, clock, workers);
    RunKeepsInv(Init(config, clock, workers), before, s);
    var run, end := WindDown(s);
    hide Inv, Measure, Enabled, IsWindDown, WindsDown;
    forall actions, t | WindsDown(s, actions, t)
      ensures |actions| <= Measure(s)
      ensures (forall a :: IsWindDown(a) ==> !Enabled(t, a)) <==> AllExited(t)
    {
      WindDownBounded(s, actions, t);
      if AllExited(t) {
        forall a | IsWindDown(a)
          ensures !Enabled(t, a)
        {
          NoneLeft(t, a);
        }
      } else {
        var w: nat :| w < |t.pcs| && !t.pcs[w].Exited?;
        var a := WorkerCanMove(t, w);
      }
    }
  }

  lemma SameSnapshot(s: State, t: State, list: seq<Ref>)
    requires t.objs == s.objs && t.nodes == s.nodes && IsSnapshot(s, s.clock, list)
    ensures IsSnapshot(t, s.clock, list)
  {
    forall r | r in s.objs
      ensures IsRegistered(t, r) == IsRegistered(s, r)
    {
    }
  }

  ghost predicate NobodyLeftEarly(s: State) {
    s.stopped || forall w :: 0 <= w < |s.pcs| ==> !s.pcs[w].Exited?
  }

  lemma StepNobodyLeft(s: State, a: Action)
    requires NobodyLeftEarly(s) && Enabled(s, a)
    ensures NobodyLeftEarly(Apply(s, a))
  {
    hide IsSnapshot, Normalize, Observe, Decide, Classify;
    if a.Acquire? {
      AcquireIsTaken(s, a.w);
    }
  }

  lemma {:induction false} RunNobodyLeft(s: State, actions: seq<Action>, t: State)
    requires NobodyLeftEarly(s) && Runs(s, actions, t)
    ensures NobodyLeftEarly(t)
    decreases |actions|
  {
    hide NobodyLeftEarly, Apply, Enabled;
    if actions != [] {
      StepNobodyLeft(s, actions[0]);
      RunNobodyLeft(Apply(s, actions[0]), actions[1..], t);
    }
  }

  /** Over every run: no worker exits before stop is signalled. */
  lemma ExitsOnlyAfterStop(config: Config, clock: int, workers: nat, actions: seq<Action>, t: State, w: nat)
    requires Runs(Init(config, clock, workers), actions, t) && w < |t.pcs| && t.pcs[w].Exited?
    ensures t.stopped
  {
    RunNobodyLeft(Init(config, clock, workers), actions, t);
  }

  /** The bound is for workers that begin no pass: while nothing is due, an idle worker whose ticks
      come first can begin and end passes for ever, stopped or not. */
  lemma PassesGoOn(s: State, w: nat)
    requires w < |s.pcs| && s.pcs[w].Idle? && IsSnapshot(s, s.clock, [])
    ensures Runs(s, [ReadClock(w), Snapshot(w, []), EndPass(w)], s)
  {
    var s1 := At(s, w, Clocked(s.clock));
    var s2 := At(s1, w, Looping(Job([], s.clock, |s.hist|)));
    assert At(s2, w, Idle) == s by { assert s2.pcs[w := Idle] == s.pcs; }
    assert IsSnapshot(s1, s.clock, []) by { SameSnapshot(s, s1, []); }
    assert Apply(s, ReadClock(w)) == s1 && Apply(s1, Snapshot(w, [])) == s2;
    assert Enabled(s2, EndPass(w)) && Apply(s2, EndPass(w)) == s;
    hide Enabled, Apply;
    RunThree(s, ReadClock(w), Snapshot(w, []), EndPass(w));
  }
}
