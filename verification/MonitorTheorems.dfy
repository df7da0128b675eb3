/** What holds over every run of the monitoring service: mutual exclusion, and the exact bound on
    repeated checks. */
module MonitorTheorems {
  import opened MonitorNode
  import opened MonitorRuns
  import opened MonitorInvariant

  lemma {:induction false} RunKeepsInv(s: State, actions: seq<Action>, t: State)
    requires Inv(s) && Runs(s, actions, t)
    ensures Inv(t)
    decreases |actions|
  {
    if actions != [] {
      StepKeepsInv(s, actions[0]);
      RunKeepsInv(Apply(s, actions[0]), actions[1..], t);
    }
  }

  /** Over every run: two workers past the guard are on nodes of different ids, and the guard
      holds exactly the ids of the nodes that workers are on. */
  lemma MutualExclusion(config: Config, clock: int, workers: nat, actions: seq<Action>, t: State)
    requires Runs(Init(config, clock, workers), actions, t)
    ensures forall v, w :: 0 <= v < w < |t.pcs| && InFlight(t.pcs[v]) && InFlight(t.pcs[w]) ==>
      t.pcs[v].cur in t.objs && t.pcs[w].cur in t.objs && t.objs[t.pcs[v].cur].id != t.objs[t.pcs[w].cur].id
    ensures forall id :: id in t.checking <==> exists w :: 0 <= w < |t.pcs| && Guards(t.pcs[w], t.objs, id)
  {
    InitInv(config, clock, workers);
    RunKeepsInv(Init(config, clock, workers), actions, t);
    AllWorkersKnow(t.pcs, t.clock, t.objs, t.hist);
    forall v, w | 0 <= v < w < |t.pcs| && InFlight(t.pcs[v]) && InFlight(t.pcs[w])
      ensures t.pcs[v].cur in t.objs && t.pcs[w].cur in t.objs && t.objs[t.pcs[v].cur].id != t.objs[t.pcs[w].cur].id
    {
      OthersOnOtherNodes(t, v, w);
    }
  }

  /** Every access a step makes finds its node: the guards of the steps that mention it are
      always met. */
  lemma NothingMissing(config: Config, clock: int, workers: nat, actions: seq<Action>, t: State, w: nat)
    requires Runs(Init(config, clock, workers), actions, t) && w < |t.pcs|
    ensures t.pcs[w].Looping? ==> Enabled(t, if t.pcs[w].job.rest == [] then EndPass(w) else Acquire(w))
    ensures t.pcs[w].Stamped? ==> Enabled(t, Record(w))
    ensures t.pcs[w].Recorded? ==> Enabled(t, Store(w))
    ensures t.pcs[w].Stored? ==> Enabled(t, Notify(w))
    ensures t.pcs[w].Notified? ==> Enabled(t, Release(w))
  {
    InitInv(config, clock, workers);
    RunKeepsInv(Init(config, clock, workers), actions, t);
    AllWorkersKnow(t.pcs, t.clock, t.objs, t.hist);
    assert Knows(t.pcs[w], t.objs);
  }

  // ----- repeated checks -----

  /** The checks of the same node recorded after the i-th with a time less than an interval
      after it. */
  ghost function Repeats(hist: seq<Check>, interval: int, i: nat): set<nat>
    requires i < |hist|
  {
    set k: nat | i < k < |hist| && hist[k].ref == hist[i].ref && hist[k].ts < hist[i].ts + interval
  }

  /** A set whose members are told apart by workers of a set is no larger than that set. */
  lemma {:induction false} NoMoreThanWorkers(hist: seq<Check>, ks: set<nat>, ws: set<nat>)
    requires forall k :: k in ks ==> k < |hist| && hist[k].worker in ws
    requires forall j, k :: j in ks && k in ks && j != k ==> hist[j].worker != hist[k].worker
    ensures |ks| <= |ws|
    decreases |ks|
  {
    if ks != {} {
      var k :| k in ks;
      NoMoreThanWorkers(hist, ks - {k}, ws - {hist[k].worker});
    }
  }

  ghost function WorkerSet(n: nat): (r: set<nat>)
    ensures |r| == n && forall w: nat :: w in r <==> w < n
  {
    if n == 0 then {} else WorkerSet(n - 1) + {n - 1}
  }

  lemma StepKeepsWorkers(s: State, a: Action)
    requires Enabled(s, a)
    ensures |Apply(s, a).pcs| == |s.pcs|
  {
  }

  lemma {:induction false} RunKeepsWorkers(s: State, actions: seq<Action>, t: State)
    requires Runs(s, actions, t)
    ensures |t.pcs| == |s.pcs|
    decreases |actions|
  {
    hide Apply, Enabled;
    if actions != [] {
      StepKeepsWorkers(s, actions[0]);
      RunKeepsWorkers(Apply(s, actions[0]), actions[1..], t);
    }
  }

  /** Over every run with any number of workers: once a check has written `LastChecked`, fewer
      checks of that node are recorded within its interval than there are workers. */
  lemma RepeatsBounded(config: Config, clock: int, workers: nat, actions: seq<Action>, t: State, i: nat)
    requires Runs(Init(config, clock, workers), actions, t) && i < |t.hist|
    ensures t.hist[i].ref in t.objs
    ensures |Repeats(t.hist, t.objs[t.hist[i].ref].interval, i)| <= workers - 1
  {
    InitInv(config, clock, workers);
    RunKeepsInv(Init(config, clock, workers), actions, t);
    RunKeepsWorkers(Init(config, clock, workers), actions, t);
    assert CheckOk(t.objs, t.clock, |t.pcs|, t.hist, i);
    var interval := t.objs[t.hist[i].ref].interval;
    var ks := Repeats(t.hist, interval, i);
    var all := WorkerSet(workers);
    forall k | k in ks
      ensures t.hist[k].worker in all - {t.hist[i].worker} && t.hist[k].pos <= i
    {
      assert CheckOk(t.objs, t.clock, |t.pcs|, t.hist, k);
      assert PairOk(interval, t.hist[i], i, t.hist[k]);
    }
    forall j, k | j in ks && k in ks && j < k
      ensures t.hist[j].worker != t.hist[k].worker
    {
      assert PairOk(interval, t.hist[j], j, t.hist[k]);
    }
    NoMoreThanWorkers(t.hist, ks, all - {t.hist[i].worker});
    assert t.hist[i].worker in all;
  }

  // ----- the bound is reached -----

  lemma {:induction false} RunsThen(s: State, actions: seq<Action>, t: State, a: Action)
    requires Runs(s, actions, t) && Enabled(t, a)
    ensures Runs(s, actions + [a], Apply(t, a))
    decreases |actions|
  {
    if actions == [] {
      assert [a][1..] == [];
    } else {
      RunsThen(Apply(s, actions[0]), actions[1..], t, a);
      assert (actions + [a])[0] == actions[0] && (actions + [a])[1..] == actions[1..] + [a];
    }
  }

  ghost predicate Reaches(s: State, t: State) {
    exists actions :: Runs(s, actions, t)
  }

  lemma ReachesSelf(s: State)
    ensures Reaches(s, s)
  {
    assert Runs(s, [], s);
  }

  lemma ReachesNext(s: State, t: State, a: Action)
    requires Reaches(s, t) && Enabled(t, a)
    ensures Reaches(s, Apply(t, a))
  {
    var actions :| Runs(s, actions, t);
    RunsThen(s, actions, t, a);
  }

  /** One node, checked an interval ago, due for the first k of the workers, who hold it in their
      passes; nobody is past the guard. */
  ghost predicate Loaded(t: State, workers: nat, k: nat) {
    && |t.pcs| == workers && k <= workers && t.clock == 0 && t.checking == {} && t.hist == []
    && t.nodes == map[1 := 0] && 0 in t.objs && t.objs[0].id == 1 && t.objs[0].interval == 1 && t.objs[0].lastChecked == -1
    && (forall w :: 0 <= w < k ==> t.pcs[w] == Looping(Job([0], 0, 0)))
    && (forall w :: k <= w < workers ==> t.pcs[w] == Idle)
  }

  /** The first k workers have recorded a check of it, all at the same time. */
  ghost predicate Repeated(t: State, workers: nat, k: nat) {
    && |t.pcs| == workers && k <= workers && t.clock == 0 && t.checking == {} && |t.hist| == k
    && 0 in t.objs && t.objs[0].id == 1 && t.objs[0].interval == 1
    && (forall w :: k <= w < workers ==> t.pcs[w] == Looping(Job([0], 0, 0)))
    && (forall i :: 0 <= i < k ==> t.hist[i].ref == 0 && t.hist[i].ts == 0)
  }

  lemma LoadOne(s: State, t: State, workers: nat, k: nat) returns (u: State)
    requires Reaches(s, t) && Loaded(t, workers, k) && k < workers
    ensures Reaches(s, u) && Loaded(u, workers, k + 1)
  {
    ReachesNext(s, t, ReadClock(k));
    u := Apply(t, ReadClock(k));
    assert IsSnapshot(u, 0, [0]);
    ReachesNext(s, u, Snapshot(k, [0]));
    u := Apply(u, Snapshot(k, [0]));
  }

  lemma {:induction false} LoadWorkers(s: State, t: State, workers: nat, k: nat) returns (u: State)
    requires Reaches(s, t) && Loaded(t, workers, k)
    ensures Reaches(s, u) && Loaded(u, workers, workers)
    decreases workers - k
  {
    if k == workers {
      u := t;
    } else {
      u := LoadOne(s, t, workers, k);
      u := LoadWorkers(s, u, workers, k + 1);
    }
  }

  lemma RecordOne(s: State, t: State, workers: nat, k: nat) returns (u: State)
    requires Reaches(s, t) && Repeated(t, workers, k) && k < workers
    ensures Reaches(s, u) && Repeated(u.(pcs := u.pcs, checking := {}), workers, k + 1)
    ensures u.pcs[k].Recorded? && u.pcs[k].cur == 0 && u.checking == {1} && u.nodes == t.nodes
  {
    hide Reaches;
    ReachesNext(s, t, Acquire(k));
    u := Apply(t, Acquire(k));
    ReachesNext(s, u, Probe(k, ProbePassed(0)));
    u := Apply(u, Probe(k, ProbePassed(0)));
    ReachesNext(s, u, Record(k));
    u := Apply(u, Record(k));
  }

  lemma RepeatOne(s: State, t: State, workers: nat, k: nat) returns (u: State)
    requires Reaches(s, t) && Repeated(t, workers, k) && k < workers
    ensures Reaches(s, u) && Repeated(u, workers, k + 1)
  {
    u := RecordOne(s, t, workers, k);
    hide Reaches;
    ReachesNext(s, u, Store(k));
    u := Apply(u, Store(k));
    ReachesNext(s, u, Notify(k));
    u := Apply(u, Notify(k));
    ReachesNext(s, u, Release(k));
    u := Apply(u, Release(k));
  }

  lemma {:induction false} RepeatWorkers(s: State, t: State, workers: nat, k: nat) returns (u: State)
    requires Reaches(s, t) && Repeated(t, workers, k)
    ensures Reaches(s, u) && Repeated(u, workers, workers)
    decreases workers - k
  {
    if k == workers {
      u := t;
    } else {
      u := RepeatOne(s, t, workers, k);
      u := RepeatWorkers(s, u, workers, k + 1);
    }
  }

  /** The first check is repeated within its interval by as many as all but one of the workers. */
  ghost predicate RepeatedByOthers(t: State, workers: nat) {
    |t.hist| > 0 && t.hist[0].ref in t.objs && |Repeats(t.hist, t.objs[t.hist[0].ref].interval, 0)| == workers - 1
  }

  /** The bound is exact: for every number of workers there is a run in which a check is repeated
      by every other worker within its interval. */
  lemma BoundReached(config: Config, workers: nat)
    requires workers >= 1
    ensures exists t: State :: Reaches(Init(config, 0, workers), t) && RepeatedByOthers(t, workers)
  {
    var s := Init(config, 0, workers);
    ReachesSelf(s);
    var n := Node(1, 1, 1, Up, -1, -1, 0);
    ReachesNext(s, s, Add(0, n));
    var t := Apply(s, Add(0, n));
    t := LoadWorkers(s, t, workers, 0);
    t := RepeatWorkers(s, t, workers, 0);
    var ks := Repeats(t.hist, 1, 0);
    assert ks == WorkerSet(workers) - {0};
    assert RepeatedByOthers(t, workers);
  }

  // ----- a check without interference -----

  lemma AcquireStep(s: State, w: nat)
    requires Enabled(s, Acquire(w)) && s.objs[s.pcs[w].job.rest[0]].id !in s.checking
    ensures var job := s.pcs[w].job;
      Apply(s, Acquire(w)) == s.(pcs := s.pcs[w := Probing(job.rest[0], job.(rest := job.rest[1..]))],
                                 checking := s.checking + {s.objs[job.rest[0]].id})
  {
    AcquireIsTaken(s, w);
    hide Apply;
  }

  lemma ProbeStep(s: State, w: nat, r: Ref, job: Job, response: Response)
    requires w < |s.pcs| && s.pcs[w] == Probing(r, job)
    ensures Enabled(s, Probe(w, response))
    ensures Apply(s, Probe(w, response))
      == s.(pcs := s.pcs[w := Stamped(r, if response.ProbePassed? then Up else Down, s.clock, job)])
  {
    hide IsSnapshot;
  }

  lemma RecordStep(s: State, w: nat, r: Ref, status: Status, ts: int, job: Job)
    requires w < |s.pcs| && s.pcs[w] == Stamped(r, status, ts, job) && r in s.objs
    ensures Enabled(s, Record(w))
    ensures Apply(s, Record(w)) == s.(
      pcs := s.pcs[w := Recorded(r, |s.hist|, s.objs[r].status, status, job)],
      objs := s.objs[r := Observe(s.objs[r], status, ts)], hist := s.hist + [Check(w, r, status, ts, job.pos)])
  {
    hide IsSnapshot, Observe;
  }

  lemma StoreStep(s: State, w: nat, r: Ref, ev: nat, previous: Status, status: Status, job: Job)
    requires w < |s.pcs| && s.pcs[w] == Recorded(r, ev, previous, status, job) && r in s.objs
    ensures Enabled(s, Store(w))
    ensures Apply(s, Store(w))
      == s.(pcs := s.pcs[w := Stored(r, ev, previous, status, job)], results := s.results[s.objs[r].id := ev])
  {
    hide IsSnapshot;
  }

  lemma NotifyStep(s: State, w: nat, r: Ref, ev: nat, previous: Status, status: Status, job: Job)
    requires w < |s.pcs| && s.pcs[w] == Stored(r, ev, previous, status, job) && r in s.objs
    ensures Enabled(s, Notify(w))
    ensures Apply(s, Notify(w))
      == s.(pcs := s.pcs[w := Notified(r, job)], notices := s.notices[ev := Decide(s.objs[r], previous, status)])
  {
    hide IsSnapshot, Decide;
  }

  lemma ReleaseStep(s: State, w: nat, r: Ref, job: Job)
    requires w < |s.pcs| && s.pcs[w] == Notified(r, job) && r in s.objs
    ensures Enabled(s, Release(w))
    ensures Apply(s, Release(w)) == s.(pcs := s.pcs[w := Looping(job)], checking := s.checking - {s.objs[r].id})
  {
    hide IsSnapshot;
  }

  /** What the notifier decides when it reads the node as its own check left it. */
  lemma DecideOwn(n: Node, status: Status, now: int)
    ensures Decide(Observe(n, status, now), n.status, status) == NoticeFor(n, status)
  {
  }

  /** The state after a whole check by a worker whose next node is free, and nothing else meanwhile. */
  ghost function AfterCheck(s: State, w: nat, response: Response): State
    requires Enabled(s, Acquire(w))
  {
    var job := s.pcs[w].job;
    var r, status := job.rest[0], if response.ProbePassed? then Up else Down;
    s.(pcs := s.pcs[w := Looping(job.(rest := job.rest[1..]))],
       objs := s.objs[r := Observe(s.objs[r], status, s.clock)],
       hist := s.hist + [Check(w, r, status, s.clock, job.pos)],
       results := s.results[s.objs[r].id := |s.hist|],
       notices := s.notices[|s.hist| := NoticeFor(s.objs[r], status)])
  }

  /** The state once the check is recorded, the guard taken. */
  ghost function WhenRecorded(s: State, w: nat, response: Response): State
    requires Enabled(s, Acquire(w))
  {
    var job := s.pcs[w].job;
    var r, status := job.rest[0], if response.ProbePassed? then Up else Down;
    s.(pcs := s.pcs[w := Recorded(r, |s.hist|, s.objs[r].status, status, job.(rest := job.rest[1..]))],
       objs := s.objs[r := Observe(s.objs[r], status, s.clock)],
       hist := s.hist + [Check(w, r, status, s.clock, job.pos)],
       checking := s.checking + {s.objs[r].id})
  }

  lemma FirstHalf(s: State, w: nat, response: Response)
    requires Enabled(s, Acquire(w)) && s.objs[s.pcs[w].job.rest[0]].id !in s.checking
    ensures var s1 := Apply(s, Acquire(w));
      && Enabled(s1, Probe(w, response))
      && Enabled(Apply(s1, Probe(w, response)), Record(w))
      && Apply(Apply(s1, Probe(w, response)), Record(w)) == WhenRecorded(s, w, response)
  {
    var job := s.pcs[w].job;
    var r, next := job.rest[0], job.(rest := job.rest[1..]);
    var s1 := Apply(s, Acquire(w));
    AcquireStep(s, w);
    hide Apply, Enabled, Observe;
    ProbeStep(s1, w, r, next, response);
    RecordStep(Apply(s1, Probe(w, response)), w, r, if response.ProbePassed? then Up else Down, s.clock, next);
  }

  lemma SecondHalf(u: State, w: nat, r: Ref, ev: nat, previous: Status, status: Status, next: Job)
    requires w < |u.pcs| && u.pcs[w] == Recorded(r, ev, previous, status, next) && r in u.objs
    ensures Enabled(u, Store(w)) && Enabled(Apply(u, Store(w)), Notify(w))
    ensures Enabled(Apply(Apply(u, Store(w)), Notify(w)), Release(w))
    ensures Apply(Apply(Apply(u, Store(w)), Notify(w)), Release(w)) == u.(
      pcs := u.pcs[w := Looping(next)], results := u.results[u.objs[r].id := ev],
      notices := u.notices[ev := Decide(u.objs[r], previous, status)], checking := u.checking - {u.objs[r].id})
  {
    hide Apply, Enabled, Decide;
    StoreStep(u, w, r, ev, previous, status, next);
    NotifyStep(Apply(u, Store(w)), w, r, ev, previous, status, next);
    ReleaseStep(Apply(Apply(u, Store(w)), Notify(w)), w, r, next);
  }

  lemma RecordedShape(s: State, w: nat, response: Response)
    requires Enabled(s, Acquire(w))
    ensures var u, job := WhenRecorded(s, w, response), s.pcs[w].job;
      var r, status := job.rest[0], if response.ProbePassed? then Up else Down;
      && w < |u.pcs| && r in u.objs
      && u.pcs[w] == Recorded(r, |s.hist|, s.objs[r].status, status, job.(rest := job.rest[1..]))
  {
    hide Observe, IsSnapshot;
  }

  /** Put together: the guard is as before, and the notifier read what the check wrote. */
  lemma WholeCheck(s: State, w: nat, response: Response)
    requires Enabled(s, Acquire(w)) && s.objs[s.pcs[w].job.rest[0]].id !in s.checking
    ensures var job := s.pcs[w].job;
      var r, status := job.rest[0], if response.ProbePassed? then Up else Down;
      var u := WhenRecorded(s, w, response);
      u.(pcs := u.pcs[w := Looping(job.(rest := job.rest[1..]))], results := u.results[u.objs[r].id := |s.hist|],
         notices := u.notices[|s.hist| := Decide(u.objs[r], s.objs[r].status, status)],
         checking := u.checking - {u.objs[r].id}) == AfterCheck(s, w, response)
  {
    var r := s.pcs[w].job.rest[0];
    DecideOwn(s.objs[r], if response.ProbePassed? then Up else Down, s.clock);
    assert s.checking + {s.objs[r].id} - {s.objs[r].id} == s.checking;
    hide Decide, NoticeFor;
  }

  lemma LastThree(s: State, w: nat, response: Response)
    requires Enabled(s, Acquire(w)) && s.objs[s.pcs[w].job.rest[0]].id !in s.checking
    ensures var u := WhenRecorded(s, w, response);
      && Enabled(u, Store(w)) && Enabled(Apply(u, Store(w)), Notify(w))
      && Enabled(Apply(Apply(u, Store(w)), Notify(w)), Release(w))
      && Apply(Apply(Apply(u, Store(w)), Notify(w)), Release(w)) == AfterCheck(s, w, response)
  {
    var job := s.pcs[w].job;
    var r, status := job.rest[0], if response.ProbePassed? then Up else Down;
    WholeCheck(s, w, response);
    RecordedShape(s, w, response);
    hide Apply, Enabled, Observe, Decide, AfterCheck, WhenRecorded;
    SecondHalf(WhenRecorded(s, w, response), w, r, |s.hist|, s.objs[r].status, status, job.(rest := job.rest[1..]));
  }

  lemma RunThree(s: State, a: Action, b: Action, c: Action)
    requires Enabled(s, a) && Enabled(Apply(s, a), b) && Enabled(Apply(Apply(s, a), b), c)
    ensures Runs(s, [a, b, c], Apply(Apply(Apply(s, a), b), c))
  {
    hide Enabled, Apply;
    assert Runs(s, [], s) && [] + [a] == [a] && [a] + [b] == [a, b] && [a, b] + [c] == [a, b, c];
    RunsThen(s, [], s, a);
    RunsThen(s, [a], Apply(s, a), b);
    RunsThen(s, [a, b], Apply(Apply(s, a), b), c);
  }

  lemma {:induction false} RunsOn(s: State, first: seq<Action>, t: State, second: seq<Action>, u: State)
    requires Runs(s, first, t) && Runs(t, second, u)
    ensures Runs(s, first + second, u)
    decreases |first|
  {
    hide Enabled, Apply;
    if first == [] {
      assert first + second == second;
    } else {
      RunsOn(Apply(s, first[0]), first[1..], t, second, u);
      assert (first + second)[1..] == first[1..] + second;
    }
  }

  lemma RunSix(s: State, a: Action, b: Action, c: Action, d: Action, e: Action, f: Action)
    requires Enabled(s, a) && Enabled(Apply(s, a), b) && Enabled(Apply(Apply(s, a), b), c)
    requires var u := Apply(Apply(Apply(s, a), b), c);
      Enabled(u, d) && Enabled(Apply(u, d), e) && Enabled(Apply(Apply(u, d), e), f)
    ensures var u := Apply(Apply(Apply(s, a), b), c);
      Runs(s, [a, b, c, d, e, f], Apply(Apply(Apply(u, d), e), f))
  {
    hide *;
    var u := Apply(Apply(Apply(s, a), b), c);
    RunThree(s, a, b, c);
    RunThree(u, d, e, f);
    RunsOn(s, [a, b, c], u, [d, e, f], Apply(Apply(Apply(u, d), e), f));
    assert [a, b, c] + [d, e, f] == [a, b, c, d, e, f];
  }

  /** Without interference the six steps of a check do to the shared state what the whole check does
      to the service: they record, store and notify of the one result, and give the guard back. */
  lemma StepsMakeCheck(s: State, w: nat, response: Response)
    requires Enabled(s, Acquire(w)) && s.objs[s.pcs[w].job.rest[0]].id !in s.checking
    ensures Runs(s, [Acquire(w), Probe(w, response), Record(w), Store(w), Notify(w), Release(w)], AfterCheck(s, w, response))
  {
    FirstHalf(s, w, response);
    LastThree(s, w, response);
    hide *;
    RunSix(s, Acquire(w), Probe(w, response), Record(w), Store(w), Notify(w), Release(w));
  }
}
