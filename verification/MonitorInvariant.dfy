/** What every step of the monitoring workers keeps: the guard admits one worker an id, and every
    recorded check after another of the same node either comes from an older snapshot or a full
    interval later. */
module MonitorInvariant {
  import opened MonitorNode
  import opened MonitorRuns

  ghost predicate SameSettings(a: Node, b: Node) {
    a.id == b.id && a.interval == b.interval && a.threshold == b.threshold
  }

  /** Objects are added, and the settings of those there are never change. */
  ghost predicate Extends(objs: map<Ref, Node>, objs': map<Ref, Node>) {
    forall r :: r in objs ==> r in objs' && SameSettings(objs[r], objs'[r])
  }

  // ----- the registry -----

  ghost predicate Registered(config: Config, objs: map<Ref, Node>, first: map<Ref, Node>, nodes: map<int, Ref>) {
    && first.Keys == objs.Keys
    && (forall id :: id in nodes ==> nodes[id] in objs && objs[nodes[id]].id == id)
    && (forall r :: r in objs ==> Normalize(config, objs[r]) == objs[r] && SameSettings(objs[r], first[r]))
  }

  lemma RegisteredAdd(config: Config, objs: map<Ref, Node>, first: map<Ref, Node>, nodes: map<int, Ref>, ref: Ref, node: Node)
    requires Registered(config, objs, first, nodes) && ref !in objs
    ensures var n := Normalize(config, node);
      Registered(config, objs[ref := n], first[ref := n], nodes[n.id := ref]) && Extends(objs, objs[ref := n])
  {
  }

  lemma RegisteredUpdate(config: Config, objs: map<Ref, Node>, first: map<Ref, Node>, nodes: map<int, Ref>, ref: Ref, node: Node)
    requires Registered(config, objs, first, nodes) && ref in objs && SameSettings(objs[ref], node)
    ensures Registered(config, objs[ref := node], first, nodes) && Extends(objs, objs[ref := node])
    ensures Registered(config, objs[ref := node], first, nodes[node.id := ref])
  {
  }

  // ----- the guard -----

  ghost predicate Knows(pc: PC, objs: map<Ref, Node>) {
    && (forall r :: r in Pending(pc) ==> r in objs)
    && (InFlight(pc) ==> pc.cur in objs)
  }

  ghost predicate AllKnow(pcs: seq<PC>, objs: map<Ref, Node>) {
    forall w :: 0 <= w < |pcs| ==> Knows(pcs[w], objs)
  }

  /** The id that a worker in flight guards. */
  ghost predicate Guards(pc: PC, objs: map<Ref, Node>, id: int) {
    InFlight(pc) && pc.cur in objs && objs[pc.cur].id == id
  }

  /** The guard holds exactly the ids in flight, and no two workers are in flight on one id. */
  ghost predicate Guarded(pcs: seq<PC>, objs: map<Ref, Node>, checking: set<int>) {
    && (forall id :: id in checking <==> exists w :: 0 <= w < |pcs| && Guards(pcs[w], objs, id))
    && (forall v, w, id {:trigger Guards(pcs[v], objs, id), Guards(pcs[w], objs, id)} ::
          0 <= v < w < |pcs| ==> !(Guards(pcs[v], objs, id) && Guards(pcs[w], objs, id)))
  }

  /** A step outside the guard, or between two points past it on the same node. */
  lemma GuardKept(pcs: seq<PC>, objs: map<Ref, Node>, objs': map<Ref, Node>, checking: set<int>, w: nat, pc: PC)
    requires Guarded(pcs, objs, checking) && AllKnow(pcs, objs) && Extends(objs, objs') && w < |pcs|
    requires forall id :: Guards(pc, objs', id) <==> Guards(pcs[w], objs, id)
    ensures Guarded(pcs[w := pc], objs', checking)
  {
    var pcs' := pcs[w := pc];
    assert forall v, id :: 0 <= v < |pcs| ==> (Guards(pcs'[v], objs', id) <==> Guards(pcs[v], objs, id));
  }

  lemma GuardEntered(pcs: seq<PC>, objs: map<Ref, Node>, checking: set<int>, w: nat, pc: PC)
    requires Guarded(pcs, objs, checking) && w < |pcs|
    requires !InFlight(pcs[w]) && InFlight(pc) && pc.cur in objs && objs[pc.cur].id !in checking
    ensures Guarded(pcs[w := pc], objs, checking + {objs[pc.cur].id})
  {
    var pcs', id' := pcs[w := pc], objs[pc.cur].id;
    assert Guards(pcs'[w], objs, id');
    assert forall v, id :: 0 <= v < |pcs| && v != w ==> (Guards(pcs'[v], objs, id) <==> Guards(pcs[v], objs, id));
    forall id
      ensures id in checking + {id'} <==> exists v :: 0 <= v < |pcs'| && Guards(pcs'[v], objs, id)
    {
      if id in checking {
        var v :| 0 <= v < |pcs| && Guards(pcs[v], objs, id);
        assert Guards(pcs'[v], objs, id);
      }
    }
  }

  lemma GuardLeft(pcs: seq<PC>, objs: map<Ref, Node>, checking: set<int>, w: nat, pc: PC)
    requires Guarded(pcs, objs, checking) && w < |pcs|
    requires InFlight(pcs[w]) && pcs[w].cur in objs && !InFlight(pc)
    ensures Guarded(pcs[w := pc], objs, checking - {objs[pcs[w].cur].id})
  {
    var pcs', id' := pcs[w := pc], objs[pcs[w].cur].id;
    assert Guards(pcs[w], objs, id');
    assert forall v, id :: 0 <= v < |pcs| && v != w ==> (Guards(pcs'[v], objs, id) <==> Guards(pcs[v], objs, id));
    forall id
      ensures id in checking - {id'} <==> exists v :: 0 <= v < |pcs'| && Guards(pcs'[v], objs, id)
    {
      if id in checking && id != id' {
        var v :| 0 <= v < |pcs| && Guards(pcs[v], objs, id);
        assert Guards(pcs'[v], objs, id);
      }
    }
  }

  // ----- one worker -----

  /** No check of the node is recorded later than the time. */
  ghost predicate NoLaterThan(hist: seq<Check>, r: Ref, time: int) {
    forall i :: 0 <= i < |hist| && hist[i].ref == r ==> hist[i].ts <= time
  }

  /** None of the first checks of the history is of the node and later than the time. */
  ghost predicate DueSince(hist: seq<Check>, r: Ref, pos: nat, time: int) {
    forall i :: 0 <= i < pos && i < |hist| && hist[i].ref == r ==> hist[i].ts <= time
  }

  /** The worker recorded no check of the node from the position on. */
  ghost predicate NotBy(hist: seq<Check>, w: nat, r: Ref, pos: nat) {
    forall i :: pos <= i < |hist| ==> !(hist[i].worker == w && hist[i].ref == r)
  }

  /** What a worker can rely on: its times are past, each node of its pass was due when its
      snapshot was taken and was not recorded by it since, and it is the last to have read the
      time for the node it is about to record. */
  ghost predicate WorkerOk(w: nat, pc: PC, clock: int, objs: map<Ref, Node>, hist: seq<Check>) {
    && Knows(pc, objs)
    && NoDups(Pending(pc))
    && (pc.Clocked? ==> pc.now <= clock)
    && (HasJob(pc) ==> pc.job.now <= clock && pc.job.pos <= |hist|)
    && (pc.Stamped? ==> pc.job.now <= pc.ts <= clock && NoLaterThan(hist, pc.cur, pc.ts) && pc.status != Other)
    && (HasJob(pc) ==> forall r :: r in Pending(pc) ==>
          DueSince(hist, r, pc.job.pos, pc.job.now - objs[r].interval) && NotBy(hist, w, r, pc.job.pos))
  }

  lemma WorkerKept(w: nat, pc: PC, clock: int, clock': int, objs: map<Ref, Node>, objs': map<Ref, Node>, hist: seq<Check>)
    requires WorkerOk(w, pc, clock, objs, hist) && clock <= clock' && Extends(objs, objs')
    ensures WorkerOk(w, pc, clock', objs', hist)
  {
  }

  /** Another worker records a check: of another node if this one is about to record. */
  lemma WorkerKeptByRecord(w: nat, pc: PC, clock: int, objs: map<Ref, Node>, objs': map<Ref, Node>, hist: seq<Check>, e: Check)
    requires WorkerOk(w, pc, clock, objs, hist) && Extends(objs, objs')
    requires e.worker != w && (pc.Stamped? ==> e.ref != pc.cur)
    ensures WorkerOk(w, pc, clock, objs', hist + [e])
  {
    hide NoDups;
    var h := hist + [e];
    assert forall i :: 0 <= i < |hist| ==> h[i] == hist[i];
    if HasJob(pc) {
      forall r | r in Pending(pc)
        ensures DueSince(h, r, pc.job.pos, pc.job.now - objs'[r].interval) && NotBy(h, w, r, pc.job.pos)
      {
        assert DueSince(hist, r, pc.job.pos, pc.job.now - objs[r].interval) && NotBy(hist, w, r, pc.job.pos);
      }
    }
  }

  // ----- the recorded checks -----

  ghost predicate CheckOk(objs: map<Ref, Node>, clock: int, workers: nat, hist: seq<Check>, i: nat)
    requires i < |hist|
  {
    var e := hist[i];
    e.worker < workers && e.pos <= i && e.ref in objs && e.ts <= objs[e.ref].lastChecked && e.ts <= clock
    && e.status != Other
  }

  /** Of two checks of a node, the later one is recorded no earlier; it comes from a snapshot
      taken after the first one only an interval later; and one worker records both only when it
      took a snapshot in between. */
  ghost predicate PairOk(interval: int, a: Check, i: nat, b: Check) {
    && a.ts <= b.ts
    && (i < b.pos ==> a.ts + interval <= b.ts)
    && (a.worker == b.worker ==> i < b.pos)
  }

  ghost predicate HistoryOk(objs: map<Ref, Node>, clock: int, workers: nat, hist: seq<Check>) {
    && (forall i :: 0 <= i < |hist| ==> CheckOk(objs, clock, workers, hist, i))
    && (forall i, j :: 0 <= i < j < |hist| && hist[i].ref == hist[j].ref && hist[i].ref in objs ==>
          PairOk(objs[hist[i].ref].interval, hist[i], i, hist[j]))
  }

  lemma HistoryKept(objs: map<Ref, Node>, objs': map<Ref, Node>, clock: int, clock': int, workers: nat, hist: seq<Check>)
    requires HistoryOk(objs, clock, workers, hist) && clock <= clock' && Extends(objs, objs')
    requires forall r :: r in objs ==> objs[r].lastChecked == objs'[r].lastChecked
    ensures HistoryOk(objs', clock', workers, hist)
  {
    forall i | 0 <= i < |hist|
      ensures CheckOk(objs', clock', workers, hist, i) && hist[i].ref in objs
    {
      assert CheckOk(objs, clock, workers, hist, i);
    }
  }

  /** A worker that is about to record appends a check that keeps the history in order. */
  lemma HistoryAppended(objs: map<Ref, Node>, clock: int, workers: nat, hist: seq<Check>, w: nat, pc: PC)
    requires HistoryOk(objs, clock, workers, hist) && w < workers
    requires pc.Stamped? && WorkerOk(w, pc, clock, objs, hist)
    ensures HistoryOk(objs[pc.cur := Observe(objs[pc.cur], pc.status, pc.ts)], clock, workers,
                      hist + [Check(w, pc.cur, pc.status, pc.ts, pc.job.pos)])
  {
    hide NoDups;
    var objs' := objs[pc.cur := Observe(objs[pc.cur], pc.status, pc.ts)];
    var e := Check(w, pc.cur, pc.status, pc.ts, pc.job.pos);
    var h, n := hist + [e], |hist|;
    forall i | 0 <= i < |h|
      ensures CheckOk(objs', clock, workers, h, i)
    {
      if i < n {
        assert CheckOk(objs, clock, workers, hist, i);
      }
    }
    assert pc.cur in Pending(pc) by { assert Pending(pc)[0] == pc.cur; }
    forall i, j | 0 <= i < j < |h| && h[i].ref == h[j].ref && h[i].ref in objs'
      ensures PairOk(objs'[h[i].ref].interval, h[i], i, h[j])
    {
      if j == n {
        assert DueSince(hist, pc.cur, pc.job.pos, pc.job.now - objs[pc.cur].interval) && NotBy(hist, w, pc.cur, pc.job.pos);
      } else {
        assert hist[i].ref == hist[j].ref && h[i] == hist[i] && h[j] == hist[j];
      }
    }
  }

  // ----- every step -----

  ghost predicate WorkersOk(pcs: seq<PC>, clock: int, objs: map<Ref, Node>, hist: seq<Check>) {
    forall w :: 0 <= w < |pcs| ==> WorkerOk(w, pcs[w], clock, objs, hist)
  }

  ghost predicate Inv(s: State) {
    && Registered(s.config, s.objs, s.first, s.nodes)
    && Guarded(s.pcs, s.objs, s.checking)
    && WorkersOk(s.pcs, s.clock, s.objs, s.hist)
    && HistoryOk(s.objs, s.clock, |s.pcs|, s.hist)
  }

  lemma InitInv(config: Config, clock: int, workers: nat)
    ensures Inv(Init(config, clock, workers))
  {
  }

  lemma AllWorkersKnow(pcs: seq<PC>, clock: int, objs: map<Ref, Node>, hist: seq<Check>)
    requires WorkersOk(pcs, clock, objs, hist)
    ensures AllKnow(pcs, objs)
  {
    forall w | 0 <= w < |pcs|
      ensures Knows(pcs[w], objs)
    {
      assert WorkerOk(w, pcs[w], clock, objs, hist);
    }
  }

  lemma GuardExtended(pcs: seq<PC>, objs: map<Ref, Node>, objs': map<Ref, Node>, checking: set<int>)
    requires Guarded(pcs, objs, checking) && AllKnow(pcs, objs) && Extends(objs, objs')
    ensures Guarded(pcs, objs', checking)
  {
    assert forall v, id :: 0 <= v < |pcs| ==> (Guards(pcs[v], objs', id) <==> Guards(pcs[v], objs, id));
  }

  lemma WorkersExtended(pcs: seq<PC>, clock: int, clock': int, objs: map<Ref, Node>, objs': map<Ref, Node>, hist: seq<Check>)
    requires WorkersOk(pcs, clock, objs, hist) && clock <= clock' && Extends(objs, objs')
    ensures WorkersOk(pcs, clock', objs', hist)
  {
    forall w | 0 <= w < |pcs|
      ensures WorkerOk(w, pcs[w], clock', objs', hist)
    {
      assert WorkerOk(w, pcs[w], clock, objs, hist);
      WorkerKept(w, pcs[w], clock, clock', objs, objs', hist);
    }
  }

  /** A step that only moves one worker, and does not enter or leave the guard. */
  lemma MoveKeepsInv(s: State, t: State, w: nat, pc: PC)
    requires Inv(s) && w < |s.pcs|
    requires t == s.(pcs := s.pcs[w := pc], results := t.results, notices := t.notices)
    requires WorkerOk(w, pc, s.clock, s.objs, s.hist)
    requires InFlight(pc) == InFlight(s.pcs[w]) && (InFlight(pc) ==> pc.cur == s.pcs[w].cur)
    ensures Inv(t)
  {
    hide HistoryOk, WorkerOk, Registered;
    AllWorkersKnow(s.pcs, s.clock, s.objs, s.hist);
    GuardKept(s.pcs, s.objs, s.objs, s.checking, w, pc);
  }

  lemma TickKeepsInv(s: State, d: nat)
    requires Inv(s)
    ensures Inv(s.(clock := s.clock + d))
  {
    hide HistoryOk, WorkersOk, Guarded, Registered;
    WorkersExtended(s.pcs, s.clock, s.clock + d, s.objs, s.objs, s.hist);
    HistoryKept(s.objs, s.objs, s.clock, s.clock + d, |s.pcs|, s.hist);
  }

  lemma AddKeepsInv(s: State, ref: Ref, node: Node)
    requires Inv(s) && Enabled(s, Add(ref, node))
    ensures Inv(Apply(s, Add(ref, node)))
  {
    var n := Normalize(s.config, node);
    var objs := s.objs[ref := n];
    hide HistoryOk, WorkersOk, Guarded, Registered;
    RegisteredAdd(s.config, s.objs, s.first, s.nodes, ref, node);
    AllWorkersKnow(s.pcs, s.clock, s.objs, s.hist);
    GuardExtended(s.pcs, s.objs, objs, s.checking);
    WorkersExtended(s.pcs, s.clock, s.clock, s.objs, objs, s.hist);
    HistoryKept(s.objs, objs, s.clock, s.clock, |s.pcs|, s.hist);
  }

  lemma AddAgainKeepsInv(s: State, ref: Ref)
    requires Inv(s) && Enabled(s, AddAgain(ref))
    ensures Inv(Apply(s, AddAgain(ref))) && Apply(s, AddAgain(ref)).objs == s.objs
  {
    assert Normalize(s.config, s.objs[ref]) == s.objs[ref];
    hide HistoryOk, WorkersOk, Guarded;
    RegisteredUpdate(s.config, s.objs, s.first, s.nodes, ref, s.objs[ref]);
    assert s.objs[ref := s.objs[ref]] == s.objs;
  }

  lemma SnapshotKeepsInv(s: State, w: nat, list: seq<Ref>)
    requires Inv(s) && Enabled(s, Snapshot(w, list))
    ensures Inv(Apply(s, Snapshot(w, list)))
  {
    var pc := Looping(Job(list, s.pcs[w].now, |s.hist|));
    assert WorkerOk(w, s.pcs[w], s.clock, s.objs, s.hist);
    forall r | r in list
      ensures DueSince(s.hist, r, |s.hist|, pc.job.now - s.objs[r].interval) && NotBy(s.hist, w, r, |s.hist|)
    {
      forall i | 0 <= i < |s.hist| && s.hist[i].ref == r
        ensures s.hist[i].ts <= pc.job.now - s.objs[r].interval
      {
        assert CheckOk(s.objs, s.clock, |s.pcs|, s.hist, i);
      }
    }
    assert WorkerOk(w, pc, s.clock, s.objs, s.hist);
    hide Inv, WorkerOk;
    MoveKeepsInv(s, Apply(s, Snapshot(w, list)), w, pc);
  }

  /** Dropping the first node of a pass. */
  lemma RestOk(w: nat, pc: PC, clock: int, objs: map<Ref, Node>, hist: seq<Check>)
    requires WorkerOk(w, pc, clock, objs, hist) && pc.Looping? && pc.job.rest != []
    ensures var next := pc.job.(rest := pc.job.rest[1..]);
      WorkerOk(w, Looping(next), clock, objs, hist) && WorkerOk(w, Probing(pc.job.rest[0], next), clock, objs, hist)
  {
    var next := pc.job.(rest := pc.job.rest[1..]);
    assert [pc.job.rest[0]] + next.rest == pc.job.rest;
    assert forall r :: r in next.rest ==> r in pc.job.rest;
  }

  /** The next node is guarded: it is passed over. */
  lemma SkipKeepsInv(s: State, w: nat)
    requires Inv(s) && w < |s.pcs| && s.pcs[w].Looping? && s.pcs[w].job.rest != []
    ensures var job := s.pcs[w].job; Inv(At(s, w, Looping(job.(rest := job.rest[1..]))))
  {
    var next := s.pcs[w].job.(rest := s.pcs[w].job.rest[1..]);
    assert WorkerOk(w, s.pcs[w], s.clock, s.objs, s.hist);
    hide Inv, WorkerOk;
    RestOk(w, s.pcs[w], s.clock, s.objs, s.hist);
    MoveKeepsInv(s, At(s, w, Looping(next)), w, Looping(next));
  }

  /** The next node is free: its id is guarded from now on. */
  lemma EnterKeepsInv(s: State, w: nat)
    requires Inv(s) && w < |s.pcs| && s.pcs[w].Looping? && s.pcs[w].job.rest != []
    requires s.pcs[w].job.rest[0] in s.objs && s.objs[s.pcs[w].job.rest[0]].id !in s.checking
    ensures var job := s.pcs[w].job;
      var pc := Probing(job.rest[0], job.(rest := job.rest[1..]));
      Inv(s.(pcs := s.pcs[w := pc], checking := s.checking + {s.objs[job.rest[0]].id}))
  {
    var job := s.pcs[w].job;
    assert WorkerOk(w, s.pcs[w], s.clock, s.objs, s.hist);
    hide HistoryOk, WorkerOk, Guarded, Registered;
    RestOk(w, s.pcs[w], s.clock, s.objs, s.hist);
    GuardEntered(s.pcs, s.objs, s.checking, w, Probing(job.rest[0], job.(rest := job.rest[1..])));
  }

  lemma AcquireKeepsInv(s: State, w: nat)
    requires Inv(s) && Enabled(s, Acquire(w))
    ensures Inv(Apply(s, Acquire(w)))
  {
    AcquireIsTaken(s, w);
    hide Inv, Apply, IsSnapshot;
    if s.objs[s.pcs[w].job.rest[0]].id in s.checking {
      SkipKeepsInv(s, w);
    } else {
      EnterKeepsInv(s, w);
    }
  }

  /** The probe's answer carries the latest time there is. */
  lemma StampedOk(w: nat, pc: PC, status: Status, clock: int, objs: map<Ref, Node>, workers: nat, hist: seq<Check>)
    requires WorkerOk(w, pc, clock, objs, hist) && pc.Probing? && status != Other && HistoryOk(objs, clock, workers, hist)
    ensures WorkerOk(w, Stamped(pc.cur, status, clock, pc.job), clock, objs, hist)
  {
    hide NoDups, DueSince, NotBy;
    forall i | 0 <= i < |hist|
      ensures hist[i].ts <= clock
    {
      assert CheckOk(objs, clock, workers, hist, i);
    }
  }

  lemma ProbeKeepsInv(s: State, w: nat, response: Response)
    requires Inv(s) && Enabled(s, Probe(w, response))
    ensures Inv(Apply(s, Probe(w, response)))
  {
    var status := Classify(response).0;
    var pc := Stamped(s.pcs[w].cur, status, s.clock, s.pcs[w].job);
    assert WorkerOk(w, s.pcs[w], s.clock, s.objs, s.hist);
    hide WorkerOk, HistoryOk, Classify, IsSnapshot;
    StampedOk(w, s.pcs[w], status, s.clock, s.objs, |s.pcs|, s.hist);
    hide Inv;
    MoveKeepsInv(s, At(s, w, pc), w, pc);
  }

  lemma NoDupsTail(r: Ref, rest: seq<Ref>)
    requires NoDups([r] + rest)
    ensures NoDups(rest) && r !in rest
  {
    var p := [r] + rest;
    assert p[0] == r && forall i :: 0 <= i < |rest| ==> rest[i] == p[i + 1];
  }

  /** The worker itself after recording: the node is no longer pending. */
  lemma RecorderOk(w: nat, pc: PC, clock: int, objs: map<Ref, Node>, objs': map<Ref, Node>, hist: seq<Check>, previous: Status)
    requires WorkerOk(w, pc, clock, objs, hist) && pc.Stamped? && Extends(objs, objs')
    ensures WorkerOk(w, Recorded(pc.cur, |hist|, previous, pc.status, pc.job), clock, objs',
                     hist + [Check(w, pc.cur, pc.status, pc.ts, pc.job.pos)])
  {
    var rest, h := pc.job.rest, hist + [Check(w, pc.cur, pc.status, pc.ts, pc.job.pos)];
    NoDupsTail(pc.cur, rest);
    hide NoDups;
    forall r | r in rest
      ensures r in objs && r != pc.cur
      ensures DueSince(h, r, pc.job.pos, pc.job.now - objs'[r].interval) && NotBy(h, w, r, pc.job.pos)
    {
      assert r in Pending(pc);
      assert DueSince(hist, r, pc.job.pos, pc.job.now - objs[r].interval) && NotBy(hist, w, r, pc.job.pos);
    }
  }

  /** Two workers in flight are on different nodes. */
  lemma OthersOnOtherNodes(s: State, v: nat, w: nat)
    requires Guarded(s.pcs, s.objs, s.checking) && AllKnow(s.pcs, s.objs)
    requires v < |s.pcs| && w < |s.pcs| && v != w && InFlight(s.pcs[v]) && InFlight(s.pcs[w])
    ensures s.pcs[v].cur in s.objs && s.pcs[w].cur in s.objs && s.objs[s.pcs[v].cur].id != s.objs[s.pcs[w].cur].id
  {
    assert Knows(s.pcs[v], s.objs) && Knows(s.pcs[w], s.objs);
    var id := s.objs[s.pcs[v].cur].id;
    assert Guards(s.pcs[v], s.objs, id);
    assert s.objs[s.pcs[w].cur].id == id ==> Guards(s.pcs[w], s.objs, id);
  }

  lemma RecordKeepsInv(s: State, w: nat)
    requires Inv(s) && Enabled(s, Record(w))
    ensures Inv(Apply(s, Record(w)))
  {
    var pc := s.pcs[w];
    var node := Observe(s.objs[pc.cur], pc.status, pc.ts);
    var objs := s.objs[pc.cur := node];
    var e := Check(w, pc.cur, pc.status, pc.ts, pc.job.pos);
    var pc' := Recorded(pc.cur, |s.hist|, s.objs[pc.cur].status, pc.status, pc.job);
    assert WorkerOk(w, pc, s.clock, s.objs, s.hist);
    AllWorkersKnow(s.pcs, s.clock, s.objs, s.hist);
    RegisteredUpdate(s.config, s.objs, s.first, s.nodes, pc.cur, node);
    GuardKept(s.pcs, s.objs, objs, s.checking, w, pc');
    HistoryAppended(s.objs, s.clock, |s.pcs|, s.hist, w, pc);
    RecorderOk(w, pc, s.clock, s.objs, objs, s.hist, s.objs[pc.cur].status);
    hide HistoryOk, WorkerOk, Registered;
    var pcs := s.pcs[w := pc'];
    forall v | 0 <= v < |pcs|
      ensures WorkerOk(v, pcs[v], s.clock, objs, s.hist + [e])
    {
      if v != w {
        assert WorkerOk(v, s.pcs[v], s.clock, s.objs, s.hist);
        if s.pcs[v].Stamped? {
          OthersOnOtherNodes(s, v, w);
        }
        WorkerKeptByRecord(v, s.pcs[v], s.clock, s.objs, objs, s.hist, e);
      }
    }
  }

  lemma NotifiedIsLooping(w: nat, pc: PC, clock: int, objs: map<Ref, Node>, hist: seq<Check>)
    requires WorkerOk(w, pc, clock, objs, hist) && pc.Notified?
    ensures WorkerOk(w, Looping(pc.job), clock, objs, hist)
  {
    hide DueSince, NotBy, NoDups;
  }

  lemma ReleaseKeepsInv(s: State, w: nat)
    requires Inv(s) && Enabled(s, Release(w))
    ensures Inv(Apply(s, Release(w)))
  {
    var pc := Looping(s.pcs[w].job);
    assert WorkerOk(w, s.pcs[w], s.clock, s.objs, s.hist);
    NotifiedIsLooping(w, s.pcs[w], s.clock, s.objs, s.hist);
    hide HistoryOk, WorkerOk, Guarded, Registered;
    GuardLeft(s.pcs, s.objs, s.checking, w, pc);
  }

  /** The remaining moves keep what the worker holds, or drop it. */
  lemma PlainMoveKeepsInv(s: State, w: nat, t: State)
    requires Inv(s) && w < |s.pcs| && |t.pcs| == |s.pcs|
    requires t == s.(pcs := s.pcs[w := t.pcs[w]], results := t.results, notices := t.notices)
    requires var pc, pc' := s.pcs[w], t.pcs[w];
      || (pc'.Clocked? && pc.Idle? && pc'.now == s.clock)
      || (pc.Recorded? && pc'.Stored? && pc'.cur == pc.cur && pc'.job == pc.job)
      || (pc.Stored? && pc'.Notified? && pc'.cur == pc.cur && pc'.job == pc.job)
      || (pc.Looping? && pc'.Idle?)
      || (pc.Idle? && pc'.Exited?)
    ensures Inv(t)
  {
    assert WorkerOk(w, s.pcs[w], s.clock, s.objs, s.hist);
    assert WorkerOk(w, t.pcs[w], s.clock, s.objs, s.hist);
    hide Inv, WorkerOk;
    MoveKeepsInv(s, t, w, t.pcs[w]);
  }

  /** Every step keeps the invariant. */
  lemma StepKeepsInv(s: State, a: Action)
    requires Inv(s) && Enabled(s, a)
    ensures Inv(Apply(s, a))
  {
    match a
    case Tick(d) => TickKeepsInv(s, d);
    case Add(ref, node) => AddKeepsInv(s, ref, node);
    case AddAgain(ref) => AddAgainKeepsInv(s, ref);
    case Unregister(_) =>
    case DropResult(_) =>
    case Stop =>
    case Snapshot(w, list) => SnapshotKeepsInv(s, w, list);
    case Acquire(w) => AcquireKeepsInv(s, w);
    case Probe(w, response) => ProbeKeepsInv(s, w, response);
    case Record(w) => RecordKeepsInv(s, w);
    case Release(w) => ReleaseKeepsInv(s, w);
    case ReadClock(w) => PlainMoveKeepsInv(s, w, Apply(s, a));
    case Store(w) => PlainMoveKeepsInv(s, w, Apply(s, a));
    case Notify(w) => PlainMoveKeepsInv(s, w, Apply(s, a));
    case EndPass(w) => PlainMoveKeepsInv(s, w, Apply(s, a));
    case Exit(w) => PlainMoveKeepsInv(s, w, Apply(s, a));
  }
}
