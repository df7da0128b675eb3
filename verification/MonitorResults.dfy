/** The stored check results, which the status queries return, over every run: each is of the last
    check of its id, and which removed nodes can be reported again. */
module MonitorResults {
  import opened MonitorNode
  import opened MonitorRuns
  import opened MonitorInvariant
  import opened MonitorTheorems

  /** The check is of a node with the id. */
  ghost predicate OfId(objs: map<Ref, Node>, hist: seq<Check>, k: nat, id: int)
    requires k < |hist|
  {
    hist[k].ref in objs && objs[hist[k].ref].id == id
  }

  /** No check after the k-th is of a node with the id. */
  ghost predicate LastOfId(objs: map<Ref, Node>, hist: seq<Check>, k: nat, id: int) {
    forall j: nat :: k < j < |hist| ==> !OfId(objs, hist, j, id)
  }

  /** A worker that has recorded a check and not yet stored its result. */
  ghost predicate ToStoreOk(pc: PC, objs: map<Ref, Node>, hist: seq<Check>) {
    pc.Recorded? ==>
      pc.cur in objs && pc.ev < |hist| && hist[pc.ev].ref == pc.cur && LastOfId(objs, hist, pc.ev, objs[pc.cur].id)
  }

  ghost predicate ToBeStored(pcs: seq<PC>, k: nat) {
    exists w :: 0 <= w < |pcs| && pcs[w].Recorded? && pcs[w].ev == k
  }

  /** The stored result of an id is of a check of it, the last one but for one about to be stored. */
  ghost predicate ResultOk(pcs: seq<PC>, objs: map<Ref, Node>, hist: seq<Check>, id: int, k: nat) {
    && k < |hist| && OfId(objs, hist, k, id)
    && forall j: nat :: k < j < |hist| && OfId(objs, hist, j, id) ==> ToBeStored(pcs, j)
  }

  ghost predicate ResultsInv(s: State) {
    && (forall i :: 0 <= i < |s.hist| ==> s.hist[i].ref in s.objs)
    && (forall w :: 0 <= w < |s.pcs| ==> ToStoreOk(s.pcs[w], s.objs, s.hist))
    && (forall id :: id in s.results ==> ResultOk(s.pcs, s.objs, s.hist, id, s.results[id]))
  }

  /** Steps that record and store nothing, and may extend the objects. */
  lemma OtherStepKeepsResults(s: State, t: State)
    requires ResultsInv(s) && Extends(s.objs, t.objs) && t.hist == s.hist && |t.pcs| == |s.pcs|
    requires forall id :: id in t.results ==> id in s.results && t.results[id] == s.results[id]
    requires forall w :: 0 <= w < |s.pcs| ==> (s.pcs[w].Recorded? || t.pcs[w].Recorded?) ==> t.pcs[w] == s.pcs[w]
    ensures ResultsInv(t)
  {
    forall k: nat, id | k < |s.hist|
      ensures OfId(t.objs, s.hist, k, id) <==> OfId(s.objs, s.hist, k, id)
    {
    }
    forall w | 0 <= w < |t.pcs|
      ensures ToStoreOk(t.pcs[w], t.objs, t.hist)
    {
      assert ToStoreOk(s.pcs[w], s.objs, s.hist);
    }
    forall k | ToBeStored(s.pcs, k)
      ensures ToBeStored(t.pcs, k)
    {
      var w :| 0 <= w < |s.pcs| && s.pcs[w].Recorded? && s.pcs[w].ev == k;
      assert t.pcs[w].Recorded? && t.pcs[w].ev == k;
    }
    hide OfId, ToBeStored;
    forall id | id in t.results
      ensures ResultOk(t.pcs, t.objs, t.hist, id, t.results[id])
    {
      assert ResultOk(s.pcs, s.objs, s.hist, id, s.results[id]);
    }
  }

  lemma OfIdAfterRecord(objs: map<Ref, Node>, objs': map<Ref, Node>, hist: seq<Check>, e: Check, k: nat, id: int)
    requires k < |hist| && hist[k].ref in objs && Extends(objs, objs')
    ensures OfId(objs', hist + [e], k, id) <==> OfId(objs, hist, k, id)
  {
  }

  /** Recording a check leaves the earlier ones with their ids. */
  lemma IdsAfterRecord(s: State, w: nat)
    requires ResultsInv(s) && Enabled(s, Record(w))
    ensures var t, n := Apply(s, Record(w)), |s.hist|;
      && |t.hist| == n + 1 && Extends(s.objs, t.objs)
      && (forall k: nat, id :: k < n ==> (OfId(t.objs, t.hist, k, id) <==> OfId(s.objs, s.hist, k, id)))
      && (forall id :: OfId(t.objs, t.hist, n, id) <==> id == s.objs[s.pcs[w].cur].id)
  {
    var pc, t := s.pcs[w], Apply(s, Record(w));
    forall k: nat, id | k < |s.hist|
      ensures OfId(t.objs, t.hist, k, id) <==> OfId(s.objs, s.hist, k, id)
    {
      OfIdAfterRecord(s.objs, t.objs, s.hist, Check(w, pc.cur, pc.status, pc.ts, pc.job.pos), k, id);
    }
  }

  lemma ToStoreOn(pc: PC, objs: map<Ref, Node>, objs': map<Ref, Node>, hist: seq<Check>, hist': seq<Check>)
    requires ToStoreOk(pc, objs, hist) && Extends(objs, objs') && |hist'| == |hist| + 1 && hist <= hist'
    requires forall k: nat, id :: k < |hist| ==> (OfId(objs', hist', k, id) <==> OfId(objs, hist, k, id))
    requires pc.Recorded? && pc.cur in objs ==> !OfId(objs', hist', |hist|, objs[pc.cur].id)
    ensures ToStoreOk(pc, objs', hist')
  {
    hide OfId;
  }

  lemma RecordKeepsToStore(s: State, w: nat, v: nat)
    requires Guarded(s.pcs, s.objs, s.checking) && AllKnow(s.pcs, s.objs)
    requires ResultsInv(s) && Enabled(s, Record(w)) && v < |s.pcs|
    ensures var t := Apply(s, Record(w)); ToStoreOk(t.pcs[v], t.objs, t.hist)
  {
    IdsAfterRecord(s, w);
    assert ToStoreOk(s.pcs[v], s.objs, s.hist);
    hide OfId, Observe;
    if v != w {
      if s.pcs[v].Recorded? {
        OthersOnOtherNodes(s, v, w);
      }
      hide Guarded, AllKnow, ResultsInv;
      var t := Apply(s, Record(w));
      ToStoreOn(s.pcs[v], s.objs, t.objs, s.hist, t.hist);
    }
  }

  lemma ResultOkOn(pcs: seq<PC>, pcs': seq<PC>, objs: map<Ref, Node>, objs': map<Ref, Node>,
                   hist: seq<Check>, hist': seq<Check>, id: int, k: nat, w: nat)
    requires ResultOk(pcs, objs, hist, id, k) && |hist'| == |hist| + 1
    requires forall j: nat :: j < |hist| ==> (OfId(objs', hist', j, id) <==> OfId(objs, hist, j, id))
    requires |pcs'| == |pcs| && forall v :: 0 <= v < |pcs| && pcs[v].Recorded? ==> pcs'[v] == pcs[v]
    requires w < |pcs'| && pcs'[w].Recorded? && pcs'[w].ev == |hist|
    ensures ResultOk(pcs', objs', hist', id, k)
  {
    hide OfId;
    forall j: nat | k < j < |hist'| && OfId(objs', hist', j, id)
      ensures ToBeStored(pcs', j)
    {
      if j < |hist| {
        assert ToBeStored(pcs, j);
        var v :| 0 <= v < |pcs| && pcs[v].Recorded? && pcs[v].ev == j;
        assert pcs'[v].Recorded? && pcs'[v].ev == j;
      }
    }
  }

  lemma RecordKeepsResultOk(s: State, w: nat, id: int)
    requires ResultsInv(s) && Enabled(s, Record(w)) && id in s.results
    ensures var t := Apply(s, Record(w)); ResultOk(t.pcs, t.objs, t.hist, id, t.results[id])
  {
    var t := Apply(s, Record(w));
    IdsAfterRecord(s, w);
    assert ResultOk(s.pcs, s.objs, s.hist, id, s.results[id]);
    hide OfId, Observe, ResultsInv, ResultOk;
    ResultOkOn(s.pcs, t.pcs, s.objs, t.objs, s.hist, t.hist, id, s.results[id], w);
  }

  lemma RecordKeepsResults(s: State, w: nat)
    requires Inv(s) && ResultsInv(s) && Enabled(s, Record(w))
    ensures ResultsInv(Apply(s, Record(w)))
  {
    var t := Apply(s, Record(w));
    AllWorkersKnow(s.pcs, s.clock, s.objs, s.hist);
    hide ToStoreOk, ResultOk, Observe, Guarded, WorkersOk, HistoryOk, Registered, AllKnow;
    forall v | 0 <= v < |t.pcs|
      ensures ToStoreOk(t.pcs[v], t.objs, t.hist)
    {
      RecordKeepsToStore(s, w, v);
    }
    forall id | id in t.results
      ensures ResultOk(t.pcs, t.objs, t.hist, id, t.results[id])
    {
      RecordKeepsResultOk(s, w, id);
    }
  }

  lemma StoreKeepsResults(s: State, w: nat)
    requires ResultsInv(s) && Enabled(s, Store(w))
    ensures ResultsInv(Apply(s, Store(w)))
  {
    var pc, t := s.pcs[w], Apply(s, Store(w));
    assert ToStoreOk(pc, s.objs, s.hist);
    forall v | 0 <= v < |t.pcs|
      ensures ToStoreOk(t.pcs[v], t.objs, t.hist)
    {
      assert ToStoreOk(s.pcs[v], s.objs, s.hist);
    }
    forall id | id in t.results
      ensures ResultOk(t.pcs, t.objs, t.hist, id, t.results[id])
    {
      if id != s.objs[pc.cur].id {
        assert ResultOk(s.pcs, s.objs, s.hist, id, s.results[id]);
        forall j: nat | s.results[id] < j < |t.hist| && OfId(t.objs, t.hist, j, id)
          ensures ToBeStored(t.pcs, j)
        {
          var v :| 0 <= v < |s.pcs| && s.pcs[v].Recorded? && s.pcs[v].ev == j;
          assert t.pcs[v].Recorded? && t.pcs[v].ev == j;
        }
      }
    }
  }

  /** A worker moves, and neither leaves nor reaches the point between recording and storing. */
  lemma MoveKeepsResults(s: State, t: State, w: nat)
    requires ResultsInv(s) && w < |s.pcs| == |t.pcs| && t.pcs == s.pcs[w := t.pcs[w]]
    requires t.objs == s.objs && t.hist == s.hist && t.results == s.results
    requires !s.pcs[w].Recorded? && !t.pcs[w].Recorded?
    ensures ResultsInv(t)
  {
    hide ResultsInv;
    OtherStepKeepsResults(s, t);
  }

  lemma AddKeepsResults(s: State, ref: Ref, node: Node)
    requires ResultsInv(s) && Enabled(s, Add(ref, node))
    ensures ResultsInv(Apply(s, Add(ref, node)))
  {
    hide ResultsInv;
    OtherStepKeepsResults(s, Apply(s, Add(ref, node)));
  }

  /** Steps of the clock, of callers that remove or register again, and of the one that stops. */
  lemma EnvironmentKeepsResults(s: State, t: State)
    requires ResultsInv(s)
    requires t == s.(clock := t.clock, nodes := t.nodes, results := t.results, removing := t.removing, stopped := t.stopped)
    requires forall id :: id in t.results ==> id in s.results && t.results[id] == s.results[id]
    ensures ResultsInv(t)
  {
    hide ResultsInv;
    OtherStepKeepsResults(s, t);
  }

  lemma AcquireKeepsResults(s: State, w: nat)
    requires ResultsInv(s) && Enabled(s, Acquire(w))
    ensures ResultsInv(Apply(s, Acquire(w)))
  {
    hide ResultsInv;
    MoveKeepsResults(s, Apply(s, Acquire(w)), w);
  }

  lemma StepKeepsResults(s: State, a: Action)
    requires Inv(s) && ResultsInv(s) && Enabled(s, a)
    ensures ResultsInv(Apply(s, a))
  {
    hide Inv, ResultsInv, IsSnapshot, Decide, Observe, Classify, Normalize;
    match a
    case Tick(_) => EnvironmentKeepsResults(s, Apply(s, a));
    case Add(ref, node) => AddKeepsResults(s, ref, node);
    case AddAgain(ref) =>
      AddAgainKeepsInv(s, ref);
      EnvironmentKeepsResults(s, Apply(s, a));
    case Unregister(_) => EnvironmentKeepsResults(s, Apply(s, a));
    case DropResult(_) => EnvironmentKeepsResults(s, Apply(s, a));
    case Stop => EnvironmentKeepsResults(s, Apply(s, a));
    case Record(w) => RecordKeepsResults(s, w);
    case Store(w) => StoreKeepsResults(s, w);
    case Acquire(w) => AcquireKeepsResults(s, w);
    case ReadClock(w) => MoveKeepsResults(s, Apply(s, a), w);
    case Snapshot(w, _) => MoveKeepsResults(s, Apply(s, a), w);
    case Probe(w, _) => MoveKeepsResults(s, Apply(s, a), w);
    case Notify(w) => MoveKeepsResults(s, Apply(s, a), w);
    case Release(w) => MoveKeepsResults(s, Apply(s, a), w);
    case EndPass(w) => MoveKeepsResults(s, Apply(s, a), w);
    case Exit(w) => MoveKeepsResults(s, Apply(s, a), w);
  }

  lemma {:induction false} RunKeepsResults(s: State, actions: seq<Action>, t: State)
    requires Inv(s) && ResultsInv(s) && Runs(s, actions, t)
    ensures ResultsInv(t)
    decreases |actions|
  {
    if actions != [] {
      StepKeepsInv(s, actions[0]);
      StepKeepsResults(s, actions[0]);
      RunKeepsResults(Apply(s, actions[0]), actions[1..], t);
    }
  }

  /** Over every run: the result that a status query returns for an id is of a check of that id,
      and every later check of the id has been recorded by a worker that is about to store it. */
  lemma StatusIsOfLastCheck(config: Config, clock: int, workers: nat, actions: seq<Action>, t: State, id: int)
    requires Runs(Init(config, clock, workers), actions, t) && id in t.results
    ensures ResultOk(t.pcs, t.objs, t.hist, id, t.results[id])
  {
    InitInv(config, clock, workers);
    RunKeepsResults(Init(config, clock, workers), actions, t);
  }

  // ----- removed nodes -----

  /** The worker can still store a result for the id: it has a node with the id to check or is
      checking it, or has recorded the check and is about to store the result. */
  ghost predicate HoldsId(pc: PC, objs: map<Ref, Node>, id: int) {
    || (exists r :: r in Pending(pc) && r in objs && objs[r].id == id)
    || (pc.Recorded? && pc.cur in objs && objs[pc.cur].id == id)
  }

  /** The id is not registered, has no result, and no worker can still store one for it. */
  ghost predicate Forgotten(s: State, id: int) {
    id !in s.nodes && id !in s.results && forall w :: 0 <= w < |s.pcs| ==> !HoldsId(s.pcs[w], s.objs, id)
  }

  /** The caller registers a node with the id. */
  ghost predicate Registers(s: State, a: Action, id: int) {
    (a.Add? && a.node.id == id) || (a.AddAgain? && a.ref in s.objs && s.objs[a.ref].id == id)
  }

  /** A worker that moves on with the nodes it had. */
  lemma HoldsNoNewId(pc: PC, pc': PC, objs: map<Ref, Node>, id: int)
    requires Knows(pc, objs) && !HoldsId(pc, objs, id)
    requires forall r :: r in Pending(pc') ==> r in Pending(pc)
    requires pc'.Recorded? ==> pc'.cur in Pending(pc) || (pc.Recorded? && pc'.cur == pc.cur)
    ensures !HoldsId(pc', objs, id)
  {
    forall r | r in Pending(pc')
      ensures r in objs && objs[r].id != id
    {
      assert r in Pending(pc);
    }
    if pc'.Recorded? && pc'.cur in Pending(pc) {
      assert pc'.cur in objs && objs[pc'.cur].id != id;
    }
  }

  lemma SameHolder(pc: PC, objs: map<Ref, Node>, objs': map<Ref, Node>, id: int)
    requires Knows(pc, objs) && Extends(objs, objs') && !HoldsId(pc, objs, id)
    ensures !HoldsId(pc, objs', id)
  {
  }

  /** One worker moves on with the nodes it had, or with none. */
  lemma MoveForgets(s: State, t: State, w: nat, id: int)
    requires Inv(s) && Forgotten(s, id) && w < |s.pcs| == |t.pcs| && t.pcs == s.pcs[w := t.pcs[w]]
    requires t.objs == s.objs && t.nodes == s.nodes
    requires forall k :: k in t.results ==> k in s.results || (s.pcs[w].Recorded? && Guards(s.pcs[w], s.objs, k))
    requires var pc, pc' := s.pcs[w], t.pcs[w];
      && (forall r :: r in Pending(pc') ==> r in Pending(pc))
      && (pc'.Recorded? ==> pc'.cur in Pending(pc) || (pc.Recorded? && pc'.cur == pc.cur))
    ensures Forgotten(t, id)
  {
    AllWorkersKnow(s.pcs, s.clock, s.objs, s.hist);
    assert Knows(s.pcs[w], s.objs) && !HoldsId(s.pcs[w], s.objs, id);
    hide Inv, Pending;
    HoldsNoNewId(s.pcs[w], t.pcs[w], s.objs, id);
  }

  lemma RecordedHolds(pc: PC, pc': PC)
    requires pc.Stamped? && pc'.Recorded? && pc'.cur == pc.cur && pc'.job == pc.job
    ensures forall r :: r in Pending(pc') ==> r in Pending(pc)
  {
  }

  lemma RecordForgets(s: State, w: nat, id: int)
    requires Inv(s) && Forgotten(s, id) && Enabled(s, Record(w))
    ensures Forgotten(Apply(s, Record(w)), id)
  {
    var t := Apply(s, Record(w));
    AllWorkersKnow(s.pcs, s.clock, s.objs, s.hist);
    hide Inv;
    forall v | 0 <= v < |t.pcs|
      ensures !HoldsId(t.pcs[v], t.objs, id)
    {
      assert Knows(s.pcs[v], s.objs) && !HoldsId(s.pcs[v], s.objs, id);
      SameHolder(s.pcs[v], s.objs, t.objs, id);
      if v == w {
        assert Knows(s.pcs[v], t.objs);
        RecordedHolds(s.pcs[v], t.pcs[v]);
        HoldsNoNewId(s.pcs[v], t.pcs[v], t.objs, id);
      }
    }
  }

  lemma ProbingHolds(pc: PC, cur: Ref, next: Job)
    requires pc.Looping? && pc.job.rest != [] && cur == pc.job.rest[0] && next == pc.job.(rest := pc.job.rest[1..])
    ensures cur in Pending(pc)
    ensures forall r :: r in Pending(Looping(next)) ==> r in Pending(pc)
    ensures forall r :: r in Pending(Probing(cur, next)) ==> r in Pending(pc)
  {
  }

  lemma AcquireForgets(s: State, w: nat, id: int)
    requires Inv(s) && Forgotten(s, id) && Enabled(s, Acquire(w))
    ensures Forgotten(Apply(s, Acquire(w)), id)
  {
    var pc := s.pcs[w];
    var cur, next := pc.job.rest[0], pc.job.(rest := pc.job.rest[1..]);
    ProbingHolds(pc, cur, next);
    hide Inv, Pending, Forgotten, Guards;
    if s.objs[cur].id in s.checking {
      MoveForgets(s, At(s, w, Looping(next)), w, id);
    } else {
      var t := At(s, w, Probing(cur, next)).(checking := s.checking + {s.objs[cur].id});
      MoveForgets(s, t, w, id);
    }
  }

  lemma AddForgets(s: State, ref: Ref, node: Node, id: int)
    requires Inv(s) && Forgotten(s, id) && Enabled(s, Add(ref, node)) && node.id != id
    ensures Forgotten(Apply(s, Add(ref, node)), id)
  {
    var t := Apply(s, Add(ref, node));
    AllWorkersKnow(s.pcs, s.clock, s.objs, s.hist);
    hide Inv;
    forall v | 0 <= v < |t.pcs|
      ensures !HoldsId(t.pcs[v], t.objs, id)
    {
      assert Knows(s.pcs[v], s.objs) && !HoldsId(s.pcs[v], s.objs, id);
      SameHolder(s.pcs[v], s.objs, t.objs, id);
    }
  }

  lemma SnapshotForgets(s: State, w: nat, list: seq<Ref>, id: int)
    requires Inv(s) && Forgotten(s, id) && Enabled(s, Snapshot(w, list))
    ensures Forgotten(Apply(s, Snapshot(w, list)), id)
  {
    forall r | r in list
      ensures r in s.objs && s.objs[r].id != id
    {
      assert IsRegistered(s, r);
    }
    assert !HoldsId(Apply(s, Snapshot(w, list)).pcs[w], s.objs, id);
  }

  lemma PlainMoveForgets(s: State, a: Action, id: int)
    requires Inv(s) && Enabled(s, a) && Forgotten(s, id)
    requires a.ReadClock? || a.Probe? || a.Store? || a.Notify? || a.Release? || a.EndPass? || a.Exit?
    ensures Forgotten(Apply(s, a), id)
  {
    hide Inv, Forgotten, Decide, Classify;
    match a
    case ReadClock(w) => MoveForgets(s, Apply(s, a), w, id);
    case Probe(w, _) => MoveForgets(s, Apply(s, a), w, id);
    case Store(w) => MoveForgets(s, Apply(s, a), w, id);
    case Notify(w) => MoveForgets(s, Apply(s, a), w, id);
    case Release(w) => MoveForgets(s, Apply(s, a), w, id);
    case EndPass(w) => MoveForgets(s, Apply(s, a), w, id);
    case Exit(w) => MoveForgets(s, Apply(s, a), w, id);
  }

  lemma ForgottenStep(s: State, a: Action, id: int)
    requires Inv(s) && Enabled(s, a) && Forgotten(s, id) && !Registers(s, a, id)
    ensures Forgotten(Apply(s, a), id)
  {
    match a
    case Add(ref, node) => AddForgets(s, ref, node, id);
    case AddAgain(ref) => AddAgainKeepsInv(s, ref);
    case Tick(_) =>
    case Unregister(_) =>
    case DropResult(_) =>
    case Stop =>
    case Record(w) => RecordForgets(s, w, id);
    case Acquire(w) => AcquireForgets(s, w, id);
    case Snapshot(w, list) => SnapshotForgets(s, w, list, id);
    case _ => PlainMoveForgets(s, a, id);
  }

  /** The run registers no node with the id. */
  ghost predicate NeverRegisters(s: State, actions: seq<Action>, id: int)
    decreases |actions|
  {
    actions != [] && Enabled(s, actions[0]) ==>
      !Registers(s, actions[0], id) && NeverRegisters(Apply(s, actions[0]), actions[1..], id)
  }

  /** Once no worker can store a result for a removed id, no later step does, until a caller
      registers it again. */
  lemma {:induction false} RemovedStaysForgotten(s: State, actions: seq<Action>, t: State, id: int)
    requires Inv(s) && Forgotten(s, id) && Runs(s, actions, t) && NeverRegisters(s, actions, id)
    ensures Forgotten(t, id) && id !in t.results
    decreases |actions|
  {
    if actions != [] {
      StepKeepsInv(s, actions[0]);
      ForgottenStep(s, actions[0], id);
      RemovedStaysForgotten(Apply(s, actions[0]), actions[1..], t, id);
    }
  }

  /** Some run that never registers the id ends with a result for it. */
  ghost predicate CanReport(s: State, id: int) {
    exists actions, t :: Runs(s, actions, t) && NeverRegisters(s, actions, id) && id in t.results
  }

  lemma ReportAfter(s: State, a: Action, id: int)
    requires Enabled(s, a) && !Registers(s, a, id) && CanReport(Apply(s, a), id)
    ensures CanReport(s, id)
  {
    hide Enabled, Apply, Registers;
    var rest, t :| Runs(Apply(s, a), rest, t) && NeverRegisters(Apply(s, a), rest, id) && id in t.results;
    assert ([a] + rest)[0] == a && ([a] + rest)[1..] == rest;
    assert Runs(s, [a] + rest, t) && NeverRegisters(s, [a] + rest, id);
  }

  lemma ReportNow(s: State, id: int)
    requires id in s.results
    ensures CanReport(s, id)
  {
    assert Runs(s, [], s) && NeverRegisters(s, [], id);
  }

  /** How far a worker in a pass is from taking up the next node. */
  function Phase(pc: PC): nat {
    match pc
    case Probing(_, _) => 5
    case Stamped(_, _, _, _) => 4
    case Recorded(_, _, _, _, _) => 3
    case Stored(_, _, _, _, _) => 2
    case Notified(_, _) => 1
    case _ => 0
  }

  /** The next step of a worker past the guard. */
  function NextStep(w: nat, pc: PC): Action
    requires InFlight(pc)
  {
    match pc
    case Probing(_, _) => Probe(w, ProbePassed(0))
    case Stamped(_, _, _, _) => Record(w)
    case Recorded(_, _, _, _, _) => Store(w)
    case Stored(_, _, _, _, _) => Notify(w)
    case Notified(_, _) => Release(w)
  }

  /** A worker past the guard has moved on, with the same node until it left the guard. */
  ghost predicate MovedOn(s: State, w: nat, t: State)
    requires w < |s.pcs| && InFlight(s.pcs[w])
  {
    var pc := s.pcs[w];
    && |t.pcs| == |s.pcs| && Extends(s.objs, t.objs) && pc.cur in s.objs
    && (forall v :: 0 <= v < |s.pcs| && v != w ==> t.pcs[v] == s.pcs[v])
    && HasJob(t.pcs[w]) && t.pcs[w].job == pc.job && Phase(t.pcs[w]) + 1 == Phase(pc)
    && (InFlight(t.pcs[w]) ==> t.pcs[w].cur == pc.cur)
    && t.checking == if pc.Notified? then s.checking - {s.objs[pc.cur].id} else s.checking
  }

  lemma SameObjs(objs: map<Ref, Node>)
    ensures Extends(objs, objs)
  {
  }

  lemma ProbeMoves(s: State, w: nat)
    requires w < |s.pcs| && s.pcs[w].Probing? && s.pcs[w].cur in s.objs
    ensures Enabled(s, Probe(w, ProbePassed(0))) && MovedOn(s, w, Apply(s, Probe(w, ProbePassed(0))))
  {
    SameObjs(s.objs);
    hide Classify, Extends;
  }

  lemma RecordMoves(s: State, w: nat)
    requires w < |s.pcs| && s.pcs[w].Stamped? && s.pcs[w].cur in s.objs
    ensures Enabled(s, Record(w)) && MovedOn(s, w, Apply(s, Record(w)))
  {
  }

  lemma StoreMoves(s: State, w: nat)
    requires w < |s.pcs| && s.pcs[w].Recorded? && s.pcs[w].cur in s.objs
    ensures Enabled(s, Store(w)) && MovedOn(s, w, Apply(s, Store(w)))
    ensures s.objs[s.pcs[w].cur].id in Apply(s, Store(w)).results
  {
    SameObjs(s.objs);
    hide Extends;
  }

  lemma NotifyMoves(s: State, w: nat)
    requires w < |s.pcs| && s.pcs[w].Stored? && s.pcs[w].cur in s.objs
    ensures Enabled(s, Notify(w)) && MovedOn(s, w, Apply(s, Notify(w)))
  {
    SameObjs(s.objs);
    hide Decide, Extends;
  }

  lemma ReleaseMoves(s: State, w: nat)
    requires w < |s.pcs| && s.pcs[w].Notified? && s.pcs[w].cur in s.objs
    ensures Enabled(s, Release(w)) && MovedOn(s, w, Apply(s, Release(w)))
  {
    SameObjs(s.objs);
    hide Extends;
  }

  lemma MoveOn(s: State, w: nat)
    requires w < |s.pcs| && InFlight(s.pcs[w]) && s.pcs[w].cur in s.objs
    ensures var a := NextStep(w, s.pcs[w]); Enabled(s, a) && MovedOn(s, w, Apply(s, a))
  {
    hide Enabled, Apply, MovedOn;
    match s.pcs[w]
    case Probing(_, _) => ProbeMoves(s, w);
    case Stamped(_, _, _, _) => RecordMoves(s, w);
    case Recorded(_, _, _, _, _) => StoreMoves(s, w);
    case Stored(_, _, _, _, _) => NotifyMoves(s, w);
    case Notified(_, _) => ReleaseMoves(s, w);
  }

  /** It can always move on. */
  lemma MovesOn(s: State, w: nat, id: int)
    requires Inv(s) && w < |s.pcs| && InFlight(s.pcs[w])
    ensures var a := NextStep(w, s.pcs[w]);
      Enabled(s, a) && !Registers(s, a, id) && Inv(Apply(s, a)) && MovedOn(s, w, Apply(s, a))
  {
    AllWorkersKnow(s.pcs, s.clock, s.objs, s.hist);
    assert Knows(s.pcs[w], s.objs);
    hide Inv, Enabled, Apply, MovedOn, Knows;
    MoveOn(s, w);
    StepKeepsInv(s, NextStep(w, s.pcs[w]));
  }

  /** A worker that checks a node of the id, or is about to store the result, stores it. */
  lemma {:induction false} StoresCurrent(s: State, w: nat, id: int)
    requires Inv(s) && w < |s.pcs| && Phase(s.pcs[w]) >= 3 && s.pcs[w].cur in s.objs && s.objs[s.pcs[w].cur].id == id
    ensures CanReport(s, id)
    decreases Phase(s.pcs[w])
  {
    var a := NextStep(w, s.pcs[w]);
    MovesOn(s, w, id);
    hide Inv, Apply, Enabled, CanReport, Registers;
    if s.pcs[w].Recorded? {
      StoreMoves(s, w);
      ReportNow(Apply(s, a), id);
    } else {
      StoresCurrent(Apply(s, a), w, id);
    }
    ReportAfter(s, a, id);
  }

  /** The worker's next node is of the id. */
  ghost predicate AboutToTake(s: State, w: nat, id: int) {
    && w < |s.pcs| && s.pcs[w].Looping? && s.pcs[w].job.rest != []
    && s.pcs[w].job.rest[0] in s.objs && s.objs[s.pcs[w].job.rest[0]].id == id
  }

  lemma TakenUp(s: State, w: nat, job: Job)
    requires w < |s.pcs| && job.rest != [] && job.rest[0] in s.objs
    ensures var t := Taken(s, w, job);
      t.objs == s.objs && |t.pcs| == |s.pcs| && HasJob(t.pcs[w]) && t.pcs[w].job.rest == job.rest[1..]
    ensures s.objs[job.rest[0]].id !in s.checking ==>
      Taken(s, w, job).pcs[w].Probing? && Taken(s, w, job).pcs[w].cur == job.rest[0]
  {
  }

  lemma NoRegistering(s: State, w: nat, id: int)
    ensures !Registers(s, Acquire(w), id)
  {
  }

  lemma TakesFree(s: State, w: nat, id: int)
    requires Inv(s) && AboutToTake(s, w, id) && id !in s.checking
    ensures CanReport(s, id)
  {
    assert Enabled(s, Acquire(w));
    hide Inv, CanReport, Apply, Enabled, Registers, Taken;
    assert !Registers(s, Acquire(w), id) by { NoRegistering(s, w, id); }
    AcquireKeepsInv(s, w);
    AcquireIsTaken(s, w);
    TakenUp(s, w, s.pcs[w].job);
    StoresCurrent(Apply(s, Acquire(w)), w, id);
    ReportAfter(s, Acquire(w), id);
  }

  /** A worker that is done with storing leaves the guard first. */
  lemma {:induction false} TakesAfter(s: State, w: nat, u: nat, id: int)
    requires Inv(s) && AboutToTake(s, w, id) && u < |s.pcs| && Guards(s.pcs[u], s.objs, id)
    ensures CanReport(s, id)
    decreases Phase(s.pcs[u])
  {
    if Phase(s.pcs[u]) >= 3 {
      StoresCurrent(s, u, id);
    } else {
      var a := NextStep(u, s.pcs[u]);
      MovesOn(s, u, id);
      var t := Apply(s, a);
      hide Inv, CanReport, Apply, Enabled, Registers;
      assert AboutToTake(t, w, id);
      if s.pcs[u].Notified? {
        TakesFree(t, w, id);
      } else {
        TakesAfter(t, w, u, id);
      }
      ReportAfter(s, a, id);
    }
  }

  lemma Takes(s: State, w: nat, id: int)
    requires Inv(s) && AboutToTake(s, w, id)
    ensures CanReport(s, id)
  {
    if id in s.checking {
      var u :| 0 <= u < |s.pcs| && Guards(s.pcs[u], s.objs, id);
      TakesAfter(s, w, u, id);
    } else {
      TakesFree(s, w, id);
    }
  }

  lemma InTail(rest: seq<Ref>, r: Ref)
    requires r in rest && rest[0] != r
    ensures r in rest[1..]
  {
    assert rest == [rest[0]] + rest[1..];
  }

  /** Passing over a node of another id. */
  lemma PassesOver(s: State, w: nat, r: Ref, id: int)
    requires Inv(s) && w < |s.pcs| && s.pcs[w].Looping? && r in s.pcs[w].job.rest && r in s.objs && s.objs[r].id == id
    requires !AboutToTake(s, w, id)
    ensures Enabled(s, Acquire(w)) && !Registers(s, Acquire(w), id)
    ensures var t := Apply(s, Acquire(w));
      && Inv(t) && t.objs == s.objs && |t.pcs| == |s.pcs| && HasJob(t.pcs[w])
      && r in t.pcs[w].job.rest && |t.pcs[w].job.rest| < |s.pcs[w].job.rest|
  {
    AllWorkersKnow(s.pcs, s.clock, s.objs, s.hist);
    assert Knows(s.pcs[w], s.objs);
    var rest := s.pcs[w].job.rest;
    assert rest[0] in Pending(s.pcs[w]);
    InTail(rest, r);
    assert Enabled(s, Acquire(w));
    hide Inv, Knows, Apply, Enabled, Taken;
    AcquireKeepsInv(s, w);
    AcquireIsTaken(s, w);
    TakenUp(s, w, s.pcs[w].job);
  }

  /** A worker that has a node of the id in the rest of its pass comes to store a result for it. */
  lemma {:induction false} StoresLater(s: State, w: nat, r: Ref, id: int)
    requires Inv(s) && w < |s.pcs| && HasJob(s.pcs[w]) && r in s.pcs[w].job.rest && r in s.objs && s.objs[r].id == id
    ensures CanReport(s, id)
    decreases |s.pcs[w].job.rest|, Phase(s.pcs[w])
  {
    hide Inv, CanReport, Apply, Enabled, Registers;
    if AboutToTake(s, w, id) {
      Takes(s, w, id);
    } else if s.pcs[w].Looping? {
      PassesOver(s, w, r, id);
      StoresLater(Apply(s, Acquire(w)), w, r, id);
      ReportAfter(s, Acquire(w), id);
    } else {
      var a := NextStep(w, s.pcs[w]);
      MovesOn(s, w, id);
      StoresLater(Apply(s, a), w, r, id);
      ReportAfter(s, a, id);
    }
  }

  lemma HolderStores(s: State, w: nat, id: int)
    requires Inv(s) && w < |s.pcs| && HoldsId(s.pcs[w], s.objs, id)
    ensures CanReport(s, id)
  {
    var pc := s.pcs[w];
    if Phase(pc) >= 3 && pc.cur in s.objs && s.objs[pc.cur].id == id {
      StoresCurrent(s, w, id);
    } else {
      var r :| r in Pending(pc) && r in s.objs && s.objs[r].id == id;
      assert r in pc.job.rest;
      StoresLater(s, w, r, id);
    }
  }

  /** For an id that is not registered and has no result: some run brings one without a caller
      registering the id, exactly when a worker can still store one for it. */
  lemma ReportedIff(s: State, id: int)
    requires Inv(s) && id !in s.nodes && id !in s.results
    ensures CanReport(s, id) <==> exists w :: 0 <= w < |s.pcs| && HoldsId(s.pcs[w], s.objs, id)
  {
    hide Inv, HoldsId;
    if w :| 0 <= w < |s.pcs| && HoldsId(s.pcs[w], s.objs, id) {
      HolderStores(s, w, id);
    } else if CanReport(s, id) {
      var actions, t :| Runs(s, actions, t) && NeverRegisters(s, actions, id) && id in t.results;
      RemovedStaysForgotten(s, actions, t, id);
    }
  }

  /** In every state that the service can reach, when a removal ends and its id has not been
      registered again in the meantime: the status of the id can come back without a caller
      registering it again exactly when a worker still has a node of the id to check, is checking
      one, or has yet to store the result. */
  lemma RemovedReportedIff(config: Config, clock: int, workers: nat, before: seq<Action>, s: State, id: int)
    requires Runs(Init(config, clock, workers), before, s) && id in s.removing && id !in s.nodes
    ensures CanReport(Apply(s, DropResult(id)), id) <==> exists w :: 0 <= w < |s.pcs| && HoldsId(s.pcs[w], s.objs, id)
  {
    InitInv(config, clock, workers);
    RunKeepsInv(Init(config, clock, workers), before, s);
    StepKeepsInv(s, DropResult(id));
    hide Inv, HoldsId, CanReport;
    ReportedIff(Apply(s, DropResult(id)), id);
  }

  /** A whole removal. */
  lemma RemoveOne(s: State, t: State) returns (u: State)
    requires Reaches(s, t)
    ensures Reaches(s, u) && u == t.(nodes := t.nodes - {1}, results := t.results - {1}, removing := t.removing)
  {
    hide Reaches, IsSnapshot;
    ReachesNext(s, t, Unregister(1));
    u := Apply(t, Unregister(1));
    ReachesNext(s, u, DropResult(1));
    u := Apply(u, DropResult(1));
    assert u.removing == t.removing;
  }

  /** While a worker holds it, removing a node does not keep its status from being stored again:
      a run that ends with a result for an id that was removed and is not registered. */
  lemma RemovedNodeReported(config: Config)
    ensures exists t: State :: Reaches(Init(config, 0, 1), t) && 1 in t.results && 1 !in t.nodes
  {
    var s := Init(config, 0, 1);
    ReachesSelf(s);
    var n := Node(1, 1, 1, Up, -1, -1, 0);
    ReachesNext(s, s, Add(0, n));
    var t := LoadOne(s, Apply(s, Add(0, n)), 1, 0);
    hide Reaches;
    t := RemoveOne(s, t);
    t := RecordOne(s, t, 1, 0);
    ReachesNext(s, t, Store(0));
    t := Apply(t, Store(0));
  }
}
