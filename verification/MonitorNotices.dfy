/** The notices that the monitoring service sends, over every run of its workers: each is the one
    that the node's own history calls for, although it is decided after the lock is released. */
module MonitorNotices {
  import opened MonitorNode
  import opened MonitorRuns
  import opened MonitorInvariant

  /** The node after the checks of a history that are of it. */
  ghost function NodeAfter(n: Node, hist: seq<Check>, r: Ref): Node {
    if hist == [] then n
    else
      var e := hist[|hist| - 1];
      var before := NodeAfter(n, hist[..|hist| - 1], r);
      if e.ref == r then Observe(before, e.status, e.ts) else before
  }

  ghost predicate NotOf(hist: seq<Check>, r: Ref, pos: nat) {
    forall i :: pos <= i < |hist| ==> hist[i].ref != r
  }

  lemma {:induction false} NodeAfterSkip(n: Node, hist: seq<Check>, r: Ref, pos: nat)
    requires pos <= |hist| && NotOf(hist, r, pos)
    ensures NodeAfter(n, hist, r) == NodeAfter(n, hist[..pos], r)
  {
    if pos < |hist| {
      var init := hist[..|hist| - 1];
      NodeAfterSkip(n, init, r, pos);
      assert init[..pos] == hist[..pos];
    } else {
      assert hist[..pos] == hist;
    }
  }

  lemma NodeAfterSnoc(n: Node, hist: seq<Check>, e: Check, r: Ref)
    ensures NodeAfter(n, hist + [e], r)
      == if e.ref == r then Observe(NodeAfter(n, hist, r), e.status, e.ts) else NodeAfter(n, hist, r)
  {
    assert (hist + [e])[..|hist|] == hist;
  }

  /** The objects are what the history made of them. */
  ghost predicate ObjsTrack(objs: map<Ref, Node>, first: map<Ref, Node>, hist: seq<Check>) {
    && first.Keys == objs.Keys
    && (forall i :: 0 <= i < |hist| ==> hist[i].ref in objs)
    && forall r :: r in objs ==> objs[r] == NodeAfter(first[r], hist, r)
  }

  /** A worker between recording and notifying: its check is the last of its node. */
  ghost predicate RecorderTracks(pc: PC, first: map<Ref, Node>, hist: seq<Check>, notices: map<nat, Notice>) {
    Recording(pc) ==>
      && pc.ev < |hist| && pc.ev !in notices && hist[pc.ev].ref == pc.cur && hist[pc.ev].status == pc.status
      && pc.cur in first && pc.previous == NodeAfter(first[pc.cur], hist[..pc.ev], pc.cur).status
      && NotOf(hist, pc.cur, pc.ev + 1)
  }

  ghost predicate NoticeOk(first: map<Ref, Node>, hist: seq<Check>, notices: map<nat, Notice>, k: nat) {
    && k in notices && k < |hist| && hist[k].ref in first
    && notices[k] == NoticeFor(NodeAfter(first[hist[k].ref], hist[..k], hist[k].ref), hist[k].status)
  }

  /** The check is on its way to the notifier. */
  ghost predicate OnItsWay(pcs: seq<PC>, k: nat) {
    exists w :: 0 <= w < |pcs| && Recording(pcs[w]) && pcs[w].ev == k
  }

  ghost predicate NoticeInv(s: State) {
    && ObjsTrack(s.objs, s.first, s.hist)
    && (forall w :: 0 <= w < |s.pcs| ==> RecorderTracks(s.pcs[w], s.first, s.hist, s.notices))
    && (forall v, w :: 0 <= v < w < |s.pcs| && Recording(s.pcs[v]) && Recording(s.pcs[w]) ==> s.pcs[v].ev != s.pcs[w].ev)
    && (forall k :: k in s.notices ==> NoticeOk(s.first, s.hist, s.notices, k))
    && (forall k: nat :: k < |s.hist| ==> k in s.notices || OnItsWay(s.pcs, k))
  }

  lemma InitNoticeInv(config: Config, clock: int, workers: nat)
    ensures NoticeInv(Init(config, clock, workers))
  {
  }

  /** A step that moves one worker, neither into nor out of the part between recording and
      notifying, except from the first point of it to the second. */
  lemma MoveKeepsNotices(s: State, t: State, w: nat)
    requires NoticeInv(s) && w < |s.pcs| && |t.pcs| == |s.pcs| && t.pcs == s.pcs[w := t.pcs[w]]
    requires t.objs == s.objs && t.first == s.first && t.hist == s.hist && t.notices == s.notices
    requires var pc, pc' := s.pcs[w], t.pcs[w];
      || (!Recording(pc) && !Recording(pc'))
      || (pc.Recorded? && pc'.Stored? && pc'.cur == pc.cur && pc'.ev == pc.ev
          && pc'.previous == pc.previous && pc'.status == pc.status)
    ensures NoticeInv(t)
  {
    forall k: nat | k < |t.hist|
      ensures k in t.notices || OnItsWay(t.pcs, k)
    {
      if k !in s.notices {
        var v :| 0 <= v < |s.pcs| && Recording(s.pcs[v]) && s.pcs[v].ev == k;
        assert Recording(t.pcs[v]) && t.pcs[v].ev == k;
      }
    }
  }

  lemma AddKeepsNotices(s: State, ref: Ref, node: Node)
    requires NoticeInv(s) && Enabled(s, Add(ref, node))
    ensures NoticeInv(Apply(s, Add(ref, node)))
  {
    var t := Apply(s, Add(ref, node));
    assert NotOf(s.hist, ref, 0);
    NodeAfterSkip(t.first[ref], s.hist, ref, 0);
    assert s.hist[..0] == [];
    forall k | k in t.notices
      ensures NoticeOk(t.first, t.hist, t.notices, k)
    {
      assert NoticeOk(s.first, s.hist, s.notices, k);
    }
    forall w | 0 <= w < |t.pcs|
      ensures RecorderTracks(t.pcs[w], t.first, t.hist, t.notices)
    {
      assert RecorderTracks(s.pcs[w], s.first, s.hist, s.notices);
    }
  }

  /** Another worker's check is appended. */
  lemma RecorderTracksOn(pc: PC, first: map<Ref, Node>, hist: seq<Check>, notices: map<nat, Notice>, e: Check)
    requires RecorderTracks(pc, first, hist, notices) && (Recording(pc) ==> e.ref != pc.cur)
    ensures RecorderTracks(pc, first, hist + [e], notices)
  {
    if Recording(pc) {
      assert (hist + [e])[..pc.ev] == hist[..pc.ev];
    }
  }

  lemma NoticeOkOn(first: map<Ref, Node>, hist: seq<Check>, notices: map<nat, Notice>, k: nat, e: Check)
    requires NoticeOk(first, hist, notices, k)
    ensures NoticeOk(first, hist + [e], notices, k)
  {
    assert (hist + [e])[..k] == hist[..k];
  }

  lemma ObjsTrackRecord(objs: map<Ref, Node>, first: map<Ref, Node>, hist: seq<Check>, e: Check)
    requires ObjsTrack(objs, first, hist) && e.ref in objs
    ensures ObjsTrack(objs[e.ref := Observe(objs[e.ref], e.status, e.ts)], first, hist + [e])
  {
    var objs' := objs[e.ref := Observe(objs[e.ref], e.status, e.ts)];
    forall r | r in objs'
      ensures objs'[r] == NodeAfter(first[r], hist + [e], r)
    {
      NodeAfterSnoc(first[r], hist, e, r);
    }
  }

  lemma RecordersInHistory(s: State)
    requires NoticeInv(s)
    ensures forall v :: 0 <= v < |s.pcs| && Recording(s.pcs[v]) ==> s.pcs[v].ev < |s.hist|
  {
    forall v | 0 <= v < |s.pcs| && Recording(s.pcs[v])
      ensures s.pcs[v].ev < |s.hist|
    {
      assert RecorderTracks(s.pcs[v], s.first, s.hist, s.notices);
    }
  }

  lemma NewRecorderTracks(s: State, w: nat)
    requires NoticeInv(s) && Enabled(s, Record(w))
    ensures var t := Apply(s, Record(w)); RecorderTracks(t.pcs[w], t.first, t.hist, t.notices)
  {
    var t := Apply(s, Record(w));
    assert t.hist[..|s.hist|] == s.hist;
    forall k | k in s.notices
      ensures k < |s.hist|
    {
      assert NoticeOk(s.first, s.hist, s.notices, k);
    }
  }

  lemma RecordersTrackRecord(s: State, w: nat, v: nat)
    requires Inv(s) && NoticeInv(s) && Enabled(s, Record(w)) && v < |s.pcs|
    ensures var t := Apply(s, Record(w)); RecorderTracks(t.pcs[v], t.first, t.hist, t.notices)
  {
    var pc := s.pcs[w];
    AllWorkersKnow(s.pcs, s.clock, s.objs, s.hist);
    if v == w {
      hide Inv;
      NewRecorderTracks(s, w);
    } else {
      hide RecorderTracks, NoticeOk, ObjsTrack;
      assert RecorderTracks(s.pcs[v], s.first, s.hist, s.notices);
      RecordersInHistory(s);
      if Recording(s.pcs[v]) {
        OthersOnOtherNodes(s, v, w);
      }
      RecorderTracksOn(s.pcs[v], s.first, s.hist, s.notices, Check(w, pc.cur, pc.status, pc.ts, pc.job.pos));
    }
  }

  lemma RecordedOnItsWay(s: State, t: State, w: nat)
    requires w < |s.pcs| == |t.pcs| && !Recording(s.pcs[w]) && Recording(t.pcs[w]) && t.pcs[w].ev == |s.hist|
    requires t.pcs == s.pcs[w := t.pcs[w]] && |t.hist| == |s.hist| + 1 && t.notices == s.notices
    requires forall k: nat :: k < |s.hist| ==> k in s.notices || OnItsWay(s.pcs, k)
    ensures forall k: nat :: k < |t.hist| ==> k in t.notices || OnItsWay(t.pcs, k)
  {
    forall k: nat | k < |t.hist|
      ensures k in t.notices || OnItsWay(t.pcs, k)
    {
      if k == |s.hist| {
        assert Recording(t.pcs[w]) && t.pcs[w].ev == k;
      } else if k !in s.notices {
        var v :| 0 <= v < |s.pcs| && Recording(s.pcs[v]) && s.pcs[v].ev == k;
        assert Recording(t.pcs[v]) && t.pcs[v].ev == k;
      }
    }
  }

  lemma RecordKeepsNotices(s: State, w: nat)
    requires Inv(s) && NoticeInv(s) && Enabled(s, Record(w))
    ensures NoticeInv(Apply(s, Record(w)))
  {
    var pc, t := s.pcs[w], Apply(s, Record(w));
    var e := Check(w, pc.cur, pc.status, pc.ts, pc.job.pos);
    AllWorkersKnow(s.pcs, s.clock, s.objs, s.hist);
    ObjsTrackRecord(s.objs, s.first, s.hist, e);
    RecordersInHistory(s);
    hide Inv, ObjsTrack, NodeAfter, HistoryOk, WorkersOk, Registered, Guarded, AllKnow, RecorderTracks, NoticeOk, NotOf;
    forall v | 0 <= v < |t.pcs|
      ensures RecorderTracks(t.pcs[v], t.first, t.hist, t.notices)
    {
      RecordersTrackRecord(s, w, v);
    }
    forall k | k in t.notices
      ensures NoticeOk(t.first, t.hist, t.notices, k)
    {
      NoticeOkOn(s.first, s.hist, s.notices, k, e);
    }
    RecordedOnItsWay(s, t, w);
  }

  /** The last check of a node made it what it is. */
  lemma NodeAfterLast(n: Node, hist: seq<Check>, r: Ref, k: nat)
    requires k < |hist| && hist[k].ref == r && NotOf(hist, r, k + 1)
    ensures NodeAfter(n, hist, r) == Observe(NodeAfter(n, hist[..k], r), hist[k].status, hist[k].ts)
  {
    hide NodeAfter;
    NodeAfterSkip(n, hist, r, k + 1);
    assert hist[..k + 1] == hist[..k] + [hist[k]];
    NodeAfterSnoc(n, hist[..k], hist[k], r);
  }

  /** The node that the notifier reads is the node as the same check left it, so what it decides
      is what the check calls for. */
  lemma NotifierReadsOwnWrite(s: State, w: nat)
    requires NoticeInv(s) && w < |s.pcs| && s.pcs[w].Stored? && s.pcs[w].cur in s.objs
    ensures var pc := s.pcs[w];
      && pc.ev < |s.hist| && pc.cur in s.first
      && s.objs[pc.cur] == Observe(NodeAfter(s.first[pc.cur], s.hist[..pc.ev], pc.cur), pc.status, s.hist[pc.ev].ts)
      && Decide(s.objs[pc.cur], pc.previous, pc.status)
        == NoticeFor(NodeAfter(s.first[pc.cur], s.hist[..pc.ev], pc.cur), pc.status)
  {
    var pc := s.pcs[w];
    assert RecorderTracks(pc, s.first, s.hist, s.notices);
    hide NodeAfter;
    NodeAfterLast(s.first[pc.cur], s.hist, pc.cur, pc.ev);
  }

  lemma NotifyKeepsNotices(s: State, w: nat)
    requires NoticeInv(s) && Enabled(s, Notify(w))
    ensures NoticeInv(Apply(s, Notify(w)))
  {
    var pc, t := s.pcs[w], Apply(s, Notify(w));
    NotifierReadsOwnWrite(s, w);
    assert RecorderTracks(pc, s.first, s.hist, s.notices);
    hide NodeAfter, ObjsTrack;
    forall v | 0 <= v < |t.pcs|
      ensures RecorderTracks(t.pcs[v], t.first, t.hist, t.notices)
    {
      assert RecorderTracks(s.pcs[v], s.first, s.hist, s.notices);
    }
    forall k | k in t.notices
      ensures NoticeOk(t.first, t.hist, t.notices, k)
    {
      if k != pc.ev {
        assert NoticeOk(s.first, s.hist, s.notices, k);
      }
    }
    forall k: nat | k < |t.hist|
      ensures k in t.notices || OnItsWay(t.pcs, k)
    {
      if k !in s.notices && k != pc.ev {
        var v :| 0 <= v < |s.pcs| && Recording(s.pcs[v]) && s.pcs[v].ev == k;
        assert Recording(t.pcs[v]) && t.pcs[v].ev == k;
      }
    }
  }

  /** Steps of the clock, of callers that remove a node, and of the one that stops the service. */
  lemma EnvironmentKeepsNotices(s: State, t: State)
    requires NoticeInv(s)
    requires t == s.(clock := t.clock, nodes := t.nodes, results := t.results, removing := t.removing, stopped := t.stopped)
    ensures NoticeInv(t)
  {
  }

  lemma OutsideMoveKeepsNotices(s: State, a: Action)
    requires NoticeInv(s) && Enabled(s, a) && (a.ReadClock? || a.Snapshot? || a.EndPass? || a.Exit?)
    ensures NoticeInv(Apply(s, a))
  {
    hide NoticeInv, IsSnapshot;
    MoveKeepsNotices(s, Apply(s, a), a.w);
  }

  lemma AcquireKeepsNotices(s: State, w: nat)
    requires NoticeInv(s) && Enabled(s, Acquire(w))
    ensures NoticeInv(Apply(s, Acquire(w)))
  {
    hide NoticeInv;
    MoveKeepsNotices(s, Apply(s, Acquire(w)), w);
  }

  lemma ProbeKeepsNotices(s: State, w: nat, response: Response)
    requires NoticeInv(s) && Enabled(s, Probe(w, response))
    ensures NoticeInv(Apply(s, Probe(w, response)))
  {
    hide NoticeInv;
    MoveKeepsNotices(s, Apply(s, Probe(w, response)), w);
  }

  lemma StoreKeepsNotices(s: State, w: nat)
    requires NoticeInv(s) && Enabled(s, Store(w))
    ensures NoticeInv(Apply(s, Store(w)))
  {
    hide NoticeInv;
    MoveKeepsNotices(s, Apply(s, Store(w)), w);
  }

  lemma ReleaseKeepsNotices(s: State, w: nat)
    requires NoticeInv(s) && Enabled(s, Release(w))
    ensures NoticeInv(Apply(s, Release(w)))
  {
    hide NoticeInv;
    MoveKeepsNotices(s, Apply(s, Release(w)), w);
  }

  lemma StepKeepsNotices(s: State, a: Action)
    requires Inv(s) && NoticeInv(s) && Enabled(s, a)
    ensures NoticeInv(Apply(s, a))
  {
    hide Inv, NoticeInv, IsSnapshot, Decide, Normalize, Observe;
    match a
    case Tick(_) => EnvironmentKeepsNotices(s, Apply(s, a));
    case Add(ref, node) => AddKeepsNotices(s, ref, node);
    case AddAgain(ref) =>
      AddAgainKeepsInv(s, ref);
      EnvironmentKeepsNotices(s, Apply(s, a));
    case Unregister(_) => EnvironmentKeepsNotices(s, Apply(s, a));
    case DropResult(_) => EnvironmentKeepsNotices(s, Apply(s, a));
    case Stop => EnvironmentKeepsNotices(s, Apply(s, a));
    case Record(w) => RecordKeepsNotices(s, w);
    case Notify(w) => NotifyKeepsNotices(s, w);
    case ReadClock(w) => OutsideMoveKeepsNotices(s, a);
    case Snapshot(w, _) => OutsideMoveKeepsNotices(s, a);
    case EndPass(w) => OutsideMoveKeepsNotices(s, a);
    case Exit(w) => OutsideMoveKeepsNotices(s, a);
    case Acquire(w) => AcquireKeepsNotices(s, w);
    case Probe(w, response) => ProbeKeepsNotices(s, w, response);
    case Store(w) => StoreKeepsNotices(s, w);
    case Release(w) => ReleaseKeepsNotices(s, w);
  }

  lemma {:induction false} RunKeepsNotices(s: State, actions: seq<Action>, t: State)
    requires Inv(s) && NoticeInv(s) && Runs(s, actions, t)
    ensures NoticeInv(t)
    decreases |actions|
  {
    if actions != [] {
      StepKeepsInv(s, actions[0]);
      StepKeepsNotices(s, actions[0]);
      RunKeepsNotices(Apply(s, actions[0]), actions[1..], t);
    }
  }

  // ----- what was sent -----

  /** The statuses of the checks of a node, in order. */
  ghost function StatusesOf(hist: seq<Check>, r: Ref): seq<Status> {
    if hist == [] then []
    else
      StatusesOf(hist[..|hist| - 1], r) + if hist[|hist| - 1].ref == r then [hist[|hist| - 1].status] else []
  }

  lemma {:induction false} NodeAfterCounts(n: Node, hist: seq<Check>, r: Ref)
    ensures NodeAfter(n, hist, r).failureCount == CountAfter(n.failureCount, StatusesOf(hist, r))
    ensures NodeAfter(n, hist, r).status == StatusAfter(n.status, StatusesOf(hist, r))
    ensures SameSettings(n, NodeAfter(n, hist, r))
  {
    if hist != [] {
      var init, e := hist[..|hist| - 1], hist[|hist| - 1];
      NodeAfterCounts(n, init, r);
      OneMore(n, StatusesOf(init, r), e.status);
      assert StatusesOf(hist, r) == if e.ref == r then StatusesOf(init, r) + [e.status] else StatusesOf(init, r);
      hide StatusesOf, CountAfter, StatusAfter;
    }
  }

  /** The notices of a kind that were sent for the checks of a node. */
  ghost function Sent(hist: seq<Check>, notices: map<nat, Notice>, r: Ref, down: bool): nat {
    if hist == [] then 0
    else
      var k := |hist| - 1;
      Sent(hist[..k], notices, r, down)
      + if hist[k].ref == r && k in notices && (if down then notices[k].DownNotice? else notices[k].UpNotice?) then 1 else 0
  }

  lemma NothingSent(n: Node, hist: seq<Check>, notices: map<nat, Notice>, r: Ref)
    ensures StatusesOf(hist[..0], r) == []
    ensures Sent(hist[..0], notices, r, true) == 0 == DownNotices(n.failureCount, n.threshold, [])
    ensures Sent(hist[..0], notices, r, false) == 0 == UpNotices(n.status, [])
  {
  }

  /** One check of a node adds the notice that its status calls for. */
  lemma NoticeCalledFor(first: map<Ref, Node>, hist: seq<Check>, notices: map<nat, Notice>, r: Ref, k: nat)
    requires r in first && k < |hist| && hist[k].ref == r && NoticeOk(first, hist, notices, k)
    ensures var ss := StatusesOf(hist[..k], r);
      && DownNotices(first[r].failureCount, first[r].threshold, ss + [hist[k].status])
        == DownNotices(first[r].failureCount, first[r].threshold, ss)
          + (if k in notices && notices[k].DownNotice? then 1 else 0)
      && UpNotices(first[r].status, ss + [hist[k].status])
        == UpNotices(first[r].status, ss) + (if k in notices && notices[k].UpNotice? then 1 else 0)
  {
    hide StatusesOf, CountAfter, StatusAfter, DownNotices, UpNotices, NodeAfter;
    NodeAfterCounts(first[r], hist[..k], r);
    OneMore(first[r], StatusesOf(hist[..k], r), hist[k].status);
  }

  lemma SentUnfold(hist: seq<Check>, notices: map<nat, Notice>, r: Ref, n: nat)
    requires 0 < n <= |hist|
    ensures var k := n - 1;
      && StatusesOf(hist[..n], r)
        == (if hist[k].ref == r then StatusesOf(hist[..k], r) + [hist[k].status] else StatusesOf(hist[..k], r))
      && Sent(hist[..n], notices, r, true) == Sent(hist[..k], notices, r, true)
        + (if hist[k].ref == r && k in notices && notices[k].DownNotice? then 1 else 0)
      && Sent(hist[..n], notices, r, false) == Sent(hist[..k], notices, r, false)
        + (if hist[k].ref == r && k in notices && notices[k].UpNotice? then 1 else 0)
  {
    assert hist[..n][..n - 1] == hist[..n - 1];
  }

  lemma {:induction false} SentAsCalledFor(first: map<Ref, Node>, hist: seq<Check>, notices: map<nat, Notice>, r: Ref, n: nat)
    requires r in first && n <= |hist|
    requires forall k: nat :: k < |hist| && hist[k].ref == r ==> NoticeOk(first, hist, notices, k)
    ensures Sent(hist[..n], notices, r, true)
      == DownNotices(first[r].failureCount, first[r].threshold, StatusesOf(hist[..n], r))
    ensures Sent(hist[..n], notices, r, false) == UpNotices(first[r].status, StatusesOf(hist[..n], r))
  {
    hide *;
    if n == 0 {
      NothingSent(first[r], hist, notices, r);
    } else {
      SentAsCalledFor(first, hist, notices, r, n - 1);
      SentUnfold(hist, notices, r, n);
      if hist[n - 1].ref == r {
        NoticeCalledFor(first, hist, notices, r, n - 1);
      }
    }
  }

  /** Over every run: the failure count of a node is that of the statuses recorded for it, and
      as soon as no check of it is on its way to the notifier, the down and recovery notices
      sent for it are exactly those its statuses call for. */
  lemma NoticesOverRuns(config: Config, clock: int, workers: nat, actions: seq<Action>, t: State, r: Ref)
    requires Runs(Init(config, clock, workers), actions, t) && r in t.objs
    ensures r in t.first
    ensures t.objs[r].failureCount == CountAfter(t.first[r].failureCount, StatusesOf(t.hist, r))
    ensures (forall w :: 0 <= w < |t.pcs| && Recording(t.pcs[w]) ==> t.pcs[w].cur != r) ==>
      && Sent(t.hist, t.notices, r, true)
        == DownNotices(t.first[r].failureCount, t.first[r].threshold, StatusesOf(t.hist, r))
      && Sent(t.hist, t.notices, r, false) == UpNotices(t.first[r].status, StatusesOf(t.hist, r))
  {
    var s := Init(config, clock, workers);
    InitInv(config, clock, workers);
    InitNoticeInv(config, clock, workers);
    RunKeepsNotices(s, actions, t);
    NodeAfterCounts(t.first[r], t.hist, r);
    if forall w :: 0 <= w < |t.pcs| && Recording(t.pcs[w]) ==> t.pcs[w].cur != r {
      forall w | 0 <= w < |t.pcs| && Recording(t.pcs[w])
        ensures t.pcs[w].ev < |t.hist| && t.hist[t.pcs[w].ev].ref != r
      {
        assert RecorderTracks(t.pcs[w], t.first, t.hist, t.notices);
      }
      SentAsCalledFor(t.first, t.hist, t.notices, r, |t.hist|);
      assert t.hist[..|t.hist|] == t.hist;
    }
  }

  lemma NoticeCarriesCount(first: map<Ref, Node>, hist: seq<Check>, notices: map<nat, Notice>, k: nat)
    requires NoticeOk(first, hist, notices, k) && notices[k].DownNotice?
    ensures var r := hist[k].ref;
      && hist[k].status == Down
      && notices[k].failures == CountAfter(first[r].failureCount, StatusesOf(hist[..k + 1], r)) >= first[r].threshold
  {
    var r := hist[k].ref;
    NodeAfterCounts(first[r], hist[..k], r);
    OneMore(first[r], StatusesOf(hist[..k], r), hist[k].status);
    assert hist[..k + 1][..k] == hist[..k];
    hide CountAfter, NodeAfter;
  }

  /** Over every run: a down notice is for a down result, and it carries the number of failures in a
      row of its node up to and with that result, which is no less than the node's threshold. */
  lemma DownNoticeCounts(config: Config, clock: int, workers: nat, actions: seq<Action>, t: State, k: nat)
    requires Runs(Init(config, clock, workers), actions, t) && k in t.notices && t.notices[k].DownNotice?
    ensures k < |t.hist| && t.hist[k].ref in t.first && t.hist[k].status == Down
    ensures var r := t.hist[k].ref;
      t.notices[k].failures == CountAfter(t.first[r].failureCount, StatusesOf(t.hist[..k + 1], r)) >= t.first[r].threshold
  {
    InitInv(config, clock, workers);
    InitNoticeInv(config, clock, workers);
    RunKeepsNotices(Init(config, clock, workers), actions, t);
    assert NoticeOk(t.first, t.hist, t.notices, k);
    NoticeCarriesCount(t.first, t.hist, t.notices, k);
  }

  // ----- since when a node is down -----

  /** The k-th check changed the status of the node, and no later one did. */
  ghost predicate LastChangeAt(n: Node, hist: seq<Check>, r: Ref, k: nat) {
    && k < |hist| && hist[k].ref == r && NodeAfter(n, hist[..k], r).status != hist[k].status
    && forall j :: k < j < |hist| && hist[j].ref == r ==> hist[j].status == hist[k].status
  }

  ghost predicate NeverChanged(n: Node, hist: seq<Check>, r: Ref) {
    forall j :: 0 <= j < |hist| && hist[j].ref == r ==> hist[j].status == n.status
  }

  lemma LastChangeKept(n: Node, hist: seq<Check>, e: Check, r: Ref, k: nat)
    requires LastChangeAt(n, hist, r, k) && (e.ref == r ==> e.status == hist[k].status)
    ensures LastChangeAt(n, hist + [e], r, k)
  {
    assert (hist + [e])[..k] == hist[..k];
  }

  lemma NewLastChange(n: Node, hist: seq<Check>, e: Check, r: Ref)
    requires e.ref == r && NodeAfter(n, hist, r).status != e.status
    ensures LastChangeAt(n, hist + [e], r, |hist|)
  {
    assert (hist + [e])[..|hist|] == hist;
  }

  /** `LastStatusChange`, which down notices give as the start of the downtime, is the time of the
      check that last changed the status, and all checks since have found the same status. */
  lemma {:induction false} LastChangeMeaning(n: Node, hist: seq<Check>, r: Ref)
    ensures var now := NodeAfter(n, hist, r);
      || (NeverChanged(n, hist, r) && now.lastChange == n.lastChange && now.status == n.status)
      || exists k: nat :: LastChangeAt(n, hist, r, k) && now.lastChange == hist[k].ts && now.status == hist[k].status
  {
    if hist != [] {
      var init, e := hist[..|hist| - 1], hist[|hist| - 1];
      LastChangeMeaning(n, init, r);
      NodeAfterSnoc(n, init, e, r);
      assert hist == init + [e];
      var before := NodeAfter(n, init, r);
      hide NodeAfter;
      if e.ref == r && before.status != e.status {
        NewLastChange(n, init, e, r);
      } else if !(NeverChanged(n, init, r) && before.lastChange == n.lastChange && before.status == n.status) {
        var k: nat :| LastChangeAt(n, init, r, k) && before.lastChange == init[k].ts && before.status == init[k].status;
        LastChangeKept(n, init, e, r, k);
      }
    }
  }
}
