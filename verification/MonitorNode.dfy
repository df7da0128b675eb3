/** A monitored node and what one check result does to it, as a value and as the object that the
    service updates in place. */
module MonitorNode {
  import opened Lines

  /** A status is a string; any other than the two constants, such as the empty one of a node
      that was never checked, is neither up nor down. */
  datatype Status = Up | Down | Other

  datatype Node = Node(id: int, interval: int, threshold: int, status: Status, lastChecked: int,
                       lastChange: int, failureCount: int)

  datatype Notice = NoNotice | DownNotice(failures: int) | UpNotice

  /** The answer to a check: the node lookup, then the probe of its kind, which reports up
      without an error or down with one, and the time it took. */
  datatype Response =
    | LookupFailed(error: string)
    | UnsupportedType
    | ProbeFailed(error: string, took: int)
    | ProbePassed(took: int)

  /** The status and the error that a check reports. */
  function Classify(r: Response): (c: (Status, Option<string>))
    ensures c.0 == Up || c.0 == Down
    ensures c.0 == Down <==> c.1.Some?
    ensures c.0 == Up <==> r.ProbePassed?
  {
    match r
    case LookupFailed(e) => (Down, Some(e))
    case UnsupportedType => (Down, Some("unsupported node type"))
    case ProbeFailed(e, _) => (Down, Some(e))
    case ProbePassed(_) => (Up, None)
  }

  function ResponseTime(r: Response): int {
    match r
    case LookupFailed(_) => 0
    case UnsupportedType => 0
    case ProbeFailed(_, took) => took
    case ProbePassed(took) => took
  }

  /** The node after a check result. */
  function Observe(n: Node, status: Status, now: int): Node {
    n.(status := status, lastChecked := now,
       lastChange := if n.status != status then now else n.lastChange,
       failureCount := if status == Down then n.failureCount + 1 else 0)
  }

  /** The notice that a node's check result calls for: `n` is the node before it. */
  function NoticeFor(n: Node, status: Status): Notice {
    if status == Down && n.failureCount + 1 >= n.threshold then DownNotice(n.failureCount + 1)
    else if n.status == Down && status == Up then UpNotice
    else NoNotice
  }

  datatype Config = Config(interval: int, threshold: int)

  /** `AddNode` fills in what the caller left at zero. */
  function Normalize(c: Config, n: Node): Node {
    n.(interval := if n.interval == 0 then c.interval else n.interval,
       threshold := if n.threshold == 0 then c.threshold else n.threshold)
  }

  // ----- the node over a history of statuses -----

  /** The failure count after a list of results. */
  function CountAfter(c0: int, results: seq<Status>): int {
    if results == [] then c0
    else if results[|results| - 1] == Down then CountAfter(c0, results[..|results| - 1]) + 1
    else 0
  }

  /** The status after a list of results. */
  function StatusAfter(s0: Status, results: seq<Status>): Status {
    if results == [] then s0 else results[|results| - 1]
  }

  /** How many results of a list called for a down notice. */
  function DownNotices(c0: int, threshold: int, results: seq<Status>): nat {
    if results == [] then 0
    else
      DownNotices(c0, threshold, results[..|results| - 1])
      + if results[|results| - 1] == Down && CountAfter(c0, results) >= threshold then 1 else 0
  }

  /** How many results of a list called for a recovery notice. */
  function UpNotices(s0: Status, results: seq<Status>): nat {
    if results == [] then 0
    else
      var init := results[..|results| - 1];
      UpNotices(s0, init) + if StatusAfter(s0, init) == Down && results[|results| - 1] == Up then 1 else 0
  }

  lemma OneMore(n: Node, results: seq<Status>, status: Status)
    ensures CountAfter(n.failureCount, results + [status])
      == if status == Down then CountAfter(n.failureCount, results) + 1 else 0
    ensures StatusAfter(n.status, results + [status]) == status
    ensures DownNotices(n.failureCount, n.threshold, results + [status])
      == DownNotices(n.failureCount, n.threshold, results)
      + if status == Down && CountAfter(n.failureCount, results) + 1 >= n.threshold then 1 else 0
    ensures UpNotices(n.status, results + [status])
      == UpNotices(n.status, results) + if StatusAfter(n.status, results) == Down && status == Up then 1 else 0
  {
    assert (results + [status])[..|results|] == results;
  }

  function Downs(k: nat): (r: seq<Status>)
    ensures |r| == k
  {
    seq(k, _ => Down)
  }

  lemma DownsSnoc(before: seq<Status>, k: nat)
    requires k > 0
    ensures before + Downs(k) == before + Downs(k - 1) + [Down]
    ensures (before + Downs(k))[..|before| + k - 1] == before + Downs(k - 1)
  {
  }

  /** In a run of k down results the failure count grows by k. */
  lemma {:induction false} CountInRun(c0: int, before: seq<Status>, k: nat)
    ensures CountAfter(c0, before + Downs(k)) == CountAfter(c0, before) + k
  {
    if k == 0 {
      assert before + Downs(0) == before;
    } else {
      CountInRun(c0, before, k - 1);
      DownsSnoc(before, k);
    }
  }

  /** A run of k down results sends a notice for each result from the one on that brings the
      count to the threshold: none while it stays below, and never more than k. */
  lemma {:induction false} NoticesInRun(c0: int, threshold: int, before: seq<Status>, k: nat)
    ensures var reached := CountAfter(c0, before) + k - threshold + 1;
      DownNotices(c0, threshold, before + Downs(k)) - DownNotices(c0, threshold, before)
      == if reached <= 0 then 0 else if reached < k then reached else k
  {
    if k == 0 {
      assert before + Downs(0) == before;
    } else {
      NoticesInRun(c0, threshold, before, k - 1);
      CountInRun(c0, before, k);
      DownsSnoc(before, k);
    }
  }

  /** A maximal run of k down results, after a node's first registration with no failures or
      after any result that is not down, sends max(0, k - T + 1) notices for a threshold T >= 1. */
  lemma NoticesInMaximalRun(c0: int, threshold: int, before: seq<Status>, k: nat)
    requires threshold >= 1
    requires if before == [] then c0 == 0 else before[|before| - 1] != Down
    ensures DownNotices(c0, threshold, before + Downs(k)) - DownNotices(c0, threshold, before)
      == if k - threshold + 1 > 0 then k - threshold + 1 else 0
  {
    NoticesInRun(c0, threshold, before, k);
  }

  /** The failure count is the length of the down results that end the list, on top of the
      count the node came with when there is no other result before them. */
  lemma CountIsTrailingRun(c0: int, results: seq<Status>, k: nat)
    requires k <= |results| && forall i :: |results| - k <= i < |results| ==> results[i] == Down
    requires k == |results| || results[|results| - k - 1] != Down
    ensures CountAfter(c0, results) == if k == |results| then c0 + k else k
  {
    var before := results[..|results| - k];
    assert results == before + Downs(k);
    CountInRun(c0, before, k);
  }

  predicate RecoversAt(s0: Status, results: seq<Status>, k: nat)
    requires k < |results|
  {
    results[k] == Up && StatusAfter(s0, results[..k]) == Down
  }

  /** The results that are up right after a down one. */
  ghost function Recoveries(s0: Status, results: seq<Status>): set<nat> {
    set k: nat | k < |results| && RecoversAt(s0, results, k)
  }

  lemma LastElement(a: set<nat>, b: set<nat>, x: nat, added: bool)
    requires x !in a && forall k: nat :: k in b <==> k in a || (k == x && added)
    ensures |b| == |a| + if added then 1 else 0
  {
    assert b == if added then a + {x} else a;
  }

  /** Recovery notices are the passages from down to up. */
  lemma {:induction false} UpNoticesAreRecoveries(s0: Status, results: seq<Status>)
    ensures UpNotices(s0, results) == |Recoveries(s0, results)|
  {
    if results != [] {
      var n := |results|;
      var init := results[..n - 1];
      UpNoticesAreRecoveries(s0, init);
      assert UpNotices(s0, results) == UpNotices(s0, init) + if RecoversAt(s0, results, n - 1) then 1 else 0;
      hide StatusAfter;
      forall k: nat | k < n - 1
        ensures RecoversAt(s0, results, k) == RecoversAt(s0, init, k)
      {
        assert results[..k] == init[..k];
      }
      assert init == results[..n - 1];
      hide RecoversAt, UpNotices;
      LastElement(Recoveries(s0, init), Recoveries(s0, results), n - 1, RecoversAt(s0, results, n - 1));
    }
  }

  // ----- the object -----

  class NodeObject {
    const id: int
    const endpoint: string
    const platform: string
    var interval: int
    var timeout: int
    var threshold: int
    var status: Status
    var lastChecked: int
    var lastChange: int
    var failureCount: int

    function Value(): Node
      reads this
    {
      Node(id, interval, threshold, status, lastChecked, lastChange, failureCount)
    }

    constructor (id: int, endpoint: string, platform: string, interval: int, timeout: int, threshold: int)
      ensures Value() == Node(id, interval, threshold, Other, 0, 0, 0)
      ensures this.endpoint == endpoint && this.platform == platform && this.timeout == timeout
    {
      this.id, this.endpoint, this.platform := id, endpoint, platform;
      this.interval, this.timeout, this.threshold := interval, timeout, threshold;
      status, lastChecked, lastChange, failureCount := Other, 0, 0, 0;
    }
  }

  /** The result of a check, as the status queries return it. */
  datatype CheckResult = CheckResult(id: int, status: Status, responseTime: int, error: Option<string>, timestamp: int)

  /** What a recovery notice reports. */
  datatype Recovery = Recovery(responseTime: int, at: int, downtime: int)

  class Service {
    const config: Config
    const defaultTimeout: int
    var nodes: map<int, NodeObject>
    var checkingNodes: set<int>
    var lastCheckResults: map<int, CheckResult>

    ghost predicate Valid()
      reads this
    {
      forall id :: id in nodes ==> nodes[id].id == id
    }

    constructor (config: Config, defaultTimeout: int)
      ensures Valid() && nodes == map[] && checkingNodes == {} && lastCheckResults == map[]
      ensures this.config == config && this.defaultTimeout == defaultTimeout
    {
      this.config, this.defaultTimeout := config, defaultTimeout;
      nodes, checkingNodes, lastCheckResults := map[], {}, map[];
    }

    /** Registers a node under its id, replacing the one registered there. */
    method AddNode(node: NodeObject) returns (ok: bool)
      requires Valid()
      modifies this`nodes, node
      ensures Valid()
      ensures ok == (node.id != 0 && node.endpoint != "" && node.platform != "")
      ensures ok ==> nodes == old(nodes)[node.id := node] && node.Value() == Normalize(config, old(node.Value()))
      ensures ok ==>
        && node.interval == (if old(node.interval) == 0 then config.interval else old(node.interval))
        && node.threshold == (if old(node.threshold) == 0 then config.threshold else old(node.threshold))
        && node.timeout == (if old(node.timeout) == 0 then defaultTimeout else old(node.timeout))
        && node.status == old(node.status) && node.failureCount == old(node.failureCount)
        && node.lastChecked == old(node.lastChecked) && node.lastChange == old(node.lastChange)
      ensures !ok ==> nodes == old(nodes) && node.Value() == old(node.Value()) && node.timeout == old(node.timeout)
    {
      if node.id == 0 || node.endpoint == "" || node.platform == "" {
        return false;
      }
      if node.interval == 0 {
        node.interval := config.interval;
      }
      if node.timeout == 0 {
        node.timeout := defaultTimeout;
      }
      if node.threshold == 0 {
        node.threshold := config.threshold;
      }
      nodes := nodes[node.id := node];
      ok := true;
    }

    method RemoveNode(id: int)
      requires Valid()
      modifies this`nodes, this`lastCheckResults
      ensures Valid()
      ensures nodes == old(nodes) - {id} && lastCheckResults == old(lastCheckResults) - {id}
    {
      nodes := nodes - {id};
      lastCheckResults := lastCheckResults - {id};
    }

    ghost predicate Due(n: NodeObject, now: int)
      reads this, n
    {
      n.id in nodes && nodes[n.id] == n && now - n.lastChecked >= n.interval
    }

    /** The registered nodes whose last check is an interval ago, each once. Map iteration visits
        the ids in any order. */
    method DueNodes(now: int, order: seq<int>) returns (due: seq<NodeObject>)
      requires Valid()
      requires forall id :: id in order <==> id in nodes
      requires forall i, j :: 0 <= i < j < |order| ==> order[i] != order[j]
      ensures forall i, j :: 0 <= i < j < |due| ==> due[i] != due[j]
      ensures forall n :: n in due <==> n.id in nodes && nodes[n.id] == n && now - n.lastChecked >= n.interval
    {
      due := [];
      for k := 0 to |order|
        invariant forall i, j :: 0 <= i < j < |due| ==> due[i] != due[j]
        invariant forall n :: n in due <==> n.id in order[..k] && Due(n, now)
      {
        var id := order[k];
        assert id in order && id !in order[..k];
        assert order[..k + 1] == order[..k] + [id];
        var node := nodes[id];
        if now - node.lastChecked >= node.interval {
          due := due + [node];
        }
      }
      assert order[..|order|] == order;
    }

    /** The guard of `checkNode`. */
    method TryAcquire(id: int) returns (ok: bool)
      modifies this`checkingNodes
      ensures ok == (id !in old(checkingNodes)) && checkingNodes == old(checkingNodes) + {id}
    {
      ok := id !in checkingNodes;
      checkingNodes := checkingNodes + {id};
    }

    method Release(id: int)
      modifies this`checkingNodes
      ensures checkingNodes == old(checkingNodes) - {id}
    {
      checkingNodes := checkingNodes - {id};
    }

    /** Updates the node and the results, and decides on a notice; nothing else runs between. A
        down notice quotes the error, so a down status must come with one. The downtime in a
        recovery notice is always zero, however long the node was down. */
    method HandleNodeCheckResult(node: NodeObject, status: Status, responseTime: int, err: Option<string>, now: int)
      returns (notice: Notice, recovery: Option<Recovery>)
      requires Valid() && (status == Down ==> err.Some?)
      modifies this`lastCheckResults, node
      ensures Valid()
      ensures node.Value() == Observe(old(node.Value()), status, now) && node.timeout == old(node.timeout)
      ensures lastCheckResults == old(lastCheckResults)[node.id := CheckResult(node.id, status, responseTime, err, now)]
      ensures node.status == status && node.lastChecked == now
      ensures node.failureCount == if status == Down then old(node.failureCount) + 1 else 0
      ensures node.lastChange == if status == old(node.status) then old(node.lastChange) else now
      ensures node.interval == old(node.interval) && node.threshold == old(node.threshold)
      ensures notice == NoticeFor(old(node.Value()), status)
      ensures notice.DownNotice? <==> status == Down && node.failureCount >= node.threshold
      ensures notice.DownNotice? ==> notice.failures == node.failureCount
      ensures notice == UpNotice <==> old(node.status) == Down && status == Up
      ensures recovery == if notice == UpNotice then Some(Recovery(responseTime, now, 0)) else None
    {
      var previousStatus := node.status;
      var wasDown := previousStatus == Down;
      node.lastChecked := now;
      var statusChanged := previousStatus != status;
      if statusChanged {
        node.lastChange := now;
      }
      if status == Down {
        node.failureCount := node.failureCount + 1;
      } else {
        node.failureCount := 0;
      }
      node.status := status;
      var downtime := 0;
      if wasDown && status == Up {
        downtime := now - node.lastChange;
      }
      lastCheckResults := lastCheckResults[node.id := CheckResult(node.id, status, responseTime, err, now)];
      recovery := None;
      if status == Down && node.failureCount >= node.threshold {
        notice := DownNotice(node.failureCount);
      } else if statusChanged && status == Up && wasDown {
        notice := UpNotice;
        recovery := Some(Recovery(responseTime, now, downtime));
      } else {
        notice := NoNotice;
      }
    }

    /** A whole check when nothing else runs: it is skipped when the guard is taken, and leaves the
        guard as it was. */
    method CheckNode(node: NodeObject, response: Response, now: int) returns (checked: bool, notice: Notice)
      requires Valid()
      modifies this`checkingNodes, this`lastCheckResults, node
      ensures Valid() && checkingNodes == old(checkingNodes)
      ensures checked == (node.id !in checkingNodes)
      ensures !checked ==> node.Value() == old(node.Value()) && lastCheckResults == old(lastCheckResults) && notice == NoNotice
      ensures checked ==>
        && node.Value() == Observe(old(node.Value()), Classify(response).0, now)
        && lastCheckResults == old(lastCheckResults)[node.id :=
             CheckResult(node.id, Classify(response).0, ResponseTime(response), Classify(response).1, now)]
        && notice == NoticeFor(old(node.Value()), Classify(response).0)
      ensures checked ==> lastCheckResults == old(lastCheckResults)[node.id :=
        match response
        case LookupFailed(error) => CheckResult(node.id, Down, 0, Some(error), now)
        case UnsupportedType => CheckResult(node.id, Down, 0, Some("unsupported node type"), now)
        case ProbeFailed(error, took) => CheckResult(node.id, Down, took, Some(error), now)
        case ProbePassed(took) => CheckResult(node.id, Up, took, None, now)]
    {
      checked := TryAcquire(node.id);
      notice := NoNotice;
      if !checked {
        return;
      }
      var (status, err) := Classify(response);
      var recovery;
      notice, recovery := HandleNodeCheckResult(node, status, ResponseTime(response), err, now);
      Release(node.id);
    }
  }
}
