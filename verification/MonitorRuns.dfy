/** The monitoring service as a state machine: any number of workers, each between two accesses to
    shared state, a clock that only moves forward, and callers that add and remove nodes. */
module MonitorRuns {
  import opened MonitorNode

  /** The identity of a node object. */
  type Ref = nat

  /** A pass over the due nodes: those still to check, the time read before the snapshot was
      taken, and how many checks had been recorded when it was taken. */
  datatype Job = Job(rest: seq<Ref>, now: int, pos: nat)

  /** Where a worker is. From `Probing` to `Notified` it is inside `checkNode`, past the guard. */
  datatype PC =
    | Idle
    | Clocked(now: int)
    | Looping(job: Job)
    | Probing(cur: Ref, job: Job)
    | Stamped(cur: Ref, status: Status, ts: int, job: Job)
    | Recorded(cur: Ref, ev: nat, previous: Status, status: Status, job: Job)
    | Stored(cur: Ref, ev: nat, previous: Status, status: Status, job: Job)
    | Notified(cur: Ref, job: Job)
    | Exited

  /** A recorded check: `ts` is what it wrote to `LastChecked`, `pos` the position of the snapshot
      it came from. */
  datatype Check = Check(worker: nat, ref: Ref, status: Status, ts: int, pos: nat)

  datatype State = State(
    config: Config,
    clock: int,
    objs: map<Ref, Node>,          // the node objects
    first: map<Ref, Node>,         // as they were first registered
    nodes: map<int, Ref>,          // the registry
    checking: set<int>,            // the guard
    results: map<int, nat>,        // for each id, the check whose result is stored
    removing: multiset<int>,       // the removals that still have to drop the stored result
    stopped: bool,
    pcs: seq<PC>,
    hist: seq<Check>,              // the checks recorded so far
    notices: map<nat, Notice>)     // what the notifier decided on for each of them

  datatype Action =
    | Tick(d: nat)
    | Add(ref: Ref, node: Node)
    | AddAgain(ref: Ref)
    | Unregister(id: int)           // a removal, under the first lock it takes
    | DropResult(id: int)           // and under the second
    | Stop
    | ReadClock(w: nat)
    | Snapshot(w: nat, list: seq<Ref>)
    | Acquire(w: nat)
    | Probe(w: nat, response: Response)
    | Record(w: nat)
    | Store(w: nat)
    | Notify(w: nat)
    | Release(w: nat)
    | EndPass(w: nat)
    | Exit(w: nat)

  function Init(config: Config, clock: int, workers: nat): State {
    State(config, clock, map[], map[], map[], {}, map[], multiset{}, false, seq(workers, _ => Idle), [], map[])
  }

  predicate InFlight(pc: PC) {
    pc.Probing? || pc.Stamped? || pc.Recorded? || pc.Stored? || pc.Notified?
  }

  predicate Recording(pc: PC) {
    pc.Recorded? || pc.Stored?
  }

  /** The nodes a worker's current pass has yet to record. */
  function Pending(pc: PC): seq<Ref> {
    if pc.Looping? || pc.Recorded? || pc.Stored? || pc.Notified? then pc.job.rest
    else if pc.Probing? || pc.Stamped? then [pc.cur] + pc.job.rest
    else []
  }

  predicate HasJob(pc: PC) {
    pc.Looping? || InFlight(pc)
  }

  ghost predicate NoDups(list: seq<Ref>) {
    forall i, j :: 0 <= i < j < |list| ==> list[i] != list[j]
  }

  /** The registry has this object under its id. */
  ghost predicate IsRegistered(s: State, r: Ref)
    requires r in s.objs
  {
    s.objs[r].id in s.nodes && s.nodes[s.objs[r].id] == r
  }

  /** The list holds every registered node that is due, once, in any order. */
  ghost predicate IsSnapshot(s: State, now: int, list: seq<Ref>) {
    && NoDups(list)
    && forall r :: r in list <==> r in s.objs && IsRegistered(s, r) && now - s.objs[r].lastChecked >= s.objs[r].interval
  }

  ghost predicate Enabled(s: State, a: Action) {
    match a
    case Tick(_) => true
    case Add(ref, node) => ref !in s.objs && node.id != 0
    case AddAgain(ref) => ref in s.objs
    case Unregister(_) => true
    case DropResult(id) => id in s.removing
    case Stop => !s.stopped
    case ReadClock(w) => w < |s.pcs| && s.pcs[w].Idle?
    case Snapshot(w, list) => w < |s.pcs| && s.pcs[w].Clocked? && IsSnapshot(s, s.pcs[w].now, list)
    case Acquire(w) => w < |s.pcs| && s.pcs[w].Looping? && s.pcs[w].job.rest != [] && s.pcs[w].job.rest[0] in s.objs
    case Probe(w, _) => w < |s.pcs| && s.pcs[w].Probing?
    case Record(w) => w < |s.pcs| && s.pcs[w].Stamped? && s.pcs[w].cur in s.objs
    case Store(w) => w < |s.pcs| && s.pcs[w].Recorded? && s.pcs[w].cur in s.objs
    case Notify(w) => w < |s.pcs| && s.pcs[w].Stored? && s.pcs[w].cur in s.objs
    case Release(w) => w < |s.pcs| && s.pcs[w].Notified? && s.pcs[w].cur in s.objs
    case EndPass(w) => w < |s.pcs| && s.pcs[w].Looping? && s.pcs[w].job.rest == []
    case Exit(w) => w < |s.pcs| && s.pcs[w].Idle? && s.stopped
  }

  function At(s: State, w: nat, pc: PC): State
    requires w < |s.pcs|
  {
    s.(pcs := s.pcs[w := pc])
  }

  /** Taking up the next node of a pass: it is skipped when its id is guarded. */
  function Taken(s: State, w: nat, job: Job): State
    requires w < |s.pcs| && job.rest != [] && job.rest[0] in s.objs
  {
    var cur, next := job.rest[0], job.(rest := job.rest[1..]);
    if s.objs[cur].id in s.checking then At(s, w, Looping(next))
    else s.(pcs := s.pcs[w := Probing(cur, next)], checking := s.checking + {s.objs[cur].id})
  }

  /** What the notifier decides from the node as it reads it, after the lock was released. */
  function Decide(node: Node, previous: Status, status: Status): Notice {
    if status == Down && node.failureCount >= node.threshold then DownNotice(node.failureCount)
    else if previous != status && status == Up && previous == Down then UpNotice
    else NoNotice
  }

  ghost function Apply(s: State, a: Action): State
    requires Enabled(s, a)
  {
    match a
    case Tick(d) => s.(clock := s.clock + d)
    case Add(ref, node) =>
      var n := Normalize(s.config, node);
      s.(objs := s.objs[ref := n], first := s.first[ref := n], nodes := s.nodes[n.id := ref])
    case AddAgain(ref) =>
      var n := Normalize(s.config, s.objs[ref]);
      s.(objs := s.objs[ref := n], nodes := s.nodes[n.id := ref])
    case Unregister(id) => s.(nodes := s.nodes - {id}, removing := s.removing + multiset{id})
    case DropResult(id) => s.(results := s.results - {id}, removing := s.removing - multiset{id})
    case Stop => s.(stopped := true)
    case ReadClock(w) => At(s, w, Clocked(s.clock))
    case Snapshot(w, list) => At(s, w, Looping(Job(list, s.pcs[w].now, |s.hist|)))
    case Acquire(w) => Taken(s, w, s.pcs[w].job)
    case Probe(w, response) =>
      At(s, w, Stamped(s.pcs[w].cur, Classify(response).0, s.clock, s.pcs[w].job))
    case Record(w) =>
      var pc := s.pcs[w];
      var node := s.objs[pc.cur];
      At(s, w, Recorded(pc.cur, |s.hist|, node.status, pc.status, pc.job)).(
        objs := s.objs[pc.cur := Observe(node, pc.status, pc.ts)],
        hist := s.hist + [Check(w, pc.cur, pc.status, pc.ts, pc.job.pos)])
    case Store(w) =>
      var pc := s.pcs[w];
      At(s, w, Stored(pc.cur, pc.ev, pc.previous, pc.status, pc.job)).(results := s.results[s.objs[pc.cur].id := pc.ev])
    case Notify(w) =>
      var pc := s.pcs[w];
      At(s, w, Notified(pc.cur, pc.job)).(notices := s.notices[pc.ev := Decide(s.objs[pc.cur], pc.previous, pc.status)])
    case Release(w) =>
      At(s, w, Looping(s.pcs[w].job)).(checking := s.checking - {s.objs[s.pcs[w].cur].id})
    case EndPass(w) => At(s, w, Idle)
    case Exit(w) => At(s, w, Exited)
  }

  /** What the steps of the clock and of the callers do. */
  lemma CallerSteps(s: State, d: nat, id: int, ref: Ref, node: Node)
    ensures Apply(s, Tick(d)) == s.(clock := s.clock + d)
    ensures !s.stopped ==> Apply(s, Stop) == s.(stopped := true)
    ensures Apply(s, Unregister(id)) == s.(nodes := s.nodes - {id}, removing := s.removing + multiset{id})
    ensures id in s.removing ==>
      Apply(s, DropResult(id)) == s.(results := s.results - {id}, removing := s.removing - multiset{id})
    ensures ref !in s.objs && node.id != 0 ==>
      var n := node.(interval := if node.interval == 0 then s.config.interval else node.interval,
                     threshold := if node.threshold == 0 then s.config.threshold else node.threshold);
      Apply(s, Add(ref, node)) == s.(objs := s.objs[ref := n], first := s.first[ref := n], nodes := s.nodes[node.id := ref])
  {
    hide IsSnapshot;
  }

  lemma AcquireIsTaken(s: State, w: nat)
    requires Enabled(s, Acquire(w))
    ensures Apply(s, Acquire(w)) == Taken(s, w, s.pcs[w].job)
  {
    hide Taken, IsSnapshot, Decide, Normalize, Classify, Observe;
  }

  /** The states reached by a list of actions, each enabled where it is taken. */
  ghost predicate Runs(s: State, actions: seq<Action>, t: State)
    decreases |actions|
  {
    if actions == [] then s == t
    else Enabled(s, actions[0]) && Runs(Apply(s, actions[0]), actions[1..], t)
  }
}
