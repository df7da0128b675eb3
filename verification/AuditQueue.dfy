/** The audit service: a bounded queue of events, workers that take events from it and write them
    to the database, and a shutdown that stops the workers before it closes the queue. */
module AuditQueue {
  import opened Lines

  const CAPACITY := 1000
  const DEFAULT_WORKERS := 5

  datatype Event = Event(eventType: string, details: string)

  /** A worker waits in its select, or holds the n-th event that was taken from the queue. */
  datatype Worker = Waiting | Writing(n: nat) | Exited

  /** How a worker is done with an event: the details cannot be encoded, the write fails, or the
      event is in the database. */
  datatype Outcome = EncodeFailed | WriteFailed | Written

  datatype State = State(
    queue: seq<Event>,
    workers: seq<Worker>,
    stopping: bool,
    closed: bool,
    accepted: seq<Event>,      // in the order they were queued
    taken: seq<Event>,         // in the order they were taken from the queue
    persisted: seq<nat>,       // the numbers of the events written, in order
    failed: seq<nat>)          // the numbers of the events given up

  datatype Action =
    | LogAsync(event: Event)
    | Receive(w: nat)
    | Finish(w: nat, outcome: Outcome)
    | ObserveStop(w: nat)
    | SignalStop
    | CloseQueue

  function Init(workers: int): State {
    State([], seq(if workers <= 0 then DEFAULT_WORKERS else workers, _ => Waiting), false, false, [], [], [], [])
  }

  ghost predicate AllExited(s: State) {
    forall w :: 0 <= w < |s.workers| ==> s.workers[w] == Exited
  }

  ghost predicate Enabled(s: State, a: Action) {
    match a
    case LogAsync(_) => !s.closed
    case Receive(w) => w < |s.workers| && s.workers[w] == Waiting && s.queue != []
    case Finish(w, _) => w < |s.workers| && s.workers[w].Writing?
    case ObserveStop(w) => w < |s.workers| && s.workers[w] == Waiting && s.stopping
    case SignalStop => !s.stopping
    case CloseQueue => s.stopping && !s.closed && AllExited(s)
  }

  function Apply(s: State, a: Action): State
    requires Enabled(s, a)
  {
    match a
    case LogAsync(e) =>
      if |s.queue| < CAPACITY then s.(queue := s.queue + [e], accepted := s.accepted + [e]) else s
    case Receive(w) =>
      s.(queue := s.queue[1..], taken := s.taken + [s.queue[0]], workers := s.workers[w := Writing(|s.taken|)])
    case Finish(w, outcome) =>
      var n := s.workers[w].n;
      var t := s.(workers := s.workers[w := Waiting]);
      if outcome == Written then t.(persisted := s.persisted + [n]) else t.(failed := s.failed + [n])
    case ObserveStop(w) => s.(workers := s.workers[w := Exited])
    case SignalStop => s.(stopping := true)
    case CloseQueue => s.(closed := true)
  }

  ghost predicate Runs(s: State, actions: seq<Action>, t: State)
    decreases |actions|
  {
    if actions == [] then s == t
    else Enabled(s, actions[0]) && Runs(Apply(s, actions[0]), actions[1..], t)
  }

  // ----- no event is lost or written twice -----

  function Count(a: seq<nat>, k: nat): nat {
    if a == [] then 0 else Count(a[..|a| - 1], k) + if a[|a| - 1] == k then 1 else 0
  }

  lemma CountSnoc(a: seq<nat>, x: nat, k: nat)
    ensures Count(a + [x], k) == Count(a, k) + if x == k then 1 else 0
  {
    assert (a + [x])[..|a|] == a;
  }

  lemma {:induction false} CountIn(a: seq<nat>, k: nat)
    ensures Count(a, k) > 0 <==> k in a
  {
    if a != [] {
      CountIn(a[..|a| - 1], k);
      assert a == a[..|a| - 1] + [a[|a| - 1]];
    }
  }

  lemma {:induction false} CountTwice(a: seq<nat>, i: nat, j: nat)
    requires i < j < |a| && a[i] == a[j]
    ensures Count(a, a[i]) >= 2
  {
    var init := a[..|a| - 1];
    if j == |a| - 1 {
      assert init[i] == a[i];
      CountIn(init, a[i]);
    } else {
      CountTwice(init, i, j);
    }
  }

  predicate Holds(worker: Worker, k: nat) {
    worker == Writing(k)
  }

  /** How many workers hold the k-th event. */
  function Held(workers: seq<Worker>, k: nat): nat {
    if workers == [] then 0
    else Held(workers[..|workers| - 1], k) + if Holds(workers[|workers| - 1], k) then 1 else 0
  }

  lemma {:induction false} HeldReplaced(workers: seq<Worker>, w: nat, worker: Worker, k: nat)
    requires w < |workers|
    ensures Held(workers[w := worker], k) + (if Holds(workers[w], k) then 1 else 0)
      == Held(workers, k) + (if Holds(worker, k) then 1 else 0)
  {
    var last := |workers| - 1;
    if w < last {
      HeldReplaced(workers[..last], w, worker, k);
      assert workers[w := worker][..last] == workers[..last][w := worker];
    } else {
      assert workers[w := worker][..last] == workers[..last];
    }
  }

  /** How many workers hold an event. */
  function Busy(workers: seq<Worker>): nat {
    if workers == [] then 0
    else Busy(workers[..|workers| - 1]) + if workers[|workers| - 1].Writing? then 1 else 0
  }

  lemma {:induction false} BusyReplaced(workers: seq<Worker>, w: nat, worker: Worker)
    requires w < |workers|
    ensures Busy(workers[w := worker]) + (if workers[w].Writing? then 1 else 0)
      == Busy(workers) + (if worker.Writing? then 1 else 0)
  {
    var last := |workers| - 1;
    if w < last {
      BusyReplaced(workers[..last], w, worker);
      assert workers[w := worker][..last] == workers[..last][w := worker];
    } else {
      assert workers[w := worker][..last] == workers[..last];
    }
  }

  lemma {:induction false} NobodyBusy(workers: seq<Worker>, k: nat)
    requires forall w :: 0 <= w < |workers| ==> !workers[w].Writing?
    ensures Busy(workers) == 0 && Held(workers, k) == 0
  {
    if workers != [] {
      NobodyBusy(workers[..|workers| - 1], k);
    }
  }

  /** Each event that was taken is in one worker's hands, or written once, or given up once. */
  ghost predicate Accounted(taken: nat, workers: seq<Worker>, persisted: seq<nat>, failed: seq<nat>) {
    && taken == Busy(workers) + |persisted| + |failed|
    && forall k: nat :: Held(workers, k) + Count(persisted, k) + Count(failed, k) == if k < taken then 1 else 0
  }

  /** The queue is what was accepted and not yet taken, in order. */
  ghost predicate Inv(s: State) {
    && |s.queue| <= CAPACITY
    && s.accepted == s.taken + s.queue
    && Accounted(|s.taken|, s.workers, s.persisted, s.failed)
    && (s.closed ==> s.stopping && AllExited(s))
  }

  lemma InitIsValid(workers: int)
    ensures Inv(Init(workers))
  {
    var s := Init(workers);
    NobodyBusy(s.workers, 0);
    forall k: nat
      ensures Held(s.workers, k) + Count([], k) + Count([], k) == 0
    {
      NobodyBusy(s.workers, k);
    }
  }

  lemma TakenAccounted(taken: nat, workers: seq<Worker>, persisted: seq<nat>, failed: seq<nat>, w: nat)
    requires Accounted(taken, workers, persisted, failed) && w < |workers| && workers[w] == Waiting
    ensures Accounted(taken + 1, workers[w := Writing(taken)], persisted, failed)
  {
    var n: nat := taken;
    BusyReplaced(workers, w, Writing(n));
    forall k: nat
      ensures Held(workers[w := Writing(n)], k) + Count(persisted, k) + Count(failed, k) == if k < taken + 1 then 1 else 0
    {
      HeldReplaced(workers, w, Writing(n), k);
    }
  }

  lemma FinishedAccounted(taken: nat, workers: seq<Worker>, persisted: seq<nat>, failed: seq<nat>, w: nat)
    requires Accounted(taken, workers, persisted, failed) && w < |workers| && workers[w].Writing?
    ensures Accounted(taken, workers[w := Waiting], persisted + [workers[w].n], failed)
    ensures Accounted(taken, workers[w := Waiting], persisted, failed + [workers[w].n])
  {
    var n := workers[w].n;
    BusyReplaced(workers, w, Waiting);
    forall k: nat
      ensures Held(workers[w := Waiting], k) + Count(persisted + [n], k) + Count(failed, k) == if k < taken then 1 else 0
      ensures Held(workers[w := Waiting], k) + Count(persisted, k) + Count(failed + [n], k) == if k < taken then 1 else 0
    {
      HeldReplaced(workers, w, Waiting, k);
      CountSnoc(persisted, n, k);
      CountSnoc(failed, n, k);
    }
  }

  lemma ExitedAccounted(taken: nat, workers: seq<Worker>, persisted: seq<nat>, failed: seq<nat>, w: nat)
    requires Accounted(taken, workers, persisted, failed) && w < |workers| && workers[w] == Waiting
    ensures Accounted(taken, workers[w := Exited], persisted, failed)
  {
    BusyReplaced(workers, w, Exited);
    forall k: nat
      ensures Held(workers[w := Exited], k) == Held(workers, k)
    {
      HeldReplaced(workers, w, Exited, k);
    }
  }

  lemma StepKeepsInv(s: State, a: Action)
    requires Inv(s) && Enabled(s, a)
    ensures Inv(Apply(s, a))
  {
    match a
    case LogAsync(e) =>
      Assoc(s.taken, s.queue, [e]);
    case Receive(w) =>
      hide Accounted;
      TakenAccounted(|s.taken|, s.workers, s.persisted, s.failed, w);
      assert s.queue == [s.queue[0]] + s.queue[1..];
      Assoc(s.taken, [s.queue[0]], s.queue[1..]);
    case Finish(w, outcome) =>
      hide Accounted;
      FinishedAccounted(|s.taken|, s.workers, s.persisted, s.failed, w);
    case ObserveStop(w) =>
      hide Accounted;
      ExitedAccounted(|s.taken|, s.workers, s.persisted, s.failed, w);
    case SignalStop =>
    case CloseQueue =>
  }

  lemma {:induction false} RunKeepsInv(s: State, actions: seq<Action>, t: State)
    requires Inv(s) && Runs(s, actions, t)
    ensures Inv(t)
    decreases |actions|
  {
    if actions != [] {
      StepKeepsInv(s, actions[0]);
      RunKeepsInv(Apply(s, actions[0]), actions[1..], t);
    }
  }

  /** Over every interleaving: events leave the queue in the order they were accepted, it never
      holds more than its capacity, every accepted event is in exactly one of queue, hands,
      database and failures, and none is in the database twice. */
  lemma Conservation(workers: int, actions: seq<Action>, t: State)
    requires Runs(Init(workers), actions, t)
    ensures t.taken <= t.accepted && |t.queue| <= CAPACITY
    ensures |t.accepted| == |t.queue| + Busy(t.workers) + |t.persisted| + |t.failed|
    ensures forall k: nat ::
      Held(t.workers, k) + Count(t.persisted, k) + Count(t.failed, k) == if k < |t.taken| then 1 else 0
    ensures forall i, j :: 0 <= i < j < |t.persisted| ==> t.persisted[i] != t.persisted[j]
  {
    InitIsValid(workers);
    RunKeepsInv(Init(workers), actions, t);
    forall i, j | 0 <= i < j < |t.persisted|
      ensures t.persisted[i] != t.persisted[j]
    {
      if t.persisted[i] == t.persisted[j] {
        CountTwice(t.persisted, i, j);
      }
    }
  }

  // ----- shutdown -----

  predicate IsWorkerStep(a: Action) {
    a.Receive? || a.Finish? || a.ObserveStop?
  }

  function Weight(worker: Worker): nat {
    match worker
    case Waiting => 1
    case Writing(_) => 2
    case Exited => 0
  }

  function Weights(workers: seq<Worker>): nat {
    if workers == [] then 0 else Weights(workers[..|workers| - 1]) + Weight(workers[|workers| - 1])
  }

  lemma {:induction false} WeightReplaced(workers: seq<Worker>, w: nat, worker: Worker)
    requires w < |workers|
    ensures Weights(workers[w := worker]) + Weight(workers[w]) == Weights(workers) + Weight(worker)
  {
    var last := |workers| - 1;
    if w < last {
      WeightReplaced(workers[..last], w, worker);
      assert workers[w := worker][..last] == workers[..last][w := worker];
    } else {
      assert workers[w := worker][..last] == workers[..last];
    }
  }

  /** How many more steps the workers can take when nothing more is queued. */
  function Measure(s: State): nat {
    2 * |s.queue| + Weights(s.workers)
  }

  lemma WorkerStepDecreases(s: State, a: Action)
    requires Enabled(s, a) && IsWorkerStep(a)
    ensures Measure(Apply(s, a)) < Measure(s)
  {
    match a
    case Receive(w) => WeightReplaced(s.workers, w, Writing(|s.taken|));
    case Finish(w, _) => WeightReplaced(s.workers, w, Waiting);
    case ObserveStop(w) => WeightReplaced(s.workers, w, Exited);
  }

  ghost predicate NobodyLeftEarly(s: State) {
    s.stopping || forall w :: 0 <= w < |s.workers| ==> s.workers[w] != Exited
  }

  lemma {:induction false} RunNobodyLeft(s: State, actions: seq<Action>, t: State)
    requires NobodyLeftEarly(s) && Runs(s, actions, t)
    ensures NobodyLeftEarly(t)
    decreases |actions|
  {
    if actions != [] {
      assert NobodyLeftEarly(Apply(s, actions[0]));
      RunNobodyLeft(Apply(s, actions[0]), actions[1..], t);
    }
  }

  /** Over every interleaving: no worker exits before stop is signalled. */
  lemma ExitsOnlyAfterStop(workers: int, actions: seq<Action>, t: State, w: nat)
    requires Runs(Init(workers), actions, t) && w < |t.workers| && t.workers[w] == Exited
    ensures t.stopping
  {
    RunNobodyLeft(Init(workers), actions, t);
  }

  /** Once stop is signalled, any schedule of worker steps is no longer than the measure, and a
      worker that has not exited can always take one; so every schedule that goes on as long as
      it can ends with all workers exited, and the queue can then be closed. */
  lemma {:induction false} ShutdownTerminates(s: State, actions: seq<Action>, t: State)
    requires s.stopping && Runs(s, actions, t)
    requires forall i :: 0 <= i < |actions| ==> IsWorkerStep(actions[i])
    ensures |actions| + Measure(t) <= Measure(s) && t.stopping && t.closed == s.closed
    ensures (forall a :: IsWorkerStep(a) ==> !Enabled(t, a)) <==> AllExited(t)
    ensures AllExited(t) && !s.closed ==> Enabled(t, CloseQueue)
    decreases |actions|
  {
    if actions != [] {
      WorkerStepDecreases(s, actions[0]);
      ShutdownTerminates(Apply(s, actions[0]), actions[1..], t);
    } else if !AllExited(t) {
      var w :| 0 <= w < |t.workers| && t.workers[w] != Exited;
      assert Enabled(t, if t.workers[w] == Waiting then ObserveStop(w) else Finish(w, Written));
    }
  }

  /** The k-th accepted event was written or given up. */
  ghost predicate Done(t: State, k: nat) {
    k in t.persisted || k in t.failed
  }

  ghost predicate AllDone(t: State) {
    forall k: nat :: k < |t.accepted| ==> Done(t, k)
  }

  /** When all workers have exited, exactly the events that were taken from the queue are done. */
  lemma DoneIffTaken(t: State, k: nat)
    requires Inv(t) && AllExited(t)
    ensures Done(t, k) <==> k < |t.taken|
    ensures |t.accepted| == |t.persisted| + |t.failed| + |t.queue|
  {
    NobodyBusy(t.workers, k);
    CountIn(t.persisted, k);
    CountIn(t.failed, k);
    assert Held(t.workers, k) + Count(t.persisted, k) + Count(t.failed, k) == if k < |t.taken| then 1 else 0;
  }

  lemma AllDoneIffEmpty(t: State)
    requires Inv(t) && AllExited(t)
    ensures AllDone(t) <==> t.queue == []
  {
    forall k: nat
      ensures Done(t, k) <==> k < |t.taken|
    {
      DoneIffTaken(t, k);
    }
    hide Done;
    if t.queue != [] {
      assert !Done(t, |t.taken|);
    }
  }

  /** When the service is closed, what was accepted has been written or given up, except what was
      still queued. */
  lemma ClosedLeavesQueue(workers: int, actions: seq<Action>, t: State)
    requires Runs(Init(workers), actions, t) && t.closed
    ensures |t.accepted| == |t.persisted| + |t.failed| + |t.queue|
    ensures AllDone(t) <==> t.queue == []
  {
    InitIsValid(workers);
    RunKeepsInv(Init(workers), actions, t);
    DoneIffTaken(t, 0);
    AllDoneIffEmpty(t);
  }

  /** A run of worker steps alone: no caller logs in the meantime. */
  ghost predicate WorkerRun(s: State, actions: seq<Action>, t: State) {
    Runs(s, actions, t) && forall i :: 0 <= i < |actions| ==> IsWorkerStep(actions[i])
  }

  /** A run of worker steps that ends with all workers exited. */
  ghost predicate Ends(s: State, actions: seq<Action>, t: State) {
    WorkerRun(s, actions, t) && AllExited(t)
  }

  lemma RunFrom(s: State, a: Action, rest: seq<Action>, t: State)
    requires Enabled(s, a) && IsWorkerStep(a) && Ends(Apply(s, a), rest, t)
    ensures Ends(s, [a] + rest, t)
  {
    assert ([a] + rest)[1..] == rest;
  }

  /** Workers alone accept nothing, and an empty queue stays empty. */
  lemma {:induction false} WorkersOnlyTake(s: State, actions: seq<Action>, t: State)
    requires Inv(s) && WorkerRun(s, actions, t)
    ensures Inv(t) && t.accepted == s.accepted && (s.queue == [] ==> t.queue == [])
    decreases |actions|
  {
    if actions != [] {
      StepKeepsInv(s, actions[0]);
      hide Inv;
      WorkersOnlyTake(Apply(s, actions[0]), actions[1..], t);
    }
  }

  /** The schedule in which every worker finishes what it has in hand and then sees the stop:
      it leaves the queue as it is. */
  lemma {:induction false} Settle(s: State) returns (actions: seq<Action>, t: State)
    requires s.stopping
    ensures Ends(s, actions, t) && t.queue == s.queue
    decreases Measure(s)
  {
    if AllExited(s) {
      return [], s;
    }
    var w: nat :| w < |s.workers| && s.workers[w] != Exited;
    var a := if s.workers[w] == Waiting then ObserveStop(w) else Finish(w, Written);
    WorkerStepDecreases(s, a);
    actions, t := Settle(Apply(s, a));
    RunFrom(s, a, actions, t);
    actions := [a] + actions;
  }

  /** The schedule in which one worker that has not exited empties the queue first. */
  lemma {:induction false} Drain(s: State, w: nat) returns (actions: seq<Action>, t: State)
    requires s.stopping && w < |s.workers| && s.workers[w] != Exited
    ensures Ends(s, actions, t) && t.queue == []
    decreases Measure(s)
  {
    if s.workers[w] == Waiting && s.queue == [] {
      actions, t := Settle(s);
      return;
    }
    var a := if s.workers[w] == Waiting then Receive(w) else Finish(w, Written);
    WorkerStepDecreases(s, a);
    actions, t := Drain(Apply(s, a), w);
    RunFrom(s, a, actions, t);
    actions := [a] + actions;
  }

  /** In every state that the service can reach, once stop is signalled: whatever the schedule, the
      workers write or give up all accepted events before they exit, exactly when the queue is
      empty already. */
  lemma CloseLosesNothingIff(workers: int, before: seq<Action>, s: State)
    requires Runs(Init(workers), before, s) && s.stopping
    ensures s.queue == [] <==> forall actions, t :: Ends(s, actions, t) ==> AllDone(t)
  {
    InitIsValid(workers);
    RunKeepsInv(Init(workers), before, s);
    hide Inv, AllDone;
    forall actions, t | Ends(s, actions, t)
      ensures Inv(t) && (s.queue == [] ==> AllDone(t)) && (t.queue != [] ==> !AllDone(t))
    {
      WorkersOnlyTake(s, actions, t);
      AllDoneIffEmpty(t);
    }
    var actions, t := Settle(s);
  }

  lemma LastDoneIffEmpty(u: State, actions: seq<Action>, t: State, n: nat)
    requires Inv(u) && Ends(u, actions, t) && |u.accepted| == n + 1
    ensures t.accepted == u.accepted && (Done(t, n) <==> t.queue == [])
  {
    WorkersOnlyTake(u, actions, t);
    DoneIffTaken(t, n);
  }

  lemma NobodyMoves(s: State, actions: seq<Action>, t: State)
    requires AllExited(s) && WorkerRun(s, actions, t)
    ensures t == s
  {
  }

  /** An event that is accepted between stop and close is left behind by some schedule, and done by
      some other exactly when a worker has not exited yet. */
  lemma LoggedAfterStop(workers: int, before: seq<Action>, s: State, e: Event)
    requires Runs(Init(workers), before, s) && s.stopping && !s.closed && |s.queue| < CAPACITY
    ensures var u, n := Apply(s, LogAsync(e)), |s.accepted|;
      && (exists actions, t :: Ends(u, actions, t) && t.accepted == s.accepted + [e] && !Done(t, n))
      && ((exists actions, t :: Ends(u, actions, t) && Done(t, n)) <==> !AllExited(s))
  {
    InitIsValid(workers);
    RunKeepsInv(Init(workers), before, s);
    var u, n := Apply(s, LogAsync(e)), |s.accepted|;
    StepKeepsInv(s, LogAsync(e));
    forall actions, t | Ends(u, actions, t)
      ensures t.accepted == s.accepted + [e] && (Done(t, n) <==> t.queue == [])
    {
      LastDoneIffEmpty(u, actions, t, n);
    }
    hide Inv, Done;
    var actions, t := Settle(u);
    if AllExited(s) {
      forall actions, t | Ends(u, actions, t)
        ensures t == u
      {
        NobodyMoves(u, actions, t);
      }
    } else {
      var w: nat :| w < |s.workers| && s.workers[w] != Exited;
      actions, t := Drain(u, w);
    }
  }

  /** Closing does not wait for the queue: with one worker, an event that was accepted before the
      stop can be left behind. */
  lemma AcceptedEventLeftBehind(e: Event)
    ensures exists actions, t :: Runs(Init(1), actions, t) && t.closed && t.accepted == [e] && t.queue == [e]
  {
    var s0 := Init(1);
    var s1 := Apply(s0, LogAsync(e));
    var s2 := Apply(s1, SignalStop);
    assert s2.workers[0] == Waiting;
    var s3 := Apply(s2, ObserveStop(0));
    assert AllExited(s3);
    var s4 := Apply(s3, CloseQueue);
    var a := [LogAsync(e), SignalStop, ObserveStop(0), CloseQueue];
    assert a[1..] == [SignalStop, ObserveStop(0), CloseQueue];
    assert a[1..][1..] == [ObserveStop(0), CloseQueue];
    assert a[1..][1..][1..] == [CloseQueue];
    assert Runs(s4, [], s4);
    assert Runs(s3, [CloseQueue], s4);
    assert Runs(s2, [ObserveStop(0), CloseQueue], s4);
    assert Runs(s1, a[1..], s4);
    assert Runs(s0, a, s4);
  }

  // ----- the service object -----

  /** The rows are the events with these numbers. */
  ghost predicate RowsMatch(rows: seq<Event>, taken: seq<Event>, persisted: seq<nat>) {
    && |rows| == |persisted|
    && forall i :: 0 <= i < |rows| ==> persisted[i] < |taken| && rows[i] == taken[persisted[i]]
  }

  /** The service: its channel, its stop signal and the table it writes. Where the workers are,
      and what became of each event, is history that only the specification sees. */
  class AuditService {
    var queue: seq<Event>
    var stopping: bool
    var closed: bool
    var database: seq<Event>
    ghost var workers: seq<Worker>
    ghost var accepted: seq<Event>
    ghost var taken: seq<Event>
    ghost var persisted: seq<nat>
    ghost var failed: seq<nat>

    ghost function Abs(): State
      reads this
    {
      State(queue, workers, stopping, closed, accepted, taken, persisted, failed)
    }

    /** The rows of the table are the events that were persisted. */
    ghost predicate Valid()
      reads this
    {
      Inv(Abs()) && RowsMatch(database, taken, persisted)
    }

    constructor (n: int)
      ensures Valid() && Abs() == Init(n) && database == []
      ensures |workers| == (if n <= 0 then 5 else n) && forall w :: 0 <= w < |workers| ==> workers[w] == Waiting
      ensures queue == [] && !stopping && !closed
    {
      queue, stopping, closed, database := [], false, false, [];
      workers := Init(n).workers;
      accepted, taken, persisted, failed := [], [], [], [];
      new;
      InitIsValid(n);
    }

    /** The send of `LogEventAsync` never blocks. */
    method LogEventAsync(event: Event)
      requires Valid() && Enabled(Abs(), LogAsync(event))
      modifies this
      ensures Valid() && Abs() == Apply(old(Abs()), LogAsync(event)) && database == old(database)
      ensures if |old(queue)| >= 1000 then queue == old(queue) && accepted == old(accepted)
        else queue == old(queue) + [event] && accepted == old(accepted) + [event]
    {
      assert |queue| <= CAPACITY;
      hide Inv;
      StepKeepsInv(Abs(), LogAsync(event));
      if |queue| < CAPACITY {
        queue := queue + [event];
        accepted := accepted + [event];
      }
    }

    /** A worker's receive from the queue. */
    method TakeEvent(ghost w: nat) returns (event: Event)
      requires Valid() && Enabled(Abs(), Receive(w))
      modifies this
      ensures Valid() && Abs() == Apply(old(Abs()), Receive(w)) && database == old(database)
      ensures workers == old(workers)[w := Writing(|taken| - 1)] && event == taken[|taken| - 1] == old(queue)[0]
      ensures queue == old(queue)[1..] && taken == old(taken) + [event] && accepted == old(accepted)
    {
      hide Inv;
      StepKeepsInv(Abs(), Receive(w));
      event := queue[0];
      workers := workers[w := Writing(|taken|)];
      taken := taken + [event];
      queue := queue[1..];
    }

    /** The rest of the loop body: the event in hand reaches the database, or is given up. */
    method FinishEvent(ghost w: nat, event: Event, outcome: Outcome)
      requires Valid() && Enabled(Abs(), Finish(w, outcome))
      requires workers[w].n < |taken| && event == taken[workers[w].n]
      modifies this
      ensures Valid() && Abs() == Apply(old(Abs()), Finish(w, outcome))
      ensures database == if outcome == Written then old(database) + [event] else old(database)
      ensures workers == old(workers)[w := Waiting] && queue == old(queue) && taken == old(taken)
      ensures var n := old(workers)[w].n;
        && persisted == old(persisted) + (if outcome == Written then [n] else [])
        && failed == old(failed) + (if outcome == Written then [] else [n])
    {
      hide Inv;
      StepKeepsInv(Abs(), Finish(w, outcome));
      ghost var n := workers[w].n;
      workers := workers[w := Waiting];
      if outcome == EncodeFailed || outcome == WriteFailed {
        failed := failed + [n];
        return;
      }
      database := database + [event];
      persisted := persisted + [n];
    }

    method LeaveLoop(ghost w: nat)
      requires Valid() && Enabled(Abs(), ObserveStop(w))
      modifies this
      ensures Valid() && Abs() == Apply(old(Abs()), ObserveStop(w)) && database == old(database)
      ensures workers == old(workers)[w := Exited] && queue == old(queue)
    {
      hide Inv;
      StepKeepsInv(Abs(), ObserveStop(w));
      workers := workers[w := Exited];
    }

    /** The first half of `Close`. */
    method BeginClose()
      requires Valid() && Enabled(Abs(), SignalStop)
      modifies this
      ensures Valid() && Abs() == Apply(old(Abs()), SignalStop) && database == old(database)
      ensures stopping && queue == old(queue) && workers == old(workers)
    {
      hide Inv;
      StepKeepsInv(Abs(), SignalStop);
      stopping := true;
    }

    /** The second half of `Close`, after the wait for the workers. */
    method EndClose()
      requires Valid() && Enabled(Abs(), CloseQueue)
      modifies this
      ensures Valid() && Abs() == Apply(old(Abs()), CloseQueue) && database == old(database)
      ensures closed && queue == old(queue) && workers == old(workers)
    {
      hide Inv;
      StepKeepsInv(Abs(), CloseQueue);
      closed := true;
    }
  }
}
