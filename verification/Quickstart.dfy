/** The provisioning of a network: the port layout, the retry loops, and the phases that join,
    restart and check the nodes. */
module Quickstart {
  import opened Int64Codec
  import opened Lines
  import opened Strings

  // ----- ports -----

  datatype PartyPorts = PartyPorts(
    router: int, batcher: int, consenter: int, assembler: int,
    sidecar: int, coordinator: int, validator: int, verifier: int, queryService: int)
  {
    function List(): (r: seq<int>)
      ensures |r| == 9
    {
      [router, batcher, consenter, assembler, sidecar, coordinator, validator, verifier, queryService]
    }
  }

  function PortsForParty(basePort: int, slotSize: int, i: int): PartyPorts {
    var base := basePort + i * slotSize;
    PartyPorts(base, base + 1, base + 2, base + 3, base + 10, base + 11, base + 12, base + 13, base + 14)
  }

  /** The k-th port of the i-th party. */
  function Port(basePort: int, slotSize: int, i: int, k: int): int
    requires 0 <= k < 9
  {
    PortsForParty(basePort, slotSize, i).List()[k]
  }

  ghost predicate PortsDistinct(basePort: int, slotSize: int, parties: nat) {
    forall i, k, j, l ::
      0 <= i < parties && 0 <= k < 9 && 0 <= j < parties && 0 <= l < 9 && (i, k) != (j, l) ==>
        Port(basePort, slotSize, i, k) != Port(basePort, slotSize, j, l)
  }

  /** Slot sizes that keep any two parties apart: wide enough, or for two parties alone a size
      that no two of the nine ports of a party are apart. */
  predicate SlotsFit(slotSize: int, parties: nat) {
    var s := if slotSize < 0 then -slotSize else slotSize;
    parties <= 1 || s >= 15 || (parties == 2 && (s == 5 || s == 6))
  }

  lemma PortOffset(basePort: int, slotSize: int, i: int, k: int)
    requires 0 <= k < 9
    ensures Port(basePort, slotSize, i, k) == basePort + i * slotSize + if k < 4 then k else k + 6
    ensures var p, base := PortsForParty(basePort, slotSize, i), basePort + i * slotSize;
      && p.router == base && p.batcher == base + 1 && p.consenter == base + 2 && p.assembler == base + 3
      && p.sidecar == base + 10 && p.coordinator == base + 11 && p.validator == base + 12
      && p.verifier == base + 13 && p.queryService == base + 14
  {
  }

  lemma FarApart(i: int, j: int, slotSize: int)
    requires i != j && (slotSize >= 15 || slotSize <= -15)
    ensures i * slotSize - j * slotSize >= 15 || i * slotSize - j * slotSize <= -15
  {
    var d := i - j;
    assert i * slotSize - j * slotSize == d * slotSize;
    if d >= 1 {
      assert slotSize >= 15 ==> d * slotSize >= 15;
      assert slotSize <= -15 ==> d * slotSize <= -15;
    } else {
      assert slotSize >= 15 ==> d * slotSize <= -15;
      assert slotSize <= -15 ==> d * slotSize >= 15;
    }
  }

  lemma FitDistinct(basePort: int, slotSize: int, parties: nat)
    requires SlotsFit(slotSize, parties)
    ensures PortsDistinct(basePort, slotSize, parties)
  {
    forall i, k, j, l | 0 <= i < parties && 0 <= k < 9 && 0 <= j < parties && 0 <= l < 9 && (i, k) != (j, l)
      ensures Port(basePort, slotSize, i, k) != Port(basePort, slotSize, j, l)
    {
      PortOffset(basePort, slotSize, i, k);
      PortOffset(basePort, slotSize, j, l);
      if i != j && parties > 2 {
        FarApart(i, j, slotSize);
      }
    }
  }

  /** Two ports of parties i < 3 that coincide when the slots do not fit. */
  lemma Clash(basePort: int, s: int, parties: nat) returns (i: int, k: int, j: int, l: int)
    requires 0 <= s && !SlotsFit(s, parties)
    ensures 0 <= i < parties && 0 <= k < 9 && 0 <= j < parties && 0 <= l < 9 && i != j
    ensures Port(basePort, s, i, k) == Port(basePort, s, j, l)
  {
    i, j, l := 0, 1, 0;
    if s <= 3 {
      k := s;
    } else if s == 4 {
      k, l := 8, 4;
    } else if s == 5 {
      j, k := 2, 4;
    } else if s == 6 {
      j, k := 2, 6;
    } else if s <= 9 {
      k, l := 4, 10 - s;
    } else {
      k := s - 6;
    }
    PortOffset(basePort, s, i, k);
    PortOffset(basePort, s, j, l);
  }

  /** A negative slot size lays the parties out in the other direction. */
  lemma Mirrored(basePort: int, s: int, i: int, k: int, j: int, l: int)
    requires 0 <= k < 9 && 0 <= l < 9
    requires Port(basePort, s, i, k) == Port(basePort, s, j, l)
    ensures Port(basePort, -s, j, k) == Port(basePort, -s, i, l)
  {
    hide Port;
    PortOffset(basePort, s, i, k);
    PortOffset(basePort, s, j, l);
    PortOffset(basePort, -s, j, k);
    PortOffset(basePort, -s, i, l);
    assert i * -s == -(i * s) && j * -s == -(j * s);
  }

  lemma NotFitClash(basePort: int, slotSize: int, parties: nat)
    requires !SlotsFit(slotSize, parties)
    ensures !PortsDistinct(basePort, slotSize, parties)
  {
    hide Port;
    var i, k, j, l := Clash(basePort, if slotSize < 0 then -slotSize else slotSize, parties);
    if slotSize < 0 {
      Mirrored(basePort, -slotSize, i, k, j, l);
      assert -(-slotSize) == slotSize;
      assert Port(basePort, slotSize, j, k) == Port(basePort, slotSize, i, l);
    } else {
      assert Port(basePort, slotSize, i, k) == Port(basePort, slotSize, j, l);
    }
  }

  /** For every number of parties and every slot size, the ports are pairwise distinct exactly
      when the slots fit; from three parties on, exactly when a slot is at least 15 wide. */
  lemma PortsDistinctIff(basePort: int, slotSize: int, parties: nat)
    ensures PortsDistinct(basePort, slotSize, parties) <==> SlotsFit(slotSize, parties)
    ensures parties >= 3 && slotSize >= 0 ==> (PortsDistinct(basePort, slotSize, parties) <==> slotSize >= 15)
  {
    hide PortsDistinct;
    if SlotsFit(slotSize, parties) {
      FitDistinct(basePort, slotSize, parties);
    } else {
      NotFitClash(basePort, slotSize, parties);
    }
  }

  // ----- retries -----

  /** What a request comes back with. */
  datatype Reply = Success | TransportError(message: string) | HttpError(message: string)

  datatype RetryResult = Nil | Failed(message: string) | Cancelled

  /** Errors that a retry will not clear. */
  predicate IsNonTransient(message: string) {
    || Contains(message, "HTTP 400") || Contains(message, "HTTP 401") || Contains(message, "HTTP 403")
    || Contains(message, "HTTP 404") || Contains(message, "HTTP 409") || Contains(message, "HTTP 422")
  }

  /** The join loop gives up on any such error, the start loop only when the server sent it. */
  datatype Loop = JoinLoop | StartLoop

  predicate TriedAgain(loop: Loop, reply: Reply) {
    match reply
    case Success => false
    case TransportError(m) => loop == StartLoop || !IsNonTransient(m)
    case HttpError(m) => !IsNonTransient(m)
  }

  /** The loop from attempt `a` on, after `last`; `cancelled(a)` is whether the wait before
      attempt a is cut short. The second component counts the attempts made in all. */
  function Retry(loop: Loop, reply: nat -> Reply, cancelled: nat -> bool, retries: int, a: nat, last: RetryResult)
    : (RetryResult, nat)
    decreases retries - a
  {
    if a > retries then (last, a)
    else if a > 0 && cancelled(a) then (Cancelled, a)
    else if reply(a) == Success then (Nil, a + 1)
    else if TriedAgain(loop, reply(a)) then Retry(loop, reply, cancelled, retries, a + 1, Failed(reply(a).message))
    else (Failed(reply(a).message), a + 1)
  }

  function Power2(n: nat): (r: nat)
    ensures r >= 1
  {
    if n == 0 then 1 else 2 * Power2(n - 1)
  }

  /** A `time.Duration`. */
  type Duration = d: int | FitsInt64(d) witness 0

  /** A product of durations as the machine keeps it, in 64 bits. */
  function Wrap64(x: int): (r: int)
    ensures FitsInt64(r) && (FitsInt64(x) ==> r == x)
    ensures x >= TWO_63 ==> r < x
    ensures (x - r) % 0x1_0000_0000_0000_0000 == 0
  {
    (x + TWO_63) % TWO_64 - TWO_63
  }

  lemma SameRemainder(y: int, k: int)
    ensures (y - k * TWO_64) % TWO_64 == y % TWO_64
  {
  }

  lemma WrapTwice(x: int)
    ensures Wrap64(Wrap64(x) * 2) == Wrap64(x * 2)
  {
    var q := (x + TWO_63) / TWO_64;
    assert Wrap64(x) == x - q * TWO_64;
    SameRemainder(x * 2 + TWO_63, 2 * q);
  }

  /** The wait before attempt k: the base, doubled each time. */
  function Backoff(base: int, k: nat): int
    requires k >= 1
  {
    Wrap64(base * Power2(k - 1))
  }

  lemma BackoffNext(base: int, k: nat)
    requires k >= 1
    ensures Backoff(base, k + 1) == Wrap64(Backoff(base, k) * 2)
  {
    var p := Power2(k - 1);
    WrapTwice(base * p);
    assert Power2(k) == 2 * p;
    assert base * (2 * p) == base * p * 2;
  }

  /** The time slept before n attempts: a wait that is not positive is over at once. */
  function Slept(base: int, n: nat): nat {
    if n <= 1 then 0
    else Slept(base, n - 1) + if Backoff(base, n - 1) > 0 then Backoff(base, n - 1) else 0
  }

  /** The sum of n - 1 waits that double from the base. */
  function TotalWait(base: int, n: nat): int {
    if n <= 1 then 0 else base * (Power2(n - 1) - 1)
  }

  lemma WaitStep(base: int, a: nat)
    requires a >= 1
    ensures TotalWait(base, a + 1) == TotalWait(base, a) + base * Power2(a - 1)
  {
    assert Power2(a) == 2 * Power2(a - 1);
    var p := Power2(a - 1);
    var q: int := p;
    assert base * (2 * q - 1) == base * (q - 1) + base * q;
  }

  lemma PowersGrow(base: int, k: nat)
    requires base >= 0
    ensures 0 <= base * Power2(k) && base * Power2(k + 1) == 2 * (base * Power2(k))
  {
    var p := Power2(k);
    assert base * (2 * p) == 2 * (base * p);
  }

  lemma SleptNext(base: int, n: nat)
    requires n >= 1
    ensures var x := base * Power2(n - 1);
      && Slept(base, n + 1) == Slept(base, n) + (if Wrap64(x) > 0 then Wrap64(x) else 0)
      && (0 <= x < TWO_63 ==> Wrap64(x) == x) && (x >= TWO_63 ==> Wrap64(x) < x)
  {
    hide Power2, Wrap64;
  }

  lemma NegativeTotal(base: int, n: nat)
    requires base < 0 && n > 1
    ensures TotalWait(base, n) < 0
  {
    var p := Power2(n - 2);
    assert Power2(n - 1) == 2 * p;
    hide Power2;
    assert base * (2 * p - 1) < 0;
  }

  lemma NoTotal(base: int)
    ensures TotalWait(base, 1) == 0 && Slept(base, 1) == 0
  {
  }

  /** The time slept before n attempts is base * (2^(n-1) - 1) exactly when there was no wait, or
      the base is not negative and the last wait still fits in 64 bits. */
  lemma {:induction false} SleptIff(base: int, n: nat)
    ensures base >= 0 ==> Slept(base, n) <= TotalWait(base, n)
    ensures Slept(base, n) == TotalWait(base, n) <==> n <= 1 || (base >= 0 && base * Power2(n - 2) < TWO_63)
  {
    if n > 1 {
      SleptNext(base, n - 1);
      hide *;
      if base < 0 {
        NegativeTotal(base, n);
      } else {
        SleptIff(base, n - 1);
        WaitStep(base, n - 1);
        PowersGrow(base, n - 2);
        if n > 2 {
          PowersGrow(base, n - 3);
        } else {
          NoTotal(base);
        }
      }
    }
  }

  lemma NoWaitYet(base: int)
    requires FitsInt64(base)
    ensures Slept(base, 0) == 0 && Slept(base, 1) == 0 && Backoff(base, 1) == base
  {
  }

  lemma RetryUnfold(loop: Loop, reply: nat -> Reply, cancelled: nat -> bool, retries: int, a: nat, last: RetryResult)
    ensures Retry(loop, reply, cancelled, retries, a, last)
      == if a > retries then (last, a)
         else if a > 0 && cancelled(a) then (Cancelled, a)
         else if reply(a) == Success then (Nil, a + 1)
         else if !(loop == StartLoop && reply(a).TransportError?) && IsNonTransient(reply(a).message)
         then (Failed(reply(a).message), a + 1)
         else Retry(loop, reply, cancelled, retries, a + 1, Failed(reply(a).message))
  {
    hide IsNonTransient;
  }

  lemma SleptStep(base: int, n: nat)
    requires n >= 1
    ensures Slept(base, n + 1) == Slept(base, n) + (if Backoff(base, n) > 0 then Backoff(base, n) else 0)
  {
    hide Backoff;
  }

  /** The wait before an attempt: none before the first, and it can be cut short. */
  method AwaitAttempt(cancelled: nat -> bool, base: Duration, attempts: nat, backoff0: int, waited0: int)
    returns (stop: bool, backoff: int, waited: int)
    requires waited0 == Slept(base, attempts) && backoff0 == if attempts == 0 then base else Backoff(base, attempts)
    ensures stop == (attempts > 0 && cancelled(attempts))
    ensures waited == Slept(base, if stop then attempts else attempts + 1)
    ensures !stop ==> backoff == Backoff(base, attempts + 1)
  {
    hide *;
    stop, backoff, waited := false, backoff0, waited0;
    if attempts > 0 {
      if cancelled(attempts) {
        stop := true;
        return;
      }
      SleptStep(base, attempts);
      BackoffNext(base, attempts);
      waited := waited + if backoff > 0 then backoff else 0;
      backoff := Wrap64(backoff * 2);
    } else {
      NoWaitYet(base);
    }
  }

  /** The loop of the two functions. */
  method RetryLoop(loop: Loop, reply: nat -> Reply, cancelled: nat -> bool, retries: int, base: Duration)
    returns (r: RetryResult, attempts: nat, waited: int)
    ensures (r, attempts) == Retry(loop, reply, cancelled, retries, 0, Nil)
    ensures waited == Slept(base, attempts)
  {
    hide *;
    var lastErr := Nil;
    var backoff: int := base;
    attempts, waited := 0, 0;
    NoWaitYet(base);
    while attempts <= retries
      invariant Retry(loop, reply, cancelled, retries, 0, Nil) == Retry(loop, reply, cancelled, retries, attempts, lastErr)
      invariant waited == Slept(base, attempts)
      invariant backoff == if attempts == 0 then base else Backoff(base, attempts)
      decreases retries - attempts
    {
      RetryUnfold(loop, reply, cancelled, retries, attempts, lastErr);
      var stop;
      stop, backoff, waited := AwaitAttempt(cancelled, base, attempts, backoff, waited);
      if stop {
        return Cancelled, attempts, waited;
      }
      var answer := reply(attempts);
      attempts := attempts + 1;
      if answer == Success {
        return Nil, attempts, waited;
      }
      lastErr := Failed(answer.message);
      if !(loop == StartLoop && answer.TransportError?) && IsNonTransient(answer.message) {
        return lastErr, attempts, waited;
      }
    }
    RetryUnfold(loop, reply, cancelled, retries, attempts, lastErr);
    r := lastErr;
  }

  /** `joinNodeWithRetry` and `startNodeWithRetry`: they differ in what they try again. `waited` is
      the time slept in waits that were not cut short. */
  method SendWithRetry(loop: Loop, reply: nat -> Reply, cancelled: nat -> bool, retries: int, base: Duration)
    returns (r: RetryResult, attempts: nat, waited: int)
    ensures (r, attempts) == Retry(loop, reply, cancelled, retries, 0, Nil)
    ensures waited == Slept(base, attempts)
    ensures waited == TotalWait(base, attempts) <==> attempts <= 1 || (base >= 0 && base * Power2(attempts - 2) < TWO_63)
  {
    hide *;
    r, attempts, waited := RetryLoop(loop, reply, cancelled, retries, base);
    SleptIff(base, attempts);
  }

  ghost predicate Mentions(message: string, code: string) {
    exists i: nat :: Occurs(message, code, i)
  }

  /** The replies after which the loops go on: those that mention none of six client errors, and
      in the start loop every one that never reached the server. */
  ghost predicate GoesOnAfter(loop: Loop, reply: Reply)
    requires reply != Success
  {
    || (loop == StartLoop && reply.TransportError?)
    || !(|| Mentions(reply.message, "HTTP 400") || Mentions(reply.message, "HTTP 401")
         || Mentions(reply.message, "HTTP 403") || Mentions(reply.message, "HTTP 404")
         || Mentions(reply.message, "HTTP 409") || Mentions(reply.message, "HTTP 422"))
  }

  lemma MentionsIff(message: string, code: string)
    ensures Contains(message, code) <==> Mentions(message, code)
  {
  }

  lemma TriedAgainIff(loop: Loop, reply: Reply)
    requires reply != Success
    ensures TriedAgain(loop, reply) <==> GoesOnAfter(loop, reply)
  {
    var m := reply.message;
    MentionsIff(m, "HTTP 400");
    MentionsIff(m, "HTTP 401");
    MentionsIff(m, "HTTP 403");
    MentionsIff(m, "HTTP 404");
    MentionsIff(m, "HTTP 409");
    MentionsIff(m, "HTTP 422");
    hide Contains, Mentions;
  }

  /** An attempt is made at once unless the limit is passed or the wait before it is cut short. */
  lemma {:induction false} RetryStarts(loop: Loop, reply: nat -> Reply, cancelled: nat -> bool, retries: int,
                                       a: nat, last: RetryResult)
    ensures Retry(loop, reply, cancelled, retries, a, last).1 >= a
    ensures Retry(loop, reply, cancelled, retries, a, last).1 > a <==> a <= retries && (a > 0 ==> !cancelled(a))
    decreases retries - a
  {
    hide TriedAgain;
    if a <= retries && !(a > 0 && cancelled(a)) && reply(a) != Success && TriedAgain(loop, reply(a)) {
      RetryStarts(loop, reply, cancelled, retries, a + 1, Failed(reply(a).message));
    }
  }

  /** Where the loop is before attempt k, when that attempt is made. */
  lemma {:induction false} RetryComesTo(loop: Loop, reply: nat -> Reply, cancelled: nat -> bool, retries: int,
                                        a: nat, last: RetryResult, k: nat) returns (last': RetryResult)
    requires a <= k < Retry(loop, reply, cancelled, retries, a, last).1
    ensures Retry(loop, reply, cancelled, retries, a, last) == Retry(loop, reply, cancelled, retries, k, last')
    ensures k <= retries && (k > a ==> !cancelled(k)) && (k == a ==> last' == last)
    decreases retries - a
  {
    hide TriedAgain;
    if a == k {
      last' := last;
    } else {
      last' := RetryComesTo(loop, reply, cancelled, retries, a + 1, Failed(reply(a).message), k);
      RetryStarts(loop, reply, cancelled, retries, a + 1, Failed(reply(a).message));
    }
  }

  /** After a failing reply that is not the last allowed, and a wait that is not cut short, there is
      another attempt exactly when the loop goes on after such a reply. */
  lemma FollowedIff(loop: Loop, reply: nat -> Reply, cancelled: nat -> bool, retries: int, k: nat)
    requires k < Retry(loop, reply, cancelled, retries, 0, Nil).1 && reply(k) != Success
    requires k < retries && !cancelled(k + 1)
    ensures k + 1 < Retry(loop, reply, cancelled, retries, 0, Nil).1 <==> GoesOnAfter(loop, reply(k))
  {
    var last := RetryComesTo(loop, reply, cancelled, retries, 0, Nil, k);
    TriedAgainIff(loop, reply(k));
    RetryStarts(loop, reply, cancelled, retries, k, last);
    RetryStarts(loop, reply, cancelled, retries, k + 1, Failed(reply(k).message));
    hide TriedAgain, GoesOnAfter;
  }

  /** Every attempt before the k-th failed in a way that is tried again. */
  ghost predicate AllTriedAgain(loop: Loop, reply: nat -> Reply, k: nat) {
    forall j: nat :: j < k ==> TriedAgain(loop, reply(j))
  }

  /** Attempt k is made: those before it are tried again, and no wait up to it is cut short. */
  ghost predicate Made(loop: Loop, reply: nat -> Reply, cancelled: nat -> bool, k: nat) {
    AllTriedAgain(loop, reply, k) && forall j: nat :: 1 <= j <= k ==> !cancelled(j)
  }

  /** Attempt k is made within the limit and succeeds. */
  ghost predicate SucceedsAt(loop: Loop, reply: nat -> Reply, cancelled: nat -> bool, retries: int, k: nat) {
    k <= retries && Made(loop, reply, cancelled, k) && reply(k) == Success
  }

  lemma {:induction false} RetryFrom(loop: Loop, reply: nat -> Reply, cancelled: nat -> bool, retries: int,
                                     a: nat, last: RetryResult)
    requires AllTriedAgain(loop, reply, a) && (forall j: nat :: 1 <= j < a ==> !cancelled(j))
    requires last == Nil <==> a == 0
    requires a <= retries + 1 || a == 0
    ensures Retry(loop, reply, cancelled, retries, a, last).0 == Nil
      <==> retries < 0 || exists k: nat :: a <= k && SucceedsAt(loop, reply, cancelled, retries, k)
    decreases retries - a
  {
    hide IsNonTransient;
    if a > retries {
      return;
    }
    if a > 0 && cancelled(a) {
      forall k: nat | a <= k
        ensures !SucceedsAt(loop, reply, cancelled, retries, k)
      {
      }
    } else if reply(a) == Success {
      assert SucceedsAt(loop, reply, cancelled, retries, a);
    } else if TriedAgain(loop, reply(a)) {
      hide TriedAgain;
      var next := Failed(reply(a).message);
      RetryFrom(loop, reply, cancelled, retries, a + 1, next);
      assert !SucceedsAt(loop, reply, cancelled, retries, a);
    } else {
      hide TriedAgain;
      forall k: nat | a <= k
        ensures !SucceedsAt(loop, reply, cancelled, retries, k)
      {
        if k > a {
          assert !AllTriedAgain(loop, reply, k);
        }
      }
    }
  }

  /** The loop reports success exactly when some attempt within the limit is made and succeeds:
      every reply before it is tried again and no wait before it is cut short. For a negative
      number of retries it reports success without any attempt. */
  lemma RetrySucceedsIff(loop: Loop, reply: nat -> Reply, cancelled: nat -> bool, retries: int)
    ensures Retry(loop, reply, cancelled, retries, 0, Nil).0 == Nil
      <==> retries < 0 || exists k: nat :: SucceedsAt(loop, reply, cancelled, retries, k)
    ensures retries < 0 ==> Retry(loop, reply, cancelled, retries, 0, Nil) == (Nil, 0)
  {
    RetryFrom(loop, reply, cancelled, retries, 0, Nil);
  }

  /** What the loop from attempt `a` on has come to after n attempts in all. */
  ghost predicate EndsRight(loop: Loop, reply: nat -> Reply, cancelled: nat -> bool, retries: int, r: RetryResult, n: nat) {
    match r
    case Nil => (n == 0 && retries < 0) || (n > 0 && SucceedsAt(loop, reply, cancelled, retries, n - 1))
    case Failed(m) =>
      && 0 < n <= retries + 1 && Made(loop, reply, cancelled, n - 1) && reply(n - 1) != Success && m == reply(n - 1).message
      && (TriedAgain(loop, reply(n - 1)) ==> n == retries + 1)
    case Cancelled => 0 < n <= retries && Made(loop, reply, cancelled, n - 1) && TriedAgain(loop, reply(n - 1)) && cancelled(n)
  }

  lemma {:induction false} RetryEndsFrom(loop: Loop, reply: nat -> Reply, cancelled: nat -> bool, retries: int,
                                         a: nat, last: RetryResult)
    requires a > 0 ==>
      a <= retries + 1 && Made(loop, reply, cancelled, a - 1) && reply(a - 1) != Success
      && TriedAgain(loop, reply(a - 1)) && last == Failed(reply(a - 1).message)
    requires a == 0 ==> last == Nil
    ensures var (r, n) := Retry(loop, reply, cancelled, retries, a, last);
      EndsRight(loop, reply, cancelled, retries, r, n)
    decreases retries - a
  {
    hide TriedAgain;
    if a <= retries && !(a > 0 && cancelled(a)) {
      assert Made(loop, reply, cancelled, a);
      if reply(a) != Success && TriedAgain(loop, reply(a)) {
        RetryEndsFrom(loop, reply, cancelled, retries, a + 1, Failed(reply(a).message));
      }
    }
  }

  /** Whatever the replies and cancellations: a success is the last reply; an error is that of the
      last reply, which is not tried again or was the last allowed; a cancellation cuts the wait
      that follows a reply that would be tried again. */
  lemma RetryEnds(loop: Loop, reply: nat -> Reply, cancelled: nat -> bool, retries: int)
    ensures var (r, n) := Retry(loop, reply, cancelled, retries, 0, Nil);
      EndsRight(loop, reply, cancelled, retries, r, n)
  {
    RetryEndsFrom(loop, reply, cancelled, retries, 0, Nil);
  }

  // ----- joining, restarting and checking the nodes -----

  datatype Party = Party(children: seq<int>, committer: int)

  /** What the attempts of one retry loop come back with, and which waits are cut short. */
  datatype Requests = Requests(reply: nat -> Reply, cancelled: nat -> bool)

  /** How often and with what first wait requests are repeated, how the server answers them for
      each node, which nodes it then reports healthy, and what the namespace step comes to, if
      asked for. */
  datatype Server = Server(retries: int, backoff: Duration, join: int -> Requests, start: int -> Requests,
                           healthy: int -> bool, namespace: Option<bool>)
  {
    predicate Joins(id: int) {
      Retry(JoinLoop, join(id).reply, join(id).cancelled, retries, 0, Nil).0 == Nil
    }

    predicate Starts(id: int) {
      Retry(StartLoop, start(id).reply, start(id).cancelled, retries, 0, Nil).0 == Nil
    }

    /** Some attempt to let the node join is made and succeeds. */
    ghost predicate Accepts(id: int) {
      exists k: nat :: SucceedsAt(JoinLoop, join(id).reply, join(id).cancelled, retries, k)
    }
  }

  /** The join loop reports success without the server having accepted the node exactly when the
      number of retries is negative. */
  lemma JoinsIff(server: Server, id: int)
    ensures server.Joins(id) <==> server.retries < 0 || server.Accepts(id)
    ensures server.retries < 0 ==> !server.Accepts(id)
  {
    var q := server.join(id);
    RetrySucceedsIff(JoinLoop, q.reply, q.cancelled, server.retries);
    hide Retry, Made, AllTriedAgain;
  }

  datatype RunResult =
    | Provisioned
    | JoinAborted(id: int)
    | NamespaceFailed
    | Panicked
    | Problems(joinErrors: seq<int>, unhealthy: seq<int>)

  function Children(parties: seq<Party>): seq<int> {
    if parties == [] then [] else Children(parties[..|parties| - 1]) + parties[|parties| - 1].children
  }

  function Committers(parties: seq<Party>): seq<int> {
    if parties == [] then [] else Committers(parties[..|parties| - 1]) + [parties[|parties| - 1].committer]
  }

  /** The nodes of a network: the orderer children of every party, then its committers, of which
      there is one for all parties in single mode. */
  function NodeOrder(parties: seq<Party>, single: bool): seq<int>
    requires single ==> parties != []
  {
    Children(parties) + if single then [parties[0].committer] else Committers(parties)
  }

  function ChildCount(parties: seq<Party>): nat {
    if parties == [] then 0 else ChildCount(parties[..|parties| - 1]) + |parties[|parties| - 1].children|
  }

  /** The k-th child of the i-th party stands behind the children of the parties before it. */
  ghost predicate ChildPlaced(ids: seq<int>, parties: seq<Party>, i: nat, k: nat)
    requires i < |parties| && k < |parties[i].children|
  {
    var at := ChildCount(parties[..i]) + k;
    at < ChildCount(parties) && at < |ids| && ids[at] == parties[i].children[k]
  }

  /** The ids are, in this order, the children of each party, each party's in its own order, and
      behind them the first party's committer in single mode, else the committer of each party. */
  ghost predicate InOrder(ids: seq<int>, parties: seq<Party>, single: bool)
    requires single ==> parties != []
  {
    var n := ChildCount(parties);
    && |ids| == n + (if single then 1 else |parties|)
    && (forall i, k :: 0 <= i < |parties| && 0 <= k < |parties[i].children| ==> ChildPlaced(ids, parties, i, k))
    && (if single then ids[n] == parties[0].committer
        else forall i :: 0 <= i < |parties| ==> ids[n + i] == parties[i].committer)
  }

  lemma {:induction false} ChildTotal(parties: seq<Party>)
    ensures |Children(parties)| == ChildCount(parties)
  {
    if parties != [] {
      ChildTotal(parties[..|parties| - 1]);
    }
  }

  lemma {:induction false} ChildAt(parties: seq<Party>, i: nat, k: nat)
    requires i < |parties| && k < |parties[i].children|
    ensures |Children(parties)| == ChildCount(parties) && ChildCount(parties[..i]) + k < ChildCount(parties)
    ensures Children(parties)[ChildCount(parties[..i]) + k] == parties[i].children[k]
    decreases |parties|
  {
    var init := parties[..|parties| - 1];
    ChildTotal(init);
    if i < |init| {
      ChildAt(init, i, k);
      assert init[..i] == parties[..i];
    } else {
      assert parties[..i] == init;
    }
  }

  lemma {:induction false} CommitterAt(parties: seq<Party>)
    ensures |Committers(parties)| == |parties|
    ensures forall i :: 0 <= i < |parties| ==> Committers(parties)[i] == parties[i].committer
  {
    if parties != [] {
      CommitterAt(parties[..|parties| - 1]);
    }
  }

  lemma NodesInOrder(parties: seq<Party>, single: bool)
    requires single ==> parties != []
    ensures InOrder(NodeOrder(parties, single), parties, single)
  {
    ChildTotal(parties);
    CommitterAt(parties);
    var order, c, n := NodeOrder(parties, single), Children(parties), ChildCount(parties);
    var tail := if single then [parties[0].committer] else Committers(parties);
    assert order == c + tail && |c| == n;
    hide Children, Committers, NodeOrder, ChildCount;
    forall i, k | 0 <= i < |parties| && 0 <= k < |parties[i].children|
      ensures ChildPlaced(order, parties, i, k)
    {
      ChildAt(parties, i, k);
    }
    assert forall i :: 0 <= i < |tail| ==> order[n + i] == tail[i];
    if single {
      assert order[n] == tail[0];
    }
  }

  function Rejected(ids: seq<int>, server: Server): seq<int> {
    if ids == [] then []
    else
      Rejected(ids[..|ids| - 1], server) + if server.Joins(ids[|ids| - 1]) then [] else [ids[|ids| - 1]]
  }

  function JoinedUnhealthy(ids: seq<int>, server: Server): seq<int> {
    if ids == [] then []
    else
      var id := ids[|ids| - 1];
      JoinedUnhealthy(ids[..|ids| - 1], server) + if server.Joins(id) && !server.healthy(id) then [id] else []
  }

  function NotStarted(ids: seq<int>, server: Server): seq<int> {
    if ids == [] then []
    else
      NotStarted(ids[..|ids| - 1], server) + if server.Starts(ids[|ids| - 1]) then [] else [ids[|ids| - 1]]
  }

  /** What the join phase has on record after the nodes it has tried. */
  ghost predicate Tally(tried: seq<int>, server: Server, keepGoing: bool, joinErrors: seq<int>, unhealthy: seq<int>) {
    && joinErrors == Rejected(tried, server) && unhealthy == JoinedUnhealthy(tried, server)
    && (!keepGoing ==> joinErrors == [])
  }

  lemma TallyNext(tried: seq<int>, id: int, server: Server)
    ensures Rejected(tried + [id], server) == Rejected(tried, server) + if server.Joins(id) then [] else [id]
    ensures JoinedUnhealthy(tried + [id], server)
      == JoinedUnhealthy(tried, server) + if server.Joins(id) && !server.healthy(id) then [id] else []
  {
    hide Server.Joins;
    assert (tried + [id])[..|tried|] == tried;
  }

  /** The body of both join loops: one node; `stop` when the run ends here. */
  method JoinOne(id: int, server: Server, keepGoing: bool, ghost tried: seq<int>, joinErrors0: seq<int>, unhealthy0: seq<int>)
    returns (joinErrors: seq<int>, unhealthy: seq<int>, stop: bool)
    requires Tally(tried, server, keepGoing, joinErrors0, unhealthy0)
    ensures stop <==> !keepGoing && !server.Joins(id)
    ensures !stop ==> Tally(tried + [id], server, keepGoing, joinErrors, unhealthy)
  {
    joinErrors, unhealthy, stop := joinErrors0, unhealthy0, false;
    TallyNext(tried, id, server);
    hide Rejected, JoinedUnhealthy, Retry;
    var requests := server.join(id);
    var r, _, _ := SendWithRetry(JoinLoop, requests.reply, requests.cancelled, server.retries, server.backoff);
    if r != Nil {
      joinErrors := joinErrors + [id];
      if !keepGoing {
        return joinErrors, unhealthy, true;
      }
      return;
    }
    if !server.healthy(id) {
      unhealthy := unhealthy + [id];
    }
  }

  /** The nodes tried are the first of the list, up to the first that is not let join. */
  ghost predicate StoppedAt(tried: seq<int>, ids: seq<int>, server: Server, id: int) {
    && tried != [] && tried <= ids && tried[|tried| - 1] == id && !server.Joins(id)
    && forall i :: 0 <= i < |tried| - 1 ==> server.Joins(ids[i])
  }

  lemma {:induction false} NoneRejected(ids: seq<int>, server: Server)
    ensures Rejected(ids, server) == [] <==> forall i :: 0 <= i < |ids| ==> server.Joins(ids[i])
  {
    hide Server.Joins;
    if ids != [] {
      NoneRejected(ids[..|ids| - 1], server);
    }
  }

  lemma StoppedHere(tried: seq<int>, id: int, all: seq<int>, server: Server, joinErrors: seq<int>, unhealthy: seq<int>)
    requires tried + [id] <= all && Tally(tried, server, false, joinErrors, unhealthy) && !server.Joins(id)
    ensures StoppedAt(tried + [id], all, server, id)
  {
    NoneRejected(tried, server);
    hide Rejected;
  }

  lemma PrefixOf(a: seq<int>, b: seq<int>, k: nat)
    requires k <= |b|
    ensures a + b[..k] <= a + b
  {
  }

  /** The loops of phase 8, over the children of a party and over the committers. `before` are the
      nodes tried before. */
  method JoinList(ids: seq<int>, server: Server, keepGoing: bool, before: seq<int>,
                  joinErrors0: seq<int>, unhealthy0: seq<int>)
    returns (tried: seq<int>, joinErrors: seq<int>, unhealthy: seq<int>, aborted: Option<int>)
    requires Tally(before, server, keepGoing, joinErrors0, unhealthy0)
    ensures aborted.None? ==> tried == before + ids && Tally(tried, server, keepGoing, joinErrors, unhealthy)
    ensures aborted.Some? ==> !keepGoing && StoppedAt(tried, before + ids, server, aborted.value)
  {
    tried, joinErrors, unhealthy := before, joinErrors0, unhealthy0;
    assert before + ids[..0] == before;
    hide Tally, StoppedAt, Server.Joins;
    for k := 0 to |ids|
      invariant tried == before + ids[..k] && Tally(tried, server, keepGoing, joinErrors, unhealthy)
    {
      var stop: bool;
      ghost var errors0, bad0 := joinErrors, unhealthy;
      joinErrors, unhealthy, stop := JoinOne(ids[k], server, keepGoing, tried, joinErrors, unhealthy);
      Assoc(before, ids[..k], [ids[k]]);
      TakeSnoc(ids, k);
      if stop {
        PrefixOf(before, ids, k + 1);
        StoppedHere(tried, ids[k], before + ids, server, errors0, bad0);
        return tried + [ids[k]], joinErrors, unhealthy, Some(ids[k]);
      }
      tried := tried + [ids[k]];
    }
    assert ids[..|ids|] == ids;
    aborted := None;
  }

  ghost predicate Distinct(ids: seq<int>) {
    forall i, j :: 0 <= i < j < |ids| ==> ids[i] != ids[j]
  }

  /** A stop among the first nodes of a list is a stop in the list. */
  lemma StoppedEarly(tried: seq<int>, first: seq<int>, all: seq<int>, server: Server, id: int)
    requires first <= all && StoppedAt(tried, first, server, id)
    ensures StoppedAt(tried, all, server, id)
    ensures exists i :: 0 <= i < |all| && !server.Joins(all[i])
    ensures Distinct(all) ==> Distinct(tried)
  {
    assert all[|tried| - 1] == id;
  }

  lemma {:induction false} ChildrenUpTo(parties: seq<Party>, i: nat)
    requires i < |parties|
    ensures Children(parties[..i + 1]) == Children(parties[..i]) + parties[i].children
    ensures Children(parties[..i + 1]) <= Children(parties)
    decreases |parties|
  {
    var n := |parties|;
    assert parties[..i + 1][..i] == parties[..i];
    if i == n - 1 {
      assert parties[..i + 1] == parties;
    } else {
      ChildrenUpTo(parties[..n - 1], i);
      assert parties[..n - 1][..i] == parties[..i] && parties[..n - 1][..i + 1] == parties[..i + 1];
    }
  }

  /** Phase 8, over the orderer children of the parties. */
  method JoinChildren(parties: seq<Party>, server: Server, keepGoing: bool)
    returns (tried: seq<int>, joinErrors: seq<int>, unhealthy: seq<int>, aborted: Option<int>)
    ensures aborted.None? ==> tried == Children(parties) && Tally(tried, server, keepGoing, joinErrors, unhealthy)
    ensures aborted.Some? ==> !keepGoing && StoppedAt(tried, Children(parties), server, aborted.value)
  {
    tried, joinErrors, unhealthy, aborted := [], [], [], None;
    assert parties[..0] == [] && parties[..|parties|] == parties;
    assert Tally(tried, server, keepGoing, joinErrors, unhealthy) && Children([]) == [];
    hide Children, Tally, StoppedAt;
    for i := 0 to |parties|
      invariant tried == Children(parties[..i]) && Tally(tried, server, keepGoing, joinErrors, unhealthy)
      invariant aborted.None?
    {
      ChildrenUpTo(parties, i);
      tried, joinErrors, unhealthy, aborted :=
        JoinList(parties[i].children, server, keepGoing, tried, joinErrors, unhealthy);
      if aborted.Some? {
        StoppedEarly(tried, Children(parties[..i + 1]), Children(parties), server, aborted.value);
        return;
      }
    }
  }

  method CommitterIds(parties: seq<Party>) returns (ids: seq<int>)
    ensures ids == Committers(parties)
  {
    ids := [];
    for i := 0 to |parties|
      invariant ids == Committers(parties[..i])
    {
      assert parties[..i + 1][..i] == parties[..i];
      ids := ids + [parties[i].committer];
    }
    assert parties[..|parties|] == parties;
  }

  method ChildIds(parties: seq<Party>) returns (ids: seq<int>)
    ensures ids == Children(parties)
  {
    ids := [];
    for i := 0 to |parties|
      invariant ids == Children(parties[..i])
    {
      assert parties[..i + 1][..i] == parties[..i];
      ids := ids + parties[i].children;
    }
    assert parties[..|parties|] == parties;
  }

  method StartAgain(ids: seq<int>, server: Server) returns (errors: seq<int>)
    ensures errors == NotStarted(ids, server)
  {
    errors := [];
    for k := 0 to |ids|
      invariant errors == NotStarted(ids[..k], server)
    {
      hide Retry;
      assert ids[..k + 1][..k] == ids[..k];
      var requests := server.start(ids[k]);
      var r, _, _ := SendWithRetry(StartLoop, requests.reply, requests.cancelled, server.retries, server.backoff);
      if r != Nil {
        errors := errors + [ids[k]];
      }
    }
    assert ids[..|ids|] == ids;
  }

  /** The nodes that are not started, in the order in which they were tried. */
  lemma NotStartedNext(ids: seq<int>, id: int, server: Server)
    ensures NotStarted(ids + [id], server) == NotStarted(ids, server) + if server.Starts(id) then [] else [id]
  {
    assert (ids + [id])[..|ids|] == ids;
  }

  lemma LastOne(ids: seq<int>)
    requires ids != []
    ensures ids == ids[..|ids| - 1] + [ids[|ids| - 1]]
  {
  }

  lemma {:induction false} NotStartedAre(ids: seq<int>, server: Server)
    ensures forall id :: id in NotStarted(ids, server) <==> id in ids && !server.Starts(id)
  {
    hide Server.Starts;
    if ids != [] {
      NotStartedAre(ids[..|ids| - 1], server);
      LastOne(ids);
    }
  }

  /** The start loop reports success exactly when some attempt is made and succeeds, or the number of
      retries is negative. */
  lemma StartsIff(server: Server, id: int)
    ensures server.Starts(id) <==> server.retries < 0 || exists k: nat ::
      SucceedsAt(StartLoop, server.start(id).reply, server.start(id).cancelled, server.retries, k)
  {
    var q := server.start(id);
    RetrySucceedsIff(StartLoop, q.reply, q.cancelled, server.retries);
    hide Retry, Made, AllTriedAgain;
  }

  /** Phase 9: every node is started again; failures are reported and do not end the run. */
  method Reconcile(parties: seq<Party>, single: bool, server: Server) returns (restarted: seq<int>, errors: seq<int>)
    requires single ==> parties != []
    ensures restarted == NodeOrder(parties, single) && errors == NotStarted(restarted, server)
    ensures InOrder(restarted, parties, single)
    ensures forall id :: id in errors <==> id in restarted && !server.Starts(id)
  {
    hide Children, Committers, Server.Starts;
    restarted := ChildIds(parties);
    var committers;
    if single {
      committers := [parties[0].committer];
    } else {
      committers := CommitterIds(parties);
    }
    restarted := restarted + committers;
    errors := StartAgain(restarted, server);
    NodesInOrder(parties, single);
    NotStartedAre(restarted, server);
  }

  lemma CommittersLast(parties: seq<Party>, single: bool)
    requires single ==> parties != []
    ensures Children(parties) <= NodeOrder(parties, single) && (parties != [] ==> NodeOrder(parties, single) != [])
    ensures parties == [] ==> NodeOrder(parties, single) == []
    ensures NodeOrder(parties, single) == Children(parties) + if single then [parties[0].committer] else Committers(parties)
  {
  }

  ghost predicate AllHealthy(ids: seq<int>, server: Server) {
    forall i :: 0 <= i < |ids| ==> server.healthy(ids[i])
  }

  /** Every node was accepted by the server in some attempt. */
  ghost predicate AllAccepted(ids: seq<int>, server: Server) {
    forall i :: 0 <= i < |ids| ==> server.Accepts(ids[i])
  }

  lemma AcceptedIff(ids: seq<int>, server: Server)
    ensures (forall i :: 0 <= i < |ids| ==> server.Joins(ids[i])) <==> server.retries < 0 || AllAccepted(ids, server)
    ensures server.retries < 0 ==> (AllAccepted(ids, server) <==> ids == [])
  {
    hide Retry, SucceedsAt;
    forall i | 0 <= i < |ids|
      ensures server.Joins(ids[i]) <==> server.retries < 0 || server.Accepts(ids[i])
      ensures server.retries < 0 ==> !server.Accepts(ids[i])
    {
      JoinsIff(server, ids[i]);
    }
    if server.retries < 0 && ids != [] {
      assert !server.Accepts(ids[0]);
    }
  }

  lemma {:induction false} AllFine(ids: seq<int>, server: Server)
    ensures Rejected(ids, server) == [] && JoinedUnhealthy(ids, server) == []
      <==> forall i :: 0 <= i < |ids| ==> server.Joins(ids[i]) && server.healthy(ids[i])
  {
    hide Server.Joins;
    if ids != [] {
      AllFine(ids[..|ids| - 1], server);
    }
  }

  /** Phases 8 to 10: the nodes asked to join, the nodes started again, and the result. In single
      mode an earlier phase has already used the first party. */
  method Provision(parties: seq<Party>, single: bool, keepGoing: bool, server: Server)
    returns (r: RunResult, tried: seq<int>, restarted: seq<int>)
    requires single ==> parties != []
    ensures var order := NodeOrder(parties, single);
      && (r == Provisioned <==>
          && AllHealthy(order, server) && (server.retries < 0 || AllAccepted(order, server))
          && server.namespace != Some(false) && (parties == [] ==> server.namespace == None))
      && (r == Provisioned && parties != [] ==> (AllAccepted(order, server) <==> server.retries >= 0))
      && (r.JoinAborted? <==> !keepGoing && exists i :: 0 <= i < |order| && !server.Joins(order[i]))
      && (r.JoinAborted? ==> restarted == [] && StoppedAt(tried, order, server, r.id))
      && (!r.JoinAborted? ==> tried == restarted == order && InOrder(tried, parties, single))
      && (Distinct(order) ==> Distinct(tried) && Distinct(restarted))
      && (r.Panicked? <==> parties == [] && server.namespace.Some?)
      && (r.NamespaceFailed? <==> parties != [] && !r.JoinAborted? && server.namespace == Some(false))
      && (r.Problems? ==> r.joinErrors == Rejected(order, server) && r.unhealthy == JoinedUnhealthy(order, server))
  {
    ghost var order := NodeOrder(parties, single);
    var joinErrors, unhealthy, aborted;
    hide Children, Committers, NodeOrder, InOrder, Rejected, JoinedUnhealthy, NotStarted, Retry, AllAccepted, StoppedAt, Distinct;
    tried, joinErrors, unhealthy, aborted := JoinChildren(parties, server, keepGoing);
    CommittersLast(parties, single);
    NodesInOrder(parties, single);
    AllFine(order, server);
    NoneRejected(order, server);
    AcceptedIff(order, server);
    if aborted.Some? {
      StoppedEarly(tried, Children(parties), order, server, aborted.value);
      return JoinAborted(aborted.value), tried, [];
    }
    var committers;
    if single {
      committers := [parties[0].committer];
    } else {
      committers := CommitterIds(parties);
    }
    tried, joinErrors, unhealthy, aborted := JoinList(committers, server, keepGoing, tried, joinErrors, unhealthy);
    if aborted.Some? {
      StoppedEarly(tried, order, order, server, aborted.value);
      return JoinAborted(aborted.value), tried, [];
    }
    var reconcileErrors;
    restarted, reconcileErrors := Reconcile(parties, single, server);
    if server.namespace.Some? {
      if parties == [] {
        return Panicked, tried, restarted;     // there is no first party to submit for
      }
      if server.namespace == Some(false) {
        return NamespaceFailed, tried, restarted;
      }
    }
    if |joinErrors| > 0 || |unhealthy| > 0 {
      return Problems(joinErrors, unhealthy), tried, restarted;
    }
    r := Provisioned;
  }

  lemma {:induction false} WhoIsListed(ids: seq<int>, server: Server)
    ensures forall id :: id in Rejected(ids, server) <==> id in ids && !server.Joins(id)
    ensures forall id :: id in JoinedUnhealthy(ids, server) <==> id in ids && server.Joins(id) && !server.healthy(id)
  {
    hide Server.Joins;
    if ids != [] {
      WhoIsListed(ids[..|ids| - 1], server);
      LastOne(ids);
    }
  }

  lemma DistinctSnoc(ids: seq<int>, id: int)
    ensures Distinct(ids + [id]) <==> Distinct(ids) && id !in ids
  {
    if Distinct(ids + [id]) {
      forall i | 0 <= i < |ids|
        ensures ids[i] != id
      {
        assert (ids + [id])[i] == ids[i] && (ids + [id])[|ids|] == id;
      }
      forall i, j | 0 <= i < j < |ids|
        ensures ids[i] != ids[j]
      {
        assert (ids + [id])[i] == ids[i] && (ids + [id])[j] == ids[j];
      }
    }
  }

  lemma {:induction false} ListedOnce(ids: seq<int>, server: Server)
    requires Distinct(ids)
    ensures Distinct(Rejected(ids, server)) && Distinct(JoinedUnhealthy(ids, server))
  {
    if ids != [] {
      var init, id := ids[..|ids| - 1], ids[|ids| - 1];
      LastOne(ids);
      hide Distinct, Server.Joins;
      DistinctSnoc(init, id);
      ListedOnce(init, server);
      WhoIsListed(init, server);
      DistinctSnoc(Rejected(init, server), id);
      DistinctSnoc(JoinedUnhealthy(init, server), id);
      assert Rejected(init, server) + [] == Rejected(init, server);
      assert JoinedUnhealthy(init, server) + [] == JoinedUnhealthy(init, server);
    }
  }

  /** Every node lands in exactly one of three lists: rejected, joined but unhealthy, or joined
      and healthy; and for distinct nodes none lands in a list twice. */
  lemma {:induction false} ThreeOutcomes(ids: seq<int>, server: Server)
    ensures forall id :: id in Rejected(ids, server) <==> id in ids && !server.Joins(id)
    ensures forall id :: id in JoinedUnhealthy(ids, server) <==> id in ids && server.Joins(id) && !server.healthy(id)
    ensures Distinct(ids) ==> Distinct(Rejected(ids, server)) && Distinct(JoinedUnhealthy(ids, server))
  {
    hide *;
    WhoIsListed(ids, server);
    if Distinct(ids) {
      ListedOnce(ids, server);
    }
  }

  lemma {:induction false} FourChildren(parties: seq<Party>)
    requires forall i :: 0 <= i < |parties| ==> |parties[i].children| == 4
    ensures |Children(parties)| == 4 * |parties| && |Committers(parties)| == |parties|
  {
    if parties != [] {
      FourChildren(parties[..|parties| - 1]);
    }
  }

  /** With four orderer children a party, there are 4N + 1 nodes in single mode and 5N else. */
  lemma NodeCount(parties: seq<Party>, single: bool)
    requires parties != [] && forall i :: 0 <= i < |parties| ==> |parties[i].children| == 4
    ensures |NodeOrder(parties, single)| == if single then 4 * |parties| + 1 else 5 * |parties|
  {
    FourChildren(parties);
  }
}
