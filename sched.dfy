/*
 * Scheduling policies of the top-level (TP) scheduler (src/scheduler/TPSchedPolicy.cpp).
 *
 * Each policy runs `while (alive()) { obtain a closure; pop and dispatch ready
 * codelets }`.  The model takes ONE pass of that loop body as one method.  What the
 * body learns from code that is not part of this model arrives as parameters:
 * whether popTP() or steal() produced a closure, the codelets popCodelet() returns
 * before it returns null, the answers sub-schedulers give to pushCodelet, and the
 * answers of checkParent() and decRef().  What the scheduler does in return is
 * recorded in `trace`, an event log, besides the real state it changes: the backoff,
 * the round-robin index, the table of queues, and the queue handles and dependency
 * counts of the codelets it wires.
 */
module SchedPolicy {
  import opened Fifos
  import opened Codelets

  // ---------------------------------------------------------------------------
  // The factory
  // ---------------------------------------------------------------------------

  /** The type codes TPScheduler::create is asked for; OtherType is any other value. */
  datatype SchedType = TPRoundRobin | TPPushFull | TPStatic | TPDynamic | TPWorkPush | OtherType(code: nat)

  datatype Policy = RoundRobin | PushFull | Static | Dynamic | WorkPush

  /** The type code that names each policy. */
  function TypeOf(p: Policy): SchedType
  {
    match p
    case RoundRobin => TPRoundRobin
    case PushFull => TPPushFull
    case Static => TPStatic
    case Dynamic => TPDynamic
    case WorkPush => TPWorkPush
  }

  /**
   * TPScheduler::create: a scheduler of the named policy for the round-robin,
   * push-full, static and dynamic codes; nothing (NULL) for every other code,
   * the work-push code included.
   */
  function Create(t: SchedType): (r: Option<Policy>)
    ensures r.Some? ==> TypeOf(r.value) == t && r.value != WorkPush
    ensures r.None? <==> t == TPWorkPush || t.OtherType?
  {
    if t == TPRoundRobin then Some(RoundRobin)
    else if t == TPPushFull then Some(PushFull)
    else if t == TPStatic then Some(Static)
    else if t == TPDynamic then Some(Dynamic)
    else None
  }

  /** Every policy but work-push can be created from its own type code. */
  lemma CreateRoundTrip(p: Policy)
    ensures Create(TypeOf(p)) == if p == WorkPush then None else Some(p)
  {
  }

  // ---------------------------------------------------------------------------
  // Idle backoff
  // ---------------------------------------------------------------------------

  /** Initial and reset value of the sleep time (`range`). */
  const BackoffReset: nat := 1
  /** The sleep time keeps doubling only while below this many microseconds. */
  const BackoffLimit: nat := 500

  /** The sleep time after one pass: reset when a closure was found, else doubled while below 500. */
  function NextBackoff(usecs: nat, gotClosure: bool): nat
  {
    if gotClosure then BackoffReset else if usecs < BackoffLimit then usecs * 2 else usecs
  }

  /** The sleep time after a run of passes; outcomes[i] says whether pass i found a closure. */
  function BackoffAfter(usecs: nat, outcomes: seq<bool>): nat
    decreases |outcomes|
  {
    if outcomes == [] then usecs else BackoffAfter(NextBackoff(usecs, outcomes[0]), outcomes[1..])
  }

  /** The values the sleep time can take: the powers of two from 1 to 512. */
  predicate BackoffValue(u: nat)
  {
    u in {1, 2, 4, 8, 16, 32, 64, 128, 256, 512}
  }

  /**
   * Starting from the initial value, the sleep time is always a power of two between
   * 1 and 512 (so never above 512), and it is back at 1 right after any pass that
   * found a closure.
   */
  lemma {:induction false} BackoffBounded(usecs: nat, outcomes: seq<bool>)
    requires BackoffValue(usecs)
    ensures BackoffValue(BackoffAfter(usecs, outcomes))
    ensures 1 <= BackoffAfter(usecs, outcomes) <= 512
    ensures outcomes != [] && outcomes[|outcomes| - 1] ==> BackoffAfter(usecs, outcomes) == 1
    decreases |outcomes|
  {
    if outcomes != [] {
      var next := NextBackoff(usecs, outcomes[0]);
      assert BackoffValue(next);
      BackoffBounded(next, outcomes[1..]);
      if |outcomes| == 1 {
        assert outcomes[|outcomes| - 1] == outcomes[0];
      } else {
        assert outcomes[1..][|outcomes[1..]| - 1] == outcomes[|outcomes| - 1];
      }
    }
  }

  /** Once at the ceiling of 512, idle passes leave the sleep time there. */
  lemma {:induction false} IdleAtCeiling(idle: seq<bool>)
    requires forall i :: 0 <= i < |idle| ==> !idle[i]
    ensures BackoffAfter(512, idle) == 512
    decreases |idle|
  {
    if idle != [] {
      IdleAtCeiling(idle[1..]);
    }
  }

  // ---------------------------------------------------------------------------
  // Decisions and the event log
  // ---------------------------------------------------------------------------

  /** The guard in front of allocateFifo: a popped codelet, streaming, with a downstream codelet. */
  predicate NeedsFifo(c: Codelet?)
    reads c
  {
    c != null && c.IsStreaming() && c.GetConsumerCod() != null
  }

  /** The downstream counts of the popped codelets, 0 for a codelet with no downstream codelet. */
  ghost function DownstreamDeps(ready: seq<Codelet>): (deps: seq<int>)
    reads set c | c in ready, set c | c in ready && c.consumerCod != null :: c.consumerCod
    ensures |deps| == |ready|
    ensures forall j :: 0 <= j < |ready| && ready[j].consumerCod != null ==> deps[j] == ready[j].consumerCod.dep
  {
    if ready == [] then []
    else [if ready[0].consumerCod != null then ready[0].consumerCod.dep else 0] + DownstreamDeps(ready[1..])
  }

  /** The popped codelets that pass the streaming guard. */
  ghost function Guarded(ready: seq<Codelet>): set<Codelet>
    reads set c | c in ready
  {
    set c | c in ready && NeedsFifo(c)
  }

  /** The downstream codelets of the popped codelets that pass the streaming guard. */
  ghost function GuardedDownstream(ready: seq<Codelet>): set<Codelet?>
    reads set c | c in ready
  {
    set c | c in ready && NeedsFifo(c) :: c.consumerCod
  }

  /**
   * c was wired in a pass that began with queue table fifos0 and c's downstream count
   * at dep0: c's consumer handle is a queue added to the table since, the same queue
   * is the downstream codelet's producer handle, and that count has dropped by one.
   */
  predicate WiredSince(c: Codelet, dep0: int, fifos0: seq<Queue>, fifos: seq<Queue>)
    reads c, c.consumerCod
  {
    && c.consumer != null && c.consumer in fifos && c.consumer !in fifos0
    && c.consumerCod != null && c.consumerCod.producer == c.consumer && c.consumerCod.dep == dep0 - 1
  }

  /** What a scheduler did, in order. */
  datatype Event =
    | Allocated(producer: Codelet)                          // allocateFifo(producer)
    | Offered(sub: nat, c: Codelet, accepted: bool)         // getSubScheduler(sub)->pushCodelet(c)
    | QueuedLocally(c: Codelet, accepted: bool)             // codelets_.push(c)
    | ParentChecked(tp: ThreadedProcedure, deletable: bool) // tp->checkParent()
    | Fired(c: Codelet)                                     // c->fire() on this thread
    | RefDropped(tp: ThreadedProcedure, last: bool)         // tp->decRef()
    | Deleted(tp: ThreadedProcedure)                        // delete tp

  /** The answers checkParent() and decRef() give for one local fire. */
  datatype Teardown = Teardown(deletable: bool, lastRef: bool)

  /** Some push attempt in `a` is accepted. */
  predicate Accepts(a: seq<bool>)
  {
    true in a
  }

  /** The position of the first accepted push attempt. */
  function FirstAccept(a: seq<bool>): (k: nat)
    requires Accepts(a)
    ensures k < |a| && a[k] && forall j :: 0 <= j < k ==> !a[j]
  {
    if a[0] then 0
    else
      assert a == [a[0]] + a[1..];
      1 + FirstAccept(a[1..])
  }

  /** The first k push attempts of codelet c, starting at round-robin index idx over n subs. */
  function AttemptEvents(c: Codelet, idx: nat, n: nat, a: seq<bool>, k: nat): seq<Event>
    requires k <= |a| && (k > 0 ==> n > 0)
  {
    seq(k, j requires 0 <= j < k => Offered((idx + j) % n, c, a[j]))
  }

  /** What firing c on this thread does, given the answers of checkParent() and decRef(). */
  function FireEvents(c: Codelet, t: Teardown): seq<Event>
  {
    if c.tp == null then [Fired(c)]
    else
      [ParentChecked(c.tp, t.deletable), Fired(c)]
      + (if t.deletable then [RefDropped(c.tp, t.lastRef)] + (if t.lastRef then [Deleted(c.tp)] else []) else [])
  }

  /**
   * A procedure is deleted after a local fire exactly when it exists, checkParent()
   * said yes before the fire and decRef() said yes after it; then the events are
   * exactly check, fire, decrement, delete.
   */
  lemma TeardownGate(c: Codelet, t: Teardown, tp: ThreadedProcedure)
    ensures Deleted(tp) in FireEvents(c, t) <==> c.tp == tp && t.deletable && t.lastRef
    ensures Deleted(tp) in FireEvents(c, t) ==>
      FireEvents(c, t) == [ParentChecked(tp, true), Fired(c), RefDropped(tp, true), Deleted(tp)]
    ensures Fired(c) in FireEvents(c, t)
  {
  }

  lemma FireNeverAllocates(c: Codelet, t: Teardown, e: Event)
    requires e in FireEvents(c, t)
    ensures !e.Allocated? && !e.Offered?
  {
  }

  // --- round robin and work push ----------------------------------------------

  /** Every codelet of the pass is eventually accepted by some sub-scheduler. */
  predicate AllAccepted(answers: seq<seq<bool>>)
  {
    forall i :: 0 <= i < |answers| ==> Accepts(answers[i])
  }

  /**
   * The offers made while codelets i, i+1, ... are each pushed to the next
   * sub-scheduler until one accepts it; the round-robin index starts at idx.
   */
  function RetryEvents(ready: seq<Codelet>, idx: nat, n: nat, answers: seq<seq<bool>>, i: nat): seq<Event>
    requires (n > 0 || |ready| <= i) && |answers| == |ready| && AllAccepted(answers)
    decreases |ready| - i
  {
    if i >= |ready| then []
    else
      var k := FirstAccept(answers[i]) + 1;
      AttemptEvents(ready[i], idx, n, answers[i], k) + RetryEvents(ready, idx + k, n, answers, i + 1)
  }

  /** How far the round-robin index moves while codelets i, i+1, ... are placed. */
  function RetryAdvance(answers: seq<seq<bool>>, i: nat): nat
    requires AllAccepted(answers)
    decreases |answers| - i
  {
    if i >= |answers| then 0 else FirstAccept(answers[i]) + 1 + RetryAdvance(answers, i + 1)
  }

  /** The events of one round-robin pass: at most the first codelet is wired, then all are pushed. */
  function RoundRobinEvents(ready: seq<Codelet>, firstNeedsFifo: bool, idx: nat, n: nat, answers: seq<seq<bool>>): seq<Event>
    requires (n > 0 || ready == []) && |answers| == |ready| && AllAccepted(answers)
  {
    (if ready != [] && firstNeedsFifo then [Allocated(ready[0])] else []) + RetryEvents(ready, idx, n, answers, 0)
  }

  /**
   * Each codelet is pushed to the sub-schedulers in round-robin order until one
   * accepts it: exactly one accepted offer, on sub (idx + FirstAccept) % n, preceded
   * by rejected offers only.
   */
  lemma RetryPlacesOnce(c: Codelet, idx: nat, n: nat, a: seq<bool>)
    requires n > 0 && Accepts(a)
    ensures var k := FirstAccept(a); var es := AttemptEvents(c, idx, n, a, k + 1);
      && es[k] == Offered((idx + k) % n, c, true)
      && forall j :: 0 <= j < k ==> es[j] == Offered((idx + j) % n, c, false)
  {
  }

  /** Every event of a run of push attempts is an offer of that codelet. */
  lemma AttemptsAreOffers(c: Codelet, idx: nat, n: nat, a: seq<bool>, k: nat, e: Event)
    requires k <= |a| && (k > 0 ==> n > 0)
    requires e in AttemptEvents(c, idx, n, a, k)
    ensures e.Offered? && e.c == c
  {
    var es := AttemptEvents(c, idx, n, a, k);
    var j :| 0 <= j < |es| && es[j] == e;
  }

  /** Pushing to sub-schedulers only ever offers the popped codelets. */
  lemma {:induction false} RetryOnlyOffers(ready: seq<Codelet>, idx: nat, n: nat, answers: seq<seq<bool>>, i: nat, e: Event)
    requires n > 0 && |answers| == |ready| && AllAccepted(answers)
    requires e in RetryEvents(ready, idx, n, answers, i)
    ensures e.Offered? && e.c in ready
    decreases |ready| - i
  {
    var k := FirstAccept(answers[i]) + 1;
    if e in AttemptEvents(ready[i], idx, n, answers[i], k) {
      AttemptsAreOffers(ready[i], idx, n, answers[i], k, e);
    } else {
      RetryOnlyOffers(ready, idx + k, n, answers, i + 1, e);
    }
  }

  /**
   * Round robin looks at the first codelet of a pass only: a queue is allocated for
   * no codelet but the first, and for it only when the guard holds.
   */
  lemma RoundRobinWiresFirstOnly(ready: seq<Codelet>, firstNeedsFifo: bool, idx: nat, n: nat,
                                 answers: seq<seq<bool>>, c: Codelet)
    requires n > 0 && |answers| == |ready| && AllAccepted(answers)
    ensures Allocated(c) in RoundRobinEvents(ready, firstNeedsFifo, idx, n, answers)
            <==> ready != [] && c == ready[0] && firstNeedsFifo
  {
    if Allocated(c) in RetryEvents(ready, idx, n, answers, 0) {
      RetryOnlyOffers(ready, idx, n, answers, 0, Allocated(c));
    }
  }

  /**
   * With two sub-schedulers that accept every first offer, codelets A, B, C, D popped
   * in that order go to subs 0, 1, 0, 1.
   */
  lemma RoundRobinAlternates(a: Codelet, b: Codelet, c: Codelet, d: Codelet)
    ensures RetryEvents([a, b, c, d], 0, 2, [[true], [true], [true], [true]], 0)
         == [Offered(0, a, true), Offered(1, b, true), Offered(0, c, true), Offered(1, d, true)]
  {
    var yes := [[true], [true], [true], [true]];
    var ready := [a, b, c, d];
    assert FirstAccept([true]) == 0;
    assert AttemptEvents(d, 3, 2, [true], 1) == [Offered(1, d, true)];
    assert AttemptEvents(c, 2, 2, [true], 1) == [Offered(0, c, true)];
    assert AttemptEvents(b, 1, 2, [true], 1) == [Offered(1, b, true)];
    assert AttemptEvents(a, 0, 2, [true], 1) == [Offered(0, a, true)];
    assert RetryEvents(ready, 4, 2, yes, 4) == [];
    assert RetryEvents(ready, 3, 2, yes, 3) == [Offered(1, d, true)];
    assert RetryEvents(ready, 2, 2, yes, 2) == [Offered(0, c, true), Offered(1, d, true)];
    assert RetryEvents(ready, 1, 2, yes, 1) == [Offered(1, b, true), Offered(0, c, true), Offered(1, d, true)];
  }

  // --- push full --------------------------------------------------------------

  /** Every one of the first n push attempts is rejected. */
  predicate AllReject(a: seq<bool>, n: nat)
    requires n <= |a|
  {
    forall j :: 0 <= j < n ==> !a[j]
  }

  /** How many push attempts the for loop makes: all n, or up to the first accepted one. */
  function Tries(a: seq<bool>, n: nat): (k: nat)
    requires n <= |a|
    ensures k <= n
  {
    if AllReject(a, n) then n
    else
      var j :| 0 <= j < n && a[j];
      assert a[j] in a;
      FirstAccept(a) + 1
  }

  /** One codelet under push-full: one offer to each sub at most, then fire it here if all refused. */
  function PushFullStep(c: Codelet, idx: nat, n: nat, a: seq<bool>, t: Teardown): seq<Event>
    requires n <= |a|
  {
    AttemptEvents(c, idx, n, a, Tries(a, n)) + (if AllReject(a, n) then FireEvents(c, t) else [])
  }

  /**
   * Push-full makes at most n offers for a codelet, and fires it on this thread
   * exactly when every one of them was refused; otherwise its last offer was accepted.
   */
  lemma PushFullFiresIffRejected(c: Codelet, idx: nat, n: nat, a: seq<bool>, t: Teardown)
    requires n <= |a|
    ensures Tries(a, n) <= n
    ensures Fired(c) in PushFullStep(c, idx, n, a, t) <==> AllReject(a, n)
    ensures !AllReject(a, n) ==>
      PushFullStep(c, idx, n, a, t)[Tries(a, n) - 1] == Offered((idx + Tries(a, n) - 1) % n, c, true)
  {
    if AllReject(a, n) {
      assert Fired(c) in FireEvents(c, t);
    }
  }

  /** Each answer row covers every sub-scheduler. */
  predicate CoversSubs(answers: seq<seq<bool>>, n: nat)
  {
    forall j :: 0 <= j < |answers| ==> n <= |answers[j]|
  }

  /** The events of a push-full pass from the i-th popped codelet on. */
  function PushFullEvents(ready: seq<Codelet>, idx: nat, n: nat, answers: seq<seq<bool>>, td: seq<Teardown>, i: nat)
    : seq<Event>
    requires |answers| == |ready| == |td| && CoversSubs(answers, n)
    decreases |ready| - i
  {
    if i >= |ready| then []
    else
      PushFullStep(ready[i], idx, n, answers[i], td[i])
      + PushFullEvents(ready, idx + Tries(answers[i], n), n, answers, td, i + 1)
  }

  /** How far the round-robin index moves during a push-full pass from codelet i on. */
  function PushFullAdvance(answers: seq<seq<bool>>, n: nat, i: nat): nat
    requires CoversSubs(answers, n)
    decreases |answers| - i
  {
    if i >= |answers| then 0 else Tries(answers[i], n) + PushFullAdvance(answers, n, i + 1)
  }

  /** Some codelet from position i on is c and was refused by every sub-scheduler. */
  predicate RefusedFrom(ready: seq<Codelet>, n: nat, answers: seq<seq<bool>>, i: nat, c: Codelet)
    requires |answers| == |ready| && CoversSubs(answers, n)
  {
    exists j :: i <= j < |ready| && ready[j] == c && AllReject(answers[j], n)
  }

  lemma RefusedSplit(ready: seq<Codelet>, n: nat, answers: seq<seq<bool>>, i: nat, c: Codelet)
    requires |answers| == |ready| && CoversSubs(answers, n) && i < |ready|
    ensures RefusedFrom(ready, n, answers, i, c)
            <==> (ready[i] == c && AllReject(answers[i], n)) || RefusedFrom(ready, n, answers, i + 1, c)
  {
    if RefusedFrom(ready, n, answers, i, c) {
      var j :| i <= j < |ready| && ready[j] == c && AllReject(answers[j], n);
      assert j == i || (i + 1 <= j < |ready| && ready[j] == c && AllReject(answers[j], n));
    }
  }

  /** A push-full pass fires on this thread exactly the codelets that every sub-scheduler refused. */
  lemma {:induction false} PushFullFiresRefused(ready: seq<Codelet>, idx: nat, n: nat, answers: seq<seq<bool>>,
                                                td: seq<Teardown>, i: nat, c: Codelet)
    requires |answers| == |ready| == |td| && CoversSubs(answers, n)
    ensures Fired(c) in PushFullEvents(ready, idx, n, answers, td, i) <==> RefusedFrom(ready, n, answers, i, c)
    decreases |ready| - i
  {
    if i < |ready| {
      var step := PushFullStep(ready[i], idx, n, answers[i], td[i]);
      var rest := PushFullEvents(ready, idx + Tries(answers[i], n), n, answers, td, i + 1);
      PushFullFiresRefused(ready, idx + Tries(answers[i], n), n, answers, td, i + 1, c);
      assert Fired(c) in step <==> ready[i] == c && AllReject(answers[i], n) by {
        if Fired(c) in step {
          StepFiresOnlyItself(ready[i], idx, n, answers[i], td[i], c);
        }
        PushFullFiresIffRejected(ready[i], idx, n, answers[i], td[i]);
      }
      assert PushFullEvents(ready, idx, n, answers, td, i) == step + rest;
      assert Fired(c) in step + rest <==> Fired(c) in step || Fired(c) in rest;
      RefusedSplit(ready, n, answers, i, c);
    }
  }

  /** The only codelet a push-full step can fire is its own. */
  lemma StepFiresOnlyItself(c: Codelet, idx: nat, n: nat, a: seq<bool>, t: Teardown, d: Codelet)
    requires n <= |a|
    requires Fired(d) in PushFullStep(c, idx, n, a, t)
    ensures d == c && AllReject(a, n)
  {
    var offers := AttemptEvents(c, idx, n, a, Tries(a, n));
    if Fired(d) in offers {
      AttemptsAreOffers(c, idx, n, a, Tries(a, n), Fired(d));
    }
  }

  // --- static and dynamic -----------------------------------------------------

  lemma Regroup(done: seq<Event>, step: seq<Event>, rest: seq<Event>)
    ensures done + (step + rest) == (done + step) + rest
  {
  }

  /** The events of a static pass from the i-th popped codelet on: each is fired here, in order. */
  function StaticEvents(ready: seq<Codelet>, td: seq<Teardown>, i: nat): seq<Event>
    requires |td| == |ready|
    decreases |ready| - i
  {
    if i >= |ready| then [] else FireEvents(ready[i], td[i]) + StaticEvents(ready, td, i + 1)
  }

  /** One codelet under the dynamic policy: wired if the guard held, then fired here. */
  function DynamicStep(c: Codelet, needsFifo: bool, t: Teardown): seq<Event>
  {
    (if needsFifo then [Allocated(c)] else []) + FireEvents(c, t)
  }

  /** The events of a dynamic pass from the i-th popped codelet on. */
  function DynamicEvents(ready: seq<Codelet>, needs: seq<bool>, td: seq<Teardown>, i: nat): seq<Event>
    requires |needs| == |td| == |ready|
    decreases |ready| - i
  {
    if i >= |ready| then [] else DynamicStep(ready[i], needs[i], td[i]) + DynamicEvents(ready, needs, td, i + 1)
  }

  /** How many of the flags from position i on are set. */
  function Count(flags: seq<bool>, i: nat): nat
    decreases |flags| - i
  {
    if i >= |flags| then 0 else (if flags[i] then 1 else 0) + Count(flags, i + 1)
  }

  /** The guard, evaluated for each popped codelet. */
  function NeedsAll(ready: seq<Codelet>): (needs: seq<bool>)
    reads set c | c in ready
    ensures |needs| == |ready|
  {
    seq(|ready|, i reads set c | c in ready requires 0 <= i < |ready| => NeedsFifo(ready[i]))
  }

  /**
   * The dynamic policy checks every popped codelet: it allocates a queue for exactly
   * the codelets the guard accepts.
   */
  lemma {:induction false} DynamicWiresEveryProducer(ready: seq<Codelet>, needs: seq<bool>, td: seq<Teardown>,
                                                     i: nat, c: Codelet)
    requires |needs| == |td| == |ready|
    ensures Allocated(c) in DynamicEvents(ready, needs, td, i)
            <==> exists j :: i <= j < |ready| && ready[j] == c && needs[j]
    decreases |ready| - i
  {
    if i < |ready| {
      var step, rest := DynamicStep(ready[i], needs[i], td[i]), DynamicEvents(ready, needs, td, i + 1);
      DynamicWiresEveryProducer(ready, needs, td, i + 1, c);
      assert Allocated(c) in step <==> needs[i] && ready[i] == c by {
        if Allocated(c) in FireEvents(ready[i], td[i]) {
          FireNeverAllocates(ready[i], td[i], Allocated(c));
        }
      }
      assert Allocated(c) in step + rest <==> Allocated(c) in step || Allocated(c) in rest;
      if exists j :: i <= j < |ready| && ready[j] == c && needs[j] {
        var j :| i <= j < |ready| && ready[j] == c && needs[j];
        assert j == i || (i + 1 <= j < |ready| && ready[j] == c && needs[j]);
      }
    }
  }

  /** The static policy fires every popped codelet on this thread, and no other. */
  lemma {:induction false} StaticFiresAll(ready: seq<Codelet>, td: seq<Teardown>, i: nat, c: Codelet)
    requires |td| == |ready|
    ensures Fired(c) in StaticEvents(ready, td, i) <==> exists j :: i <= j < |ready| && ready[j] == c
    decreases |ready| - i
  {
    if i < |ready| {
      var step, rest := FireEvents(ready[i], td[i]), StaticEvents(ready, td, i + 1);
      StaticFiresAll(ready, td, i + 1, c);
      assert Fired(c) in step <==> ready[i] == c;
      assert Fired(c) in step + rest <==> Fired(c) in step || Fired(c) in rest;
      if exists j :: i <= j < |ready| && ready[j] == c {
        var j :| i <= j < |ready| && ready[j] == c;
        assert j == i || (i + 1 <= j < |ready| && ready[j] == c);
      }
    }
  }

  // --- TPStatic::pushCodelet ----------------------------------------------------

  datatype Route = Local | Sub(index: nat)

  /** Where TPStatic::pushCodelet sends a codelet with the given status. */
  function StaticRoute(status: nat, numSub: nat): (r: Route)
    ensures r == Local <==> status == 0 || numSub == 0
    ensures r.Sub? ==> r.index < numSub
  {
    if status == 0 || numSub == 0 then Local else Sub((status - 1) % numSub)
  }

  /**
   * Statuses 1..numSub pick subs 0..numSub-1 in order, and statuses numSub apart
   * pick the same sub.
   */
  lemma StaticRouteCycles(status: nat, numSub: nat)
    requires numSub > 0
    ensures 1 <= status <= numSub ==> StaticRoute(status, numSub) == Sub(status - 1)
    ensures status >= 1 ==> StaticRoute(status + numSub, numSub) == StaticRoute(status, numSub)
  {
    if status >= 1 {
      ModShift(status - 1, numSub);
      assert status + numSub - 1 == (status - 1) + numSub;
      if status <= numSub {
        ModSmall(status - 1, numSub);
      }
    }
  }

  lemma ModSmall(x: nat, n: nat)
    requires x < n
    ensures x % n == x
  {
  }

  lemma ModShift(x: nat, n: nat)
    requires n > 0
    ensures (x + n) % n == x % n
  {
    var q, r := x / n, x % n;
    var q2, r2 := (x + n) / n, (x + n) % n;
    assert x == q * n + r;
    assert x + n == q2 * n + r2;
    MulSucc(q, n);
    MulSucc(q + 1, n);
    if q2 >= q + 2 {
      MulMono(q + 2, q2, n);
    } else if q2 <= q {
      MulMono(q2, q, n);
    }
    assert q2 == q + 1;
  }

  lemma MulSucc(a: nat, n: nat)
    ensures (a + 1) * n == a * n + n
  {
  }

  lemma {:induction false} MulMono(a: nat, b: nat, n: nat)
    requires a <= b
    ensures a * n <= b * n
    decreases b - a
  {
    if a < b {
      MulMono(a + 1, b, n);
      MulSucc(a, n);
    }
  }

  // ---------------------------------------------------------------------------
  // The scheduler
  // ---------------------------------------------------------------------------

  class TPScheduler {
    const policy: Policy
    /** getNumSub(): how many sub-schedulers hang below this one. */
    const numSub: nat
    /** The state behind getSubIndexInc(). */
    var subIndex: nat
    /** The sleep time of the idle backoff (a local of policy() that lives across passes). */
    var usecs: nat
    /** fifos_: the queues this scheduler allocated. */
    var fifos: seq<Queue>
    var trace: seq<Event>

    /** A scheduler about to enter its policy loop. */
    constructor (policy: Policy, numSub: nat)
      ensures this.policy == policy && this.numSub == numSub
      ensures subIndex == 0 && usecs == BackoffReset && fifos == [] && trace == []
    {
      this.policy := policy;
      this.numSub := numSub;
      subIndex := 0;
      usecs := BackoffReset;
      fifos := [];
      trace := [];
    }

    /** The next sub-scheduler in round-robin order; the index moves on by one. */
    method GetSubIndexInc() returns (k: nat)
      requires numSub > 0
      modifies this`subIndex
      ensures k == old(subIndex) % numSub && k < numSub && subIndex == old(subIndex) + 1
    {
      k := subIndex % numSub;
      subIndex := subIndex + 1;
    }

    /** getSubScheduler(k)->pushCodelet(c); `accept` is the sub-scheduler's answer. */
    method OfferToSub(k: nat, c: Codelet, accept: bool) returns (ok: bool)
      modifies this`trace
      ensures ok == accept && trace == old(trace) + [Offered(k, c, accept)]
    {
      ok := accept;
      trace := trace + [Offered(k, c, accept)];
    }

    /** The closure half of a pass: reset the sleep time on work, else sleep and double it. */
    method Backoff(gotClosure: bool)
      modifies this`usecs
      ensures usecs == NextBackoff(old(usecs), gotClosure)
    {
      if gotClosure {
        usecs := BackoffReset;
      } else {
        if usecs < BackoffLimit {
          usecs := usecs * 2;
        }
      }
    }

    /**
     * allocateFifo(p): build the queue p produces into, make it p's consumer handle
     * and the downstream codelet's producer handle, record it in fifos_, and satisfy
     * one dependency of the downstream codelet.
     */
    method AllocateFifo(p: Codelet) returns (f: Queue)
      requires p.IsStreaming() && p.consumerCod != null && p.consumerCod.dep > 0
      modifies this`fifos, this`trace, p`consumer, p.consumerCod`producer, p.consumerCod`dep
      ensures fresh(f) && fresh(f.queue) && f.Valid() && f.Elements() == []
      ensures f.queue.Length == StreamFifoSize
      ensures f.base == NewFifo7(0, 0, 0, StreamFifoSize, IntSize, p, p.consumerCod)
      ensures p.GetConsumer() == f && p.GetConsumerCod().GetProducer() == f
      ensures fifos == old(fifos) + [f]
      ensures p.consumerCod.dep == old(p.consumerCod.dep) - 1
      ensures trace == old(trace) + [Allocated(p)]
    {
      f := p.GenerateFifo(0, 0, 0, 10, p.GetConsumerCod());
      p.SetConsumer(f);
      p.GetConsumerCod().SetProducer(f);
      fifos := fifos + [f];
      p.DecDepConsumerCod();
      trace := trace + [Allocated(p)];
    }

    /** The inner loop of round robin and work push for one codelet: offer it until accepted. */
    method PushUntilAccepted(c: Codelet, answers: seq<bool>)
      requires numSub > 0 && Accepts(answers)
      modifies this`subIndex, this`trace
      ensures subIndex == old(subIndex) + FirstAccept(answers) + 1
      ensures trace == old(trace) + AttemptEvents(c, old(subIndex), numSub, answers, FirstAccept(answers) + 1)
    {
      var k := GetSubIndexInc();
      var i := 0;
      var ok := OfferToSub(k, c, answers[0]);
      while !ok
        invariant 0 <= i <= FirstAccept(answers) && ok == answers[i]
        invariant subIndex == old(subIndex) + i + 1
        invariant trace == old(trace) + AttemptEvents(c, old(subIndex), numSub, answers, i + 1)
        decreases FirstAccept(answers) - i
      {
        i := i + 1;
        k := GetSubIndexInc();
        ok := OfferToSub(k, c, answers[i]);
      }
    }

    /** Push-full's for loop for one codelet: one offer per sub-scheduler at most. */
    method TryEachSub(c: Codelet, answers: seq<bool>) returns (fail: bool)
      requires numSub <= |answers|
      modifies this`subIndex, this`trace
      ensures fail == AllReject(answers, numSub)
      ensures subIndex == old(subIndex) + Tries(answers, numSub)
      ensures trace == old(trace) + AttemptEvents(c, old(subIndex), numSub, answers, Tries(answers, numSub))
    {
      fail := true;
      var i := 0;
      while i < numSub
        invariant 0 <= i <= numSub && fail
        invariant forall j :: 0 <= j < i ==> !answers[j]
        invariant subIndex == old(subIndex) + i
        invariant trace == old(trace) + AttemptEvents(c, old(subIndex), numSub, answers, i)
      {
        var k := GetSubIndexInc();
        var ok := OfferToSub(k, c, answers[i]);
        if ok {
          fail := false;
          assert FirstAccept(answers) == i;
          return;
        }
        i := i + 1;
      }
    }

    /**
     * Fire c on this thread.  checkParent() is asked before the fire, decRef() after
     * it and only if checkParent() said yes; the procedure is deleted only if both
     * said yes.
     */
    method FireLocally(c: Codelet, t: Teardown)
      modifies this`trace
      ensures trace == old(trace) + FireEvents(c, t)
    {
      var checkTP := c.tp;
      var deleteTP := false;
      if checkTP != null {
        deleteTP := t.deletable;
        trace := trace + [ParentChecked(checkTP, deleteTP)];
      }
      trace := trace + [Fired(c)];
      if deleteTP {
        var last := t.lastRef;
        trace := trace + [RefDropped(checkTP, last)];
        if last {
          trace := trace + [Deleted(checkTP)];
        }
      }
    }

    /**
     * Obtain a closure: popTP(), and steal() only when that found nothing.  `got` says
     * whether a closure was obtained, `askedSteal` whether steal() was called.
     */
    method ObtainClosure(popHit: bool, stealHit: bool) returns (got: bool, ghost askedSteal: bool)
      modifies this`usecs
      ensures askedSteal <==> !popHit
      ensures got <==> popHit || (askedSteal && stealHit)
      ensures usecs == NextBackoff(old(usecs), got)
    {
      got := popHit;
      askedSteal := false;
      if !got {
        askedSteal := true;
        got := stealHit;
      }
      Backoff(got);
    }

    /**
     * One pass of TPRoundRobin::policy.  Only the first popped codelet is checked for
     * streaming and wired; then every popped codelet is offered to the sub-schedulers
     * in round-robin order until one accepts it.  Nothing is fired here.
     */
    method RoundRobinPass(popHit: bool, stealHit: bool, ready: seq<Codelet>, answers: seq<seq<bool>>)
      requires policy == RoundRobin && (numSub > 0 || ready == [])
      requires |answers| == |ready| && AllAccepted(answers)
      requires ready != [] && NeedsFifo(ready[0]) ==> ready[0].consumerCod.dep > 0
      modifies this`usecs, this`subIndex, this`fifos, this`trace
      modifies (if ready != [] && NeedsFifo(ready[0]) then {ready[0]} else {})`consumer
      modifies (if ready != [] && NeedsFifo(ready[0]) then {ready[0].consumerCod} else {})`producer
      modifies (if ready != [] && NeedsFifo(ready[0]) then {ready[0].consumerCod} else {})`dep
      ensures usecs == NextBackoff(old(usecs), popHit || stealHit)
      ensures var wired := ready != [] && old(NeedsFifo(ready[0]));
        && trace == old(trace) + RoundRobinEvents(ready, wired, old(subIndex), numSub, answers)
        && subIndex == old(subIndex) + RetryAdvance(answers, 0)
        && fifos == old(fifos) + (if wired then [ready[0].consumer] else [])
        && (wired ==> ready[0].consumer != null && fresh(ready[0].consumer) && fresh(ready[0].consumer.queue)
                      && ready[0].consumer.Valid() && ready[0].consumer.Elements() == []
                      && ready[0].consumer.queue.Length == StreamFifoSize
                      && ready[0].consumerCod.producer == ready[0].consumer
                      && ready[0].consumerCod.dep == old(ready[0].consumerCod.dep) - 1)
    {
      var got, askedSteal := ObtainClosure(popHit, stealHit);
      assert got == (popHit || stealHit);
      ghost var wired := ready != [] && NeedsFifo(ready[0]);
      if ready != [] && NeedsFifo(ready[0]) {
        var f := AllocateFifo(ready[0]);
      }
      PushAllUntilAccepted(ready, answers);
    }

    /**
     * One pass of TPWorkPush::policy: popTP() only (no stealing), no streaming check,
     * and every popped codelet is offered until some sub-scheduler accepts it.
     */
    method WorkPushPass(popHit: bool, ready: seq<Codelet>, answers: seq<seq<bool>>)
      requires policy == WorkPush && (numSub > 0 || ready == [])
      requires |answers| == |ready| && AllAccepted(answers)
      modifies this`usecs, this`subIndex, this`trace
      ensures usecs == NextBackoff(old(usecs), popHit)
      ensures trace == old(trace) + RetryEvents(ready, old(subIndex), numSub, answers, 0)
      ensures subIndex == old(subIndex) + RetryAdvance(answers, 0)
    {
      Backoff(popHit);
      PushAllUntilAccepted(ready, answers);
    }

    /** Offer every popped codelet, in order, until some sub-scheduler accepts it. */
    method PushAllUntilAccepted(ready: seq<Codelet>, answers: seq<seq<bool>>)
      requires (numSub > 0 || ready == []) && |answers| == |ready| && AllAccepted(answers)
      modifies this`subIndex, this`trace
      ensures trace == old(trace) + RetryEvents(ready, old(subIndex), numSub, answers, 0)
      ensures subIndex == old(subIndex) + RetryAdvance(answers, 0)
    {
      var i := 0;
      while i < |ready|
        invariant 0 <= i <= |ready|
        invariant old(subIndex) + RetryAdvance(answers, 0) == subIndex + RetryAdvance(answers, i)
        invariant old(trace) + RetryEvents(ready, old(subIndex), numSub, answers, 0)
                  == trace + RetryEvents(ready, subIndex, numSub, answers, i)
      {
        ghost var before, idx := trace, subIndex;
        PushUntilAccepted(ready[i], answers[i]);
        Regroup(before, AttemptEvents(ready[i], idx, numSub, answers[i], FirstAccept(answers[i]) + 1),
                RetryEvents(ready, subIndex, numSub, answers, i + 1));
        i := i + 1;
      }
    }

    /**
     * One pass of TPPushFull::policy: each popped codelet is offered to each
     * sub-scheduler once at most, and fired here if all refuse.  No streaming check.
     */
    method PushFullPass(popHit: bool, stealHit: bool, ready: seq<Codelet>, answers: seq<seq<bool>>, td: seq<Teardown>)
      requires policy == PushFull
      requires |answers| == |ready| == |td| && CoversSubs(answers, numSub)
      modifies this`usecs, this`subIndex, this`trace
      ensures usecs == NextBackoff(old(usecs), popHit || stealHit)
      ensures trace == old(trace) + PushFullEvents(ready, old(subIndex), numSub, answers, td, 0)
      ensures subIndex == old(subIndex) + PushFullAdvance(answers, numSub, 0)
    {
      var got, askedSteal := ObtainClosure(popHit, stealHit);
      assert got == (popHit || stealHit);
      var i := 0;
      while i < |ready|
        invariant 0 <= i <= |ready|
        invariant usecs == NextBackoff(old(usecs), popHit || stealHit)
        invariant old(subIndex) + PushFullAdvance(answers, numSub, 0) == subIndex + PushFullAdvance(answers, numSub, i)
        invariant old(trace) + PushFullEvents(ready, old(subIndex), numSub, answers, td, 0)
                  == trace + PushFullEvents(ready, subIndex, numSub, answers, td, i)
      {
        ghost var before, idx := trace, subIndex;
        PushFullOne(ready[i], answers[i], td[i]);
        Regroup(before, PushFullStep(ready[i], idx, numSub, answers[i], td[i]),
                PushFullEvents(ready, subIndex, numSub, answers, td, i + 1));
        i := i + 1;
      }
    }

    /** Push-full for one codelet: offer it to each sub-scheduler once, fire it here if all refuse. */
    method PushFullOne(c: Codelet, answers: seq<bool>, t: Teardown)
      requires numSub <= |answers|
      modifies this`subIndex, this`trace
      ensures subIndex == old(subIndex) + Tries(answers, numSub)
      ensures trace == old(trace) + PushFullStep(c, old(subIndex), numSub, answers, t)
    {
      var fail := TryEachSub(c, answers);
      if fail {
        ghost var offers := trace;
        FireLocally(c, t);
        Regroup(old(trace), offers[|old(trace)|..], FireEvents(c, t));
      }
    }

    /** One pass of TPStatic::policy: every popped codelet is fired here. */
    method StaticPass(popHit: bool, stealHit: bool, ready: seq<Codelet>, td: seq<Teardown>)
      requires policy == Static
      requires |td| == |ready|
      modifies this`usecs, this`trace
      ensures usecs == NextBackoff(old(usecs), popHit || stealHit)
      ensures trace == old(trace) + StaticEvents(ready, td, 0)
    {
      var got, askedSteal := ObtainClosure(popHit, stealHit);
      assert got == (popHit || stealHit);
      var i := 0;
      while i < |ready|
        invariant 0 <= i <= |ready|
        invariant usecs == NextBackoff(old(usecs), popHit || stealHit)
        invariant old(trace) + StaticEvents(ready, td, 0) == trace + StaticEvents(ready, td, i)
      {
        ghost var before := trace;
        FireLocally(ready[i], td[i]);
        Regroup(before, FireEvents(ready[i], td[i]), StaticEvents(ready, td, i + 1));
        i := i + 1;
      }
    }

    /**
     * TPStatic::pushCodelet: to the local queue when the status is 0 or there are no
     * sub-schedulers, otherwise to sub-scheduler (status - 1) % numSub; the answer of
     * that push is returned.
     */
    method PushCodelet(c: Codelet, accept: bool) returns (ok: bool)
      requires policy == Static
      modifies this`trace
      ensures ok == accept
      ensures trace == old(trace) + [match StaticRoute(c.status, numSub)
                                     case Local => QueuedLocally(c, accept)
                                     case Sub(k) => Offered(k, c, accept)]
    {
      var status := c.status;
      var n := numSub;
      if status == 0 || n == 0 {
        ok := accept;
        trace := trace + [QueuedLocally(c, ok)];
        return;
      }
      ok := OfferToSub((status - 1) % n, c, accept);
    }

    /**
     * The body of TPDynamic::policy's inner loop for one popped codelet: allocate and
     * wire its queue if the guard holds, then fire it here.
     */
    method WireAndFire(c: Codelet, t: Teardown)
      requires NeedsFifo(c) ==> c.consumerCod.dep > 0
      modifies this`fifos, this`trace, (if NeedsFifo(c) then {c} else {})`consumer
      modifies (if NeedsFifo(c) then {c.consumerCod} else {})`producer
      modifies (if NeedsFifo(c) then {c.consumerCod} else {})`dep
      ensures trace == old(trace) + DynamicStep(c, old(NeedsFifo(c)), t)
      ensures old(NeedsFifo(c)) ==>
        && c.consumer != null && fresh(c.consumer) && fifos == old(fifos) + [c.consumer]
        && c.consumerCod.producer == c.consumer && c.consumerCod.dep == old(c.consumerCod.dep) - 1
      ensures !old(NeedsFifo(c)) ==> fifos == old(fifos) && c.consumer == old(c.consumer)
    {
      if NeedsFifo(c) {
        var f := AllocateFifo(c);
      }
      ghost var wiring := trace;
      FireLocally(c, t);
      Regroup(old(trace), wiring[|old(trace)|..], FireEvents(c, t));
    }

    /**
     * One pass of TPDynamic::policy: every popped codelet is checked for streaming,
     * wired if the guard holds, and then fired here.
     */
    method DynamicPass(popHit: bool, stealHit: bool, ready: seq<Codelet>, td: seq<Teardown>, ghost wired: set<Codelet>)
      requires forall c :: c in ready ==> c in wired && (c.consumerCod != null ==> c.consumerCod in wired)
      requires policy == Dynamic
      requires |td| == |ready|
      requires forall i :: 0 <= i < |ready| && NeedsFifo(ready[i]) ==> ready[i].consumerCod.dep > 0
      requires forall i, j :: 0 <= i < j < |ready| && NeedsFifo(ready[i]) && NeedsFifo(ready[j])
                 ==> ready[i].consumerCod != ready[j].consumerCod
      modifies this`usecs, this`fifos, this`trace, wired`consumer, wired`producer, wired`dep
      ensures usecs == NextBackoff(old(usecs), popHit || stealHit)
      ensures trace == old(trace) + DynamicEvents(ready, old(NeedsAll(ready)), td, 0)
      ensures |fifos| == |old(fifos)| + Count(old(NeedsAll(ready)), 0) && fifos[..|old(fifos)|] == old(fifos)
      ensures forall i :: 0 <= i < |ready| && old(NeedsFifo(ready[i])) ==>
                WiredSince(ready[i], old(ready[i].consumerCod.dep), old(fifos), fifos)
      ensures forall c :: c in wired && c !in old(Guarded(ready)) ==> c.consumer == old(c.consumer)
      ensures forall c :: c in wired && c !in old(GuardedDownstream(ready))
                ==> c.producer == old(c.producer) && c.dep == old(c.dep)
    {
      var got, askedSteal := ObtainClosure(popHit, stealHit);
      WireAndFireAll(ready, td, wired);
    }

    /** The inner loop of TPDynamic::policy: wire (if the guard holds) and fire each popped codelet. */
    method WireAndFireAll(ready: seq<Codelet>, td: seq<Teardown>, ghost wired: set<Codelet>)
      requires forall c :: c in ready ==> c in wired && (c.consumerCod != null ==> c.consumerCod in wired)
      requires |td| == |ready|
      requires forall i :: 0 <= i < |ready| && NeedsFifo(ready[i]) ==> ready[i].consumerCod.dep > 0
      requires forall i, j :: 0 <= i < j < |ready| && NeedsFifo(ready[i]) && NeedsFifo(ready[j])
                 ==> ready[i].consumerCod != ready[j].consumerCod
      modifies this`fifos, this`trace, wired`consumer, wired`producer, wired`dep
      ensures trace == old(trace) + DynamicEvents(ready, old(NeedsAll(ready)), td, 0)
      ensures |fifos| == |old(fifos)| + Count(old(NeedsAll(ready)), 0) && fifos[..|old(fifos)|] == old(fifos)
      ensures forall i :: 0 <= i < |ready| && old(NeedsFifo(ready[i])) ==>
                WiredSince(ready[i], old(ready[i].consumerCod.dep), old(fifos), fifos)
      ensures forall c :: c in wired && c !in old(Guarded(ready)) ==> c.consumer == old(c.consumer)
      ensures forall c :: c in wired && c !in old(GuardedDownstream(ready))
                ==> c.producer == old(c.producer) && c.dep == old(c.dep)
    {
      ghost var needs := NeedsAll(ready);
      ghost var deps0 := DownstreamDeps(ready);
      ghost var g0, d0 := Guarded(ready), GuardedDownstream(ready);
      var i := 0;
      while i < |ready|
        invariant 0 <= i <= |ready|
        invariant forall j :: 0 <= j < |ready| ==> NeedsFifo(ready[j]) == needs[j]
        invariant forall j :: 0 <= j < |ready| && needs[j] ==> deps0[j] == old(ready[j].consumerCod.dep)
        invariant forall j :: i <= j < |ready| && NeedsFifo(ready[j]) ==> ready[j].consumerCod.dep == deps0[j] > 0
        invariant old(trace) + DynamicEvents(ready, needs, td, 0) == trace + DynamicEvents(ready, needs, td, i)
        invariant |old(fifos)| + Count(needs, 0) == |fifos| + Count(needs, i)
        invariant |fifos| >= |old(fifos)| && fifos[..|old(fifos)|] == old(fifos)
        invariant forall j :: 0 <= j < i && needs[j] ==> WiredSince(ready[j], deps0[j], old(fifos), fifos)
        modifies this`fifos, this`trace, g0`consumer, d0`producer, d0`dep
      {
        assert needs[i] ==> ready[i] in g0 && ready[i].consumerCod in d0;
        WireAndFireAt(ready, td, i, needs, deps0, old(trace), old(fifos));
        i := i + 1;
      }
    }

    /**
     * One iteration of WireAndFireAll, for ready[i]: wire it if the guard holds, then
     * fire it.  The pass's events and queue table, which began as trace0 and fifos0,
     * move on by one codelet; the codelets wired earlier in the pass stay wired, and
     * the downstream counts of the codelets still to come are untouched.
     */
    method WireAndFireAt(ready: seq<Codelet>, td: seq<Teardown>, i: nat, ghost needs: seq<bool>,
                         ghost deps0: seq<int>, ghost trace0: seq<Event>, ghost fifos0: seq<Queue>)
      requires i < |ready| == |td| == |needs| == |deps0|
      requires forall j :: 0 <= j < |ready| ==> NeedsFifo(ready[j]) == needs[j]
      requires forall j, k :: 0 <= j < k < |ready| && needs[j] && needs[k]
                 ==> ready[j].consumerCod != ready[k].consumerCod
      requires forall j :: i <= j < |ready| && NeedsFifo(ready[j]) ==> ready[j].consumerCod.dep == deps0[j] > 0
      requires trace0 + DynamicEvents(ready, needs, td, 0) == trace + DynamicEvents(ready, needs, td, i)
      requires |fifos0| + Count(needs, 0) == |fifos| + Count(needs, i)
      requires |fifos| >= |fifos0| && fifos[..|fifos0|] == fifos0
      requires forall j :: 0 <= j < i && needs[j] ==> WiredSince(ready[j], deps0[j], fifos0, fifos)
      modifies this`fifos, this`trace
      modifies (if needs[i] then {ready[i]} else {})`consumer
      modifies (if needs[i] then {ready[i].consumerCod} else {})`producer
      modifies (if needs[i] then {ready[i].consumerCod} else {})`dep
      ensures forall j :: 0 <= j < |ready| ==> NeedsFifo(ready[j]) == needs[j]
      ensures forall j :: i < j < |ready| && NeedsFifo(ready[j]) ==> ready[j].consumerCod.dep == deps0[j] > 0
      ensures trace0 + DynamicEvents(ready, needs, td, 0) == trace + DynamicEvents(ready, needs, td, i + 1)
      ensures |fifos0| + Count(needs, 0) == |fifos| + Count(needs, i + 1)
      ensures |fifos| >= |fifos0| && fifos[..|fifos0|] == fifos0
      ensures forall j :: 0 <= j <= i && needs[j] ==> WiredSince(ready[j], deps0[j], fifos0, fifos)
    {
      ghost var before := trace;
      WireAndFire(ready[i], td[i]);
      Regroup(before, DynamicStep(ready[i], needs[i], td[i]), DynamicEvents(ready, needs, td, i + 1));
    }
  }
}
