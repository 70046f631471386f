/**
 The cooperative scheduler of src/coroutine.c as a transition system over its API calls.
 A coroutine is known by its position in the registry `all[]` (its `id` minus one).
 Client code is arbitrary: a run is any sequence of calls whose assertions hold.
 */
module Scheduler {
  import opened Sequences

  const MAX_COROUTINES: nat := 512
  const QUEUE_CAP: nat := 2 * MAX_COROUTINES

  datatype Status = Ready | Running | Waiting(on: nat) | Done

  /** `co` is the registry, `queue` the run-queue from head to tail. */
  datatype State = State(co: seq<Status>, queue: seq<nat>, running: Option<nat>)

  /** The calls that change scheduler state; `Resume` is one iteration of the `co_run` loop. */
  datatype Action = Create | Resume | Yield | Await(target: nat) | Finish

  const Init := State([], [], None)

  /** Has coroutine `i` a place in the registry and is it waiting for `t`? */
  predicate Awaits(co: seq<Status>, t: nat, i: nat) {
    i < |co| && co[i] == Waiting(t)
  }

  function Waiters(co: seq<Status>, t: nat): seq<nat> {
    Select(|co|, (i: nat) => Awaits(co, t, i))
  }

  lemma WaitersSpec(co: seq<Status>, t: nat)
    ensures NoDup(Waiters(co, t)) && Below(Waiters(co, t), |co|)
    ensures forall k :: 0 <= k < |Waiters(co, t)| ==> co[Waiters(co, t)[k]] == Waiting(t)
    ensures forall i: nat :: i < |co| && co[i] == Waiting(t) ==> i in Waiters(co, t)
    ensures forall i, j :: 0 <= i < j < |Waiters(co, t)| ==> Waiters(co, t)[i] < Waiters(co, t)[j]
  {
    SelectSpec(|co|, (i: nat) => Awaits(co, t, i));
    assert forall i: nat :: i < |co| && co[i] == Waiting(t) ==> Awaits(co, t, i);
    assert forall k :: 0 <= k < |Waiters(co, t)| ==> Awaits(co, t, Waiters(co, t)[k]);
  }

  function Wake(co: seq<Status>, t: nat): (r: seq<Status>)
    ensures |r| == |co|
    ensures forall i :: 0 <= i < |co| ==> r[i] == if co[i] == Waiting(t) then Ready else co[i]
  {
    seq(|co|, i requires 0 <= i < |co| => if co[i] == Waiting(t) then Ready else co[i])
  }

  /** The assertions at the head of each call. */
  predicate Enabled(s: State, a: Action) {
    match a
    case Create => |s.co| < MAX_COROUTINES
    case Resume => s.running.None? && s.queue != [] && s.queue[0] < |s.co|
    case Await(t) => t < |s.co| && (s.co[t].Done? || (s.running.Some? && s.running.value < |s.co|))
    case _ => s.running.Some? && s.running.value < |s.co|
  }

  function Step(s: State, a: Action): State
    requires Enabled(s, a)
  {
    match a
    case Create => s.(co := s.co + [Ready], queue := s.queue + [|s.co|])
    case Resume =>
      State(s.co[s.queue[0] := Running], s.queue[1..], Some(s.queue[0]))
    case Yield => State(s.co[s.running.value := Ready], s.queue + [s.running.value], None)
    case Await(t) =>
      if s.co[t].Done? then s else State(s.co[s.running.value := Waiting(t)], s.queue, None)
    case Finish =>
      var co := s.co[s.running.value := Done];
      State(Wake(co, s.running.value), s.queue + Waiters(co, s.running.value), None)
  }

  predicate Legal(s: State, acts: seq<Action>)
    decreases |acts|
  {
    acts == [] || (Enabled(s, acts[0]) && Legal(Step(s, acts[0]), acts[1..]))
  }

  function Exec(s: State, acts: seq<Action>): State
    requires Legal(s, acts)
    decreases |acts|
  {
    if acts == [] then s else Exec(Step(s, acts[0]), acts[1..])
  }

  lemma {:induction false} ExecConcat(s: State, a: seq<Action>, b: seq<Action>)
    requires Legal(s, a) && Legal(Exec(s, a), b)
    ensures Legal(s, a + b) && Exec(s, a + b) == Exec(Exec(s, a), b)
    decreases |a|
  {
    if a == [] {
      assert a + b == b;
    } else {
      assert (a + b)[0] == a[0] && (a + b)[1..] == a[1..] + b;
      ExecConcat(Step(s, a[0]), a[1..], b);
    }
  }

  // ---------------------------------------------------------------------------------------------
  // What every reachable state satisfies

  predicate QueueListsReady(s: State) {
    && NoDup(s.queue)
    && (forall k :: 0 <= k < |s.queue| ==> s.queue[k] < |s.co| && s.co[s.queue[k]].Ready?)
    && (forall c: nat :: c < |s.co| && s.co[c].Ready? ==> c in s.queue)
  }

  predicate OneRunning(s: State) {
    && (s.running.Some? ==> s.running.value < |s.co|)
    && (forall c: nat :: c < |s.co| ==> (s.co[c].Running? <==> s.running == Some(c)))
  }

  /** No lost wakeup: what a coroutine waits for has not finished. */
  predicate WaitsAreOpen(s: State) {
    forall c: nat :: c < |s.co| && s.co[c].Waiting? ==>
                       s.co[c].on < |s.co| && !s.co[s.co[c].on].Done?
  }

  predicate Valid(s: State) {
    && |s.co| <= MAX_COROUTINES
    && QueueListsReady(s)
    && OneRunning(s)
    && WaitsAreOpen(s)
  }

  lemma FinishKeepsQueue(s: State)
    requires Valid(s) && Enabled(s, Finish)
    ensures QueueListsReady(Step(s, Finish))
  {
    var r := s.running.value;
    var co, s' := s.co[r := Done], Step(s, Finish);
    WaitersSpec(co, r);
    forall c | c in s.queue ensures c !in Waiters(co, r) { assert s.co[c].Ready?; }
    NoDupConcat(s.queue, Waiters(co, r));
    forall c: nat | c < |s'.co| && s'.co[c].Ready? ensures c in s'.queue {
      assert co[c] == Waiting(r) ==> c in Waiters(co, r);
    }
  }

  lemma FinishKeepsValid(s: State)
    requires Valid(s) && Enabled(s, Finish)
    ensures Valid(Step(s, Finish))
  {
    FinishKeepsQueue(s);
    hide QueueListsReady;
  }

  lemma StepKeepsQueue(s: State, a: Action)
    requires Valid(s) && Enabled(s, a) && !a.Finish?
    ensures QueueListsReady(Step(s, a))
  {
    hide WaitsAreOpen;
    var s' := Step(s, a);
    match a
    case Create =>
      NoDupConcat(s.queue, [|s.co|]);
      assert s'.queue[|s.queue|] == |s.co|;
    case Resume =>
      assert s.queue == [s.queue[0]] + s'.queue;
    case Yield =>
      NoDupConcat(s.queue, [s.running.value]);
      assert s'.queue[|s.queue|] == s.running.value;
    case Await(t) =>
  }

  lemma StepKeepsValid(s: State, a: Action)
    requires Valid(s) && Enabled(s, a)
    ensures Valid(Step(s, a))
  {
    if a.Finish? {
      FinishKeepsValid(s);
    } else {
      StepKeepsQueue(s, a);
      if a.Resume? { assert s.co[s.queue[0]].Ready?; }
      hide QueueListsReady;
    }
  }

  lemma {:induction false} ExecKeepsValid(s: State, acts: seq<Action>)
    requires Valid(s) && Legal(s, acts)
    ensures Valid(Exec(s, acts))
    decreases |acts|
  {
    if acts != [] {
      StepKeepsValid(s, acts[0]);
      ExecKeepsValid(Step(s, acts[0]), acts[1..]);
    }
  }

  /** Every run of every client, from the empty scheduler. */
  lemma ReachableStates(acts: seq<Action>)
    requires Legal(Init, acts)
    ensures Valid(Exec(Init, acts))
  {
    ExecKeepsValid(Init, acts);
  }

  lemma HeadIsReady(s: State)
    requires Valid(s) && s.queue != []
    ensures s.queue[0] < |s.co| && s.co[s.queue[0]].Ready?
  {
  }

  /** Every call leaves a valid state whose queue fits the run-queue. */
  lemma StepFits(s: State, a: Action)
    requires Valid(s) && Enabled(s, a)
    ensures Valid(Step(s, a)) && |s.queue| <= MAX_COROUTINES && |Step(s, a).queue| <= MAX_COROUTINES
  {
    StepKeepsValid(s, a);
    Pigeonhole(s.queue, |s.co|);
    Pigeonhole(Step(s, a).queue, |Step(s, a).co|);
  }

  /** `q_size` stays below the queue's capacity whatever is enqueued next, and the
      coroutine that `co_run` pops is READY: the two internal assertions cannot fail. */
  lemma InternalAssertionsHold(acts: seq<Action>, a: Action)
    requires Legal(Init, acts) && Enabled(Exec(Init, acts), a)
    ensures var s := Exec(Init, acts);
            && |s.queue| <= |s.co| <= MAX_COROUTINES
            && |Step(s, a).queue| <= MAX_COROUTINES < QUEUE_CAP
            && (a.Resume? ==> s.queue[0] < |s.co| && s.co[s.queue[0]].Ready?)
  {
    ExecKeepsValid(Init, acts);
    StepFits(Exec(Init, acts), a);
    Pigeonhole(Exec(Init, acts).queue, |Exec(Init, acts).co|);
  }

  lemma {:induction false} DoneIsAbsorbing(s: State, acts: seq<Action>, c: nat)
    requires Valid(s) && Legal(s, acts) && c < |s.co| && s.co[c].Done?
    ensures c < |Exec(s, acts).co| && Exec(s, acts).co[c].Done?
    decreases |acts|
  {
    if acts != [] {
      StepKeepsValid(s, acts[0]);
      DoneIsAbsorbing(Step(s, acts[0]), acts[1..], c);
    }
  }

  // ---------------------------------------------------------------------------------------------
  // First in, first out

  /** What one call takes from the head of the run-queue. */
  function Dequeues(s: State, a: Action): seq<nat>
    requires Enabled(s, a)
  {
    if a.Resume? then [s.queue[0]] else []
  }

  /** The coroutines resumed during a run, in order. */
  function Resumed(s: State, acts: seq<Action>): seq<nat>
    requires Legal(s, acts)
    decreases |acts|
  {
    if acts == [] then []
    else Dequeues(s, acts[0]) + Resumed(Step(s, acts[0]), acts[1..])
  }

  /** What one call appends to the run-queue. */
  function Enqueues(s: State, a: Action): seq<nat>
    requires Enabled(s, a)
  {
    match a
    case Create => [|s.co|]
    case Yield => [s.running.value]
    case Finish => Waiters(s.co, s.running.value)
    case _ => []
  }

  /** Everything appended to the run-queue during a run, in order. */
  function Enqueued(s: State, acts: seq<Action>): seq<nat>
    requires Legal(s, acts)
    decreases |acts|
  {
    if acts == [] then [] else Enqueues(s, acts[0]) + Enqueued(Step(s, acts[0]), acts[1..])
  }

  lemma WaitersIgnoreFinisher(co: seq<Status>, r: nat)
    requires r < |co| && !co[r].Waiting?
    ensures Waiters(co[r := Done], r) == Waiters(co, r)
  {
    SelectCongruent(|co|, (i: nat) => Awaits(co[r := Done], r, i), (i: nat) => Awaits(co, r, i));
  }

  lemma Regroup(a: seq<nat>, b: seq<nat>, c: seq<nat>, d: seq<nat>, e: seq<nat>, f: seq<nat>, g: seq<nat>)
    requires a + b == d + e && e + c == f + g
    ensures a + (b + c) == (d + f) + g
  {
    assert a + (b + c) == (a + b) + c;
    assert (d + e) + c == d + (e + c);
    assert d + (f + g) == (d + f) + g;
  }

  lemma QueueStep(s: State, a: Action)
    requires Valid(s) && Enabled(s, a)
    ensures s.queue + Enqueues(s, a) == Dequeues(s, a) + Step(s, a).queue
  {
    if a.Finish? { WaitersIgnoreFinisher(s.co, s.running.value); }
  }

  /** The run-queue is a queue: over any run, what was resumed followed by what is still queued
      is what was queued followed by what was enqueued. */
  lemma {:induction false} QueueLaw(s: State, acts: seq<Action>)
    requires Valid(s) && Legal(s, acts)
    ensures s.queue + Enqueued(s, acts) == Resumed(s, acts) + Exec(s, acts).queue
    decreases |acts|
  {
    if acts != [] {
      var a, s', rest := acts[0], Step(s, acts[0]), acts[1..];
      StepKeepsValid(s, a);
      QueueStep(s, a);
      QueueLaw(s', rest);
      Regroup(s.queue, Enqueues(s, a), Enqueued(s', rest),
              Dequeues(s, a), s'.queue, Resumed(s', rest), Exec(s', rest).queue);
    }
  }

  /** Bounded waiting: with `p` coroutines ahead of it, a READY coroutine is the `p`-th (from 0) to be
      resumed, whatever the coroutines before it create, await or wake. Until then it keeps its turn. */
  lemma BoundedWaiting(s: State, acts: seq<Action>, p: nat)
    requires Valid(s) && Legal(s, acts) && p < |s.queue|
    ensures var r := Resumed(s, acts);
            if p < |r| then r[p] == s.queue[p]
            else p - |r| < |Exec(s, acts).queue| && Exec(s, acts).queue[p - |r|] == s.queue[p]
  {
    hide Valid;
    QueueLaw(s, acts);
    Recut(s.queue, Enqueued(s, acts), Resumed(s, acts), Exec(s, acts).queue, p);
  }

  /** A finishing coroutine makes READY exactly its waiters, behind everything already queued,
      in the order in which they were created. */
  lemma FinishWakesWaiters(s: State)
    requires Valid(s) && Enabled(s, Finish)
    ensures var s' := Step(s, Finish); var r := s.running.value; var n := |s.queue|;
            && s'.co[r].Done? && n <= |s'.queue| && s'.queue[..n] == s.queue
            && (forall i, j :: n <= i < j < |s'.queue| ==> s'.queue[i] < s'.queue[j])
            && (forall c: nat :: c < |s.co| ==> (c in s'.queue[n..] <==> s.co[c] == Waiting(r)))
            && (forall c: nat :: c < |s.co| && c != r && s.co[c] != Waiting(r) ==> s'.co[c] == s.co[c])
            && (forall c: nat :: c < |s.co| && s.co[c] == Waiting(r) ==> s'.co[c].Ready?)
  {
    var r := s.running.value;
    WaitersSpec(s.co[r := Done], r);
    assert Step(s, Finish).queue[|s.queue|..] == Waiters(s.co[r := Done], r);
  }

  // ---------------------------------------------------------------------------------------------
  // Conservation

  datatype Tally = Tally(created: nat, resumed: nat, yielded: nat, blocked: nat, woken: nat, finished: nat)

  /** How often each call was made during a run; a block is an await that suspends its caller. */
  function Totals(s: State, acts: seq<Action>): Tally
    requires Legal(s, acts)
    decreases |acts|
  {
    if acts == [] then Tally(0, 0, 0, 0, 0, 0)
    else
      var t := Totals(Step(s, acts[0]), acts[1..]);
      match acts[0]
      case Create => t.(created := t.created + 1)
      case Resume => t.(resumed := t.resumed + 1)
      case Yield => t.(yielded := t.yielded + 1)
      case Await(c) => if s.co[c].Done? then t else t.(blocked := t.blocked + 1)
      case Finish => t.(finished := t.finished + 1, woken := t.woken + |Waiters(s.co, s.running.value)|)
  }

  function NumDone(s: State): nat { Count(s.co, (x: Status) => x.Done?) }

  function NumWaiting(s: State): nat { Count(s.co, (x: Status) => x.Waiting?) }

  function NumRunning(s: State): nat { if s.running.Some? then 1 else 0 }

  lemma {:induction false} WakeCounts(co: seq<Status>, t: nat, n: nat)
    requires n <= |co|
    ensures Count(Wake(co, t)[..n], (x: Status) => x.Waiting?) + |Select(n, (i: nat) => Awaits(co, t, i))|
            == Count(co[..n], (x: Status) => x.Waiting?)
    ensures Count(Wake(co, t)[..n], (x: Status) => x.Done?) == Count(co[..n], (x: Status) => x.Done?)
  {
    if n > 0 {
      WakeCounts(co, t, n - 1);
      assert Wake(co, t)[..n][..n - 1] == Wake(co, t)[..n - 1] && co[..n][..n - 1] == co[..n - 1];
    }
  }

  lemma FinishCounts(s: State)
    requires Valid(s) && Enabled(s, Finish)
    ensures NumDone(Step(s, Finish)) == NumDone(s) + 1
    ensures NumWaiting(Step(s, Finish)) + |Waiters(s.co, s.running.value)| == NumWaiting(s)
  {
    var r := s.running.value;
    var co := s.co[r := Done];
    WaitersIgnoreFinisher(s.co, r);
    WakeCounts(co, r, |co|);
    assert Wake(co, r)[..|co|] == Wake(co, r) && co[..|co|] == co;
    CountUpdate(s.co, (x: Status) => x.Waiting?, r, Done);
    CountUpdate(s.co, (x: Status) => x.Done?, r, Done);
  }

  lemma StatusCounts(s: State, a: Action)
    requires Valid(s) && Enabled(s, a) && !a.Finish?
    ensures NumDone(Step(s, a)) == NumDone(s)
    ensures NumWaiting(Step(s, a))
            == NumWaiting(s) + (if a.Await? && !s.co[a.target].Done? then 1 else 0)
  {
    var isDone, isWaiting := (x: Status) => x.Done?, (x: Status) => x.Waiting?;
    match a
    case Create =>
      assert (s.co + [Ready])[..|s.co|] == s.co;
    case Resume =>
      CountUpdate(s.co, isDone, s.queue[0], Running);
      CountUpdate(s.co, isWaiting, s.queue[0], Running);
    case Yield =>
      CountUpdate(s.co, isDone, s.running.value, Ready);
      CountUpdate(s.co, isWaiting, s.running.value, Ready);
    case Await(t) =>
      if !s.co[t].Done? {
        CountUpdate(s.co, isDone, s.running.value, Waiting(t));
        CountUpdate(s.co, isWaiting, s.running.value, Waiting(t));
      }
  }

  /** The balance over one call. */
  lemma BalanceStep(s: State, a: Action)
    requires Valid(s) && Enabled(s, a)
    ensures var t := Totals(s, [a]); var e := Step(s, a);
            && |e.queue| + t.resumed == |s.queue| + t.created + t.yielded + t.woken
            && NumRunning(s) + t.resumed == NumRunning(e) + t.yielded + t.blocked + t.finished
            && |e.co| == |s.co| + t.created
            && NumDone(e) == NumDone(s) + t.finished
            && NumWaiting(e) + t.woken == NumWaiting(s) + t.blocked
  {
    if a.Finish? {
      WaitersIgnoreFinisher(s.co, s.running.value);
      FinishCounts(s);
    } else {
      StatusCounts(s, a);
    }
  }

  /** Everything enqueued was created, yielded or woken, and every resumption ends in a yield,
      a blocking await or a return; `s` may already hold coroutines. */
  lemma {:induction false} Balance(s: State, acts: seq<Action>)
    requires Valid(s) && Legal(s, acts)
    ensures var t := Totals(s, acts); var e := Exec(s, acts);
            && |e.queue| + t.resumed == |s.queue| + t.created + t.yielded + t.woken
            && NumRunning(s) + t.resumed == NumRunning(e) + t.yielded + t.blocked + t.finished
            && |e.co| == |s.co| + t.created
            && NumDone(e) == NumDone(s) + t.finished
            && NumWaiting(e) + t.woken == NumWaiting(s) + t.blocked
    decreases |acts|
  {
    hide Valid, NumRunning, NumDone, NumWaiting;
    if acts != [] {
      StepKeepsValid(s, acts[0]);
      BalanceStep(s, acts[0]);
      Balance(Step(s, acts[0]), acts[1..]);
    }
  }

  /** When `co_run` returns: the balance of calls fixes how many coroutines are left WAITING. */
  lemma Conservation(acts: seq<Action>)
    requires Legal(Init, acts)
    requires Exec(Init, acts).queue == [] && Exec(Init, acts).running.None?
    ensures var t := Totals(Init, acts); var e := Exec(Init, acts);
            && t.resumed == t.created + t.yielded + t.woken
            && t.resumed == t.yielded + t.blocked + t.finished
            && NumDone(e) == t.finished
            && NumWaiting(e) == t.created - t.finished == t.blocked - t.woken
  {
    Balance(Init, acts);
  }
}
