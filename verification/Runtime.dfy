/** The scheduler of src/coroutine.c in its own form: coroutine records, registry and circular run-queue. */
module Runtime {
  import opened Sequences
  import opened Graphs
  import opened Rings
  import opened Scheduler
  import opened Programs
  import opened Deadlock
  import opened RoundRobin
  import opened Resumptions

  datatype CoState = CO_READY | CO_RUNNING | CO_WAITING | CO_DONE

  class Coroutine {
    const id: nat
    var state: CoState
    var awaiting: Coroutine?

    constructor (id: nat)
      ensures this.id == id && state == CO_READY && awaiting == null
    {
      this.id := id;
      state := CO_READY;
      awaiting := null;
    }

    ghost function Status(): Status
      reads this
    {
      match state
      case CO_READY => Ready
      case CO_RUNNING => Running
      case CO_WAITING => Waiting(Position(awaiting))
      case CO_DONE => Done
    }
  }

  /** A coroutine's place in the registry. */
  function Position(c: Coroutine?): nat {
    if c == null || c.id == 0 then 0 else c.id - 1
  }

  function Positions(cs: seq<Coroutine?>): (r: seq<nat>)
    ensures |r| == |cs| && forall k :: 0 <= k < |cs| ==> r[k] == Position(cs[k])
  {
    seq(|cs|, k requires 0 <= k < |cs| => Position(cs[k]))
  }

  lemma PositionsCons(c: Coroutine?, cs: seq<Coroutine?>)
    ensures Positions([c] + cs) == [Position(c)] + Positions(cs)
  {
  }

  /** `co` when the `wakeup_waiters` loop has seen its first `i` coroutines. */
  ghost function WakeFirst(co: seq<Status>, d: nat, i: nat): (r: seq<Status>)
    requires i <= |co|
    ensures |r| == |co| && (i == 0 ==> r == co) && (i == |co| ==> r == Wake(co, d))
    ensures i < |co| ==> r[i] == co[i]
  {
    Wake(co, d)[..i] + co[i..]
  }

  lemma WakeFirstNext(co: seq<Status>, d: nat, i: nat)
    requires i < |co|
    ensures WakeFirst(co, d, i + 1)
            == if co[i] == Waiting(d) then WakeFirst(co, d, i)[i := Ready] else WakeFirst(co, d, i)
  {
  }

  class System {
    const all: array<Coroutine?>
    var count: nat
    const queue: Ring<Coroutine?>
    var running: Coroutine?

    ghost predicate Registered(c: Coroutine?)
      reads this`count, all
    {
      c != null && 1 <= c.id <= count <= all.Length && all[c.id - 1] == c
    }

    /** The registry and the queue are well-formed. */
    ghost predicate Shape()
      reads this`count, all, queue, queue.buf
    {
      && all.Length == MAX_COROUTINES && count <= all.Length
      && queue.Valid() && queue.cap == QUEUE_CAP && all != queue.buf
      && (forall i :: 0 <= i < count ==> all[i] != null && all[i].id == i + 1)
      && (forall i :: count <= i < all.Length ==> all[i] == null)
      && (forall k :: 0 <= k < |queue.Contents()| ==> Registered(queue.Contents()[k]))
    }

    ghost predicate AwaitsRegistered()
      reads this`count, all, all[..]
      requires count <= all.Length
    {
      forall i :: 0 <= i < count && all[i] != null && all[i].state.CO_WAITING? ==> Registered(all[i].awaiting)
    }

    ghost function Statuses(): (co: seq<Status>)
      reads this`count, all, all[..]
      requires count <= all.Length && forall i :: 0 <= i < count ==> all[i] != null
      ensures |co| == count
    {
      var n := count;
      seq(n, i requires 0 <= i < n <= all.Length && all[i] != null reads all, all[..] => all[i].Status())
    }

    ghost function Queued(): (q: seq<nat>)
      reads queue, queue.buf
      requires queue.Valid()
    {
      Positions(queue.Contents())
    }

    /** The scheduler state that this heap stands for. */
    ghost function Abs(): (s: State)
      reads this, all, queue, queue.buf, all[..]
      requires Shape()
      ensures |s.co| == count
      ensures s.running == if running == null then None else Some(Position(running))
    {
      State(Statuses(), Queued(), if running == null then None else Some(Position(running)))
    }

    ghost predicate Valid()
      reads this, all, queue, queue.buf, all[..]
      ensures Valid() ==> Shape() && Scheduler.Valid(Abs()) && (running != null ==> Registered(running))
    {
      && Shape() && AwaitsRegistered() && (running != null ==> Registered(running))
      && Scheduler.Valid(Abs())
    }

    /** Everything the scheduler may change. */
    ghost function Repr(): set<object>
      reads this`count, all
    {
      {this, all, queue, queue.buf} + (set i | 0 <= i < all.Length && all[i] != null :: all[i])
    }

    constructor ()
      ensures Valid() && Abs() == Init && fresh(Repr())
    {
      all := new Coroutine?[MAX_COROUTINES](_ => null);
      count := 0;
      queue := new Ring<Coroutine?>(QUEUE_CAP);
      running := null;
    }

    /** `q_push`. */
    method QPush(c: Coroutine)
      requires Shape() && AwaitsRegistered() && Registered(c) && |Queued()| < QUEUE_CAP
      modifies queue, queue.buf
      ensures Shape() && AwaitsRegistered()
      ensures Queued() == old(Queued()) + [Position(c)] && Statuses() == old(Statuses())
    {
      ghost var before := queue.Contents();
      queue.Push(c);
      assert queue.Contents() == before + [c];
    }

    /** `q_pop`. */
    method QPop() returns (c: Coroutine?)
      requires Shape() && AwaitsRegistered()
      modifies queue
      ensures Shape() && AwaitsRegistered() && Statuses() == old(Statuses())
      ensures c == null <==> old(Queued()) == []
      ensures c == null ==> Queued() == old(Queued())
      ensures c != null ==> Registered(c) && old(Queued()) == [Position(c)] + Queued()
    {
      ghost var before := queue.Contents();
      assert before != [] ==> Registered(before[0]) && before[0] != null;
      hide Statuses, AwaitsRegistered, Registered, Position, Positions;
      var ok;
      ok, c := queue.TryPop(null);
      ghost var after := queue.Contents();
      if ok {
        PositionsCons(c, after);
        assert before[0] == c;
        assert forall k :: 0 <= k < |after| ==> after[k] == before[k + 1];
      } else {
        assert |after| == 0;
      }
    }

    /** One assignment to a coroutine's `state` and `awaiting`. */
    method SetState(c: Coroutine, state: CoState, awaiting: Coroutine?)
      requires Shape() && AwaitsRegistered() && Registered(c)
      requires state.CO_WAITING? ==> Registered(awaiting)
      modifies c
      ensures Shape() && AwaitsRegistered() && Queued() == old(Queued())
      ensures c.state == state && c.awaiting == awaiting
      ensures Statuses() == old(Statuses())[Position(c) := c.Status()]
    {
      c.state := state;
      c.awaiting := awaiting;
    }

    method CoYield()
      requires Valid() && running != null
      modifies Repr()
      ensures Valid() && Abs() == Step(old(Abs()), Yield) && Repr() == old(Repr()) && running == null
    {
      hide Scheduler.Valid, Statuses, Queued, AwaitsRegistered;
      ghost var s := Abs();
      StepFits(s, Yield);
      SetState(running, CO_READY, running.awaiting);
      QPush(running);
      running := null;
      assert Abs() == Step(s, Yield);
    }

    lemma StatusOf(c: Coroutine)
      requires Shape() && Registered(c)
      ensures Statuses()[Position(c)] == c.Status()
    {
    }

    /** The coroutine that a client knows by its place in the registry. */
    method Lookup(t: nat) returns (c: Coroutine)
      requires Valid() && t < |Abs().co|
      ensures Registered(c) && Position(c) == t && (c.state.CO_DONE? <==> Abs().co[t].Done?)
    {
      c := all[t];
      assert Abs().co[t] == c.Status();
    }

    /** `co_await`: `other` is a coroutine of this scheduler. */
    method CoAwait(other: Coroutine)
      requires Valid() && Registered(other) && Enabled(Abs(), Await(Position(other)))
      modifies Repr()
      ensures Valid() && Abs() == Step(old(Abs()), Await(Position(other))) && Repr() == old(Repr())
    {
      hide Scheduler.Valid, Statuses, Queued, AwaitsRegistered;
      ghost var s := Abs();
      StatusOf(other);
      if other.state.CO_DONE? { return; }
      StepFits(s, Await(Position(other)));
      SetState(running, CO_WAITING, other);
      running := null;
      assert Abs() == Step(s, Await(Position(other)));
    }

    /** One iteration of `co_run` up to the switch: pop the head and mark it RUNNING. */
    method ResumeNext() returns (co: Coroutine?)
      requires Valid() && running == null
      modifies Repr()
      ensures Valid() && Repr() == old(Repr()) && co == running
      ensures co == null <==> old(Abs()).queue == []
      ensures co != null ==> Position(co) == old(Abs()).queue[0]
      ensures Abs() == if co == null then old(Abs()) else Step(old(Abs()), Scheduler.Resume)
    {
      hide Scheduler.Valid, Statuses, Queued, AwaitsRegistered;
      ghost var s := Abs();
      if s.queue != [] {
        HeadIsReady(s);
        StepFits(s, Scheduler.Resume);
      }
      co := QPop();
      if co != null {
        StatusOf(co);
        assert co.state == CO_READY;
        SetState(co, CO_RUNNING, co.awaiting);
        running := co;
        assert Abs() == Step(s, Scheduler.Resume);
      }
    }

    /** `co_create`: the assertion that the registry has room is the caller's. */
    method CoCreate() returns (co: Coroutine)
      requires Valid() && count < MAX_COROUTINES
      modifies Repr()
      ensures Valid() && Abs() == Step(old(Abs()), Create)
      ensures fresh(co) && Registered(co) && co.id == old(count) + 1 && Repr() == old(Repr()) + {co}
    {
      hide Scheduler.Valid, Statuses, Queued, AwaitsRegistered;
      ghost var s := Abs();
      StepFits(s, Create);
      co := new Coroutine(count + 1);
      Register(co);
      QPush(co);
      assert Abs() == Step(s, Create);
    }

    method Register(co: Coroutine)
      requires Shape() && AwaitsRegistered() && count < MAX_COROUTINES
      requires co.id == count + 1 && co.state == CO_READY
      modifies this`count, all
      ensures Shape() && AwaitsRegistered() && Registered(co) && count == old(count) + 1
      ensures Statuses() == old(Statuses()) + [Ready] && Queued() == old(Queued())
      ensures running != null && old(Registered(running)) ==> Registered(running)
      ensures Repr() == old(Repr()) + {co}
    {
      all[count] := co;
      count := count + 1;
    }

    /** The body of the `wakeup_waiters` loop. */
    method WakeOne(i: nat, done: Coroutine)
      requires Shape() && AwaitsRegistered() && Registered(done) && i < count && |Queued()| <= QUEUE_CAP
      requires Statuses()[i] == Waiting(Position(done)) ==> |Queued()| < QUEUE_CAP
      modifies queue, queue.buf, all[..]
      ensures Shape() && AwaitsRegistered()
      ensures var woken := old(Statuses())[i] == Waiting(Position(done));
              && Statuses() == (if woken then old(Statuses())[i := Ready] else old(Statuses()))
              && Queued() == old(Queued()) + (if woken then [i] else [])
    {
      var c := all[i];
      assert Statuses()[i] == c.Status();
      assert c.state == CO_WAITING ==> Registered(c.awaiting);
      hide Statuses, Queued, AwaitsRegistered;
      if c.state == CO_WAITING && c.awaiting == done {
        SetState(c, CO_READY, null);
        QPush(c);
      }
    }

    /** `wakeup_waiters`: everything that waits for `done` is READY and queued, in registry order. */
    method WakeupWaiters(done: Coroutine)
      requires Shape() && AwaitsRegistered() && Registered(done)
      requires |Queued()| + |Waiters(Statuses(), Position(done))| <= QUEUE_CAP
      modifies queue, queue.buf, all[..]
      ensures Shape() && AwaitsRegistered()
      ensures Statuses() == Wake(old(Statuses()), Position(done))
      ensures Queued() == old(Queued()) + Waiters(old(Statuses()), Position(done))
    {
      hide Statuses, Queued, AwaitsRegistered, Registered, Positions, WakeFirst;
      ghost var cos, co, d, q := all[..], Statuses(), Position(done), Queued();
      ghost var f := (j: nat) => Awaits(co, d, j);
      assert q + Select(0, f) == q;
      var i := 0;
      while i < count
        invariant 0 <= i <= count && count == |co| && all[..] == cos && Registered(done)
        invariant Shape() && AwaitsRegistered()
        invariant Statuses() == WakeFirst(co, d, i)
        invariant Queued() == q + Select(i, f)
      {
        SelectGrows(i + 1, count, f);
        WakeFirstNext(co, d, i);
        WakeOne(i, done);
        i := i + 1;
      }
    }

    /** The end of `co_entry`: the running coroutine's function has returned. */
    method Finish()
      requires Valid() && running != null
      modifies Repr()
      ensures Valid() && Abs() == Step(old(Abs()), Scheduler.Finish) && Repr() == old(Repr()) && running == null
    {
      hide Scheduler.Valid, Statuses, Queued, AwaitsRegistered, Waiters, Wake;
      ghost var s := Abs();
      StepFits(s, Scheduler.Finish);
      ghost var s' := Step(s, Scheduler.Finish);
      SetState(running, CO_DONE, running.awaiting);
      WakeupWaiters(running);
      running := null;
      assert Abs() == s';
    }
  }

  /** What does not touch the scheduler's objects leaves the scheduler as it is. */
  twostate lemma Untouched(sys: System)
    requires old(sys.Valid()) && unchanged(old(sys.Repr()))
    ensures sys.Valid() && sys.Abs() == old(sys.Abs()) && sys.Repr() == old(sys.Repr())
  {
    assert forall i :: 0 <= i < sys.all.Length && sys.all[i] != null ==> sys.all[i] in old(sys.Repr());
  }

  // ---------------------------------------------------------------------------------------------
  // Whole runs

  /** `main`: create `n` coroutines. */
  method CreateMany(n: nat) returns (sys: System)
    requires n <= MAX_COROUTINES
    ensures fresh(sys) && fresh(sys.Repr()) && sys.Valid() && sys.Abs() == Created(n) && sys.running == null
  {
    hide System.Valid, System.Abs, Scheduler.Valid;
    sys := new System();
    for i := 0 to n
      invariant sys.Valid() && sys.Abs() == Created(i) && fresh(sys.Repr())
    {
      var co := sys.CoCreate();
      assert Step(Created(i), Create) == Created(i + 1);
    }
  }

  /** One call by the running coroutine, as its body says. */
  method Call(sys: System, body: seq<Body>, pc: seq<nat>) returns (body': seq<Body>, pc': seq<nat>)
    requires sys.Valid() && Consistent(Prog(sys.Abs(), body, pc))
    requires sys.running != null && Next(Prog(sys.Abs(), body, pc)).Go?
    modifies sys.Repr()
    ensures sys.Valid() && fresh(sys.Repr() - old(sys.Repr()))
    ensures Prog(sys.Abs(), body', pc') == Advance(Prog(old(sys.Abs()), body, pc))
  {
    hide System.Valid, System.Abs, System.Repr, System.Shape, System.AwaitsRegistered;
    hide Step, Scheduler.Valid, Consistent;
    WillAbortIsAbort(Prog(sys.Abs(), body, pc));
    var r := Position(sys.running);
    body' := body;
    if pc[r] == |body[r]| {
      sys.Finish();
      pc' := pc;
    } else {
      pc' := pc[r := pc[r] + 1];
      match body[r][pc[r]]
      case YieldOp =>
        sys.CoYield();
      case AwaitOp(t) =>
        var other := sys.Lookup(t);
        sys.CoAwait(other);
      case CreateOp(b) =>
        var co := sys.CoCreate();
        body', pc' := AfterCreate(body, pc[r], r), pc' + [0];
    }
  }

  /** The running coroutine's next call fails an assertion: `co_await` of a coroutine that does not exist or through
      a pointer that is still NULL, or `co_create` with a full registry. */
  predicate WillAbort(r: nat, count: nat, body: seq<Body>, pc: seq<nat>) {
    && r < |body| == |pc| && pc[r] < |body[r]|
    && match body[r][pc[r]]
       case YieldOp => false
       case AwaitOp(t) => t >= count
       case CreateOp(_) => count >= MAX_COROUTINES
       case AwaitChild(_) => true
  }

  lemma WillAbortIsAbort(p: Prog)
    requires Consistent(p) && p.s.running.Some?
    ensures WillAbort(p.s.running.value, |p.s.co|, p.body, p.pc) <==> Next(p).Abort?
    ensures !Next(p).Halt? && (Next(p).Go? ==> !Next(p).act.Resume?)
    ensures |p.body| == |p.pc| == |p.s.co| && p.s.running.value < |p.pc|
    ensures p.pc[p.s.running.value] <= |p.body[p.s.running.value]|
  {
  }

  /** A turn: the running coroutine makes calls until it is switched out or an assertion fails. */
  method RunTurn(sys: System, body: seq<Body>, pc: seq<nat>) returns (body': seq<Body>, pc': seq<nat>)
    requires sys.Valid() && Consistent(Prog(sys.Abs(), body, pc))
    modifies sys.Repr()
    ensures sys.Valid() && fresh(sys.Repr() - old(sys.Repr()))
    ensures var p := Prog(old(sys.Abs()), body, pc); var p' := Prog(sys.Abs(), body', pc');
            && Consistent(p') && Final(p') == Final(p) && ResumeOrder(p') == ResumeOrder(p)
            && Work(p') <= Work(p)
            && (sys.running == null || Next(p').Abort?)
  {
    hide System.Valid, System.Abs, Scheduler.Valid, Consistent, Step, Work, ResumeOrder;
    body', pc' := body, pc;
    ghost var p := Prog(sys.Abs(), body, pc);
    ghost var now := p;
    while sys.running != null && !WillAbort(Position(sys.running), sys.count, body', pc')
      invariant sys.Valid() && fresh(sys.Repr() - old(sys.Repr()))
      invariant now == Prog(sys.Abs(), body', pc') && Consistent(now)
      invariant Final(now) == Final(p) && ResumeOrder(now) == ResumeOrder(p) && Work(now) <= Work(p)
      decreases Work(now)
    {
      WillAbortIsAbort(now);
      AdvanceDecreasesWork(now);
      ResumesStep(now);
      body', pc' := Call(sys, body', pc');
      now := Prog(sys.Abs(), body', pc');
    }
    if sys.running != null { WillAbortIsAbort(now); }
  }

  /** `co_run`: the final state and the resume order are those of the program. */
  method CoRun(sys: System, body: seq<Body>, pc: seq<nat>)
    returns (body': seq<Body>, pc': seq<nat>, log: seq<nat>, aborted: bool)
    requires sys.Valid() && sys.running == null && Consistent(Prog(sys.Abs(), body, pc))
    modifies sys.Repr()
    ensures sys.Valid() && fresh(sys.Repr() - old(sys.Repr()))
    ensures var p := Prog(old(sys.Abs()), body, pc);
            && Prog(sys.Abs(), body', pc') == Final(p)
            && log == ResumeOrder(p)
            && aborted == Next(Final(p)).Abort?
  {
    hide System.Valid, System.Abs, Scheduler.Valid, Consistent, Step, Work, ResumeOrder;
    body', pc', log, aborted := body, pc, [], false;
    ghost var p := Prog(sys.Abs(), body, pc);
    ghost var now := p;
    while true
      invariant sys.Valid() && sys.running == null && fresh(sys.Repr() - old(sys.Repr())) && !aborted
      invariant now == Prog(sys.Abs(), body', pc') && Consistent(now)
      invariant Final(now) == Final(p) && log + ResumeOrder(now) == ResumeOrder(p)
      decreases Work(now)
    {
      ghost var before := now;
      if Next(now).Go? { AdvanceDecreasesWork(now); ResumesStep(now); }
      var co := sys.ResumeNext();
      if co == null {
        NothingToResume(now);
        return;
      }
      assert log + ([Position(co)] + ResumeOrder(Advance(before)))
             == log + [Position(co)] + ResumeOrder(Advance(before));
      log := log + [Position(co)];
      now := Prog(sys.Abs(), body', pc');
      assert now == Advance(before);
      body', pc' := RunTurn(sys, body', pc');
      now := Prog(sys.Abs(), body', pc');
      if sys.running != null {
        NothingToResume(now);
        aborted := true;
        return;
      }
    }
  }

  /** `main`: create a coroutine for each body and call `co_run`, on the records and the circular run-queue.
      Everything that is proved of the program's final state and resume order holds of what is in memory. */
  method RunProgram(bodies: seq<Body>) returns (sys: System, body: seq<Body>, log: seq<nat>, aborted: bool)
    requires |bodies| <= MAX_COROUTINES
    ensures sys.Valid() && sys.Abs() == Final(Start(bodies)).s && body == Final(Start(bodies)).body
    ensures log == ResumeOrder(Start(bodies)) && aborted == Next(Final(Start(bodies))).Abort?
    ensures !aborted ==> forall c: nat :: c < |sys.Abs().co| ==>
                                            (sys.Abs().co[c].Done? <==> !ReachesCycle(AwaitGraph(body), c))
    ensures |body| == |sys.Abs().co|
    ensures forall c: nat :: c < |body| && sys.Abs().co[c].Done? ==>
                               Count(log, Is(c)) == 1 + Count(body[c], IsYield()) + Blocks(Start(bodies), c)
  {
    hide System.Valid, System.Abs, Scheduler.Valid, Consistent, ResumeOrder, ReachesCycle, Count, Blocks, Final;
    sys := CreateMany(|bodies|);
    var pc: seq<nat> := seq(|bodies|, _ => 0);
    assert Prog(sys.Abs(), bodies, pc) == Start(bodies);
    body, pc, log, aborted := CoRun(sys, bodies, pc);
    FinalSizes(bodies);
    forall c: nat | c < |body| && sys.Abs().co[c].Done?
      ensures Count(log, Is(c)) == 1 + Count(body[c], IsYield()) + Blocks(Start(bodies), c)
    {
      DoneResumes(bodies, c);
    }
    if !aborted {
      forall c: nat | c < |sys.Abs().co|
        ensures sys.Abs().co[c].Done? <==> !ReachesCycle(AwaitGraph(body), c)
      {
        DeadlockExactly(bodies, c);
      }
    }
  }

  lemma FinalSizes(bodies: seq<Body>)
    requires |bodies| <= MAX_COROUTINES
    ensures |Final(Start(bodies)).body| == |Final(Start(bodies)).s.co|
  {
    hide Start;
  }

  lemma NothingToResume(p: Prog)
    requires Consistent(p) && !Next(p).Go?
    ensures ResumeOrder(p) == []
  {
    assert Trace(p) == [];
  }
}
