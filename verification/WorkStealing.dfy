/**
 examples/work_stealing.c: a dispatcher pushes tasks 1 .. total into a bounded global queue; workers steal up to
 `lcap` tasks at a time into a local stack and run them. Totals, capacities and the number of workers are free.
 */
module WorkStealing {
  import opened Sequences
  import opened Scheduler
  import opened Rings
  import opened Deadlock
  import opened Runtime
  import opened Clients

  datatype Limits = Limits(total: nat, gcap: nat, lcap: nat, workers: nat)

  /** `local` is the local stack, top last; `ran` the ids run so far, `blocks` the groups stolen so far. */
  datatype Worker = Worker(local: seq<nat>, ran: seq<nat>, blocks: seq<seq<nat>>, stolen: nat, processed: nat,
                           gone: bool)

  /** `pushed` tasks have been pushed; coroutine 0 is the dispatcher, coroutine `i + 1` is worker `i`. */
  datatype Mem = Mem(pushed: nat, dispatched: bool, queue: seq<nat>, completed: nat, ws: seq<Worker>)

  const NewWorker := Worker([], [], [], 0, 0, false)

  function Initial(m: Limits): Mem { Mem(0, false, [], 0, seq(m.workers, _ => NewWorker)) }

  function Dispatch(m: Limits, w: Mem): (Mem, Signal) {
    if w.pushed >= m.total then (w.(dispatched := true), Returned)
    else if |w.queue| == m.gcap then (w, Yielded)
    else (w.(queue := w.queue + [w.pushed + 1], pushed := w.pushed + 1), Yielded)
  }

  function Min(a: nat, b: nat): nat { if a < b then a else b }

  /** One turn of a worker: what becomes of the global queue, `tasks_completed` and the worker. */
  function Work(m: Limits, queue: seq<nat>, completed: nat, x: Worker): (seq<nat>, nat, Worker, Signal) {
    if x.local != [] then
      var top := |x.local| - 1;
      (queue, completed + 1,
       x.(local := x.local[..top], ran := x.ran + [x.local[top]], processed := x.processed + 1), Yielded)
    else
      var k := Min(m.lcap, |queue|);
      if k == 0 then
        if completed >= m.total then (queue, completed, x.(gone := true), Returned)
        else (queue, completed, x, Yielded)
      else
        (queue[k..], completed,
         x.(local := queue[..k], blocks := x.blocks + [queue[..k]], stolen := x.stolen + k), Yielded)
  }

  function Turn(m: Limits, w: Mem, p: nat): (Mem, Signal)
    requires p <= |w.ws|
  {
    if p == 0 then Dispatch(m, w)
    else
      var (queue, completed, x, sig) := Work(m, w.queue, w.completed, w.ws[p - 1]);
      (w.(queue := queue, completed := completed, ws := w.ws[p - 1 := x]), sig)
  }

  // ---------------------------------------------------------------------------------------------
  // Conservation of tasks

  /** How often a worker holds or has run task `t`. */
  function Has(t: nat): Worker -> nat { (x: Worker) => multiset(x.local)[t] + multiset(x.ran)[t] }

  /** How often a worker has run task `t`. */
  function Ran(t: nat): Worker -> nat { (x: Worker) => multiset(x.ran)[t] }

  /** In how many places task `t` is: still to be pushed, queued, held by a worker, or run. */
  function Places(m: Limits, w: Mem, t: nat): nat {
    (if w.pushed < t <= m.total then 1 else 0) + multiset(w.queue)[t] + Sum(w.ws, Has(t))
  }

  /** The reversed blocks, one after the other. */
  function Unwound(blocks: seq<seq<nat>>): seq<nat> {
    if blocks == [] then [] else Unwound(blocks[..|blocks| - 1]) + Reversed(blocks[|blocks| - 1])
  }

  /** A non-empty run of consecutive ids that fits the local stack. */
  predicate IsBlock(m: Limits, b: seq<nat>) {
    0 < |b| <= m.lcap && forall k :: 0 <= k < |b| ==> b[k] == b[0] + k
  }

  ghost predicate WorkerOk(m: Limits, completed: nat, x: Worker) {
    && |x.local| <= m.lcap
    && x.processed == |x.ran| && x.stolen == x.processed + |x.local|
    && (forall i :: 0 <= i < |x.blocks| ==> IsBlock(m, x.blocks[i]))
    && x.ran + Reversed(x.local) == Unwound(x.blocks)
    && (x.gone ==> x.local == [] && completed >= m.total)
  }

  function Held(): Worker -> nat { (x: Worker) => |x.local| }

  ghost predicate Totals(m: Limits, w: Mem) {
    && w.pushed <= m.total && |w.queue| <= m.gcap && |w.queue| <= w.pushed
    && w.queue == Ids(w.pushed - |w.queue|, w.pushed)
    && w.pushed == |w.queue| + Sum(w.ws, Held()) + w.completed
    && (w.dispatched ==> w.pushed == m.total)
  }

  ghost predicate Inv(m: Limits, w: Mem) {
    && |w.ws| == m.workers
    && Totals(m, w)
    && (forall t: nat :: Places(m, w, t) == if 1 <= t <= m.total then 1 else 0)
    && forall i: nat :: i < |w.ws| ==> WorkerOk(m, w.completed, w.ws[i])
  }

  lemma DispatchKeepsInv(m: Limits, w: Mem)
    requires Inv(m, w)
    ensures Inv(m, Dispatch(m, w).0)
  {
    var w' := Dispatch(m, w).0;
    if w'.queue != w.queue {
      assert w'.queue == Ids(w'.pushed - |w'.queue|, w'.pushed);
      forall t: nat ensures Places(m, w', t) == Places(m, w, t) {
        assert multiset(w'.queue)[t] == multiset(w.queue)[t] + (if t == w'.pushed then 1 else 0);
      }
    } else {
      forall t: nat ensures Places(m, w', t) == Places(m, w, t) { }
    }
    hide WorkerOk, Places;
  }

  lemma RunKeepsOrder(x: Worker)
    requires x.local != []
    ensures var top := |x.local| - 1;
            (x.ran + [x.local[top]]) + Reversed(x.local[..top]) == x.ran + Reversed(x.local)
  {
    var top := |x.local| - 1;
    assert Reversed(x.local) == [x.local[top]] + Reversed(x.local[..top]);
  }

  lemma WorkKeepsWorker(m: Limits, w: Mem, i: nat)
    requires Inv(m, w) && i < |w.ws| && !w.ws[i].gone
    ensures var (queue, completed, x, sig) := Work(m, w.queue, w.completed, w.ws[i]);
            WorkerOk(m, completed, x)
  {
    var was := w.ws[i];
    assert WorkerOk(m, w.completed, was);
    var (queue, completed, x, sig) := Work(m, w.queue, w.completed, was);
    if was.local != [] {
      RunKeepsOrder(was);
    } else if x.local != [] {
      var b := x.local;
      assert x.blocks[..|was.blocks|] == was.blocks;
      assert Reversed<nat>([]) == [];
      assert IsBlock(m, b);
    }
  }

  /** A turn moves tasks between the queue, the stack and the finished ones. */
  lemma WorkMovesTask(m: Limits, queue: seq<nat>, completed: nat, x: Worker, t: nat)
    ensures var (queue', completed', x', sig) := Work(m, queue, completed, x);
            multiset(queue')[t] + Has(t)(x') == multiset(queue)[t] + Has(t)(x)
  {
    if x.local != [] {
      var top := |x.local| - 1;
      assert x.local == x.local[..top] + [x.local[top]];
    } else {
      var k := Min(m.lcap, |queue|);
      assert queue == queue[..k] + queue[k..];
    }
  }

  lemma WorkKeepsTotals(m: Limits, w: Mem, i: nat)
    requires Totals(m, w) && i < |w.ws|
    ensures Totals(m, Turn(m, w, i + 1).0) && Turn(m, w, i + 1).0.completed >= w.completed
  {
    var w' := Turn(m, w, i + 1).0;
    SumUpdate(w.ws, Held(), i, w'.ws[i]);
    assert w'.ws == w.ws[i := w'.ws[i]];
    assert w'.queue == Ids(w'.pushed - |w'.queue|, w'.pushed);
  }

  lemma WorkKeepsInv(m: Limits, w: Mem, i: nat)
    requires Inv(m, w) && i < |w.ws| && !w.ws[i].gone
    ensures Inv(m, Turn(m, w, i + 1).0)
  {
    var w' := Turn(m, w, i + 1).0;
    WorkKeepsTotals(m, w, i);
    WorkKeepsWorker(m, w, i);
    forall j: nat | j < |w'.ws| ensures WorkerOk(m, w'.completed, w'.ws[j]) {
      assert WorkerOk(m, w.completed, w.ws[j]);
    }
    forall t: nat ensures Places(m, w', t) == Places(m, w, t) {
      WorkMovesTask(m, w.queue, w.completed, w.ws[i], t);
      SumUpdate(w.ws, Has(t), i, w'.ws[i]);
    }
    hide WorkerOk, Work, Totals, Places;
  }

  // ---------------------------------------------------------------------------------------------
  // Runs

  predicate Finished(w: Mem, p: nat) {
    if p == 0 then w.dispatched else p <= |w.ws| && w.ws[p - 1].gone
  }

  function WorkerRank(): Worker -> nat { (x: Worker) => |x.local| + (if x.gone then 0 else 1) }

  function Rank(m: Limits, w: Mem): nat {
    3 * (if w.pushed < m.total then m.total - w.pushed else 0) + 2 * |w.queue| + Sum(w.ws, WorkerRank())
    + (if w.dispatched then 0 else 1)
  }

  ghost function TheSpec(m: Limits): Spec<Mem> {
    Spec(m.workers + 1, (w: Mem, p: nat) => Finished(w, p), (w: Mem) => Inv(m, w), (w: Mem) => Rank(m, w))
  }

  function TheTurn(m: Limits): (Mem, nat) -> (Mem, Signal) {
    (w: Mem, p: nat) => if p <= |w.ws| then Turn(m, w, p) else (w, Yielded)
  }

  lemma TurnDecreases(m: Limits, w: Mem, p: nat)
    requires p <= |w.ws| && !Finished(w, p)
    ensures Turn(m, w, p) == (w, Yielded) || Rank(m, Turn(m, w, p).0) < Rank(m, w)
  {
    var (w', sig) := Turn(m, w, p);
    if p > 0 {
      SumUpdate(w.ws, WorkerRank(), p - 1, w'.ws[p - 1]);
      assert w'.ws == w.ws[p - 1 := w'.ws[p - 1]];
      assert w.ws[p - 1 := w.ws[p - 1]] == w.ws;
    }
  }

  lemma TurnOk(m: Limits, w: Mem, p: nat)
    requires Inv(m, w) && p <= m.workers && !Finished(w, p)
    ensures StepOk(TheTurn(m), TheSpec(m), w, p)
  {
    hide Inv, Rank, Turn, Finished;
    TurnKeepsInv(m, w, p);
    TurnDecreases(m, w, p);
    TurnFinishes(m, w, p);
    var (w', sig) := Turn(m, w, p);
    assert TheTurn(m)(w, p) == (w', sig);
  }

  lemma TurnKeepsInv(m: Limits, w: Mem, p: nat)
    requires Inv(m, w) && p <= m.workers && !Finished(w, p)
    ensures |w.ws| == m.workers && Inv(m, Turn(m, w, p).0)
  {
    if p == 0 { DispatchKeepsInv(m, w); } else { WorkKeepsInv(m, w, p - 1); }
    hide Totals, Places, WorkerOk, Dispatch, Work;
  }

  lemma TurnFinishes(m: Limits, w: Mem, p: nat)
    requires p <= |w.ws| && !Finished(w, p)
    ensures var (w', sig) := Turn(m, w, p);
            forall q: nat :: q <= |w.ws| ==> (Finished(w', q) <==> Finished(w, q) || (q == p && sig.Returned?))
  {
  }

  lemma IsSafe(m: Limits)
    ensures Safe(TheTurn(m), TheSpec(m)) && Inv(m, Initial(m))
  {
    var w0 := Initial(m);
    SumZero(w0.ws, Held());
    forall t: nat ensures Places(m, w0, t) == if 1 <= t <= m.total then 1 else 0 { SumZero(w0.ws, Has(t)); }
    assert Unwound([]) == [] && Reversed<nat>([]) == [];
    forall w: Mem, p: nat | Inv(m, w) && p < m.workers + 1 && !Finished(w, p)
      ensures StepOk(TheTurn(m), TheSpec(m), w, p)
    {
      TurnOk(m, w, p);
    }
  }

  lemma NeverStuck(m: Limits, w: Mem)
    requires m.workers >= 1 && m.gcap >= 1 && m.lcap >= 1
    requires Inv(m, w) && !AllFinished(TheSpec(m), w)
    ensures SomeoneActive(TheTurn(m), TheSpec(m), w)
  {
    hide Places, Has, Unwound;
    var p: nat :| p < m.workers + 1 && !TheSpec(m).finished(w, p);
    SumZero(w.ws, Held());
    if i: nat :| i < |w.ws| && Held()(w.ws[i]) != 0 {
      assert WorkerOk(m, w.completed, w.ws[i]);
      p := i + 1;
      assert Turn(m, w, p).0.completed != w.completed;
    } else if w.queue != [] {
      assert WorkerOk(m, w.completed, w.ws[0]);
      p := 1;
      assert Turn(m, w, p).0.queue != w.queue;
    } else if !w.dispatched {
      p := 0;
    } else {
      assert Turn(m, w, p).1 == Returned;
    }
    assert !Finished(w, p) && !Spins(TheTurn(m), w, p);
  }

  lemma IsGood(m: Limits)
    requires m.workers >= 1 && m.gcap >= 1 && m.lcap >= 1
    ensures Good(TheTurn(m), TheSpec(m)) && Inv(m, Initial(m))
  {
    IsSafe(m);
    forall w: Mem | Inv(m, w) && !AllFinished(TheSpec(m), w)
      ensures SomeoneActive(TheTurn(m), TheSpec(m), w)
    {
      NeverStuck(m, w);
    }
  }

  /** Under any interleaving: every task is in exactly one place, stacks and queue stay within their capacity,
      what a worker has run and still holds is its stolen blocks of consecutive ids, each reversed, and
      nobody exits before all tasks are complete. */
  lemma AnyInterleaving(m: Limits, order: seq<nat>, i: nat)
    requires i < m.workers
    ensures var w := Interleave(TheTurn(m), TheSpec(m), Initial(m), order);
            && |w.ws| == m.workers && |w.queue| <= m.gcap
            && (forall t: nat :: Places(m, w, t) == if 1 <= t <= m.total then 1 else 0)
            && var x := w.ws[i];
               && |x.local| <= m.lcap
               && x.ran + Reversed(x.local) == Unwound(x.blocks)
               && (forall b :: b in x.blocks ==> IsBlock(m, b))
               && x.stolen == x.processed + |x.local| && x.processed == |x.ran|
               && (x.gone ==> w.completed == m.total && x.local == [])
  {
    IsSafe(m);
    InterleavingKeepsInv(TheTurn(m), TheSpec(m), Initial(m), order);
    var w := Interleave(TheTurn(m), TheSpec(m), Initial(m), order);
    assert TheSpec(m).inv(w) == Inv(m, w);
    assert WorkerOk(m, w.completed, w.ws[i]);
  }

  // ---------------------------------------------------------------------------------------------
  // The pool in memory

  class WorkerState {
    const local: array<nat>
    var localSize: nat
    var stolen: nat
    var processed: nat
    var gone: bool
    ghost var ran: seq<nat>
    ghost var blocks: seq<seq<nat>>

    constructor (lcap: nat)
      ensures localSize == 0 && local.Length == lcap && fresh(local) && Now() == NewWorker
    {
      local := new nat[lcap];
      localSize, stolen, processed, gone, ran, blocks := 0, 0, 0, false, [], [];
    }

    ghost function Now(): Worker
      reads this, local
      requires localSize <= local.Length
    {
      Worker(local[..localSize], ran, blocks, stolen, processed, gone)
    }
  }

  /** The workers and their stacks are different objects. */
  predicate Separate(ws: seq<WorkerState>) {
    forall i, j :: 0 <= i < j < |ws| ==> ws[i] != ws[j] && ws[i].local != ws[j].local
  }

  /** The workers of `main`, zeroed. */
  method NewWorkers(n: nat, lcap: nat) returns (ws: seq<WorkerState>)
    ensures |ws| == n && Separate(ws)
    ensures forall k :: 0 <= k < n ==> fresh(ws[k]) && fresh(ws[k].local)
    ensures forall k :: 0 <= k < n ==> ws[k].localSize == 0 && ws[k].local.Length == lcap && ws[k].Now() == NewWorker
  {
    ws := [];
    for i := 0 to n
      invariant |ws| == i && Separate(ws)
      invariant forall k :: 0 <= k < i ==> fresh(ws[k]) && fresh(ws[k].local)
      invariant forall k :: 0 <= k < i ==>
                              ws[k].localSize == 0 && ws[k].local.Length == lcap && ws[k].Now() == NewWorker
    {
      var x := new WorkerState(lcap);
      ws := ws + [x];
    }
  }

  class Pool {
    const m: Limits
    const queue: Ring<nat>
    const workers: seq<WorkerState>
    var pushed: nat
    var dispatched: bool
    var completed: nat

    /** `main` up to `co_run`. */
    constructor (m: Limits)
      requires m.gcap >= 1
      ensures this.m == m && Formed() && Now() == Initial(m) && fresh(Repr())
    {
      var ws := NewWorkers(m.workers, m.lcap);
      this.m := m;
      workers := ws;
      queue := new Ring<nat>(m.gcap);
      pushed, dispatched, completed := 0, false, 0;
      new;
      assert Now().ws == Initial(m).ws;
    }

    /** The workers in memory, one by one. */
    ghost function WorkersNow(): (r: seq<Worker>)
      reads workers, Locals()
      requires forall i :: 0 <= i < |workers| ==> workers[i].localSize <= workers[i].local.Length
      ensures |r| == |workers| && forall i :: 0 <= i < |workers| ==> r[i] == workers[i].Now()
    {
      seq(|workers|, i requires 0 <= i < |workers| && workers[i].localSize <= workers[i].local.Length
          reads workers, Locals() => workers[i].Now())
    }

    ghost function Locals(): set<object> { set i | 0 <= i < |workers| :: workers[i].local }

    ghost function Repr(): set<object> { {this, queue, queue.buf} + (set x | x in workers) + Locals() }

    ghost predicate Formed()
      reads Repr()
      ensures Formed() ==> |workers| == m.workers
    {
      && queue.Valid() && queue.cap == m.gcap && |workers| == m.workers && Separate(workers)
      && forall i :: 0 <= i < |workers| ==> Valid(workers[i])
    }

    ghost function Now(): (w: Mem)
      reads Repr()
      requires Formed()
      ensures |w.ws| == m.workers
    {
      Mem(pushed, dispatched, queue.Contents(), completed, WorkersNow())
    }

    ghost predicate Valid(x: WorkerState)
      reads this, queue, x
    {
      queue.Valid() && x.localSize <= x.local.Length == m.lcap && x.local != queue.buf
    }

    /** `dispatcher_fn` from one `co_yield` to the next. */
    method DispatcherTurn(ghost ws: seq<Worker>) returns (sig: Signal)
      requires queue.Valid() && queue.cap == m.gcap
      modifies this, queue, queue.buf
      ensures queue.Valid()
      ensures (Mem(pushed, dispatched, queue.Contents(), completed, ws), sig)
              == Dispatch(m, old(Mem(pushed, dispatched, queue.Contents(), completed, ws)))
    {
      if pushed >= m.total {
        dispatched := true;
        return Returned;
      }
      var ok := queue.TryPush(pushed + 1);
      if ok { pushed := pushed + 1; }
      return Yielded;
    }

    /** The steal loop of `worker_fn`: pop up to `lcap` tasks. */
    method Steal() returns (got: array<nat>, n: nat)
      requires queue.Valid()
      modifies queue
      ensures queue.Valid() && fresh(got) && got.Length == m.lcap
      ensures n == Min(m.lcap, |old(queue.Contents())|)
      ensures queue.Contents() == old(queue.Contents())[n..] && got[..n] == old(queue.Contents())[..n]
    {
      ghost var q := queue.Contents();
      got, n := new nat[m.lcap], 0;
      while n < m.lcap
        invariant queue.Valid() && n <= m.lcap && n <= |q|
        invariant queue.Contents() == q[n..] && got[..n] == q[..n]
      {
        var ok, t := queue.TryPop(0);
        if !ok { break; }
        got[n] := t;
        n := n + 1;
      }
    }

    /** The copy loop of `worker_fn`, into an empty local stack. */
    method Load(x: WorkerState, got: array<nat>, n: nat)
      requires Valid(x) && x.localSize == 0 && n <= got.Length == m.lcap && got != x.local
      modifies x`localSize, x.local
      ensures x.localSize == n && x.local[..n] == got[..n]
    {
      for i := 0 to n
        invariant x.localSize == i && x.local[..i] == got[..i]
      {
        x.local[x.localSize] := got[i];
        x.localSize := x.localSize + 1;
      }
    }

    /** `worker_fn` from one `co_yield` to the next. */
    method WorkerTurn(x: WorkerState) returns (sig: Signal)
      requires Valid(x)
      modifies this`completed, queue, x, x.local
      ensures Valid(x)
      ensures (queue.Contents(), completed, x.Now(), sig)
              == Work(m, old(queue.Contents()), old(completed), old(x.Now()))
    {
      if x.localSize > 0 {
        ghost var stack := x.local[..x.localSize];
        x.localSize := x.localSize - 1;
        assert x.local[..x.localSize] == stack[..|stack| - 1];
        x.ran := x.ran + [x.local[x.localSize]];
        x.processed := x.processed + 1;
        completed := completed + 1;
        return Yielded;
      }
      var got, n := Steal();
      if n == 0 {
        if completed >= m.total {
          x.gone := true;
          return Returned;
        }
        return Yielded;
      }
      Load(x, got, n);
      x.blocks := x.blocks + [x.local[..n]];
      x.stolen := x.stolen + n;
      return Yielded;
    }

    /** A worker's turn leaves the others as they are. */
    twostate lemma OthersKept(i: nat)
      requires old(Formed()) && i < |workers| && workers[i].localSize <= workers[i].local.Length
      requires forall j :: 0 <= j < |workers| && j != i ==> unchanged(workers[j]) && unchanged(workers[j].local)
      ensures forall j :: 0 <= j < |workers| ==> workers[j].localSize <= workers[j].local.Length
      ensures WorkersNow() == old(WorkersNow())[i := workers[i].Now()]
    {
      forall j | 0 <= j < |workers| && j != i
        ensures workers[j].localSize <= workers[j].local.Length && workers[j].Now() == old(workers[j].Now())
      {
        assert old(Valid(workers[j]));
      }
    }

    /** One step of coroutine `p`. */
    method Step(p: nat) returns (sig: Signal)
      requires Formed() && p <= |workers|
      modifies Repr()
      ensures Formed() && (Now(), sig) == Turn(m, old(Now()), p)
    {
      ghost var ws := WorkersNow();
      hide Dispatch, Work;
      if p == 0 {
        sig := DispatcherTurn(ws);
        assert WorkersNow() == ws;
      } else {
        sig := WorkerTurn(workers[p - 1]);
        OthersKept(p - 1);
      }
    }
  }

  /** The run that `co_run` makes of dispatcher and workers. */
  ghost function TheRun(m: Limits): Course<Mem>
    requires m.workers >= 1 && m.gcap >= 1 && m.lcap >= 1
  {
    IsGood(m);
    CourseFrom(TheTurn(m), TheSpec(m), Initial(m))
  }

  lemma IsDriven(m: Limits)
    requires 1 <= m.workers < MAX_COROUTINES && m.gcap >= 1 && m.lcap >= 1
    ensures var c := TheRun(m);
            && OnTrack(c, [], Initial(m), Created(m.workers + 1)) && c.spec == TheSpec(m) && c.spec.n == m.workers + 1
            && forall w: Mem, p: nat :: p <= |w.ws| ==> c.step(w, p) == Turn(m, w, p)
  {
    hide OnTrack, Good, FifoRun, Fifo, Lined;
    IsGood(m);
    StartOnTrack(TheTurn(m), TheSpec(m), Initial(m));
  }

  /** One step of the coroutine that runs, and the scheduler call that ends it. */
  method TakeStep(pool: Pool, sys: System, ghost c: Course<Mem>, ghost log: seq<nat>)
    requires pool.Formed() && sys.Valid() && sys.running != null && sys.Repr() !! pool.Repr()
    requires Position(sys.running) <= |pool.workers|
    requires c.step(pool.Now(), Position(sys.running)) == Turn(pool.m, pool.Now(), Position(sys.running))
    requires OnTrack(c, log, pool.Now(), sys.Abs())
    modifies pool.Repr(), sys.Repr()
    ensures pool.Formed() && sys.Valid() && sys.Repr() == old(sys.Repr())
    ensures OnTrack(c, log + [old(Position(sys.running))], pool.Now(), sys.Abs())
    ensures Nearer(c.step, c.spec, old(pool.Now()), Line(old(sys.Abs())), pool.Now(), Line(sys.Abs()))
  {
    hide System.Valid, System.Abs, OnTrack, Nearer, Turn, Pool.Now, Pool.Formed;
    ghost var w := pool.Now();
    var sig := pool.Step(Position(sys.running));
    Untouched(sys);
    EndStep(sys, sig, c, log, w);
  }

  /** One iteration of the run: the next coroutine in line takes a step, unless all have returned. */
  method RunNext(pool: Pool, sys: System, ghost c: Course<Mem>, ghost log: seq<nat>) returns (p: nat, more: bool)
    requires pool.Formed() && sys.Valid() && sys.Repr() !! pool.Repr()
    requires c.spec.n == pool.m.workers + 1
    requires forall w: Mem, p: nat :: p <= |w.ws| ==> c.step(w, p) == Turn(pool.m, w, p)
    requires OnTrack(c, log, pool.Now(), sys.Abs())
    modifies pool.Repr(), sys.Repr()
    ensures pool.Formed() && sys.Valid() && sys.Repr() == old(sys.Repr())
    ensures if more then
              && OnTrack(c, log + [p], pool.Now(), sys.Abs())
              && Nearer(c.step, c.spec, old(pool.Now()), Line(old(sys.Abs())), pool.Now(), Line(sys.Abs()))
            else OnTrack(c, log, pool.Now(), sys.Abs()) && c.end == (pool.Now(), log)
  {
    hide System.Valid, System.Abs, System.Repr, OnTrack, Line, Spinning, Pool.Now, Pool.Formed, Turn;
    p, more := NextUp(sys, c, log, pool.Now());
    if more { TakeStep(pool, sys, c, log); }
  }

  /** `co_run` over the queue and the workers in memory. */
  method Drive(pool: Pool) returns (log: seq<nat>)
    requires pool.Formed() && pool.Now() == Initial(pool.m)
    requires 1 <= pool.m.workers < MAX_COROUTINES && pool.m.gcap >= 1 && pool.m.lcap >= 1
    modifies pool.Repr()
    ensures pool.Formed() && TheRun(pool.m).end == (pool.Now(), log)
  {
    hide System.Valid, System.Abs, System.Repr, OnTrack, Line, Spinning, TheRun, TheSpec, Initial, Turn;
    hide Pool.Now, Pool.Formed;
    ghost var c := TheRun(pool.m);
    IsDriven(pool.m);
    log := [];
    var sys := CreateMany(pool.m.workers + 1);
    var more := true;
    while more
      invariant pool.Formed() && sys.Valid() && fresh(sys.Repr()) && sys.Repr() !! pool.Repr()
      invariant OnTrack(c, log, pool.Now(), sys.Abs())
      invariant !more ==> c.end == (pool.Now(), log)
      decreases more, c.spec.rank(pool.Now()), Spinning(c.step, pool.Now(), Line(sys.Abs()))
    {
      var p;
      p, more := RunNext(pool, sys, c, log);
      if more { log := log + [p]; }
    }
  }

  /** When everybody has returned, every task has been run, once, by one worker. */
  lemma AllRan(m: Limits, w: Mem)
    requires m.workers >= 1 && TheSpec(m).inv(w) && AllFinished(TheSpec(m), w)
    ensures w.completed == m.total && w.pushed == m.total && w.queue == [] && |w.ws| == m.workers
    ensures forall i :: 0 <= i < |w.ws| ==> var x := w.ws[i]; x.local == [] && x.processed == x.stolen == |x.ran|
    ensures forall t: nat :: Sum(w.ws, Ran(t)) == if 1 <= t <= m.total then 1 else 0
  {
    assert TheSpec(m).inv(w) == Inv(m, w);
    forall i: nat | i < m.workers
      ensures var x := w.ws[i]; x.gone && x.local == [] && x.processed == x.stolen == |x.ran|
    {
      assert TheSpec(m).finished(w, i + 1);
      assert WorkerOk(m, w.completed, w.ws[i]);
    }
    SumZero(w.ws, Held());
    assert WorkerOk(m, w.completed, w.ws[0]) && TheSpec(m).finished(w, 0);
    forall t: nat ensures Sum(w.ws, Ran(t)) == if 1 <= t <= m.total then 1 else 0 {
      SumCongruent(w.ws, Has(t), Ran(t));
      assert Places(m, w, t) == if 1 <= t <= m.total then 1 else 0;
    }
  }

  // ---------------------------------------------------------------------------------------------
  // The schedule: the first two workers take turns

  /** Every step ends in `co_yield` or a return, also the one that steals. */
  lemma GivesUpTheCpu(m: Limits)
    ensures NeverKeeps(TheTurn(m), TheSpec(m))
  {
  }

  /** The dispatcher waits exactly while it has tasks to push and the queue is full; a worker waits exactly while it
      holds no task, none is queued (or it has no room for any), and not all are complete. */
  lemma WaitsExactly(m: Limits, w: Mem, p: nat)
    requires p <= |w.ws| && !Finished(w, p)
    ensures Spins(TheTurn(m), w, p)
            <==> if p == 0 then w.pushed < m.total && |w.queue| == m.gcap
                 else w.ws[p - 1].local == [] && (w.queue == [] || m.lcap == 0) && w.completed < m.total
  {
    if p > 0 { assert w.ws[p - 1 := w.ws[p - 1]] == w.ws; }
    var w' := Turn(m, w, p).0;
    assert p > 0 && w.ws[p - 1].local != [] ==> w'.completed != w.completed;
    assert p > 0 && w.ws[p - 1].local == [] && w.queue != [] && m.lcap > 0 ==> |w'.queue| < |w.queue|;
  }

  /** The first `c` ids of worker `i`: every second id, from `i + 1` on. */
  function Alternate(i: nat, c: nat): (r: seq<nat>)
    ensures |r| == c && forall j :: 0 <= j < c ==> r[j] == 2 * j + 1 + i
  {
    seq(c, j requires 0 <= j < c => 2 * j + 1 + i)
  }

  function Singles(i: nat, c: nat): (r: seq<seq<nat>>)
    ensures |r| == c && forall j :: 0 <= j < c ==> r[j] == [2 * j + 1 + i]
  {
    seq(c, j requires 0 <= j < c => [2 * j + 1 + i])
  }

  /** A worker that has taken `taken` of its ids, one at a time, and run `ran` of them. */
  function Taker(i: nat, taken: nat, ran: nat): Worker {
    Worker(if taken > ran then [2 * ran + 1 + i] else [], Alternate(i, ran), Singles(i, taken), taken, ran, false)
  }

  /** Workers 0 and 1 have taken and run some of their ids, the others nothing. */
  function Pair(m: Limits, pushed: nat, queue: seq<nat>, t0: nat, r0: nat, t1: nat, r1: nat): Mem
    requires m.workers >= 2
  {
    Mem(pushed, false, queue, r0 + r1, [Taker(0, t0, r0), Taker(1, t1, r1)] + seq(m.workers - 2, _ => NewWorker))
  }

  lemma DispatcherPushes(m: Limits, k: nat, t0: nat, r0: nat, t1: nat, r1: nat)
    requires m.workers >= 2 && m.gcap >= 1 && k < m.total
    ensures TheTurn(m)(Pair(m, k, [], t0, r0, t1, r1), 0) == (Pair(m, k + 1, [k + 1], t0, r0, t1, r1), Yielded)
  {
    assert [] + [k + 1] == [k + 1];
  }

  lemma TakerTakes(m: Limits, i: nat, t: nat, completed: nat)
    requires m.lcap >= 1
    ensures Work(m, [2 * t + 1 + i], completed, Taker(i, t, t)) == ([], completed, Taker(i, t + 1, t), Yielded)
  {
    var q := [2 * t + 1 + i];
    assert q[..1] == q && q[1..] == [] && Singles(i, t + 1) == Singles(i, t) + [q];
  }

  lemma TakerRuns(m: Limits, i: nat, t: nat, completed: nat, queue: seq<nat>)
    ensures Work(m, queue, completed, Taker(i, t + 1, t)) == (queue, completed + 1, Taker(i, t + 1, t + 1), Yielded)
  {
    assert [2 * t + 1 + i][..0] == [] && Alternate(i, t + 1) == Alternate(i, t) + [2 * t + 1 + i];
  }

  lemma FirstTakes(m: Limits, k: nat, t: nat, t1: nat, r1: nat)
    requires m.workers >= 2 && m.lcap >= 1
    ensures TheTurn(m)(Pair(m, k, [2 * t + 1], t, t, t1, r1), 1) == (Pair(m, k, [], t + 1, t, t1, r1), Yielded)
  {
    TakerTakes(m, 0, t, t + r1);
    hide Work, Taker;
    assert Pair(m, k, [2 * t + 1], t, t, t1, r1).ws[0 := Taker(0, t + 1, t)] == Pair(m, k, [], t + 1, t, t1, r1).ws;
  }

  lemma SecondTakes(m: Limits, k: nat, t: nat, t0: nat, r0: nat)
    requires m.workers >= 2 && m.lcap >= 1
    ensures TheTurn(m)(Pair(m, k, [2 * t + 2], t0, r0, t, t), 2) == (Pair(m, k, [], t0, r0, t + 1, t), Yielded)
  {
    TakerTakes(m, 1, t, r0 + t);
    hide Work, Taker;
    assert Pair(m, k, [2 * t + 2], t0, r0, t, t).ws[1 := Taker(1, t + 1, t)] == Pair(m, k, [], t0, r0, t + 1, t).ws;
  }

  lemma FirstRuns(m: Limits, k: nat, queue: seq<nat>, t: nat, t1: nat, r1: nat)
    requires m.workers >= 2
    ensures TheTurn(m)(Pair(m, k, queue, t + 1, t, t1, r1), 1) == (Pair(m, k, queue, t + 1, t + 1, t1, r1), Yielded)
  {
    TakerRuns(m, 0, t, t + r1, queue);
    hide Work, Taker;
    assert Pair(m, k, queue, t + 1, t, t1, r1).ws[0 := Taker(0, t + 1, t + 1)]
           == Pair(m, k, queue, t + 1, t + 1, t1, r1).ws;
  }

  lemma SecondRuns(m: Limits, k: nat, queue: seq<nat>, t: nat, t0: nat, r0: nat)
    requires m.workers >= 2
    ensures TheTurn(m)(Pair(m, k, queue, t0, r0, t + 1, t), 2) == (Pair(m, k, queue, t0, r0, t + 1, t + 1), Yielded)
  {
    TakerRuns(m, 1, t, r0 + t, queue);
    hide Work, Taker;
    assert Pair(m, k, queue, t0, r0, t + 1, t).ws[1 := Taker(1, t + 1, t + 1)]
           == Pair(m, k, queue, t0, r0, t + 1, t + 1).ws;
  }

  lemma OthersSpin(m: Limits, k: nat, t0: nat, r0: nat, t1: nat, r1: nat, p: nat)
    requires m.workers >= 2 && r0 + r1 < m.total && 2 <= p <= m.workers && (p == 2 ==> t1 == r1)
    ensures Spins(TheTurn(m), Pair(m, k, [], t0, r0, t1, r1), p)
  {
    WaitsExactly(m, Pair(m, k, [], t0, r0, t1, r1), p);
  }

  /** After `k` rounds: id `k` has just been taken, all smaller ones have been run. */
  function AfterRounds(m: Limits, k: nat): Mem
    requires m.workers >= 2
  {
    Pair(m, k, [], (k + 1) / 2, k / 2, k / 2, if k == 0 then 0 else (k - 1) / 2)
  }

  /** The steps of dispatcher, worker 0 and worker 1 in round `k + 1`. */
  lemma RoundSteps(m: Limits, k: nat) returns (w1: Mem, w2: Mem)
    requires m.workers >= 2 && m.gcap >= 1 && m.lcap >= 1 && k < m.total
    ensures TheTurn(m)(AfterRounds(m, k), 0) == (w1, Yielded) && TheTurn(m)(w1, 1) == (w2, Yielded)
    ensures TheTurn(m)(w2, 2) == (AfterRounds(m, k + 1), Yielded)
  {
    hide TheTurn, Pair;
    var h, r1 := k / 2, if k == 0 then 0 else (k - 1) / 2;
    w1 := Pair(m, k + 1, [k + 1], (k + 1) / 2, h, h, r1);
    DispatcherPushes(m, k, (k + 1) / 2, h, h, r1);
    if k % 2 == 0 {
      w2 := Pair(m, k + 1, [], h + 1, h, h, r1);
      FirstTakes(m, k + 1, h, h, r1);
      if k == 0 { OthersSpin(m, 1, 1, 0, 0, 0, 2); } else { SecondRuns(m, k + 1, [], h - 1, h + 1, h); }
    } else {
      w2 := Pair(m, k + 1, [k + 1], h + 1, h + 1, h, h);
      FirstRuns(m, k + 1, [k + 1], h, h, h);
      SecondTakes(m, k + 1, h, h + 1, h + 1);
    }
  }

  /** The coroutines from worker 2 on. */
  function Idlers(m: Limits): (r: seq<nat>)
    requires m.workers >= 2
    ensures |r| == m.workers - 2 && forall j :: 0 <= j < |r| ==> r[j] == j + 3
  {
    seq(m.workers - 2, j requires 0 <= j < m.workers - 2 => j + 3)
  }

  lemma EverybodyIs(m: Limits)
    requires m.workers >= 2
    ensures Everyone(m.workers + 1) == [0, 1, 2] + Idlers(m)
  {
  }

  lemma IdlersSpin(m: Limits, k: nat)
    requires m.workers >= 2 && 0 < k <= m.total
    ensures forall p :: p in Idlers(m) ==> Spins(TheTurn(m), AfterRounds(m, k), p)
  {
    forall p | p in Idlers(m) ensures Spins(TheTurn(m), AfterRounds(m, k), p) {
      OthersSpin(m, k, (k + 1) / 2, k / 2, k / 2, (k - 1) / 2, p);
    }
  }

  lemma LineOfRound(sp: seq<nat>)
    ensures var l0, l1, l2, l3 := [0, 1, 2] + sp, [1, 2] + sp + [0], [2] + sp + [0, 1], sp + [0, 1, 2];
            && l0[0] == 0 && Moved(l0, Yielded) == l1 && l1[0] == 1 && Moved(l1, Yielded) == l2
            && l2[0] == 2 && Moved(l2, Yielded) == l3 && [0] + [1] == [0, 1] && [0, 1] + [2] == [0, 1, 2]
  {
  }

  /** One round of all coroutines. */
  lemma OneRound(m: Limits, k: nat)
    requires m.workers >= 2 && m.gcap >= 1 && m.lcap >= 1 && k < m.total
    requires Good(TheTurn(m), TheSpec(m)) && TheSpec(m).inv(AfterRounds(m, k))
    requires Lined(TheSpec(m), AfterRounds(m, k), [0, 1, 2] + Idlers(m))
    ensures Leads(TheTurn(m), TheSpec(m), AfterRounds(m, k), [0, 1, 2] + Idlers(m), [0, 1, 2] + Idlers(m),
                  AfterRounds(m, k + 1), [0, 1, 2] + Idlers(m))
  {
    hide Good, Leads, Lined, TheTurn, TheSpec, Inv, AfterRounds, Moved;
    var turn, spec, w, sp := TheTurn(m), TheSpec(m), AfterRounds(m, k), Idlers(m);
    var w1, w2 := RoundSteps(m, k);
    var w3 := AfterRounds(m, k + 1);
    LineOfRound(sp);
    var l0 := [0, 1, 2] + sp;
    LeadsStep(turn, spec, w, l0, 0, w1, Yielded);
    LeadsOn(turn, spec, w, l0, [0], w1, [1, 2] + sp + [0], 1, w2, Yielded);
    LeadsOn(turn, spec, w, l0, [0, 1], w2, [2] + sp + [0, 1], 2, w3, Yielded);
    IdlersSpin(m, k + 1);
    LeadsInside(turn, spec, w, l0, [0, 1, 2], w3, sp + [0, 1, 2]);
    LeadsSpinning(turn, spec, w3, sp, [0, 1, 2]);
    LeadsThen(turn, spec, w, l0, [0, 1, 2], w3, sp + [0, 1, 2], sp, w3, l0);
  }

  lemma StartOfRounds(m: Limits)
    requires m.workers >= 2
    ensures AfterRounds(m, 0) == Initial(m)
  {
    assert Alternate(0, 0) == [] && Alternate(1, 0) == [] && Singles(0, 0) == [] && Singles(1, 0) == [];
    assert AfterRounds(m, 0).ws == Initial(m).ws;
  }

  lemma NoRounds(m: Limits)
    requires m.workers >= 2 && m.gcap >= 1 && m.lcap >= 1
    ensures Leads(TheTurn(m), TheSpec(m), Initial(m), [0, 1, 2] + Idlers(m), [],
                  AfterRounds(m, 0), [0, 1, 2] + Idlers(m))
  {
    hide Good, Leads, TheTurn, Inv, AfterRounds;
    var spec, w := TheSpec(m), Initial(m);
    StartOfRounds(m);
    IsGood(m);
    EverybodyIs(m);
    assert forall p: nat :: p < spec.n ==> !spec.finished(w, p);
    LeadsNowhere(TheTurn(m), spec, w);
  }

  lemma {:induction false} RoundsPass(m: Limits, k: nat) returns (log: seq<nat>)
    requires m.workers >= 2 && m.gcap >= 1 && m.lcap >= 1 && k <= m.total
    ensures Leads(TheTurn(m), TheSpec(m), Initial(m), [0, 1, 2] + Idlers(m), log,
                  AfterRounds(m, k), [0, 1, 2] + Idlers(m))
  {
    hide Good, Leads, Lined, TheTurn, TheSpec, Inv, AfterRounds, Initial;
    if k == 0 {
      NoRounds(m);
      log := [];
    } else {
      var turn, spec, w, line := TheTurn(m), TheSpec(m), Initial(m), [0, 1, 2] + Idlers(m);
      log := RoundsPass(m, k - 1);
      LeadsInside(turn, spec, w, line, log, AfterRounds(m, k - 1), line);
      OneRound(m, k - 1);
      LeadsThen(turn, spec, w, line, log, AfterRounds(m, k - 1), line, line, AfterRounds(m, k), line);
      log := log + line;
    }
  }

  /** What worker `i` runs in the end. */
  function Portion(m: Limits, i: nat): seq<nat> {
    if i < 2 then Alternate(i, (m.total + 1 - i) / 2) else []
  }

  /** All tasks are pushed and taken, and each worker has run or holds its portion. */
  ghost predicate Shared(m: Limits, w: Mem) {
    && w.pushed == m.total && w.queue == [] && |w.ws| == m.workers
    && forall i: nat :: i < m.workers ==> w.ws[i].ran + Reversed(w.ws[i].local) == Portion(m, i)
  }

  lemma WorkKeepsShare(m: Limits, completed: nat, x: Worker)
    ensures var (queue, _, x', _) := Work(m, [], completed, x);
            queue == [] && x'.ran + Reversed(x'.local) == x.ran + Reversed(x.local)
  {
    if x.local != [] { RunKeepsOrder(x); }
  }

  lemma StepKeepsShared(m: Limits, w: Mem, p: nat)
    requires Shared(m, w) && p < m.workers + 1
    ensures Shared(m, TheTurn(m)(w, p).0)
  {
    if p > 0 { WorkKeepsShare(m, w.completed, w.ws[p - 1]); }
    hide Work, Portion, Reversed;
  }

  lemma RoundsShare(m: Limits)
    requires m.workers >= 2
    ensures Shared(m, AfterRounds(m, m.total))
  {
    var k, w := m.total, AfterRounds(m, m.total);
    forall i: nat | i < m.workers ensures w.ws[i].ran + Reversed(w.ws[i].local) == Portion(m, i) { }
  }

  ghost function SharedBy(m: Limits): Mem -> bool { (w: Mem) => Shared(m, w) }

  lemma SharedKept(m: Limits)
    ensures var spec := TheSpec(m);
            forall w: Mem, p: nat :: spec.inv(w) && SharedBy(m)(w) && p < spec.n && !spec.finished(w, p)
                                     ==> SharedBy(m)(TheTurn(m)(w, p).0)
  {
    hide Shared, TheTurn, Inv;
    forall w: Mem, p: nat | Shared(m, w) && p < m.workers + 1 ensures Shared(m, TheTurn(m)(w, p).0) {
      StepKeepsShared(m, w, p);
    }
  }

  lemma RunFromRounds(m: Limits)
    requires m.workers >= 2 && m.gcap >= 1 && m.lcap >= 1
    ensures Good(TheTurn(m), TheSpec(m)) && TheSpec(m).inv(AfterRounds(m, m.total))
    ensures Lined(TheSpec(m), AfterRounds(m, m.total), [0, 1, 2] + Idlers(m))
    ensures TheRun(m).end.0 == Fifo(TheTurn(m), TheSpec(m), AfterRounds(m, m.total), [0, 1, 2] + Idlers(m)).0
  {
    hide Good, Lined, Fifo, AfterRounds, TheTurn, Inv;
    var log := RoundsPass(m, m.total);
    EverybodyIs(m);
  }

  /** With two or more workers, worker 0 runs the odd ids and worker 1 the even ids, in order; the others run
      nothing. */
  lemma WhoRunsWhat(m: Limits)
    requires m.workers >= 2 && m.gcap >= 1 && m.lcap >= 1
    ensures var w := TheRun(m).end.0;
            |w.ws| == m.workers && forall i: nat :: i < m.workers ==> w.ws[i].ran == Portion(m, i)
  {
    hide Good, Lined, Fifo, AfterRounds, TheTurn, TheSpec, Inv, TheRun, Portion;
    var turn, spec, line := TheTurn(m), TheSpec(m), [0, 1, 2] + Idlers(m);
    RunFromRounds(m);
    RoundsShare(m);
    SharedKept(m);
    FifoKeeps(turn, spec, AfterRounds(m, m.total), line, SharedBy(m));
    SharedIsRun(m, TheRun(m).end.0);
  }

  lemma SharedIsRun(m: Limits, w: Mem)
    requires m.workers >= 1 && Shared(m, w) && TheSpec(m).inv(w) && AllFinished(TheSpec(m), w)
    ensures forall i: nat :: i < m.workers ==> w.ws[i].ran == Portion(m, i)
  {
    AllRan(m, w);
    forall i: nat | i < m.workers ensures w.ws[i].ran == Portion(m, i) {
      assert w.ws[i].local == [] && Reversed<nat>([]) == [];
    }
  }

  /** The steps of the dispatcher, and of a worker: one for each block it stole, one for each task it ran, and one to
      return. */
  function Made(): (Mem, nat) -> int {
    (w: Mem, p: nat) =>
      if p == 0 then w.pushed + (if w.dispatched then 1 else 0)
      else if p <= |w.ws| then var x := w.ws[p - 1]; |x.blocks| + |x.ran| + (if x.gone then 1 else 0)
      else 0
  }

  lemma TurnMade(m: Limits, w: Mem, q: nat, p: nat)
    requires q <= |w.ws| && p <= |w.ws| && !Finished(w, q)
    ensures Made()(Turn(m, w, q).0, p) == Made()(w, p) + if q == p && !Spins(TheTurn(m), w, q) then 1 else 0
  {
    WaitsExactly(m, w, q);
    var w' := Turn(m, w, q).0;
    if q != p {
      assert p > 0 ==> w'.ws[p - 1] == w.ws[p - 1];
    } else if Spins(TheTurn(m), w, q) {
      assert w' == w;
    } else if p > 0 {
      hide Spins;
      assert w'.ws[p - 1] == Work(m, w.queue, w.completed, w.ws[p - 1]).2;
    }
  }

  lemma MadeTells(m: Limits)
    ensures Tells(TheTurn(m), TheSpec(m), Made())
  {
    forall w: Mem, q: nat, p: nat | Inv(m, w) && q <= m.workers && p <= m.workers && !Finished(w, q)
      ensures Made()(TheTurn(m)(w, q).0, p) == Made()(w, p) + if q == p && !Spins(TheTurn(m), w, q) then 1 else 0
    {
      hide Made, Spins, Turn, Totals, Places, WorkerOk;
      TurnMade(m, w, q, p);
    }
    hide Made, Spins, Turn, Inv;
  }

  /** Under any interleaving, the dispatcher has taken one step for each task it pushed, and one if it has returned; a
      worker one for each block it stole, one for each task it ran, and one if it has returned; all others were waits
      for room or for tasks. */
  lemma StepsExactly(m: Limits, order: seq<nat>, p: nat)
    requires p <= m.workers
    ensures var w := Interleave(TheTurn(m), TheSpec(m), Initial(m), order);
            Advances(TheTurn(m), TheSpec(m), Initial(m), order, p) == Made()(w, p)
  {
    IsSafe(m);
    MadeTells(m);
    AdvancesTold(TheTurn(m), TheSpec(m), Initial(m), order, p, Made());
  }

  lemma RunTakesTurns(m: Limits)
    requires m.workers >= 1 && m.gcap >= 1 && m.lcap >= 1
    ensures TakesTurns(TheRun(m).end.1)
  {
    var spec, w := TheSpec(m), Initial(m);
    IsGood(m);
    GivesUpTheCpu(m);
    EveryoneLined(spec, w);
    FifoTakesTurns(TheTurn(m), spec, w, Everyone(spec.n));
    hide Good, NeverKeeps, Fifo, Lined, TakesTurns;
  }

  /** `main`: the run ends with nothing queued or held, every task 1 .. total has been run exactly once and nothing
      else was run, and every worker ran all it stole. With two or more workers, worker 0 ran the odd ids and worker 1
      the even ids, in order. Nobody took two steps in a row while another coroutine was left. */
  method RunPool(m: Limits) returns (pool: Pool, log: seq<nat>)
    requires 1 <= m.workers < MAX_COROUTINES && m.gcap >= 1 && m.lcap >= 1
    ensures pool.Formed() && pool.m == m && pool.completed == m.total && pool.queue.Contents() == []
    ensures forall i :: 0 <= i < m.workers ==>
                          var x := pool.workers[i]; x.localSize == 0 && x.processed == x.stolen == |x.ran|
    ensures forall t: nat :: Sum(pool.WorkersNow(), Ran(t)) == if 1 <= t <= m.total then 1 else 0
    ensures m.workers >= 2 ==> forall i :: 0 <= i < m.workers ==> pool.workers[i].ran == Portion(m, i)
    ensures log == TheRun(m).end.1 && TakesTurns(log)
  {
    pool := new Pool(m);
    log := Drive(pool);
    AllRan(m, pool.Now());
    RunTakesTurns(m);
    if m.workers >= 2 { WhoRunsWhat(m); }
    hide Inv, TheSpec, Ran, TheRun, Portion, TakesTurns;
    forall i | 0 <= i < m.workers
      ensures var x := pool.workers[i]; x.localSize == 0 && x.processed == x.stolen == |x.ran|
      ensures m.workers >= 2 ==> pool.workers[i].ran == Portion(m, i)
    {
      assert pool.Now().ws[i] == pool.workers[i].Now();
    }
  }
}
