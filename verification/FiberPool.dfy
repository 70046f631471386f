/** examples/fiber_pool.c: `fibers` workers share one queue of `tasks` tasks; a nested loop resumes them in turn. */
module FiberPool {
  import opened Rings
  import opened Sequences

  const QUEUE_CAP: nat := 64
  const MAX_FIBERS: nat := 32

  /** How many of the task numbers 0 .. done - 1 leave remainder `i` modulo `f`: the ceiling of (done - i) / f. */
  function Share(done: nat, f: nat, i: nat): nat
    requires i < f
  {
    (done + f - 1 - i) / f
  }

  lemma DivBetween(x: int, f: nat, q: int)
    requires 0 < f && q * f <= x < q * f + f
    ensures x / f == q
  {
    var d := x / f;
    assert x == d * f + x % f;
    if d < q { MulMonotone(d + 1, q, f); } else if d > q { MulMonotone(q + 1, d, f); }
  }

  lemma MulMonotone(a: int, b: int, f: nat)
    requires a <= b
    ensures a * f <= b * f
  {
  }

  /** Worker `turn` of pass `pass` takes task number pass * f + turn; everybody else's share is unchanged. */
  lemma ShareStep(f: nat, pass: nat, turn: nat, i: nat)
    requires turn < f && i < f
    ensures (pass * f + turn) % f == turn
    ensures Share(pass * f + turn + 1, f, i) == Share(pass * f + turn, f, i) + (if i == turn then 1 else 0)
  {
    var d := pass * f + turn;
    DivBetween(d, f, pass);
    assert d == (d / f) * f + d % f;
    assert (pass + 1) * f == pass * f + f;
    DivBetween(d + f - 1 - i, f, if i < turn then pass + 1 else pass);
    DivBetween(d + 1 + f - 1 - i, f, if i <= turn then pass + 1 else pass);
  }

  lemma ShareSteps(f: nat, pass: nat, turn: nat, d: nat, d': nat)
    requires turn < f && d == pass * f + turn && d' == d + 1
    ensures d % f == turn
    ensures forall i: nat :: i < f ==> Share(d', f, i) == Share(d, f, i) + (if i == turn then 1 else 0)
  {
    forall i: nat | i < f ensures Share(d', f, i) == Share(d, f, i) + (if i == turn then 1 else 0) {
      ShareStep(f, pass, turn, i);
    }
    ShareStep(f, pass, turn, turn);
  }

  lemma SharesStart(f: nat, i: nat)
    requires i < f
    ensures Share(0, f, i) == 0
  {
    DivBetween(f - 1 - i, f, 0);
  }

  /** Passes in which some worker finds a task: the ceiling of tasks / f. */
  function BusyPasses(tasks: nat, f: nat): nat
    requires 0 < f
  {
    (tasks + f - 1) / f
  }

  /** Worker `worker` processed the task with id `task`. */
  datatype Handled = Handled(task: nat, worker: nat)

  class Pool {
    const queue: Ring<nat>
    const processed: array<nat>
    /** What the workers print: who processed which task, in order. */
    ghost var log: seq<Handled>

    ghost predicate Valid()
      reads this, queue
    {
      queue.Valid() && processed != queue.buf
    }

    /** `queue` filled with task ids 1 .. tasks, and `fibers` workers that have processed nothing. */
    constructor (fibers: nat, tasks: nat)
      requires tasks <= QUEUE_CAP
      ensures Valid() && fresh(queue) && fresh(queue.buf) && fresh(processed)
      ensures queue.Contents() == Ids(0, tasks)
      ensures processed.Length == fibers && (forall i :: 0 <= i < fibers ==> processed[i] == 0) && log == []
    {
      queue := new Ring<nat>(QUEUE_CAP);
      processed := new nat[fibers](_ => 0);
      log := [];
      new;
      for j := 0 to tasks
        invariant Valid() && fresh(queue) && fresh(queue.buf) && fresh(processed) && queue.cap == QUEUE_CAP
        invariant queue.Contents() == Ids(0, j)
        invariant processed.Length == fibers && (forall i :: 0 <= i < fibers ==> processed[i] == 0) && log == []
      {
        var ok := queue.TryPush(j + 1);
      }
    }

    /** `coroutine_resume(fibers[i])`: `worker_fn` from one yield to the next. */
    method Resume(i: nat)
      requires Valid() && i < processed.Length
      modifies this, queue, processed
      ensures Valid()
      ensures if old(queue.Contents()) == [] then
                queue.Contents() == [] && processed[..] == old(processed[..]) && log == old(log)
              else
                && queue.Contents() == old(queue.Contents())[1..]
                && processed[..] == old(processed[..])[i := old(processed[i]) + 1]
                && log == old(log) + [Handled(old(queue.Contents())[0], i)]
    {
      var ok, task := queue.TryPop(0);
      if ok {
        processed[i] := processed[i] + 1;
        log := log + [Handled(task, i)];
      }
    }

    /** `done` tasks are finished, handled in the order of their ids and in rotation; the others are queued. */
    ghost predicate Progress(tasks: nat, done: nat)
      reads this, queue, queue.buf, processed
      requires Valid() && processed.Length > 0
    {
      && done <= tasks && queue.Contents() == Ids(done, tasks)
      && (forall i: nat :: i < processed.Length ==> processed[i] == Share(done, processed.Length, i))
      && |log| == done
      && forall j: nat :: j < done ==> log[j] == Handled(j + 1, j % processed.Length)
    }

    /** One pass of the driver's inner loop. */
    method Pass(ghost tasks: nat, ghost pass: nat) returns (idle: nat)
      requires Valid() && processed.Length > 0 && pass * processed.Length <= tasks + processed.Length
      requires Progress(tasks, if pass * processed.Length <= tasks then pass * processed.Length else tasks)
      modifies this, queue, processed
      ensures Valid()
      ensures var next := (pass + 1) * processed.Length; Progress(tasks, if next <= tasks then next else tasks)
      ensures idle <= processed.Length && (idle == processed.Length <==> pass * processed.Length >= tasks)
    {
      var f := processed.Length;
      ghost var base := pass * f;
      idle := 0;
      for i := 0 to f
        invariant Valid() && Progress(tasks, if base + i <= tasks then base + i else tasks)
        invariant idle == if base + i <= tasks then 0 else if base >= tasks then i else base + i - tasks
      {
        ShareSteps(f, pass, i, base + i, base + i + 1);
        var before := processed[i];
        Resume(i);
        if processed[i] == before && queue.Empty() { idle := idle + 1; }
      }
      assert (pass + 1) * f == base + f;
    }

    /** The driver: passes until a whole pass was idle. */
    method Drive(ghost tasks: nat) returns (passes: nat)
      requires Valid() && processed.Length > 0 && Progress(tasks, 0)
      modifies this, queue, processed
      ensures Valid() && Progress(tasks, tasks) && passes == BusyPasses(tasks, processed.Length) + 1
    {
      var f := processed.Length;
      var idle := 0;
      passes := 0;
      assert passes * f == 0;
      while idle < f
        invariant Valid() && idle <= f
        invariant passes > 0 && idle == f ==> (passes - 1) * f >= tasks
        invariant passes > 0 && idle < f ==> (passes - 1) * f < tasks
        invariant passes > 1 ==> (passes - 2) * f < tasks
        invariant passes == 0 ==> idle == 0
        invariant Progress(tasks, if passes * f <= tasks then passes * f else tasks)
        decreases if idle == f then 0 else 1 + (if passes * f <= tasks + f then tasks + f - passes * f else 0)
      {
        assert passes > 0 ==> (passes - 1) * f + f == passes * f;
        idle := Pass(tasks, passes);
        assert (passes + 1) * f == passes * f + f;
        passes := passes + 1;
      }
      ghost var busy := passes - 1;
      assert busy > 0 ==> (busy - 1) * f + f == busy * f;
      assert passes * f == busy * f + f;
      DivBetween(tasks + f - 1, f, busy);
    }
  }

  function SumOf(xs: seq<nat>): nat {
    Sum(xs, (x: nat) => x)
  }

  /** The shares of all workers are all the tasks. */
  lemma {:induction false} SharesAddUp(done: nat, f: nat, shares: seq<nat>)
    requires |shares| == f > 0 && forall i: nat :: i < f ==> shares[i] == Share(done, f, i)
    ensures SumOf(shares) == done
  {
    if done == 0 {
      forall i: nat | i < f ensures shares[i] == 0 { SharesStart(f, i); }
      SumZero(shares, (x: nat) => x);
    } else {
      var d := done - 1;
      var turn := d % f;
      assert d == (d / f) * f + turn;
      ShareSteps(f, d / f, turn, d, done);
      var before := shares[turn := shares[turn] - 1];
      SharesAddUp(d, f, before);
      SumUpdate(before, (x: nat) => x, turn, shares[turn]);
      assert before[turn := shares[turn]] == shares;
    }
  }

  /** `main`: bad arguments are refused; otherwise the driver stops after one idle pass, the tasks were processed in
      the order of their ids, id `j + 1` by worker `j` modulo `fibers`, and the exit code is 0 because all were. */
  method RunFibers(fibers: int, tasks: int)
    returns (code: int, passes: nat, processed: seq<nat>, ghost log: seq<Handled>)
    ensures code == if 1 <= fibers <= MAX_FIBERS && 1 <= tasks <= QUEUE_CAP then 0 else 1
    ensures code == 0 ==>
              && passes == BusyPasses(tasks, fibers) + 1
              && |processed| == fibers && (forall i: nat :: i < fibers ==> processed[i] == Share(tasks, fibers, i))
              && |log| == tasks && (forall j: nat :: j < tasks ==> log[j] == Handled(j + 1, j % fibers))
              && SumOf(processed) == tasks
  {
    passes, processed, log := 0, [], [];
    if fibers < 1 || fibers > MAX_FIBERS || tasks < 1 || tasks > QUEUE_CAP { return 1, 0, [], []; }
    var pool := new Pool(fibers, tasks);
    forall i: nat | i < pool.processed.Length ensures pool.processed[i] == Share(0, fibers, i) {
      SharesStart(fibers, i);
    }
    passes := pool.Drive(tasks);
    processed, log := pool.processed[..], pool.log;
    SharesAddUp(tasks, fibers, processed);
    var total := 0;
    for i := 0 to fibers
      invariant total == SumOf(processed[..i])
    {
      assert processed[..i + 1][..i] == processed[..i];
      total := total + processed[i];
    }
    assert processed[..fibers] == processed;
    code := if total == tasks then 0 else 1;
  }
}
