/** tests/test_semaphore.c: the counting semaphore, its slot workers (test 2) and the mutex (test 3). */
module Semaphores {
  /** The semaphore in memory. */
  class Semaphore {
    var count: int

    constructor (initial: int)
      ensures count == initial
    {
      count := initial;
    }

    /** One look of `sem_wait_coro`: take a unit, or yield and look again. */
    method TryWait() returns (taken: bool)
      modifies this
      ensures taken == (old(count) > 0) && count == old(count) - (if taken then 1 else 0)
    {
      taken := count > 0;
      if taken { count := count - 1; }
    }

    method Post()
      modifies this
      ensures count == old(count) + 1
    {
      count := count + 1;
    }
  }
}

/** Test 3, `t3_inc`: coroutines increment a counter by read, yield, write while they hold the semaphore. */
module Mutexes {
  import opened Sequences
  import opened Scheduler
  import opened Deadlock
  import opened Runtime
  import opened Clients
  import opened Semaphores

  /** About to wait with `left` iterations to do; holding the semaphore, having read `tmp`; or returned. */
  datatype Inc = Trying(left: nat) | Holding(tmp: int, after: nat) | Gone

  datatype Mem = Mem(count: int, counter: int, cs: seq<Inc>)

  function Initial(value: nat, iters: seq<nat>): Mem {
    Mem(value, 0, seq(|iters|, i requires 0 <= i < |iters| => Trying(iters[i])))
  }

  /** From one `co_yield` to the next. */
  function Turn(w: Mem, p: nat): (Mem, Signal)
    requires p < |w.cs|
  {
    match w.cs[p]
    case Trying(l) =>
      if l == 0 then (w.(cs := w.cs[p := Gone]), Returned)
      else if w.count <= 0 then (w, Yielded)
      else (w.(count := w.count - 1, cs := w.cs[p := Holding(w.counter, l - 1)]), Yielded)
    case Holding(tmp, after) => (Mem(w.count + 1, tmp + 1, w.cs[p := Trying(after)]), Yielded)
    case Gone => (w, Yielded)
  }

  function Holds(): Inc -> bool { (c: Inc) => c.Holding? }

  /** Iterations that have not written the counter yet. */
  function Unwritten(): Inc -> nat {
    (c: Inc) => match c case Trying(l) => l case Holding(_, after) => after + 1 case Gone => 0
  }

  /** Every unit of the semaphore is free or held. */
  ghost predicate Conserved(value: nat, w: Mem) {
    w.count >= 0 && w.count + Count(w.cs, Holds()) == value
  }

  /** What the holder read is still the counter, and the counter counts every finished iteration. */
  ghost predicate NoLostUpdate(total: nat, w: Mem) {
    && (forall p: nat :: p < |w.cs| && w.cs[p].Holding? ==> w.cs[p].tmp == w.counter)
    && w.counter + Sum(w.cs, Unwritten()) == total
  }

  ghost predicate Inv(value: nat, n: nat, total: nat, w: Mem) {
    |w.cs| == n && Conserved(value, w) && (value == 1 ==> NoLostUpdate(total, w))
  }

  predicate Finished(w: Mem, p: nat) { p < |w.cs| && w.cs[p].Gone? }

  function IncRank(): Inc -> nat {
    (c: Inc) => match c case Trying(l) => 2 * l + 1 case Holding(_, after) => 2 * after + 2 case Gone => 0
  }

  function Rank(w: Mem): nat { Sum(w.cs, IncRank()) }

  ghost function TheSpec(value: nat, n: nat, total: nat): Spec<Mem> {
    Spec(n, (w: Mem, p: nat) => Finished(w, p), (w: Mem) => Inv(value, n, total, w), (w: Mem) => Rank(w))
  }

  function TheTurn(): (Mem, nat) -> (Mem, Signal) {
    (w: Mem, p: nat) => if p < |w.cs| then Turn(w, p) else (w, Yielded)
  }

  lemma TurnConserves(value: nat, w: Mem, p: nat)
    requires Conserved(value, w) && p < |w.cs|
    ensures Conserved(value, Turn(w, p).0)
  {
    var w' := Turn(w, p).0;
    CountUpdate(w.cs, Holds(), p, w'.cs[p]);
    assert w'.cs == w.cs[p := w'.cs[p]];
  }

  /** With one unit, whoever holds it or can take it is alone. */
  lemma OneHolder(w: Mem, p: nat)
    requires Conserved(1, w) && p < |w.cs| && (w.cs[p].Holding? || w.count > 0)
    ensures forall q: nat :: q < |w.cs| && q != p ==> !w.cs[q].Holding?
  {
    CountUpdate(w.cs, Holds(), p, Gone);
    CountBounds(w.cs[p := Gone], Holds());
    forall q: nat | q < |w.cs| && q != p ensures !w.cs[q].Holding? {
      assert !Holds()(w.cs[p := Gone][q]);
    }
  }

  lemma TurnLosesNoUpdate(total: nat, w: Mem, p: nat)
    requires Conserved(1, w) && NoLostUpdate(total, w) && p < |w.cs|
    ensures NoLostUpdate(total, Turn(w, p).0)
  {
    var w' := Turn(w, p).0;
    SumUpdate(w.cs, Unwritten(), p, w'.cs[p]);
    assert w'.cs == w.cs[p := w'.cs[p]];
    if w.cs[p].Holding? || w.count > 0 { OneHolder(w, p); }
  }

  lemma TurnOk(value: nat, n: nat, total: nat, w: Mem, p: nat)
    requires Inv(value, n, total, w) && p < n && !Finished(w, p)
    ensures StepOk(TheTurn(), TheSpec(value, n, total), w, p)
  {
    TurnConserves(value, w, p);
    if value == 1 { TurnLosesNoUpdate(total, w, p); }
    var (w', sig) := Turn(w, p);
    assert TheTurn()(w, p) == (w', sig);
    SumUpdate(w.cs, IncRank(), p, w'.cs[p]);
    assert w'.cs == w.cs[p := w'.cs[p]];
    hide NoLostUpdate, Conserved;
  }

  lemma NeverStuck(value: nat, n: nat, total: nat, w: Mem)
    requires value >= 1 && Inv(value, n, total, w) && !AllFinished(TheSpec(value, n, total), w)
    ensures SomeoneActive(TheTurn(), TheSpec(value, n, total), w)
  {
    var p: nat :| p < n && !TheSpec(value, n, total).finished(w, p);
    if w.count == 0 {
      CountBounds(w.cs, Holds());
      p :| p < n && Holds()(w.cs[p]);
    }
    assert !Finished(w, p) && !Spins(TheTurn(), w, p);
  }

  lemma IsSafe(value: nat, iters: seq<nat>)
    ensures var total := Sum(iters, (x: nat) => x);
            Safe(TheTurn(), TheSpec(value, |iters|, total)) && Inv(value, |iters|, total, Initial(value, iters))
  {
    var n, total := |iters|, Sum(iters, (x: nat) => x);
    CountBounds(Initial(value, iters).cs, Holds());
    InitialTotal(value, iters, n);
    assert iters[..n] == iters && Initial(value, iters).cs[..n] == Initial(value, iters).cs;
    forall w: Mem, p: nat | Inv(value, n, total, w) && p < n && !Finished(w, p)
      ensures StepOk(TheTurn(), TheSpec(value, n, total), w, p)
    {
      TurnOk(value, n, total, w, p);
    }
  }

  lemma IsGood(value: nat, iters: seq<nat>)
    requires value >= 1
    ensures var total := Sum(iters, (x: nat) => x);
            Good(TheTurn(), TheSpec(value, |iters|, total)) && Inv(value, |iters|, total, Initial(value, iters))
  {
    IsSafe(value, iters);
    var n, total := |iters|, Sum(iters, (x: nat) => x);
    forall w: Mem | Inv(value, n, total, w) && !AllFinished(TheSpec(value, n, total), w)
      ensures SomeoneActive(TheTurn(), TheSpec(value, n, total), w)
    {
      NeverStuck(value, n, total, w);
    }
  }

  lemma {:induction false} InitialTotal(value: nat, iters: seq<nat>, k: nat)
    requires k <= |iters|
    ensures Sum(Initial(value, iters).cs[..k], Unwritten()) == Sum(iters[..k], (x: nat) => x)
  {
    if k > 0 {
      InitialTotal(value, iters, k - 1);
      assert Initial(value, iters).cs[..k][..k - 1] == Initial(value, iters).cs[..k - 1];
      assert iters[..k][..k - 1] == iters[..k - 1];
    }
  }

  /** Under any interleaving, for any number of coroutines and iterations: units free plus units held are the
      initial value, so at most that many hold one; with one unit no increment is lost. */
  lemma AnyInterleaving(value: nat, iters: seq<nat>, order: seq<nat>)
    ensures var spec := TheSpec(value, |iters|, Sum(iters, (x: nat) => x));
            var w := Interleave(TheTurn(), spec, Initial(value, iters), order);
            && |w.cs| == |iters|
            && w.count >= 0 && w.count + Count(w.cs, Holds()) == value
            && (value == 1 ==> w.counter + Sum(w.cs, Unwritten()) == Sum(iters, (x: nat) => x))
            && (value == 1 ==> forall p, q :: 0 <= p < q < |w.cs| ==> !(w.cs[p].Holding? && w.cs[q].Holding?))
  {
    var n, total := |iters|, Sum(iters, (x: nat) => x);
    IsSafe(value, iters);
    InterleavingKeepsInv(TheTurn(), TheSpec(value, n, total), Initial(value, iters), order);
    var w := Interleave(TheTurn(), TheSpec(value, n, total), Initial(value, iters), order);
    assert TheSpec(value, n, total).inv(w) == Inv(value, n, total, w);
    if value == 1 {
      forall p, q | 0 <= p < q < |w.cs| && w.cs[p].Holding? ensures !w.cs[q].Holding? { OneHolder(w, p); }
    }
  }

  /** The coroutine body over the semaphore and counter in memory. */
  class Counter {
    const sem: Semaphore
    const cs: array<Inc>
    var counter: int

    constructor (value: nat, iters: seq<nat>)
      ensures Now() == Initial(value, iters) && cs.Length == |iters| && fresh(sem) && fresh(cs)
    {
      sem := new Semaphore(value);
      cs := new Inc[|iters|](i requires 0 <= i < |iters| => Trying(iters[i]));
      counter := 0;
    }

    ghost function Now(): Mem
      reads this, sem, cs
    {
      Mem(sem.count, counter, cs[..])
    }

    method TakeTurn(p: nat) returns (sig: Signal)
      requires p < cs.Length && !cs[p].Gone?
      modifies this, sem, cs
      ensures (Now(), sig) == Turn(old(Now()), p)
    {
      match cs[p] {
        case Trying(l) =>
          if l == 0 {
            cs[p] := Gone;
            return Returned;
          }
          var taken := sem.TryWait();
          if taken { cs[p] := Holding(counter, l - 1); }
          return Yielded;
        case Holding(tmp, after) =>
          counter := tmp + 1;
          sem.Post();
          cs[p] := Trying(after);
          return Yielded;
      }
    }
  }

  /** The run that `co_run` makes of the coroutines. */
  ghost function TheRun(iters: seq<nat>): Course<Mem> {
    IsGood(1, iters);
    CourseFrom(TheTurn(), TheSpec(1, |iters|, Sum(iters, (x: nat) => x)), Initial(1, iters))
  }

  lemma IsDriven(iters: seq<nat>)
    requires |iters| <= MAX_COROUTINES
    ensures var c := TheRun(iters);
            && OnTrack(c, [], Initial(1, iters), Created(|iters|)) && c.spec.n == |iters|
            && c.spec == TheSpec(1, |iters|, Sum(iters, (x: nat) => x))
            && (forall w: Mem, p: nat :: p < |w.cs| ==> c.step(w, p) == Turn(w, p))
            && (forall w: Mem, p: nat :: p < |w.cs| && !c.spec.finished(w, p) ==> !w.cs[p].Gone?)
  {
    hide OnTrack, Good, FifoRun, Fifo, Lined;
    IsGood(1, iters);
    StartOnTrack(TheTurn(), TheSpec(1, |iters|, Sum(iters, (x: nat) => x)), Initial(1, iters));
  }

  /** One step of the coroutine that runs, and the scheduler call that ends it. */
  method TakeStep(m: Counter, sys: System, ghost c: Course<Mem>, ghost log: seq<nat>)
    requires sys.Valid() && sys.running != null && {m, m.sem, m.cs} !! sys.Repr()
    requires Position(sys.running) < m.cs.Length && !m.cs[Position(sys.running)].Gone?
    requires c.step(m.Now(), Position(sys.running)) == Turn(m.Now(), Position(sys.running))
    requires OnTrack(c, log, m.Now(), sys.Abs())
    modifies m, m.sem, m.cs, sys.Repr()
    ensures sys.Valid() && sys.Repr() == old(sys.Repr())
    ensures OnTrack(c, log + [old(Position(sys.running))], m.Now(), sys.Abs())
    ensures Nearer(c.step, c.spec, old(m.Now()), Line(old(sys.Abs())), m.Now(), Line(sys.Abs()))
  {
    hide System.Valid, System.Abs, OnTrack, Nearer, Turn;
    ghost var w := m.Now();
    var sig := m.TakeTurn(Position(sys.running));
    Untouched(sys);
    EndStep(sys, sig, c, log, w);
  }

  /** `co_run` over the semaphore and counter in memory. */
  method Drive(m: Counter, ghost iters: seq<nat>) returns (log: seq<nat>)
    requires m.cs.Length == |iters| <= MAX_COROUTINES && m.Now() == Initial(1, iters)
    modifies m, m.sem, m.cs
    ensures TheRun(iters).end == (m.Now(), log)
  {
    hide System.Valid, System.Abs, System.Repr, OnTrack, Line, Spinning, TheRun, TheSpec, Initial;
    ghost var c := TheRun(iters);
    IsDriven(iters);
    log := [];
    var sys := CreateMany(m.cs.Length);
    while true
      invariant sys.Valid() && fresh(sys.Repr()) && {m, m.sem, m.cs} !! sys.Repr()
      invariant OnTrack(c, log, m.Now(), sys.Abs())
      decreases c.spec.rank(m.Now()), Spinning(c.step, m.Now(), Line(sys.Abs()))
    {
      var p, more := NextUp(sys, c, log, m.Now());
      if !more { return; }
      TakeStep(m, sys, c, log);
      log := log + [p];
    }
  }

  /** Every step ends in `co_yield` or a return: the coroutine gives up the CPU while it holds the semaphore, and again
      after it has posted. */
  lemma GivesUpTheCpu(value: nat, n: nat, total: nat)
    ensures NeverKeeps(TheTurn(), TheSpec(value, n, total))
  {
  }

  /** A coroutine waits exactly while it has iterations left, holds no unit, and none is free. */
  lemma WaitsExactly(w: Mem, p: nat)
    requires p < |w.cs| && !w.cs[p].Gone?
    ensures Spins(TheTurn(), w, p) <==> Unwritten()(w.cs[p]) > 0 && !Holds()(w.cs[p]) && w.count <= 0
  {
    var w' := Turn(w, p).0;
    assert w'.cs[p] == w.cs[p] || w' != w;
  }

  /** How far coroutine `p` has come, up to its return. */
  function Made(): (Mem, nat) -> int {
    (w: Mem, p: nat) => if p < |w.cs| then 0 - (IncRank()(w.cs[p]) as int) else 0
  }

  lemma TurnMade(w: Mem, q: nat, p: nat)
    requires q < |w.cs| && p < |w.cs| && !w.cs[q].Gone?
    ensures Made()(Turn(w, q).0, p) == Made()(w, p) + if q == p && !Spins(TheTurn(), w, q) then 1 else 0
  {
    WaitsExactly(w, q);
    var w' := Turn(w, q).0;
    assert |w'.cs| == |w.cs| && (p != q ==> w'.cs[p] == w.cs[p]);
    if q == p {
      if Spins(TheTurn(), w, q) {
        assert w' == w;
      } else {
        assert IncRank()(w.cs[p]) == IncRank()(w'.cs[p]) + 1;
      }
    }
  }

  lemma MadeTells(value: nat, n: nat, total: nat)
    ensures Tells(TheTurn(), TheSpec(value, n, total), Made())
  {
    forall w: Mem, q: nat, p: nat | Inv(value, n, total, w) && q < n && p < n && !Finished(w, q)
      ensures Made()(TheTurn()(w, q).0, p) == Made()(w, p) + if q == p && !Spins(TheTurn(), w, q) then 1 else 0
    {
      TurnMade(w, q, p);
      hide Made, Spins, Turn;
    }
    hide Made, Spins, Turn;
  }

  /** Under any interleaving, a coroutine that has returned took two steps for each of its iterations, one to take the
      unit and one to give it back, and one to return; all others were waits for a unit. */
  lemma StepsExactly(value: nat, iters: seq<nat>, order: seq<nat>, p: nat)
    requires p < |iters|
    ensures var spec := TheSpec(value, |iters|, Sum(iters, (x: nat) => x));
            var w := Interleave(TheTurn(), spec, Initial(value, iters), order);
            Finished(w, p) ==> Advances(TheTurn(), spec, Initial(value, iters), order, p) == 2 * iters[p] + 1
  {
    IsSafe(value, iters);
    MadeTells(value, |iters|, Sum(iters, (x: nat) => x));
    var spec := TheSpec(value, |iters|, Sum(iters, (x: nat) => x));
    AdvancesTold(TheTurn(), spec, Initial(value, iters), order, p, Made());
  }

  /** `main` of test 3: the run ends, the counter is the total number of iterations, and nobody took two steps in a row
      while another coroutine was left. */
  method RunMutex(iters: seq<nat>) returns (counter: int, log: seq<nat>)
    requires |iters| <= MAX_COROUTINES
    ensures counter == Sum(iters, (x: nat) => x) && log == TheRun(iters).end.1 && TakesTurns(log)
    ensures forall p: nat :: p < |iters| ==>
                               Advances(TheTurn(), TheSpec(1, |iters|, counter), Initial(1, iters), log, p)
                               == 2 * iters[p] + 1
  {
    ghost var n, total := |iters|, Sum(iters, (x: nat) => x);
    var m := new Counter(1, iters);
    log := Drive(m, iters);
    ghost var w := m.Now();
    counter := m.counter;
    RunTakesTurns(iters);
    assert TheSpec(1, n, total).inv(w) == Inv(1, n, total, w);
    forall p: nat | p < n ensures Unwritten()(w.cs[p]) == 0 { assert TheSpec(1, n, total).finished(w, p); }
    SumZero(w.cs, Unwritten());
    RunSteps(iters);
  }

  lemma RunSteps(iters: seq<nat>)
    ensures forall p: nat :: p < |iters| ==>
                               Advances(TheTurn(), TheSpec(1, |iters|, Sum(iters, (x: nat) => x)), Initial(1, iters),
                                        TheRun(iters).end.1, p)
                               == 2 * iters[p] + 1
  {
    ghost var spec, w := TheSpec(1, |iters|, Sum(iters, (x: nat) => x)), Initial(1, iters);
    IsGood(1, iters);
    EveryoneLined(spec, w);
    FifoIsInterleaving(TheTurn(), spec, w, Everyone(spec.n));
    hide Good, Fifo, Lined, Advances;
    forall p: nat | p < |iters| ensures Advances(TheTurn(), spec, w, TheRun(iters).end.1, p) == 2 * iters[p] + 1 {
      StepsExactly(1, iters, TheRun(iters).end.1, p);
      assert spec.finished(TheRun(iters).end.0, p);
    }
  }

  lemma RunTakesTurns(iters: seq<nat>)
    ensures TakesTurns(TheRun(iters).end.1)
  {
    ghost var spec, w := TheSpec(1, |iters|, Sum(iters, (x: nat) => x)), Initial(1, iters);
    IsGood(1, iters);
    GivesUpTheCpu(1, |iters|, Sum(iters, (x: nat) => x));
    EveryoneLined(spec, w);
    FifoTakesTurns(TheTurn(), spec, w, Everyone(spec.n));
    hide Good, NeverKeeps, Fifo, Lined, TakesTurns;
  }
}

/** Test 2, `t2_worker`: coroutines that use a slot for one turn each. */
module Slots {
  import opened Sequences
  import opened Scheduler
  import opened Deadlock
  import opened Runtime
  import opened Clients
  import opened Semaphores

  datatype Worker = Outside | Using | Gone

  datatype Mem = Mem(count: int, used: int, maxUsed: int, ws: seq<Worker>)

  function Initial(value: nat, n: nat): Mem { Mem(value, 0, 0, seq(n, _ => Outside)) }

  function Turn(w: Mem, p: nat): (Mem, Signal)
    requires p < |w.ws|
  {
    match w.ws[p]
    case Outside =>
      if w.count <= 0 then (w, Yielded)
      else
        var used := w.used + 1;
        (Mem(w.count - 1, used, if used > w.maxUsed then used else w.maxUsed, w.ws[p := Using]), Yielded)
    case Using => (Mem(w.count + 1, w.used - 1, w.maxUsed, w.ws[p := Gone]), Returned)
    case Gone => (w, Yielded)
  }

  function Uses(): Worker -> bool { (x: Worker) => x.Using? }

  ghost predicate Inv(value: nat, n: nat, w: Mem) {
    && |w.ws| == n && w.count >= 0
    && w.used == Count(w.ws, Uses()) && w.count + w.used == value
    && w.used <= w.maxUsed <= value && w.maxUsed <= n
  }

  predicate Finished(w: Mem, p: nat) { p < |w.ws| && w.ws[p].Gone? }

  function WorkerRank(): Worker -> nat {
    (x: Worker) => match x case Outside => 2 case Using => 1 case Gone => 0
  }

  ghost function TheSpec(value: nat, n: nat): Spec<Mem> {
    Spec(n, (w: Mem, p: nat) => Finished(w, p), (w: Mem) => Inv(value, n, w), (w: Mem) => Sum(w.ws, WorkerRank()))
  }

  function TheTurn(): (Mem, nat) -> (Mem, Signal) {
    (w: Mem, p: nat) => if p < |w.ws| then Turn(w, p) else (w, Yielded)
  }

  lemma TurnOk(value: nat, n: nat, w: Mem, p: nat)
    requires Inv(value, n, w) && p < n && !Finished(w, p)
    ensures StepOk(TheTurn(), TheSpec(value, n), w, p)
  {
    var (w', sig) := Turn(w, p);
    assert TheTurn()(w, p) == (w', sig);
    CountUpdate(w.ws, Uses(), p, w'.ws[p]);
    SumUpdate(w.ws, WorkerRank(), p, w'.ws[p]);
    assert w'.ws == w.ws[p := w'.ws[p]];
    CountBounds(w'.ws, Uses());
  }

  lemma NeverStuck(value: nat, n: nat, w: Mem)
    requires value >= 1 && Inv(value, n, w) && !AllFinished(TheSpec(value, n), w)
    ensures SomeoneActive(TheTurn(), TheSpec(value, n), w)
  {
    var p: nat :| p < n && !TheSpec(value, n).finished(w, p);
    if w.count == 0 {
      CountBounds(w.ws, Uses());
      p :| p < n && Uses()(w.ws[p]);
    }
    assert !Finished(w, p) && !Spins(TheTurn(), w, p);
  }

  lemma IsSafe(value: nat, n: nat)
    ensures Safe(TheTurn(), TheSpec(value, n)) && Inv(value, n, Initial(value, n))
  {
    CountBounds(Initial(value, n).ws, Uses());
    forall w: Mem, p: nat | Inv(value, n, w) && p < n && !Finished(w, p)
      ensures StepOk(TheTurn(), TheSpec(value, n), w, p)
    {
      TurnOk(value, n, w, p);
    }
  }

  lemma IsGood(value: nat, n: nat)
    requires value >= 1
    ensures Good(TheTurn(), TheSpec(value, n)) && Inv(value, n, Initial(value, n))
  {
    IsSafe(value, n);
    forall w: Mem | Inv(value, n, w) && !AllFinished(TheSpec(value, n), w)
      ensures SomeoneActive(TheTurn(), TheSpec(value, n), w)
    {
      NeverStuck(value, n, w);
    }
  }

  /** The largest number of workers inside at once, over all the steps in `order`. */
  ghost function Peak(value: nat, n: nat, order: seq<nat>): nat {
    if order == [] then 0
    else
      var now := Count(Interleave(TheTurn(), TheSpec(value, n), Initial(value, n), order).ws, Uses());
      var before := Peak(value, n, order[..|order| - 1]);
      if now > before then now else before
  }

  lemma {:induction false} MaxIsPeak(value: nat, n: nat, order: seq<nat>)
    ensures Interleave(TheTurn(), TheSpec(value, n), Initial(value, n), order).maxUsed == Peak(value, n, order)
  {
    IsSafe(value, n);
    if order != [] {
      var turn, spec, last := TheTurn(), TheSpec(value, n), |order| - 1;
      MaxIsPeak(value, n, order[..last]);
      assert order[..last] + [order[last]] == order;
      InterleaveSnoc(turn, spec, Initial(value, n), order[..last], order[last]);
      InterleavingKeepsInv(turn, spec, Initial(value, n), order[..last]);
      InterleavingKeepsInv(turn, spec, Initial(value, n), order);
      var w := Interleave(turn, spec, Initial(value, n), order[..last]);
      var w' := Interleave(turn, spec, Initial(value, n), order);
      hide Safe, Interleave, Initial;
      assert Inv(value, n, w) == spec.inv(w) && Inv(value, n, w') == spec.inv(w');
      StepPeak(value, n, w, order[last]);
    }
  }

  lemma StepPeak(value: nat, n: nat, w: Mem, p: nat)
    requires Inv(value, n, w)
    ensures var w' := if p < n && !Finished(w, p) then TheTurn()(w, p).0 else w;
            Inv(value, n, w') ==> w'.maxUsed == if w'.used > w.maxUsed then w'.used else w.maxUsed
  {
  }

  /** Under any interleaving `t2_slots_used` counts the workers inside, they never exceed the slots, and
      `t2_max_concurrent` is the largest number that were ever inside. */
  lemma AnyInterleaving(value: nat, n: nat, order: seq<nat>)
    ensures var w := Interleave(TheTurn(), TheSpec(value, n), Initial(value, n), order);
            && w.used == Count(w.ws, Uses()) && w.count + w.used == value
            && w.used <= w.maxUsed <= value && w.maxUsed == Peak(value, n, order)
  {
    MaxIsPeak(value, n, order);
    IsSafe(value, n);
    InterleavingKeepsInv(TheTurn(), TheSpec(value, n), Initial(value, n), order);
    var w := Interleave(TheTurn(), TheSpec(value, n), Initial(value, n), order);
    assert TheSpec(value, n).inv(w) == Inv(value, n, w);
  }

  /** The workers over the semaphore and the two counters in memory. */
  class Room {
    const sem: Semaphore
    const ws: array<Worker>
    var used: int
    var maxUsed: int

    constructor (value: nat, n: nat)
      ensures Now() == Initial(value, n) && ws.Length == n && fresh(sem) && fresh(ws)
    {
      sem := new Semaphore(value);
      ws := new Worker[n](_ => Outside);
      used, maxUsed := 0, 0;
    }

    ghost function Now(): Mem
      reads this, sem, ws
    {
      Mem(sem.count, used, maxUsed, ws[..])
    }

    /** `t2_worker` from one `co_yield` to the next. */
    method TakeTurn(p: nat) returns (sig: Signal)
      requires p < ws.Length && !ws[p].Gone?
      modifies this, sem, ws
      ensures (Now(), sig) == Turn(old(Now()), p)
    {
      if ws[p].Outside? {
        var taken := sem.TryWait();
        if taken {
          used := used + 1;
          if used > maxUsed { maxUsed := used; }
          ws[p] := Using;
        }
        return Yielded;
      }
      used := used - 1;
      sem.Post();
      ws[p] := Gone;
      return Returned;
    }
  }

  /** The run that `co_run` makes of `n` workers. */
  ghost function TheRun(value: nat, n: nat): Course<Mem>
    requires value >= 1
  {
    IsGood(value, n);
    CourseFrom(TheTurn(), TheSpec(value, n), Initial(value, n))
  }

  lemma IsDriven(value: nat, n: nat)
    requires 1 <= value && n <= MAX_COROUTINES
    ensures var c := TheRun(value, n);
            && OnTrack(c, [], Initial(value, n), Created(n)) && c.spec == TheSpec(value, n) && c.spec.n == n
            && (forall w: Mem, p: nat :: p < |w.ws| ==> c.step(w, p) == Turn(w, p))
            && (forall w: Mem, p: nat :: p < |w.ws| && !c.spec.finished(w, p) ==> !w.ws[p].Gone?)
  {
    hide OnTrack, Good, FifoRun, Fifo, Lined;
    IsGood(value, n);
    StartOnTrack(TheTurn(), TheSpec(value, n), Initial(value, n));
  }

  /** One step of the coroutine that runs, and the scheduler call that ends it. */
  method TakeStep(r: Room, sys: System, ghost c: Course<Mem>, ghost log: seq<nat>)
    requires sys.Valid() && sys.running != null && {r, r.sem, r.ws} !! sys.Repr()
    requires Position(sys.running) < r.ws.Length && !r.ws[Position(sys.running)].Gone?
    requires c.step(r.Now(), Position(sys.running)) == Turn(r.Now(), Position(sys.running))
    requires OnTrack(c, log, r.Now(), sys.Abs())
    modifies r, r.sem, r.ws, sys.Repr()
    ensures sys.Valid() && sys.Repr() == old(sys.Repr())
    ensures OnTrack(c, log + [old(Position(sys.running))], r.Now(), sys.Abs())
    ensures Nearer(c.step, c.spec, old(r.Now()), Line(old(sys.Abs())), r.Now(), Line(sys.Abs()))
  {
    hide System.Valid, System.Abs, OnTrack, Nearer, Turn;
    ghost var w := r.Now();
    var sig := r.TakeTurn(Position(sys.running));
    Untouched(sys);
    EndStep(sys, sig, c, log, w);
  }

  /** `co_run` over the semaphore and the counters in memory. */
  method Drive(r: Room, ghost value: nat) returns (log: seq<nat>)
    requires 1 <= value && r.ws.Length <= MAX_COROUTINES && r.Now() == Initial(value, r.ws.Length)
    modifies r, r.sem, r.ws
    ensures TheRun(value, r.ws.Length).end == (r.Now(), log)
  {
    hide System.Valid, System.Abs, System.Repr, OnTrack, Line, Spinning, TheRun, TheSpec, Initial;
    ghost var c := TheRun(value, r.ws.Length);
    IsDriven(value, r.ws.Length);
    log := [];
    var sys := CreateMany(r.ws.Length);
    while true
      invariant sys.Valid() && fresh(sys.Repr()) && {r, r.sem, r.ws} !! sys.Repr()
      invariant OnTrack(c, log, r.Now(), sys.Abs())
      decreases c.spec.rank(r.Now()), Spinning(c.step, r.Now(), Line(sys.Abs()))
    {
      var p, more := NextUp(sys, c, log, r.Now());
      if !more { return; }
      TakeStep(r, sys, c, log);
      log := log + [p];
    }
  }

  // ---------------------------------------------------------------------------------------------
  // The schedule: the first round fills the slots

  /** The first `j` workers are inside. */
  function Inside(value: nat, n: nat, j: nat): Mem
    requires j <= n
  {
    Mem(value - j, j, j, seq(n, i requires 0 <= i < n => if i < j then Using else Outside))
  }

  lemma InsideStep(value: nat, n: nat, j: nat)
    requires j < n && j < value
    ensures TheTurn()(Inside(value, n, j), j) == (Inside(value, n, j + 1), Yielded)
  {
    assert Inside(value, n, j).ws[j := Using] == Inside(value, n, j + 1).ws;
  }

  lemma LineStep(n: nat, j: nat)
    requires j < n
    ensures var line := Everyone(n)[j..] + Everyone(n)[..j];
            && line[0] == j && Moved(line, Yielded) == Everyone(n)[j + 1..] + Everyone(n)[..j + 1]
            && Everyone(n)[..j] + [j] == Everyone(n)[..j + 1]
  {
  }

  lemma NobodyInside(value: nat, n: nat)
    ensures Inside(value, n, 0) == Initial(value, n) && TheSpec(value, n).n == n
    ensures TheSpec(value, n).inv(Initial(value, n)) == Inv(value, n, Initial(value, n))
    ensures forall p: nat :: p < n ==> !TheSpec(value, n).finished(Initial(value, n), p)
  {
  }

  lemma {:induction false} FirstRound(value: nat, n: nat, j: nat)
    requires 1 <= value && j <= n && j <= value
    ensures Leads(TheTurn(), TheSpec(value, n), Initial(value, n), Everyone(n), Everyone(n)[..j],
                  Inside(value, n, j), Everyone(n)[j..] + Everyone(n)[..j])
  {
    hide Leads, Inside, TheTurn, TheSpec, Initial, Moved;
    if j == 0 {
      var line := Everyone(n);
      assert line[0..] + line[..0] == line && line[..0] == [];
      NobodyInside(value, n);
      IsGood(value, n);
      LeadsNowhere(TheTurn(), TheSpec(value, n), Initial(value, n));
    } else {
      FirstRound(value, n, j - 1);
      InsideStep(value, n, j - 1);
      LineStep(n, j - 1);
      LeadsOn(TheTurn(), TheSpec(value, n), Initial(value, n), Everyone(n), Everyone(n)[..j - 1],
              Inside(value, n, j - 1), Everyone(n)[j - 1..] + Everyone(n)[..j - 1], j - 1,
              Inside(value, n, j), Yielded);
    }
  }

  lemma MaxGrows(value: nat, n: nat, m: int)
    ensures var spec := TheSpec(value, n);
            forall w: Mem, p: nat :: spec.inv(w) && w.maxUsed >= m && p < n && !spec.finished(w, p)
                                     ==> TheTurn()(w, p).0.maxUsed >= m
  {
  }

  function Min(a: nat, b: nat): nat { if a < b then a else b }

  /** The run ends with the maximum at the number of slots, or of workers if there are fewer. */
  lemma MaxReached(value: nat, n: nat)
    requires 1 <= value
    ensures TheRun(value, n).end.0.maxUsed == Min(value, n)
  {
    var m := Min(value, n);
    var turn, spec, w, line := TheTurn(), TheSpec(value, n), Inside(value, n, m), Everyone(n)[m..] + Everyone(n)[..m];
    FirstRound(value, n, m);
    MaxGrows(value, n, m);
    assert w.maxUsed >= m;
    hide Lined, Inside, Initial;
    FifoKeeps(turn, spec, w, line, (x: Mem) => x.maxUsed >= m);
    var end := Fifo(turn, spec, w, line).0;
    assert spec.inv(end) == Inv(value, n, end);
  }

  /** `main` of test 2: the run ends with all slots free, and the maximum is the number of slots, or of workers if there
      are fewer. */
  method RunSlots(value: nat, n: nat) returns (r: Room, log: seq<nat>)
    requires 1 <= value && n <= MAX_COROUTINES
    ensures r.used == 0 && r.sem.count == value && r.maxUsed == Min(value, n)
    ensures r.ws.Length == n && forall p :: 0 <= p < n ==> r.ws[p].Gone?
    ensures log == TheRun(value, n).end.1 && TakesTurns(log)
    ensures forall p: nat :: p < n ==> Advances(TheTurn(), TheSpec(value, n), Initial(value, n), log, p) == 2
  {
    r := new Room(value, n);
    log := Drive(r, value);
    MaxReached(value, n);
    RunTakesTurns(value, n);
    ghost var w := r.Now();
    assert TheSpec(value, n).inv(w) == Inv(value, n, w);
    forall p: nat | p < n ensures w.ws[p].Gone? { assert TheSpec(value, n).finished(w, p); }
    CountBounds(w.ws, Uses());
    RunSteps(value, n);
  }

  /** How far worker `p` has come, up to its return. */
  function Made(): (Mem, nat) -> int {
    (w: Mem, p: nat) => if p < |w.ws| then 0 - (WorkerRank()(w.ws[p]) as int) else 0
  }

  lemma TurnMade(w: Mem, q: nat, p: nat)
    requires q < |w.ws| && p < |w.ws| && !w.ws[q].Gone?
    ensures Made()(Turn(w, q).0, p) == Made()(w, p) + if q == p && !Spins(TheTurn(), w, q) then 1 else 0
  {
    WaitsExactly(w, q);
    var w' := Turn(w, q).0;
    assert |w'.ws| == |w.ws| && (p != q ==> w'.ws[p] == w.ws[p]);
    if q == p {
      if Spins(TheTurn(), w, q) {
        assert w' == w;
      } else {
        assert WorkerRank()(w.ws[p]) == WorkerRank()(w'.ws[p]) + 1;
      }
    }
  }

  lemma MadeTells(value: nat, n: nat)
    ensures Tells(TheTurn(), TheSpec(value, n), Made())
  {
    forall w: Mem, q: nat, p: nat | Inv(value, n, w) && q < n && p < n && !Finished(w, q)
      ensures Made()(TheTurn()(w, q).0, p) == Made()(w, p) + if q == p && !Spins(TheTurn(), w, q) then 1 else 0
    {
      TurnMade(w, q, p);
      hide Made, Spins, Turn;
    }
    hide Made, Spins, Turn;
  }

  /** Under any interleaving, a worker that has returned took one step to enter and one to leave; all others were waits
      for a slot. */
  lemma StepsExactly(value: nat, n: nat, order: seq<nat>, p: nat)
    requires p < n
    ensures var w := Interleave(TheTurn(), TheSpec(value, n), Initial(value, n), order);
            Finished(w, p) ==> Advances(TheTurn(), TheSpec(value, n), Initial(value, n), order, p) == 2
  {
    IsSafe(value, n);
    MadeTells(value, n);
    AdvancesTold(TheTurn(), TheSpec(value, n), Initial(value, n), order, p, Made());
  }

  lemma RunSteps(value: nat, n: nat)
    requires 1 <= value
    ensures forall p: nat :: p < n ==> Advances(TheTurn(), TheSpec(value, n), Initial(value, n),
                                                TheRun(value, n).end.1, p) == 2
  {
    ghost var spec, w := TheSpec(value, n), Initial(value, n);
    IsGood(value, n);
    EveryoneLined(spec, w);
    FifoIsInterleaving(TheTurn(), spec, w, Everyone(n));
    hide Good, Fifo, Lined, Advances;
    forall p: nat | p < n ensures Advances(TheTurn(), spec, w, TheRun(value, n).end.1, p) == 2 {
      StepsExactly(value, n, TheRun(value, n).end.1, p);
      assert spec.finished(TheRun(value, n).end.0, p);
    }
  }

  /** A worker waits exactly while it is outside and no slot is free. */
  lemma WaitsExactly(w: Mem, p: nat)
    requires p < |w.ws| && !w.ws[p].Gone?
    ensures Spins(TheTurn(), w, p) <==> w.ws[p].Outside? && w.count <= 0
  {
    assert Turn(w, p).0.ws[p] == w.ws[p] || Turn(w, p).0 != w;
  }

  /** Every step ends in `co_yield` or a return. */
  lemma GivesUpTheCpu(value: nat, n: nat)
    ensures NeverKeeps(TheTurn(), TheSpec(value, n))
  {
  }

  lemma RunTakesTurns(value: nat, n: nat)
    requires 1 <= value
    ensures TakesTurns(TheRun(value, n).end.1)
  {
    ghost var spec, w := TheSpec(value, n), Initial(value, n);
    IsGood(value, n);
    GivesUpTheCpu(value, n);
    EveryoneLined(spec, w);
    FifoTakesTurns(TheTurn(), spec, w, Everyone(n));
    hide Good, NeverKeeps, Fifo, Lined, TakesTurns;
  }
}
