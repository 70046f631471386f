/** examples/generator.c: a Fibonacci generator and its consumer over a one-slot channel. */
module Generator {
  import opened Deadlock
  import opened Runtime
  import opened Clients

  const GEN: nat := 0
  const CONS: nat := 1

  function Fib(n: nat): nat {
    if n < 2 then n else Fib(n - 1) + Fib(n - 2)
  }

  /** `value` and `ready` are the channel; `i`, `a`, `b` the generator's loop; `got` what was printed. */
  datatype Mem = Mem(i: nat, a: int, b: int, value: int, ready: bool, got: seq<int>, sum: int,
                     genDone: bool, consDone: bool)

  const Initial := Mem(0, 0, 1, 0, false, [], 0, false, false)

  function Generate(n: nat, w: Mem): (Mem, Signal) {
    if w.i >= n then (w.(genDone := true), Returned)
    else if w.ready then (w, Yielded)
    else (w.(value := w.a, ready := true, a := w.b, b := w.a + w.b, i := w.i + 1), Yielded)
  }

  /** A full slot is emptied without giving up the CPU. */
  function Consume(w: Mem): (Mem, Signal) {
    if w.ready then (w.(got := w.got + [w.value], sum := w.sum + w.value, ready := false), Continues)
    else if w.genDone then (w.(consDone := true), Returned)
    else (w, Yielded)
  }

  function Turn(n: nat, w: Mem, p: nat): (Mem, Signal) {
    if p == GEN then Generate(n, w) else Consume(w)
  }

  /** The first `n` Fibonacci numbers. */
  function Fibs(n: nat): (r: seq<int>)
    ensures |r| == n && forall k :: 0 <= k < n ==> r[k] == Fib(k)
  {
    seq(n, k requires 0 <= k < n => Fib(k))
  }

  ghost predicate Inv(n: nat, w: Mem) {
    && w.i <= n && w.a == Fib(w.i) && w.b == Fib(w.i + 1)
    && w.got + (if w.ready then [w.value] else []) == Fibs(w.i)
    && w.sum + (if w.ready then w.value else 0) == Fib(w.i + 1) - 1
    && (w.genDone ==> w.i == n)
    && (w.consDone ==> w.genDone && !w.ready)
  }

  predicate Finished(w: Mem, p: nat) {
    if p == GEN then w.genDone else w.consDone
  }

  function Rank(n: nat, w: Mem): nat {
    2 * (if w.i < n then n - w.i else 0) + (if w.ready then 1 else 0)
    + (if w.genDone then 0 else 1) + (if w.consDone then 0 else 1)
  }

  ghost function TheSpec(n: nat): Spec<Mem> {
    Spec(2, (w: Mem, p: nat) => Finished(w, p), (w: Mem) => Inv(n, w), (w: Mem) => Rank(n, w))
  }

  function TheTurn(n: nat): (Mem, nat) -> (Mem, Signal) {
    (w: Mem, p: nat) => Turn(n, w, p)
  }

  lemma TurnKeepsInv(n: nat, w: Mem, p: nat)
    requires Inv(n, w) && p < 2 && !Finished(w, p)
    ensures Inv(n, Turn(n, w, p).0)
  {
    var w' := Turn(n, w, p).0;
    if p == GEN && w.i < n && !w.ready {
      assert Fibs(w'.i) == Fibs(w.i) + [Fib(w.i)];
    }
  }

  lemma TurnOk(n: nat, w: Mem, p: nat)
    requires Inv(n, w) && p < 2 && !Finished(w, p)
    ensures StepOk(TheTurn(n), TheSpec(n), w, p)
  {
    TurnKeepsInv(n, w, p);
    var (w', sig) := Turn(n, w, p);
    assert TheTurn(n)(w, p) == (w', sig);
  }

  lemma IsSafe(n: nat)
    ensures Safe(TheTurn(n), TheSpec(n)) && Inv(n, Initial)
  {
    assert Fibs(0) == [];
    forall w: Mem, p: nat | Inv(n, w) && p < 2 && !Finished(w, p)
      ensures StepOk(TheTurn(n), TheSpec(n), w, p)
    {
      TurnOk(n, w, p);
    }
  }

  /** Somebody can always go on. */
  lemma NeverStuck(n: nat, w: Mem)
    requires Inv(n, w) && !AllFinished(TheSpec(n), w)
    ensures SomeoneActive(TheTurn(n), TheSpec(n), w)
  {
    var p := if w.ready || w.genDone then CONS else GEN;
    WaitsExactly(n, w, p);
    assert !Finished(w, p);
    hide Inv, TheTurn, Spins;
  }

  lemma IsGood(n: nat)
    ensures Good(TheTurn(n), TheSpec(n)) && Inv(n, Initial)
  {
    IsSafe(n);
    hide Inv, TheTurn, SomeoneActive;
    forall w: Mem | Inv(n, w) && !AllFinished(TheSpec(n), w)
      ensures SomeoneActive(TheTurn(n), TheSpec(n), w)
    {
      NeverStuck(n, w);
    }
  }

  /** The generator waits exactly while the slot is full and it has numbers left, the consumer while the slot is empty
      and the generator has not returned. */
  lemma WaitsExactly(n: nat, w: Mem, p: nat)
    requires p < 2
    ensures Spins(TheTurn(n), w, p) <==> if p == GEN then w.i < n && w.ready else !w.ready && !w.genDone
  {
    assert w.got + [w.value] != w.got;
  }

  /** Under any interleaving the consumer has received a prefix of the Fibonacci numbers, nothing is lost
      in the slot, and a consumer that saw the generator DONE has received all `n`. */
  lemma AnyInterleaving(n: nat, order: seq<nat>)
    ensures var w := Interleave(TheTurn(n), TheSpec(n), Initial, order);
            && w.i <= n
            && w.got + (if w.ready then [w.value] else []) == Fibs(w.i)
            && (w.consDone ==> w.got == Fibs(n) && w.sum == Fib(n + 1) - 1)
  {
    IsSafe(n);
    InterleavingKeepsInv(TheTurn(n), TheSpec(n), Initial, order);
    var w := Interleave(TheTurn(n), TheSpec(n), Initial, order);
    assert TheSpec(n).inv(w) == Inv(n, w);
  }

  /** The program's count is 12. Its sum is 232; the 286 in its header comment is wrong. */
  lemma SumOfTwelve()
    ensures Fib(12 + 1) - 1 == 232
  {
    assert Fib(4) == 3 && Fib(5) == 5;
    assert Fib(6) == 8 && Fib(7) == 13;
    assert Fib(8) == 21 && Fib(9) == 34;
    assert Fib(10) == 55 && Fib(11) == 89;
  }

  // ---------------------------------------------------------------------------------------------
  // The coroutine bodies over the channel in memory

  class Channel {
    const n: nat
    var i: nat
    var a: int
    var b: int
    var value: int
    var ready: bool
    var sum: int
    var genDone: bool
    var consDone: bool
    ghost var got: seq<int>

    ghost function Now(): Mem
      reads this
    {
      Mem(i, a, b, value, ready, got, sum, genDone, consDone)
    }

    constructor (n: nat)
      ensures Now() == Initial && this.n == n
    {
      this.n := n;
      i, a, b, value, ready, sum, genDone, consDone, got := 0, 0, 1, 0, false, 0, false, false, [];
    }

    method GeneratorTurn() returns (sig: Signal)
      modifies this
      ensures (Now(), sig) == Generate(n, old(Now()))
    {
      if i >= n {
        genDone := true;
        return Returned;
      }
      if ready { return Yielded; }
      value, ready := a, true;
      var tmp := a + b;
      a := b;
      b := tmp;
      i := i + 1;
      return Yielded;
    }

    /** A whole turn of the consumer: its loop runs until the slot is empty. */
    method ConsumerTurn() returns (sig: Signal)
      modifies this
      ensures var (w1, s1) := Consume(old(Now()));
              (Now(), sig) == if s1.Continues? then Consume(w1) else (w1, s1)
    {
      while ready
        invariant i == old(i) && a == old(a) && b == old(b) && genDone == old(genDone) && consDone == old(consDone)
        invariant Now() == if ready then old(Now()) else if old(ready) then Consume(old(Now())).0 else old(Now())
        invariant ready ==> old(ready)
        decreases ready
      {
        got := got + [value];
        sum := sum + value;
        ready := false;
      }
      if genDone {
        consDone := true;
        return Returned;
      }
      return Yielded;
    }
  }

  /** The run that `co_run` makes of generator and consumer. */
  ghost function TheRun(n: nat): Course<Mem> {
    IsGood(n);
    CourseFrom(TheTurn(n), TheSpec(n), Initial)
  }

  lemma IsDriven(n: nat)
    ensures var c := TheRun(n);
            && OnTrack(c, [], Initial, Created(2)) && c.spec == TheSpec(n)
            && forall w: Mem, p: nat :: c.step(w, p) == Turn(n, w, p)
  {
    hide OnTrack, Good, FifoRun, Fifo, Lined;
    IsGood(n);
    StartOnTrack(TheTurn(n), TheSpec(n), Initial);
  }

  /** A turn of the coroutine that runs, of one or two steps, and the scheduler call that ends it. */
  method TakeTurn(ch: Channel, sys: System, ghost c: Course<Mem>, ghost log: seq<nat>) returns (steps: seq<nat>)
    requires sys.Valid() && sys.running != null && ch !in sys.Repr()
    requires forall w: Mem, p: nat :: c.step(w, p) == Turn(ch.n, w, p)
    requires OnTrack(c, log, ch.Now(), sys.Abs())
    modifies ch, sys.Repr()
    ensures sys.Valid() && sys.Repr() == old(sys.Repr())
    ensures OnTrack(c, log + steps, ch.Now(), sys.Abs())
    ensures Nearer(c.step, c.spec, old(ch.Now()), Line(old(sys.Abs())), ch.Now(), Line(sys.Abs()))
  {
    hide System.Valid, System.Abs, OnTrack, Line, Spinning;
    ghost var w, s := ch.Now(), sys.Abs();
    var sig, p := Continues, Position(sys.running);
    steps := [p];
    ghost var log' := log;
    if p == GEN {
      sig := ch.GeneratorTurn();
      Untouched(sys);
    } else {
      var full := ch.ready;
      sig := ch.ConsumerTurn();
      Untouched(sys);
      if full {
        StepOnTrack(c, log, w, s);
        steps, log', w := [p, p], log + [p], Consume(w).0;
      }
    }
    assert log' + [p] == log + steps;
    hide Turn, Generate, Consume;
    EndStep(sys, sig, c, log', w);
  }

  /** `co_run` over the channel in memory. */
  method Drive(ch: Channel) returns (log: seq<nat>)
    requires ch.Now() == Initial
    modifies ch
    ensures TheRun(ch.n).end == (ch.Now(), log)
  {
    hide System.Valid, System.Abs, System.Repr, OnTrack, Line, Spinning, Channel.Now, TheRun, TheSpec;
    ghost var c := TheRun(ch.n);
    IsDriven(ch.n);
    log := [];
    var sys := CreateMany(2);
    while true
      invariant sys.Valid() && fresh(sys.Repr()) && ch !in sys.Repr()
      invariant OnTrack(c, log, ch.Now(), sys.Abs())
      decreases c.spec.rank(ch.Now()), Spinning(c.step, ch.Now(), Line(sys.Abs()))
    {
      var p, more := NextUp(sys, c, log, ch.Now());
      if !more { return; }
      var steps := TakeTurn(ch, sys, c, log);
      log := log + steps;
    }
  }

  // ---------------------------------------------------------------------------------------------
  // The schedule: every number is consumed in the turn after it was generated

  /** `k` numbers: one step of the generator, two of the consumer. At the end both return. */
  function Rounds(k: nat): seq<nat> {
    if k == 0 then [GEN, CONS] else [GEN, CONS, CONS] + Rounds(k - 1)
  }

  /** Between rounds: the slot is empty, nobody has returned. */
  predicate Idle(w: Mem) { !w.ready && !w.genDone && !w.consDone }

  lemma IdleLined(n: nat, w: Mem)
    requires Inv(n, w) && Idle(w)
    ensures TheSpec(n).inv(w) && Lined(TheSpec(n), w, [0, 1])
  {
    assert [0, 1] == Everyone(2);
    EveryoneLined(TheSpec(n), w);
  }

  lemma TheTurnIs(n: nat)
    ensures forall w: Mem, p: nat :: TheTurn(n)(w, p) == Turn(n, w, p)
  {
  }

  lemma OneNumber(n: nat, w: Mem, w1: Mem, w2: Mem)
    requires Inv(n, w) && Idle(w) && Generate(n, w) == (w1, Yielded)
    requires Consume(w1) == (w2, Continues) && Consume(w2) == (w2, Yielded)
    ensures Leads(TheTurn(n), TheSpec(n), w, [0, 1], [0, 1, 1], w2, [0, 1])
  {
    hide Good, Leads, Lined, Generate, Consume, TheTurn, TheSpec, Inv, Idle;
    var turn, spec := TheTurn(n), TheSpec(n);
    IsGood(n);
    IdleLined(n, w);
    TheTurnIs(n);
    LeadsStep(turn, spec, w, [0, 1], 0, w1, Yielded);
    assert Moved([0, 1], Yielded) == [1, 0];
    LeadsOn(turn, spec, w, [0, 1], [0], w1, [1, 0], 1, w2, Continues);
    assert Moved([1, 0], Continues) == [1, 0] && [0] + [1] == [0, 1];
    LeadsOn(turn, spec, w, [0, 1], [0, 1], w2, [1, 0], 1, w2, Yielded);
    assert Moved([1, 0], Yielded) == [0, 1] && [0, 1] + [1] == [0, 1, 1];
  }

  lemma LastRound(n: nat, w: Mem, w1: Mem, w2: Mem)
    requires Inv(n, w) && Idle(w) && Generate(n, w) == (w1, Returned) && Consume(w1) == (w2, Returned)
    ensures Leads(TheTurn(n), TheSpec(n), w, [0, 1], [0, 1], w2, [])
  {
    hide Good, Leads, Lined, Generate, Consume, TheTurn, TheSpec, Inv, Idle;
    var turn, spec := TheTurn(n), TheSpec(n);
    IsGood(n);
    IdleLined(n, w);
    TheTurnIs(n);
    LeadsStep(turn, spec, w, [0, 1], 0, w1, Returned);
    assert Moved([0, 1], Returned) == [1];
    LeadsOn(turn, spec, w, [0, 1], [0], w1, [1], 1, w2, Returned);
    assert Moved([1], Returned) == [] && [0] + [1] == [0, 1];
  }

  lemma InvBounds(n: nat, w: Mem)
    requires Inv(n, w)
    ensures w.i <= n
  {
  }

  lemma NothingLeft(n: nat, w: Mem)
    requires Good(TheTurn(n), TheSpec(n)) && TheSpec(n).inv(w) && Lined(TheSpec(n), w, [])
    ensures Fifo(TheTurn(n), TheSpec(n), w, []).1 == []
  {
    hide Good, Lined, Inv;
  }

  lemma {:induction false} RunsInRounds(n: nat, w: Mem)
    requires Inv(n, w) && Idle(w)
    ensures Good(TheTurn(n), TheSpec(n)) && TheSpec(n).inv(w) && Lined(TheSpec(n), w, [0, 1])
    ensures Fifo(TheTurn(n), TheSpec(n), w, [0, 1]).1 == Rounds(n - w.i)
    decreases n - w.i
  {
    hide Good, Lined, TheTurn, Inv, Fifo, Fib, Fibs;
    var w1 := Generate(n, w).0;
    var w2 := Consume(w1).0;
    InvBounds(n, w);
    if w.i < n {
      OneNumber(n, w, w1, w2);
      RunsInRounds(n, w2);
    } else {
      LastRound(n, w, w1, w2);
      NothingLeft(n, w2);
    }
  }

  lemma RunIsRounds(n: nat)
    ensures TheRun(n).end.1 == Rounds(n)
  {
    hide Good, Fifo, Lined, Rounds, Inv, TheTurn;
    IsGood(n);
    RunsInRounds(n, Initial);
    assert Everyone(2) == [0, 1];
  }

  /** `main`, for any count. Every number is consumed in the consumer's next turn. */
  method RunGenerator(n: nat) returns (ghost got: seq<int>, sum: int, log: seq<nat>)
    ensures got == Fibs(n) && sum == Fib(n + 1) - 1 && log == Rounds(n)
  {
    var ch := new Channel(n);
    log := Drive(ch);
    RunIsRounds(n);
    assert TheSpec(n).finished(ch.Now(), CONS);
    got, sum := ch.got, ch.sum;
  }
}
