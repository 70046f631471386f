/** tests/test_pipeline.c: producer -> ring 1 -> squarer -> ring 2 -> consumer, for any length and capacity. */
module Pipeline {
  import opened Sequences
  import opened Rings
  import opened Deadlock
  import opened Runtime
  import opened Clients

  const PRODUCER: nat := 0
  const SQUARER: nat := 1
  const CONSUMER: nat := 2

  /** `next` is the producer's loop variable, `held` what the squarer popped and could not push yet,
      `got` everything the consumer has popped. */
  datatype Mem = Mem(next: nat, r1: seq<int>, done1: bool, held: Option<int>, r2: seq<int>, done2: bool,
                     got: seq<int>, sum: int, done: bool)

  const Empty := Mem(1, [], false, None, [], false, [], 0, false)

  function Produce(n: nat, cap: nat, w: Mem): (Mem, Signal) {
    if w.next > n then (w.(done1 := true), Returned)
    else if |w.r1| == cap then (w, Yielded)
    else (w.(r1 := w.r1 + [w.next], next := w.next + 1), Yielded)
  }

  function Square(cap: nat, w: Mem): (Mem, Signal) {
    if w.held.Some? then
      if |w.r2| == cap then (w, Yielded)
      else (w.(r2 := w.r2 + [w.held.value * w.held.value], held := None), Yielded)
    else if w.r1 == [] then
      if w.done1 then (w.(done2 := true), Returned) else (w, Yielded)
    else
      var v := w.r1[0];
      if |w.r2| == cap then (w.(r1 := w.r1[1..], held := Some(v)), Yielded)
      else (w.(r1 := w.r1[1..], r2 := w.r2 + [v * v]), Yielded)
  }

  function Consume(w: Mem): (Mem, Signal) {
    if w.r2 == [] then
      if w.done2 then (w.(done := true), Returned) else (w, Yielded)
    else (w.(r2 := w.r2[1..], sum := w.sum + w.r2[0], got := w.got + [w.r2[0]]), Yielded)
  }

  /** From one `co_yield` to the next. */
  function Turn(n: nat, cap: nat, w: Mem, p: nat): (Mem, Signal) {
    if p == PRODUCER then Produce(n, cap, w)
    else if p == SQUARER then Square(cap, w)
    else Consume(w)
  }

  // ---------------------------------------------------------------------------------------------
  // Nothing is lost, duplicated or reordered

  function Squares(xs: seq<int>): (r: seq<int>)
    ensures |r| == |xs| && forall i :: 0 <= i < |xs| ==> r[i] == xs[i] * xs[i]
  {
    seq(|xs|, i requires 0 <= i < |xs| => xs[i] * xs[i])
  }

  /** The squares of `lo` .. `n`. */
  function SquaresFrom(lo: nat, n: nat): (r: seq<int>)
    decreases n + 1 - lo
  {
    if lo > n then [] else [lo * lo] + SquaresFrom(lo + 1, n)
  }

  function HeldSquare(held: Option<int>): seq<int> {
    if held.Some? then [held.value * held.value] else []
  }

  function Total(xs: seq<int>): int {
    if xs == [] then 0 else Total(xs[..|xs| - 1]) + xs[|xs| - 1]
  }

  /** All items on their way, from the consumer back to the producer. */
  function Stream(n: nat, w: Mem): seq<int> {
    w.got + (w.r2 + (HeldSquare(w.held) + (Squares(w.r1) + SquaresFrom(w.next, n))))
  }

  ghost predicate Flags(n: nat, w: Mem) {
    && 1 <= w.next <= n + 1
    && (w.done1 ==> w.next == n + 1)
    && (w.done2 ==> w.done1 && w.r1 == [] && w.held.None?)
    && (w.done ==> w.done2 && w.r2 == [])
  }

  ghost predicate Inv(n: nat, cap: nat, w: Mem) {
    && Flags(n, w)
    && |w.r1| <= cap && |w.r2| <= cap
    && Stream(n, w) == SquaresFrom(1, n)
    && w.sum == Total(w.got)
  }

  predicate Finished(w: Mem, p: nat) {
    if p == PRODUCER then w.done1 else if p == SQUARER then w.done2 else w.done
  }

  function Pending(done: bool): nat { if done then 0 else 1 }

  /** Stages the items still have to pass, and returns still to come. */
  function Rank(n: nat, w: Mem): nat {
    4 * (if w.next > n then 0 else n + 1 - w.next) + 3 * |w.r1| + (if w.held.Some? then 2 else 0) + |w.r2|
    + Pending(w.done1) + Pending(w.done2) + Pending(w.done)
  }

  ghost function TheSpec(n: nat, cap: nat): Spec<Mem> {
    Spec(3, (w: Mem, p: nat) => Finished(w, p), (w: Mem) => Inv(n, cap, w), (w: Mem) => Rank(n, w))
  }

  function TheTurn(n: nat, cap: nat): (Mem, nat) -> (Mem, Signal) {
    (w: Mem, p: nat) => Turn(n, cap, w, p)
  }

  lemma ProduceKeepsStream(n: nat, cap: nat, w: Mem)
    ensures Stream(n, Produce(n, cap, w).0) == Stream(n, w)
  {
    var w' := Produce(n, cap, w).0;
    if w.next <= n && |w.r1| != cap {
      assert Squares(w'.r1) == Squares(w.r1) + [w.next * w.next];
      assert Squares(w'.r1) + SquaresFrom(w'.next, n) == Squares(w.r1) + SquaresFrom(w.next, n);
    }
  }

  /** A popped item is pushed on, or held. */
  lemma PassOn(r2: seq<int>, x: int, rest: seq<int>)
    ensures (r2 + [x]) + ([] + rest) == r2 + ([x] + rest)
    ensures forall later: seq<int> :: ([x] + rest) + later == [x] + (rest + later)
  {
  }

  lemma SquareKeepsStream(n: nat, cap: nat, w: Mem)
    ensures Stream(n, Square(cap, w).0) == Stream(n, w)
  {
    var w' := Square(cap, w).0;
    var sq, later := Squares(w'.r1), SquaresFrom(w.next, n);
    if w.held.Some? {
      PassOn(w.r2, w.held.value * w.held.value, sq + later);
    } else if w.r1 != [] {
      var x := w.r1[0] * w.r1[0];
      assert Squares(w.r1) == [x] + sq;
      PassOn(w.r2, x, sq + later);
      assert Squares(w.r1) + later == [x] + (sq + later);
      assert [] + (Squares(w.r1) + later) == Squares(w.r1) + later;
    }
  }

  lemma ConsumeKeepsStream(n: nat, w: Mem)
    ensures Stream(n, Consume(w).0) == Stream(n, w)
  {
    var w' := Consume(w).0;
    var rest := HeldSquare(w.held) + (Squares(w.r1) + SquaresFrom(w.next, n));
    if w.r2 != [] {
      assert w.r2 == [w.r2[0]] + w'.r2;
      assert (w.got + [w.r2[0]]) + (w'.r2 + rest) == w.got + (w.r2 + rest);
    }
  }

  /** What `StepOk` asks of a turn of `p` from `w` that ends in `w'`. */
  ghost predicate TurnIsOk(n: nat, cap: nat, w: Mem, p: nat, w': Mem, sig: Signal) {
    && Inv(n, cap, w')
    && ((w' == w && sig.Yielded?) || Rank(n, w') < Rank(n, w))
    && (forall q: nat :: q < 3 ==> (Finished(w', q) <==> Finished(w, q) || (q == p && sig.Returned?)))
  }

  lemma ProduceOk(n: nat, cap: nat, w: Mem)
    requires Inv(n, cap, w) && !w.done1
    ensures TurnIsOk(n, cap, w, PRODUCER, Produce(n, cap, w).0, Produce(n, cap, w).1)
  {
    ProduceKeepsStream(n, cap, w);
    hide Stream, Total;
  }

  lemma SquareOk(n: nat, cap: nat, w: Mem)
    requires Inv(n, cap, w) && !w.done2
    ensures TurnIsOk(n, cap, w, SQUARER, Square(cap, w).0, Square(cap, w).1)
  {
    SquareKeepsStream(n, cap, w);
    hide Stream, Total;
  }

  lemma ConsumeOk(n: nat, cap: nat, w: Mem)
    requires Inv(n, cap, w) && !w.done
    ensures TurnIsOk(n, cap, w, CONSUMER, Consume(w).0, Consume(w).1)
  {
    ConsumeKeepsStream(n, w);
    var w' := Consume(w).0;
    if w.r2 != [] { assert w'.got[..|w.got|] == w.got; }
    hide Stream;
  }

  lemma TurnOk(n: nat, cap: nat, w: Mem, p: nat)
    requires Inv(n, cap, w) && p < 3 && !Finished(w, p)
    ensures StepOk(TheTurn(n, cap), TheSpec(n, cap), w, p)
  {
    hide Inv, Rank, Produce, Square, Consume;
    var (w', sig) := Turn(n, cap, w, p);
    assert TurnIsOk(n, cap, w, p, w', sig) by {
      if p == PRODUCER { ProduceOk(n, cap, w); }
      else if p == SQUARER { SquareOk(n, cap, w); }
      else { ConsumeOk(n, cap, w); }
    }
    hide Turn, Finished;
    assert TheTurn(n, cap)(w, p) == (w', sig);
  }

  /** The producer waits exactly while ring 1 is full, the squarer while it has nothing to take or no room for what it
      holds, the consumer while there is nothing to take; and each only while more is to come. */
  lemma WaitsExactly(n: nat, cap: nat, w: Mem, p: nat)
    requires p < 3
    ensures Spins(TheTurn(n, cap), w, p)
            <==> if p == PRODUCER then w.next <= n && |w.r1| == cap
                 else if p == SQUARER then if w.held.Some? then |w.r2| == cap else w.r1 == [] && !w.done1
                 else w.r2 == [] && !w.done2
  {
  }

  /** In every reachable state that is not final, some coroutine can make progress. */
  lemma NeverStuck(n: nat, cap: nat, w: Mem)
    requires cap >= 1 && Inv(n, cap, w) && !AllFinished(TheSpec(n, cap), w)
    ensures SomeoneActive(TheTurn(n, cap), TheSpec(n, cap), w)
  {
    hide Stream;
    var p := if w.r2 != [] || w.done2 then CONSUMER
             else if w.held.Some? || w.r1 != [] || w.done1 then SQUARER
             else PRODUCER;
    assert !Finished(w, p) && !Spins(TheTurn(n, cap), w, p);
  }

  lemma IsSafe(n: nat, cap: nat)
    ensures Safe(TheTurn(n, cap), TheSpec(n, cap)) && Inv(n, cap, Empty)
  {
    forall w: Mem, p: nat | Inv(n, cap, w) && p < 3 && !Finished(w, p)
      ensures StepOk(TheTurn(n, cap), TheSpec(n, cap), w, p)
    {
      TurnOk(n, cap, w, p);
    }
  }

  lemma IsGood(n: nat, cap: nat)
    requires cap >= 1
    ensures Good(TheTurn(n, cap), TheSpec(n, cap)) && Inv(n, cap, Empty)
  {
    IsSafe(n, cap);
    forall w: Mem | Inv(n, cap, w) && !AllFinished(TheSpec(n, cap), w)
      ensures SomeoneActive(TheTurn(n, cap), TheSpec(n, cap), w)
    {
      NeverStuck(n, cap, w);
    }
  }

  /** Under any interleaving: what the consumer has got, what is in the rings and in the squarer's hand, and
      what is still to be produced are together the squares of 1 .. n, in order; no ring overflows. */
  lemma AnyInterleaving(n: nat, cap: nat, order: seq<nat>)
    ensures var w := Interleave(TheTurn(n, cap), TheSpec(n, cap), Empty, order);
            && w.got + (w.r2 + (HeldSquare(w.held) + (Squares(w.r1) + SquaresFrom(w.next, n)))) == SquaresFrom(1, n)
            && |w.r1| <= cap && |w.r2| <= cap
            && w.sum == Total(w.got)
            && (w.done ==> w.got == SquaresFrom(1, n))
  {
    IsSafe(n, cap);
    InterleavingKeepsInv(TheTurn(n, cap), TheSpec(n, cap), Empty, order);
    var w := Interleave(TheTurn(n, cap), TheSpec(n, cap), Empty, order);
    assert TheSpec(n, cap).inv(w) == Inv(n, cap, w);
    if w.done { DoneHasAll(n, cap, w); }
  }

  lemma DoneHasAll(n: nat, cap: nat, w: Mem)
    requires Inv(n, cap, w) && w.done
    ensures w.got == SquaresFrom(1, n)
  {
    assert Squares(w.r1) == [] && SquaresFrom(w.next, n) == [];
  }

  lemma {:induction false} SquaresSnoc(lo: nat, n: nat)
    requires lo <= n + 1
    ensures SquaresFrom(lo, n + 1) == SquaresFrom(lo, n) + [(n + 1) * (n + 1)]
    decreases n + 1 - lo
  {
    if lo <= n { SquaresSnoc(lo + 1, n); }
  }

  lemma {:induction false} SumOfSquares(n: nat)
    ensures 6 * Total(SquaresFrom(1, n)) == n * (n + 1) * (2 * n + 1)
  {
    if n > 0 {
      SumOfSquares(n - 1);
      SquaresSnoc(1, n - 1);
      var xs := SquaresFrom(1, n);
      assert xs[..|xs| - 1] == SquaresFrom(1, n - 1);
    }
  }

  // ---------------------------------------------------------------------------------------------
  // The coroutine bodies over the rings in memory

  class Rig {
    const n: nat
    const r1: Ring<int>
    const r2: Ring<int>
    var next: nat
    var held: Option<int>
    var done1: bool
    var done2: bool
    var done: bool
    var sum: int
    ghost var got: seq<int>

    ghost predicate Valid()
      reads this, r1, r2
    {
      r1.Valid() && r2.Valid() && r1 != r2 && r1.buf != r2.buf && r1.cap == r2.cap
    }

    ghost function Repr(): set<object> { {this, r1, r2, r1.buf, r2.buf} }

    ghost function Now(): Mem
      reads this, r1, r2, r1.buf, r2.buf
      requires Valid()
    {
      Mem(next, r1.Contents(), done1, held, r2.Contents(), done2, got, sum, done)
    }

    constructor (n: nat, cap: nat)
      requires cap >= 1
      ensures Valid() && Now() == Empty && this.n == n && r1.cap == cap
      ensures fresh(r1) && fresh(r2) && fresh(r1.buf) && fresh(r2.buf)
    {
      this.n := n;
      r1 := new Ring<int>(cap);
      r2 := new Ring<int>(cap);
      next, held, done1, done2, done, sum, got := 1, None, false, false, false, 0, [];
    }

    method ProducerTurn() returns (sig: Signal)
      requires Valid()
      modifies this, r1, r1.buf
      ensures Valid() && (Now(), sig) == Produce(n, r1.cap, old(Now()))
    {
      if next > n {
        done1 := true;
        return Returned;
      }
      if r1.Full() { return Yielded; }
      r1.Push(next);
      next := next + 1;
      return Yielded;
    }

    method SquarerTurn() returns (sig: Signal)
      requires Valid()
      modifies this, r1, r2, r2.buf
      ensures Valid() && (Now(), sig) == Square(r2.cap, old(Now()))
    {
      if held.None? {
        if r1.Empty() {
          if done1 {
            done2 := true;
            return Returned;
          }
          return Yielded;
        }
        var v := r1.Pop();
        held := Some(v);
      }
      if r2.Full() { return Yielded; }
      r2.Push(held.value * held.value);
      held := None;
      return Yielded;
    }

    method ConsumerTurn() returns (sig: Signal)
      requires Valid()
      modifies this, r2
      ensures Valid() && (Now(), sig) == Consume(old(Now()))
    {
      if r2.Empty() {
        if done2 {
          done := true;
          return Returned;
        }
        return Yielded;
      }
      var v := r2.Pop();
      sum := sum + v;
      got := got + [v];
      return Yielded;
    }

    /** One step of coroutine `p`. */
    method Step(p: nat) returns (sig: Signal)
      requires Valid()
      modifies Repr()
      ensures Valid() && (Now(), sig) == Turn(n, r1.cap, old(Now()), p)
    {
      if p == PRODUCER {
        sig := ProducerTurn();
      } else if p == SQUARER {
        sig := SquarerTurn();
      } else {
        sig := ConsumerTurn();
      }
    }
  }

  /** The run that `co_run` makes of the three coroutines. */
  ghost function TheRun(n: nat, cap: nat): Course<Mem>
    requires cap >= 1
  {
    IsGood(n, cap);
    CourseFrom(TheTurn(n, cap), TheSpec(n, cap), Empty)
  }

  lemma IsDriven(n: nat, cap: nat)
    requires cap >= 1
    ensures var c := TheRun(n, cap);
            && OnTrack(c, [], Empty, Created(3)) && c.spec == TheSpec(n, cap)
            && forall w: Mem, p: nat :: c.step(w, p) == Turn(n, cap, w, p)
  {
    hide OnTrack, Good, FifoRun, Fifo, Lined;
    IsGood(n, cap);
    StartOnTrack(TheTurn(n, cap), TheSpec(n, cap), Empty);
  }

  /** One step of the coroutine that runs, and the scheduler call that ends it. */
  method TakeStep(rig: Rig, sys: System, ghost c: Course<Mem>, ghost log: seq<nat>)
    requires rig.Valid() && sys.Valid() && sys.running != null && sys.Repr() !! rig.Repr()
    requires c.step(rig.Now(), Position(sys.running)) == Turn(rig.n, rig.r1.cap, rig.Now(), Position(sys.running))
    requires OnTrack(c, log, rig.Now(), sys.Abs())
    modifies rig.Repr(), sys.Repr()
    ensures rig.Valid() && sys.Valid() && sys.Repr() == old(sys.Repr())
    ensures OnTrack(c, log + [old(Position(sys.running))], rig.Now(), sys.Abs())
    ensures Nearer(c.step, c.spec, old(rig.Now()), Line(old(sys.Abs())), rig.Now(), Line(sys.Abs()))
  {
    hide System.Valid, System.Abs, OnTrack, Nearer, Turn;
    ghost var w := rig.Now();
    var sig := rig.Step(Position(sys.running));
    Untouched(sys);
    EndStep(sys, sig, c, log, w);
  }

  /** `co_run` over the rings in memory. */
  method Drive(rig: Rig) returns (log: seq<nat>)
    requires rig.Valid() && rig.r1.cap >= 1 && rig.Now() == Empty
    modifies rig.Repr()
    ensures rig.Valid() && TheRun(rig.n, rig.r1.cap).end == (rig.Now(), log)
  {
    hide System.Valid, System.Abs, System.Repr, OnTrack, Line, Spinning, Rig.Now, TheRun, TheSpec;
    ghost var c := TheRun(rig.n, rig.r1.cap);
    IsDriven(rig.n, rig.r1.cap);
    log := [];
    var sys := CreateMany(3);
    while true
      invariant rig.Valid() && sys.Valid() && fresh(sys.Repr()) && sys.Repr() !! rig.Repr()
      invariant OnTrack(c, log, rig.Now(), sys.Abs())
      decreases c.spec.rank(rig.Now()), Spinning(c.step, rig.Now(), Line(sys.Abs()))
    {
      var p, more := NextUp(sys, c, log, rig.Now());
      if !more { return; }
      TakeStep(rig, sys, c, log);
      log := log + [p];
    }
  }

  // ---------------------------------------------------------------------------------------------
  // The schedule: an item passes all three stages in one round

  /** `k` rounds of producer, squarer and consumer. */
  function Rounds(k: nat): seq<nat> {
    if k == 0 then [] else [PRODUCER, SQUARER, CONSUMER] + Rounds(k - 1)
  }

  /** Between rounds: nothing is on its way, nobody has returned. */
  predicate Idle(w: Mem) {
    w.r1 == [] && w.held.None? && w.r2 == [] && !w.done1 && !w.done2 && !w.done
  }

  lemma IdleLined(n: nat, cap: nat, w: Mem)
    requires Inv(n, cap, w) && Idle(w)
    ensures TheSpec(n, cap).inv(w) && Lined(TheSpec(n, cap), w, [0, 1, 2])
  {
    hide Stream;
    assert [0, 1, 2] == Everyone(3);
    EveryoneLined(TheSpec(n, cap), w);
  }

  lemma TheTurnIs(n: nat, cap: nat)
    ensures forall w: Mem, p: nat :: TheTurn(n, cap)(w, p) == Turn(n, cap, w, p)
  {
  }

  /** One round, in which all three yield or all three return. */
  lemma OneRound(n: nat, cap: nat, w: Mem, w1: Mem, w2: Mem, w3: Mem, sig: Signal)
    requires cap >= 1 && Inv(n, cap, w) && Idle(w) && !sig.Continues?
    requires Turn(n, cap, w, PRODUCER) == (w1, sig)
    requires Turn(n, cap, w1, SQUARER) == (w2, sig) && Turn(n, cap, w2, CONSUMER) == (w3, sig)
    ensures Leads(TheTurn(n, cap), TheSpec(n, cap), w, [0, 1, 2], [0, 1, 2], w3, if sig.Yielded? then [0, 1, 2] else [])
  {
    hide Good, Leads, Lined, Turn, TheTurn, TheSpec, Inv, Idle;
    var turn, spec := TheTurn(n, cap), TheSpec(n, cap);
    IsGood(n, cap);
    IdleLined(n, cap, w);
    TheTurnIs(n, cap);
    LeadsStep(turn, spec, w, [0, 1, 2], 0, w1, sig);
    var l1 := if sig.Yielded? then [1, 2, 0] else [1, 2];
    assert Moved([0, 1, 2], sig) == l1;
    LeadsOn(turn, spec, w, [0, 1, 2], [0], w1, l1, 1, w2, sig);
    var l2 := if sig.Yielded? then [2, 0, 1] else [2];
    assert Moved(l1, sig) == l2 && [0] + [1] == [0, 1];
    LeadsOn(turn, spec, w, [0, 1, 2], [0, 1], w2, l2, 2, w3, sig);
    assert [0, 1] + [2] == [0, 1, 2] && Moved(l2, sig) == if sig.Yielded? then [0, 1, 2] else [];
  }

  lemma {:induction false} RunsInRounds(n: nat, cap: nat, w: Mem)
    requires cap >= 1 && Inv(n, cap, w) && Idle(w)
    ensures Good(TheTurn(n, cap), TheSpec(n, cap)) && TheSpec(n, cap).inv(w) && Lined(TheSpec(n, cap), w, [0, 1, 2])
    ensures Fifo(TheTurn(n, cap), TheSpec(n, cap), w, [0, 1, 2]).1 == Rounds(n + 2 - w.next)
    decreases n + 1 - w.next
  {
    var (w1, sig) := Turn(n, cap, w, PRODUCER);
    var w2 := Turn(n, cap, w1, SQUARER).0;
    var w3 := Turn(n, cap, w2, CONSUMER).0;
    OneRound(n, cap, w, w1, w2, w3, sig);
    hide Good, Lined;
    if w.next <= n {
      assert TheSpec(n, cap).inv(w3);
      RunsInRounds(n, cap, w3);
    } else {
      assert Rounds(1) == [0, 1, 2] + Rounds(0);
    }
  }

  /** The steps of the run: n rounds that pass one item each, and one in which all return. */
  lemma RunIsRounds(n: nat, cap: nat)
    requires cap >= 1
    ensures TheRun(n, cap).end.1 == Rounds(n + 1)
  {
    IsGood(n, cap);
    RunsInRounds(n, cap, Empty);
    assert Everyone(3) == [0, 1, 2];
    hide Good, Fifo, Lined;
  }

  /** `main`: for every length and capacity the run ends with the sum the test expects, after n + 1 rounds in which
      producer, squarer and consumer take one step each. */
  method RunPipeline(n: nat, cap: nat) returns (sum: int, log: seq<nat>)
    requires cap >= 1
    ensures sum == n * (n + 1) * (2 * n + 1) / 6 && log == Rounds(n + 1)
  {
    var rig := new Rig(n, cap);
    log := Drive(rig);
    sum := rig.sum;
    RunIsRounds(n, cap);
    assert TheSpec(n, cap).finished(rig.Now(), CONSUMER);
    DoneHasAll(n, cap, rig.Now());
    SumOfSquares(n);
  }
}
