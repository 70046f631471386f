/** tests/test_barrier.c: `n` coroutines that each wait `k` times on one reusable barrier. */
module Barriers {
  import opened Sequences
  import opened Scheduler
  import opened Deadlock
  import opened Runtime
  import opened Clients

  /** A participant between waits, spinning inside a wait that it entered in generation `gen`, or returned;
      `passed` counts the waits it has got through. */
  datatype Part = Between(passed: nat) | Inside(gen: nat, passed: nat) | Gone

  datatype Mem = Mem(arrived: nat, generation: nat, ps: seq<Part>)

  function Initial(n: nat): Mem { Mem(0, 0, seq(n, _ => Between(0))) }

  /** One call of `barrier_wait` up to its first yield, or one more look at the generation. */
  function Turn(k: nat, w: Mem, p: nat): (Mem, Signal)
    requires p < |w.ps|
  {
    match w.ps[p]
    case Between(l) =>
      if l >= k then (w.(ps := w.ps[p := Gone]), Returned)
      else if w.arrived + 1 == |w.ps| then
        (Mem(0, w.generation + 1, w.ps[p := Between(l + 1)]), Continues)
      else
        (Mem(w.arrived + 1, w.generation, w.ps[p := Inside(w.generation, l)]), Yielded)
    case Inside(g, l) =>
      if g == w.generation then (w, Yielded) else (w.(ps := w.ps[p := Between(l + 1)]), Continues)
    case Gone => (w, Yielded)
  }

  /** Waits entered and waits got through by a participant of `k` waits. */
  function Entered(k: nat, x: Part): nat {
    match x case Between(l) => l case Inside(_, l) => l + 1 case Gone => k
  }

  function Exited(k: nat, x: Part): nat {
    match x case Between(l) => l case Inside(_, l) => l case Gone => k
  }

  function InGeneration(g: nat): Part -> bool { (x: Part) => x.Inside? && x.gen == g }

  predicate PartOk(k: nat, generation: nat, x: Part) {
    && Exited(k, x) <= generation <= k
    && match x
       case Between(l) => l == generation
       case Inside(g, l) => g == l < k && g <= generation <= g + 1
       case Gone => generation == k
  }

  ghost predicate Inv(n: nat, k: nat, w: Mem) {
    && |w.ps| == n && w.arrived < n
    && (forall p: nat :: p < n ==> PartOk(k, w.generation, w.ps[p]))
    && w.arrived == Count(w.ps, InGeneration(w.generation))
  }

  predicate Finished(w: Mem, p: nat) { p < |w.ps| && w.ps[p].Gone? }

  function PartRank(k: nat): Part -> nat {
    (x: Part) => match x
      case Between(l) => if l <= k then 2 * (k - l) + 1 else 1
      case Inside(_, l) => if l <= k then 2 * (k - l) else 0
      case Gone => 0
  }

  function Rank(k: nat, w: Mem): nat { Sum(w.ps, PartRank(k)) }

  ghost function TheSpec(n: nat, k: nat): Spec<Mem> {
    Spec(n, (w: Mem, p: nat) => Finished(w, p), (w: Mem) => Inv(n, k, w), (w: Mem) => Rank(k, w))
  }

  function TheTurn(k: nat): (Mem, nat) -> (Mem, Signal) {
    (w: Mem, p: nat) => if p < |w.ps| then Turn(k, w, p) else (w, Yielded)
  }

  /** The last arrival: everybody else is inside the wait that opens. */
  lemma OpeningKeepsInv(n: nat, k: nat, w: Mem, p: nat)
    requires Inv(n, k, w) && p < n && w.ps[p].Between? && w.ps[p].passed < k && w.arrived + 1 == n
    ensures Inv(n, k, Turn(k, w, p).0)
  {
    var g := w.generation;
    var w' := Turn(k, w, p).0;
    CountAllBut(w.ps, InGeneration(g), p, Inside(g, 0));
    assert PartOk(k, g, w.ps[p]);
    forall q: nat | q < n ensures PartOk(k, g + 1, w'.ps[q]) && !InGeneration(g + 1)(w'.ps[q]) {
      assert PartOk(k, g, w.ps[q]);
      if q != p { assert InGeneration(g)(w.ps[q]); }
    }
    CountBounds(w'.ps, InGeneration(g + 1));
  }

  lemma TurnKeepsInv(n: nat, k: nat, w: Mem, p: nat)
    requires Inv(n, k, w) && p < n && !Finished(w, p)
    ensures Inv(n, k, Turn(k, w, p).0)
  {
    var w' := Turn(k, w, p).0;
    assert PartOk(k, w.generation, w.ps[p]);
    if w'.generation != w.generation {
      OpeningKeepsInv(n, k, w, p);
    } else {
      CountUpdate(w.ps, InGeneration(w.generation), p, w'.ps[p]);
      assert w'.ps == w.ps[p := w'.ps[p]];
    }
  }

  lemma TurnOk(n: nat, k: nat, w: Mem, p: nat)
    requires Inv(n, k, w) && p < n && !Finished(w, p)
    ensures StepOk(TheTurn(k), TheSpec(n, k), w, p)
  {
    TurnKeepsInv(n, k, w, p);
    var (w', sig) := Turn(k, w, p);
    assert TheTurn(k)(w, p) == (w', sig);
    assert PartOk(k, w.generation, w.ps[p]);
    SumUpdate(w.ps, PartRank(k), p, w'.ps[p]);
    assert w'.ps == w.ps[p := w'.ps[p]];
    hide Inv;
  }

  /** Somebody can go on: otherwise all `n` are inside the current generation, but `arrived` is below `n`. */
  lemma NeverStuck(n: nat, k: nat, w: Mem)
    requires Inv(n, k, w) && !AllFinished(TheSpec(n, k), w)
    ensures SomeoneActive(TheTurn(k), TheSpec(n, k), w)
  {
    if forall p: nat :: p < n ==> InGeneration(w.generation)(w.ps[p]) {
      CountBounds(w.ps, InGeneration(w.generation));
      assert false;
    }
    var p: nat :| p < n && !InGeneration(w.generation)(w.ps[p]);
    var u: nat :| u < n && !TheSpec(n, k).finished(w, u);
    assert PartOk(k, w.generation, w.ps[p]) && PartOk(k, w.generation, w.ps[u]);
    var q := if w.ps[p].Gone? then u else p;
    assert !Finished(w, q) && !Spins(TheTurn(k), w, q);
  }

  lemma IsSafe(n: nat, k: nat)
    requires n >= 1
    ensures Safe(TheTurn(k), TheSpec(n, k)) && Inv(n, k, Initial(n))
  {
    CountBounds(Initial(n).ps, InGeneration(0));
    forall w: Mem, p: nat | Inv(n, k, w) && p < n && !Finished(w, p)
      ensures StepOk(TheTurn(k), TheSpec(n, k), w, p)
    {
      TurnOk(n, k, w, p);
    }
  }

  lemma IsGood(n: nat, k: nat)
    requires n >= 1
    ensures Good(TheTurn(k), TheSpec(n, k)) && Inv(n, k, Initial(n))
  {
    IsSafe(n, k);
    forall w: Mem | Inv(n, k, w) && !AllFinished(TheSpec(n, k), w)
      ensures SomeoneActive(TheTurn(k), TheSpec(n, k), w)
    {
      NeverStuck(n, k, w);
    }
  }

  /** Under any interleaving: nobody has left more waits than anybody has entered, entries differ by at most
      one, and `arrived` counts those inside the current generation and is below the total. */
  lemma AnyInterleaving(n: nat, k: nat, order: seq<nat>, p: nat, q: nat)
    requires p < n && q < n
    ensures var w := Interleave(TheTurn(k), TheSpec(n, k), Initial(n), order);
            && |w.ps| == n
            && Exited(k, w.ps[p]) <= Entered(k, w.ps[q])
            && Entered(k, w.ps[p]) <= Entered(k, w.ps[q]) + 1
            && w.arrived == Count(w.ps, InGeneration(w.generation)) < n
  {
    IsSafe(n, k);
    InterleavingKeepsInv(TheTurn(k), TheSpec(n, k), Initial(n), order);
    var w := Interleave(TheTurn(k), TheSpec(n, k), Initial(n), order);
    assert TheSpec(n, k).inv(w) == Inv(n, k, w);
    assert PartOk(k, w.generation, w.ps[p]) && PartOk(k, w.generation, w.ps[q]);
  }

  // ---------------------------------------------------------------------------------------------
  // The barrier in memory

  class Barrier {
    const total: nat
    var arrived: nat
    var generation: nat

    /** `barrier_init`. */
    constructor (n: nat)
      ensures total == n && arrived == 0 && generation == 0
    {
      total, arrived, generation := n, 0, 0;
    }

    /** `barrier_wait` up to its first `co_yield`: `open` when the caller was the last to arrive. */
    method Arrive() returns (gen: nat, open: bool)
      modifies this
      ensures gen == old(generation) && open == (old(arrived) + 1 == total)
      ensures if open then arrived == 0 && generation == gen + 1 else arrived == old(arrived) + 1 && generation == gen
    {
      gen := generation;
      arrived := arrived + 1;
      open := arrived == total;
      if open {
        arrived := 0;
        generation := generation + 1;
      }
    }

    /** A participant's coroutine up to its next switch or the end of a wait. */
    method TakeTurn(k: nat, ps: array<Part>, p: nat) returns (sig: Signal)
      requires p < ps.Length == total && !ps[p].Gone?
      modifies this, ps
      ensures (Mem(arrived, generation, ps[..]), sig) == Turn(k, old(Mem(arrived, generation, ps[..])), p)
    {
      match ps[p] {
        case Between(l) =>
          if l >= k {
            ps[p] := Gone;
            return Returned;
          }
          var gen, open := Arrive();
          if open {
            ps[p] := Between(l + 1);
            return Continues;
          }
          ps[p] := Inside(gen, l);
          return Yielded;
        case Inside(g, l) =>
          if g == generation { return Yielded; }
          ps[p] := Between(l + 1);
          return Continues;
      }
    }
  }

  /** The barrier and its participants in memory. */
  ghost function Now(b: Barrier, ps: array<Part>): Mem
    reads b, ps
  {
    Mem(b.arrived, b.generation, ps[..])
  }

  /** The run that `co_run` makes of `n` participants. */
  ghost function TheRun(n: nat, k: nat): Course<Mem>
    requires n >= 1
  {
    IsGood(n, k);
    CourseFrom(TheTurn(k), TheSpec(n, k), Initial(n))
  }

  lemma IsDriven(n: nat, k: nat)
    requires 1 <= n <= MAX_COROUTINES
    ensures var c := TheRun(n, k);
            && OnTrack(c, [], Initial(n), Created(n)) && c.spec == TheSpec(n, k) && c.spec.n == n
            && (forall w: Mem, p: nat :: p < |w.ps| ==> c.step(w, p) == Turn(k, w, p))
            && (forall w: Mem, p: nat :: p < |w.ps| && !c.spec.finished(w, p) ==> !w.ps[p].Gone?)
  {
    hide OnTrack, Good, FifoRun, Fifo, Lined;
    IsGood(n, k);
    StartOnTrack(TheTurn(k), TheSpec(n, k), Initial(n));
  }

  /** One step of the coroutine that runs, and the scheduler call that ends it. */
  method TakeStep(b: Barrier, ps: array<Part>, k: nat, sys: System, ghost c: Course<Mem>, ghost log: seq<nat>)
    requires sys.Valid() && sys.running != null && {b, ps} !! sys.Repr()
    requires Position(sys.running) < ps.Length == b.total && !ps[Position(sys.running)].Gone?
    requires c.step(Now(b, ps), Position(sys.running)) == Turn(k, Now(b, ps), Position(sys.running))
    requires OnTrack(c, log, Now(b, ps), sys.Abs())
    modifies b, ps, sys.Repr()
    ensures sys.Valid() && sys.Repr() == old(sys.Repr())
    ensures OnTrack(c, log + [old(Position(sys.running))], Now(b, ps), sys.Abs())
    ensures Nearer(c.step, c.spec, old(Now(b, ps)), Line(old(sys.Abs())), Now(b, ps), Line(sys.Abs()))
  {
    hide System.Valid, System.Abs, OnTrack, Nearer, Turn;
    ghost var w := Now(b, ps);
    var sig := b.TakeTurn(k, ps, Position(sys.running));
    Untouched(sys);
    EndStep(sys, sig, c, log, w);
  }

  /** `co_run` over the barrier in memory. */
  method Drive(b: Barrier, ps: array<Part>, k: nat) returns (log: seq<nat>)
    requires 1 <= ps.Length == b.total <= MAX_COROUTINES && Now(b, ps) == Initial(ps.Length)
    modifies b, ps
    ensures TheRun(ps.Length, k).end == (Now(b, ps), log)
  {
    hide System.Valid, System.Abs, System.Repr, OnTrack, Line, Spinning, TheRun, TheSpec, Initial;
    ghost var c := TheRun(ps.Length, k);
    IsDriven(ps.Length, k);
    log := [];
    var sys := CreateMany(ps.Length);
    while true
      invariant sys.Valid() && fresh(sys.Repr()) && {b, ps} !! sys.Repr()
      invariant OnTrack(c, log, Now(b, ps), sys.Abs())
      decreases c.spec.rank(Now(b, ps)), Spinning(c.step, Now(b, ps), Line(sys.Abs()))
    {
      var p, more := NextUp(sys, c, log, Now(b, ps));
      if !more { return; }
      TakeStep(b, ps, k, sys, c, log);
      log := log + [p];
    }
  }

  // ---------------------------------------------------------------------------------------------
  // The schedule: nobody looks in vain, and the last to arrive is the first to arrive at the next wait

  /** A participant goes on without giving up the CPU exactly when it gets through a wait, yields exactly when it is
      then inside the current generation, and returns exactly when it is then gone. */
  lemma GoesOnExactly(n: nat, k: nat, w: Mem, p: nat)
    requires Inv(n, k, w) && p < n && !w.ps[p].Gone?
    ensures var (w', sig) := Turn(k, w, p);
            && (sig.Continues? <==> !w'.ps[p].Gone? && Exited(k, w'.ps[p]) > Exited(k, w.ps[p]))
            && (sig.Yielded? <==> InGeneration(w'.generation)(w'.ps[p]))
            && (sig.Returned? <==> w'.ps[p].Gone?)
  {
    assert PartOk(k, w.generation, w.ps[p]);
  }

  predicate Order(n: nat, line: seq<nat>) { |line| == n && NoDup(line) && Below(line, n) }

  /** The participants `front` are inside generation `g`, the others still in their wait before it (or at the start). */
  function Arrived(n: nat, g: nat, front: seq<nat>): Mem {
    Mem(|front|, g, seq(n, p requires 0 <= p < n => if p in front then Inside(g, g)
                                                    else if g == 0 then Between(0) else Inside(g - 1, g - 1)))
  }

  /** Participant `o` has just opened generation `g`. */
  function Opened(n: nat, g: nat, o: nat): Mem
    requires g >= 1
  {
    Mem(0, g, seq(n, p requires 0 <= p < n => if p == o then Between(g) else Inside(g - 1, g - 1)))
  }

  /** The participants `front` have returned, the others are in their last wait, which is open (or have none). */
  function Leaving(n: nat, k: nat, front: seq<nat>): Mem {
    Mem(0, k, seq(n, p requires 0 <= p < n => if p in front then Gone
                                              else if k == 0 then Between(0) else Inside(k - 1, k - 1)))
  }

  lemma FirstArrives(n: nat, k: nat, g: nat, o: nat)
    requires o < n && 1 <= g < k
    ensures n > 1 ==> TheTurn(k)(Opened(n, g, o), o) == (Arrived(n, g, [o]), Yielded)
    ensures n == 1 ==> TheTurn(k)(Opened(n, g, o), o) == (Opened(n, g + 1, o), Continues)
  {
    var w := Opened(n, g, o);
    assert w.ps[o := Inside(g, g)] == Arrived(n, g, [o]).ps;
    assert n == 1 ==> w.ps[o := Between(g + 1)] == Opened(n, g + 1, o).ps;
  }

  /** A participant that comes out of the wait before and is not the last to arrive. */
  lemma NextArrives(n: nat, k: nat, g: nat, front: seq<nat>, q: nat, mid: Mem)
    requires q < n && q !in front && |front| + 1 < n && 1 <= g < k
    requires mid == Arrived(n, g, front).(ps := Arrived(n, g, front).ps[q := Between(g)])
    ensures TheTurn(k)(Arrived(n, g, front), q) == (mid, Continues)
    ensures TheTurn(k)(mid, q) == (Arrived(n, g, front + [q]), Yielded)
  {
    assert mid.ps[q := Inside(g, g)] == Arrived(n, g, front + [q]).ps;
  }

  lemma LastArrives(n: nat, k: nat, g: nat, front: seq<nat>, q: nat, mid: Mem)
    requires q < n && q !in front && |front| + 1 == n && 1 <= g < k && forall p: nat :: p < n && p != q ==> p in front
    requires mid == Arrived(n, g, front).(ps := Arrived(n, g, front).ps[q := Between(g)])
    ensures TheTurn(k)(Arrived(n, g, front), q) == (mid, Continues)
    ensures TheTurn(k)(mid, q) == (Opened(n, g + 1, q), Continues)
  {
    assert mid.ps[q := Between(g + 1)] == Opened(n, g + 1, q).ps;
  }

  /** At the start nobody comes out of a wait. */
  lemma StartArrives(n: nat, k: nat, front: seq<nat>, q: nat)
    requires q < n && q !in front && k >= 1
    ensures |front| + 1 < n ==> TheTurn(k)(Arrived(n, 0, front), q) == (Arrived(n, 0, front + [q]), Yielded)
    ensures |front| + 1 == n && (forall p: nat :: p < n && p != q ==> p in front) ==>
              TheTurn(k)(Arrived(n, 0, front), q) == (Opened(n, 1, q), Continues)
  {
    var w := Arrived(n, 0, front);
    assert w.ps[q := Inside(0, 0)] == Arrived(n, 0, front + [q]).ps;
    if |front| + 1 == n && (forall p: nat :: p < n && p != q ==> p in front) {
      assert w.ps[q := Between(1)] == Opened(n, 1, q).ps;
    }
  }

  lemma OpenerReturns(n: nat, k: nat, o: nat)
    requires o < n && k >= 1
    ensures TheTurn(k)(Opened(n, k, o), o) == (Leaving(n, k, [o]), Returned)
  {
    assert Opened(n, k, o).ps[o := Gone] == Leaving(n, k, [o]).ps;
  }

  lemma NextReturns(n: nat, k: nat, front: seq<nat>, q: nat, mid: Mem)
    requires q < n && q !in front && k >= 1
    requires mid == Leaving(n, k, front).(ps := Leaving(n, k, front).ps[q := Between(k)])
    ensures TheTurn(k)(Leaving(n, k, front), q) == (mid, Continues)
    ensures TheTurn(k)(mid, q) == (Leaving(n, k, front + [q]), Returned)
  {
    assert mid.ps[q := Gone] == Leaving(n, k, front + [q]).ps;
  }

  lemma ReturnsAtOnce(n: nat, front: seq<nat>, q: nat)
    requires q < n && q !in front
    ensures TheTurn(0)(Leaving(n, 0, front), q) == (Leaving(n, 0, front + [q]), Returned)
  {
    assert Leaving(n, 0, front).ps[q := Gone] == Leaving(n, 0, front + [q]).ps;
  }

  /** Where the line stands when its first `i` members have yielded. */
  lemma LineAt(line: seq<nat>, i: nat)
    requires i < |line|
    ensures var cur := line[i..] + line[..i];
            && cur[0] == line[i] && Moved(cur, Yielded) == line[i + 1..] + line[..i + 1] && Moved(cur, Continues) == cur
            && line[..i] + [line[i]] == line[..i + 1] && |line[..i]| == i
    ensures line[i..][0] == line[i]
    ensures Moved(line[i..], Returned) == line[i + 1..] && Moved(line[i..], Continues) == line[i..]
  {
  }

  lemma MemberAt(n: nat, line: seq<nat>, i: nat)
    requires Order(n, line) && i < n
    ensures line[i] < n && line[i] !in line[..i]
    ensures i + 1 == n ==> forall p: nat :: p < n && p != line[i] ==> p in line[..i]
  {
    if i + 1 == n {
      forall p: nat | p < n && p != line[i] ensures p in line[..i] {
        var j := Inverse(line, n, p);
        assert line[..i][j] == p;
      }
    }
  }

  /** Twice each. */
  function Doubled(line: seq<nat>): seq<nat> {
    if line == [] then [] else Doubled(line[..|line| - 1]) + [line[|line| - 1], line[|line| - 1]]
  }

  lemma DoubledNext(line: seq<nat>, i: nat)
    requires 1 <= i < |line|
    ensures [line[0]] + Doubled(line[1..i + 1]) == ([line[0]] + Doubled(line[1..i]) + [line[i]]) + [line[i]]
  {
    assert line[1..i + 1][..i - 1] == line[1..i] && line[1..i + 1][i - 1] == line[i];
  }

  /** The last of the line comes to its front. */
  function Turned(line: seq<nat>): (r: seq<nat>)
    requires line != []
    ensures |r| == |line|
  {
    [line[|line| - 1]] + line[..|line| - 1]
  }

  lemma TurnedOrder(n: nat, line: seq<nat>)
    requires Order(n, line) && n >= 1
    ensures Order(n, Turned(line)) && line[n - 1..] + line[..n - 1] == Turned(line)
  {
    assert line == line[..n - 1] + [line[n - 1]];
  }

  /** The steps of one generation: the one that opened the wait before arrives in one step, everybody else comes out of
      that wait and arrives at the next. */
  function GenerationLog(line: seq<nat>): seq<nat>
    requires line != []
  {
    [line[0]] + Doubled(line[1..])
  }

  /** The steps of `j` more generations after the one in `line`, the last of them to return. */
  function LaterLog(line: seq<nat>, j: nat): seq<nat>
    requires line != []
    decreases j
  {
    GenerationLog(line) + if j == 0 then [] else LaterLog(Turned(line), j - 1)
  }

  /** The steps of the whole run. */
  function RunLog(n: nat, k: nat): seq<nat>
    requires n >= 1
  {
    Everyone(n) + if k == 0 then [] else LaterLog(Turned(Everyone(n)), k - 1)
  }

  lemma {:induction false} GenerationSteps(n: nat, k: nat, g: nat, line: seq<nat>, i: nat)
    requires Order(n, line) && 1 <= i < n && 1 <= g < k
    requires Good(TheTurn(k), TheSpec(n, k)) && TheSpec(n, k).inv(Opened(n, g, line[0]))
    requires Lined(TheSpec(n, k), Opened(n, g, line[0]), line)
    ensures Leads(TheTurn(k), TheSpec(n, k), Opened(n, g, line[0]), line, [line[0]] + Doubled(line[1..i]),
                  Arrived(n, g, line[..i]), line[i..] + line[..i])
  {
    hide Good, Leads, Lined, TheTurn, TheSpec, Inv, Opened, Moved;
    var turn, spec, w := TheTurn(k), TheSpec(n, k), Opened(n, g, line[0]);
    if i == 1 {
      FirstArrives(n, k, g, line[0]);
      LineAt(line, 0);
      assert line[0..] + line[..0] == line && line[..1] == [line[0]] && line[1..1] == [] && [line[0]] + [] == [line[0]];
      LeadsStep(turn, spec, w, line, line[0], Arrived(n, g, line[..1]), Yielded);
    } else {
      var q, front := line[i - 1], line[..i - 1];
      var a, cur, log := Arrived(n, g, front), line[i - 1..] + front, [line[0]] + Doubled(line[1..i - 1]);
      GenerationSteps(n, k, g, line, i - 1);
      MemberAt(n, line, i - 1);
      LineAt(line, i - 1);
      var mid := a.(ps := a.ps[q := Between(g)]);
      NextArrives(n, k, g, front, q, mid);
      hide Arrived;
      LeadsOn(turn, spec, w, line, log, a, cur, q, mid, Continues);
      LeadsOn(turn, spec, w, line, log + [q], mid, cur, q, Arrived(n, g, line[..i]), Yielded);
      DoubledNext(line, i - 1);
    }
  }

  /** One generation, from one opening to the next. */
  lemma GenerationPasses(n: nat, k: nat, g: nat, line: seq<nat>)
    requires Order(n, line) && n >= 1 && 1 <= g < k
    requires Good(TheTurn(k), TheSpec(n, k)) && TheSpec(n, k).inv(Opened(n, g, line[0]))
    requires Lined(TheSpec(n, k), Opened(n, g, line[0]), line)
    ensures Leads(TheTurn(k), TheSpec(n, k), Opened(n, g, line[0]), line, GenerationLog(line),
                  Opened(n, g + 1, Turned(line)[0]), Turned(line))
  {
    hide Good, Leads, Lined, TheTurn, TheSpec, Inv, Opened, Moved;
    var turn, spec, w := TheTurn(k), TheSpec(n, k), Opened(n, g, line[0]);
    if n == 1 {
      FirstArrives(n, k, g, line[0]);
      LineAt(line, 0);
      assert line[0..] + line[..0] == line && Turned(line) == line && line[1..] == [] && [line[0]] + [] == [line[0]];
      LeadsStep(turn, spec, w, line, line[0], Opened(n, g + 1, line[0]), Continues);
    } else {
      var q, front := line[n - 1], line[..n - 1];
      var a, log := Arrived(n, g, front), [line[0]] + Doubled(line[1..n - 1]);
      GenerationSteps(n, k, g, line, n - 1);
      MemberAt(n, line, n - 1);
      LineAt(line, n - 1);
      TurnedOrder(n, line);
      var cur, mid := Turned(line), a.(ps := a.ps[q := Between(g)]);
      LastArrives(n, k, g, front, q, mid);
      hide Arrived;
      LeadsOn(turn, spec, w, line, log, a, cur, q, mid, Continues);
      LeadsOn(turn, spec, w, line, log + [q], mid, cur, q, Opened(n, g + 1, q), Continues);
      DoubledNext(line, n - 1);
      assert line[1..n] == line[1..];
    }
  }

  lemma {:induction false} ReturnSteps(n: nat, k: nat, line: seq<nat>, i: nat)
    requires Order(n, line) && 1 <= i <= n && k >= 1
    requires Good(TheTurn(k), TheSpec(n, k)) && TheSpec(n, k).inv(Opened(n, k, line[0]))
    requires Lined(TheSpec(n, k), Opened(n, k, line[0]), line)
    ensures Leads(TheTurn(k), TheSpec(n, k), Opened(n, k, line[0]), line, [line[0]] + Doubled(line[1..i]),
                  Leaving(n, k, line[..i]), line[i..])
  {
    hide Good, Leads, Lined, TheTurn, TheSpec, Inv, Opened, Moved;
    var turn, spec, w := TheTurn(k), TheSpec(n, k), Opened(n, k, line[0]);
    if i == 1 {
      OpenerReturns(n, k, line[0]);
      LineAt(line, 0);
      assert line[0..] == line && line[..1] == [line[0]] && line[1..1] == [] && [line[0]] + [] == [line[0]];
      LeadsStep(turn, spec, w, line, line[0], Leaving(n, k, line[..1]), Returned);
    } else {
      var q, front := line[i - 1], line[..i - 1];
      var a, cur, log := Leaving(n, k, front), line[i - 1..], [line[0]] + Doubled(line[1..i - 1]);
      ReturnSteps(n, k, line, i - 1);
      MemberAt(n, line, i - 1);
      LineAt(line, i - 1);
      var mid := a.(ps := a.ps[q := Between(k)]);
      NextReturns(n, k, front, q, mid);
      hide Leaving;
      LeadsOn(turn, spec, w, line, log, a, cur, q, mid, Continues);
      LeadsOn(turn, spec, w, line, log + [q], mid, cur, q, Leaving(n, k, line[..i]), Returned);
      DoubledNext(line, i - 1);
    }
  }

  lemma {:induction false} LaterSteps(n: nat, k: nat, g: nat, line: seq<nat>)
    requires Order(n, line) && n >= 1 && 1 <= g <= k
    requires Good(TheTurn(k), TheSpec(n, k)) && TheSpec(n, k).inv(Opened(n, g, line[0]))
    requires Lined(TheSpec(n, k), Opened(n, g, line[0]), line)
    ensures Fifo(TheTurn(k), TheSpec(n, k), Opened(n, g, line[0]), line).1 == LaterLog(line, k - g)
    decreases k - g
  {
    hide Good, Lined, TheTurn, TheSpec, Inv, Opened, Fifo, Doubled;
    var turn, spec, w := TheTurn(k), TheSpec(n, k), Opened(n, g, line[0]);
    if g < k {
      GenerationPasses(n, k, g, line);
      TurnedOrder(n, line);
      LaterSteps(n, k, g + 1, Turned(line));
    } else {
      ReturnSteps(n, k, line, n);
      assert line[1..n] == line[1..] && line[n..] == [];
      NothingLeft(turn, spec, Leaving(n, k, line[..n]));
    }
  }

  lemma NothingLeft(step: (Mem, nat) -> (Mem, Signal), spec: Spec<Mem>, w: Mem)
    requires Good(step, spec) && spec.inv(w) && Lined(spec, w, [])
    ensures Fifo(step, spec, w, []).1 == []
  {
  }

  lemma {:induction false} StartSteps(n: nat, k: nat, i: nat)
    requires 0 <= i < n && k >= 1
    ensures Leads(TheTurn(k), TheSpec(n, k), Initial(n), Everyone(n), Everyone(n)[..i],
                  Arrived(n, 0, Everyone(n)[..i]), Everyone(n)[i..] + Everyone(n)[..i])
  {
    hide Good, Leads, Lined, TheTurn, TheSpec, Inv, Moved;
    var turn, spec, w, line := TheTurn(k), TheSpec(n, k), Initial(n), Everyone(n);
    if i == 0 {
      IsGood(n, k);
      StartUnfinished(n, k);
      assert line[..0] == [] && line[0..] + line[..0] == line && Arrived(n, 0, []).ps == w.ps;
      LeadsNowhere(turn, spec, w);
    } else {
      StartSteps(n, k, i - 1);
      MemberAt(n, line, i - 1);
      LineAt(line, i - 1);
      StartArrives(n, k, line[..i - 1], i - 1);
      hide Arrived, Initial;
      LeadsOn(turn, spec, w, line, line[..i - 1], Arrived(n, 0, line[..i - 1]), line[i - 1..] + line[..i - 1], i - 1,
              Arrived(n, 0, line[..i]), Yielded);
    }
  }

  lemma StartUnfinished(n: nat, k: nat)
    ensures TheSpec(n, k).n == n && forall p: nat :: p < n ==> !TheSpec(n, k).finished(Initial(n), p)
    ensures TheSpec(n, k).inv(Initial(n)) == Inv(n, k, Initial(n))
  {
  }

  /** The first generation, at which everybody arrives in one step. */
  lemma StartPasses(n: nat, k: nat)
    requires n >= 1 && k >= 1
    ensures Leads(TheTurn(k), TheSpec(n, k), Initial(n), Everyone(n), Everyone(n),
                  Opened(n, 1, n - 1), Turned(Everyone(n)))
  {
    hide Good, Leads, Lined, TheTurn, TheSpec, Inv, Moved, Initial, Opened;
    var turn, spec, w, line := TheTurn(k), TheSpec(n, k), Initial(n), Everyone(n);
    StartSteps(n, k, n - 1);
    MemberAt(n, line, n - 1);
    LineAt(line, n - 1);
    TurnedOrder(n, line);
    StartArrives(n, k, line[..n - 1], n - 1);
    hide Arrived;
    LeadsOn(turn, spec, w, line, line[..n - 1], Arrived(n, 0, line[..n - 1]), Turned(line), n - 1,
            Opened(n, 1, n - 1), Continues);
    assert line[..n] == line;
  }

  lemma {:induction false} NoWaits(n: nat, i: nat)
    requires n >= 1 && i <= n
    ensures Leads(TheTurn(0), TheSpec(n, 0), Initial(n), Everyone(n), Everyone(n)[..i],
                  Leaving(n, 0, Everyone(n)[..i]), Everyone(n)[i..])
  {
    hide Good, Leads, Lined, TheTurn, TheSpec, Inv, Moved;
    var turn, spec, w, line := TheTurn(0), TheSpec(n, 0), Initial(n), Everyone(n);
    if i == 0 {
      IsGood(n, 0);
      StartUnfinished(n, 0);
      assert line[..0] == [] && line[0..] == line && Leaving(n, 0, []).ps == w.ps;
      LeadsNowhere(turn, spec, w);
    } else {
      NoWaits(n, i - 1);
      MemberAt(n, line, i - 1);
      LineAt(line, i - 1);
      ReturnsAtOnce(n, line[..i - 1], i - 1);
      hide Leaving, Initial;
      LeadsOn(turn, spec, w, line, line[..i - 1], Leaving(n, 0, line[..i - 1]), line[i - 1..], i - 1,
              Leaving(n, 0, line[..i]), Returned);
    }
  }

  /** The steps of the run: nobody ever looks in vain, and whoever opens a wait goes on to the next one at once. */
  lemma RunIsRunLog(n: nat, k: nat)
    requires n >= 1
    ensures TheRun(n, k).end.1 == RunLog(n, k)
  {
    hide Good, Lined, Fifo, TheTurn, Inv, Initial, Opened, Leaving, LaterLog;
    var turn, spec, line := TheTurn(k), TheSpec(n, k), Everyone(n);
    if k == 0 {
      NoWaits(n, n);
      assert line[..n] == line && line[n..] == [];
      NothingLeft(turn, spec, Leaving(n, 0, line));
    } else {
      StartPasses(n, k);
      TurnedOrder(n, line);
      LaterSteps(n, k, 1, Turned(line));
    }
  }

  lemma AllGone(n: nat, k: nat, w: Mem)
    requires TheSpec(n, k).inv(w) && AllFinished(TheSpec(n, k), w)
    ensures Inv(n, k, w) && forall p: nat :: p < n ==> w.ps[p].Gone?
  {
    forall p: nat | p < n ensures w.ps[p].Gone? { assert TheSpec(n, k).finished(w, p); }
  }

  /** `main`: under the FIFO scheduler everybody completes all `k` waits, and the barrier opened `k` times; `log` lists
      the steps. */
  method RunBarrier(n: nat, k: nat) returns (b: Barrier, ps: array<Part>, log: seq<nat>)
    requires 1 <= n <= MAX_COROUTINES
    ensures b.total == n && b.generation == k && b.arrived == 0
    ensures ps.Length == n && forall p :: 0 <= p < n ==> ps[p].Gone?
    ensures log == RunLog(n, k)
  {
    b := new Barrier(n);
    ps := new Part[n](_ => Between(0));
    assert ps[..] == Initial(n).ps;
    log := Drive(b, ps, k);
    RunIsRunLog(n, k);
    AllGone(n, k, Now(b, ps));
    CountBounds(ps[..], InGeneration(b.generation));
    assert PartOk(k, b.generation, ps[..][0]);
  }
}
