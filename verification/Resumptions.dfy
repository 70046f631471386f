/**
 What a program's calls cost: how often each coroutine is resumed, and that the calls made are those that the bodies
 name. An await of a coroutine that is DONE costs nothing.
 */
module Resumptions {
  import opened Sequences
  import opened Scheduler
  import opened Programs
  import opened Deadlock
  import opened RoundRobin

  function Is(c: nat): nat -> bool { (x: nat) => x == c }

  function IsYield(): Op -> bool { (op: Op) => op.YieldOp? }

  /** Coroutine `c` is about to make a call of its body that awaits an unfinished coroutine. */
  predicate AboutToBlock(p: Prog, c: nat)
    requires Consistent(p)
  {
    && p.s.running == Some(c) && c < |p.pc| && p.pc[c] < |p.body[c]| && p.body[c][p.pc[c]].AwaitOp?
    && var t := p.body[c][p.pc[c]].target; t < |p.s.co| && !p.s.co[t].Done?
  }

  /** How many awaits of coroutine `c` find their target unfinished, over the whole run. */
  function Blocks(p: Prog, c: nat): nat
    requires Consistent(p)
    decreases Work(p)
  {
    if !Next(p).Go? then 0
    else
      AdvanceDecreasesWork(p);
      (if AboutToBlock(p, c) then 1 else 0) + Blocks(Advance(p), c)
  }

  /** The resumptions that the coroutine's own calls account for: one for each yield, and one if it runs or has
      returned. */
  function Accounted(p: Prog, c: nat): nat
    requires Consistent(p)
  {
    if c >= |p.s.co| then 0
    else
      Count(p.body[c][..p.pc[c]], IsYield()) + (if p.s.co[c].Running? || p.s.co[c].Done? then 1 else 0)
  }

  lemma PrefixCounts(b: Body, pc: nat, f: Op -> bool)
    requires pc < |b|
    ensures Count(b[..pc + 1], f) == Count(b[..pc], f) + (if f(b[pc]) then 1 else 0)
  {
    assert b[..pc + 1][..pc] == b[..pc];
  }

  /** A call by another coroutine. */
  lemma OthersAccount(p: Prog, c: nat)
    requires Consistent(p) && Next(p).Go? && Consistent(Advance(p)) && p.s.running.Some? && p.s.running != Some(c)
    ensures Accounted(Advance(p), c) == Accounted(p, c) && !AboutToBlock(p, c) && Dequeues(p.s, Next(p).act) == []
  {
    hide QueueListsReady, WaitsAreOpen, Count;
    var q := Advance(p);
    if c < |p.s.co| {
      assert q.body[c] == p.body[c] && q.pc[c] == p.pc[c];
    } else if c < |q.s.co| {
      assert q.body[c][..0] == [] && q.pc[c] == 0;
      NothingCounted(q.body[c]);
    }
  }

  lemma NothingCounted(b: Body)
    ensures Count(b[..0], IsYield()) == 0
  {
  }

  /** A resumption. */
  lemma ResumeAccounts(p: Prog, c: nat)
    requires Consistent(p) && Next(p) == Go(Resume) && Consistent(Advance(p))
    ensures Accounted(Advance(p), c) == Accounted(p, c) + Count(Dequeues(p.s, Resume), Is(c)) && !AboutToBlock(p, c)
  {
    HeadIsReady(p.s);
    hide QueueListsReady, WaitsAreOpen;
    var h := p.s.queue[0];
    assert Dequeues(p.s, Resume) == [h] && [h][..0] == [];
  }

  /** A call by the coroutine itself. */
  lemma CallAccounts(p: Prog)
    requires Consistent(p) && Next(p).Go? && Consistent(Advance(p)) && p.s.running.Some?
    ensures var c := p.s.running.value;
            && Accounted(p, c) == Accounted(Advance(p), c) + (if AboutToBlock(p, c) then 1 else 0)
            && Dequeues(p.s, Next(p).act) == []
  {
    var c, q := p.s.running.value, Advance(p);
    assert p.s.co[c].Running?;
    hide QueueListsReady, WaitsAreOpen, Count;
    if p.pc[c] < |p.body[c]| {
      PrefixCounts(p.body[c], p.pc[c], IsYield());
      assert q.body[c][..p.pc[c] + 1] == p.body[c][..p.pc[c] + 1];
    }
  }

  lemma StepAccounts(p: Prog, c: nat)
    requires Consistent(p) && Next(p).Go? && Consistent(Advance(p))
    ensures Count(Dequeues(p.s, Next(p).act), Is(c)) + Accounted(p, c)
            == Accounted(Advance(p), c) + (if AboutToBlock(p, c) then 1 else 0)
  {
    hide Consistent, Accounted, AboutToBlock;
    if Next(p).act.Resume? {
      ResumeAccounts(p, c);
    } else {
      RunnerCalls(p);
      if p.s.running == Some(c) { CallAccounts(p); } else { OthersAccount(p, c); }
    }
  }

  lemma RunnerCalls(p: Prog)
    requires Consistent(p) && Next(p).Go? && !Next(p).act.Resume?
    ensures p.s.running.Some?
  {
  }

  lemma {:induction false} CountConcat<T>(a: seq<T>, b: seq<T>, f: T -> bool)
    ensures Count(a + b, f) == Count(a, f) + Count(b, f)
  {
    if b == [] {
      assert a + b == a;
    } else {
      var n := |b| - 1;
      assert (a + b)[..|a + b| - 1] == a + b[..n];
      CountConcat(a, b[..n], f);
    }
  }

  lemma {:induction false} RunAccounts(p: Prog, c: nat)
    requires Consistent(p)
    ensures Count(ResumeOrder(p), Is(c)) + Accounted(p, c) == Accounted(Final(p), c) + Blocks(p, c)
    decreases Work(p)
  {
    hide Consistent, Accounted, AboutToBlock, ResumeOrder;
    if Next(p).Go? {
      AdvanceDecreasesWork(p);
      StepAccounts(p, c);
      ResumesStep(p);
      CountConcat(Dequeues(p.s, Next(p).act), ResumeOrder(Advance(p)), Is(c));
      RunAccounts(Advance(p), c);
    } else {
      NothingResumed(p);
    }
  }

  lemma NothingResumed(p: Prog)
    requires Consistent(p) && !Next(p).Go?
    ensures ResumeOrder(p) == []
  {
    assert Trace(p) == [];
  }

  /** Every coroutine of every program is resumed once for each yield that it made, once for each await that found its
      target unfinished, and once to run to its end, if it did. An await of a finished coroutine costs nothing. */
  lemma ResumesExactly(bodies: seq<Body>, c: nat)
    requires |bodies| <= MAX_COROUTINES && c < |Final(Start(bodies)).s.co|
    ensures var f := Final(Start(bodies));
            && f.pc[c] <= |f.body[c]|
            && Count(ResumeOrder(Start(bodies)), Is(c))
               == Count(f.body[c][..f.pc[c]], IsYield()) + Blocks(Start(bodies), c)
                  + (if f.s.co[c].Done? || f.s.co[c].Running? then 1 else 0)
            && (f.s.co[c].Done? ==> f.pc[c] == |f.body[c]|)
  {
    var p := Start(bodies);
    RunAccounts(p, c);
    StartAccounts(bodies, c);
    var f := Final(p);
    assert CallsMatch(f.s.co[c], f.body[c], f.pc[c]);
    hide Valid, Blocks, ResumeOrder, Count, Start, Final;
  }

  /** A coroutine that has returned was resumed once, once more for each yield, and once more for each blocking
      await. */
  lemma DoneResumes(bodies: seq<Body>, c: nat)
    requires |bodies| <= MAX_COROUTINES && c < |Final(Start(bodies)).s.co| && Final(Start(bodies)).s.co[c].Done?
    ensures var f := Final(Start(bodies));
            && c < |f.body|
            && Count(ResumeOrder(Start(bodies)), Is(c)) == 1 + Count(f.body[c], IsYield()) + Blocks(Start(bodies), c)
  {
    hide Valid, Blocks, ResumeOrder, Count, Start, Final;
    ResumesExactly(bodies, c);
    var b := Final(Start(bodies)).body[c];
    assert b[..|b|] == b;
  }

  lemma StartAccounts(bodies: seq<Body>, c: nat)
    requires |bodies| <= MAX_COROUTINES
    ensures Accounted(Start(bodies), c) == 0
  {
    if c < |bodies| { NothingCounted(bodies[c]); }
    hide Count, Valid;
  }

  // ---------------------------------------------------------------------------------------------
  // The calls are those that the bodies name

  /** For each coroutine, how many of the calls that it has made satisfy `f`. */
  function Tallies(p: Prog, f: Op -> bool): (r: seq<nat>)
    requires Consistent(p)
    ensures |r| == |p.pc|
  {
    seq(|p.pc|, c requires 0 <= c < |p.pc| =>
      assert CallsMatch(p.s.co[c], p.body[c], p.pc[c]); Count(p.body[c][..p.pc[c]], f))
  }

  function Named(p: Prog, f: Op -> bool): nat
    requires Consistent(p)
  {
    Sum(Tallies(p, f), (x: nat) => x)
  }

  lemma TallyAt(p: Prog, f: Op -> bool, i: nat)
    requires Consistent(p) && Next(p).Go? && Consistent(Advance(p)) && p.s.running.Some? && i < |p.pc|
    requires p.pc[p.s.running.value] < |p.body[p.s.running.value]|
    ensures var c := p.s.running.value;
            && |p.pc| <= |Advance(p).pc|
            && Tallies(Advance(p), f)[i]
               == Tallies(p, f)[i] + (if i == c && f(p.body[c][p.pc[c]]) then 1 else 0)
  {
    var c, q := p.s.running.value, Advance(p);
    hide Valid, Count, CallsMatch;
    if i == c {
      PrefixCounts(p.body[c], p.pc[c], f);
      assert q.body[c][..p.pc[c] + 1] == p.body[c][..p.pc[c] + 1];
    } else {
      assert q.body[i] == p.body[i] && q.pc[i] == p.pc[i];
    }
  }

  lemma NewTally(p: Prog, f: Op -> bool)
    requires Consistent(p) && Next(p).Go? && Consistent(Advance(p)) && p.s.running.Some?
    ensures var m := |p.pc|;
            && |Advance(p).pc| == m + (if Next(p).act.Create? then 1 else 0)
            && (Next(p).act.Create? ==> Tallies(Advance(p), f)[m] == 0)
  {
    hide Valid, Count, CallsMatch;
    if Next(p).act.Create? { NoneCounted(Advance(p).body[|p.pc|], f); }
  }

  lemma TallySums(before: seq<nat>, now: seq<nat>, c: nat, d: nat)
    requires c < |before| <= |now| <= |before| + 1 && (|now| > |before| ==> now[|before|] == 0)
    requires forall i :: 0 <= i < |before| ==> now[i] == before[i] + (if i == c then d else 0)
    ensures Sum(now, (x: nat) => x) == Sum(before, (x: nat) => x) + d
  {
    var v: nat := before[c] + d;
    SumUpdate(before, (x: nat) => x, c, v);
    assert now[..|before|] == before[c := v];
    if |now| == |before| { assert now[..|before|] == now; }
  }

  lemma CallIsNamed(p: Prog, f: Op -> bool)
    requires Consistent(p) && Next(p).Go? && Consistent(Advance(p)) && p.s.running.Some?
    requires p.pc[p.s.running.value] < |p.body[p.s.running.value]|
    ensures var c := p.s.running.value; Named(Advance(p), f) == Named(p, f) + (if f(p.body[c][p.pc[c]]) then 1 else 0)
  {
    var c := p.s.running.value;
    assert c < |p.pc|;
    hide Valid, CallsMatch, Tallies;
    forall i | 0 <= i < |p.pc|
      ensures |p.pc| <= |Advance(p).pc|
      ensures Tallies(Advance(p), f)[i] == Tallies(p, f)[i] + (if i == c && f(p.body[c][p.pc[c]]) then 1 else 0)
    {
      TallyAt(p, f, i);
    }
    NewTally(p, f);
    hide Advance;
    TallySums(Tallies(p, f), Tallies(Advance(p), f), c, if f(p.body[c][p.pc[c]]) then 1 else 0);
  }

  lemma NoneCounted(b: Body, f: Op -> bool)
    ensures Count(b[..0], f) == 0
  {
  }

  lemma OtherStepsNameNothing(p: Prog, f: Op -> bool)
    requires Consistent(p) && Next(p).Go? && Consistent(Advance(p)) && (Next(p).act.Resume? || Next(p).act.Finish?)
    ensures Named(Advance(p), f) == Named(p, f)
  {
    hide Valid, Count;
    assert Tallies(Advance(p), f) == Tallies(p, f);
  }

  lemma StepIsNamed(p: Prog)
    requires Consistent(p) && Next(p).Go? && Consistent(Advance(p))
    ensures Named(Advance(p), IsYield()) == Named(p, IsYield()) + (if Next(p).act.Yield? then 1 else 0)
    ensures Named(Advance(p), IsCreate()) == Named(p, IsCreate()) + (if Next(p).act.Create? then 1 else 0)
  {
    hide Named;
    if Next(p).act.Resume? || Next(p).act.Finish? {
      hide Consistent;
      OtherStepsNameNothing(p, IsYield());
      OtherStepsNameNothing(p, IsCreate());
    } else {
      CallIsNamed(p, IsYield());
      CallIsNamed(p, IsCreate());
    }
  }

  lemma {:induction false} RunIsNamed(p: Prog)
    requires Consistent(p)
    ensures Legal(p.s, Trace(p))
    ensures var t := Totals(p.s, Trace(p));
            && Named(Final(p), IsYield()) == Named(p, IsYield()) + t.yielded
            && Named(Final(p), IsCreate()) == Named(p, IsCreate()) + t.created
    decreases Work(p)
  {
    hide Consistent, Named;
    TraceIsLegal(p);
    if Next(p).Go? {
      AdvanceDecreasesWork(p);
      StepIsNamed(p);
      RunIsNamed(Advance(p));
      assert Trace(p)[0] == Next(p).act && Trace(p)[1..] == Trace(Advance(p));
    }
  }

  lemma {:induction false} TotalsConcat(s: State, a: seq<Action>, b: seq<Action>)
    requires Legal(s, a) && Legal(Exec(s, a), b)
    ensures Legal(s, a + b)
    ensures var t, x, y := Totals(s, a + b), Totals(s, a), Totals(Exec(s, a), b);
            t.yielded == x.yielded + y.yielded && t.created == x.created + y.created
    decreases |a|
  {
    ExecConcat(s, a, b);
    if a == [] {
      assert a + b == b;
    } else {
      assert (a + b)[0] == a[0] && (a + b)[1..] == a[1..] + b;
      TotalsConcat(Step(s, a[0]), a[1..], b);
    }
  }

  lemma {:induction false} CreatesTally(k: nat, n: nat)
    requires k + n <= MAX_COROUTINES
    ensures Legal(Created(k), Creates(n))
    ensures Totals(Created(k), Creates(n)).created == n && Totals(Created(k), Creates(n)).yielded == 0
    decreases n
  {
    CreatedByCalls(k, n);
    if n > 0 {
      assert Step(Created(k), Create) == Created(k + 1) && Creates(n)[1..] == Creates(n - 1);
      CreatesTally(k + 1, n - 1);
    }
  }

  lemma StartNamesNothing(bodies: seq<Body>, f: Op -> bool)
    requires |bodies| <= MAX_COROUTINES
    ensures Named(Start(bodies), f) == 0
  {
    forall c | 0 <= c < |bodies| ensures Tallies(Start(bodies), f)[c] == 0 { NoneCounted(bodies[c], f); }
    SumZero(Tallies(Start(bodies), f), (x: nat) => x);
  }

  /** Over the whole run of every program, the yields are the `YieldOp`s that the coroutines passed in their bodies, and
      the creations those of `main` and the `CreateOp`s that they passed. */
  lemma CallsAreNamed(bodies: seq<Body>)
    requires |bodies| <= MAX_COROUTINES
    ensures Legal(Init, WholeRun(bodies))
    ensures var t, f := Totals(Init, WholeRun(bodies)), Final(Start(bodies));
            t.yielded == Named(f, IsYield()) && t.created == |bodies| + Named(f, IsCreate())
  {
    hide Valid, Named;
    var n, p := |bodies|, Start(bodies);
    CreatedByCalls(0, n);
    CreatesTally(0, n);
    assert Created(0) == Init;
    RunIsNamed(p);
    TotalsConcat(Init, Creates(n), Trace(p));
    StartNamesNothing(bodies, IsYield());
    StartNamesNothing(bodies, IsCreate());
  }

  // ---------------------------------------------------------------------------------------------
  // Awaits of coroutines that were created before

  /** The bodies only await, and only coroutines that were created before, as in a chain that is created from its
      end. */
  predicate Backward(bodies: seq<Body>) {
    forall c: nat, j: nat :: c < |bodies| && j < |bodies[c]| ==> bodies[c][j].AwaitOp? && bodies[c][j].target < c
  }

  /** The first `c` coroutines have returned; coroutine `c` has made `j` calls if it runs. */
  function Between(bodies: seq<Body>, c: nat, runs: bool, j: nat): Prog
    requires c <= |bodies| && (runs ==> c < |bodies|)
  {
    var n := |bodies|;
    var from := if runs then c + 1 else c;
    Prog(State(seq(n, i requires 0 <= i < n => if i < c then Done else if i == c && runs then Running else Ready),
               seq(n - from, i requires 0 <= i => from + i), if runs then Some(c) else None),
         bodies, seq(n, i requires 0 <= i < n => if i < c then |bodies[i]| else if i == c then j else 0))
  }

  lemma BetweenConsistent(bodies: seq<Body>, c: nat, runs: bool, j: nat)
    requires |bodies| <= MAX_COROUTINES && c <= |bodies|
    requires if runs then c < |bodies| && j <= |bodies[c]| else j == 0
    ensures Consistent(Between(bodies, c, runs, j))
  {
    var p := Between(bodies, c, runs, j);
    var from := if runs then c + 1 else c;
    forall i: nat | i < |bodies| && p.s.co[i].Ready? ensures i in p.s.queue { assert p.s.queue[i - from] == i; }
  }

  lemma BackwardResumes(bodies: seq<Body>, c: nat)
    requires |bodies| <= MAX_COROUTINES && c < |bodies|
    ensures Consistent(Between(bodies, c, false, 0)) && Next(Between(bodies, c, false, 0)) == Go(Resume)
    ensures Advance(Between(bodies, c, false, 0)) == Between(bodies, c, true, 0)
    ensures Dequeues(Between(bodies, c, false, 0).s, Resume) == [c]
  {
    BetweenConsistent(bodies, c, false, 0);
    hide Consistent;
    var p, q := Between(bodies, c, false, 0), Between(bodies, c, true, 0);
    assert p.s.queue[0] == c && p.s.queue[1..] == q.s.queue && p.s.co[c := Running] == q.s.co && p.pc == q.pc;
  }

  lemma BackwardAwaits(bodies: seq<Body>, c: nat, j: nat)
    requires |bodies| <= MAX_COROUTINES && Backward(bodies) && c < |bodies| && j < |bodies[c]|
    ensures Consistent(Between(bodies, c, true, j)) && Next(Between(bodies, c, true, j)).Go?
    ensures Advance(Between(bodies, c, true, j)) == Between(bodies, c, true, j + 1)
    ensures Dequeues(Between(bodies, c, true, j).s, Next(Between(bodies, c, true, j)).act) == []
  {
    BetweenConsistent(bodies, c, true, j);
    hide Consistent;
    var p, q := Between(bodies, c, true, j), Between(bodies, c, true, j + 1);
    assert bodies[c][j].AwaitOp? && p.s.co[bodies[c][j].target].Done?;
    assert p.pc[c := j + 1] == q.pc && p.s == q.s;
  }

  lemma BackwardReturns(bodies: seq<Body>, c: nat)
    requires |bodies| <= MAX_COROUTINES && c < |bodies|
    ensures var p := Between(bodies, c, true, |bodies[c]|);
            && Consistent(p) && Next(p) == Go(Finish) && Advance(p) == Between(bodies, c + 1, false, 0)
            && Dequeues(p.s, Finish) == []
  {
    BetweenConsistent(bodies, c, true, |bodies[c]|);
    hide Consistent;
    var p, q := Between(bodies, c, true, |bodies[c]|), Between(bodies, c + 1, false, 0);
    var co := p.s.co[c := Done];
    NobodyWaits(co, c);
    assert co == q.s.co && p.s.queue == q.s.queue && p.pc == q.pc;
  }

  lemma {:induction false} BackwardRuns(bodies: seq<Body>, c: nat, j: nat)
    requires |bodies| <= MAX_COROUTINES && Backward(bodies) && c < |bodies| && j <= |bodies[c]|
    ensures Consistent(Between(bodies, c, true, j)) && Consistent(Between(bodies, c + 1, false, 0))
    ensures ResumeOrder(Between(bodies, c, true, j)) == ResumeOrder(Between(bodies, c + 1, false, 0))
    decreases |bodies[c]| - j
  {
    hide Consistent, Between, ResumeOrder, Backward;
    BetweenConsistent(bodies, c + 1, false, 0);
    if j < |bodies[c]| {
      BackwardAwaits(bodies, c, j);
      BackwardRuns(bodies, c, j + 1);
    } else {
      BackwardReturns(bodies, c);
    }
    ResumesStep(Between(bodies, c, true, j));
  }

  /** The numbers from `c` to `n - 1`. */
  function UpFrom(c: nat, n: nat): seq<nat>
    requires c <= n
    decreases n - c
  {
    if c == n then [] else [c] + UpFrom(c + 1, n)
  }

  lemma AllReturned(bodies: seq<Body>)
    requires Consistent(Between(bodies, |bodies|, false, 0))
    ensures Next(Between(bodies, |bodies|, false, 0)).Halt?
  {
    hide Consistent;
  }

  lemma StartIsBetween(bodies: seq<Body>)
    requires |bodies| <= MAX_COROUTINES
    ensures Start(bodies) == Between(bodies, 0, false, 0)
  {
    hide Consistent;
    var p, q := Start(bodies), Between(bodies, 0, false, 0);
    assert p.s.co == q.s.co && p.s.queue == q.s.queue && p.pc == q.pc;
  }

  lemma {:induction false} BackwardOrder(bodies: seq<Body>, c: nat)
    requires |bodies| <= MAX_COROUTINES && Backward(bodies) && c <= |bodies|
    ensures Consistent(Between(bodies, c, false, 0))
    ensures ResumeOrder(Between(bodies, c, false, 0)) == UpFrom(c, |bodies|)
    decreases |bodies| - c
  {
    hide Consistent, Between, ResumeOrder, Backward;
    BetweenConsistent(bodies, c, false, 0);
    if c == |bodies| {
      AllReturned(bodies);
      NothingResumed(Between(bodies, c, false, 0));
    } else {
      BackwardResumes(bodies, c);
      BackwardRuns(bodies, c, 0);
      ResumesStep(Between(bodies, c, false, 0));
      BackwardOrder(bodies, c + 1);
    }
  }

  /** If every await is of a coroutine that was created before, nobody ever waits: each coroutine is resumed exactly
      once, in the order of creation. The await chain of the stress test is created like this. */
  lemma BackwardRunsOnce(bodies: seq<Body>)
    requires |bodies| <= MAX_COROUTINES && Backward(bodies)
    ensures ResumeOrder(Start(bodies)) == UpFrom(0, |bodies|)
  {
    hide ResumeOrder, Consistent, Between, Start, Backward;
    BackwardOrder(bodies, 0);
    StartIsBetween(bodies);
  }
}
