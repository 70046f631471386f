/** examples/task_graph.c: tasks run as coroutines once the tasks they depend on have finished. */
module TaskGraph {
  import opened Sequences
  import opened Graphs
  import opened Scheduler
  import opened Runtime
  import opened RoundRobin

  /** `deps[t]` is the task's dependency list as it was built, with any ids, duplicates and ids of no task included;
      `work[t]` is how often its work function yields. */
  datatype Plan = Plan(deps: seq<seq<int>>, work: seq<nat>)

  predicate IsPlan(g: Plan) { |g.work| == |g.deps| }

  /** Not spawned yet; running with `left` yields to go; finished. */
  datatype Phase = Idle | Live(left: nat) | Over

  /** `remaining` is the array of `deps_remaining`; `spawned` lists the tasks in the order of their `co_create`,
      `done` in the order in which they finished. */
  datatype Mem = Mem(remaining: seq<int>, phase: seq<Phase>, spawned: seq<nat>, done: seq<nat>)

  /** The tasks without dependencies. */
  function RootsOf(deps: seq<seq<int>>): seq<nat> { Select(|deps|, (t: nat) => t < |deps| && deps[t] == []) }

  /** The roots are spawned by `main`, after `task_graph_finalize`. */
  function Initial(g: Plan): Mem
    requires IsPlan(g)
  {
    var n := |g.deps|;
    Mem(seq(n, t requires 0 <= t < n => |g.deps[t]|),
        seq(n, t requires 0 <= t < n => if g.deps[t] == [] then Live(g.work[t]) else Idle),
        RootsOf(g.deps), [])
  }

  predicate Sized(g: Plan, w: Mem) {
    IsPlan(g) && |w.remaining| == |w.phase| == |g.deps|
  }

  /** Task `t` is spawned because `self` finished. */
  predicate Released(g: Plan, w: Mem, self: nat, t: nat) {
    Sized(g, w) && t < |g.deps| && self in g.deps[t] && w.remaining[t] == 1
  }

  /** `task_coroutine` from the end of its work function on. */
  function Complete(g: Plan, w: Mem, self: nat): Mem
    requires Sized(g, w) && self < |g.deps|
  {
    var n := |g.deps|;
    Mem(seq(n, t requires 0 <= t < n => if self in g.deps[t] then w.remaining[t] - 1 else w.remaining[t]),
        seq(n, t requires 0 <= t < n =>
          if Released(g, w, self, t) then Live(g.work[t]) else if t == self then Over else w.phase[t]),
        w.spawned + Select(n, (t: nat) => Released(g, w, self, t)),
        w.done + [self])
  }

  /** One turn of a spawned task. */
  function Turn(g: Plan, w: Mem, t: nat): Mem
    requires Sized(g, w) && t < |g.deps| && w.phase[t].Live?
  {
    if w.phase[t].left > 0 then w.(phase := w.phase[t := Live(w.phase[t].left - 1)])
    else Complete(g, w, t)
  }

  // ---------------------------------------------------------------------------------------------
  // What every run keeps

  function AsSet(xs: seq<int>): set<int> { set x | x in xs }

  lemma {:induction false} SetSize(xs: seq<int>)
    ensures |AsSet(xs)| <= |xs|
    ensures |AsSet(xs)| == |xs| <==> NoDup(xs)
  {
    if xs != [] {
      var n := |xs| - 1;
      SetSize(xs[..n]);
      assert AsSet(xs) == AsSet(xs[..n]) + {xs[n]};
      assert xs == xs[..n] + [xs[n]];
    }
  }

  /** `d` is the id of a task that has finished. */
  predicate HasFinished(w: Mem, d: int) { 0 <= d < |w.phase| && w.phase[d].Over? }

  function FinishedDeps(g: Plan, w: Mem, t: nat): set<int>
    requires Sized(g, w) && t < |g.deps|
  {
    set d | d in g.deps[t] && HasFinished(w, d)
  }

  ghost predicate Accounts(g: Plan, w: Mem) {
    && Sized(g, w)
    && forall t: nat :: t < |g.deps| ==>
                          && w.remaining[t] == |g.deps[t]| - |FinishedDeps(g, w, t)|
                          && (w.phase[t].Idle? <==> w.remaining[t] > 0)
  }

  /** Task `t` has no duplicate dependency and all its dependencies are in `earlier`. */
  predicate FinishedAfter(g: Plan, earlier: seq<nat>, t: nat)
    requires t < |g.deps|
  {
    NoDup(g.deps[t]) && forall d :: d in g.deps[t] ==> 0 <= d && d in earlier
  }

  ghost predicate Orders(g: Plan, w: Mem) {
    && Sized(g, w)
    && NoDup(w.spawned) && NoDup(w.done)
    && (forall t: nat :: t in w.spawned <==> t < |g.deps| && !w.phase[t].Idle?)
    && (forall t: nat :: t in w.done <==> t < |g.deps| && w.phase[t].Over?)
    && forall k: nat :: k < |w.done| ==> w.done[k] < |g.deps| && FinishedAfter(g, w.done[..k], w.done[k])
  }

  ghost predicate Inv(g: Plan, w: Mem)
    ensures Inv(g, w) ==> Sized(g, w)
  {
    Accounts(g, w) && Orders(g, w)
  }

  /** A spawned task has a duplicate-free list of dependencies, all of them finished. */
  lemma SpawnedIsReady(g: Plan, w: Mem, t: nat)
    requires Accounts(g, w) && t < |g.deps| && !w.phase[t].Idle?
    ensures NoDup(g.deps[t]) && FinishedDeps(g, w, t) == AsSet(g.deps[t])
    ensures forall d :: d in g.deps[t] ==> HasFinished(w, d)
  {
    var f, a := FinishedDeps(g, w, t), AsSet(g.deps[t]);
    SetSize(g.deps[t]);
    assert f <= a;
    SubsetSize(f, a);
    assert f == a;
    forall d | d in g.deps[t] ensures HasFinished(w, d) { assert d in a; }
  }

  lemma {:induction false} SubsetSize(a: set<int>, b: set<int>)
    requires a <= b
    ensures |a| <= |b| && (|a| == |b| ==> a == b)
  {
    assert b == a + (b - a);
    assert |b| == |a| + |b - a|;
  }

  lemma CompletePhases(g: Plan, w: Mem, self: nat, t: nat)
    requires Accounts(g, w) && self < |g.deps| && w.phase[self].Live? && t < |g.deps|
    ensures Complete(g, w, self).phase[t].Over? <==> w.phase[t].Over? || t == self
    ensures Complete(g, w, self).phase[t].Idle? <==> w.phase[t].Idle? && !Released(g, w, self, t)
  {
    if Released(g, w, self, t) { assert w.phase[t].Idle?; }
  }

  lemma CompleteKeepsAccount(g: Plan, w: Mem, self: nat, t: nat)
    requires Accounts(g, w) && self < |g.deps| && w.phase[self].Live? && t < |g.deps|
    ensures var w' := Complete(g, w, self);
            && w'.remaining[t] == |g.deps[t]| - |FinishedDeps(g, w', t)|
            && (w'.phase[t].Idle? <==> w'.remaining[t] > 0)
  {
    var w' := Complete(g, w, self);
    var f, f' := FinishedDeps(g, w, t), FinishedDeps(g, w', t);
    forall d: nat | d < |g.deps| ensures w'.phase[d].Over? <==> w.phase[d].Over? || d == self {
      CompletePhases(g, w, self, d);
    }
    CompletePhases(g, w, self, t);
    assert f' == if self in g.deps[t] then f + {self} else f;
    assert self !in f;
    SubsetSize(f', AsSet(g.deps[t]));
    SetSize(g.deps[t]);
  }

  lemma CompleteKeepsOrders(g: Plan, w: Mem, self: nat)
    requires Inv(g, w) && self < |g.deps| && w.phase[self].Live?
    ensures Orders(g, Complete(g, w, self))
  {
    var w', n := Complete(g, w, self), |g.deps|;
    var news := Select(n, (t: nat) => Released(g, w, self, t));
    SelectSpec(n, (t: nat) => Released(g, w, self, t));
    SpawnedIsReady(g, w, self);
    forall t | t in news ensures t < n && Released(g, w, self, t) && w.phase[t].Idle? { }
    NoDupConcat(w.spawned, news);
    NoDupConcat(w.done, [self]);
    forall t: nat | t < n ensures w'.phase[t].Over? <==> w.phase[t].Over? || t == self {
      CompletePhases(g, w, self, t);
    }
    forall k: nat | k < |w'.done| ensures w'.done[k] < n && FinishedAfter(g, w'.done[..k], w'.done[k]) {
      assert w'.done[..k] == w.done[..k];
      if k == |w.done| { assert w.done[..k] == w.done; }
    }
  }

  lemma TurnKeepsInv(g: Plan, w: Mem, t: nat)
    requires Inv(g, w) && t < |g.deps| && w.phase[t].Live?
    ensures Inv(g, Turn(g, w, t))
  {
    var w' := Turn(g, w, t);
    if w.phase[t].left > 0 {
      forall i: nat | i < |g.deps| ensures FinishedDeps(g, w', i) == FinishedDeps(g, w, i) { }
    } else {
      forall i: nat | i < |g.deps|
        ensures && w'.remaining[i] == |g.deps[i]| - |FinishedDeps(g, w', i)|
                && (w'.phase[i].Idle? <==> w'.remaining[i] > 0)
      {
        CompleteKeepsAccount(g, w, t, i);
      }
      CompleteKeepsOrders(g, w, t);
    }
  }

  lemma InitialInv(g: Plan)
    requires IsPlan(g)
    ensures Inv(g, Initial(g))
  {
    var w, n := Initial(g), |g.deps|;
    SelectSpec(n, (t: nat) => t < |g.deps| && g.deps[t] == []);
    forall t: nat | t < n ensures FinishedDeps(g, w, t) == {} { }
  }

  // ---------------------------------------------------------------------------------------------
  // Any run

  /** The spawned tasks named in `order` take one turn each. */
  function Exec(g: Plan, w: Mem, order: seq<nat>): Mem
    requires Sized(g, w)
    decreases |order|
  {
    if order == [] then w
    else
      var t := order[0];
      var w' := if t < |g.deps| && w.phase[t].Live? then Turn(g, w, t) else w;
      Exec(g, w', order[1..])
  }

  lemma {:induction false} ExecKeepsInv(g: Plan, w: Mem, order: seq<nat>)
    requires Inv(g, w)
    ensures Inv(g, Exec(g, w, order))
    decreases |order|
  {
    if order != [] {
      var t := order[0];
      if t < |g.deps| && w.phase[t].Live? {
        TurnKeepsInv(g, w, t);
        ExecKeepsInv(g, Turn(g, w, t), order[1..]);
      } else {
        ExecKeepsInv(g, w, order[1..]);
      }
    }
  }

  function UnfinishedDeps(g: Plan, w: Mem, t: nat): set<int>
    requires Sized(g, w) && t < |g.deps|
  {
    set d | d in g.deps[t] && !HasFinished(w, d)
  }

  /** In every run: a task is spawned at most once and only when all its dependencies have finished; and
      `deps_remaining` is the number of unfinished dependencies if and only if the list has no duplicates. */
  lemma AnyRun(g: Plan, order: seq<nat>, t: nat)
    requires IsPlan(g) && t < |g.deps|
    ensures var w := Exec(g, Initial(g), order);
            && Sized(g, w) && NoDup(w.spawned)
            && (t in w.spawned ==> forall d :: d in g.deps[t] ==> HasFinished(w, d))
            && (w.remaining[t] == |UnfinishedDeps(g, w, t)| <==> NoDup(g.deps[t]))
  {
    InitialInv(g);
    ExecKeepsInv(g, Initial(g), order);
    var w := Exec(g, Initial(g), order);
    hide Exec, Initial;
    if t in w.spawned { SpawnedIsReady(g, w, t); }
    RemainingExactly(g, w, t);
  }

  lemma RemainingExactly(g: Plan, w: Mem, t: nat)
    requires Accounts(g, w) && t < |g.deps|
    ensures w.remaining[t] == |UnfinishedDeps(g, w, t)| <==> NoDup(g.deps[t])
  {
    var f, u := FinishedDeps(g, w, t), UnfinishedDeps(g, w, t);
    assert w.remaining[t] == |g.deps[t]| - |f|;
    assert AsSet(g.deps[t]) == f + u && f !! u;
    hide Accounts, AsSet, FinishedDeps, UnfinishedDeps;
    assert |f + u| == |f| + |u|;
    SetSize(g.deps[t]);
  }

  /** A task that lists a dependency twice, or one that is no task, is never spawned, in any run: the inner loop
      breaks at its first match, and nobody finishes for an unknown id, so the counter cannot reach zero. */
  lemma BlockedNeverRuns(g: Plan, order: seq<nat>, t: nat)
    requires IsPlan(g) && t in Blocked(g)
    ensures var w := Exec(g, Initial(g), order); Sized(g, w) && w.phase[t].Idle? && t !in w.spawned
  {
    InitialInv(g);
    ExecKeepsInv(g, Initial(g), order);
    var w := Exec(g, Initial(g), order);
    hide Exec, Initial;
    if !w.phase[t].Idle? { SpawnedIsReady(g, w, t); }
  }

  /** The smallest such plan: its one dependency has finished, and the task still waits. */
  lemma DuplicateExample()
    ensures var g := Plan([[], [0, 0]], [0, 0]);
            IsPlan(g) && Exec(g, Initial(g), [0]).phase == [Over, Idle] && Quiescent(Exec(g, Initial(g), [0]))
  {
    var g := Plan([[], [0, 0]], [0, 0]);
    var w := Initial(g);
    assert g.deps[0] == [] && g.deps[1] == [0, 0];
    assert Exec(g, w, [0]) == Turn(g, w, 0) by { assert [0][1..] == []; }
    assert Turn(g, w, 0).phase == [Over, Idle];
  }

  // ---------------------------------------------------------------------------------------------
  // Quiescence

  /** From each task to the tasks that it depends on. */
  function DepGraph(g: Plan): (r: Graph)
    ensures |r| == |g.deps|
    ensures forall t, d: nat :: 0 <= t < |g.deps| ==> (d in r[t] <==> d in g.deps[t] && d < |g.deps|)
  {
    seq(|g.deps|, t requires 0 <= t < |g.deps| => set d: nat | d in g.deps[t] && d < |g.deps|)
  }

  /** The tasks whose list names a dependency twice or an id that is no task. */
  function Blocked(g: Plan): set<nat> {
    set t: nat | t < |g.deps| && !(NoDup(g.deps[t]) && forall d :: d in g.deps[t] ==> 0 <= d < |g.deps|)
  }

  predicate Quiescent(w: Mem) { forall t: nat :: t < |w.phase| ==> !w.phase[t].Live? }

  /** When no task can run any more, the finished tasks are exactly those from which neither a dependency cycle
      nor a task with a duplicated or unknown dependency can be reached. */
  lemma QuiescentExactly(g: Plan, w: Mem, t: nat)
    requires Inv(g, w) && Quiescent(w) && t < |g.deps|
    ensures w.phase[t].Over? <==> !ReachesCycleOr(DepGraph(g), Blocked(g), t)
  {
    var dg, bad := DepGraph(g), Blocked(g);
    if w.phase[t].Over? {
      forall k: nat | k < |w.done|
        ensures w.done[k] < |dg| && w.done[k] !in bad && forall v :: v in dg[w.done[k]] ==> v in w.done[..k]
      {
        assert FinishedAfter(g, w.done[..k], w.done[k]);
      }
      assert CompletionOrder(dg, bad, w.done);
      CompletedAreSafe(dg, bad, w.done, t);
    } else {
      var x := set i: nat | i < |g.deps| && !w.phase[i].Over?;
      forall i | i in x ensures i in bad || dg[i] * x != {} {
        assert w.phase[i].Idle?;
        SetSize(g.deps[i]);
        if i !in bad {
          var u :| u in AsSet(g.deps[i]) && u !in FinishedDeps(g, w, i) by { IdleHasUnfinished(g, w, i); }
          assert u in dg[i] * x;
        }
      }
      TrappedInside(dg, bad, x, t);
    }
  }

  lemma IdleHasUnfinished(g: Plan, w: Mem, t: nat)
    requires Accounts(g, w) && t < |g.deps| && w.phase[t].Idle? && NoDup(g.deps[t])
    ensures exists u :: u in AsSet(g.deps[t]) && u !in FinishedDeps(g, w, t)
  {
    SetSize(g.deps[t]);
    if AsSet(g.deps[t]) <= FinishedDeps(g, w, t) {
      SubsetSize(AsSet(g.deps[t]), FinishedDeps(g, w, t));
      assert false;
    }
  }

  /** On an acyclic graph without duplicated or unknown dependencies every task finishes. */
  lemma DagCompletes(g: Plan, w: Mem, rank: seq<nat>, t: nat)
    requires Inv(g, w) && Quiescent(w) && t < |g.deps|
    requires RankedBy(DepGraph(g), rank) && Blocked(g) == {}
    ensures w.phase[t].Over?
  {
    QuiescentExactly(g, w, t);
    RankedIsAcyclic(DepGraph(g), rank, t);
  }

  // ---------------------------------------------------------------------------------------------
  // Termination

  function PhaseRank(work: nat, x: Phase): nat {
    match x case Idle => work + 2 case Live(l) => l + 1 case Over => 0
  }

  function Ranks(g: Plan, w: Mem): seq<nat>
    requires Sized(g, w)
  {
    seq(|g.deps|, t requires 0 <= t < |g.deps| => PhaseRank(g.work[t], w.phase[t]))
  }

  function Rank(g: Plan, w: Mem): nat
    requires Sized(g, w)
  {
    Sum(Ranks(g, w), (x: nat) => x)
  }

  lemma {:induction false} SumBelow(xs: seq<nat>, ys: seq<nat>, i: nat)
    requires |xs| == |ys| && i < |xs| && xs[i] < ys[i]
    requires forall j :: 0 <= j < |xs| ==> xs[j] <= ys[j]
    ensures Sum(xs, (x: nat) => x) < Sum(ys, (x: nat) => x)
  {
    var n := |xs| - 1;
    if i < n {
      SumBelow(xs[..n], ys[..n], i);
    } else {
      SumAtMost(xs[..n], ys[..n]);
    }
  }

  lemma {:induction false} SumAtMost(xs: seq<nat>, ys: seq<nat>)
    requires |xs| == |ys| && forall j :: 0 <= j < |xs| ==> xs[j] <= ys[j]
    ensures Sum(xs, (x: nat) => x) <= Sum(ys, (x: nat) => x)
  {
    if xs != [] { SumAtMost(xs[..|xs| - 1], ys[..|ys| - 1]); }
  }

  lemma TurnDecreasesRank(g: Plan, w: Mem, t: nat)
    requires Accounts(g, w) && t < |g.deps| && w.phase[t].Live?
    ensures Rank(g, Turn(g, w, t)) < Rank(g, w)
  {
    SumBelow(Ranks(g, Turn(g, w, t)), Ranks(g, w), t);
  }

  // ---------------------------------------------------------------------------------------------
  // Every task does its work

  /** How many turns task `t` has taken. */
  function Taken(g: Plan, w: Mem, t: nat): int
    requires Sized(g, w) && t < |g.deps|
  {
    match w.phase[t]
    case Idle => 0
    case Live(left) => g.work[t] - left
    case Over => g.work[t] + 1
  }

  lemma TurnIsTaken(g: Plan, w: Mem, t: nat, u: nat)
    requires Accounts(g, w) && t < |g.deps| && w.phase[t].Live? && u < |g.deps|
    ensures Taken(g, Turn(g, w, t), u) == Taken(g, w, u) + (if u == t then 1 else 0)
  {
    if w.phase[t].left == 0 { CompletePhases(g, w, t, u); }
  }

  /** The places of `order` at which task `t` takes a turn. */
  function Turns(g: Plan, w: Mem, order: seq<nat>, t: nat): nat
    requires Sized(g, w)
    decreases |order|
  {
    if order == [] then 0
    else
      var p := order[0];
      if p < |g.deps| && w.phase[p].Live? then
        (if p == t then 1 else 0) + Turns(g, Turn(g, w, p), order[1..], t)
      else Turns(g, w, order[1..], t)
  }

  lemma {:induction false} TurnsAdd(g: Plan, w: Mem, order: seq<nat>, t: nat)
    requires Inv(g, w) && t < |g.deps|
    ensures Sized(g, Exec(g, w, order)) && Taken(g, Exec(g, w, order), t) == Taken(g, w, t) + Turns(g, w, order, t)
    decreases |order|
  {
    if order != [] {
      var p := order[0];
      if p < |g.deps| && w.phase[p].Live? {
        TurnKeepsInv(g, w, p);
        TurnIsTaken(g, w, p, t);
        hide Inv, Turn;
        TurnsAdd(g, Turn(g, w, p), order[1..], t);
      } else {
        TurnsAdd(g, w, order[1..], t);
      }
    }
  }

  /** In every run, a task takes no turn before it is spawned, one for each yield of its work function while it runs,
      and one more with which it finishes. */
  lemma WorkIsDone(g: Plan, order: seq<nat>, t: nat)
    requires IsPlan(g) && t < |g.deps|
    ensures var w := Exec(g, Initial(g), order);
            && Sized(g, w)
            && Turns(g, Initial(g), order, t) == match w.phase[t] case Idle => 0
                                                                  case Live(left) => g.work[t] - left
                                                                  case Over => g.work[t] + 1
  {
    InitialInv(g);
    TurnsAdd(g, Initial(g), order, t);
    assert Taken(g, Initial(g), t) == 0;
    hide Exec, Turns, Initial;
  }

  lemma {:induction false} ExecSnoc(g: Plan, w: Mem, order: seq<nat>, t: nat)
    requires Inv(g, w)
    ensures var w' := Exec(g, w, order);
            && Sized(g, w')
            && Exec(g, w, order + [t]) == if t < |g.deps| && w'.phase[t].Live? then Turn(g, w', t) else w'
    decreases |order|
  {
    if order == [] {
      assert order + [t] == [t] && [t][1..] == [];
    } else {
      var p := order[0];
      assert (order + [t])[0] == p && (order + [t])[1..] == order[1..] + [t];
      if p < |g.deps| && w.phase[p].Live? {
        TurnKeepsInv(g, w, p);
        hide Inv, Turn;
        ExecSnoc(g, Turn(g, w, p), order[1..], t);
      } else {
        ExecSnoc(g, w, order[1..], t);
      }
    }
  }

  // ---------------------------------------------------------------------------------------------
  // The order of spawning

  predicate AllIn(deps: seq<int>, done: seq<nat>) { forall d :: d in deps ==> 0 <= d && d in done }

  /** After how many finished tasks all of `deps` had finished. */
  function ReadyAfter(deps: seq<int>, done: seq<nat>): nat {
    if done == [] then 0
    else if AllIn(deps, done[..|done| - 1]) then ReadyAfter(deps, done[..|done| - 1])
    else |done|
  }

  /** Tasks are spawned in the order in which they become ready, and those that become ready together by their index. */
  ghost predicate SpawnOrdered(g: Plan, w: Mem) {
    && Sized(g, w) && Below(w.spawned, |g.deps|)
    && forall i, j :: 0 <= i < j < |w.spawned| ==>
                        var a, b := w.spawned[i], w.spawned[j];
                        var x, y := ReadyAfter(g.deps[a], w.done), ReadyAfter(g.deps[b], w.done);
                        x < y || (x == y && a < b)
  }

  lemma ReadyBounds(deps: seq<int>, done: seq<nat>)
    ensures ReadyAfter(deps, done) <= |done|
  {
  }

  lemma ReadyStays(deps: seq<int>, done: seq<nat>, self: nat)
    ensures AllIn(deps, done) ==> ReadyAfter(deps, done + [self]) == ReadyAfter(deps, done)
    ensures !AllIn(deps, done) ==> ReadyAfter(deps, done + [self]) == |done| + 1
  {
    assert (done + [self])[..|done|] == done;
  }

  lemma SpawnedAllIn(g: Plan, w: Mem, t: nat)
    requires Inv(g, w) && t in w.spawned
    ensures t < |g.deps| && AllIn(g.deps[t], w.done)
  {
    SpawnedIsReady(g, w, t);
  }

  lemma ReleasedNotAllIn(g: Plan, w: Mem, self: nat, t: nat)
    requires Inv(g, w) && self < |g.deps| && w.phase[self].Live? && Released(g, w, self, t)
    ensures !AllIn(g.deps[t], w.done)
  {
    assert self !in w.done;
  }

  lemma OldReady(g: Plan, w: Mem, self: nat, t: nat)
    requires Inv(g, w) && self < |g.deps| && t in w.spawned
    ensures t < |g.deps| && ReadyAfter(g.deps[t], w.done + [self]) == ReadyAfter(g.deps[t], w.done) <= |w.done|
  {
    SpawnedAllIn(g, w, t);
    hide Inv, ReadyAfter, AllIn;
    ReadyStays(g.deps[t], w.done, self);
    ReadyBounds(g.deps[t], w.done);
  }

  lemma NewReady(g: Plan, w: Mem, self: nat, t: nat)
    requires Inv(g, w) && self < |g.deps| && w.phase[self].Live? && Released(g, w, self, t)
    ensures t < |g.deps| && ReadyAfter(g.deps[t], w.done + [self]) == |w.done| + 1
  {
    ReleasedNotAllIn(g, w, self, t);
    hide Inv, ReadyAfter, AllIn;
    ReadyStays(g.deps[t], w.done, self);
  }

  lemma CompleteKeepsSpawnOrder(g: Plan, w: Mem, self: nat)
    requires Inv(g, w) && SpawnOrdered(g, w) && self < |g.deps| && w.phase[self].Live?
    ensures SpawnOrdered(g, Complete(g, w, self))
  {
    var n, f := |g.deps|, (t: nat) => Released(g, w, self, t);
    var w', news := Complete(g, w, self), Select(n, f);
    assert w'.spawned == w.spawned + news && w'.done == w.done + [self] && Sized(g, w');
    SelectSpec(n, f);
    hide Complete, Inv, ReadyAfter, Select;
    forall i | 0 <= i < |w.spawned|
      ensures var t := w.spawned[i];
              t < n && ReadyAfter(g.deps[t], w'.done) == ReadyAfter(g.deps[t], w.done) <= |w.done|
    {
      assert w.spawned[i] in w.spawned;
      OldReady(g, w, self, w.spawned[i]);
    }
    forall i | 0 <= i < |news| ensures news[i] < n && ReadyAfter(g.deps[news[i]], w'.done) == |w.done| + 1 {
      assert f(news[i]);
      NewReady(g, w, self, news[i]);
    }
    hide Released;
    OrderExtends(g, w, w', news);
  }

  lemma OrderExtends(g: Plan, w: Mem, w': Mem, news: seq<nat>)
    requires SpawnOrdered(g, w) && Sized(g, w') && w'.spawned == w.spawned + news
    requires forall i :: 0 <= i < |w.spawned| ==>
                           var t := w.spawned[i];
                           ReadyAfter(g.deps[t], w'.done) == ReadyAfter(g.deps[t], w.done) <= |w.done|
    requires forall i :: 0 <= i < |news| ==>
                           news[i] < |g.deps| && ReadyAfter(g.deps[news[i]], w'.done) == |w.done| + 1
    requires forall i, j :: 0 <= i < j < |news| ==> news[i] < news[j]
    ensures SpawnOrdered(g, w')
  {
    hide ReadyAfter;
    var m := |w.spawned|;
    forall i, j | 0 <= i < j < |w'.spawned|
      ensures var a, b := w'.spawned[i], w'.spawned[j];
              a < |g.deps| && b < |g.deps|
              && var x, y := ReadyAfter(g.deps[a], w'.done), ReadyAfter(g.deps[b], w'.done);
                 x < y || (x == y && a < b)
    {
      if i < m { assert w'.spawned[i] == w.spawned[i]; } else { assert w'.spawned[i] == news[i - m]; }
      if j < m { assert w'.spawned[j] == w.spawned[j]; } else { assert w'.spawned[j] == news[j - m]; }
    }
    forall i | 0 <= i < |w'.spawned| ensures w'.spawned[i] < |g.deps| {
      if i >= m { assert w'.spawned[i] == news[i - m]; }
    }
  }

  lemma {:induction false} ExecKeepsSpawnOrder(g: Plan, w: Mem, order: seq<nat>)
    requires Inv(g, w) && SpawnOrdered(g, w)
    ensures SpawnOrdered(g, Exec(g, w, order))
    decreases |order|
  {
    if order != [] {
      var t := order[0];
      if t < |g.deps| && w.phase[t].Live? {
        TurnKeepsInv(g, w, t);
        if w.phase[t].left == 0 { CompleteKeepsSpawnOrder(g, w, t); }
        hide Inv, Complete, ReadyAfter;
        ExecKeepsSpawnOrder(g, Turn(g, w, t), order[1..]);
      } else {
        ExecKeepsSpawnOrder(g, w, order[1..]);
      }
    }
  }

  /** In every run tasks are spawned in the order in which their last dependency finished, and those that it releases
      together, like the roots, in the order of their index. */
  lemma SpawnOrder(g: Plan, order: seq<nat>)
    requires IsPlan(g)
    ensures SpawnOrdered(g, Exec(g, Initial(g), order))
  {
    InitialInv(g);
    SelectSpec(|g.deps|, (t: nat) => t < |g.deps| && g.deps[t] == []);
    ExecKeepsSpawnOrder(g, Initial(g), order);
  }

  // ---------------------------------------------------------------------------------------------
  // On the scheduler

  /** Coroutine `c` of the scheduler runs task `spawned[c]`. */
  ghost predicate Tied(phase: seq<Phase>, spawned: seq<nat>, s: State) {
    && Valid(s) && |s.co| == |spawned| && Below(spawned, |phase|)
    && forall c: nat :: c < |s.co| ==> !s.co[c].Waiting? && (s.co[c].Done? <==> phase[spawned[c]].Over?)
  }

  lemma CreateTied(phase: seq<Phase>, spawned: seq<nat>, t: nat, s: State)
    requires Tied(phase, spawned, s) && Enabled(s, Create) && t < |phase| && !phase[t].Over?
    ensures Tied(phase, spawned + [t], Step(s, Create))
  {
    StepKeepsValid(s, Create);
    hide Valid;
  }

  lemma CreateInLine(phase: seq<Phase>, spawned: seq<nat>, t: nat, s: State)
    requires Tied(phase, spawned, s) && Enabled(s, Create)
    ensures TaskLine(spawned + [t], Step(s, Create).queue) == TaskLine(spawned, s.queue) + [t]
  {
    LineGrows(spawned, s.queue, t);
  }

  lemma YieldTied(phase: seq<Phase>, phase': seq<Phase>, spawned: seq<nat>, s: State)
    requires Tied(phase, spawned, s) && s.running.Some? && |phase'| == |phase|
    requires forall t: nat :: t < |phase| ==> (phase'[t].Over? <==> phase[t].Over?)
    ensures Enabled(s, Yield) && Tied(phase', spawned, Step(s, Yield))
  {
    StepKeepsValid(s, Yield);
    assert s.co[s.running.value].Running?;
    hide Valid;
  }

  lemma FinishTied(phase: seq<Phase>, phase': seq<Phase>, spawned: seq<nat>, s: State)
    requires Tied(phase, spawned, s) && s.running.Some? && |phase'| == |phase| && NoDup(spawned)
    requires s.running.value < |spawned|
    requires forall t: nat :: t < |phase| ==> (phase'[t].Over? <==> phase[t].Over? || t == spawned[s.running.value])
    ensures Enabled(s, Finish) && Tied(phase', spawned, Step(s, Finish)) && Step(s, Finish).queue == s.queue
  {
    var r := s.running.value;
    StepKeepsValid(s, Finish);
    assert s.co[r].Running?;
    NobodyWaits(s.co[r := Done], r);
    hide Valid;
  }

  lemma ResumeTied(phase: seq<Phase>, spawned: seq<nat>, s: State)
    requires Tied(phase, spawned, s) && s.running.None? && s.queue != []
    ensures Enabled(s, Resume) && Tied(phase, spawned, Step(s, Resume))
    ensures s.queue[0] < |spawned| && !phase[spawned[s.queue[0]]].Over?
  {
    HeadIsReady(s);
    StepKeepsValid(s, Resume);
    hide Valid;
  }

  lemma EmptyQueueIsQuiescent(g: Plan, w: Mem, s: State)
    requires Orders(g, w) && Tied(w.phase, w.spawned, s) && s.running.None? && s.queue == []
    ensures Quiescent(w)
  {
    forall c: nat | c < |w.spawned| ensures w.phase[w.spawned[c]].Over? {
      assert s.co[c].Done?;
    }
    forall t: nat | t < |w.phase| ensures !w.phase[t].Live? {
      assert t in w.spawned ==> w.phase[t].Over?;
    }
  }

  lemma SpawnedFits(g: Plan, w: Mem)
    requires Orders(g, w)
    ensures Below(w.spawned, |g.deps|) && |w.spawned| <= |g.deps|
  {
    forall i | 0 <= i < |w.spawned| ensures w.spawned[i] < |g.deps| { assert w.spawned[i] in w.spawned; }
    Pigeonhole(w.spawned, |g.deps|);
  }

  /** `co_create` for the tasks in `news`. */
  method SpawnAll(sys: System, news: seq<nat>, ghost phase: seq<Phase>, ghost spawned: seq<nat>)
    requires sys.Valid() && Tied(phase, spawned, sys.Abs()) && |spawned| + |news| <= MAX_COROUTINES
    requires forall k :: 0 <= k < |news| ==> news[k] < |phase| && !phase[news[k]].Over?
    modifies sys.Repr()
    ensures sys.Valid() && fresh(sys.Repr() - old(sys.Repr())) && sys.running == old(sys.running)
    ensures Tied(phase, spawned + news, sys.Abs())
    ensures TaskLine(spawned + news, sys.Abs().queue) == TaskLine(spawned, old(sys.Abs()).queue) + news
  {
    hide System.Valid, System.Abs, Scheduler.Valid, TaskLine;
    ghost var line := TaskLine(spawned, sys.Abs().queue);
    assert spawned + news[..0] == spawned && line + news[..0] == line;
    for k := 0 to |news|
      invariant sys.Valid() && fresh(sys.Repr() - old(sys.Repr())) && sys.running == old(sys.running)
      invariant Tied(phase, spawned + news[..k], sys.Abs())
      invariant TaskLine(spawned + news[..k], sys.Abs().queue) == line + news[..k]
    {
      ghost var now, s := spawned + news[..k], sys.Abs();
      CreateTied(phase, now, news[k], s);
      CreateInLine(phase, now, news[k], s);
      assert now + [news[k]] == spawned + news[..k + 1] && (line + news[..k]) + [news[k]] == line + news[..k + 1];
      hide Tied, Step;
      var co := sys.CoCreate();
    }
    assert news[..|news|] == news;
  }

  lemma Seeding(g: Plan)
    requires IsPlan(g) && |g.deps| <= MAX_COROUTINES
    ensures var w := Initial(g);
            && Tied(w.phase, [], Init) && |w.spawned| <= MAX_COROUTINES
            && forall k :: 0 <= k < |w.spawned| ==> w.spawned[k] < |w.phase| && !w.phase[w.spawned[k]].Over?
  {
    InitialInv(g);
    SpawnedFits(g, Initial(g));
  }

  lemma ResumedIsLive(g: Plan, w: Mem, s: State)
    requires Inv(g, w) && Tied(w.phase, w.spawned, s) && s.running.None? && s.queue != []
    ensures Enabled(s, Resume) && Tied(w.phase, w.spawned, Step(s, Resume))
    ensures var r := s.queue[0]; r < |w.spawned| && w.spawned[r] < |g.deps| && w.phase[w.spawned[r]].Live?
  {
    ResumeTied(w.phase, w.spawned, s);
    assert w.spawned[s.queue[0]] in w.spawned;
  }

  // ---------------------------------------------------------------------------------------------
  // The task table in memory

  /** `deps_remaining` when the outer loop of `task_coroutine` has passed the first `i` tasks. */
  ghost function Notified(g: Plan, w: Mem, self: nat, i: nat): (r: seq<int>)
    requires Sized(g, w)
    ensures |r| == |g.deps|
  {
    seq(|g.deps|, t requires 0 <= t < |g.deps| =>
      if t < i && self in g.deps[t] then w.remaining[t] - 1 else w.remaining[t])
  }

  /** The tasks spawned by then. */
  ghost function News(g: Plan, w: Mem, self: nat, i: nat): seq<nat> {
    Select(i, (t: nat) => Released(g, w, self, t))
  }

  lemma NotifiedEnds(g: Plan, w: Mem, self: nat)
    requires Sized(g, w) && self < |g.deps|
    ensures Notified(g, w, self, 0) == w.remaining
    ensures Notified(g, w, self, |g.deps|) == Complete(g, w, self).remaining
    ensures News(g, w, self, 0) == [] && Complete(g, w, self).spawned == w.spawned + News(g, w, self, |g.deps|)
  {
  }

  lemma NotifiedStep(g: Plan, w: Mem, self: nat, i: nat)
    requires Sized(g, w) && i < |g.deps|
    ensures var r := Notified(g, w, self, i);
            && r[i] == w.remaining[i]
            && Notified(g, w, self, i + 1) == r[i := if self in g.deps[i] then r[i] - 1 else r[i]]
    ensures News(g, w, self, i + 1)
            == News(g, w, self, i) + if self in g.deps[i] && w.remaining[i] == 1 then [i] else []
  {
  }

  /** `g_tasks`, with room for `maxTasks` tasks of `maxDeps` dependencies each (16 and 8 in the source). */
  class Table {
    const maxTasks: nat
    const maxDeps: nat
    const depIds: array2<int>
    const depCount: array<nat>
    const remaining: array<int>
    var count: nat

    ghost function Repr(): set<object> { {this, depIds, depCount, remaining} }

    ghost predicate Valid()
      reads this, depCount
    {
      && depIds.Length0 == depCount.Length == remaining.Length == maxTasks && depIds.Length1 == maxDeps
      && count <= maxTasks && depCount as object != remaining
      && forall t :: 0 <= t < count ==> depCount[t] <= maxDeps
    }

    ghost function DepsOf(t: nat): seq<int>
      reads this, depCount, depIds
      requires Valid() && t < count
    {
      seq(depCount[t], d requires 0 <= d < maxDeps && Valid() && t < count reads this, depCount, depIds => depIds[t, d])
    }

    ghost function Deps(): (r: seq<seq<int>>)
      reads this, depCount, depIds
      requires Valid()
      ensures |r| == count && forall t: nat :: t < count ==> r[t] == DepsOf(t)
    {
      seq(count, t requires 0 <= t < count && Valid() reads this, depCount, depIds => DepsOf(t))
    }

    constructor (maxTasks: nat, maxDeps: nat)
      ensures Valid() && count == 0 && Deps() == [] && this.maxTasks == maxTasks && this.maxDeps == maxDeps
      ensures fresh(Repr())
    {
      this.maxTasks, this.maxDeps := maxTasks, maxDeps;
      depIds := new int[maxTasks, maxDeps];
      depCount := new nat[maxTasks];
      remaining := new int[maxTasks];
      count := 0;
    }

    /** `task_register`; the table has room (the source does not check). */
    method Register() returns (id: nat)
      requires Valid() && count < maxTasks
      modifies this, depCount, remaining
      ensures Valid() && id == old(count) && Deps() == old(Deps()) + [[]]
    {
      id := count;
      count := count + 1;
      depCount[id] := 0;
      remaining[id] := 0;
      assert forall t: nat :: t < id ==> DepsOf(t) == old(DepsOf(t));
    }

    /** `task_add_dep`; the task's list has room (the source does not check). */
    method AddDep(task: nat, dep: int)
      requires Valid() && task < count && depCount[task] < maxDeps
      modifies depCount, depIds
      ensures Valid() && Deps() == old(Deps())[task := old(Deps())[task] + [dep]]
    {
      depIds[task, depCount[task]] := dep;
      depCount[task] := depCount[task] + 1;
      assert forall t: nat :: t < count ==> DepsOf(t) == if t == task then old(DepsOf(t)) + [dep] else old(DepsOf(t));
    }

    /** `task_graph_finalize`. */
    method Finalize()
      requires Valid()
      modifies remaining
      ensures Valid() && Deps() == old(Deps())
      ensures forall t :: 0 <= t < count ==> remaining[t] == |Deps()[t]|
    {
      for i := 0 to count
        invariant Valid() && Deps() == old(Deps())
        invariant forall t :: 0 <= t < i ==> remaining[t] == |Deps()[t]|
      {
        remaining[i] := depCount[i];
      }
    }

    /** The seeding loop of `main`: the tasks to spawn, those without dependencies, in order. */
    method Roots() returns (roots: seq<nat>)
      requires Valid()
      ensures roots == RootsOf(Deps())
    {
      ghost var deps := Deps();
      roots := [];
      for i := 0 to count
        invariant roots == Select(i, (t: nat) => t < |deps| && deps[t] == [])
      {
        assert deps[i] == DepsOf(i);
        if depCount[i] == 0 { roots := roots + [i]; }
      }
    }

    /** The inner loop of `task_coroutine`: the first match ends it. */
    method Depends(t: nat, self: nat) returns (found: bool)
      requires Valid() && t < count
      ensures found <==> self in Deps()[t]
    {
      for d := 0 to depCount[t]
        invariant self !in DepsOf(t)[..d]
      {
        assert DepsOf(t)[d] == depIds[t, d];
        if depIds[t, d] == self {
          assert DepsOf(t)[d] == self;
          return true;
        }
      }
      return false;
    }

    /** One pass of the outer loop: task `i` is told that `self` finished; `spawn` if that was its last dependency. */
    method NotifyOne(i: nat, self: nat) returns (spawn: bool)
      requires Valid() && i < count
      modifies remaining
      ensures Valid() && Deps() == old(Deps())
      ensures var left := if self in Deps()[i] then old(remaining[i]) - 1 else old(remaining[i]);
              && remaining[..count] == old(remaining[..count])[i := left]
              && spawn == (self in Deps()[i] && left == 0)
    {
      var depends := Depends(i, self);
      spawn := false;
      if depends {
        remaining[i] := remaining[i] - 1;
        spawn := remaining[i] == 0;
      }
    }

    /** The end of `task_coroutine`: notify all dependents; `news` are the tasks to spawn, in order. */
    method Notify(self: nat, ghost g: Plan, ghost w: Mem) returns (news: seq<nat>)
      requires Valid() && Sized(g, w) && g.deps == Deps() && w.remaining == remaining[..count] && self < count
      modifies remaining
      ensures Valid() && Deps() == old(Deps())
      ensures remaining[..count] == Complete(g, w, self).remaining
      ensures w.spawned + news == Complete(g, w, self).spawned
    {
      hide Deps, DepsOf, Complete, Notified, News;
      news := [];
      NotifiedEnds(g, w, self);
      for i := 0 to count
        invariant Valid() && Deps() == g.deps && news == News(g, w, self, i)
        invariant remaining[..count] == Notified(g, w, self, i)
      {
        NotifiedStep(g, w, self, i);
        assert remaining[i] == remaining[..count][i];
        var spawn := NotifyOne(i, self);
        if spawn { news := news + [i]; }
      }
    }
  }

  // ---------------------------------------------------------------------------------------------
  // The run, over the table in memory

  /** The tasks of the coroutines in `queue`. */
  function TaskLine(spawned: seq<nat>, queue: seq<nat>): (r: seq<nat>)
    ensures |r| == |queue|
    ensures forall i :: 0 <= i < |queue| ==> r[i] == if queue[i] < |spawned| then spawned[queue[i]] else 0
  {
    seq(|queue|, i requires 0 <= i < |queue| => if queue[i] < |spawned| then spawned[queue[i]] else 0)
  }

  /** What a turn of task `t` puts at the end of the line: the task itself, or the tasks that its end releases. */
  function Behind(g: Plan, w: Mem, t: nat): seq<nat>
    requires Sized(g, w) && t < |g.deps| && w.phase[t].Live?
  {
    if w.phase[t].left > 0 then [t] else Select(|g.deps|, (i: nat) => Released(g, w, t, i))
  }

  /** The run that `co_run` makes of the tasks in `line`: the order of their turns. */
  ghost function Schedule(g: Plan, w: Mem, line: seq<nat>): seq<nat>
    requires Inv(g, w)
    decreases Rank(g, w)
  {
    if line == [] || line[0] >= |g.deps| || !w.phase[line[0]].Live? then []
    else
      var t := line[0];
      TurnKeepsInv(g, w, t);
      TurnDecreasesRank(g, w, t);
      [t] + Schedule(g, Turn(g, w, t), line[1..] + Behind(g, w, t))
  }

  lemma TurnSpawns(g: Plan, w: Mem, t: nat)
    requires Sized(g, w) && t < |g.deps| && w.phase[t].Live?
    ensures Turn(g, w, t).spawned == w.spawned + if w.phase[t].left > 0 then [] else Behind(g, w, t)
  {
  }

  lemma LineGrows(spawned: seq<nat>, queue: seq<nat>, t: nat)
    requires Below(queue, |spawned|)
    ensures TaskLine(spawned + [t], queue + [|spawned|]) == TaskLine(spawned, queue) + [t]
  {
  }

  lemma SameTail(a: seq<nat>, b: seq<nat>, c: seq<nat>)
    requires a + b == a + c
    ensures b == c
  {
    assert b == (a + b)[|a|..] && c == (a + c)[|a|..];
  }

  lemma LineYields(spawned: seq<nat>, queue: seq<nat>, r: nat)
    requires r < |spawned|
    ensures TaskLine(spawned, queue + [r]) == TaskLine(spawned, queue) + [spawned[r]]
  {
  }

  /** The table holds plan `g` and the counters of `w`. */
  ghost predicate Holds(table: Table, g: Plan, w: Mem)
    reads table, table.depCount, table.depIds, table.remaining
  {
    table.Valid() && table.Deps() == g.deps && Sized(g, w) && w.remaining == table.remaining[..table.count]
  }

  /** What `Finalize` leaves in the table is the initial state of the plan. */
  lemma FinalizedIsInitial(table: Table, g: Plan)
    requires table.Valid() && table.Deps() == g.deps && IsPlan(g)
    requires forall t :: 0 <= t < table.count ==> table.remaining[t] == |table.Deps()[t]|
    ensures Holds(table, g, Initial(g))
  {
    assert Initial(g).remaining == table.remaining[..table.count];
  }

  /** The coroutines' own progress when `self` has finished and `news` are spawned. */
  function PhasesAfter(phase: seq<Phase>, work: seq<nat>, self: nat, news: seq<nat>): seq<Phase>
    requires |work| == |phase|
  {
    seq(|phase|, t requires 0 <= t < |phase| =>
      if t in news then Live(work[t]) else if t == self then Over else phase[t])
  }

  lemma PhasesAreComplete(g: Plan, w: Mem, self: nat, news: seq<nat>)
    requires Sized(g, w) && self < |g.deps| && w.spawned + news == Complete(g, w, self).spawned
    ensures PhasesAfter(w.phase, g.work, self, news) == Complete(g, w, self).phase
  {
    var f := (t: nat) => Released(g, w, self, t);
    SelectSpec(|g.deps|, f);
    assert news == (w.spawned + news)[|w.spawned|..] == Select(|g.deps|, f);
  }

  /** A task has finished: notify its dependents. */
  method NotifyDependents(table: Table, work: seq<nat>, phase: seq<Phase>, t: nat, ghost w: Mem)
    returns (phase': seq<Phase>, news: seq<nat>)
    requires table.Valid() && |work| == table.count
    requires var g := Plan(table.Deps(), work);
             Inv(g, w) && Holds(table, g, w) && phase == w.phase && t < table.count && phase[t] == Live(0)
    modifies table.remaining
    ensures table.Valid()
    ensures var g := Plan(old(table.Deps()), work); var w' := Turn(g, w, t);
            Inv(g, w') && Holds(table, g, w') && phase' == w'.phase && w.spawned + news == w'.spawned
  {
    ghost var g := Plan(table.Deps(), work);
    TurnKeepsInv(g, w, t);
    hide Accounts, Orders, Complete, Table.Deps;
    news := table.Notify(t, g, w);
    PhasesAreComplete(g, w, t, news);
    phase' := PhasesAfter(phase, work, t, news);
  }

  lemma NewsAreReleased(g: Plan, w: Mem, t: nat, news: seq<nat>)
    requires Inv(g, w) && t < |g.deps| && w.spawned + news == Complete(g, w, t).spawned
    ensures forall k :: 0 <= k < |news| ==> news[k] < |w.phase| && !w.phase[news[k]].Over?
  {
    var f := (i: nat) => Released(g, w, t, i);
    SelectSpec(|g.deps|, f);
    assert news == (w.spawned + news)[|w.spawned|..] == Select(|g.deps|, f);
    forall k | 0 <= k < |news| ensures news[k] < |w.phase| && !w.phase[news[k]].Over? {
      assert f(news[k]);
    }
  }

  lemma SpawnedAreNew(g: Plan, w: Mem, t: nat, news: seq<nat>)
    requires Inv(g, w) && t < |g.deps| && w.phase[t] == Live(0) && w.spawned + news == Turn(g, w, t).spawned
    ensures |w.spawned| + |news| <= |g.deps| == |w.phase|
    ensures forall k :: 0 <= k < |news| ==> news[k] < |w.phase| && !w.phase[news[k]].Over?
    ensures var w' := Turn(g, w, t);
            && |w'.phase| == |w.phase| && NoDup(w'.spawned)
            && forall i: nat :: i < |w.phase| ==> (w'.phase[i].Over? <==> w.phase[i].Over? || i == t)
  {
    var w' := Turn(g, w, t);
    TurnKeepsInv(g, w, t);
    SpawnedFits(g, w');
    NewsAreReleased(g, w, t, news);
    forall i: nat | i < |w.phase| ensures w'.phase[i].Over? <==> w.phase[i].Over? || i == t {
      CompletePhases(g, w, t, i);
    }
    hide Accounts, Complete;
  }

  /** Spawn the dependents that have become ready, and return. */
  method SpawnAndFinish(sys: System, news: seq<nat>, ghost g: Plan, ghost w: Mem, ghost t: nat)
    requires Inv(g, w) && |g.deps| <= MAX_COROUTINES && t < |g.deps| && w.phase[t] == Live(0)
    requires w.spawned + news == Turn(g, w, t).spawned
    requires sys.Valid() && sys.running != null && Tied(w.phase, w.spawned, sys.Abs())
    requires Position(sys.running) < |w.spawned| && t == w.spawned[Position(sys.running)]
    modifies sys.Repr()
    ensures sys.Valid() && fresh(sys.Repr() - old(sys.Repr())) && sys.running == null
    ensures Tied(Turn(g, w, t).phase, Turn(g, w, t).spawned, sys.Abs())
    ensures TaskLine(w.spawned + news, sys.Abs().queue) == TaskLine(w.spawned, old(sys.Abs()).queue) + news
  {
    hide System.Valid, System.Abs, Scheduler.Valid, Inv, Tied, Turn, TaskLine, Step;
    ghost var w' := Turn(g, w, t);
    SpawnedAreNew(g, w, t, news);
    SpawnAll(sys, news, w.phase, w.spawned);
    FinishTied(w.phase, w'.phase, w'.spawned, sys.Abs());
    sys.Finish();
  }

  /** One turn of the task that coroutine `r` runs; `spawned[r]` is the coroutine's argument. */
  method TakeTurn(table: Table, work: seq<nat>, phase: seq<Phase>, spawned: seq<nat>, sys: System, r: nat, ghost w: Mem)
    returns (phase': seq<Phase>, spawned': seq<nat>)
    requires table.Valid() && |work| == table.count <= MAX_COROUTINES && table.Repr() !! sys.Repr()
    requires var g := Plan(table.Deps(), work);
             && Inv(g, w) && Holds(table, g, w) && phase == w.phase && spawned == w.spawned
             && r < |spawned| && spawned[r] < table.count && phase[spawned[r]].Live?
    requires sys.Valid() && sys.running != null && r == Position(sys.running) && Tied(phase, spawned, sys.Abs())
    modifies table.remaining, sys.Repr()
    ensures sys.Valid() && fresh(sys.Repr() - old(sys.Repr())) && sys.running == null
    ensures var g := Plan(old(table.Deps()), work); var w' := Turn(g, w, spawned[r]);
            && Inv(g, w') && Holds(table, g, w') && phase' == w'.phase && spawned' == w'.spawned
            && Tied(phase', spawned', sys.Abs())
            && TaskLine(spawned', sys.Abs().queue)
               == TaskLine(spawned, old(sys.Abs()).queue) + Behind(g, w, spawned[r])
  {
    hide System.Valid, System.Abs, Scheduler.Valid, Accounts, Orders, Complete, Table.Valid, Table.Deps, TaskLine;
    ghost var g := Plan(table.Deps(), work);
    var t := spawned[r];
    TurnSpawns(g, w, t);
    LineYields(spawned, sys.Abs().queue, r);
    if phase[t].left > 0 {
      TurnKeepsInv(g, w, t);
      phase', spawned' := phase[t := Live(phase[t].left - 1)], spawned;
      YieldTied(phase, phase', spawned, sys.Abs());
      sys.CoYield();
    } else {
      hide Tied;
      var news;
      phase', news := NotifyDependents(table, work, phase, t, w);
      Untouched(sys);
      SameTail(spawned, news, Behind(g, w, t));
      spawned' := spawned + news;
      SpawnAndFinish(sys, news, g, w, t);
    }
  }

  /** `task_graph_finalize` and the tasks that `main` seeds. */
  method Prepare(table: Table, work: seq<nat>) returns (phase: seq<Phase>, spawned: seq<nat>)
    requires table.Valid() && |work| == table.count
    modifies table.remaining
    ensures var g := Plan(old(table.Deps()), work);
            Holds(table, g, Initial(g)) && phase == Initial(g).phase && spawned == Initial(g).spawned
  {
    ghost var g := Plan(table.Deps(), work);
    table.Finalize();
    FinalizedIsInitial(table, g);
    spawned := table.Roots();
    phase := seq(|work|, t requires 0 <= t < |work| => if t in spawned then Live(work[t]) else Idle);
    SeededPhases(g);
  }

  function Is(t: nat): nat -> bool { (x: nat) => x == t }

  /** The log lists every turn since `w0`. */
  ghost predicate Logged(g: Plan, w0: Mem, log: seq<nat>, w: Mem) {
    && Sized(g, w0) && Sized(g, w)
    && forall t: nat :: t < |g.deps| ==> Taken(g, w, t) == Taken(g, w0, t) + Count(log, Is(t))
  }

  lemma NothingLogged(g: Plan, w: Mem)
    requires Sized(g, w)
    ensures Exec(g, w, []) == w && Logged(g, w, [], w)
  {
  }

  lemma TurnIsLogged(g: Plan, w0: Mem, log: seq<nat>, w: Mem, t: nat)
    requires Inv(g, w0) && Inv(g, w) && w == Exec(g, w0, log) && Logged(g, w0, log, w)
    requires t < |g.deps| && w.phase[t].Live?
    ensures Turn(g, w, t) == Exec(g, w0, log + [t]) && Logged(g, w0, log + [t], Turn(g, w, t))
  {
    ExecSnoc(g, w0, log, t);
    TurnKeepsInv(g, w, t);
    forall u: nat | u < |g.deps|
      ensures Taken(g, Turn(g, w, t), u) == Taken(g, w0, u) + Count(log + [t], Is(u))
    {
      TurnIsTaken(g, w, t, u);
      assert (log + [t])[..|log|] == log;
    }
    hide Inv, Turn, Taken, Exec;
  }

  lemma NothingScheduled(g: Plan, w: Mem, spawned: seq<nat>, queue: seq<nat>, log: seq<nat>)
    requires Inv(g, w) && queue == []
    ensures log + Schedule(g, w, TaskLine(spawned, queue)) == log
  {
    assert TaskLine(spawned, queue) == [] && log + [] == log;
  }

  lemma ScheduleHead(g: Plan, w: Mem, line: seq<nat>)
    requires Inv(g, w) && line != [] && line[0] < |g.deps| && w.phase[line[0]].Live?
    ensures var t := line[0];
            && Inv(g, Turn(g, w, t))
            && Schedule(g, w, line) == [t] + Schedule(g, Turn(g, w, t), line[1..] + Behind(g, w, t))
  {
    hide Turn, Behind, Accounts, Orders;
    TurnKeepsInv(g, w, line[0]);
  }

  lemma HeadScheduled(g: Plan, w: Mem, spawned: seq<nat>, queue: seq<nat>, log: seq<nat>)
    requires Inv(g, w) && queue != [] && queue[0] < |spawned|
    requires spawned[queue[0]] < |g.deps| && w.phase[spawned[queue[0]]].Live?
    ensures var t := spawned[queue[0]];
            && Inv(g, Turn(g, w, t))
            && log + Schedule(g, w, TaskLine(spawned, queue))
               == (log + [t]) + Schedule(g, Turn(g, w, t), TaskLine(spawned, queue[1..]) + Behind(g, w, t))
  {
    hide Inv, Turn, Behind, Schedule;
    var t, line := spawned[queue[0]], TaskLine(spawned, queue);
    assert line[0] == t && line[1..] == TaskLine(spawned, queue[1..]);
    ScheduleHead(g, w, line);
    var rest := Schedule(g, Turn(g, w, t), line[1..] + Behind(g, w, t));
    assert log + ([t] + rest) == (log + [t]) + rest;
  }

  /** The run from `w0` is at `w`, with the turns in `log` behind it and those of `all` in total. */
  ghost predicate Going(g: Plan, w0: Mem, all: seq<nat>, log: seq<nat>, w: Mem, s: State) {
    && Inv(g, w0) && Inv(g, w) && Tied(w.phase, w.spawned, s)
    && w == Exec(g, w0, log) && Logged(g, w0, log, w) && log + Schedule(g, w, TaskLine(w.spawned, s.queue)) == all
  }

  lemma StartsGoing(g: Plan, w0: Mem, s: State)
    requires Inv(g, w0) && Tied(w0.phase, w0.spawned, s)
    ensures Going(g, w0, Schedule(g, w0, TaskLine(w0.spawned, s.queue)), [], w0, s)
  {
    hide Inv, Tied, Logged, Exec, Schedule, TaskLine;
    NothingLogged(g, w0);
    var all := Schedule(g, w0, TaskLine(w0.spawned, s.queue));
    assert [] + all == all;
  }

  lemma EndsGoing(g: Plan, w0: Mem, all: seq<nat>, log: seq<nat>, w: Mem, s: State)
    requires Going(g, w0, all, log, w, s) && s.running.None? && s.queue == []
    ensures Inv(g, w) && w == Exec(g, w0, log) && Logged(g, w0, log, w) && log == all && Quiescent(w)
  {
    hide Logged, Exec, Schedule, TaskLine, Accounts;
    EmptyQueueIsQuiescent(g, w, s);
    NothingScheduled(g, w, w.spawned, s.queue, log);
  }

  lemma ResumesGoing(g: Plan, w0: Mem, all: seq<nat>, log: seq<nat>, w: Mem, s: State)
    requires Going(g, w0, all, log, w, s) && s.running.None? && s.queue != []
    ensures Inv(g, w) && Enabled(s, Resume) && Tied(w.phase, w.spawned, Step(s, Resume))
    ensures var r := s.queue[0]; r < |w.spawned| && w.spawned[r] < |g.deps| && w.phase[w.spawned[r]].Live?
    ensures Rank(g, Turn(g, w, w.spawned[s.queue[0]])) < Rank(g, w)
  {
    hide Logged, Exec, Schedule, TaskLine, Tied, Rank, Turn;
    ResumedIsLive(g, w, s);
    TurnDecreasesRank(g, w, w.spawned[s.queue[0]]);
  }

  /** A turn of the head of the line. */
  lemma KeepsGoing(g: Plan, w0: Mem, all: seq<nat>, log: seq<nat>, w: Mem, s: State, s': State)
    requires Going(g, w0, all, log, w, s) && s.queue != [] && s.queue[0] < |w.spawned|
    requires var t := w.spawned[s.queue[0]]; t < |g.deps| && w.phase[t].Live?
    requires var t := w.spawned[s.queue[0]]; var w' := Turn(g, w, t);
             && Inv(g, w') && Tied(w'.phase, w'.spawned, s')
             && TaskLine(w'.spawned, s'.queue) == TaskLine(w.spawned, s.queue[1..]) + Behind(g, w, t)
    ensures var t := w.spawned[s.queue[0]]; Going(g, w0, all, log + [t], Turn(g, w, t), s')
  {
    hide Inv, Tied, Logged, Exec, Schedule, TaskLine, Behind, Turn;
    HeadScheduled(g, w, w.spawned, s.queue, log);
    TurnIsLogged(g, w0, log, w, w.spawned[s.queue[0]]);
  }

  /** `co_run` over the table in memory, from the seeded roots on. */
  method Drive(table: Table, work: seq<nat>, phase0: seq<Phase>, spawned0: seq<nat>, sys: System, ghost w0: Mem)
    returns (phase: seq<Phase>, log: seq<nat>, ghost w: Mem)
    requires table.Valid() && |work| == table.count <= MAX_COROUTINES && table.Repr() !! sys.Repr()
    requires var g := Plan(table.Deps(), work);
             Inv(g, w0) && Holds(table, g, w0) && phase0 == w0.phase && spawned0 == w0.spawned
    requires sys.Valid() && sys.running == null && Tied(phase0, spawned0, sys.Abs())
    modifies table.remaining, sys.Repr()
    ensures var g := Plan(old(table.Deps()), work); Inv(g, w) && Holds(table, g, w) && phase == w.phase && Quiescent(w)
    ensures var g := Plan(old(table.Deps()), work); w == Exec(g, w0, log) && Logged(g, w0, log, w)
    ensures log == Schedule(Plan(old(table.Deps()), work), w0, TaskLine(spawned0, old(sys.Abs()).queue))
  {
    hide System.Valid, System.Abs, Scheduler.Valid, Accounts, Orders, Tied, Turn, Rank, Step;
    hide Table.Valid, Table.Deps, Logged, Exec, Schedule, TaskLine, Behind, Going;
    ghost var g := Plan(table.Deps(), work);
    ghost var all := Schedule(g, w0, TaskLine(spawned0, sys.Abs().queue));
    var spawned;
    phase, spawned, w, log := phase0, spawned0, w0, [];
    StartsGoing(g, w0, sys.Abs());
    while true
      invariant sys.Valid() && sys.running == null && fresh(sys.Repr() - old(sys.Repr())) && table.Repr() !! sys.Repr()
      invariant Inv(g, w) && Holds(table, g, w) && phase == w.phase && spawned == w.spawned
      invariant Going(g, w0, all, log, w, sys.Abs())
      decreases Rank(g, w)
    {
      ghost var s := sys.Abs();
      if s.queue != [] { ResumesGoing(g, w0, all, log, w, s); } else { EndsGoing(g, w0, all, log, w, s); }
      var co := sys.ResumeNext();
      if co == null { return; }
      var t := spawned[Position(co)];
      ResumedQueue(s);
      phase, spawned := TakeTurn(table, work, phase, spawned, sys, Position(co), w);
      KeepsGoing(g, w0, all, log, w, s, sys.Abs());
      w, log := Turn(g, w, t), log + [t];
    }
  }

  lemma ResumedQueue(s: State)
    requires Enabled(s, Resume)
    ensures Step(s, Resume).queue == s.queue[1..]
  {
  }

  /** `main` after the graph is built: finalize, seed the roots and call `co_run`, over the table in memory. It
      returns, and the tasks that finished are exactly those from which no cycle and no duplicated or unknown
      dependency can be reached. `log` lists the tasks as they were resumed: a task that finished took one turn for
      each yield of its work function and one to finish, the others none. */
  method RunGraph(table: Table, work: seq<nat>) returns (phase: seq<Phase>, log: seq<nat>)
    requires table.Valid() && |work| == table.count <= MAX_COROUTINES
    modifies table.remaining
    ensures table.Valid() && table.Deps() == old(table.Deps())
    ensures |phase| == table.count && forall t :: 0 <= t < |phase| ==> !phase[t].Live?
    ensures var g := Plan(table.Deps(), work);
            forall t: nat :: t < |phase| ==> (phase[t].Over? <==> !ReachesCycleOr(DepGraph(g), Blocked(g), t))
    ensures phase == Exec(Plan(table.Deps(), work), Initial(Plan(table.Deps(), work)), log).phase
    ensures forall t: nat :: t < |phase| ==> Count(log, Is(t)) == if phase[t].Over? then work[t] + 1 else 0
    ensures log == TheSchedule(Plan(table.Deps(), work))
  {
    hide System.Valid, System.Abs, Scheduler.Valid, Accounts, Orders, Tied, ReachesCycleOr, Schedule, RootsOf;
    ghost var g := Plan(table.Deps(), work);
    InitialInv(g);
    Seeding(g);
    var spawned;
    phase, spawned := Prepare(table, work);
    var sys := new System();
    SpawnAll(sys, spawned, phase, []);
    assert [] + spawned == spawned && TaskLine([], []) == [];
    ghost var w;
    phase, log, w := Drive(table, work, phase, spawned, sys, Initial(g));
    LogIsComplete(g, log, w);
    hide Logged, Exec, Is;
    forall t: nat | t < |phase| ensures phase[t].Over? <==> !ReachesCycleOr(DepGraph(g), Blocked(g), t) {
      QuiescentExactly(g, w, t);
    }
  }

  /** The whole run: the roots in the order of their index, then first in, first out. */
  ghost function TheSchedule(g: Plan): seq<nat>
    requires IsPlan(g)
  {
    InitialInv(g);
    Schedule(g, Initial(g), RootsOf(g.deps))
  }

  lemma LogIsComplete(g: Plan, log: seq<nat>, w: Mem)
    requires IsPlan(g) && Logged(g, Initial(g), log, w) && Quiescent(w)
    ensures forall t: nat :: t < |g.deps| ==> Count(log, Is(t)) == if w.phase[t].Over? then g.work[t] + 1 else 0
  {
  }

  lemma SeededPhases(g: Plan)
    requires IsPlan(g)
    ensures var n := |g.work|; var roots := RootsOf(g.deps);
            Initial(g).phase == seq(n, t requires 0 <= t < n => if t in roots then Live(g.work[t]) else Idle)
  {
    SelectSpec(|g.deps|, (t: nat) => t < |g.deps| && g.deps[t] == []);
  }
}
