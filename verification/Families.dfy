/**
 When `co_run` ends with every coroutine DONE, told from the bodies before the run, for programs whose coroutines
 create others and await the coroutines of `main` or their own children.
 */
module Families {
  import opened Sequences
  import opened Graphs
  import opened Scheduler
  import opened Programs
  import opened Deadlock

  // ---------------------------------------------------------------------------------------------
  // What a body waits for, itself or through the children that it awaits

  /** What it means to await coroutine `t`: one of the first `n` stands for itself, a later one for what it waits
      for. */
  function Meaning(t: nat, deep: Graph, n: nat): set<nat> {
    if t < n then {t} else if t < |deep| then deep[t] else {}
  }

  /** The coroutines of `main` that the calls `rest` wait for. `deep` has this for the coroutines that exist, `kids` for
      those that `rest` has created so far; `m` children were created before. */
  function Deep(rest: Body, deep: Graph, n: nat, kids: Graph, m: nat): set<nat>
    decreases rest
  {
    if rest == [] then {}
    else
      match rest[0]
      case YieldOp => Deep(rest[1..], deep, n, kids, m)
      case AwaitOp(t) => Meaning(t, deep, n) + Deep(rest[1..], deep, n, kids, m)
      case CreateOp(b) => Deep(rest[1..], deep, n, kids + [Deep(b, [], n, [], 0)], m)
      case AwaitChild(k) =>
        (if m <= k < m + |kids| then kids[k - m] else {}) + Deep(rest[1..], deep, n, kids, m)
  }

  /** Awaits in `rest` name coroutines below `all` or children that were created before; the bodies that it creates
      await the first `n` coroutines and their own children. */
  predicate Scoped(rest: Body, all: nat, n: nat, m: nat, kids: nat)
    decreases rest
  {
    rest == []
    || match rest[0]
       case YieldOp => Scoped(rest[1..], all, n, m, kids)
       case AwaitOp(t) => t < all && Scoped(rest[1..], all, n, m, kids)
       case CreateOp(b) => Scoped(b, n, n, 0, 0) && Scoped(rest[1..], all, n, m, kids + 1)
       case AwaitChild(k) => m <= k < m + kids && Scoped(rest[1..], all, n, m, kids)
  }

  /** For each body of `main`, the coroutines of `main` that it waits for. */
  function DeepGraph(bodies: seq<Body>): (g: Graph)
    ensures |g| == |bodies|
  {
    seq(|bodies|, c requires 0 <= c < |bodies| => Deep(bodies[c], [], |bodies|, [], 0))
  }

  lemma {:induction false} ScopedGrows(rest: Body, all: nat, all': nat, n: nat, m: nat, kids: nat)
    requires Scoped(rest, all, n, m, kids) && all <= all'
    ensures Scoped(rest, all', n, m, kids)
    decreases rest
  {
    if rest != [] { ScopedGrows(rest[1..], all, all', n, m, if rest[0].CreateOp? then kids + 1 else kids); }
  }

  /** Only the coroutines that `rest` can name matter. */
  lemma {:induction false} DeepAgrees(rest: Body, deep: Graph, deep': Graph, all: nat, n: nat, kids: Graph, m: nat)
    requires Scoped(rest, all, n, m, |kids|)
    requires all <= n || (all <= |deep| && all <= |deep'| && forall t :: n <= t < all ==> deep[t] == deep'[t])
    ensures Deep(rest, deep, n, kids, m) == Deep(rest, deep', n, kids, m)
    decreases rest
  {
    if rest != [] {
      if rest[0].CreateOp? {
        DeepAgrees(rest[1..], deep, deep', all, n, kids + [Deep(rest[0].body, [], n, [], 0)], m);
      } else {
        DeepAgrees(rest[1..], deep, deep', all, n, kids, m);
      }
    }
  }

  /** The pointer to a new child stands for what the child waits for. */
  lemma {:induction false} DeepBound(rest: Body, deep: Graph, n: nat, x: set<nat>, kids: Graph, m: nat)
    requires n <= |deep| && Scoped(rest, |deep|, n, m, 1 + |kids|)
    ensures var bound := Bind(rest, 0, m, |deep|);
            && Scoped(bound, |deep| + 1, n, m + 1, |kids|)
            && Deep(bound, deep + [x], n, kids, m + 1) == Deep(rest, deep, n, [x] + kids, m)
    decreases rest
  {
    if rest != [] {
      var y := if rest[0].CreateOp? then [Deep(rest[0].body, [], n, [], 0)] else [];
      assert Bind(rest, 0, m, |deep|)[1..] == Bind(rest[1..], 0, m, |deep|);
      assert [x] + (kids + y) == ([x] + kids) + y;
      assert kids + [] == kids && ([x] + kids) + [] == [x] + kids;
      DeepBound(rest[1..], deep, n, x, kids + y, m);
    }
  }

  lemma {:induction false} DeepNamesMain(rest: Body, deep: Graph, n: nat, kids: Graph, m: nat)
    requires forall t, v :: 0 <= t < |deep| && v in deep[t] ==> v < n
    requires forall t, v :: 0 <= t < |kids| && v in kids[t] ==> v < n
    ensures forall v :: v in Deep(rest, deep, n, kids, m) ==> v < n
    decreases rest
  {
    if rest != [] {
      if rest[0].CreateOp? {
        DeepNamesMain(rest[0].body, [], n, [], 0);
        DeepNamesMain(rest[1..], deep, n, kids + [Deep(rest[0].body, [], n, [], 0)], m);
      } else {
        DeepNamesMain(rest[1..], deep, n, kids, m);
      }
    }
  }

  // ---------------------------------------------------------------------------------------------
  // What every step keeps

  /** What the calls `past` have waited for. */
  function Awaited(past: Body, deep: Graph, n: nat): set<nat> {
    if past == [] then {}
    else
      var op := past[|past| - 1];
      Awaited(past[..|past| - 1], deep, n) + (if op.AwaitOp? then Meaning(op.target, deep, n) else {})
  }

  lemma {:induction false} AwaitedAgrees(past: Body, deep: Graph, x: set<nat>, n: nat)
    requires forall j :: 0 <= j < |past| && past[j].AwaitOp? ==> past[j].target < |deep|
    ensures Awaited(past, deep + [x], n) == Awaited(past, deep, n)
  {
    if past != [] { AwaitedAgrees(past[..|past| - 1], deep, x, n); }
  }

  lemma {:induction false} AwaitedSpec(past: Body, deep: Graph, n: nat, j: nat)
    requires j < |past| && past[j].AwaitOp?
    ensures Meaning(past[j].target, deep, n) <= Awaited(past, deep, n)
  {
    if j < |past| - 1 { AwaitedSpec(past[..|past| - 1], deep, n, j); }
  }

  lemma {:induction false} AwaitedFrom(past: Body, deep: Graph, n: nat, v: nat) returns (j: nat)
    requires v in Awaited(past, deep, n)
    ensures j < |past| && past[j].AwaitOp? && v in Meaning(past[j].target, deep, n)
  {
    var last := |past| - 1;
    if past[last].AwaitOp? && v in Meaning(past[last].target, deep, n) {
      j := last;
    } else {
      j := AwaitedFrom(past[..last], deep, n, v);
    }
  }

  /** How many children the first `pc` calls have created. */
  function Born(b: Body, pc: nat): nat
    requires pc <= |b|
  {
    Count(b[..pc], IsCreate())
  }

  /** A coroutine's pointers to other than `main`'s coroutines are to later ones, its calls to come are in scope, and
      `deep[c]` is what it has waited for and will wait for. */
  predicate Member(b: Body, pc: nat, c: nat, deep: Graph, n: nat)
    requires c < |deep|
  {
    && pc <= |b|
    && (forall j :: 0 <= j < |b| && b[j].AwaitOp? ==>
                      b[j].target < |deep| && (n <= b[j].target ==> c < b[j].target))
    && Scoped(b[pc..], |deep|, n, Born(b, pc), 0)
    && deep[c] == Awaited(b[..pc], deep, n) + Deep(b[pc..], deep, n, [], Born(b, pc))
  }

  ghost predicate Kin(bodies: seq<Body>, p: Prog, deep: Graph) {
    && |bodies| <= |deep| == |p.body| == |p.pc| == |p.s.co| && deep[..|bodies|] == DeepGraph(bodies)
    && (forall c, v :: 0 <= c < |deep| && v in deep[c] ==> v < |bodies|)
    && (forall c: nat :: c < |deep| ==> Member(p.body[c], p.pc[c], c, deep, |bodies|))
  }

  /** One call that is no creation. */
  lemma MemberCalls(b: Body, pc: nat, c: nat, deep: Graph, n: nat)
    requires c < |deep| && Member(b, pc, c, deep, n) && pc < |b| && !b[pc].CreateOp?
    ensures !b[pc].AwaitChild? && Member(b, pc + 1, c, deep, n)
  {
    assert b[pc..][0] == b[pc] && b[pc..][1..] == b[pc + 1..];
    assert b[..pc + 1][..pc] == b[..pc];
  }

  /** Another coroutine was created. */
  lemma MemberGrows(b: Body, pc: nat, c: nat, deep: Graph, x: set<nat>, n: nat)
    requires c < |deep| && n <= |deep| && Member(b, pc, c, deep, n)
    ensures Member(b, pc, c, deep + [x], n)
  {
    ScopedGrows(b[pc..], |deep|, |deep| + 1, n, Born(b, pc), 0);
    DeepAgrees(b[pc..], deep, deep + [x], |deep|, n, [], Born(b, pc));
    AwaitedAgrees(b[..pc], deep, x, n);
  }

  /** The calls to come, when the next one creates a child that waits for `x`. */
  lemma CreationAhead(rest: Body, deep: Graph, n: nat, m: nat)
    requires n <= |deep| && rest != [] && rest[0].CreateOp? && Scoped(rest, |deep|, n, m, 0)
    ensures var x := Deep(rest[0].body, [], n, [], 0); var bound := Bind(rest[1..], 0, m, |deep|);
            && Scoped(rest[0].body, n, n, 0, 0) && Scoped(bound, |deep| + 1, n, m + 1, 0)
            && Deep(bound, deep + [x], n, [], m + 1) == Deep(rest, deep, n, [], m)
  {
    var x := Deep(rest[0].body, [], n, [], 0);
    assert [] + [x] == [x] + [];
    DeepBound(rest[1..], deep, n, x, [], m);
  }

  /** The calls made, when the last one created a child. */
  lemma CreationPast(b: Body, pc: nat, deep: Graph, x: set<nat>, n: nat)
    requires pc < |b| && b[pc].CreateOp?
    requires forall j :: 0 <= j < |b| && b[j].AwaitOp? ==> b[j].target < |deep|
    ensures Awaited(b[..pc + 1], deep + [x], n) == Awaited(b[..pc], deep, n) && Born(b, pc + 1) == Born(b, pc) + 1
  {
    assert b[..pc + 1][..pc] == b[..pc];
    AwaitedAgrees(b[..pc + 1], deep, x, n);
  }

  /** The coroutine itself creates one and keeps the pointer. */
  lemma MemberCreates(b: Body, pc: nat, c: nat, deep: Graph, n: nat)
    requires c < |deep| && n <= |deep| && Member(b, pc, c, deep, n) && pc < |b| && b[pc].CreateOp?
    ensures var x := Deep(b[pc].body, [], n, [], 0);
            && Scoped(b[pc].body, n, n, 0, 0)
            && Member(Bind(b, pc + 1, Born(b, pc), |deep|), pc + 1, c, deep + [x], n)
  {
    hide Scoped, Deep, Awaited, Count;
    var x, m := Deep(b[pc].body, [], n, [], 0), Born(b, pc);
    var b' := Bind(b, pc + 1, m, |deep|);
    assert b[pc..][0] == b[pc] && b[pc..][1..] == b[pc + 1..];
    CreationAhead(b[pc..], deep, n, m);
    CreationPast(b, pc, deep, x, n);
    assert b'[..pc + 1] == b[..pc + 1] && b'[pc + 1..] == Bind(b[pc + 1..], 0, m, |deep|);
  }

  lemma NewMember(b: Body, deep: Graph, n: nat)
    requires n <= |deep| && Scoped(b, n, n, 0, 0)
    ensures Member(b, 0, |deep|, deep + [Deep(b, [], n, [], 0)], n)
  {
    var deep' := deep + [Deep(b, [], n, [], 0)];
    assert b[0..] == b && b[..0] == [];
    ScopedGrows(b, n, |deep'|, n, 0, 0);
    DeepAgrees(b, [], deep', n, n, [], 0);
    ScopedNames(b, n, n, 0, 0);
  }

  lemma {:induction false} ScopedNames(rest: Body, all: nat, n: nat, m: nat, kids: nat)
    requires Scoped(rest, all, n, m, kids)
    ensures forall j :: 0 <= j < |rest| && rest[j].AwaitOp? ==> rest[j].target < all
    decreases rest
  {
    if rest != [] {
      ScopedNames(rest[1..], all, n, m, if rest[0].CreateOp? then kids + 1 else kids);
      forall j | 0 <= j < |rest| && rest[j].AwaitOp? ensures rest[j].target < all {
        if j > 0 { assert rest[j] == rest[1..][j - 1]; }
      }
    }
  }

  // ---------------------------------------------------------------------------------------------
  // Room in the registry

  /** How many coroutines a body creates, itself or through those that it creates. */
  function Creations(b: Body): nat {
    if b == [] then 0 else (if b[0].CreateOp? then 1 + Creations(b[0].body) else 0) + Creations(b[1..])
  }

  lemma {:induction false} BindCreations(b: Body, k: nat, id: nat)
    ensures Creations(Bind(b, 0, k, id)) == Creations(b)
  {
    if b != [] {
      assert Bind(b, 0, k, id)[1..] == Bind(b[1..], 0, k, id);
      BindCreations(b[1..], k, id);
    }
  }

  function Upcoming(body: seq<Body>, pc: seq<nat>): (r: seq<nat>)
    requires |body| == |pc|
    ensures |r| == |body|
  {
    seq(|body|, c requires 0 <= c < |body| => if pc[c] <= |body[c]| then Creations(body[c][pc[c]..]) else 0)
  }

  function ToCreate(body: seq<Body>, pc: seq<nat>): nat
    requires |body| == |pc|
  {
    Sum(Upcoming(body, pc), (x: nat) => x)
  }

  /** One call uses up one place of the body; what it creates is still to be created by the new coroutine. */
  lemma CallCreates(body: seq<Body>, pc: seq<nat>, r: nat)
    requires |body| == |pc| && r < |body| && pc[r] < |body[r]|
    ensures var op := body[r][pc[r]]; var pc' := pc[r := pc[r] + 1];
            && (!op.CreateOp? ==> ToCreate(body, pc') == ToCreate(body, pc))
            && (op.CreateOp? ==> ToCreate(AfterCreate(body, pc[r], r), pc' + [0]) + 1 == ToCreate(body, pc))
  {
    var op, pc' := body[r][pc[r]], pc[r := pc[r] + 1];
    var rest := body[r][pc[r]..];
    assert rest[0] == op && rest[1..] == body[r][pc[r] + 1..];
    var v := Creations(rest[1..]);
    SumUpdate(Upcoming(body, pc), (x: nat) => x, r, v);
    assert Upcoming(body, pc') == Upcoming(body, pc)[r := v];
    if op.CreateOp? { NewCreates(body, pc, r); }
  }

  lemma NewCreates(body: seq<Body>, pc: seq<nat>, r: nat)
    requires |body| == |pc| && r < |body| && pc[r] < |body[r]| && body[r][pc[r]].CreateOp?
    ensures var pc' := pc[r := pc[r] + 1];
            ToCreate(AfterCreate(body, pc[r], r), pc' + [0]) == ToCreate(body, pc') + Creations(body[r][pc[r]].body)
  {
    var b, pc', from := body[r][pc[r]].body, pc[r := pc[r] + 1], pc[r] + 1;
    var body', k := AfterCreate(body, pc[r], r), Count(body[r][..pc[r]], IsCreate());
    BindCreations(body[r][from..], k, |body|);
    assert body'[r][from..] == Bind(body[r][from..], 0, k, |body|);
    var all := Upcoming(body', pc' + [0]);
    assert b[0..] == b;
    assert all[..|body|] == Upcoming(body, pc') && all[|body|] == Creations(b);
  }

  // ---------------------------------------------------------------------------------------------
  // Whole runs

  /** The registry has room for all coroutines that are still to be created. */
  predicate Fits(p: Prog) {
    |p.body| == |p.pc| && |p.s.co| + ToCreate(p.body, p.pc) <= MAX_COROUTINES
  }

  function DeepAfter(p: Prog, deep: Graph, n: nat): Graph
    requires Consistent(p) && Next(p).Go?
  {
    if Next(p).act.Create? then
      deep + [Deep(p.body[p.s.running.value][p.pc[p.s.running.value]].body, [], n, [], 0)]
    else deep
  }

  lemma KinCreates(bodies: seq<Body>, p: Prog, deep: Graph)
    requires Consistent(p) && Kin(bodies, p, deep) && Next(p) == Go(Create)
    ensures Kin(bodies, Advance(p), DeepAfter(p, deep, |bodies|))
  {
    var r, n, q := p.s.running.value, |bodies|, Advance(p);
    var b, deep' := p.body[r][p.pc[r]].body, DeepAfter(p, deep, n);
    assert |q.s.co| == |p.s.co| + 1;
    hide Valid, CallsMatch;
    assert Member(p.body[r], p.pc[r], r, deep, n);
    MemberCreates(p.body[r], p.pc[r], r, deep, n);
    NewMember(b, deep, n);
    DeepNamesMain(b, [], n, [], 0);
    forall c: nat | c < |deep'| ensures Member(q.body[c], q.pc[c], c, deep', n) {
      if c < |deep| && c != r {
        assert Member(p.body[c], p.pc[c], c, deep, n);
        MemberGrows(p.body[c], p.pc[c], c, deep, deep'[|deep|], n);
      }
    }
    assert deep'[..n] == deep[..n];
  }

  lemma KinCalls(bodies: seq<Body>, p: Prog, deep: Graph)
    requires Consistent(p) && Kin(bodies, p, deep) && p.s.running.Some?
    requires var r := p.s.running.value; p.pc[r] < |p.body[r]| && !p.body[r][p.pc[r]].CreateOp?
    ensures Next(p).Go? && !Next(p).act.Create? && Kin(bodies, Advance(p), deep)
  {
    var r := p.s.running.value;
    assert Member(p.body[r], p.pc[r], r, deep, |bodies|);
    MemberCalls(p.body[r], p.pc[r], r, deep, |bodies|);
    assert p.body[r][p.pc[r]].AwaitOp? ==> p.body[r][p.pc[r]].target < |deep|;
    hide Valid, CallsMatch, Member;
  }

  lemma KinStep(bodies: seq<Body>, p: Prog, deep: Graph)
    requires Consistent(p) && Kin(bodies, p, deep) && Fits(p)
    ensures !Next(p).Abort?
    ensures Next(p).Go? ==> Kin(bodies, Advance(p), DeepAfter(p, deep, |bodies|))
  {
    hide ToCreate, Member;
    if p.s.running.Some? && p.pc[p.s.running.value] < |p.body[p.s.running.value]| {
      var r := p.s.running.value;
      CallCreates(p.body, p.pc, r);
      hide Valid, CallsMatch, Kin;
      if p.body[r][p.pc[r]].CreateOp? { KinCreates(bodies, p, deep); } else { KinCalls(bodies, p, deep); }
    }
  }

  lemma FitsStep(p: Prog)
    requires Consistent(p) && Fits(p) && Next(p).Go?
    ensures Fits(Advance(p))
  {
    hide ToCreate;
    if p.s.running.Some? && p.pc[p.s.running.value] < |p.body[p.s.running.value]| {
      CallCreates(p.body, p.pc, p.s.running.value);
      hide Valid, CallsMatch;
    }
  }

  lemma {:induction false} KinRunHalts(bodies: seq<Body>, p: Prog, deep: Graph) returns (deep': Graph)
    requires Consistent(p) && Kin(bodies, p, deep) && Fits(p)
    ensures Next(Final(p)).Halt? && Kin(bodies, Final(p), deep')
    decreases Work(p)
  {
    hide Consistent, Kin, Fits;
    KinStep(bodies, p, deep);
    if Next(p).Go? {
      AdvanceDecreasesWork(p);
      FitsStep(p);
      deep' := KinRunHalts(bodies, Advance(p), DeepAfter(p, deep, |bodies|));
    } else {
      deep' := deep;
    }
  }

  /** All that a finished coroutine waited for, itself or through its children, finished before it. */
  lemma {:induction false} FinishedDeep(bodies: seq<Body>, p: Prog, deep: Graph, ord: seq<nat>, k: nat, v: nat)
    requires Consistent(p) && Kin(bodies, p, deep) && FinishOrder(p, ord) && k < |ord| && v in deep[ord[k]]
    ensures v in ord[..k]
    decreases k
  {
    var c, n := ord[k], |bodies|;
    assert Member(p.body[c], p.pc[c], c, deep, n) && CallsMatch(p.s.co[c], p.body[c], p.pc[c]);
    assert p.body[c][..p.pc[c]] == p.body[c] && p.body[c][p.pc[c]..] == [];
    var j := AwaitedFrom(p.body[c], deep, n, v);
    var t := p.body[c][j].target;
    assert t in Targets(p.body[c]);
    if t >= n {
      var i :| 0 <= i < k && ord[i] == t;
      FinishedDeep(bodies, p, deep, ord, i, v);
      assert ord[..i] <= ord[..k];
    }
  }

  /** With an empty queue, an unfinished coroutine waits, itself or through its children, for an unfinished coroutine of
      `main`. */
  lemma {:induction false} WaitsForMain(bodies: seq<Body>, p: Prog, deep: Graph, c: nat) returns (u: nat)
    requires Consistent(p) && Kin(bodies, p, deep) && Next(p).Halt? && c < |p.s.co| && !p.s.co[c].Done?
    ensures u < |bodies| && u in deep[c] && !p.s.co[u].Done?
    decreases |deep| - c
  {
    HaltedWaits(p, c);
    var b, pc, t := p.body[c], p.pc[c], p.s.co[c].on;
    assert Member(b, pc, c, deep, |bodies|) && CallsMatch(p.s.co[c], b, pc);
    assert b[pc - 1] == AwaitOp(t) && b[..pc][pc - 1] == b[pc - 1];
    AwaitedSpec(b[..pc], deep, |bodies|, pc - 1);
    if t < |bodies| {
      u := t;
    } else {
      u := WaitsForMain(bodies, p, deep, t);
    }
  }

  lemma HaltedDeep(bodies: seq<Body>, p: Prog, deep: Graph, ord: seq<nat>, c: nat)
    requires Consistent(p) && FinishOrder(p, ord) && Kin(bodies, p, deep) && Next(p).Halt? && c < |p.s.co|
    ensures p.s.co[c].Done? <==> !ReachesCycle(deep, c)
  {
    if p.s.co[c].Done? {
      forall k, v | 0 <= k < |ord| && v in deep[ord[k]] ensures v in ord[..k] {
        FinishedDeep(bodies, p, deep, ord, k, v);
      }
      assert CompletionOrder(deep, {}, ord);
      CompletedAreSafe(deep, {}, ord, c);
    } else {
      var x := Unfinished(p.s.co);
      forall i | i in x ensures deep[i] * x != {} {
        var u := WaitsForMain(bodies, p, deep, i);
        assert u in deep[i] * x;
      }
      TrappedInside(deep, {}, x, c);
    }
  }

  // ---------------------------------------------------------------------------------------------
  // The documented promise of `co_run`

  /** What a caller can check before the run: the bodies await coroutines that `main` creates or children that they have
      created before, and the registry has room for everything that will be created. */
  predicate SelfContained(bodies: seq<Body>) {
    && (forall c: nat :: c < |bodies| ==> Scoped(bodies[c], |bodies|, |bodies|, 0, 0))
    && |bodies| + ToCreate(bodies, seq(|bodies|, _ => 0)) <= MAX_COROUTINES
  }

  lemma StartIsKin(bodies: seq<Body>)
    requires SelfContained(bodies)
    ensures Kin(bodies, Start(bodies), DeepGraph(bodies)) && Fits(Start(bodies))
  {
    var n, deep := |bodies|, DeepGraph(bodies);
    forall c: nat | c < n ensures Member(bodies[c], 0, c, deep, n) && forall v :: v in deep[c] ==> v < n {
      var b := bodies[c];
      assert b[0..] == b && b[..0] == [];
      DeepAgrees(b, [], deep, n, n, [], 0);
      DeepNamesMain(b, [], n, [], 0);
      ScopedNames(b, n, n, 0, 0);
    }
  }

  lemma KinLeadsInto(bodies: seq<Body>, p: Prog, deep: Graph)
    requires Kin(bodies, p, deep)
    ensures LeadsInto(deep, DeepGraph(bodies))
  {
    hide DeepGraph, Member;
  }

  /** The documented promise of `co_run`, that it ends with every coroutine DONE, holds if and only if no cycle can be
      reached among the coroutines of `main`, where each leads to those that it waits for, itself or through the
      children that it awaits; each of them is completed if and only if no cycle can be reached from it. */
  lemma PromiseExactly(bodies: seq<Body>)
    requires SelfContained(bodies)
    ensures var f := Final(Start(bodies)); var g := DeepGraph(bodies);
            && Next(f).Halt? && |bodies| <= |f.s.co|
            && (forall c: nat :: c < |bodies| ==> (f.s.co[c].Done? <==> !ReachesCycle(g, c)))
            && ((forall c: nat :: c < |f.s.co| ==> f.s.co[c].Done?)
                <==> (forall c: nat :: c < |bodies| ==> !ReachesCycle(g, c)))
  {
    var p, g := Start(bodies), DeepGraph(bodies);
    StartIsKin(bodies);
    var deep := KinRunHalts(bodies, p, g);
    var f := Final(p);
    FinalIsSound(p, []);
    KinLeadsInto(bodies, f, deep);
    hide Valid, CallsMatch, DeepGraph, ReachesCycle, LeadsInto, Start, Final, Member, FinishOrder, AllAwaitsKept;
    forall c: nat | c < |f.s.co| ensures f.s.co[c].Done? <==> !ReachesCycle(deep, c) {
      HaltedDeep(bodies, f, deep, Finished(p, []), c);
    }
    forall c: nat | c < |bodies| ensures ReachesCycle(deep, c) <==> ReachesCycle(g, c) { SameCycles(deep, g, c); }
    forall c: nat | |bodies| <= c < |f.s.co| && !f.s.co[c].Done?
      ensures exists d: nat :: d < |bodies| && ReachesCycle(g, d)
    {
      var d := CycleIsInside(deep, g, c);
    }
  }

  /** The body, and what it creates, awaits only its own children. */
  predicate OnlyChildren(b: Body) {
    forall j :: 0 <= j < |b| ==> !b[j].AwaitOp? && (b[j].CreateOp? ==> OnlyChildren(b[j].body))
  }

  lemma {:induction false} OnlyChildrenDeep(b: Body, n: nat, kids: Graph)
    requires OnlyChildren(b) && forall k :: 0 <= k < |kids| ==> kids[k] == {}
    ensures Deep(b, [], n, kids, 0) == {}
    decreases b
  {
    if b != [] {
      assert forall j :: 0 <= j < |b| - 1 ==> b[1..][j] == b[j + 1];
      if b[0].CreateOp? {
        OnlyChildrenDeep(b[0].body, n, []);
        OnlyChildrenDeep(b[1..], n, kids + [{}]);
      } else {
        OnlyChildrenDeep(b[1..], n, kids);
      }
    }
  }

  /** Coroutines that await only their own children, at any depth, all finish. */
  lemma OwnChildrenAllDone(bodies: seq<Body>)
    requires SelfContained(bodies) && forall c: nat :: c < |bodies| ==> OnlyChildren(bodies[c])
    ensures var f := Final(Start(bodies)); Next(f).Halt? && forall c: nat :: c < |f.s.co| ==> f.s.co[c].Done?
  {
    var g := DeepGraph(bodies);
    forall c: nat | c < |bodies| ensures g[c] == {} { OnlyChildrenDeep(bodies[c], |bodies|, []); }
    hide DeepGraph, Final, Start, ReachesCycle, SelfContained, OnlyChildren, Valid, CallsMatch;
    forall c: nat | c < |bodies| ensures !ReachesCycle(g, c) { RankedIsAcyclic(g, seq(|g|, _ => 0), c); }
    PromiseExactly(bodies);
  }

  lemma {:induction false} DeepIsTargets(b: Body, n: nat, kids: Graph)
    requires forall j :: 0 <= j < |b| ==> !b[j].AwaitChild? && (b[j].AwaitOp? ==> b[j].target < n)
    ensures Deep(b, [], n, kids, 0) == Targets(b)
    decreases b
  {
    if b != [] {
      assert forall j :: 0 <= j < |b| - 1 ==> b[1..][j] == b[j + 1];
      DeepIsTargets(b[1..], n, if b[0].CreateOp? then kids + [Deep(b[0].body, [], n, [], 0)] else kids);
      assert Targets(b) == Targets(b[1..]) + (if b[0].AwaitOp? then {b[0].target} else {}) by {
        assert forall j :: 0 < j < |b| ==> b[j] == b[1..][j - 1];
      }
    }
  }

  /** If no coroutine of `main` awaits a child, the graph is that of the bodies' awaits. */
  lemma DeepIsAwaitGraph(bodies: seq<Body>)
    requires SelfContained(bodies)
    requires forall c: nat, j: nat :: c < |bodies| && j < |bodies[c]| ==> !bodies[c][j].AwaitChild?
    ensures DeepGraph(bodies) == AwaitGraph(bodies)
  {
    forall c: nat | c < |bodies| ensures DeepGraph(bodies)[c] == AwaitGraph(bodies)[c] {
      ScopedNames(bodies[c], |bodies|, |bodies|, 0, 0);
      DeepIsTargets(bodies[c], |bodies|, []);
    }
  }

  lemma SelfLoop(g: Graph)
    requires |g| == 1 && 0 in g[0]
    ensures ReachesCycle(g, 0)
  {
    var p := [0, 0];
    assert IsPath(g, p) && p[..1] == [0] && Doomed({}, p);
  }

  /** A coroutine that awaits its child `child` waits for what the child waits for. */
  lemma SpawnAndJoin(child: Body, n: nat)
    requires Scoped(child, n, n, 0, 0)
    ensures var b := [CreateOp(child), AwaitChild(0)];
            && Deep(b, [], n, [], 0) == Deep(child, [], n, [], 0) && Scoped(b, n, n, 0, 0)
            && Creations(b) == 1 + Creations(child)
  {
    var b, x := [CreateOp(child), AwaitChild(0)], Deep(child, [], n, [], 0);
    assert b[0].body == child && b[1..] == [AwaitChild(0)] && b[1..][1..] == [];
    assert Deep(b[1..], [], n, [x], 0) == x && [] + [x] == [x];
    assert Scoped(b[1..], n, n, 0, 1);
    assert Creations(b[1..]) == 0;
  }

  lemma OneSelfContained(b: Body)
    requires Scoped(b, 1, 1, 0, 0) && 1 + Creations(b) <= MAX_COROUTINES
    ensures SelfContained([b])
  {
    hide Scoped, Creations;
    var bodies := [b];
    var up := Upcoming(bodies, seq(|bodies|, _ => 0));
    assert bodies[0][0..] == b;
    assert up[0] == Creations(b) && up[..|up| - 1] == [];
    assert Sum(up, (x: nat) => x) == Sum(up[..|up| - 1], (x: nat) => x) + up[0];
  }

  /** Waiting through a child: the coroutine awaits its child, which awaits it. Neither finishes. */
  lemma ChildAwaitsParent()
    ensures var bodies := [[CreateOp([AwaitOp(0)]), AwaitChild(0)]];
            && SelfContained(bodies) && DeepGraph(bodies) == [{0}]
            && |Final(Start(bodies)).s.co| > 0 && !Final(Start(bodies)).s.co[0].Done?
  {
    var child := [AwaitOp(0)];
    var bodies := [[CreateOp(child), AwaitChild(0)]];
    assert child[1..] == [] && Deep(child, [], 1, [], 0) == {0} && Creations(child) == 0;
    SpawnAndJoin(child, 1);
    OneSelfContained(bodies[0]);
    assert DeepGraph(bodies) == [{0}];
    hide Final, Start, Creations, Deep, SelfContained, DeepGraph;
    SelfLoop([{0}]);
    PromiseExactly(bodies);
  }
}
