/** Which coroutines a run of `co_run` completes, and which it leaves WAITING. */
module Deadlock {
  import opened Sequences
  import opened Graphs
  import opened Scheduler
  import opened Programs

  // ---------------------------------------------------------------------------------------------
  // The waits-for graph of one state

  function WaitGraph(co: seq<Status>): Graph {
    seq(|co|, c requires 0 <= c < |co| => if co[c].Waiting? then {co[c].on} else {})
  }

  /** Every member waits for a member. */
  predicate WaitsWithin(co: seq<Status>, x: set<nat>) {
    forall c :: c in x ==> c < |co| && co[c].Waiting? && co[c].on in x
  }

  lemma WaitIsKept(s: State, a: Action, c: nat)
    requires Valid(s) && Enabled(s, a) && c < |s.co| && s.co[c].Waiting?
    requires s.co[c].on < |s.co| && s.co[s.co[c].on].Waiting?
    ensures c < |Step(s, a).co| && Step(s, a).co[c] == s.co[c]
  {
    if s.running.Some? { assert s.co[s.running.value].Running?; }
    if a.Resume? { assert s.co[s.queue[0]].Ready?; }
  }

  lemma {:induction false} WaitersWithinStay(s: State, x: set<nat>, acts: seq<Action>)
    requires Valid(s) && Legal(s, acts) && WaitsWithin(s.co, x)
    ensures WaitsWithin(Exec(s, acts).co, x)
    ensures forall c :: c in x ==> Exec(s, acts).co[c] == s.co[c]
    decreases |acts|
  {
    if acts != [] {
      var s' := Step(s, acts[0]);
      StepKeepsValid(s, acts[0]);
      forall c | c in x ensures c < |s'.co| && s'.co[c] == s.co[c] {
        WaitIsKept(s, acts[0], c);
      }
      WaitersWithinStay(s', x, acts[1..]);
    }
  }

  /** A coroutine whose chain of awaits leads into a cycle (its own included) stays WAITING for the same
      coroutine for ever, whatever the others do and however many more coroutines are created. */
  lemma StuckForever(s: State, c: nat, acts: seq<Action>)
    requires Valid(s) && Legal(s, acts) && ReachesCycle(WaitGraph(s.co), c)
    ensures c < |Exec(s, acts).co| && Exec(s, acts).co[c].Waiting? && Exec(s, acts).co[c] == s.co[c]
  {
    var g := WaitGraph(s.co);
    var p: seq<nat> :| IsPath(g, p) && p[0] == c && Doomed({}, p);
    var n := |p| - 1;
    var x := set i | 0 <= i < n :: p[i];
    assert p[n] in x && p[0] in x;
    forall i | 0 <= i < n ensures p[i] < |s.co| && s.co[p[i]].Waiting? && s.co[p[i]].on in x {
      assert p[i + 1] in g[p[i]];
      assert i + 1 < n ==> p[i + 1] in x;
    }
    WaitersWithinStay(s, x, acts);
  }

  // ---------------------------------------------------------------------------------------------
  // What the bodies' awaits promise

  function Targets(b: Body): set<nat> {
    set j | 0 <= j < |b| && b[j].AwaitOp? :: b[j].target
  }

  function AwaitGraph(body: seq<Body>): Graph {
    seq(|body|, c requires 0 <= c < |body| => Targets(body[c]))
  }

  /** Every `co_await` that this coroutine has returned from saw its target DONE. */
  predicate AwaitsKept(co: seq<Status>, status: Status, b: Body, pc: nat) {
    forall j :: 0 <= j < pc <= |b| && b[j].AwaitOp? && !(status.Waiting? && j == pc - 1) ==>
                  b[j].target < |co| && co[b[j].target].Done?
  }

  predicate AllAwaitsKept(p: Prog) {
    && |p.body| == |p.pc| == |p.s.co|
    && forall c: nat :: c < |p.pc| ==> AwaitsKept(p.s.co, p.s.co[c], p.body[c], p.pc[c])
  }

  /** `ord` lists the finished coroutines so that what each awaited finished before it. */
  predicate FinishOrder(p: Prog, ord: seq<nat>) {
    && |p.body| == |p.s.co|
    && NoDup(ord)
    && (forall k :: 0 <= k < |ord| ==> ord[k] < |p.s.co| && p.s.co[ord[k]].Done?)
    && (forall c: nat :: c < |p.s.co| && p.s.co[c].Done? ==> c in ord)
    && (forall k, t :: 0 <= k < |ord| && t in Targets(p.body[ord[k]]) ==> t in ord[..k])
  }

  ghost predicate Sound(p: Prog, ord: seq<nat>) {
    Consistent(p) && AllAwaitsKept(p) && FinishOrder(p, ord)
  }

  lemma DoneIsKept(s: State, a: Action, c: nat)
    requires Valid(s) && Enabled(s, a) && c < |s.co| && s.co[c].Done?
    ensures c < |Step(s, a).co| && Step(s, a).co[c].Done?
  {
    if a.Resume? { assert s.co[s.queue[0]].Ready?; }
  }

  lemma AwaitsKeptLater(p: Prog, c: nat)
    requires Consistent(p) && AllAwaitsKept(p) && Next(p).Go? && c < |p.pc|
    ensures AwaitsKept(Advance(p).s.co, p.s.co[c], p.body[c], p.pc[c])
  {
    assert AwaitsKept(p.s.co, p.s.co[c], p.body[c], p.pc[c]);
    forall t: nat | t < |p.s.co| && p.s.co[t].Done?
      ensures t < |Advance(p).s.co| && Advance(p).s.co[t].Done?
    {
      DoneIsKept(p.s, Next(p).act, t);
    }
  }

  /** Being woken is what completes a `co_await`: its target has just finished. */
  lemma WokenAwaitIsKept(p: Prog, c: nat)
    requires Consistent(p) && AllAwaitsKept(p) && Next(p).Go? && c < |p.pc| && p.s.running != Some(c)
    ensures AwaitsKept(Advance(p).s.co, Advance(p).s.co[c], p.body[c], p.pc[c])
  {
    AwaitsKeptLater(p, c);
    hide AllAwaitsKept, QueueListsReady, WaitsAreOpen;
    assert CallsMatch(p.s.co[c], p.body[c], p.pc[c]);
    var co, co' := p.s.co[c], Advance(p).s.co[c];
    assert co'.Waiting? ==> co == co';
    if co.Waiting? && !co'.Waiting? {
      assert Next(p).act.Finish? && p.s.running == Some(co.on);
      assert Advance(p).s.co[co.on].Done?;
    }
  }

  lemma CallerAwaitsKept(p: Prog)
    requires Consistent(p) && AllAwaitsKept(p) && Next(p).Go? && p.s.running.Some?
    ensures var q := Advance(p); var r := p.s.running.value;
            AwaitsKept(q.s.co, q.s.co[r], q.body[r], q.pc[r])
  {
    AwaitsKeptLater(p, p.s.running.value);
  }

  lemma AdvanceKeepsAwaits(p: Prog)
    requires Consistent(p) && AllAwaitsKept(p) && Next(p).Go?
    ensures AllAwaitsKept(Advance(p))
  {
    var q := Advance(p);
    forall c: nat | c < |q.pc| ensures AwaitsKept(q.s.co, q.s.co[c], q.body[c], q.pc[c]) {
      if p.s.running == Some(c) {
        CallerAwaitsKept(p);
      } else if c < |p.pc| {
        WokenAwaitIsKept(p, c);
      }
    }
  }

  function OrderAfter(p: Prog, ord: seq<nat>): seq<nat>
    requires Consistent(p) && Next(p).Go?
  {
    if Next(p).act.Finish? then ord + [p.s.running.value] else ord
  }

  lemma FinishDone(s: State, c: nat)
    requires Valid(s) && Enabled(s, Finish) && c < |s.co|
    ensures Step(s, Finish).co[c].Done? <==> s.co[c].Done? || c == s.running.value
  {
  }

  /** All that a finishing coroutine awaited is listed already. */
  lemma TargetsFinished(p: Prog, ord: seq<nat>, t: nat)
    requires Sound(p, ord) && Next(p) == Go(Finish) && t in Targets(p.body[p.s.running.value])
    ensures t in ord
  {
    var r := p.s.running.value;
    assert AwaitsKept(p.s.co, p.s.co[r], p.body[r], p.pc[r]);
    assert p.s.co[r].Running?;
    hide Valid;
    var j :| 0 <= j < |p.body[r]| && p.body[r][j] == AwaitOp(t);
  }

  lemma FinishExtendsOrder(p: Prog, ord: seq<nat>)
    requires Sound(p, ord) && Next(p) == Go(Finish)
    ensures FinishOrder(Advance(p), OrderAfter(p, ord))
  {
    var r, q, ord' := p.s.running.value, Advance(p), OrderAfter(p, ord);
    assert p.s.co[r].Running?;
    forall c: nat | c < |q.s.co| ensures q.s.co[c].Done? <==> p.s.co[c].Done? || c == r {
      FinishDone(p.s, c);
    }
    forall t | t in Targets(p.body[r]) ensures t in ord { TargetsFinished(p, ord, t); }
    hide Consistent, AllAwaitsKept, Targets;
    forall k, t | 0 <= k < |ord'| && t in Targets(q.body[ord'[k]]) ensures t in ord'[..k] {
      assert ord'[..k] == ord[..k];
      if k == |ord| { assert ord[..k] == ord; }
    }
    forall c: nat | c < |q.s.co| && q.s.co[c].Done? ensures c in ord' {
      if c == r { assert ord'[|ord|] == r; } else { assert c in ord; }
    }
  }

  lemma OthersKeepOrder(p: Prog, ord: seq<nat>)
    requires Sound(p, ord) && Next(p).Go? && !Next(p).act.Finish?
    ensures FinishOrder(Advance(p), ord)
  {
    var q := Advance(p);
    if p.s.running.Some? { assert p.s.co[p.s.running.value].Running?; }
    assert forall c: nat :: c < |p.body| && p.s.co[c].Done? ==> q.body[c] == p.body[c];
    forall c: nat | c < |q.s.co|
      ensures q.s.co[c].Done? <==> c < |p.s.co| && p.s.co[c].Done?
    {
      if Next(p).act.Resume? { assert p.s.co[p.s.queue[0]].Ready?; }
    }
    hide Consistent, AllAwaitsKept, Targets;
  }

  lemma AdvanceKeepsSound(p: Prog, ord: seq<nat>)
    requires Sound(p, ord) && Next(p).Go?
    ensures Sound(Advance(p), OrderAfter(p, ord))
  {
    AdvanceKeepsConsistent(p);
    AdvanceKeepsAwaits(p);
    if Next(p).act.Finish? { FinishExtendsOrder(p, ord); } else { OthersKeepOrder(p, ord); }
  }

  /** The order in which a run finishes coroutines. */
  function Finished(p: Prog, ord: seq<nat>): (r: seq<nat>)
    requires Consistent(p)
    decreases Work(p)
  {
    if !Next(p).Go? then ord
    else
      AdvanceDecreasesWork(p);
      Finished(Advance(p), OrderAfter(p, ord))
  }

  lemma {:induction false} FinalIsSound(p: Prog, ord: seq<nat>)
    requires Sound(p, ord)
    ensures Sound(Final(p), Finished(p, ord))
    decreases Work(p)
  {
    if Next(p).Go? {
      AdvanceDecreasesWork(p);
      AdvanceKeepsSound(p, ord);
      FinalIsSound(Advance(p), OrderAfter(p, ord));
    }
  }

  /** A finished coroutine reaches no cycle: what it awaited finished before it. */
  lemma DoneIsSafe(p: Prog, ord: seq<nat>, c: nat)
    requires FinishOrder(p, ord) && c < |p.s.co| && p.s.co[c].Done?
    ensures !ReachesCycle(AwaitGraph(p.body), c)
  {
    hide ReachesCycleOr;
    assert CompletionOrder(AwaitGraph(p.body), {}, ord);
    CompletedAreSafe(AwaitGraph(p.body), {}, ord, c);
  }

  /** With an empty queue an unfinished coroutine has called `co_await` on an unfinished one. */
  lemma HaltedWaits(p: Prog, c: nat)
    requires Consistent(p) && Next(p).Halt? && c < |p.s.co| && !p.s.co[c].Done?
    ensures p.s.co[c].Waiting? && p.s.co[c].on < |p.s.co| && !p.s.co[p.s.co[c].on].Done?
    ensures p.s.co[c].on in Targets(p.body[c])
  {
    assert CallsMatch(p.s.co[c], p.body[c], p.pc[c]);
    assert p.body[c][p.pc[c] - 1] == AwaitOp(p.s.co[c].on);
  }

  function Unfinished(co: seq<Status>): set<nat> {
    set i: nat | i < |co| && !co[i].Done?
  }

  lemma HaltedClosed(p: Prog)
    requires Consistent(p) && Next(p).Halt?
    ensures Closed(AwaitGraph(p.body), {}, Unfinished(p.s.co)) && Closed(WaitGraph(p.s.co), {}, Unfinished(p.s.co))
  {
    var g, w, x := AwaitGraph(p.body), WaitGraph(p.s.co), Unfinished(p.s.co);
    hide Valid, CallsMatch, Targets;
    forall c | c in x ensures c < |g| && c < |w| && g[c] * x != {} && w[c] * x != {} {
      HaltedWaits(p, c);
      assert p.s.co[c].on in g[c] * x && p.s.co[c].on in w[c] * x;
    }
  }

  /** In a sound state with an empty queue: a coroutine is DONE if and only if no await cycle can be
      reached from it through the bodies' awaits, and every other one is WAITING on a chain into a cycle. */
  lemma HaltedExactly(p: Prog, ord: seq<nat>, c: nat)
    requires Sound(p, ord) && Next(p).Halt? && c < |p.s.co|
    ensures p.s.co[c].Done? <==> !ReachesCycle(AwaitGraph(p.body), c)
    ensures p.s.co[c].Done? || (p.s.co[c].Waiting? && ReachesCycle(WaitGraph(p.s.co), c))
  {
    hide AwaitGraph, WaitGraph, Closed, ReachesCycleOr, Valid, CallsMatch;
    if p.s.co[c].Done? {
      DoneIsSafe(p, ord, c);
    } else {
      HaltedWaits(p, c);
      HaltedClosed(p);
      TrappedInside(AwaitGraph(p.body), {}, Unfinished(p.s.co), c);
      TrappedInside(WaitGraph(p.s.co), {}, Unfinished(p.s.co), c);
    }
  }

  // ---------------------------------------------------------------------------------------------
  // From an empty scheduler

  function Created(n: nat): State {
    State(seq(n, _ => Ready), seq(n, i => i), None)
  }

  lemma CreatedIsValid(n: nat)
    requires n <= MAX_COROUTINES
    ensures Valid(Created(n))
  {
    forall c: nat | c < n ensures c in Created(n).queue && Created(n).co[c].Ready? {
      assert Created(n).queue[c] == c;
    }
  }

  function Creates(n: nat): seq<Action> { seq(n, _ => Create) }

  lemma {:induction false} CreatedByCalls(k: nat, n: nat)
    requires k + n <= MAX_COROUTINES
    ensures Legal(Created(k), Creates(n)) && Exec(Created(k), Creates(n)) == Created(k + n)
    decreases n
  {
    if n > 0 {
      assert Step(Created(k), Create) == Created(k + 1);
      assert Creates(n)[1..] == Creates(n - 1);
      CreatedByCalls(k + 1, n - 1);
    }
  }

  /** `main` created one coroutine for each of `bodies`. */
  function Start(bodies: seq<Body>): (p: Prog)
    requires |bodies| <= MAX_COROUTINES
    ensures Consistent(p)
  {
    var n := |bodies|;
    CreatedIsValid(n);
    Prog(Created(n), bodies, seq(n, _ => 0))
  }

  /** For any bodies, `co_run` returns (`Final` is defined), and unless an API assertion stopped it, it has
      completed exactly the coroutines from which no cycle of awaits can be reached; every other coroutine
      is WAITING, its chain of awaits leads into a cycle, and it stays so in every later run. */
  lemma DeadlockExactly(bodies: seq<Body>, c: nat)
    requires |bodies| <= MAX_COROUTINES && Next(Final(Start(bodies))).Halt?
    requires c < |Final(Start(bodies)).s.co|
    ensures var f := Final(Start(bodies));
            && (f.s.co[c].Done? <==> !ReachesCycle(AwaitGraph(f.body), c))
            && (f.s.co[c].Done? || (f.s.co[c].Waiting? && ReachesCycle(WaitGraph(f.s.co), c)))
            && (!f.s.co[c].Done? ==> forall acts :: Legal(f.s, acts) ==>
                                                      c < |Exec(f.s, acts).co| && Exec(f.s, acts).co[c] == f.s.co[c])
  {
    var p := Start(bodies);
    FinalIsSound(p, []);
    var f := Final(p);
    HaltedExactly(f, Finished(p, []), c);
    if !f.s.co[c].Done? {
      forall acts | Legal(f.s, acts)
        ensures c < |Exec(f.s, acts).co| && Exec(f.s, acts).co[c] == f.s.co[c]
      {
        StuckForever(f.s, c, acts);
      }
    }
  }

  /** The whole run from the empty scheduler: `main`'s creations, then the calls that `co_run` makes. */
  function WholeRun(bodies: seq<Body>): seq<Action>
    requires |bodies| <= MAX_COROUTINES
  {
    Creates(|bodies|) + Trace(Start(bodies))
  }

  /** When `co_run` returns, the calls made since the scheduler was empty balance, and the coroutines
      left WAITING are the created ones that did not finish, and the blocking awaits that were not woken. */
  lemma ProgramBalance(bodies: seq<Body>)
    requires |bodies| <= MAX_COROUTINES && Next(Final(Start(bodies))).Halt?
    ensures Legal(Init, WholeRun(bodies)) && Exec(Init, WholeRun(bodies)) == Final(Start(bodies)).s
    ensures var t := Totals(Init, WholeRun(bodies)); var e := Final(Start(bodies)).s;
            && t.resumed == t.created + t.yielded + t.woken == t.yielded + t.blocked + t.finished
            && NumDone(e) == t.finished
            && NumWaiting(e) == t.created - t.finished == t.blocked - t.woken
  {
    hide Valid;
    var n := |bodies|;
    CreatedByCalls(0, n);
    assert Created(0) == Init;
    TraceIsLegal(Start(bodies));
    ExecConcat(Init, Creates(n), Trace(Start(bodies)));
    Conservation(WholeRun(bodies));
  }

  // ---------------------------------------------------------------------------------------------
  // Programs that complete

  /** If awaits only ever go down in rank, a run that no assertion stops ends with every coroutine DONE. */
  lemma RankedAllDone(bodies: seq<Body>, rank: seq<nat>, c: nat)
    requires |bodies| <= MAX_COROUTINES && Next(Final(Start(bodies))).Halt?
    requires RankedBy(AwaitGraph(Final(Start(bodies)).body), rank) && c < |Final(Start(bodies)).s.co|
    ensures Final(Start(bodies)).s.co[c].Done?
  {
    var f := Final(Start(bodies));
    DeadlockExactly(bodies, c);
    RankedIsAcyclic(AwaitGraph(f.body), rank, c);
  }

  /** No body creates, and awaits name coroutines that exist from the start. */
  predicate Static(body: seq<Body>) {
    forall c: nat, j: nat :: c < |body| && j < |body[c]| ==>
                               && !body[c][j].CreateOp? && !body[c][j].AwaitChild?
                               && (body[c][j].AwaitOp? ==> body[c][j].target < |body|)
  }

  lemma StaticStep(p: Prog)
    requires Consistent(p) && Static(p.body)
    ensures !Next(p).Abort? && (Next(p).Go? ==> Advance(p).body == p.body)
  {
  }

  lemma {:induction false} StaticRunHalts(p: Prog)
    requires Consistent(p) && Static(p.body)
    ensures Next(Final(p)).Halt? && Final(p).body == p.body
    decreases Work(p)
  {
    hide Consistent, Static;
    StaticStep(p);
    if Next(p).Go? {
      AdvanceDecreasesWork(p);
      StaticRunHalts(Advance(p));
    }
  }

  /** Without creation at run time, ranked awaits complete outright: no assertion fails, everything is DONE. */
  lemma RankedStaticAllDone(bodies: seq<Body>, rank: seq<nat>)
    requires |bodies| <= MAX_COROUTINES && Static(bodies) && RankedBy(AwaitGraph(bodies), rank)
    ensures var f := Final(Start(bodies));
            && Next(f).Halt? && |f.s.co| == |bodies|
            && forall c :: 0 <= c < |bodies| ==> f.s.co[c].Done?
  {
    hide Valid;
    StaticRunHalts(Start(bodies));
    forall c: nat | c < |bodies| ensures Final(Start(bodies)).s.co[c].Done? { RankedAllDone(bodies, rank, c); }
  }

  /** Exactly which coroutines a program without creation completes, told from its bodies before the run. */
  lemma StaticExactly(bodies: seq<Body>, c: nat)
    requires |bodies| <= MAX_COROUTINES && Static(bodies) && c < |bodies|
    ensures var f := Final(Start(bodies));
            && Next(f).Halt? && |f.s.co| == |bodies|
            && (f.s.co[c].Done? <==> !ReachesCycle(AwaitGraph(bodies), c))
            && (f.s.co[c].Done? || f.s.co[c].Waiting?)
  {
    hide Valid;
    StaticRunHalts(Start(bodies));
    DeadlockExactly(bodies, c);
  }

  /** The smallest program whose run does not end with every coroutine DONE: it awaits itself. */
  lemma SelfAwaitHangs()
    ensures var f := Final(Start([[AwaitOp(0)]])); Next(f).Halt? && f.s.co == [Waiting(0)]
  {
    var bodies := [[AwaitOp(0)]];
    var g := AwaitGraph(bodies);
    assert bodies[0][0].AwaitOp? && 0 in Targets(bodies[0]);
    assert ReachesCycle(g, 0) by {
      var p := [0, 0];
      assert IsPath(g, p) && p[..1] == [0] && Doomed({}, p);
    }
    hide ReachesCycle, AwaitGraph, Final, Start;
    StaticExactly(bodies, 0);
    var f := Final(Start(bodies));
    assert f.s.co[0].on < 1;
  }

  /** The program after `k` calls. */
  function After(p: Prog, k: nat): (q: Prog)
    requires Consistent(p)
    ensures Consistent(q)
    decreases k
  {
    if k == 0 || !Next(p).Go? then p
    else
      AdvanceKeepsConsistent(p);
      After(Advance(p), k - 1)
  }

  lemma {:induction false} AfterIsSound(p: Prog, ord: seq<nat>, k: nat) returns (ord': seq<nat>)
    requires Sound(p, ord)
    ensures Sound(After(p, k), ord')
    decreases k
  {
    hide Consistent, AllAwaitsKept, FinishOrder;
    if k == 0 || !Next(p).Go? {
      ord' := ord;
    } else {
      AdvanceKeepsSound(p, ord);
      ord' := AfterIsSound(Advance(p), OrderAfter(p, ord), k - 1);
    }
  }

  /** At every point of every program's run, each `co_await` that has returned saw its target DONE. */
  lemma AwaitsKeptThroughout(bodies: seq<Body>, k: nat)
    requires |bodies| <= MAX_COROUTINES
    ensures AllAwaitsKept(After(Start(bodies), k))
  {
    var ord := AfterIsSound(Start(bodies), [], k);
  }

  function LinkBody(chain: seq<nat>, i: nat): Body
    requires i < |chain|
  {
    if i + 1 < |chain| then [AwaitOp(chain[i + 1])] else []
  }

  /** Link `i` of the chain awaits link `i + 1`; the links were created in any order. */
  predicate IsChain(bodies: seq<Body>, chain: seq<nat>) {
    && |chain| == |bodies| && NoDup(chain) && Below(chain, |bodies|)
    && forall i: nat {:trigger LinkBody(chain, i)} :: i < |chain| ==> bodies[chain[i]] == LinkBody(chain, i)
  }

  lemma LinkAwaitsNext(bodies: seq<Body>, chain: seq<nat>, i: nat)
    requires IsChain(bodies, chain) && i + 1 < |chain|
    ensures chain[i + 1] in Targets(bodies[chain[i]])
  {
    assert bodies[chain[i]] == LinkBody(chain, i);
    assert bodies[chain[i]][0] == AwaitOp(chain[i + 1]);
  }

  lemma {:induction false} LaterLinksFinished(p: Prog, ord: seq<nat>, chain: seq<nat>, i: nat, j: nat)
    requires FinishOrder(p, ord) && IsChain(p.body, chain) && i <= j < |chain| && p.s.co[chain[i]].Done?
    ensures p.s.co[chain[j]].Done?
    decreases j
  {
    if i < j {
      LaterLinksFinished(p, ord, chain, i, j - 1);
      LinkAwaitsNext(p.body, chain, j - 1);
      var k :| 0 <= k < |ord| && ord[k] == chain[j - 1];
      assert chain[j] in ord[..k];
    }
  }

  /** At every point of the run, a link that has returned from its `co_await` sees all later links DONE. */
  lemma ChainAwaitsSeeDone(bodies: seq<Body>, chain: seq<nat>, k: nat, i: nat, j: nat)
    requires |bodies| <= MAX_COROUTINES && IsChain(bodies, chain) && i < j < |chain|
    ensures var q := After(Start(bodies), k); var c := chain[i];
            |q.s.co| == |bodies| && (q.pc[c] == 1 && !q.s.co[c].Waiting? ==> q.s.co[chain[j]].Done?)
  {
    hide Valid;
    var p := Start(bodies);
    var ord := AfterIsSound(p, [], k);
    var q, c := After(p, k), chain[i];
    ChainIsStatic(bodies, chain);
    StaticAfter(p, k);
    if q.pc[c] == 1 && !q.s.co[c].Waiting? {
      assert AwaitsKept(q.s.co, q.s.co[c], q.body[c], q.pc[c]);
      assert q.body[c] == LinkBody(chain, i) && q.body[c][0].AwaitOp?;
      LaterLinksFinished(q, ord, chain, i + 1, j);
    }
  }

  lemma {:induction false} StaticAfter(p: Prog, k: nat)
    requires Consistent(p) && Static(p.body)
    ensures After(p, k).body == p.body
    decreases k
  {
    hide Consistent, Static;
    StaticStep(p);
    if k > 0 && Next(p).Go? {
      AdvanceKeepsConsistent(p);
      StaticAfter(Advance(p), k - 1);
    }
  }

  lemma ChainIsStatic(bodies: seq<Body>, chain: seq<nat>)
    requires IsChain(bodies, chain)
    ensures Static(bodies)
  {
    forall c: nat, j: nat | c < |bodies| && j < |bodies[c]|
      ensures && !bodies[c][j].CreateOp? && !bodies[c][j].AwaitChild?
              && (bodies[c][j].AwaitOp? ==> bodies[c][j].target < |bodies|)
    {
      var i := Inverse(chain, |bodies|, c);
      assert bodies[c] == LinkBody(chain, i);
    }
  }

  lemma {:induction false} LinkDone(p: Prog, chain: seq<nat>, i: nat)
    requires Consistent(p) && Next(p).Halt? && IsChain(p.body, chain) && i < |chain|
    ensures p.s.co[chain[i]].Done?
    decreases |chain| - i
  {
    var c := chain[i];
    assert CallsMatch(p.s.co[c], p.body[c], p.pc[c]) && p.body[c] == LinkBody(chain, i);
    if i + 1 < |chain| { LinkDone(p, chain, i + 1); }
  }

  lemma {:induction false} PositionAtMost(p: Prog, ord: seq<nat>, chain: seq<nat>, i: nat, k: nat)
    requires FinishOrder(p, ord) && IsChain(p.body, chain) && |ord| <= |chain|
    requires i < |chain| && k < |ord| && ord[k] == chain[i]
    requires forall j :: 0 <= j < |chain| ==> chain[j] in ord
    ensures k <= |chain| - 1 - i
    decreases i
  {
    if i > 0 {
      var m :| 0 <= m < |ord| && ord[m] == chain[i - 1];
      PositionAtMost(p, ord, chain, i - 1, m);
      LinkAwaitsNext(p.body, chain, i - 1);
      assert chain[i] in ord[..m];
    }
  }

  lemma {:induction false} PositionAtLeast(p: Prog, ord: seq<nat>, chain: seq<nat>, i: nat, k: nat)
    requires FinishOrder(p, ord) && IsChain(p.body, chain)
    requires i < |chain| && k < |ord| && ord[k] == chain[i]
    ensures k >= |chain| - 1 - i
    decreases |chain| - i
  {
    if i + 1 < |chain| {
      LinkAwaitsNext(p.body, chain, i);
      assert chain[i + 1] in ord[..k];
      var m :| 0 <= m < k && ord[m] == chain[i + 1];
      PositionAtLeast(p, ord, chain, i + 1, m);
    }
  }

  /** However the links were created, all of them finish, strictly from the last link to the first. */
  lemma ChainFinishesBackwards(bodies: seq<Body>, chain: seq<nat>)
    requires |bodies| <= MAX_COROUTINES && IsChain(bodies, chain)
    ensures Next(Final(Start(bodies))).Halt? && |Final(Start(bodies)).s.co| == |bodies|
    ensures forall c :: 0 <= c < |bodies| ==> Final(Start(bodies)).s.co[c].Done?
    ensures Finished(Start(bodies), []) == Reversed(chain)
  {
    hide Valid;
    var p := Start(bodies);
    var f, ord, n := Final(p), Finished(p, []), |chain|;
    ChainIsStatic(bodies, chain);
    StaticRunHalts(p);
    FinalIsSound(p, []);
    forall j | 0 <= j < n ensures chain[j] in ord && f.s.co[chain[j]].Done? { LinkDone(f, chain, j); }
    forall c | 0 <= c < n ensures f.s.co[c].Done? { var i := Inverse(chain, n, c); }
    Pigeonhole(ord, n);
    Covers(ord, chain);
    OrderIsReversed(f, ord, chain);
  }

  lemma Covers(ord: seq<nat>, chain: seq<nat>)
    requires NoDup(chain) && forall j :: 0 <= j < |chain| ==> chain[j] in ord
    ensures |chain| <= |ord|
  {
    var at := seq(|chain|, j requires 0 <= j < |chain| => Where(ord, chain[j]));
    Pigeonhole(at, |ord|);
  }

  function Where(xs: seq<nat>, x: nat): (i: nat)
    ensures x in xs ==> i < |xs| && xs[i] == x
  {
    if xs == [] then 0 else if xs[0] == x then 0 else 1 + Where(xs[1..], x)
  }

  lemma OrderIsReversed(p: Prog, ord: seq<nat>, chain: seq<nat>)
    requires FinishOrder(p, ord) && IsChain(p.body, chain) && |ord| == |chain|
    requires forall j :: 0 <= j < |chain| ==> chain[j] in ord
    ensures ord == Reversed(chain)
  {
    var n := |chain|;
    forall i: nat | i < n ensures n - 1 - i < |ord| && ord[n - 1 - i] == chain[i] {
      var k :| 0 <= k < |ord| && ord[k] == chain[i];
      PositionAtMost(p, ord, chain, i, k);
      PositionAtLeast(p, ord, chain, i, k);
    }
    hide FinishOrder, IsChain;
    forall k | 0 <= k < n ensures ord[k] == Reversed(chain)[k] {
      assert ord[n - 1 - (n - 1 - k)] == chain[n - 1 - k];
    }
  }
}
