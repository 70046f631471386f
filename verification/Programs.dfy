/**
 Whole runs of `co_run` over coroutine bodies. A body is the finite list of scheduler calls that the
 coroutine's function makes before it returns; a created coroutine brings its own body.
 */
module Programs {
  import opened Sequences
  import opened Scheduler

  /** `AwaitChild(k)` awaits the `k`-th coroutine that this body itself creates, through the pointer that `co_create`
      returned; before that creation the pointer is NULL. */
  datatype Op = YieldOp | AwaitOp(target: nat) | CreateOp(body: seq<Op>) | AwaitChild(k: nat)
  type Body = seq<Op>

  function IsCreate(): Op -> bool { (op: Op) => op.CreateOp? }

  /** From place `from` on, the body's `k`-th child is coroutine `id`. */
  function Bind(b: Body, from: nat, k: nat, id: nat): (r: Body)
    ensures |r| == |b|
    ensures forall j :: 0 <= j < |b| ==> r[j] == if from <= j && b[j] == AwaitChild(k) then AwaitOp(id) else b[j]
  {
    seq(|b|, j requires 0 <= j < |b| => if from <= j && b[j] == AwaitChild(k) then AwaitOp(id) else b[j])
  }

  /** The scheduler, each coroutine's body, and how many calls of it have been made. */
  datatype Prog = Prog(s: State, body: seq<Body>, pc: seq<nat>)

  /** A finished coroutine has made all its calls; a waiting one has just called `co_await`. */
  predicate CallsMatch(status: Status, body: Body, pc: nat) {
    && pc <= |body|
    && (status.Done? ==> pc == |body|)
    && (status.Waiting? ==> pc > 0 && body[pc - 1] == AwaitOp(status.on))
  }

  predicate Consistent(p: Prog) {
    && Valid(p.s)
    && |p.body| == |p.pc| == |p.s.co|
    && forall c: nat :: c < |p.pc| ==> CallsMatch(p.s.co[c], p.body[c], p.pc[c])
  }

  /** What `co_run` does next: return, fail an assertion of the API, or make a call. */
  datatype Move = Halt | Abort | Go(act: Action)

  function Next(p: Prog): (m: Move)
    requires Consistent(p)
    ensures m.Go? ==> Enabled(p.s, m.act)
  {
    if p.s.running.None? then
      if p.s.queue == [] then Halt else Go(Resume)
    else
      var r := p.s.running.value;
      if p.pc[r] == |p.body[r]| then Go(Finish)
      else
        match p.body[r][p.pc[r]]
        case YieldOp => Go(Yield)
        case AwaitOp(t) => if t < |p.s.co| then Go(Await(t)) else Abort
        case CreateOp(_) => if |p.s.co| < MAX_COROUTINES then Go(Create) else Abort
        case AwaitChild(_) => Abort
  }

  function Advance(p: Prog): (q: Prog)
    requires Consistent(p) && Next(p).Go?
    ensures |q.body| == |q.pc| == |q.s.co|
  {
    var a := Next(p).act;
    var s := Step(p.s, a);
    if a.Resume? || a.Finish? then p.(s := s)
    else
      var r := p.s.running.value;
      var pc := p.pc[r := p.pc[r] + 1];
      if a.Create? then Prog(s, AfterCreate(p.body, p.pc[r], r), pc + [0]) else Prog(s, p.body, pc)
  }

  /** Coroutine `r` creates at place `at` of its body: the new body is the last, and `r` has the pointer. */
  function AfterCreate(body: seq<Body>, at: nat, r: nat): (body': seq<Body>)
    requires r < |body| && at < |body[r]| && body[r][at].CreateOp?
    ensures |body'| == |body| + 1
  {
    body[r := Bind(body[r], at + 1, Count(body[r][..at], IsCreate()), |body|)] + [body[r][at].body]
  }

  lemma AdvanceKeepsCalls(p: Prog, c: nat)
    requires Consistent(p) && Next(p).Go? && c < |Advance(p).pc|
    ensures var q := Advance(p); CallsMatch(q.s.co[c], q.body[c], q.pc[c])
  {
    hide QueueListsReady, WaitsAreOpen;
    if c < |p.pc| { assert CallsMatch(p.s.co[c], p.body[c], p.pc[c]); }
    if Next(p).act.Resume? { assert p.s.queue[0] < |p.s.co|; }
  }

  lemma AdvanceKeepsConsistent(p: Prog)
    requires Consistent(p) && Next(p).Go?
    ensures Consistent(Advance(p))
  {
    var q := Advance(p);
    StepKeepsValid(p.s, Next(p).act);
    forall c: nat | c < |q.pc| ensures CallsMatch(q.s.co[c], q.body[c], q.pc[c]) {
      AdvanceKeepsCalls(p, c);
    }
  }

  // ---------------------------------------------------------------------------------------------
  // Termination: the calls left to make

  function OpSize(op: Op): nat
    decreases op, 1
  {
    if op.CreateOp? then 2 + BodySize(op.body) else 1
  }

  function BodySize(b: Body): nat
    decreases b, 0
  {
    if b == [] then 0 else OpSize(b[0]) + BodySize(b[1..])
  }

  /** Calls left to a coroutine, its return included. */
  function Left(status: Status, body: Body, pc: nat): nat {
    if status.Done? || pc > |body| then 0 else BodySize(body[pc..]) + 1
  }

  lemma OneCall(body: Body, pc: nat)
    requires pc < |body|
    ensures BodySize(body[pc..]) == OpSize(body[pc]) + BodySize(body[pc + 1..])
  {
    assert body[pc..][1..] == body[pc + 1..];
  }

  /** A pointer does not change how many calls there are. */
  lemma {:induction false} BindSize(b: Body, k: nat, id: nat)
    ensures BodySize(Bind(b, 0, k, id)) == BodySize(b)
  {
    if b != [] {
      assert Bind(b, 0, k, id)[1..] == Bind(b[1..], 0, k, id);
      BindSize(b[1..], k, id);
    }
  }

  lemma BindLeft(status: Status, b: Body, from: nat, k: nat, id: nat)
    requires from <= |b|
    ensures Left(status, Bind(b, from, k, id), from) == Left(status, b, from)
  {
    assert Bind(b, from, k, id)[from..] == Bind(b[from..], 0, k, id);
    BindSize(b[from..], k, id);
  }

  function AllLeft(co: seq<Status>, body: seq<Body>, pc: seq<nat>): seq<nat>
    requires |co| == |body| == |pc|
  {
    seq(|co|, c requires 0 <= c < |co| => Left(co[c], body[c], pc[c]))
  }

  function TotalLeft(co: seq<Status>, body: seq<Body>, pc: seq<nat>): nat
    requires |co| == |body| == |pc|
  {
    Sum(AllLeft(co, body, pc), (x: nat) => x)
  }

  /** Only coroutine `r` made calls or finished. */
  lemma LeftChangesAt(co: seq<Status>, co': seq<Status>, body: seq<Body>, pc: seq<nat>, pc': seq<nat>, r: nat)
    requires |co| == |co'| == |body| == |pc| == |pc'| && r < |co|
    requires forall c: nat :: c < |co| && c != r ==> pc'[c] == pc[c] && (co[c].Done? <==> co'[c].Done?)
    ensures TotalLeft(co', body, pc')
            == TotalLeft(co, body, pc) - Left(co[r], body[r], pc[r]) + Left(co'[r], body[r], pc'[r])
  {
    var v := Left(co'[r], body[r], pc'[r]);
    SumUpdate(AllLeft(co, body, pc), (x: nat) => x, r, v);
    assert AllLeft(co', body, pc') == AllLeft(co, body, pc)[r := v];
  }

  lemma LeftOfNew(co: seq<Status>, body: seq<Body>, pc: seq<nat>, b: Body)
    requires |co| == |body| == |pc|
    ensures TotalLeft(co + [Ready], body + [b], pc + [0]) == TotalLeft(co, body, pc) + BodySize(b) + 1
  {
    assert b[0..] == b;
    var all := AllLeft(co + [Ready], body + [b], pc + [0]);
    assert all[..|co|] == AllLeft(co, body, pc) && all[|co|] == BodySize(b) + 1;
  }

  lemma CreateLeft(co: seq<Status>, body: seq<Body>, pc: seq<nat>, r: nat)
    requires |co| == |body| == |pc| && r < |co| && pc[r] < |body[r]| && body[r][pc[r]].CreateOp?
    ensures var pc' := pc[r := pc[r] + 1]; var b := body[r][pc[r]].body;
            TotalLeft(co + [Ready], AfterCreate(body, pc[r], r), pc' + [0])
            == TotalLeft(co, body, pc) - Left(co[r], body[r], pc[r]) + Left(co[r], body[r], pc[r] + 1) + BodySize(b) + 1
  {
    var pc', b := pc[r := pc[r] + 1], body[r][pc[r]].body;
    var k := Count(body[r][..pc[r]], IsCreate());
    var body' := body[r := Bind(body[r], pc[r] + 1, k, |body|)];
    BindLeft(co[r], body[r], pc[r] + 1, k, |body|);
    assert AllLeft(co, body', pc') == AllLeft(co, body, pc');
    LeftChangesAt(co, co, body, pc, pc', r);
    LeftOfNew(co, body', pc', b);
  }

  function Work(p: Prog): nat
    requires Consistent(p)
  {
    2 * TotalLeft(p.s.co, p.body, p.pc) + (if p.s.running.None? then 1 else 0)
  }

  /** What a call by the running coroutine does to the statuses: nobody else becomes DONE. */
  lemma OthersNotDone(p: Prog, c: nat)
    requires Consistent(p) && Next(p).Go? && c < |p.s.co| && p.s.running != Some(c)
    ensures c < |Advance(p).s.co| && (Advance(p).s.co[c].Done? <==> p.s.co[c].Done?)
  {
    if p.s.running.None? { HeadIsReady(p.s); }
    hide QueueListsReady, WaitsAreOpen;
  }

  lemma AdvanceDecreasesWork(p: Prog)
    requires Consistent(p) && Next(p).Go?
    ensures Consistent(Advance(p)) && Work(Advance(p)) < Work(p)
  {
    AdvanceKeepsConsistent(p);
    var a, q := Next(p).act, Advance(p);
    forall c: nat | c < |p.s.co| && p.s.running != Some(c) ensures q.s.co[c].Done? <==> p.s.co[c].Done? {
      OthersNotDone(p, c);
    }
    if a.Resume? {
      HeadIsReady(p.s);
      assert AllLeft(q.s.co, q.body, q.pc) == AllLeft(p.s.co, p.body, p.pc);
    } else {
      CallDecreasesWork(p);
    }
  }

  lemma CallDecreasesWork(p: Prog)
    requires Consistent(p) && Next(p).Go? && !Next(p).act.Resume? && Consistent(Advance(p))
    ensures Work(Advance(p)) < Work(p)
  {
    var a, q, r := Next(p).act, Advance(p), p.s.running.value;
    assert r < |p.pc| && p.s.co[r].Running?;
    assert CallsMatch(p.s.co[r], p.body[r], p.pc[r]);
    forall c: nat | c < |p.s.co| && c != r ensures q.s.co[c].Done? <==> p.s.co[c].Done? {
      OthersNotDone(p, c);
    }
    hide Valid, CallsMatch;
    if !a.Finish? { OneCall(p.body[r], p.pc[r]); }
    if a.Create? {
      CreateLeft(p.s.co, p.body, p.pc, r);
    } else {
      LeftChangesAt(p.s.co, q.s.co, p.body, p.pc, q.pc, r);
    }
    hide TotalLeft, BodySize;
  }

  /** The state in which `co_run` stops. */
  function Final(p: Prog): (q: Prog)
    requires Consistent(p)
    ensures Consistent(q) && !Next(q).Go?
    decreases Work(p)
  {
    if !Next(p).Go? then p
    else
      AdvanceDecreasesWork(p);
      Final(Advance(p))
  }

  /** The calls made on the way there. */
  function Trace(p: Prog): (acts: seq<Action>)
    requires Consistent(p)
    decreases Work(p)
  {
    if !Next(p).Go? then []
    else
      AdvanceDecreasesWork(p);
      [Next(p).act] + Trace(Advance(p))
  }

  /** A run of a program is a run of the scheduler. */
  lemma {:induction false} TraceIsLegal(p: Prog)
    requires Consistent(p)
    ensures Legal(p.s, Trace(p)) && Exec(p.s, Trace(p)) == Final(p).s
    decreases Work(p)
  {
    if Next(p).Go? {
      AdvanceDecreasesWork(p);
      TraceIsLegal(Advance(p));
      assert Trace(p)[1..] == Trace(Advance(p));
    }
  }
}
