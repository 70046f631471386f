/**
 Where the coroutines of a program come from. Each is made by one `co_create` call of one body, has the body that is
 named there, and is the coroutine that its creator's pointer stands for.
 */
module Origins {
  import opened Sequences
  import opened Scheduler
  import opened Programs
  import opened Deadlock

  /** The `co_create` call at place `at` of coroutine `parent`. */
  datatype Origin = Origin(parent: nat, at: nat)

  function NewOrigin(p: Prog): seq<Origin>
    requires Consistent(p) && Next(p).Go?
  {
    if Next(p).act.Create? then [Origin(p.s.running.value, p.pc[p.s.running.value])] else []
  }

  /** The creations of the whole run, in order. */
  function Origins(p: Prog): seq<Origin>
    requires Consistent(p)
    decreases Work(p)
  {
    if !Next(p).Go? then [] else AdvanceDecreasesWork(p); NewOrigin(p) + Origins(Advance(p))
  }

  /** Origin `x` is the creation of the `k`-th child of `c`, before place `j`. */
  predicate Names(x: Origin, c: nat, body: Body, j: nat, k: nat)
    requires j <= |body|
  {
    x.parent == c && x.at < j && Count(body[..x.at], IsCreate()) == k
  }

  /** Place `j` of coroutine `c` is the source's `op`; an await of a child has become an await of the coroutine that is
      this child, exactly if it has been created. Of the coroutines, `main` created the first `n`, and `o` the rest. */
  predicate PlaceFollows(n: nat, o: seq<Origin>, c: nat, body: Body, j: nat, op: Op)
    requires j < |body|
  {
    if op.AwaitChild? && body[j] != op then
      body[j].AwaitOp? && n <= body[j].target < n + |o| && Names(o[body[j].target - n], c, body, j, op.k)
    else
      body[j] == op && (op.AwaitChild? ==> forall i :: 0 <= i < |o| ==> !Names(o[i], c, body, j, op.k))
  }

  predicate Follows(n: nat, o: seq<Origin>, c: nat, body: Body, source: Body) {
    |body| == |source| && forall j: nat :: j < |body| ==> PlaceFollows(n, o, c, body, j, source[j])
  }

  /** Every origin is a `co_create` call that was made, by a coroutine that existed. */
  predicate OriginsAreCalls(n: nat, o: seq<Origin>, p: Prog) {
    && |p.body| == |p.pc| == n + |o|
    && forall i: nat :: i < |o| ==>
                          var x := o[i];
                          && x.parent < n + i && x.at < p.pc[x.parent] <= |p.body[x.parent]|
                          && p.body[x.parent][x.at].CreateOp?
  }

  /** The body that coroutine `c` was created with. */
  function Source(bodies: seq<Body>, o: seq<Origin>, p: Prog, c: nat): Body
    requires OriginsAreCalls(|bodies|, o, p) && c < |p.body|
  {
    if c < |bodies| then bodies[c] else var x := o[c - |bodies|]; p.body[x.parent][x.at].body
  }

  /** The origins are all the `co_create` calls that were made, each once, and each coroutine has its source's body. */
  predicate Traced(bodies: seq<Body>, o: seq<Origin>, p: Prog) {
    && OriginsAreCalls(|bodies|, o, p)
    && (forall i, k :: 0 <= i < k < |o| && o[i].parent == o[k].parent ==> o[i].at < o[k].at)
    && (forall c: nat, j: nat :: c < |p.body| && j < p.pc[c] && j < |p.body[c]| && p.body[c][j].CreateOp? ==>
                                   Origin(c, j) in o)
    && forall c: nat :: c < |p.body| ==> Follows(|bodies|, o, c, p.body[c], Source(bodies, o, p, c))
  }

  /** A step that creates nothing. */
  lemma OtherStepsTraced(bodies: seq<Body>, o: seq<Origin>, p: Prog)
    requires Consistent(p) && Next(p).Go? && !Next(p).act.Create? && Traced(bodies, o, p)
    ensures Traced(bodies, o, Advance(p))
  {
    hide Valid, Follows, CallsMatch;
    var q := Advance(p);
    forall c: nat | c < |q.body| ensures Follows(|bodies|, o, c, q.body[c], Source(bodies, o, q, c)) {
      assert Source(bodies, o, q, c) == Source(bodies, o, p, c);
    }
  }

  /** What lies behind place `at` does not matter to an origin up to it. */
  lemma NamesKept(x: Origin, c: nat, body: Body, body': Body, at: nat, j: nat, k: nat)
    requires j <= |body| == |body'| && at <= |body| && body[..at] == body'[..at] && (x.parent == c ==> x.at <= at)
    ensures Names(x, c, body', j, k) == Names(x, c, body, j, k)
  {
    if x.parent == c && x.at < j { assert body[..x.at] == body[..at][..x.at] && body'[..x.at] == body'[..at][..x.at]; }
    hide Count;
  }

  /** The creator's own body after a creation, at one place. */
  lemma CreatorPlaceFollows(n: nat, o: seq<Origin>, r: nat, body: Body, at: nat, j: nat, op: Op)
    requires at < |body| && j < |body| && PlaceFollows(n, o, r, body, j, op)
    requires forall i :: 0 <= i < |o| && o[i].parent == r ==> o[i].at < at
    ensures var body' := Bind(body, at + 1, Count(body[..at], IsCreate()), n + |o|);
            PlaceFollows(n, o + [Origin(r, at)], r, body', j, op)
  {
    var o', k := o + [Origin(r, at)], Count(body[..at], IsCreate());
    var body' := Bind(body, at + 1, k, n + |o|);
    assert body'[..at] == body[..at];
    if op.AwaitChild? {
      forall i | 0 <= i < |o| ensures Names(o[i], r, body', j, op.k) == Names(o[i], r, body, j, op.k) {
        NamesKept(o[i], r, body, body', at, j, op.k);
      }
      assert Names(o'[|o|], r, body', j, op.k) <==> at < j && k == op.k;
      hide Count, Names;
      assert forall i :: 0 <= i < |o| ==> o'[i] == o[i];
    }
  }

  lemma CreatorFollows(n: nat, o: seq<Origin>, r: nat, body: Body, at: nat, source: Body)
    requires Follows(n, o, r, body, source) && at < |body|
    requires forall i :: 0 <= i < |o| && o[i].parent == r ==> o[i].at < at
    ensures Follows(n, o + [Origin(r, at)], r, Bind(body, at + 1, Count(body[..at], IsCreate()), n + |o|), source)
  {
    hide PlaceFollows, Count;
    forall j: nat | j < |body|
      ensures PlaceFollows(n, o + [Origin(r, at)], r, Bind(body, at + 1, Count(body[..at], IsCreate()), n + |o|), j,
                           source[j])
    {
      CreatorPlaceFollows(n, o, r, body, at, j, source[j]);
    }
  }

  /** Another coroutine's body after a creation. */
  lemma OthersFollow(n: nat, o: seq<Origin>, x: Origin, c: nat, body: Body, source: Body)
    requires Follows(n, o, c, body, source) && x.parent != c
    ensures Follows(n, o + [x], c, body, source)
  {
    hide Count;
    forall j: nat | j < |body| ensures PlaceFollows(n, o + [x], c, body, j, source[j]) {
      assert PlaceFollows(n, o, c, body, j, source[j]);
    }
  }

  /** A body whose coroutine has created nothing. */
  lemma NewbornFollows(n: nat, o: seq<Origin>, c: nat, body: Body)
    requires forall i :: 0 <= i < |o| ==> o[i].parent != c
    ensures Follows(n, o, c, body, body)
  {
  }

  /** A creation leaves the calls of all bodies as they were, but for the awaits of the child. */
  lemma CreationKeeps(p: Prog, c: nat, j: nat)
    requires Consistent(p) && Next(p).Go? && Next(p).act.Create? && c < |p.body| && j < |p.body[c]|
    ensures var q, r := Advance(p), p.s.running.value;
            && |q.body| == |q.pc| == |p.body| + 1 == |p.pc| + 1 && |q.body[c]| == |p.body[c]|
            && q.pc[c] == (if c == r then p.pc[c] + 1 else p.pc[c]) && q.pc[c] <= |q.body[c]|
            && (p.body[c][j].CreateOp? || q.body[c][j].CreateOp? ==> q.body[c][j] == p.body[c][j])
            && (c == r && j == p.pc[c] ==> p.body[c][j].CreateOp?)
  {
    hide QueueListsReady, WaitsAreOpen, Count;
    assert CallsMatch(p.s.co[c], p.body[c], p.pc[c]);
  }

  lemma CreationShape(p: Prog)
    requires Consistent(p) && Next(p).Go? && Next(p).act.Create?
    ensures p.s.running.Some?
    ensures var q, r := Advance(p), p.s.running.value;
            && r < |p.body| == |p.pc| && |q.body| == |q.pc| == |p.body| + 1
            && p.pc[r] < |p.body[r]| && p.body[r][p.pc[r]].CreateOp?
            && NewOrigin(p) == [Origin(r, p.pc[r])]
            && q.body[r] == Bind(p.body[r], p.pc[r] + 1, Count(p.body[r][..p.pc[r]], IsCreate()), |p.body|)
            && (forall c: nat :: c < |p.body| && c != r ==> q.body[c] == p.body[c])
            && q.body[|p.body|] == p.body[r][p.pc[r]].body && q.pc[|p.body|] == 0
  {
    hide QueueListsReady, WaitsAreOpen, Count;
  }

  lemma CreationIsCall(bodies: seq<Body>, o: seq<Origin>, p: Prog)
    requires Consistent(p) && Next(p).Go? && Next(p).act.Create? && OriginsAreCalls(|bodies|, o, p)
    ensures OriginsAreCalls(|bodies|, o + NewOrigin(p), Advance(p))
  {
    CreationShape(p);
    var q, o', n := Advance(p), o + NewOrigin(p), |bodies|;
    hide Consistent, Count, Bind;
    forall i: nat | i < |o'|
      ensures var x := o'[i];
              && x.parent < n + i && x.at < q.pc[x.parent] <= |q.body[x.parent]|
              && q.body[x.parent][x.at].CreateOp?
    {
      CreationKeeps(p, o'[i].parent, o'[i].at);
    }
  }

  lemma CreationKeepsSource(bodies: seq<Body>, o: seq<Origin>, p: Prog, c: nat)
    requires Consistent(p) && Next(p).Go? && Next(p).act.Create? && c <= |p.body|
    requires OriginsAreCalls(|bodies|, o, p) && OriginsAreCalls(|bodies|, o + NewOrigin(p), Advance(p))
    ensures Source(bodies, o + NewOrigin(p), Advance(p), c)
            == if c < |p.body| then Source(bodies, o, p, c) else Advance(p).body[c]
  {
    CreationShape(p);
    hide Consistent, Count, Bind;
    if |bodies| <= c {
      var x := (o + NewOrigin(p))[c - |bodies|];
      CreationKeeps(p, x.parent, x.at);
    }
  }

  lemma CreationsListed(bodies: seq<Body>, o: seq<Origin>, p: Prog)
    requires Consistent(p) && Next(p).Go? && Next(p).act.Create? && Traced(bodies, o, p)
    ensures var q, o' := Advance(p), o + NewOrigin(p);
            && |q.body| == |q.pc|
            && (forall i, k :: 0 <= i < k < |o'| && o'[i].parent == o'[k].parent ==> o'[i].at < o'[k].at)
            && forall c: nat, j: nat :: c < |q.body| && j < q.pc[c] && j < |q.body[c]| && q.body[c][j].CreateOp? ==>
                                          Origin(c, j) in o'
  {
    CreationShape(p);
    var q, o' := Advance(p), o + NewOrigin(p);
    hide Consistent, Count, Bind, Follows, Source;
    forall c: nat, j: nat | c < |q.body| && j < q.pc[c] && j < |q.body[c]| && q.body[c][j].CreateOp?
      ensures Origin(c, j) in o'
    {
      if c < |p.body| {
        CreationKeeps(p, c, j);
        if j == p.pc[c] { assert o'[|o|] == Origin(c, j); } else { assert Origin(c, j) in o; }
      }
    }
  }

  lemma TracedBefore(bodies: seq<Body>, o: seq<Origin>, p: Prog, c: nat)
    requires Consistent(p) && Traced(bodies, o, p) && c < |p.body|
    ensures OriginsAreCalls(|bodies|, o, p) && |p.body| == |p.pc| == |bodies| + |o|
    ensures Follows(|bodies|, o, c, p.body[c], Source(bodies, o, p, c))
    ensures forall i :: 0 <= i < |o| ==> o[i].parent < |p.body| && (o[i].parent == c ==> o[i].at < p.pc[c])
  {
    hide Valid, Follows, Source;
  }

  lemma CreationFollows(bodies: seq<Body>, o: seq<Origin>, p: Prog, c: nat)
    requires Consistent(p) && Next(p).Go? && Next(p).act.Create? && Traced(bodies, o, p) && c <= |p.body|
    requires OriginsAreCalls(|bodies|, o + NewOrigin(p), Advance(p))
    ensures Follows(|bodies|, o + NewOrigin(p), c, Advance(p).body[c],
                    Source(bodies, o + NewOrigin(p), Advance(p), c))
  {
    hide Consistent, Count, Bind, Follows, Source, Traced, OriginsAreCalls, Advance, NewOrigin, Next;
    CreationShape(p);
    var r, n := p.s.running.value, |bodies|;
    TracedBefore(bodies, o, p, if c < |p.body| then c else r);
    CreationKeepsSource(bodies, o, p, c);
    if c == r {
      CreatorFollows(n, o, r, p.body[r], p.pc[r], Source(bodies, o, p, r));
    } else if c < |p.body| {
      OthersFollow(n, o, Origin(r, p.pc[r]), c, p.body[c], Source(bodies, o, p, c));
    } else {
      NewbornFollows(n, o + NewOrigin(p), c, Advance(p).body[c]);
    }
  }

  /** A creation. */
  lemma CreationTraced(bodies: seq<Body>, o: seq<Origin>, p: Prog)
    requires Consistent(p) && Next(p).Go? && Next(p).act.Create? && Traced(bodies, o, p)
    ensures Traced(bodies, o + NewOrigin(p), Advance(p))
  {
    var q, o' := Advance(p), o + NewOrigin(p);
    CreationShape(p);
    CreationIsCall(bodies, o, p);
    CreationsListed(bodies, o, p);
    hide Consistent, Count, Bind, Follows, Source, OriginsAreCalls, NewOrigin, Advance;
    forall c: nat | c < |q.body| ensures Follows(|bodies|, o', c, q.body[c], Source(bodies, o', q, c)) {
      CreationFollows(bodies, o, p, c);
    }
  }

  lemma {:induction false} RunTraced(bodies: seq<Body>, o: seq<Origin>, p: Prog)
    requires Consistent(p) && Traced(bodies, o, p)
    ensures Traced(bodies, o + Origins(p), Final(p))
    decreases Work(p)
  {
    hide Consistent, Traced, Advance;
    if Next(p).Go? {
      AdvanceDecreasesWork(p);
      if Next(p).act.Create? {
        CreationTraced(bodies, o, p);
      } else {
        OtherStepsTraced(bodies, o, p);
        assert o + NewOrigin(p) == o;
      }
      RunTraced(bodies, o + NewOrigin(p), Advance(p));
      assert o + Origins(p) == o + NewOrigin(p) + Origins(Advance(p));
    } else {
      assert o + Origins(p) == o;
    }
  }

  /** In the run of every program: the coroutines beyond those of `main` are made by the `co_create` calls of the
      bodies, one for each call that was made, a coroutine's children in the order of its calls; each coroutine has
      the body that its creation named; and an await through a pointer is of the child that the pointer stands for. */
  lemma EveryoneHasItsBody(bodies: seq<Body>)
    requires |bodies| <= MAX_COROUTINES
    ensures Traced(bodies, Origins(Start(bodies)), Final(Start(bodies)))
  {
    var p := Start(bodies);
    forall c: nat | c < |bodies| ensures Follows(|bodies|, [], c, p.body[c], bodies[c]) {
      NewbornFollows(|bodies|, [], c, bodies[c]);
    }
    assert Traced(bodies, [], p) by { hide Follows; }
    RunTraced(bodies, [], p);
    assert [] + Origins(p) == Origins(p);
    hide Traced, Origins, Final;
  }
}
