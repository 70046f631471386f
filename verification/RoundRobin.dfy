/** The order in which `co_run` resumes coroutines that only yield (tests/test_stress.c, test 1). */
module RoundRobin {
  import opened Sequences
  import opened Scheduler
  import opened Programs
  import opened Deadlock

  /** Coroutine `i` yields `ks[i]` times and returns. */
  function Yielders(ks: seq<nat>): seq<Body> {
    seq(|ks|, i requires 0 <= i < |ks| => seq(ks[i], _ => YieldOp))
  }

  predicate AtLeast(ks: seq<nat>, r: nat, i: nat) {
    i < |ks| && ks[i] >= r
  }

  /** The coroutines that take part in round `r`, in creation order. */
  function Round(ks: seq<nat>, r: nat): seq<nat> {
    Select(|ks|, (i: nat) => AtLeast(ks, r, i))
  }

  /** Rounds `r` to `last`, one after the other. */
  function Rounds(ks: seq<nat>, r: nat, last: nat): seq<nat>
    decreases last + 1 - r
  {
    if r > last then [] else Round(ks, r) + Rounds(ks, r + 1, last)
  }

  // ---------------------------------------------------------------------------------------------
  // The state in round `r` when coroutines 0..i have had their turn

  /** The part of round `r` from coroutine `i` on. */
  function RoundFrom(ks: seq<nat>, r: nat, i: nat): seq<nat>
    decreases |ks| - i
  {
    if i >= |ks| then [] else (if ks[i] >= r then [i] else []) + RoundFrom(ks, r, i + 1)
  }

  lemma {:induction false} RoundSplits(ks: seq<nat>, r: nat, i: nat)
    requires i <= |ks|
    ensures Round(ks, r) == Select(i, (j: nat) => AtLeast(ks, r, j)) + RoundFrom(ks, r, i)
    decreases |ks| - i
  {
    if i < |ks| {
      RoundSplits(ks, r, i + 1);
      var before, self := Select(i, (j: nat) => AtLeast(ks, r, j)), if ks[i] >= r then [i] else [];
      assert (before + self) + RoundFrom(ks, r, i + 1) == before + (self + RoundFrom(ks, r, i + 1));
    }
  }

  function TurnsTaken(ks: seq<nat>, r: nat, i: nat, c: nat): nat
    requires c < |ks|
  {
    var rounds := if c < i then r + 1 else r;
    if ks[c] < rounds then ks[c] else rounds
  }

  function StatusMid(ks: seq<nat>, r: nat, i: nat, c: nat): Status
    requires c < |ks|
  {
    if ks[c] < (if c < i then r + 1 else r) then Done else Ready
  }

  function Mid(ks: seq<nat>, r: nat, i: nat): Prog {
    var n := |ks|;
    Prog(State(seq(n, c requires 0 <= c < n => StatusMid(ks, r, i, c)),
               RoundFrom(ks, r, i) + Select(i, (j: nat) => AtLeast(ks, r + 1, j)), None),
         Yielders(ks),
         seq(n, c requires 0 <= c < n => TurnsTaken(ks, r, i, c)))
  }

  lemma StartIsMid(ks: seq<nat>)
    requires |ks| <= MAX_COROUTINES
    ensures Start(Yielders(ks)) == Mid(ks, 0, 0)
  {
    AllTakePart(ks, 0);
  }

  lemma {:induction false} AllTakePart(ks: seq<nat>, i: nat)
    requires i <= |ks|
    ensures RoundFrom(ks, 0, i) == seq(|ks| - i, j => i + j)
    decreases |ks| - i
  {
    if i < |ks| { AllTakePart(ks, i + 1); }
  }

  lemma SkipsRetired(ks: seq<nat>, r: nat, i: nat)
    requires i < |ks| && ks[i] < r
    ensures Mid(ks, r, i + 1) == Mid(ks, r, i)
  {
    var m, m' := Mid(ks, r, i), Mid(ks, r, i + 1);
    assert m.s.queue == m'.s.queue;
    hide RoundFrom, Select;
    assert m.s.co == m'.s.co;
    assert m.pc == m'.pc;
  }

  lemma NextRound(ks: seq<nat>, r: nat)
    ensures Mid(ks, r, |ks|) == Mid(ks, r + 1, 0)
  {
    RoundSplits(ks, r + 1, 0);
  }

  lemma NobodyWaits(co: seq<Status>, t: nat)
    requires forall c :: 0 <= c < |co| ==> !co[c].Waiting?
    ensures Waiters(co, t) == [] && Wake(co, t) == co
  {
    SelectNone(|co|, (i: nat) => Awaits(co, t, i));
  }

  /** In the middle of round `r`, coroutine `i` has just been resumed. */
  function Resuming(ks: seq<nat>, r: nat, i: nat): Prog
    requires i < |ks|
  {
    var m := Mid(ks, r, i);
    m.(s := State(m.s.co[i := Running],
                  RoundFrom(ks, r, i + 1) + Select(i, (j: nat) => AtLeast(ks, r + 1, j)), Some(i)))
  }

  lemma IsResumed(ks: seq<nat>, r: nat, i: nat)
    requires Consistent(Mid(ks, r, i)) && i < |ks| && ks[i] >= r
    ensures var m := Mid(ks, r, i);
            && Next(m) == Go(Resume) && m.s.queue[0] == i && Advance(m) == Resuming(ks, r, i)
            && Consistent(Resuming(ks, r, i))
  {
    hide Valid;
    var m := Mid(ks, r, i);
    AdvanceKeepsConsistent(m);
    assert m.s.queue[1..] == Resuming(ks, r, i).s.queue;
  }

  lemma Yields(ks: seq<nat>, r: nat, i: nat)
    requires i < |ks| && ks[i] > r && Consistent(Resuming(ks, r, i))
    ensures Next(Resuming(ks, r, i)) == Go(Yield) && Advance(Resuming(ks, r, i)) == Mid(ks, r, i + 1)
  {
    hide Valid;
    var m, m' := Resuming(ks, r, i), Mid(ks, r, i + 1);
    assert m.body[i][m.pc[i]] == YieldOp;
    var q := Advance(m);
    assert q.s.queue == m'.s.queue;
    assert q.s.co == m'.s.co;
    assert q.pc == m'.pc;
  }

  lemma Returns(ks: seq<nat>, r: nat, i: nat)
    requires i < |ks| && ks[i] == r && Consistent(Resuming(ks, r, i))
    ensures Next(Resuming(ks, r, i)) == Go(Finish) && Advance(Resuming(ks, r, i)) == Mid(ks, r, i + 1)
  {
    hide Valid;
    var m, m' := Resuming(ks, r, i), Mid(ks, r, i + 1);
    NobodyWaits(m.s.co[i := Done], i);
    var q := Advance(m);
    assert q.s.queue == m'.s.queue;
    assert q.s.co == m'.s.co;
    assert q.pc == m'.pc;
  }

  /** The coroutines that a run of `p` resumes, in order. */
  function ResumeOrder(p: Prog): seq<nat>
    requires Consistent(p)
  {
    TraceIsLegal(p);
    Resumed(p.s, Trace(p))
  }

  lemma ResumesStep(p: Prog)
    requires Consistent(p) && Next(p).Go? && Consistent(Advance(p))
    ensures ResumeOrder(p) == Dequeues(p.s, Next(p).act) + ResumeOrder(Advance(p))
  {
    hide Valid, Consistent;
    TraceIsLegal(p);
    assert Trace(p)[1..] == Trace(Advance(p));
  }

  lemma ResumesOne(ks: seq<nat>, r: nat, i: nat)
    requires Consistent(Mid(ks, r, i)) && i < |ks| && ks[i] >= r
    ensures Consistent(Mid(ks, r, i + 1))
    ensures ResumeOrder(Mid(ks, r, i)) == [i] + ResumeOrder(Mid(ks, r, i + 1))
  {
    hide Consistent, Mid, Resuming;
    IsResumed(ks, r, i);
    if ks[i] == r { Returns(ks, r, i); } else { Yields(ks, r, i); }
    AdvanceKeepsConsistent(Resuming(ks, r, i));
    ResumesStep(Mid(ks, r, i));
    ResumesStep(Resuming(ks, r, i));
  }

  lemma {:induction false} MidRunsRounds(ks: seq<nat>, r: nat, i: nat, last: nat)
    requires Consistent(Mid(ks, r, i)) && i <= |ks| && r <= last + 1
    requires forall c :: 0 <= c < |ks| ==> ks[c] <= last
    ensures ResumeOrder(Mid(ks, r, i)) == RoundFrom(ks, r, i) + Rounds(ks, r + 1, last)
    decreases last + 1 - r, |ks| - i
  {
    hide Consistent, Mid, ResumeOrder;
    if i == |ks| {
      NextRound(ks, r);
      if r <= last {
        MidRunsRounds(ks, r + 1, 0, last);
        RoundSplits(ks, r + 1, 0);
        if r == last { RetiredRound(ks, r + 1, 0); }
      } else {
        NoMoreRounds(ks, r);
      }
    } else if ks[i] < r {
      SkipsRetired(ks, r, i);
      MidRunsRounds(ks, r, i + 1, last);
    } else {
      ResumesOne(ks, r, i);
      MidRunsRounds(ks, r, i + 1, last);
    }
  }

  lemma NoMoreRounds(ks: seq<nat>, r: nat)
    requires Consistent(Mid(ks, r, |ks|)) && forall c :: 0 <= c < |ks| ==> ks[c] < r + 1
    ensures ResumeOrder(Mid(ks, r, |ks|)) == []
  {
    hide Valid;
    NextRound(ks, r);
    RetiredRound(ks, r + 1, 0);
    assert Mid(ks, r, |ks|).s.queue == [];
    assert Trace(Mid(ks, r, |ks|)) == [];
  }

  lemma {:induction false} RetiredRound(ks: seq<nat>, r: nat, i: nat)
    requires forall c :: 0 <= c < |ks| ==> ks[c] < r
    ensures RoundFrom(ks, r, i) == []
    decreases |ks| - i
  {
    if i < |ks| { RetiredRound(ks, r, i + 1); }
  }

  /** If body `i` yields `ks[i]` times, the resume order is round 0, round 1, ... where round `r` is the
      coroutines with `ks[i] >= r` in creation order. */
  lemma RoundRobinOrder(ks: seq<nat>, last: nat)
    requires |ks| <= MAX_COROUTINES && forall c :: 0 <= c < |ks| ==> ks[c] <= last
    ensures ResumeOrder(Start(Yielders(ks))) == Rounds(ks, 0, last)
  {
    hide Consistent, Mid, ResumeOrder;
    StartIsMid(ks);
    RoundSplits(ks, 0, 0);
    MidRunsRounds(ks, 0, 0, last);
  }
}
