/**
 Coroutines that share memory and only yield: each step of a coroutine runs from one scheduling point
 to the next (or part of the way), and a coroutine that cannot go on yields without changing anything.
 */
module Clients {
  import opened Sequences
  import opened Scheduler
  import opened Deadlock
  import opened RoundRobin
  import opened Runtime

  /** How a step ends: the coroutine keeps the CPU, calls `co_yield`, or returns. */
  datatype Signal = Continues | Yielded | Returned

  /** `n` coroutines over memory `W`: who has returned, what always holds, and how much is left to do. */
  datatype Spec<!W> = Spec(n: nat, finished: (W, nat) -> bool, inv: W -> bool, rank: W -> nat)

  predicate AllFinished<W>(spec: Spec<W>, w: W) {
    forall p: nat :: p < spec.n ==> spec.finished(w, p)
  }

  /** The coroutine cannot go on: it yields and leaves memory as it is. */
  ghost predicate Spins<W>(step: (W, nat) -> (W, Signal), w: W, p: nat) {
    step(w, p) == (w, Yielded)
  }

  /** What one step of an unfinished coroutine keeps. */
  ghost predicate StepOk<W>(step: (W, nat) -> (W, Signal), spec: Spec<W>, w: W, p: nat) {
    var (w', sig) := step(w, p);
    && spec.inv(w')
    && (Spins(step, w, p) || spec.rank(w') < spec.rank(w))
    && (forall q: nat :: q < spec.n ==> (spec.finished(w', q) <==> spec.finished(w, q) || (q == p && sig.Returned?)))
  }

  ghost predicate SomeoneActive<W>(step: (W, nat) -> (W, Signal), spec: Spec<W>, w: W) {
    exists p: nat :: p < spec.n && !spec.finished(w, p) && !Spins(step, w, p)
  }

  ghost predicate Safe<W(!new)>(step: (W, nat) -> (W, Signal), spec: Spec<W>) {
    forall w: W, p: nat :: spec.inv(w) && p < spec.n && !spec.finished(w, p) ==> StepOk(step, spec, w, p)
  }

  ghost predicate Live<W(!new)>(step: (W, nat) -> (W, Signal), spec: Spec<W>) {
    forall w: W :: spec.inv(w) && !AllFinished(spec, w) ==> SomeoneActive(step, spec, w)
  }

  ghost predicate Good<W(!new)>(step: (W, nat) -> (W, Signal), spec: Spec<W>) {
    Safe(step, spec) && Live(step, spec)
  }

  // ---------------------------------------------------------------------------------------------
  // Any interleaving

  /** Memory after the coroutines named in `order` took one step each; a finished one takes none. */
  function Interleave<W>(step: (W, nat) -> (W, Signal), spec: Spec<W>, w: W, order: seq<nat>): W
    decreases |order|
  {
    if order == [] then w
    else
      var p := order[0];
      var w' := if p < spec.n && !spec.finished(w, p) then step(w, p).0 else w;
      Interleave(step, spec, w', order[1..])
  }

  lemma {:induction false} InterleavingKeepsInv<W(!new)>(step: (W, nat) -> (W, Signal), spec: Spec<W>,
                                                         w: W, order: seq<nat>)
    requires Safe(step, spec) && spec.inv(w)
    ensures spec.inv(Interleave(step, spec, w, order))
    decreases |order|
  {
    if order != [] {
      var p := order[0];
      if p < spec.n && !spec.finished(w, p) {
        assert StepOk(step, spec, w, p);
        InterleavingKeepsInv(step, spec, step(w, p).0, order[1..]);
      } else {
        InterleavingKeepsInv(step, spec, w, order[1..]);
      }
    }
  }

  /** One more step. */
  lemma {:induction false} InterleaveSnoc<W>(step: (W, nat) -> (W, Signal), spec: Spec<W>, w: W,
                                             order: seq<nat>, p: nat)
    ensures var w' := Interleave(step, spec, w, order);
            Interleave(step, spec, w, order + [p]) == if p < spec.n && !spec.finished(w', p) then step(w', p).0 else w'
    decreases |order|
  {
    if order == [] {
      assert order + [p] == [p] && [p][1..] == [];
    } else {
      var q := order[0];
      assert (order + [p])[0] == q && (order + [p])[1..] == order[1..] + [p];
      InterleaveSnoc(step, spec, if q < spec.n && !spec.finished(w, q) then step(w, q).0 else w, order[1..], p);
    }
  }

  /** How many steps coroutine `p` takes in `order` without spinning. */
  ghost function Advances<W>(step: (W, nat) -> (W, Signal), spec: Spec<W>, w: W, order: seq<nat>, p: nat): nat
    decreases |order|
  {
    if order == [] then 0
    else
      var q := order[0];
      if q < spec.n && !spec.finished(w, q) then
        (if q == p && !Spins(step, w, q) then 1 else 0) + Advances(step, spec, step(w, q).0, order[1..], p)
      else Advances(step, spec, w, order[1..], p)
  }

  /** `made` counts, in memory, the steps that a coroutine has taken without spinning. */
  ghost predicate Tells<W(!new)>(step: (W, nat) -> (W, Signal), spec: Spec<W>, made: (W, nat) -> int) {
    forall w: W, q: nat, p: nat :: spec.inv(w) && q < spec.n && p < spec.n && !spec.finished(w, q) ==>
                                     made(step(w, q).0, p)
                                     == made(w, p) + if q == p && !Spins(step, w, q) then 1 else 0
  }

  /** So it does after every interleaving. */
  lemma {:induction false} AdvancesTold<W(!new)>(step: (W, nat) -> (W, Signal), spec: Spec<W>, w: W, order: seq<nat>,
                                                 p: nat, made: (W, nat) -> int)
    requires Safe(step, spec) && spec.inv(w) && Tells(step, spec, made) && p < spec.n
    ensures made(Interleave(step, spec, w, order), p) == made(w, p) + Advances(step, spec, w, order, p)
    decreases |order|
  {
    if order != [] {
      var q := order[0];
      if q < spec.n && !spec.finished(w, q) {
        assert StepOk(step, spec, w, q);
        AdvancesTold(step, spec, step(w, q).0, order[1..], p, made);
      } else {
        AdvancesTold(step, spec, w, order[1..], p, made);
      }
    }
  }

  // ---------------------------------------------------------------------------------------------
  // First in, first out

  /** `line` lists the unfinished coroutines, each once. */
  ghost predicate Lined<W>(spec: Spec<W>, w: W, line: seq<nat>) {
    NoDup(line) && forall p: nat :: p in line <==> p < spec.n && !spec.finished(w, p)
  }

  /** The line after a step of its head. */
  function Moved(line: seq<nat>, sig: Signal): seq<nat>
    requires line != []
  {
    match sig
    case Continues => line
    case Yielded => line[1..] + [line[0]]
    case Returned => line[1..]
  }

  /** How many coroutines at the head of the line will only spin. */
  ghost function Spinning<W>(step: (W, nat) -> (W, Signal), w: W, line: seq<nat>): nat {
    if line == [] || !Spins(step, w, line[0]) then 0 else 1 + Spinning(step, w, line[1..])
  }

  /** A coroutine that can go on bounds how many spin before it, and what is behind it does not matter. */
  lemma {:induction false} SpinningStops<W>(step: (W, nat) -> (W, Signal), w: W, line: seq<nat>, more: seq<nat>, p: nat)
    requires p in line && !Spins(step, w, p)
    ensures Spinning(step, w, line + more) == Spinning(step, w, line) < |line|
    decreases |line|
  {
    assert (line + more)[0] == line[0];
    if Spins(step, w, line[0]) {
      assert line == [line[0]] + line[1..];
      assert (line + more)[1..] == line[1..] + more;
      SpinningStops(step, w, line[1..], more, p);
    }
  }

  /** Moving a spinning coroutine from the front to the back leaves one fewer before a coroutine that can go on. */
  lemma SpinnerMovesBack<W>(step: (W, nat) -> (W, Signal), w: W, r: nat, rest: seq<nat>, p: nat)
    requires Spins(step, w, r) && p in rest && !Spins(step, w, p)
    ensures Spinning(step, w, rest + [r]) < Spinning(step, w, [r] + rest)
  {
    SpinningStops(step, w, rest, [r], p);
    assert ([r] + rest)[1..] == rest;
  }

  /** After a step of the head of the line: less is left to do, or it spun and the next that can go on is nearer. */
  ghost predicate Nearer<W>(step: (W, nat) -> (W, Signal), spec: Spec<W>, w: W, line: seq<nat>,
                            w': W, line': seq<nat>)
  {
    || spec.rank(w') < spec.rank(w)
    || (w' == w && Spinning(step, w, line') < Spinning(step, w, line))
  }

  lemma MovedLists(line: seq<nat>, sig: Signal)
    requires line != [] && NoDup(line)
    ensures NoDup(Moved(line, sig))
    ensures forall p: nat :: p in Moved(line, sig) <==> p in line && !(sig.Returned? && p == line[0])
  {
    var p, rest := line[0], line[1..];
    assert line == [p] + rest && p !in rest;
    NoDupConcat(rest, [p]);
  }

  lemma LinedAfter<W(!new)>(step: (W, nat) -> (W, Signal), spec: Spec<W>, w: W, line: seq<nat>)
    requires Good(step, spec) && spec.inv(w) && Lined(spec, w, line) && line != []
    ensures var (w', sig) := step(w, line[0]); spec.inv(w') && Lined(spec, w', Moved(line, sig))
  {
    var p := line[0];
    var (w', sig) := step(w, p);
    assert p in line;
    assert StepOk(step, spec, w, p);
    hide Good, Spins, Moved, NoDup;
    MovedLists(line, sig);
  }

  lemma SpinBringsCloser<W(!new)>(step: (W, nat) -> (W, Signal), spec: Spec<W>, w: W, line: seq<nat>)
    requires Good(step, spec) && spec.inv(w) && Lined(spec, w, line) && line != [] && Spins(step, w, line[0])
    ensures Spinning(step, w, line[1..] + [line[0]]) < Spinning(step, w, line)
  {
    hide Spinning, Spins, NoDup;
    var p := line[0];
    assert p in line;
    assert !AllFinished(spec, w);
    var q: nat :| q < spec.n && !spec.finished(w, q) && !Spins(step, w, q);
    assert line == [p] + line[1..] && q in line;
    hide Good, Lined;
    SpinnerMovesBack(step, w, p, line[1..], q);
  }

  lemma LineMoves<W(!new)>(step: (W, nat) -> (W, Signal), spec: Spec<W>, w: W, line: seq<nat>)
    requires Good(step, spec) && spec.inv(w) && Lined(spec, w, line) && line != []
    ensures var (w', sig) := step(w, line[0]); var line' := Moved(line, sig);
            spec.inv(w') && Lined(spec, w', line') && Nearer(step, spec, w, line, w', line')
  {
    LinedAfter(step, spec, w, line);
    var p := line[0];
    assert p in line;
    assert StepOk(step, spec, w, p);
    hide Good, Lined, Spinning, NoDup;
    if Spins(step, w, p) { SpinBringsCloser(step, spec, w, line); }
  }

  /** The run that `co_run` makes of the coroutines in `line`: where it ends, and who took the steps. The head of the
      line takes a step; it stays there, goes to the end of the line, or leaves it. */
  ghost function Fifo<W(!new)>(step: (W, nat) -> (W, Signal), spec: Spec<W>, w: W, line: seq<nat>): (r: (W, seq<nat>))
    requires Good(step, spec) && spec.inv(w) && Lined(spec, w, line)
    ensures spec.inv(r.0) && AllFinished(spec, r.0)
    decreases spec.rank(w), Spinning(step, w, line)
  {
    if line == [] then (w, [])
    else
      LineMoves(step, spec, w, line);
      var (w', sig) := step(w, line[0]);
      var (end, log) := Fifo(step, spec, w', Moved(line, sig));
      (end, [line[0]] + log)
  }

  function Everyone(n: nat): (r: seq<nat>)
    ensures |r| == n && forall i :: 0 <= i < n ==> r[i] == i
  {
    seq(n, i requires 0 <= i < n => i)
  }

  lemma EveryoneLined<W>(spec: Spec<W>, w: W)
    requires forall p: nat :: p < spec.n ==> !spec.finished(w, p)
    ensures Lined(spec, w, Everyone(spec.n))
  {
    forall p: nat | p < spec.n ensures p in Everyone(spec.n) { assert Everyone(spec.n)[p] == p; }
  }

  /** The run of all coroutines from `w`, in the order of their creation. */
  ghost function FifoRun<W(!new)>(step: (W, nat) -> (W, Signal), spec: Spec<W>, w: W): (r: (W, seq<nat>))
    requires Good(step, spec) && spec.inv(w) && forall p: nat :: p < spec.n ==> !spec.finished(w, p)
    ensures spec.inv(r.0) && AllFinished(spec, r.0)
  {
    EveryoneLined(spec, w);
    Fifo(step, spec, w, Everyone(spec.n))
  }

  /** One step of the run. */
  lemma FifoStep<W(!new)>(step: (W, nat) -> (W, Signal), spec: Spec<W>, w: W, line: seq<nat>)
    requires Good(step, spec) && spec.inv(w) && Lined(spec, w, line) && line != []
    ensures var (w', sig) := step(w, line[0]); var line' := Moved(line, sig);
            && spec.inv(w') && Lined(spec, w', line')
            && Fifo(step, spec, w, line)
               == (Fifo(step, spec, w', line').0, [line[0]] + Fifo(step, spec, w', line').1)
  {
    LineMoves(step, spec, w, line);
    hide Good, Lined, Nearer, Spinning;
  }

  /** One step of the run that only spins. */
  lemma FifoSpin<W(!new)>(step: (W, nat) -> (W, Signal), spec: Spec<W>, w: W, line: seq<nat>)
    requires Good(step, spec) && spec.inv(w) && Lined(spec, w, line) && line != [] && Spins(step, w, line[0])
    ensures var line' := line[1..] + [line[0]];
            && Lined(spec, w, line')
            && Fifo(step, spec, w, line)
               == (Fifo(step, spec, w, line').0, [line[0]] + Fifo(step, spec, w, line').1)
  {
    FifoStep(step, spec, w, line);
    hide Good, Lined, Fifo;
  }

  lemma Rotated(front: seq<nat>, rest: seq<nat>, log: seq<nat>)
    requires front != []
    ensures var p, tail, line := front[0], front[1..], front + rest;
            && line[0] == p && line[1..] + [p] == tail + (rest + [p]) && (rest + [p]) + tail == rest + front
            && [p] + (tail + log) == front + log
  {
  }

  /** Coroutines that only spin go to the end of the line, one after the other. */
  lemma {:induction false} SpinnersPass<W(!new)>(step: (W, nat) -> (W, Signal), spec: Spec<W>, w: W,
                                                 spinners: seq<nat>, rest: seq<nat>, line: seq<nat>, line': seq<nat>)
    requires Good(step, spec) && spec.inv(w) && line == spinners + rest && line' == rest + spinners
    requires Lined(spec, w, line) && forall p :: p in spinners ==> Spins(step, w, p)
    ensures Lined(spec, w, line')
    ensures Fifo(step, spec, w, line) == (Fifo(step, spec, w, line').0, spinners + Fifo(step, spec, w, line').1)
    decreases |spinners|
  {
    hide Good, Fifo, Lined, Spins;
    if spinners == [] {
      assert line == line';
      assert [] + Fifo(step, spec, w, line).1 == Fifo(step, spec, w, line).1;
    } else {
      var p, tail := spinners[0], spinners[1..];
      assert p in spinners;
      Rotated(spinners, rest, []);
      FifoSpin(step, spec, w, line);
      var next, more := line[1..] + [p], rest + [p];
      assert next == tail + more && line' == more + tail;
      SpinnersPass(step, spec, w, tail, more, next, line');
      Rotated(spinners, rest, Fifo(step, spec, w, line').1);
    }
  }

  /** The run from `w` and `line` comes, with the steps `log`, to `w'` and `line'`. */
  ghost predicate Leads<W(!new)>(step: (W, nat) -> (W, Signal), spec: Spec<W>, w: W, line: seq<nat>,
                                 log: seq<nat>, w': W, line': seq<nat>)
  {
    && Good(step, spec) && spec.inv(w) && Lined(spec, w, line) && spec.inv(w') && Lined(spec, w', line')
    && Fifo(step, spec, w, line) == (Fifo(step, spec, w', line').0, log + Fifo(step, spec, w', line').1)
  }

  lemma LeadsNowhere<W(!new)>(step: (W, nat) -> (W, Signal), spec: Spec<W>, w: W)
    requires Good(step, spec) && spec.inv(w) && forall p: nat :: p < spec.n ==> !spec.finished(w, p)
    ensures Leads(step, spec, w, Everyone(spec.n), [], w, Everyone(spec.n))
  {
    EveryoneLined(spec, w);
    hide Good, Fifo, Lined;
    var log := Fifo(step, spec, w, Everyone(spec.n)).1;
    assert [] + log == log;
  }

  lemma LeadsInside<W(!new)>(step: (W, nat) -> (W, Signal), spec: Spec<W>, w: W, line: seq<nat>,
                             log: seq<nat>, w': W, line': seq<nat>)
    requires Leads(step, spec, w, line, log, w', line')
    ensures Good(step, spec) && spec.inv(w') && Lined(spec, w', line')
  {
  }

  lemma LeadsStep<W(!new)>(step: (W, nat) -> (W, Signal), spec: Spec<W>, w: W, line: seq<nat>,
                           p: nat, w': W, sig: Signal)
    requires Good(step, spec) && spec.inv(w) && Lined(spec, w, line)
    requires line != [] && line[0] == p && step(w, p) == (w', sig)
    ensures Leads(step, spec, w, line, [p], w', Moved(line, sig))
  {
    FifoStep(step, spec, w, line);
    hide Good, Fifo, Lined, Moved;
  }

  lemma LeadsOn<W(!new)>(step: (W, nat) -> (W, Signal), spec: Spec<W>, w: W, line: seq<nat>, log: seq<nat>,
                         w': W, line': seq<nat>, p: nat, w'': W, sig: Signal)
    requires Leads(step, spec, w, line, log, w', line') && line' != [] && line'[0] == p && step(w', p) == (w'', sig)
    ensures Leads(step, spec, w, line, log + [p], w'', Moved(line', sig))
  {
    hide Good, Fifo, Lined, Moved;
    LeadsStep(step, spec, w', line', p, w'', sig);
    LeadsThen(step, spec, w, line, log, w', line', [p], w'', Moved(line', sig));
  }

  lemma LeadsThen<W(!new)>(step: (W, nat) -> (W, Signal), spec: Spec<W>, w: W, line: seq<nat>, log: seq<nat>,
                           w': W, line': seq<nat>, log': seq<nat>, w'': W, line'': seq<nat>)
    requires Leads(step, spec, w, line, log, w', line') && Leads(step, spec, w', line', log', w'', line'')
    ensures Leads(step, spec, w, line, log + log', w'', line'')
  {
    hide Good, Fifo, Lined;
    var rest := Fifo(step, spec, w'', line'').1;
    assert log + (log' + rest) == (log + log') + rest;
  }

  lemma LeadsSpinning<W(!new)>(step: (W, nat) -> (W, Signal), spec: Spec<W>, w: W, spinners: seq<nat>, rest: seq<nat>)
    requires Good(step, spec) && spec.inv(w) && Lined(spec, w, spinners + rest)
    requires forall p :: p in spinners ==> Spins(step, w, p)
    ensures Leads(step, spec, w, spinners + rest, spinners, w, rest + spinners)
  {
    SpinnersPass(step, spec, w, spinners, rest, spinners + rest, rest + spinners);
    hide Good, Fifo, Lined;
  }

  lemma {:induction false} LogWithin<W(!new)>(step: (W, nat) -> (W, Signal), spec: Spec<W>, w: W, line: seq<nat>)
    requires Good(step, spec) && spec.inv(w) && Lined(spec, w, line)
    ensures forall p :: p in Fifo(step, spec, w, line).1 ==> p in line
    ensures line != [] ==> Fifo(step, spec, w, line).1 != [] && Fifo(step, spec, w, line).1[0] == line[0]
    decreases spec.rank(w), Spinning(step, w, line)
  {
    if line != [] {
      FifoStep(step, spec, w, line);
      LineMoves(step, spec, w, line);
      var (w', sig) := step(w, line[0]);
      LogWithin(step, spec, w', Moved(line, sig));
      hide Good, Fifo, Lined;
      assert forall p :: p in Moved(line, sig) ==> p in line;
    }
  }

  /** The run is one of the interleavings: that of its own log. */
  lemma {:induction false} FifoIsInterleaving<W(!new)>(step: (W, nat) -> (W, Signal), spec: Spec<W>, w: W,
                                                       line: seq<nat>)
    requires Good(step, spec) && spec.inv(w) && Lined(spec, w, line)
    ensures Interleave(step, spec, w, Fifo(step, spec, w, line).1) == Fifo(step, spec, w, line).0
    decreases spec.rank(w), Spinning(step, w, line)
  {
    if line != [] {
      assert line[0] in line;
      FifoStep(step, spec, w, line);
      LineMoves(step, spec, w, line);
      hide Good, Fifo;
      var (w', sig) := step(w, line[0]);
      FifoIsInterleaving(step, spec, w', Moved(line, sig));
      assert ([line[0]] + Fifo(step, spec, w', Moved(line, sig)).1)[1..] == Fifo(step, spec, w', Moved(line, sig)).1;
    }
  }

  /** What every step keeps holds at the end of the run. */
  lemma {:induction false} FifoKeeps<W(!new)>(step: (W, nat) -> (W, Signal), spec: Spec<W>, w: W, line: seq<nat>,
                                              kept: W -> bool)
    requires Good(step, spec) && spec.inv(w) && Lined(spec, w, line) && kept(w)
    requires forall x: W, p: nat :: spec.inv(x) && kept(x) && p < spec.n && !spec.finished(x, p) ==> kept(step(x, p).0)
    ensures kept(Fifo(step, spec, w, line).0)
    decreases spec.rank(w), Spinning(step, w, line)
  {
    if line != [] {
      assert line[0] in line;
      FifoStep(step, spec, w, line);
      LineMoves(step, spec, w, line);
      hide Good, Fifo;
      FifoKeeps(step, spec, step(w, line[0]).0, Moved(line, step(w, line[0]).1), kept);
    }
  }

  /** Every step ends in `co_yield` or a return. */
  ghost predicate NeverKeeps<W(!new)>(step: (W, nat) -> (W, Signal), spec: Spec<W>) {
    forall w: W, p: nat :: spec.inv(w) && p < spec.n && !spec.finished(w, p) ==> !step(w, p).1.Continues?
  }

  /** Nobody takes two steps in a row, except when nobody else is left. */
  predicate TakesTurns(log: seq<nat>) {
    forall i, j :: 0 <= i < i + 1 <= j < |log| && log[i] == log[i + 1] ==> log[j] == log[i]
  }

  lemma {:induction false} FifoTakesTurns<W(!new)>(step: (W, nat) -> (W, Signal), spec: Spec<W>, w: W, line: seq<nat>)
    requires Good(step, spec) && NeverKeeps(step, spec) && spec.inv(w) && Lined(spec, w, line)
    ensures TakesTurns(Fifo(step, spec, w, line).1)
    decreases spec.rank(w), Spinning(step, w, line)
  {
    if line != [] {
      var p := line[0];
      assert p in line;
      FifoStep(step, spec, w, line);
      LineMoves(step, spec, w, line);
      var (w', sig) := step(w, p);
      assert !sig.Continues?;
      var line' := Moved(line, sig);
      FifoTakesTurns(step, spec, w', line');
      LogWithin(step, spec, w, line);
      LogWithin(step, spec, w', line');
      var log, log' := Fifo(step, spec, w, line).1, Fifo(step, spec, w', line').1;
      NextIsOther(line, line', log, log');
    }
  }

  lemma NextIsOther(line: seq<nat>, line': seq<nat>, log: seq<nat>, log': seq<nat>)
    requires line != [] && NoDup(line) && (line' == line[1..] || line' == line[1..] + [line[0]])
    requires log == [line[0]] + log' && TakesTurns(log') && (forall p :: p in log ==> p in line)
    requires line' != [] ==> log' != [] && log'[0] == line'[0]
    ensures TakesTurns(log)
  {
    assert |line| > 1 ==> line'[0] == line[1] && log'[0] == log[1] != log[0];
    forall i, j | 0 <= i < i + 1 <= j < |log| && log[i] == log[i + 1] ensures log[j] == log[i] {
      if i > 0 {
        assert log'[i - 1] == log[i] && log'[i - 1 + 1] == log[i + 1] && log'[j - 1] == log[j];
      } else if |line| == 1 {
        assert log[j] in log;
      }
    }
  }

  // ---------------------------------------------------------------------------------------------
  // On the scheduler

  /** The scheduler's coroutines are the unfinished ones, and nobody awaits. */
  ghost predicate Tied<W>(spec: Spec<W>, w: W, s: State) {
    && Valid(s) && |s.co| == spec.n
    && forall p: nat :: p < spec.n ==> !s.co[p].Waiting? && (s.co[p].Done? <==> spec.finished(w, p))
  }

  /** The coroutines that will run, in order. */
  function Line(s: State): seq<nat> {
    (if s.running.Some? then [s.running.value] else []) + s.queue
  }

  lemma LineListsUnfinished<W>(spec: Spec<W>, w: W, s: State, p: nat)
    requires Tied(spec, w, s)
    ensures p in Line(s) <==> p < spec.n && !spec.finished(w, p)
  {
    if p < spec.n && !spec.finished(w, p) { assert s.co[p].Ready? || s.co[p].Running?; }
    if p in s.queue { assert s.co[p].Ready?; }
  }

  lemma TiedIsLined<W>(spec: Spec<W>, w: W, s: State)
    requires Tied(spec, w, s)
    ensures Lined(spec, w, Line(s))
  {
    forall p: nat ensures p in Line(s) <==> p < spec.n && !spec.finished(w, p) { LineListsUnfinished(spec, w, s, p); }
    if s.running.Some? {
      var r := s.running.value;
      assert s.co[r].Running?;
      assert r !in s.queue;
      NoDupConcat([r], s.queue);
    }
  }

  /** The scheduler call that ends a step. */
  function Switch(s: State, sig: Signal): State
    requires s.running.Some? && s.running.value < |s.co|
  {
    match sig
    case Continues => s
    case Yielded => Step(s, Yield)
    case Returned => Step(s, Scheduler.Finish)
  }

  lemma SwitchChangesOne(s: State, sig: Signal)
    requires Valid(s) && s.running.Some? && forall p: nat :: p < |s.co| ==> !s.co[p].Waiting?
    ensures Valid(Switch(s, sig))
    ensures Switch(s, sig).co == match sig case Continues => s.co
                                           case Yielded => s.co[s.running.value := Ready]
                                           case Returned => s.co[s.running.value := Done]
  {
    match sig
    case Continues =>
    case Yielded => StepKeepsValid(s, Yield);
    case Returned =>
      StepKeepsValid(s, Scheduler.Finish);
      NobodyWaits(s.co[s.running.value := Done], s.running.value);
  }

  lemma TiedAfter<W(!new)>(step: (W, nat) -> (W, Signal), spec: Spec<W>, w: W, s: State)
    requires Good(step, spec) && spec.inv(w) && Tied(spec, w, s) && s.running.Some?
    ensures !spec.finished(w, s.running.value) && StepOk(step, spec, w, s.running.value)
    ensures Tied(spec, step(w, s.running.value).0, Switch(s, step(w, s.running.value).1))
  {
    var r := s.running.value;
    assert s.co[r].Running?;
    assert StepOk(step, spec, w, r);
    var (w', sig) := step(w, r);
    var s' := Switch(s, sig);
    SwitchChangesOne(s, sig);
    hide Valid, Switch, Good, Spins;
    forall p: nat | p < spec.n
      ensures !s'.co[p].Waiting? && (s'.co[p].Done? <==> spec.finished(w', p))
    {
      assert !s.co[p].Waiting? && (s.co[p].Done? <==> spec.finished(w, p));
    }
  }

  lemma ResumeKeepsLine<W>(spec: Spec<W>, w: W, s: State)
    requires Tied(spec, w, s) && s.running.None? && s.queue != []
    ensures Enabled(s, Scheduler.Resume) && Tied(spec, w, Step(s, Scheduler.Resume))
    ensures Line(Step(s, Scheduler.Resume)) == Line(s)
  {
    HeadIsReady(s);
    StepKeepsValid(s, Scheduler.Resume);
  }

  lemma CreatedIsTied<W>(spec: Spec<W>, w: W)
    requires spec.n <= MAX_COROUTINES && forall p: nat :: p < spec.n ==> !spec.finished(w, p)
    ensures Tied(spec, w, Created(spec.n))
  {
    CreatedIsValid(spec.n);
  }

  lemma EmptyQueueMeansFinished<W>(spec: Spec<W>, w: W, s: State)
    requires Tied(spec, w, s) && s.running.None? && s.queue == []
    ensures AllFinished(spec, w)
  {
    forall p: nat | p < spec.n ensures spec.finished(w, p) { LineListsUnfinished(spec, w, s, p); }
  }

  lemma SwitchMoves<W>(spec: Spec<W>, w: W, s: State, sig: Signal)
    requires Tied(spec, w, s) && s.running.Some?
    ensures s.running.value < |s.co| && Line(s) != [] && Line(s)[0] == s.running.value
    ensures Line(Switch(s, sig)) == Moved(Line(s), sig)
  {
    var r := s.running.value;
    assert s.co[r].Running?;
    if sig.Returned? { ReturnLeavesQueue(spec, w, s); }
    hide Valid, Tied;
    assert Line(s) == [r] + s.queue && Line(s)[1..] == s.queue;
  }

  lemma ReturnLeavesQueue<W>(spec: Spec<W>, w: W, s: State)
    requires Tied(spec, w, s) && s.running.Some? && s.running.value < |s.co|
    ensures Line(Step(s, Scheduler.Finish)) == s.queue
  {
    var r := s.running.value;
    NobodyWaits(s.co[r := Done], r);
    hide Valid, Tied;
    assert s.queue + [] == s.queue;
  }

  /** A run of the coroutines `step` and where it ends. */
  datatype Course<!W> = Course(step: (W, nat) -> (W, Signal), spec: Spec<W>, end: (W, seq<nat>))

  /** The run is on course: from memory `w` and scheduler state `s`, with the steps in `log` behind it. */
  ghost predicate OnTrack<W(!new)>(c: Course<W>, log: seq<nat>, w: W, s: State) {
    && Good(c.step, c.spec) && c.spec.inv(w) && Tied(c.spec, w, s) && Lined(c.spec, w, Line(s))
    && c.end == (Fifo(c.step, c.spec, w, Line(s)).0, log + Fifo(c.step, c.spec, w, Line(s)).1)
  }

  lemma StepOnTrack<W(!new)>(c: Course<W>, log: seq<nat>, w: W, s: State)
    requires OnTrack(c, log, w, s) && s.running.Some?
    ensures s.running.value < |s.co|
    ensures var r := s.running.value; var (w', sig) := c.step(w, r); var s' := Switch(s, sig);
            OnTrack(c, log + [r], w', s') && Nearer(c.step, c.spec, w, Line(s), w', Line(s'))
  {
    var r := s.running.value;
    var (w', sig) := c.step(w, r);
    SwitchMoves(c.spec, w, s, sig);
    TiedAfter(c.step, c.spec, w, s);
    LineMoves(c.step, c.spec, w, Line(s));
    FifoStep(c.step, c.spec, w, Line(s));
    hide Good, Tied, Lined, Line, Switch, Fifo, Nearer, Valid;
    var later := Fifo(c.step, c.spec, w', Moved(Line(s), sig)).1;
    assert log + ([r] + later) == (log + [r]) + later;
  }

  lemma ResumeOnTrack<W(!new)>(c: Course<W>, log: seq<nat>, w: W, s: State)
    requires OnTrack(c, log, w, s) && s.running.None? && s.queue != []
    ensures Enabled(s, Scheduler.Resume) && OnTrack(c, log, w, Step(s, Scheduler.Resume))
    ensures Line(Step(s, Scheduler.Resume)) == Line(s)
  {
    ResumeKeepsLine(c.spec, w, s);
    hide Good, Tied, Lined, Line, Fifo, Step;
  }

  lemma AtTheEnd<W(!new)>(c: Course<W>, log: seq<nat>, w: W, s: State)
    requires OnTrack(c, log, w, s) && s.running.None? && s.queue == []
    ensures c.end == (w, log)
  {
    assert Line(s) == [] && log + [] == log;
    hide Good, Tied, Lined, Line;
  }

  /** The run of all coroutines from `w`. */
  ghost function CourseFrom<W(!new)>(step: (W, nat) -> (W, Signal), spec: Spec<W>, w: W): Course<W>
    requires Good(step, spec) && spec.inv(w) && forall p: nat :: p < spec.n ==> !spec.finished(w, p)
  {
    Course(step, spec, FifoRun(step, spec, w))
  }

  lemma StartOnTrack<W(!new)>(step: (W, nat) -> (W, Signal), spec: Spec<W>, w: W)
    requires Good(step, spec) && spec.inv(w) && spec.n <= MAX_COROUTINES
    requires forall p: nat :: p < spec.n ==> !spec.finished(w, p)
    ensures OnTrack(CourseFrom(step, spec, w), [], w, Created(spec.n))
  {
    EveryoneLined(spec, w);
    CreatedIsTied(spec, w);
    assert Line(Created(spec.n)) == Everyone(spec.n);
    hide Good, Tied, Lined, Line, Fifo, Created;
    var r := Fifo(step, spec, w, Everyone(spec.n));
    assert [] + r.1 == r.1;
  }

  lemma RunningOnTrack<W(!new)>(c: Course<W>, log: seq<nat>, w: W, s: State)
    requires OnTrack(c, log, w, s) && s.running.Some?
    ensures s.running.value < c.spec.n && !c.spec.finished(w, s.running.value)
  {
    hide Good, Lined, Fifo;
    assert s.co[s.running.value].Running?;
  }

  /** The coroutine that takes the next step: the running one, or else the head of the run-queue. */
  method NextUp<W(!new)>(sys: System, ghost c: Course<W>, ghost log: seq<nat>, ghost w: W) returns (p: nat, more: bool)
    requires sys.Valid() && OnTrack(c, log, w, sys.Abs())
    modifies sys.Repr()
    ensures sys.Valid() && sys.Repr() == old(sys.Repr())
    ensures OnTrack(c, log, w, sys.Abs()) && Line(sys.Abs()) == Line(old(sys.Abs()))
    ensures if more then sys.running != null && p == Position(sys.running) && p < c.spec.n && !c.spec.finished(w, p)
            else c.end == (w, log)
  {
    hide System.Valid, System.Abs, System.Repr, Scheduler.Valid, Step, OnTrack;
    ghost var s := sys.Abs();
    if sys.running == null {
      if s.queue != [] { ResumeOnTrack(c, log, w, s); } else { AtTheEnd(c, log, w, s); }
      var co := sys.ResumeNext();
      if co == null { return 0, false; }
    }
    p, more := Position(sys.running), true;
    RunningOnTrack(c, log, w, sys.Abs());
  }

  /** The scheduler call that ends the step which the running coroutine took from `w`. */
  method EndStep<W(!new)>(sys: System, sig: Signal, ghost c: Course<W>, ghost log: seq<nat>, ghost w: W)
    requires sys.Valid() && sys.running != null && sig == c.step(w, Position(sys.running)).1
    requires OnTrack(c, log, w, sys.Abs())
    modifies sys.Repr()
    ensures sys.Valid() && sys.Repr() == old(sys.Repr())
    ensures var p := old(Position(sys.running)); var w' := c.step(w, p).0;
            && OnTrack(c, log + [p], w', sys.Abs())
            && Nearer(c.step, c.spec, w, Line(old(sys.Abs())), w', Line(sys.Abs()))
  {
    hide System.Valid, System.Abs, System.Repr, Scheduler.Valid, OnTrack, Step, Nearer;
    StepOnTrack(c, log, w, sys.Abs());
    match sig
    case Continues =>
    case Yielded => sys.CoYield();
    case Returned => sys.Finish();
  }

  /** `main`: create the coroutines and call `co_run`. It returns with every coroutine finished, and the steps were
      taken first in, first out. */
  method RunAll<W(!new)>(step: (W, nat) -> (W, Signal), n: nat, w0: W, ghost spec: Spec<W>)
    returns (w: W, log: seq<nat>)
    requires n == spec.n <= MAX_COROUTINES && Good(step, spec) && spec.inv(w0)
    requires forall p: nat :: p < n ==> !spec.finished(w0, p)
    ensures spec.inv(w) && AllFinished(spec, w) && (w, log) == FifoRun(step, spec, w0)
  {
    hide System.Valid, System.Abs, Scheduler.Valid, Good, StepOk, OnTrack, Line, Spinning, FifoRun;
    ghost var c := CourseFrom(step, spec, w0);
    StartOnTrack(step, spec, w0);
    w, log := w0, [];
    var sys := CreateMany(n);
    while true
      invariant sys.Valid() && fresh(sys.Repr())
      invariant OnTrack(c, log, w, sys.Abs())
      decreases spec.rank(w), Spinning(step, w, Line(sys.Abs()))
    {
      var p, more := NextUp(sys, c, log, w);
      if !more { return; }
      var (w', sig) := step(w, p);
      EndStep(sys, sig, c, log, w);
      w, log := w', log + [p];
    }
  }
}
