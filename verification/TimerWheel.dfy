/**
 examples/timer_wheel.c: slots of timers with lap counters, against the plain rule that a timer has one
 deadline. Ticks are unbounded; callbacks do not add timers.
 */
module TimerWheel {
  import opened Sequences

  const SLOTS: nat := 16
  const MAX_TIMERS: nat := 64

  /** Pool entry `id` in a slot list; `serial` numbers the calls of `add_timer` that succeeded. */
  datatype Timer = Timer(id: nat, laps: nat, serial: nat)

  /** One call of `add_timer`: the tick at which it was made and its delay. */
  datatype Added = Added(at: nat, delay: nat)

  /** One callback: the tick and the timer's serial number. */
  datatype Fire = Fire(at: nat, serial: nat)

  datatype Wheel = Wheel(tick: nat, slots: seq<seq<Timer>>, added: seq<Added>, log: seq<Fire>)

  /** The slot that the wheel reaches at tick `t`. */
  function SlotOf(t: nat): (s: nat)
    ensures s < SLOTS
  {
    t % SLOTS
  }

  function EmptySlots(): (r: seq<seq<Timer>>)
    ensures |r| == SLOTS && forall s :: 0 <= s < SLOTS ==> r[s] == []
  {
    seq(SLOTS, _ => [])
  }

  const Initial := Wheel(0, EmptySlots(), [], [])

  function Add(w: Wheel, id: nat, delay: nat): Wheel
    requires |w.slots| == SLOTS
  {
    var s := SlotOf(w.tick + delay);
    w.(slots := w.slots[s := [Timer(id, delay / SLOTS, |w.added|)] + w.slots[s]],
       added := w.added + [Added(w.tick, delay)])
  }

  /** The timers that stay in a slot when the wheel reaches it, in order, with one lap less. */
  function Survivors(l: seq<Timer>): seq<Timer> {
    if l == [] then []
    else (if l[0].laps > 0 then [l[0].(laps := l[0].laps - 1)] else []) + Survivors(l[1..])
  }

  /** The timers that fire, in list order. */
  function Expired(l: seq<Timer>): seq<Timer> {
    if l == [] then [] else (if l[0].laps > 0 then [] else [l[0]]) + Expired(l[1..])
  }

  function Fires(at: nat, l: seq<Timer>): (r: seq<Fire>)
    ensures |r| == |l| && forall k :: 0 <= k < |l| ==> r[k] == Fire(at, l[k].serial)
  {
    seq(|l|, k requires 0 <= k < |l| => Fire(at, l[k].serial))
  }

  function Tick(w: Wheel): Wheel
    requires |w.slots| == SLOTS
  {
    var t := w.tick + 1;
    var s := SlotOf(t);
    Wheel(t, w.slots[s := Survivors(w.slots[s])], w.added, w.log + Fires(t, Expired(w.slots[s])))
  }

  // ---------------------------------------------------------------------------------------------
  // Deadlines

  /** When the timer fires: after `delay` ticks, but one revolution late if `delay` is a multiple of 16. */
  function Deadline(a: Added): nat {
    if a.delay % SLOTS != 0 then a.at + a.delay else a.at + a.delay + SLOTS
  }

  /** The first tick after `t` at which the wheel reaches slot `s`. */
  function NextVisit(t: nat, s: nat): nat
    requires s < SLOTS
  {
    t + 1 + (s + SLOTS - (t + 1) % SLOTS) % SLOTS
  }

  lemma ModOf(q: nat, b: nat)
    requires b < 16
    ensures (16 * q + b) % 16 == b && (16 * q + b) / 16 == q
  {
  }

  /** `NextVisit` without remainders, for t = 16 q + b. */
  lemma NextVisitIs(q: nat, b: nat, s: nat)
    requires b < 16 && s < SLOTS
    ensures NextVisit(16 * q + b, s) == if s > b then 16 * q + s else 16 * (q + 1) + s
  {
    if b < 15 { ModOf(q, b + 1); } else { ModOf(q + 1, 0); }
    var gap := s + 16 - (16 * q + b + 1) % 16;
    if gap < 16 { ModOf(0, gap); } else { ModOf(1, gap - 16); }
  }

  lemma AddMeetsDeadline(t: nat, delay: nat)
    ensures NextVisit(t, SlotOf(t + delay)) + SLOTS * (delay / SLOTS) == Deadline(Added(t, delay))
  {
    var q, b, q', e := t / 16, t % 16, delay / 16, delay % 16;
    assert t == 16 * q + b && delay == 16 * q' + e;
    if b + e < 16 { ModOf(q + q', b + e); } else { ModOf(q + q' + 1, b + e - 16); }
    NextVisitIs(q, b, SlotOf(t + delay));
    hide NextVisit;
  }

  lemma DeadlineSlot(a: Added)
    ensures SlotOf(Deadline(a)) == SlotOf(a.at + a.delay) && Deadline(a) > a.at
  {
  }

  lemma VisitsAdvance(t: nat, s: nat)
    requires s < SLOTS
    ensures NextVisit(t, s) > t
    ensures NextVisit(t, s) == t + 1 <==> s == SlotOf(t + 1)
    ensures NextVisit(t + 1, s) == NextVisit(t, s) + (if s == SlotOf(t + 1) then SLOTS else 0)
  {
    var q, b := t / 16, t % 16;
    assert t == 16 * q + b;
    NextVisitIs(q, b, s);
    if b < 15 {
      NextVisitIs(q, b + 1, s);
      ModOf(q, b + 1);
    } else {
      NextVisitIs(q + 1, 0, s);
      ModOf(q + 1, 0);
    }
    hide NextVisit;
  }

  /** The timer in slot `s` will fire at its deadline. */
  predicate OnTime(w: Wheel, s: nat, e: Timer) {
    s < SLOTS && e.serial < |w.added| && NextVisit(w.tick, s) + SLOTS * e.laps == Deadline(w.added[e.serial])
  }

  predicate Distinct(l: seq<Timer>) {
    forall i, j :: 0 <= i < j < |l| ==> l[i].serial != l[j].serial
  }

  ghost predicate Lists(l: seq<Timer>, k: nat) { exists i :: 0 <= i < |l| && l[i].serial == k }

  /** The ticks at which timer `k` fired. */
  function TimesOf(log: seq<Fire>, k: nat): seq<nat> {
    if log == [] then []
    else
      var f := log[|log| - 1];
      TimesOf(log[..|log| - 1], k) + (if f.serial == k then [f.at] else [])
  }

  ghost predicate SlotsOk(w: Wheel) {
    && |w.slots| == SLOTS
    && (forall s: nat :: s < SLOTS ==> Distinct(w.slots[s]))
    && (forall s: nat, i: nat :: s < SLOTS && i < |w.slots[s]| ==> OnTime(w, s, w.slots[s][i]))
    && (forall k: nat :: k < |w.added| && Deadline(w.added[k]) > w.tick ==>
                           Lists(w.slots[SlotOf(Deadline(w.added[k]))], k))
  }

  /** Every timer whose deadline has come has fired once, at its deadline; no other has fired. */
  ghost predicate FiredOnTime(w: Wheel) {
    forall k: nat :: TimesOf(w.log, k)
                     == if k < |w.added| && Deadline(w.added[k]) <= w.tick then [Deadline(w.added[k])] else []
  }

  ghost predicate Inv(w: Wheel) { SlotsOk(w) && FiredOnTime(w) }

  lemma AddKeepsSlot(w: Wheel, id: nat, delay: nat, r: nat)
    requires SlotsOk(w) && r < SLOTS
    ensures var w' := Add(w, id, delay);
            && Distinct(w'.slots[r])
            && forall i: nat :: i < |w'.slots[r]| ==> OnTime(w', r, w'.slots[r][i])
  {
    hide SlotOf;
    var w', s := Add(w, id, delay), SlotOf(w.tick + delay);
    AddMeetsDeadline(w.tick, delay);
    assert Distinct(w.slots[r]);
    forall i: nat | i < |w.slots[r]| ensures OnTime(w', r, w.slots[r][i]) {
      assert OnTime(w, r, w.slots[r][i]);
    }
    hide OnTime, Deadline, NextVisit;
    if r == s {
      var e := w'.slots[s][0];
      assert OnTime(w', s, e) by { assert w'.added[e.serial] == Added(w.tick, delay); AddIsOnTime(w, id, delay); }
      assert w'.slots[s] == [e] + w.slots[s];
      AddIsNew(w, s);
    }
  }

  lemma AddIsOnTime(w: Wheel, id: nat, delay: nat)
    requires |w.slots| == SLOTS
    ensures OnTime(Add(w, id, delay), SlotOf(w.tick + delay), Timer(id, delay / SLOTS, |w.added|))
  {
    AddMeetsDeadline(w.tick, delay);
  }

  lemma AddIsNew(w: Wheel, s: nat)
    requires SlotsOk(w) && s < SLOTS
    ensures forall i :: 0 <= i < |w.slots[s]| ==> w.slots[s][i].serial != |w.added|
  {
    forall i: nat | i < |w.slots[s]| ensures w.slots[s][i].serial != |w.added| {
      assert OnTime(w, s, w.slots[s][i]);
    }
  }

  lemma AddKeepsListed(w: Wheel, id: nat, delay: nat, k: nat)
    requires SlotsOk(w) && k <= |w.added| && Deadline(Add(w, id, delay).added[k]) > w.tick
    ensures var w' := Add(w, id, delay); Lists(w'.slots[SlotOf(Deadline(w'.added[k]))], k)
  {
    var w', s := Add(w, id, delay), SlotOf(w.tick + delay);
    hide OnTime, Distinct, Deadline;
    var r := SlotOf(Deadline(w'.added[k]));
    if k == |w.added| {
      DeadlineSlot(w'.added[k]);
      assert r == s && w'.slots[s][0].serial == k;
    } else {
      assert Lists(w.slots[r], k);
      var i :| 0 <= i < |w.slots[r]| && w.slots[r][i].serial == k;
      assert w'.slots[r][if r == s then i + 1 else i].serial == k;
    }
  }

  lemma AddKeepsInv(w: Wheel, id: nat, delay: nat)
    requires Inv(w)
    ensures Inv(Add(w, id, delay))
  {
    var w' := Add(w, id, delay);
    forall r: nat | r < SLOTS
      ensures Distinct(w'.slots[r]) && forall i: nat :: i < |w'.slots[r]| ==> OnTime(w', r, w'.slots[r][i])
    {
      AddKeepsSlot(w, id, delay, r);
    }
    forall k: nat | k < |w'.added| && Deadline(w'.added[k]) > w'.tick
      ensures Lists(w'.slots[SlotOf(Deadline(w'.added[k]))], k)
    {
      AddKeepsListed(w, id, delay, k);
    }
    forall k: nat
      ensures TimesOf(w'.log, k)
              == if k < |w'.added| && Deadline(w'.added[k]) <= w'.tick then [Deadline(w'.added[k])] else []
    {
      if k == |w.added| { DeadlineSlot(Added(w.tick, delay)); }
    }
    hide OnTime, Lists, Distinct, Deadline;
  }

  // ---------------------------------------------------------------------------------------------
  // Ticks

  lemma {:induction false} ExpiredSpec(l: seq<Timer>, e: Timer)
    ensures e in Expired(l) <==> e in l && e.laps == 0
  {
    if l != [] {
      ExpiredSpec(l[1..], e);
      assert e in l <==> e == l[0] || e in l[1..];
    }
  }

  /** A timer with `e.laps` laps survives where it had one lap more. */
  lemma {:induction false} SurvivorsSpec(l: seq<Timer>, e: Timer)
    ensures e in Survivors(l) <==> e.(laps := e.laps + 1) in l
  {
    if l != [] {
      SurvivorsSpec(l[1..], e);
      var e' := e.(laps := e.laps + 1);
      assert e' in l <==> e' == l[0] || e' in l[1..];
      if l[0].laps > 0 { assert e == l[0].(laps := l[0].laps - 1) <==> e' == l[0]; }
    }
  }

  /** What survives or expires carries a serial number of the list. */
  lemma SurvivorsListed(l: seq<Timer>, k: nat)
    requires forall i :: 0 <= i < |l| ==> l[i].serial != k
    ensures forall i :: 0 <= i < |Survivors(l)| ==> Survivors(l)[i].serial != k
    ensures forall i :: 0 <= i < |Expired(l)| ==> Expired(l)[i].serial != k
  {
    forall i | 0 <= i < |Survivors(l)| ensures Survivors(l)[i].serial != k {
      SurvivorsSpec(l, Survivors(l)[i]);
    }
    forall i | 0 <= i < |Expired(l)| ensures Expired(l)[i].serial != k {
      ExpiredSpec(l, Expired(l)[i]);
    }
  }

  lemma {:induction false} SurvivorsDistinct(l: seq<Timer>)
    requires Distinct(l)
    ensures Distinct(Survivors(l)) && Distinct(Expired(l))
  {
    if l != [] {
      var tail := l[1..];
      assert forall j :: 0 <= j < |tail| ==> tail[j] == l[j + 1];
      SurvivorsDistinct(tail);
      SurvivorsListed(tail, l[0].serial);
    }
  }

  /** A timer of the visited slot: with laps left it stays and is still on time, otherwise it is due now. */
  lemma VisitedTimer(w: Wheel, e: Timer)
    requires |w.slots| == SLOTS && OnTime(w, SlotOf(w.tick + 1), e)
    ensures if e.laps > 0 then OnTime(Tick(w), SlotOf(w.tick + 1), e.(laps := e.laps - 1))
            else Deadline(w.added[e.serial]) == w.tick + 1
    ensures e.laps > 0 ==> Deadline(w.added[e.serial]) > w.tick + 1
  {
    hide Deadline, NextVisit, SlotOf;
    VisitsAdvance(w.tick, SlotOf(w.tick + 1));
  }

  lemma SurvivorOnTime(w: Wheel, i: nat)
    requires SlotsOk(w) && i < |Survivors(w.slots[SlotOf(w.tick + 1)])|
    ensures OnTime(Tick(w), SlotOf(w.tick + 1), Survivors(w.slots[SlotOf(w.tick + 1)])[i])
  {
    hide SlotOf, NextVisit, Deadline, Distinct;
    var s := SlotOf(w.tick + 1);
    var l := w.slots[s];
    var e := Survivors(l)[i];
    SurvivorsSpec(l, e);
    var j: nat :| j < |l| && l[j] == e.(laps := e.laps + 1);
    assert OnTime(w, s, l[j]);
    VisitedTimer(w, l[j]);
  }

  lemma TickKeepsSlot(w: Wheel, r: nat)
    requires SlotsOk(w) && r < SLOTS
    ensures var w' := Tick(w);
            && Distinct(w'.slots[r])
            && forall i: nat :: i < |w'.slots[r]| ==> OnTime(w', r, w'.slots[r][i])
  {
    hide SlotOf, NextVisit, Deadline;
    var w', s := Tick(w), SlotOf(w.tick + 1);
    assert Distinct(w.slots[r]);
    if r == s {
      SurvivorsDistinct(w.slots[s]);
      forall i: nat | i < |w'.slots[s]| ensures OnTime(w', s, w'.slots[s][i]) { SurvivorOnTime(w, i); }
    } else {
      VisitsAdvance(w.tick, r);
      hide Distinct, Survivors, Expired, Fires;
      forall i: nat | i < |w'.slots[r]| ensures OnTime(w', r, w'.slots[r][i]) {
        assert OnTime(w, r, w.slots[r][i]);
      }
    }
  }

  lemma ExpiredIsDue(w: Wheel, k: nat)
    requires SlotsOk(w) && Lists(Expired(w.slots[SlotOf(w.tick + 1)]), k)
    ensures k < |w.added| && Deadline(w.added[k]) == w.tick + 1
  {
    hide SlotOf, NextVisit, Deadline, Distinct;
    var s := SlotOf(w.tick + 1);
    var l := w.slots[s];
    var i :| 0 <= i < |Expired(l)| && Expired(l)[i].serial == k;
    ExpiredSpec(l, Expired(l)[i]);
    var j: nat :| j < |l| && l[j] == Expired(l)[i];
    assert OnTime(w, s, l[j]);
    VisitedTimer(w, l[j]);
  }

  lemma DueIsExpired(w: Wheel, k: nat)
    requires SlotsOk(w) && k < |w.added| && Deadline(w.added[k]) == w.tick + 1
    ensures Lists(Expired(w.slots[SlotOf(w.tick + 1)]), k)
  {
    hide SlotOf, NextVisit, Deadline, Distinct;
    var s := SlotOf(w.tick + 1);
    var l := w.slots[s];
    assert Lists(l, k);
    var j: nat :| j < |l| && l[j].serial == k;
    assert OnTime(w, s, l[j]);
    VisitedTimer(w, l[j]);
    ExpiredSpec(l, l[j]);
    assert l[j] in Expired(l);
  }

  /** What fires in this tick is what is due. */
  lemma ExpiredAreDue(w: Wheel, k: nat)
    requires SlotsOk(w)
    ensures Lists(Expired(w.slots[SlotOf(w.tick + 1)]), k) <==> k < |w.added| && Deadline(w.added[k]) == w.tick + 1
  {
    hide OnTime, Distinct, Lists, Deadline;
    if Lists(Expired(w.slots[SlotOf(w.tick + 1)]), k) { ExpiredIsDue(w, k); }
    if k < |w.added| && Deadline(w.added[k]) == w.tick + 1 { DueIsExpired(w, k); }
  }

  lemma TickKeepsListed(w: Wheel, k: nat)
    requires SlotsOk(w) && k < |w.added| && Deadline(w.added[k]) > w.tick + 1
    ensures Lists(Tick(w).slots[SlotOf(Deadline(w.added[k]))], k)
  {
    hide SlotOf, NextVisit, Deadline, Distinct;
    var s, r := SlotOf(w.tick + 1), SlotOf(Deadline(w.added[k]));
    var l := w.slots[r];
    assert Lists(l, k);
    if r == s {
      var j: nat :| j < |l| && l[j].serial == k;
      assert OnTime(w, s, l[j]);
      VisitedTimer(w, l[j]);
      var e := l[j].(laps := l[j].laps - 1);
      SurvivorsSpec(l, e);
      assert e in Survivors(l);
    }
  }

  lemma {:induction false} TimesAppend(log: seq<Fire>, t: nat, l: seq<Timer>, k: nat)
    requires Distinct(l)
    ensures TimesOf(log + Fires(t, l), k) == TimesOf(log, k) + (if Lists(l, k) then [t] else [])
  {
    if l == [] {
      assert log + Fires(t, l) == log;
    } else {
      var n := |l| - 1;
      TimesAppend(log, t, l[..n], k);
      assert (log + Fires(t, l))[..|log| + n] == log + Fires(t, l[..n]);
      if l[n].serial == k {
        assert !Lists(l[..n], k);
      } else {
        assert Lists(l, k) <==> Lists(l[..n], k) by {
          if i :| 0 <= i < n && l[i].serial == k { assert l[..n][i].serial == k; }
        }
      }
    }
  }

  lemma TickKeepsLog(w: Wheel, k: nat)
    requires Inv(w)
    ensures var w' := Tick(w);
            TimesOf(w'.log, k)
            == if k < |w'.added| && Deadline(w'.added[k]) <= w'.tick then [Deadline(w'.added[k])] else []
  {
    hide SlotOf, OnTime, Lists, Deadline, TimesOf;
    var s := SlotOf(w.tick + 1);
    assert Distinct(w.slots[s]);
    SurvivorsDistinct(w.slots[s]);
    ExpiredAreDue(w, k);
    hide SlotsOk, Distinct;
    TimesAppend(w.log, w.tick + 1, Expired(w.slots[s]), k);
  }

  lemma TickKeepsInv(w: Wheel)
    requires Inv(w)
    ensures Inv(Tick(w))
  {
    hide SlotOf, OnTime, Lists, Deadline, TimesOf, Distinct;
    var w' := Tick(w);
    forall r: nat | r < SLOTS
      ensures Distinct(w'.slots[r]) && forall i: nat :: i < |w'.slots[r]| ==> OnTime(w', r, w'.slots[r][i])
    {
      TickKeepsSlot(w, r);
    }
    forall k: nat | k < |w'.added| && Deadline(w'.added[k]) > w'.tick
      ensures Lists(w'.slots[SlotOf(Deadline(w'.added[k]))], k)
    {
      TickKeepsListed(w, k);
    }
    forall k: nat
      ensures TimesOf(w'.log, k)
              == if k < |w'.added| && Deadline(w'.added[k]) <= w'.tick then [Deadline(w'.added[k])] else []
    {
      TickKeepsLog(w, k);
    }
  }

  // ---------------------------------------------------------------------------------------------
  // How many timers are in the slots

  function Len(): seq<Timer> -> nat { (l: seq<Timer>) => |l| }

  /** Every timer that was added is in a slot or has fired. */
  ghost predicate Balanced(w: Wheel) { Sum(w.slots, Len()) + |w.log| == |w.added| }

  lemma {:induction false} StayOrFire(l: seq<Timer>)
    ensures |Survivors(l)| + |Expired(l)| == |l|
  {
    if l != [] { StayOrFire(l[1..]); }
  }

  lemma AddBalances(w: Wheel, id: nat, delay: nat)
    requires |w.slots| == SLOTS && Balanced(w)
    ensures Balanced(Add(w, id, delay))
  {
    var s := SlotOf(w.tick + delay);
    SumUpdate(w.slots, Len(), s, Add(w, id, delay).slots[s]);
  }

  lemma TickBalances(w: Wheel)
    requires |w.slots| == SLOTS && Balanced(w)
    ensures Balanced(Tick(w))
  {
    var s := SlotOf(w.tick + 1);
    StayOrFire(w.slots[s]);
    SumUpdate(w.slots, Len(), s, Survivors(w.slots[s]));
  }

  /** How often each of the first `n` timers fired. */
  function FiringCounts(log: seq<Fire>, n: nat): (r: seq<nat>)
    ensures |r| == n && forall k :: 0 <= k < n ==> r[k] == |TimesOf(log, k)|
  {
    seq(n, k requires 0 <= k < n => |TimesOf(log, k)|)
  }

  lemma {:induction false} LogLength(log: seq<Fire>, n: nat)
    requires forall k: nat :: n <= k ==> TimesOf(log, k) == []
    ensures Sum(FiringCounts(log, n), (x: nat) => x) == |log|
  {
    if log == [] {
      SumZero(FiringCounts(log, n), (x: nat) => x);
    } else {
      var rest, f := log[..|log| - 1], log[|log| - 1];
      assert TimesOf(log, f.serial) != [];
      forall k: nat | n <= k ensures TimesOf(rest, k) == [] { assert TimesOf(log, k) == []; }
      LogLength(rest, n);
      var counts := FiringCounts(rest, n);
      SumUpdate(counts, (x: nat) => x, f.serial, counts[f.serial] + 1);
      assert FiringCounts(log, n) == counts[f.serial := counts[f.serial] + 1];
    }
  }

  /** The deadline is after tick `t`. */
  function IsPending(t: nat): Added -> bool { (a: Added) => Deadline(a) > t }

  lemma {:induction false} CountPending(added: seq<Added>, t: nat, fired: seq<nat>)
    requires |fired| == |added|
    requires forall k :: 0 <= k < |added| ==> fired[k] == if Deadline(added[k]) <= t then 1 else 0
    ensures Count(added, IsPending(t)) + Sum(fired, (x: nat) => x) == |added|
  {
    if added != [] {
      var n := |added| - 1;
      CountPending(added[..n], t, fired[..n]);
    }
  }

  /** The slots hold exactly as many timers as have their deadline ahead of them. */
  lemma SlotsHoldPending(w: Wheel)
    requires Inv(w) && Balanced(w)
    ensures Sum(w.slots, Len()) == Count(w.added, IsPending(w.tick))
  {
    hide SlotsOk, Deadline;
    LogLength(w.log, |w.added|);
    CountPending(w.added, w.tick, FiringCounts(w.log, |w.added|));
  }

  // ---------------------------------------------------------------------------------------------
  // Whole runs

  /** A call of `add_timer` that got pool entry `id`, or a call of `wheel_tick`. */
  datatype Op = AddTimer(id: nat, delay: nat) | WheelTick

  /** The wheel after one call. */
  function Made(w: Wheel, op: Op): (w': Wheel)
    requires |w.slots| == SLOTS
    ensures |w'.slots| == SLOTS
  {
    match op
    case AddTimer(id, delay) => Add(w, id, delay)
    case WheelTick => Tick(w)
  }

  function Run(w: Wheel, ops: seq<Op>): (w': Wheel)
    requires |w.slots| == SLOTS
    ensures |w'.slots| == SLOTS
    decreases |ops|
  {
    if ops == [] then w else Run(Made(w, ops[0]), ops[1..])
  }

  lemma {:induction false} RunSnoc(w: Wheel, ops: seq<Op>, op: Op)
    requires |w.slots| == SLOTS
    ensures Run(w, ops + [op]) == Made(Run(w, ops), op)
    decreases |ops|
  {
    if ops == [] {
      assert ops + [op] == [op] && [op][1..] == [];
    } else {
      assert (ops + [op])[0] == ops[0] && (ops + [op])[1..] == ops[1..] + [op];
      RunSnoc(Made(w, ops[0]), ops[1..], op);
    }
  }

  lemma {:induction false} RunKeepsInv(w: Wheel, ops: seq<Op>)
    requires Inv(w)
    ensures Inv(Run(w, ops))
    decreases |ops|
  {
    if ops != [] {
      match ops[0]
      case AddTimer(id, d) => AddKeepsInv(w, id, d); RunKeepsInv(Add(w, id, d), ops[1..]);
      case WheelTick => TickKeepsInv(w); RunKeepsInv(Tick(w), ops[1..]);
    }
  }

  lemma InitialInv()
    ensures Inv(Initial)
  {
    assert forall s: nat :: s < SLOTS ==> Initial.slots[s] == [];
  }

  /** For any mix of adds and ticks: a timer added at tick t with delay d has fired exactly once, at t + d, or at
      t + d + 16 if d is a multiple of 16, if that tick has come, and not at all otherwise. */
  lemma FiresExactlyOnce(ops: seq<Op>, k: nat)
    requires k < |Run(Initial, ops).added|
    ensures var w := Run(Initial, ops);
            var at := w.added[k].at; var d := w.added[k].delay;
            var due := if d % 16 != 0 then at + d else at + d + 16;
            TimesOf(w.log, k) == if due <= w.tick then [due] else []
  {
    hide SlotsOk, Run, TimesOf;
    InitialInv();
    RunKeepsInv(Initial, ops);
  }

  /** The documented promise, one firing after `delay` ticks, holds if and only if the delay is no multiple of 16. */
  lemma DocumentedExactly(ops: seq<Op>, k: nat)
    requires k < |Run(Initial, ops).added|
    requires var w := Run(Initial, ops); w.tick >= w.added[k].at + w.added[k].delay
    ensures var w := Run(Initial, ops); var at := w.added[k].at; var d := w.added[k].delay;
            TimesOf(w.log, k) == [at + d] <==> d % 16 != 0
  {
    FiresExactlyOnce(ops, k);
  }

  function Ticks(n: nat): seq<Op> { seq(n, _ => WheelTick) }

  lemma {:induction false} TicksPass(w: Wheel, n: nat)
    requires |w.slots| == SLOTS
    ensures Run(w, Ticks(n)).tick == w.tick + n && Run(w, Ticks(n)).added == w.added
    decreases n
  {
    if n > 0 {
      assert Ticks(n)[1..] == Ticks(n - 1);
      TicksPass(Tick(w), n - 1);
    }
  }

  lemma AddThenTicks(n: nat)
    ensures var w := Run(Initial, [AddTimer(0, 16)] + Ticks(n)); w.tick == n && w.added == [Added(0, 16)]
  {
    var ops := [AddTimer(0, 16)] + Ticks(n);
    assert ops[0] == AddTimer(0, 16) && ops[1..] == Ticks(n);
    TicksPass(Add(Initial, 0, 16), n);
  }

  /** A timer with delay 16: after 16 ticks it has not fired, and after 32 it has, once, at tick 32. */
  lemma DelayOfSixteen()
    ensures TimesOf(Run(Initial, [AddTimer(0, 16)] + Ticks(16)).log, 0) == []
    ensures TimesOf(Run(Initial, [AddTimer(0, 16)] + Ticks(32)).log, 0) == [32]
  {
    hide Run, TimesOf, Ticks;
    AddThenTicks(16);
    AddThenTicks(32);
    FiresExactlyOnce([AddTimer(0, 16)] + Ticks(16), 0);
    FiresExactlyOnce([AddTimer(0, 16)] + Ticks(32), 0);
  }

  // ---------------------------------------------------------------------------------------------
  // The order of firings

  /** Later timers come first. */
  predicate Descending(l: seq<Timer>) {
    forall i, j :: 0 <= i < j < |l| ==> l[i].serial > l[j].serial
  }

  predicate SerialsBelow(l: seq<Timer>, n: nat) {
    forall i :: 0 <= i < |l| ==> l[i].serial < n
  }

  /** Firings are in the order of their ticks; in one tick the timer that was added last fires first. */
  predicate LogOrdered(log: seq<Fire>) {
    forall i, j :: 0 <= i < j < |log| ==>
                     log[i].at < log[j].at || (log[i].at == log[j].at && log[i].serial > log[j].serial)
  }

  ghost predicate InOrder(w: Wheel) {
    && |w.slots| == SLOTS
    && (forall s: nat :: s < SLOTS ==> Descending(w.slots[s]) && SerialsBelow(w.slots[s], |w.added|))
    && LogOrdered(w.log) && forall i :: 0 <= i < |w.log| ==> w.log[i].at <= w.tick
  }

  /** Timers stay, and fire, in list order. */
  lemma {:induction false} VisitKeepsOrder(l: seq<Timer>, n: nat)
    requires Descending(l) && SerialsBelow(l, n)
    ensures Descending(Survivors(l)) && SerialsBelow(Survivors(l), n)
    ensures Descending(Expired(l)) && SerialsBelow(Expired(l), n)
  {
    if l != [] {
      assert SerialsBelow(l[1..], l[0].serial);
      VisitKeepsOrder(l[1..], l[0].serial);
    }
  }

  lemma AddInOrder(w: Wheel, id: nat, delay: nat)
    requires InOrder(w)
    ensures InOrder(Add(w, id, delay))
  {
    var w', s := Add(w, id, delay), SlotOf(w.tick + delay);
    hide SlotOf, LogOrdered;
    forall r: nat | r < SLOTS ensures Descending(w'.slots[r]) && SerialsBelow(w'.slots[r], |w'.added|) {
      assert Descending(w.slots[r]) && SerialsBelow(w.slots[r], |w.added|);
    }
  }

  lemma TickInOrder(w: Wheel)
    requires InOrder(w)
    ensures InOrder(Tick(w))
  {
    var w', s := Tick(w), SlotOf(w.tick + 1);
    assert Descending(w.slots[s]) && SerialsBelow(w.slots[s], |w.added|);
    VisitKeepsOrder(w.slots[s], |w.added|);
    LogGrows(w.log, w.tick, Expired(w.slots[s]));
    hide SlotOf, LogOrdered, Survivors, Expired;
  }

  lemma LogGrows(log: seq<Fire>, t: nat, l: seq<Timer>)
    requires LogOrdered(log) && Descending(l) && forall i :: 0 <= i < |log| ==> log[i].at <= t
    ensures LogOrdered(log + Fires(t + 1, l))
  {
  }

  lemma {:induction false} RunInOrder(w: Wheel, ops: seq<Op>)
    requires InOrder(w)
    ensures InOrder(Run(w, ops))
    decreases |ops|
  {
    if ops != [] {
      if ops[0].AddTimer? { AddInOrder(w, ops[0].id, ops[0].delay); } else { TickInOrder(w); }
      hide InOrder, Add, Tick;
      RunInOrder(Made(w, ops[0]), ops[1..]);
    }
  }

  /** For any mix of adds and ticks the callbacks run in the order of their ticks, and within one tick in the reverse
      order in which the timers were added. */
  lemma FiringOrder(ops: seq<Op>)
    ensures LogOrdered(Run(Initial, ops).log)
  {
    RunInOrder(Initial, ops);
  }
}
