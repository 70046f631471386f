/** The timer pool of examples/timer_wheel.c in memory: entries linked into slot lists through `next`. */
module TimerPool {
  import opened Sequences
  import opened TimerWheel

  const NIL: int := -1

  function HeadOf(l: seq<nat>): int { if l == [] then NIL else l[0] }

  /** Starting at `h` and following `next` visits exactly `l`. */
  predicate Linked(h: int, next: seq<int>, l: seq<nat>) {
    && h == HeadOf(l)
    && forall k: nat {:trigger l[k]} :: k < |l| ==> l[k] < |next| && next[l[k]] == HeadOf(l[k + 1..])
  }

  /** A change of `next` at an entry outside the list leaves the list alone. */
  lemma LinkedElsewhere(h: int, next: seq<int>, l: seq<nat>, i: nat, v: int)
    requires Linked(h, next, l) && i < |next| && i !in l
    ensures Linked(h, next[i := v], l)
  {
  }

  lemma LinkedFront(h: int, next: seq<int>, l: seq<nat>, i: nat)
    requires Linked(h, next, l) && i < |next| && i !in l
    ensures Linked(i, next[i := h], [i] + l)
  {
    var next', l' := next[i := h], [i] + l;
    forall k: nat | k < |l'| ensures l'[k] < |next'| && next'[l'[k]] == HeadOf(l'[k + 1..]) {
      if k == 0 { assert l'[1..] == l; } else {
        assert l'[k] == l[k - 1] && l'[k + 1..] == l[k..];
      }
    }
  }

  /** Dropping the first entry of a list. */
  lemma UnlinkHead(h: int, next: seq<int>, t: nat, rest: seq<nat>)
    requires Linked(h, next, [t] + rest)
    ensures Linked(HeadOf(rest), next, rest)
  {
    var l := [t] + rest;
    forall k: nat | k < |rest| ensures rest[k] < |next| && next[rest[k]] == HeadOf(rest[k + 1..]) {
      assert l[k + 1] == rest[k] && l[k + 2..] == rest[k + 1..];
    }
  }

  /** One link of the list without `t`, when the entry before `t` points past it. */
  lemma RelinkedAt(next: seq<int>, keep: seq<nat>, t: nat, rest: seq<nat>, k: nat)
    requires Linked(HeadOf(keep + [t] + rest), next, keep + [t] + rest) && NoDup(keep + [t] + rest)
    requires keep != [] && k < |keep + rest| && t < |next| && next[t] == HeadOf(rest)
    ensures var l' := keep + rest; var p := keep[|keep| - 1];
            p < |next| && l'[k] < |next| && next[p := next[t]][l'[k]] == HeadOf(l'[k + 1..])
  {
    var l, l', n := keep + [t] + rest, keep + rest, |keep|;
    assert l[n - 1] == keep[n - 1];
    if k < n - 1 {
      assert l[k] == l'[k] && l[k] != l[n - 1];
      assert l[k + 1..][0] == l[k + 1] == l'[k + 1] == l'[k + 1..][0];
    } else if k == n - 1 {
      assert l'[k + 1..] == rest;
    } else {
      assert l[k + 1] == l'[k] && l[k + 2..] == l'[k + 1..] && l[n - 1] != l[k + 1];
    }
  }

  /** Unlinking the entry after `keep`: through the head if `keep` is empty, else through its last entry. */
  lemma Unlink(h: int, next: seq<int>, keep: seq<nat>, t: nat, rest: seq<nat>)
    requires Linked(h, next, keep + [t] + rest) && NoDup(keep + [t] + rest)
    ensures t < |next| && next[t] == HeadOf(rest)
    ensures keep == [] ==> Linked(HeadOf(rest), next, keep + rest)
    ensures keep != [] ==> keep[|keep| - 1] < |next| && Linked(h, next[keep[|keep| - 1] := next[t]], keep + rest)
  {
    var l, l', n := keep + [t] + rest, keep + rest, |keep|;
    assert l[n] == t && l[n + 1..] == rest;
    if keep == [] {
      assert l == [t] + rest && l' == rest;
      UnlinkHead(h, next, t, rest);
    } else {
      assert HeadOf(l') == keep[0] == HeadOf(l);
      forall k: nat | k < |l'|
        ensures keep[n - 1] < |next| && l'[k] < |next| && next[keep[n - 1] := next[t]][l'[k]] == HeadOf(l'[k + 1..])
      {
        RelinkedAt(next, keep, t, rest, k);
      }
      hide NoDup;
      assert l'[0] == keep[0];
    }
  }

  /** The active entries are exactly those in the lists, each in one list, once. */
  ghost predicate Partition(lists: seq<seq<nat>>, active: seq<bool>) {
    && |lists| == SLOTS && |active| == MAX_TIMERS
    && (forall s: nat :: s < SLOTS ==> NoDup(lists[s]))
    && (forall s: nat, i: nat {:trigger i in lists[s]} :: s < SLOTS && i in lists[s] ==> i < MAX_TIMERS && active[i])
    && (forall s: nat, r: nat, i: nat :: s < SLOTS && r < SLOTS && i in lists[s] && i in lists[r] ==> s == r)
    && (forall i: nat :: i < MAX_TIMERS && active[i] ==> exists s: nat :: s < SLOTS && i in lists[s])
  }

  function Timers(l: seq<nat>, laps: seq<nat>, serial: seq<nat>): (r: seq<Timer>)
    requires |laps| == |serial| && Below(l, |laps|)
    ensures |r| == |l| && forall k :: 0 <= k < |l| ==> r[k] == Timer(l[k], laps[l[k]], serial[l[k]])
  {
    seq(|l|, k requires 0 <= k < |l| => Timer(l[k], laps[l[k]], serial[l[k]]))
  }

  predicate AllBelow(lists: seq<seq<nat>>) {
    forall s: nat :: s < |lists| ==> Below(lists[s], MAX_TIMERS)
  }

  /** The slot lists as lists of timers. */
  function AllTimers(lists: seq<seq<nat>>, laps: seq<nat>, serial: seq<nat>): (r: seq<seq<Timer>>)
    requires |laps| == |serial| == MAX_TIMERS && AllBelow(lists)
    ensures |r| == |lists| && forall s: nat :: s < |lists| ==> r[s] == Timers(lists[s], laps, serial)
  {
    seq(|lists|, s requires 0 <= s < |lists| => Timers(lists[s], laps, serial))
  }

  predicate AllLinked(wheel: seq<int>, next: seq<int>, lists: seq<seq<nat>>) {
    |wheel| == |lists| && forall s: nat :: s < |lists| ==> Linked(wheel[s], next, lists[s])
  }

  lemma PartitionAdd(lists: seq<seq<nat>>, active: seq<bool>, slot: nat, i: nat)
    requires Partition(lists, active) && slot < SLOTS && i < MAX_TIMERS && !active[i]
    ensures forall s: nat :: s < SLOTS ==> i !in lists[s]
    ensures Partition(lists[slot := [i] + lists[slot]], active[i := true])
  {
    var lists', active' := lists[slot := [i] + lists[slot]], active[i := true];
    forall s: nat | s < SLOTS ensures i !in lists[s] { }
    forall s: nat, x: nat | s < SLOTS ensures x in lists'[s] <==> x in lists[s] || (s == slot && x == i) {
      if s == slot { assert lists'[s] == [i] + lists[s]; }
    }
    NoDupConcat([i], lists[slot]);
    forall s: nat, r: nat, x: nat | s < SLOTS && r < SLOTS && x in lists'[s] && x in lists'[r] ensures s == r { }
    forall s: nat, x: nat | s < SLOTS && x in lists'[s] ensures x < MAX_TIMERS && active'[x] {
      assert x in lists[s] || x == i;
    }
    forall x: nat | x < MAX_TIMERS && active'[x] ensures exists s: nat :: s < SLOTS && x in lists'[s] {
      if x == i { assert i in lists'[slot]; }
      else {
        var s: nat :| s < SLOTS && x in lists[s];
        assert x in lists'[s];
      }
    }
  }

  lemma LinkedAdd(wheel: seq<int>, next: seq<int>, lists: seq<seq<nat>>, slot: nat, i: nat)
    requires AllLinked(wheel, next, lists) && slot < |lists| && i < |next|
    requires forall s: nat :: s < |lists| ==> i !in lists[s]
    ensures AllLinked(wheel[slot := i], next[i := wheel[slot]], lists[slot := [i] + lists[slot]])
  {
    var wheel', lists' := wheel[slot := i], lists[slot := [i] + lists[slot]];
    forall s: nat | s < |lists'| ensures Linked(wheel'[s], next[i := wheel[slot]], lists'[s]) {
      if s == slot { LinkedFront(wheel[s], next, lists[s], i); }
      else { LinkedElsewhere(wheel[s], next, lists[s], i, wheel[slot]); }
    }
  }

  lemma TimersElsewhere(l: seq<nat>, laps: seq<nat>, serial: seq<nat>, i: nat, lap: nat, k: nat)
    requires |laps| == |serial| && Below(l, |laps|) && i < |laps| && i !in l
    ensures Timers(l, laps[i := lap], serial[i := k]) == Timers(l, laps, serial)
  {
  }

  lemma TimersAdd(lists: seq<seq<nat>>, laps: seq<nat>, serial: seq<nat>, slot: nat, i: nat, lap: nat, k: nat)
    requires |laps| == |serial| == MAX_TIMERS && AllBelow(lists) && slot < |lists| && i < MAX_TIMERS
    requires forall s: nat :: s < |lists| ==> i !in lists[s]
    ensures var lists' := lists[slot := [i] + lists[slot]]; var all := AllTimers(lists, laps, serial);
            AllBelow(lists') && AllTimers(lists', laps[i := lap], serial[i := k])
                                == all[slot := [Timer(i, lap, k)] + all[slot]]
  {
    var lists' := lists[slot := [i] + lists[slot]];
    forall s: nat | s < |lists'| ensures Below(lists'[s], MAX_TIMERS) { }
    var all, all' := AllTimers(lists, laps, serial), AllTimers(lists', laps[i := lap], serial[i := k]);
    forall s: nat | s < |lists| ensures all'[s] == all[slot := [Timer(i, lap, k)] + all[slot]][s] {
      TimersElsewhere(lists[s], laps, serial, i, lap, k);
      if s == slot { assert all'[s] == [Timer(i, lap, k)] + Timers(lists[s], laps[i := lap], serial[i := k]); }
    }
  }

  lemma NotInOther(lists: seq<seq<nat>>, active: seq<bool>, s: nat, r: nat, i: nat)
    requires Partition(lists, active) && s < SLOTS && r < SLOTS && s != r && i in lists[s]
    ensures i !in lists[r]
  {
  }

  lemma PartitionDrop(lists: seq<seq<nat>>, active: seq<bool>, slot: nat, keep: seq<nat>, t: nat, rest: seq<nat>)
    requires Partition(lists, active) && slot < SLOTS && lists[slot] == keep + [t] + rest
    ensures NoDup(lists[slot]) && t < MAX_TIMERS
    ensures Partition(lists[slot := keep + rest], active[t := false])
  {
    var l, lists' := lists[slot], lists[slot := keep + rest];
    assert l[|keep|] == t;
    assert NoDup(l) && t in l;
    var active' := active[t := false];
    assert t !in keep + rest by {
      forall j | 0 <= j < |keep + rest| ensures (keep + rest)[j] != t {
        assert (keep + rest)[j] == l[if j < |keep| then j else j + 1];
      }
    }
    assert NoDup(keep + rest) by {
      forall a, b | 0 <= a < b < |keep + rest| ensures (keep + rest)[a] != (keep + rest)[b] {
        assert (keep + rest)[a] == l[if a < |keep| then a else a + 1];
        assert (keep + rest)[b] == l[if b < |keep| then b else b + 1];
      }
    }
    forall s: nat, x: nat | s < SLOTS ensures x in lists'[s] <==> x in lists[s] && x != t {
      if s == slot {
        assert x in l <==> x in keep || x == t || x in rest;
      } else {
        NotInOther(lists, active, slot, s, t);
      }
    }
    forall s: nat, r: nat, x: nat | s < SLOTS && r < SLOTS && x in lists'[s] && x in lists'[r] ensures s == r {
      assert x in lists[s] && x in lists[r];
    }
    forall s: nat, x: nat | s < SLOTS && x in lists'[s] ensures x < MAX_TIMERS && active'[x] {
      assert x in lists[s] && x != t;
    }
    forall x: nat | x < MAX_TIMERS && active'[x] ensures exists s: nat :: s < SLOTS && x in lists'[s] {
      var s: nat :| s < SLOTS && x in lists[s];
      assert x in lists'[s];
    }
  }

  /** As many entries are in use as the slot lists have members. */
  lemma {:induction false} ActiveCount(lists: seq<seq<nat>>, active: seq<bool>)
    requires Partition(lists, active)
    ensures Count(active, (b: bool) => b) == Sum(lists, (l: seq<nat>) => |l|)
    decreases Sum(lists, (l: seq<nat>) => |l|)
  {
    if s: nat :| s < SLOTS && lists[s] != [] {
      var t, rest := lists[s][0], lists[s][1..];
      assert lists[s] == [] + [t] + rest && [] + rest == rest;
      assert t in lists[s];
      PartitionDrop(lists, active, s, [], t, rest);
      SumUpdate(lists, (l: seq<nat>) => |l|, s, rest);
      CountUpdate(active, (b: bool) => b, t, false);
      ActiveCount(lists[s := rest], active[t := false]);
    } else {
      SumZero(lists, (l: seq<nat>) => |l|);
      CountBounds(active, (b: bool) => b);
    }
  }

  /** Unlinking in one slot leaves the other slots' lists alone. */
  lemma LinkedDrop(wheel: seq<int>, next: seq<int>, lists: seq<seq<nat>>, active: seq<bool>,
                   slot: nat, keep: seq<nat>, t: nat, rest: seq<nat>)
    requires AllLinked(wheel, next, lists) && Partition(lists, active) && |next| == MAX_TIMERS
    requires slot < SLOTS && lists[slot] == keep + [t] + rest
    ensures t < |next| && next[t] == HeadOf(rest)
    ensures keep == [] ==> AllLinked(wheel[slot := next[t]], next, lists[slot := keep + rest])
    ensures keep != [] ==> keep[|keep| - 1] < |next|
                           && AllLinked(wheel, next[keep[|keep| - 1] := next[t]], lists[slot := keep + rest])
  {
    assert Linked(wheel[slot], next, lists[slot]) && NoDup(lists[slot]);
    Unlink(wheel[slot], next, keep, t, rest);
    if keep != [] {
      var p := keep[|keep| - 1];
      assert p == lists[slot][|keep| - 1];
      forall s: nat | s < SLOTS && s != slot ensures Linked(wheel[s], next[p := next[t]], lists[s]) {
        NotInOther(lists, active, slot, s, p);
        LinkedElsewhere(wheel[s], next, lists[s], p, next[t]);
      }
    }
  }

  /** The traversal of a slot keeps entry `t = rest[0]`, with one lap less. */
  lemma KeepStep(keep: seq<nat>, rest: seq<nat>, laps: seq<nat>, serial: seq<nat>)
    requires |laps| == |serial| == MAX_TIMERS && Below(keep + rest, MAX_TIMERS) && NoDup(keep + rest)
    requires rest != [] && Below(rest, MAX_TIMERS) && laps[rest[0]] > 0
    ensures var t := rest[0]; var laps' := laps[t := laps[t] - 1];
            && Below(keep, MAX_TIMERS) && Below(rest, MAX_TIMERS)
            && Timers(keep + [t], laps', serial) + Survivors(Timers(rest[1..], laps', serial))
               == Timers(keep, laps, serial) + Survivors(Timers(rest, laps, serial))
            && Expired(Timers(rest[1..], laps', serial)) == Expired(Timers(rest, laps, serial))
  {
    BelowSplit(keep, rest);
    var t, tail := rest[0], rest[1..];
    var laps' := laps[t := laps[t] - 1];
    assert (keep + rest)[|keep|] == t;
    assert forall k: nat :: k < |keep| ==> (keep + rest)[k] == keep[k];
    assert forall k: nat :: k < |tail| ==> (keep + rest)[|keep| + 1 + k] == tail[k];
    assert t !in keep && t !in tail;
    var all := Timers(rest, laps, serial);
    assert all[1..] == Timers(tail, laps', serial);
    assert Timers(keep + [t], laps', serial) == Timers(keep, laps, serial) + [all[0].(laps := all[0].laps - 1)];
  }

  /** The traversal drops entry `t = rest[0]`, which fires at tick `at`. */
  lemma DropStep(rest: seq<nat>, laps: seq<nat>, serial: seq<nat>, log: seq<Fire>, at: nat)
    requires |laps| == |serial| == MAX_TIMERS && Below(rest, MAX_TIMERS) && rest != [] && laps[rest[0]] == 0
    ensures Survivors(Timers(rest[1..], laps, serial)) == Survivors(Timers(rest, laps, serial))
    ensures (log + [Fire(at, serial[rest[0]])]) + Fires(at, Expired(Timers(rest[1..], laps, serial)))
            == log + Fires(at, Expired(Timers(rest, laps, serial)))
  {
    var all := Timers(rest, laps, serial);
    assert all[1..] == Timers(rest[1..], laps, serial);
    assert Fires(at, Expired(all)) == [Fire(at, serial[rest[0]])] + Fires(at, Expired(all[1..]));
  }

  lemma BelowSplit(a: seq<nat>, b: seq<nat>)
    requires Below(a + b, MAX_TIMERS)
    ensures Below(a, MAX_TIMERS) && Below(b, MAX_TIMERS)
  {
    assert forall k: nat :: k < |a| ==> a[k] == (a + b)[k];
    assert forall k: nat :: k < |b| ==> b[k] == (a + b)[|a| + k];
  }

  /** A lap less for an entry of one slot changes nothing in the others. */
  lemma OthersUntouched(lists: seq<seq<nat>>, active: seq<bool>, laps: seq<nat>, serial: seq<nat>, slot: nat, t: nat)
    requires Partition(lists, active) && |laps| == |serial| == MAX_TIMERS && AllBelow(lists)
    requires slot < SLOTS && t in lists[slot] && t < MAX_TIMERS && laps[t] > 0
    ensures forall s: nat :: s < SLOTS && s != slot ==>
                               Timers(lists[s], laps[t := laps[t] - 1], serial) == Timers(lists[s], laps, serial)
  {
    forall s: nat | s < SLOTS && s != slot
      ensures Timers(lists[s], laps[t := laps[t] - 1], serial) == Timers(lists[s], laps, serial)
    {
      NotInOther(lists, active, slot, s, t);
      TimersElsewhere(lists[s], laps, serial, t, laps[t] - 1, serial[t]);
    }
  }

  lemma SlotsAfter(lists: seq<seq<nat>>, laps: seq<nat>, serial: seq<nat>, slots: seq<seq<Timer>>, slot: nat)
    requires |laps| == |serial| == MAX_TIMERS && AllBelow(lists) && |slots| == |lists| && slot < |lists|
    requires forall s: nat :: s < |lists| && s != slot ==> Timers(lists[s], laps, serial) == slots[s]
    ensures AllTimers(lists, laps, serial) == slots[slot := Timers(lists[slot], laps, serial)]
  {
  }

  class Pool {
    const laps: array<nat>
    const active: array<bool>
    const next: array<int>
    const wheel: array<int>
    var tick: nat
    ghost var lists: seq<seq<nat>>
    ghost var serial: seq<nat>
    ghost var added: seq<Added>
    ghost var log: seq<Fire>

    ghost predicate Shape()
      reads this
    {
      && laps.Length == active.Length == next.Length == |serial| == MAX_TIMERS
      && wheel.Length == |lists| == SLOTS && AllBelow(lists)
      && next != wheel && laps as object != next && laps as object != wheel
    }

    ghost predicate Valid()
      reads this, active, next, wheel
      ensures Valid() ==> Shape()
    {
      && Shape()
      && Partition(lists, active[..])
      && AllLinked(wheel[..], next[..], lists)
    }

    /** The wheel that this memory stands for. */
    ghost function Abs(): Wheel
      reads this, laps
      requires Shape()
    {
      Wheel(tick, AllTimers(lists, laps[..], serial), added, log)
    }

    /** `wheel_init`. */
    constructor ()
      ensures Valid() && Abs() == Initial
      ensures fresh(laps) && fresh(active) && fresh(next) && fresh(wheel)
    {
      laps := new nat[MAX_TIMERS](_ => 0);
      active := new bool[MAX_TIMERS](_ => false);
      next := new int[MAX_TIMERS](_ => 0);
      wheel := new int[SLOTS](_ => NIL);
      tick := 0;
      lists, serial, added, log := seq(SLOTS, _ => []), seq(MAX_TIMERS, _ => 0), [], [];
      new;
      assert Abs().slots == Initial.slots;
    }

    /** `timer_alloc`: the first free entry, if there is one. */
    method Alloc() returns (id: int)
      requires active.Length == MAX_TIMERS
      modifies active
      ensures id == NIL ==> active[..] == old(active[..]) && forall i :: 0 <= i < MAX_TIMERS ==> active[i]
      ensures id != NIL ==> 0 <= id < MAX_TIMERS && !old(active[id]) && active[..] == old(active[..])[id := true]
                            && forall i :: 0 <= i < id ==> old(active[i])
    {
      for i := 0 to MAX_TIMERS
        invariant active[..] == old(active[..]) && forall j :: 0 <= j < i ==> active[j] && old(active[j])
      {
        if !active[i] {
          active[i] := true;
          return i;
        }
      }
      return NIL;
    }

    /** `add_timer`: refused exactly when all entries are in use. */
    method AddTimer(delay: nat) returns (id: int)
      requires Valid()
      modifies this, laps, active, next, wheel
      ensures Valid()
      ensures id == NIL ==> Abs() == old(Abs()) && active[..] == old(active[..])
      ensures id == NIL ==> forall i :: 0 <= i < MAX_TIMERS ==> old(active[i])
      ensures id != NIL ==> 0 <= id < MAX_TIMERS && Abs() == Add(old(Abs()), id, delay)
                            && !old(active[id]) && forall i :: 0 <= i < id ==> old(active[i])
    {
      hide Partition, AllLinked, AllTimers, AllBelow, SlotOf;
      ghost var wheel0, next0, laps0, active0 := wheel[..], next[..], laps[..], active[..];
      id := Alloc();
      if id == NIL { return; }
      var slot, lap: nat := SlotOf(tick + delay), delay / SLOTS;
      PartitionAdd(lists, active0, slot, id);
      LinkedAdd(wheel0, next0, lists, slot, id);
      TimersAdd(lists, laps0, serial, slot, id, lap, |added|);
      laps[id] := lap;
      next[id] := wheel[slot];
      wheel[slot] := id;
      serial, lists := serial[id := |added|], lists[slot := [id as nat] + lists[slot]];
      added := added + [Added(tick, delay)];
      assert wheel[..] == wheel0[slot := id] && next[..] == next0[id := wheel0[slot]];
      assert laps[..] == laps0[id := lap];
    }

    /** The `else` branch of the `wheel_tick` loop: take `t` out of its list, fire it, and free it. */
    method Detach(slot: nat, prev: int, t: nat, ghost keep: seq<nat>, ghost rest: seq<nat>) returns (nx: int)
      requires Valid() && slot < SLOTS && t < MAX_TIMERS && lists[slot] == keep + [t] + rest
      requires prev == if keep == [] then NIL else keep[|keep| - 1]
      modifies this`lists, this`log, active, next, wheel
      ensures Valid() && lists == old(lists)[slot := keep + rest] && nx == HeadOf(rest)
      ensures log == old(log) + [Fire(tick, serial[t])]
    {
      hide Linked, AllTimers, Below;
      ghost var wheel0, next0, active0 := wheel[..], next[..], active[..];
      PartitionDrop(lists, active0, slot, keep, t, rest);
      LinkedDrop(wheel0, next0, lists, active0, slot, keep, t, rest);
      assert t == lists[slot][|keep|];
      BelowDrop(lists, slot, keep, t, rest);
      hide Partition, AllLinked, AllBelow;
      nx := next[t];
      if prev != NIL { next[prev] := nx; } else { wheel[slot] := nx; }
      log := log + [Fire(tick, serial[t])];
      active[t] := false;
      lists := lists[slot := keep + rest];
      assert active[..] == active0[t := false];
      if keep == [] {
        assert wheel[..] == wheel0[slot := nx] && next[..] == next0;
      } else {
        assert wheel[..] == wheel0 && next[..] == next0[keep[|keep| - 1] := nx];
      }
    }

    /** What the traversal of `slot` has still to do, from the state in which it has kept `keep`. */
    ghost predicate Halfway(slot: nat, keep: seq<nat>, rest: seq<nat>, w0: Wheel)
      reads this, laps, active, next, wheel
      requires slot < SLOTS && |w0.slots| == SLOTS
    {
      && Valid() && lists[slot] == keep + rest && Below(keep, MAX_TIMERS) && Below(rest, MAX_TIMERS)
      && tick == w0.tick + 1 && slot == SlotOf(tick) && added == w0.added
      && Timers(keep, laps[..], serial) + Survivors(Timers(rest, laps[..], serial)) == Survivors(w0.slots[slot])
      && log + Fires(tick, Expired(Timers(rest, laps[..], serial))) == w0.log + Fires(tick, Expired(w0.slots[slot]))
      && forall s: nat :: s < SLOTS && s != slot ==> Timers(lists[s], laps[..], serial) == w0.slots[s]
    }

    /** The `if` branch of the `wheel_tick` loop: `t` has laps left and stays. */
    method Keep(slot: nat, t: nat, ghost keep: seq<nat>, ghost rest: seq<nat>, ghost w0: Wheel)
      requires slot < SLOTS && |w0.slots| == SLOTS && Halfway(slot, keep, rest, w0)
      requires rest != [] && t == rest[0] && laps[t] > 0
      modifies laps
      ensures Halfway(slot, keep + [t], rest[1..], w0)
    {
      ghost var laps0 := laps[..];
      assert NoDup(lists[slot]) && Below(lists[slot], MAX_TIMERS);
      KeepStep(keep, rest, laps0, serial);
      assert t == lists[slot][|keep|];
      OthersUntouched(lists, active[..], laps0, serial, slot, t);
      hide Partition, AllLinked, AllBelow, Survivors, Expired, Timers, Fires, SlotOf;
      laps[t] := laps[t] - 1;
      assert laps[..] == laps0[t := laps0[t] - 1];
      assert keep + rest == (keep + [t]) + rest[1..];
      BelowSplit(keep + [t], rest[1..]);
    }

    method Drop(slot: nat, prev: int, t: nat, ghost keep: seq<nat>, ghost rest: seq<nat>, ghost w0: Wheel)
      returns (nx: int)
      requires slot < SLOTS && |w0.slots| == SLOTS && Halfway(slot, keep, rest, w0)
      requires rest != [] && t == rest[0] && laps[t] == 0
      requires prev == if keep == [] then NIL else keep[|keep| - 1]
      modifies this`lists, this`log, active, next, wheel
      ensures Halfway(slot, keep, rest[1..], w0) && nx == HeadOf(rest[1..])
    {
      assert keep + rest == keep + [t] + rest[1..];
      DropStep(rest, laps[..], serial, log, tick);
      hide Partition, AllLinked, AllBelow, Survivors, Expired, Timers, Fires, SlotOf;
      nx := Detach(slot, prev, t, keep, rest[1..]);
    }

    /** `wheel_tick`. */
    method WheelTick()
      requires Valid()
      modifies this, laps, active, next, wheel
      ensures Valid() && Abs() == Tick(old(Abs()))
    {
      ghost var w0 := Abs();
      tick := tick + 1;
      var slot := SlotOf(tick);
      var prev, t := NIL, wheel[slot];
      ghost var keep, rest: seq<nat> := [], lists[slot];
      Begins(slot, w0);
      hide Partition, AllLinked, AllBelow, AllTimers, Halfway, Linked, SlotOf;
      while t != NIL
        invariant Halfway(slot, keep, rest, w0)
        invariant t == HeadOf(rest) && prev == if keep == [] then NIL else keep[|keep| - 1]
        decreases |rest|
      {
        NextIs(slot, keep, rest, w0);
        if laps[t] > 0 {
          var nx := next[t];
          Keep(slot, t, keep, rest, w0);
          prev, keep, rest := t, keep + [t as nat], rest[1..];
          t := nx;
        } else {
          t := Drop(slot, prev, t, keep, rest, w0);
          rest := rest[1..];
        }
      }
      Ends(slot, keep, w0);
    }

    lemma Begins(slot: nat, w0: Wheel)
      requires Valid() && Abs() == w0.(tick := w0.tick + 1) && slot == SlotOf(tick)
      ensures Halfway(slot, [], lists[slot], w0) && wheel[slot] == HeadOf(lists[slot])
    {
      hide SlotOf;
      assert [] + lists[slot] == lists[slot];
      assert Linked(wheel[slot], next[..], lists[slot]);
      assert Timers([], laps[..], serial) + Survivors(w0.slots[slot]) == Survivors(w0.slots[slot]);
    }

    lemma Ends(slot: nat, keep: seq<nat>, w0: Wheel)
      requires slot < SLOTS && |w0.slots| == SLOTS && Halfway(slot, keep, [], w0)
      ensures Valid() && Abs() == Tick(w0)
    {
      assert keep + [] == keep;
      assert Timers([], laps[..], serial) == [];
      assert Timers(keep, laps[..], serial) + [] == Timers(keep, laps[..], serial);
      assert log + [] == log;
      SlotsAfter(lists, laps[..], serial, w0.slots, slot);
      hide Partition, AllLinked, AllTimers, SlotOf;
    }

    lemma NextIs(slot: nat, keep: seq<nat>, rest: seq<nat>, w0: Wheel)
      requires slot < SLOTS && |w0.slots| == SLOTS && Halfway(slot, keep, rest, w0) && rest != []
      ensures Shape() && rest[0] < MAX_TIMERS && next[rest[0]] == HeadOf(rest[1..])
    {
      assert Linked(wheel[slot], next[..], lists[slot]);
      assert lists[slot][|keep|] == rest[0] && lists[slot][|keep| + 1..] == rest[1..];
    }
  }

  /** The lists in memory are as long as the slots that they stand for. */
  lemma {:induction false} SameLengths(lists: seq<seq<nat>>, slots: seq<seq<Timer>>)
    requires |lists| == |slots| && forall s :: 0 <= s < |lists| ==> |lists[s]| == |slots[s]|
    ensures Sum(lists, (l: seq<nat>) => |l|) == Sum(slots, Len())
  {
    if lists != [] { SameLengths(lists[..|lists| - 1], slots[..|slots| - 1]); }
  }

  /** A call of `add_timer` or of `wheel_tick`. */
  datatype Request = Start(delay: nat) | Pass

  /** What a request does to the wheel when it gets entry `id`, or none if `id` is negative. */
  function Served(w: Wheel, request: Request, id: int): (w': Wheel)
    requires |w.slots| == SLOTS
    ensures |w'.slots| == SLOTS
  {
    if request.Pass? then Tick(w) else if id < 0 then w else Add(w, id, request.delay)
  }

  /** The call that a request comes down to. */
  function CallFor(request: Request, id: int): seq<Op> {
    if request.Pass? then [TimerWheel.WheelTick]
    else if id < 0 then [] else [TimerWheel.AddTimer(id, request.delay)]
  }

  /** The calls that had an effect: `ids[i]` is the entry that request `i` got, NIL if it was refused or a tick. */
  function Calls(requests: seq<Request>, ids: seq<int>): seq<Op>
    requires |ids| == |requests|
  {
    if requests == [] then []
    else
      var n := |requests| - 1;
      Calls(requests[..n], ids[..n]) + CallFor(requests[n], ids[n])
  }

  /** The wheel after the first `i` requests. */
  function After(requests: seq<Request>, ids: seq<int>, i: nat): (w: Wheel)
    requires i <= |requests| && i <= |ids|
    ensures |w.slots| == SLOTS
  {
    Run(Initial, Calls(requests[..i], ids[..i]))
  }

  /** A request for a timer is refused if and only if 64 timers are pending; otherwise it gets an entry. */
  ghost predicate Answered(requests: seq<Request>, ids: seq<int>, i: nat)
    requires i < |requests| && i < |ids|
  {
    var w := After(requests, ids, i);
    && NIL <= ids[i] < MAX_TIMERS
    && (requests[i].Start? ==> (ids[i] == NIL <==> Count(w.added, IsPending(w.tick)) == MAX_TIMERS))
    && (requests[i].Pass? ==> ids[i] == NIL)
  }

  lemma AfterNext(requests: seq<Request>, ids: seq<int>, id: int)
    requires |ids| < |requests|
    ensures forall i: nat :: i <= |ids| ==> After(requests, ids + [id], i) == After(requests, ids, i)
    ensures After(requests, ids + [id], |ids| + 1) == Served(After(requests, ids, |ids|), requests[|ids|], id)
  {
    var n, ids' := |ids|, ids + [id];
    forall i: nat | i <= n ensures After(requests, ids', i) == After(requests, ids, i) {
      assert ids'[..i] == ids[..i];
    }
    assert requests[..n + 1][..n] == requests[..n] && ids'[..n + 1][..n] == ids[..n];
    var ops := Calls(requests[..n], ids[..n]);
    var call := CallFor(requests[n], id);
    if call == [] { assert ops + call == ops; } else { RunSnoc(Initial, ops, call[0]); }
  }

  /** Any mix of calls, on the pool in memory. The pool holds the wheel on which exactly the accepted timers were
      started and the ticks made; a timer is refused if and only if 64 are pending; every accepted timer fires once, at
      its deadline, and not before, and of the timers of one tick the last one added fires first; as many entries are
      in use as timers are pending. */
  method RunTimers(requests: seq<Request>) returns (pool: Pool, ids: seq<int>)
    ensures pool.Valid() && |ids| == |requests| && pool.Abs() == Run(Initial, Calls(requests, ids))
    ensures forall i: nat :: i < |requests| ==> Answered(requests, ids, i)
    ensures pool.tick == Count(requests, IsPass()) && |pool.added| == Count(ids, (id: int) => id >= 0)
    ensures forall k: nat :: k < |pool.added| ==>
                               var due := Deadline(pool.added[k]);
                               TimesOf(pool.log, k) == if due <= pool.tick then [due] else []
    ensures LogOrdered(pool.log)
    ensures Count(pool.active[..], (b: bool) => b) == Count(pool.added, IsPending(pool.tick))
  {
    hide Pool.Valid, Pool.Abs, Inv, Balanced, Add, Tick, IsPending, TimesOf, Deadline, After, Calls;
    pool := new Pool();
    ids := [];
    InitialInv();
    InitialBalances();
    AfterNone(requests);
    for i := 0 to |requests|
      invariant pool.Valid() && Inv(pool.Abs()) && Balanced(pool.Abs())
      invariant fresh(pool) && fresh(pool.laps) && fresh(pool.active) && fresh(pool.next) && fresh(pool.wheel)
      invariant |ids| == i && pool.Abs() == After(requests, ids, i)
      invariant forall j: nat :: j < i ==> Answered(requests, ids, j)
    {
      ghost var w, before := pool.Abs(), ids;
      var id := Answer(pool, requests[i]);
      AfterNext(requests, ids, id);
      ids := ids + [id];
      forall j: nat | j < i ensures Answered(requests, ids, j) { assert Answered(requests, before, j); }
    }
    AfterAll(requests, ids);
    forall i: nat | i < |ids| && requests[i].Pass? ensures ids[i] < 0 { assert Answered(requests, ids, i); }
    CallsCount(requests, ids);
    FiringOrder(Calls(requests, ids));
    hide LogOrdered;
    InUse(pool);
  }

  function IsPass(): Request -> bool { (r: Request) => r.Pass? }

  /** The clock shows how many ticks were requested, and one timer was added for each accepted request. */
  lemma {:induction false} CallsCount(requests: seq<Request>, ids: seq<int>)
    requires |ids| == |requests| && forall i :: 0 <= i < |ids| ==> requests[i].Pass? ==> ids[i] < 0
    ensures var w := Run(Initial, Calls(requests, ids));
            w.tick == Count(requests, IsPass()) && |w.added| == Count(ids, (id: int) => id >= 0)
  {
    if requests != [] {
      var n := |requests| - 1;
      CallsCount(requests[..n], ids[..n]);
      var ops, call := Calls(requests[..n], ids[..n]), CallFor(requests[n], ids[n]);
      if call == [] { assert ops + call == ops; } else { RunSnoc(Initial, ops, call[0]); }
    }
  }

  lemma AfterNone(requests: seq<Request>)
    ensures After(requests, [], 0) == Initial
  {
  }

  lemma AfterAll(requests: seq<Request>, ids: seq<int>)
    requires |ids| == |requests|
    ensures After(requests, ids, |ids|) == Run(Initial, Calls(requests, ids))
  {
    assert requests[..|ids|] == requests && ids[..|ids|] == ids;
  }

  lemma AllInUse(active: seq<bool>)
    ensures Count(active, (b: bool) => b) == |active| <==> forall i :: 0 <= i < |active| ==> active[i]
  {
    hide Count;
    CountBounds(active, (b: bool) => b);
  }

  /** All entries are in use if and only if 64 timers are pending. */
  lemma FullExactly(pool: Pool)
    requires pool.Valid() && Inv(pool.Abs()) && Balanced(pool.Abs())
    ensures pool.active.Length == MAX_TIMERS
    ensures var w := pool.Abs();
            (forall i :: 0 <= i < MAX_TIMERS ==> pool.active[i]) <==> Count(w.added, IsPending(w.tick)) == MAX_TIMERS
  {
    hide Pool.Valid, Pool.Abs, Inv, Balanced, IsPending, TimesOf, Deadline, Count;
    InUse(pool);
    AllInUse(pool.active[..]);
  }

  /** One call, on the pool in memory. */
  method Answer(pool: Pool, request: Request) returns (id: int)
    requires pool.Valid() && Inv(pool.Abs()) && Balanced(pool.Abs())
    modifies pool, pool.laps, pool.active, pool.next, pool.wheel
    ensures pool.Valid() && Inv(pool.Abs()) && Balanced(pool.Abs()) && NIL <= id < MAX_TIMERS
    ensures pool.Abs() == Served(old(pool.Abs()), request, id) && (request.Pass? ==> id == NIL)
    ensures var w := old(pool.Abs());
            request.Start? ==> (id == NIL <==> Count(w.added, IsPending(w.tick)) == MAX_TIMERS)
  {
    hide Pool.Valid, Pool.Abs, Inv, Balanced, Add, Tick, IsPending, Count;
    FullExactly(pool);
    ghost var w := pool.Abs();
    id := NIL;
    match request {
      case Start(delay) =>
        id := pool.AddTimer(delay);
        if id != NIL { AddKeepsAll(w, id, delay); }
      case Pass =>
        pool.WheelTick();
        TickKeepsAll(w);
    }
  }

  lemma InitialBalances()
    ensures Balanced(Initial)
  {
    SumZero(Initial.slots, Len());
  }

  lemma AddKeepsAll(w: Wheel, id: nat, delay: nat)
    requires Inv(w) && Balanced(w)
    ensures Inv(Add(w, id, delay)) && Balanced(Add(w, id, delay)) && |Add(w, id, delay).added| == |w.added| + 1
  {
    AddKeepsInv(w, id, delay);
    AddBalances(w, id, delay);
    hide Inv, Balanced;
  }

  lemma TickKeepsAll(w: Wheel)
    requires Inv(w) && Balanced(w)
    ensures Inv(Tick(w)) && Balanced(Tick(w)) && Tick(w).added == w.added
  {
    TickKeepsInv(w);
    TickBalances(w);
    hide Inv, Balanced;
  }

  /** The entries in use are as many as the pending timers. */
  lemma InUse(pool: Pool)
    requires pool.Valid() && Inv(pool.Abs()) && Balanced(pool.Abs())
    ensures forall k: nat :: k < |pool.added| ==>
                               var due := Deadline(pool.added[k]);
                               TimesOf(pool.log, k) == if due <= pool.tick then [due] else []
    ensures Count(pool.active[..], (b: bool) => b) == Count(pool.added, IsPending(pool.tick))
    ensures pool.Abs().added == pool.added && pool.Abs().tick == pool.tick && pool.Abs().log == pool.log
    ensures pool.active.Length == MAX_TIMERS
  {
    ActiveCount(pool.lists, pool.active[..]);
    SameLengths(pool.lists, pool.Abs().slots);
    SlotsHoldPending(pool.Abs());
    hide SlotsOk, Partition, AllLinked, Deadline;
  }

  lemma BelowDrop(lists: seq<seq<nat>>, slot: nat, keep: seq<nat>, t: nat, rest: seq<nat>)
    requires AllBelow(lists) && slot < |lists| && lists[slot] == keep + [t] + rest
    ensures AllBelow(lists[slot := keep + rest]) && t < MAX_TIMERS
    ensures Below(keep, MAX_TIMERS) && Below(rest, MAX_TIMERS)
  {
    var l := lists[slot];
    assert Below(l, MAX_TIMERS);
    assert forall k: nat :: k < |keep| ==> keep[k] == l[k];
    assert forall k: nat :: k < |rest| ==> rest[k] == l[|keep| + 1 + k];
    assert l[|keep|] == t;
  }
}
