/**
 The context switch of src/asm_ctx.S and the stack set-up of `co_create`, on a machine of registers and 8-byte
 words. The callee-saved registers are those of section 3.2.1 of the System V AMD64 psABI, the argument
 registers those of section 3.2.3. Addresses are byte addresses of aligned words.
 */
module ContextSwitch {

  type Memory = map<int, int>

  function Read(mem: Memory, a: int): int { if a in mem then mem[a] else 0 }

  datatype Regs = Regs(rsp: int, rbp: int, rbx: int, r12: int, r13: int, r14: int, r15: int,
                       rdi: int, rsi: int, rip: int)

  datatype Machine = Machine(r: Regs, mem: Memory)

  // Code addresses.
  const CO_CTX_SWITCH: int := 1
  const CO_TRAMPOLINE: int := 2
  const CO_ENTRY: int := 3

  const CTX_BYTES: int := 56

  /** `call co_ctx_switch`, which will return to `ret`. */
  function Call(m: Machine, ret: int): Machine {
    Machine(m.r.(rsp := m.r.rsp - 8, rip := CO_CTX_SWITCH), m.mem[m.r.rsp - 8 := ret])
  }

  function Save(r: Regs, mem: Memory, to: int): Memory {
    mem[to := r.rsp][to + 0x08 := r.rbp][to + 0x10 := r.rbx][to + 0x18 := r.r12]
       [to + 0x20 := r.r13][to + 0x28 := r.r14][to + 0x30 := r.r15]
  }

  function Load(r: Regs, mem: Memory, from: int): Regs {
    r.(rsp := Read(mem, from), rbp := Read(mem, from + 0x08), rbx := Read(mem, from + 0x10),
       r12 := Read(mem, from + 0x18), r13 := Read(mem, from + 0x20), r14 := Read(mem, from + 0x28),
       r15 := Read(mem, from + 0x30))
  }

  /** The record: rsp at offset 0, then rbp, rbx and r12 to r15, one word each. */
  function Words(r: Regs): seq<int> { [r.rsp, r.rbp, r.rbx, r.r12, r.r13, r.r14, r.r15] }

  /** A save writes the words of the record in this order, and a load reads them in this order. */
  lemma RecordLayout(r: Regs, mem: Memory, rec: int, i: nat)
    requires i < 7
    ensures Read(Save(r, mem, rec), rec + 8 * i) == Words(r)[i]
    ensures Words(Load(r, mem, rec))[i] == Read(mem, rec + 8 * i)
  {
  }

  function Ret(m: Machine): Machine {
    m.(r := m.r.(rip := Read(m.mem, m.r.rsp), rsp := m.r.rsp + 8))
  }

  /** `co_ctx_switch(%rdi, %rsi)`. */
  function Switched(m: Machine): Machine {
    var mem := Save(m.r, m.mem, m.r.rdi);
    Ret(Machine(Load(m.r, mem, m.r.rsi), mem))
  }

  /** `co_trampoline`: pop the argument, jump to `co_entry`. */
  function Trampoline(m: Machine): Machine {
    m.(r := m.r.(rdi := Read(m.mem, m.r.rsp), rsp := m.r.rsp + 8, rip := CO_ENTRY))
  }

  /** The instructions themselves, in order. */
  class Cpu {
    var r: Regs
    var mem: Memory

    ghost function Now(): Machine
      reads this
    {
      Machine(r, mem)
    }

    method CoCtxSwitch()
      modifies this
      ensures Now() == Switched(old(Now()))
    {
      hide Read;
      mem := mem[r.rdi + 0x00 := r.rsp];
      mem := mem[r.rdi + 0x08 := r.rbp];
      mem := mem[r.rdi + 0x10 := r.rbx];
      mem := mem[r.rdi + 0x18 := r.r12];
      mem := mem[r.rdi + 0x20 := r.r13];
      mem := mem[r.rdi + 0x28 := r.r14];
      mem := mem[r.rdi + 0x30 := r.r15];
      r := r.(rsp := Read(mem, r.rsi + 0x00));
      r := r.(rbp := Read(mem, r.rsi + 0x08));
      r := r.(rbx := Read(mem, r.rsi + 0x10));
      r := r.(r12 := Read(mem, r.rsi + 0x18));
      r := r.(r13 := Read(mem, r.rsi + 0x20));
      r := r.(r14 := Read(mem, r.rsi + 0x28));
      r := r.(r15 := Read(mem, r.rsi + 0x30));
      r := r.(rip := Read(mem, r.rsp), rsp := r.rsp + 8);
    }

    method CoTrampoline()
      modifies this
      ensures Now() == Trampoline(old(Now()))
    {
      r := r.(rdi := Read(mem, r.rsp), rsp := r.rsp + 8);
      r := r.(rip := CO_ENTRY);
    }
  }

  // ---------------------------------------------------------------------------------------------
  // Contexts

  /** A context record at `rec` and the stack [lo, hi) that belongs to it. */
  datatype Ctx = Ctx(rec: int, lo: int, hi: int)

  predicate InRecord(c: Ctx, a: int) { c.rec <= a < c.rec + CTX_BYTES }

  predicate InStack(c: Ctx, a: int) { c.lo <= a < c.hi }

  predicate Owns(c: Ctx, a: int) { InRecord(c, a) || InStack(c, a) }

  ghost predicate Apart(c: Ctx, d: Ctx) { forall a :: !(Owns(c, a) && Owns(d, a)) }

  ghost predicate Separate(cs: seq<Ctx>) {
    && (forall i, j :: 0 <= i < j < |cs| ==> Apart(cs[i], cs[j]))
    && forall i, a :: 0 <= i < |cs| ==> !(InRecord(cs[i], a) && InStack(cs[i], a))
  }

  /** What a suspended context is: its registers, with `rsp` at the return address, and memory at that time. */
  datatype Snap = Snap(r: Regs, mem: Memory)

  /** The context's record and its whole stack are as they were when it was suspended. */
  ghost predicate Intact(mem: Memory, c: Ctx, s: Snap) {
    && Load(s.r, mem, c.rec) == s.r
    && InStack(c, s.r.rsp)
    && forall a :: InStack(c, a) ==> Read(mem, a) == Read(s.mem, a)
  }

  datatype World = World(m: Machine, cs: seq<Ctx>, cur: nat, saved: seq<Snap>)

  ghost predicate Ok(w: World) {
    && w.cur < |w.cs| == |w.saved| && Separate(w.cs)
    && forall i: nat :: i < |w.cs| && i != w.cur ==> Intact(w.m.mem, w.cs[i], w.saved[i])
  }

  /** The running context may do anything but write to what other contexts own. */
  ghost predicate Ran(w: World, m: Machine)
    requires w.cur < |w.cs|
  {
    forall i: nat, a: int :: i < |w.cs| && i != w.cur && Owns(w.cs[i], a) ==> Read(m.mem, a) == Read(w.m.mem, a)
  }

  /** The running context runs up to `m` and there switches to `next` or creates a context. */
  datatype Event = SwitchTo(m: Machine, ret: int, next: nat) | Create(m: Machine, ctx: Ctx, co: int)

  ghost predicate Legal(w: World, e: Event) {
    && w.cur < |w.cs| && Ran(w, e.m)
    && match e
       case SwitchTo(m, ret, next) =>
         && next < |w.cs| && m.r.rdi == w.cs[w.cur].rec && m.r.rsi == w.cs[next].rec
         && InStack(w.cs[w.cur], m.r.rsp - 8)
       case Create(m, ctx, co) =>
         && Separate(w.cs + [ctx]) && ctx.hi - ctx.lo >= 31
  }

  /** The top of a new stack, rounded down to 16 bytes. */
  function Top(ctx: Ctx): int { ctx.hi - ctx.hi % 16 }

  /** What `co_create` leaves in a new context: a record that resumes in the trampoline with `co` on the stack. */
  function FreshRegs(ctx: Ctx): Regs { Regs(Top(ctx) - 16, 0, 0, 0, 0, 0, 0, 0, 0, 0) }

  function Seed(mem: Memory, ctx: Ctx, co: int): Memory {
    Save(FreshRegs(ctx), mem[Top(ctx) - 8 := co][Top(ctx) - 16 := CO_TRAMPOLINE], ctx.rec)
  }

  ghost function Step(w: World, e: Event): World
    requires Legal(w, e) && |w.saved| == |w.cs|
  {
    match e
    case SwitchTo(m, ret, next) =>
      var m1 := Call(m, ret);
      World(Switched(m1), w.cs, next, w.saved[w.cur := Snap(m1.r, m1.mem)])
    case Create(m, ctx, co) =>
      var mem := Seed(m.mem, ctx, co);
      World(m.(mem := mem), w.cs + [ctx], w.cur, w.saved + [Snap(FreshRegs(ctx), mem)])
  }

  // ---------------------------------------------------------------------------------------------
  // Every step keeps every suspended context

  lemma SavedElsewhere(r: Regs, mem: Memory, to: int, a: int)
    requires !(to <= a < to + CTX_BYTES)
    ensures Read(Save(r, mem, to), a) == Read(mem, a)
  {
  }

  lemma SaveThenLoad(r: Regs, mem: Memory, to: int)
    ensures Load(r, Save(r, mem, to), to) == r
  {
  }

  /** A context stays intact if nothing that it owns is written. */
  lemma IntactKept(mem: Memory, mem': Memory, c: Ctx, s: Snap)
    requires Intact(mem, c, s) && forall a :: Owns(c, a) ==> Read(mem', a) == Read(mem, a)
    ensures Intact(mem', c, s)
  {
    hide Read;
    assert Owns(c, c.rec) && Owns(c, c.rec + 8) && Owns(c, c.rec + 0x10) && Owns(c, c.rec + 0x18)
           && Owns(c, c.rec + 0x20) && Owns(c, c.rec + 0x28) && Owns(c, c.rec + 0x30);
    assert forall a :: InStack(c, a) ==> Owns(c, a);
  }

  /** The context that switches out leaves a record and a stack that resume it at its own call site. */
  lemma SwitchSuspends(w: World, m: Machine, ret: int, next: nat)
    requires Ok(w) && Legal(w, SwitchTo(m, ret, next))
    ensures var m1 := Call(m, ret);
            Intact(Switched(m1).mem, w.cs[w.cur], Snap(m1.r, m1.mem))
  {
    var m1, c := Call(m, ret), w.cs[w.cur];
    SaveThenLoad(m1.r, m1.mem, c.rec);
    forall a | InStack(c, a) ensures Read(Switched(m1).mem, a) == Read(m1.mem, a) {
      assert !InRecord(c, a);
      SavedElsewhere(m1.r, m1.mem, c.rec, a);
    }
    hide Save, Load, Read;
  }

  lemma SwitchKeepsOther(w: World, m: Machine, ret: int, next: nat, i: nat)
    requires Ok(w) && Legal(w, SwitchTo(m, ret, next)) && i < |w.cs| && i != w.cur
    ensures Intact(Switched(Call(m, ret)).mem, w.cs[i], w.saved[i])
  {
    var m1, c, d := Call(m, ret), w.cs[w.cur], w.cs[i];
    assert Apart(c, d) || Apart(d, c);
    assert Owns(c, m.r.rsp - 8);
    forall a | Owns(d, a) ensures Read(Switched(m1).mem, a) == Read(w.m.mem, a) {
      assert !Owns(c, a);
      SavedElsewhere(m1.r, m1.mem, c.rec, a);
      assert Read(m1.mem, a) == Read(m.mem, a);
    }
    IntactKept(w.m.mem, Switched(m1).mem, d, w.saved[i]);
  }

  /** The words that `co_create` seeds lie inside the new stack, whatever its address, from 31 bytes on. */
  lemma SeedInside(ctx: Ctx)
    requires ctx.hi - ctx.lo >= 31
    ensures ctx.lo <= Top(ctx) - 16 && Top(ctx) <= ctx.hi && Top(ctx) % 16 == 0
    ensures InStack(ctx, Top(ctx) - 8) && InStack(ctx, Top(ctx) - 16)
  {
  }

  /** Both seeded words of a stack of `size` bytes at `lo` lie inside it. */
  predicate SeedFits(lo: int, size: nat) { lo <= Top(Ctx(0, lo, lo + size)) - 16 }

  /** 31 is exact: for a smaller stack there is an address at which the seeded words do not fit. */
  lemma SeedFitsExactly(size: nat)
    ensures size >= 31 <==> forall lo: int :: SeedFits(lo, size)
  {
    if size < 31 { assert !SeedFits(15 - size, size); }
  }

  lemma SeedIsIntact(mem: Memory, ctx: Ctx, co: int)
    requires ctx.hi - ctx.lo >= 31
    ensures Intact(Seed(mem, ctx, co), ctx, Snap(FreshRegs(ctx), Seed(mem, ctx, co)))
  {
    SeedInside(ctx);
    SaveThenLoad(FreshRegs(ctx), mem[Top(ctx) - 8 := co][Top(ctx) - 16 := CO_TRAMPOLINE], ctx.rec);
    hide Save, Load, Read, Top;
  }

  lemma SeedElsewhere(mem: Memory, ctx: Ctx, co: int, a: int)
    requires ctx.hi - ctx.lo >= 31 && !Owns(ctx, a)
    ensures Read(Seed(mem, ctx, co), a) == Read(mem, a)
  {
    SeedInside(ctx);
    SavedElsewhere(FreshRegs(ctx), mem[Top(ctx) - 8 := co][Top(ctx) - 16 := CO_TRAMPOLINE], ctx.rec, a);
    hide Save;
  }

  lemma CreateKeepsOk(w: World, m: Machine, ctx: Ctx, co: int)
    requires Ok(w) && Legal(w, Create(m, ctx, co))
    ensures Ok(Step(w, Create(m, ctx, co)))
  {
    var w', n := Step(w, Create(m, ctx, co)), |w.cs|;
    SeedIsIntact(m.mem, ctx, co);
    forall i: nat | i < n && i != w.cur ensures Intact(w'.m.mem, w.cs[i], w.saved[i]) {
      assert Apart((w.cs + [ctx])[i], (w.cs + [ctx])[n]);
      forall a | Owns(w.cs[i], a) ensures Read(w'.m.mem, a) == Read(w.m.mem, a) {
        SeedElsewhere(m.mem, ctx, co, a);
      }
      IntactKept(w.m.mem, w'.m.mem, w.cs[i], w.saved[i]);
    }
    hide Intact, Seed;
  }

  lemma StepKeepsOk(w: World, e: Event)
    requires Ok(w) && Legal(w, e)
    ensures Ok(Step(w, e))
  {
    match e
    case SwitchTo(m, ret, next) =>
      SwitchSuspends(w, m, ret, next);
      forall i: nat | i < |w.cs| && i != w.cur ensures Intact(Switched(Call(m, ret)).mem, w.cs[i], w.saved[i]) {
        SwitchKeepsOther(w, m, ret, next, i);
      }
      hide Intact, Switched, Call, Ran;
    case Create(m, ctx, co) => CreateKeepsOk(w, m, ctx, co);
  }

  /** A switch puts the target's own registers back and continues where it was suspended, on its own stack. */
  lemma SwitchRestores(w: World, m: Machine, ret: int, next: nat)
    requires Ok(w) && Legal(w, SwitchTo(m, ret, next)) && next != w.cur
    ensures var r := Step(w, SwitchTo(m, ret, next)).m.r; var s := w.saved[next];
            && r.rsp == s.r.rsp + 8 && r.rip == Read(s.mem, s.r.rsp)
            && r.rbp == s.r.rbp && r.rbx == s.r.rbx && r.r12 == s.r.r12 && r.r13 == s.r.r13
            && r.r14 == s.r.r14 && r.r15 == s.r.r15
    ensures forall a :: InStack(w.cs[next], a) ==>
                          Read(Step(w, SwitchTo(m, ret, next)).m.mem, a) == Read(w.saved[next].mem, a)
  {
    var m1 := Call(m, ret);
    SwitchKeepsOther(w, m, ret, next, next);
    var mem := Save(m1.r, m1.mem, m1.r.rdi);
    assert Load(w.saved[next].r, mem, w.cs[next].rec) == w.saved[next].r;
    hide Save, Read;
  }

  // ---------------------------------------------------------------------------------------------
  // Whole runs

  ghost predicate LegalRun(w: World, es: seq<Event>)
    decreases |es|
  {
    |w.saved| == |w.cs| && (es == [] || (Legal(w, es[0]) && LegalRun(Step(w, es[0]), es[1..])))
  }

  ghost function Run(w: World, es: seq<Event>): World
    requires LegalRun(w, es)
    decreases |es|
  {
    if es == [] then w else Run(Step(w, es[0]), es[1..])
  }

  lemma {:induction false} RunKeepsOk(w: World, es: seq<Event>)
    requires Ok(w) && LegalRun(w, es)
    ensures Ok(Run(w, es))
    decreases |es|
  {
    if es != [] {
      StepKeepsOk(w, es[0]);
      RunKeepsOk(Step(w, es[0]), es[1..]);
    }
  }

  predicate Resumes(e: Event, c: nat) { e.SwitchTo? && e.next == c }

  lemma {:induction false} SuspendedStays(w: World, es: seq<Event>, c: nat)
    requires LegalRun(w, es) && c < |w.cs| && c != w.cur
    requires forall i :: 0 <= i < |es| ==> !Resumes(es[i], c)
    ensures var w' := Run(w, es);
            && c < |w'.cs| == |w'.saved| && w'.cur != c && w'.cs[c] == w.cs[c] && w'.saved[c] == w.saved[c]
    decreases |es|
  {
    if es != [] {
      assert !Resumes(es[0], c);
      SuspendedStays(Step(w, es[0]), es[1..], c);
    }
  }

  /** Over any run among any number of contexts, with contexts created on the way: a context that switches out
      and is next resumed by `m2` finds its own callee-saved registers, its own stack pointer, its own call site
      and its own stack. */
  lemma {:induction false} ResumedSeesItsOwn(w: World, m: Machine, ret: int, next: nat, es: seq<Event>,
                                               m2: Machine, ret2: int)
    requires Ok(w) && Legal(w, SwitchTo(m, ret, next)) && next != w.cur
    requires LegalRun(Step(w, SwitchTo(m, ret, next)), es)
    requires forall i :: 0 <= i < |es| ==> !Resumes(es[i], w.cur)
    requires Legal(Run(Step(w, SwitchTo(m, ret, next)), es), SwitchTo(m2, ret2, w.cur))
    ensures var back := Switched(Call(m2, ret2));
            && back.r.rsp == m.r.rsp && back.r.rip == ret
            && back.r.rbp == m.r.rbp && back.r.rbx == m.r.rbx && back.r.r12 == m.r.r12
            && back.r.r13 == m.r.r13 && back.r.r14 == m.r.r14 && back.r.r15 == m.r.r15
            && forall a :: InStack(w.cs[w.cur], a) && a != m.r.rsp - 8 ==> Read(back.mem, a) == Read(m.mem, a)
  {
    hide Ran, Intact, Separate;
    var w1 := Step(w, SwitchTo(m, ret, next));
    StepKeepsOk(w, SwitchTo(m, ret, next));
    RunKeepsOk(w1, es);
    SuspendedStays(w1, es, w.cur);
    SwitchRestores(Run(w1, es), m2, ret2, w.cur);
    assert w1.saved[w.cur] == Snap(Call(m, ret).r, Call(m, ret).mem);
    assert Step(Run(w1, es), SwitchTo(m2, ret2, w.cur)).m == Switched(Call(m2, ret2));
    hide Switched, Run, LegalRun;
  }

  /** A created context that is first resumed by `m2` reaches `co_entry` with its coroutine as first argument,
      zero callee-saved registers, and the stack pointer at the 16-byte boundary below the end of its stack. */
  lemma {:induction false} FreshReachesEntry(w: World, m: Machine, ctx: Ctx, co: int, es: seq<Event>,
                                               m2: Machine, ret2: int)
    requires Ok(w) && Legal(w, Create(m, ctx, co))
    requires LegalRun(Step(w, Create(m, ctx, co)), es)
    requires forall i :: 0 <= i < |es| ==> !Resumes(es[i], |w.cs|)
    requires Legal(Run(Step(w, Create(m, ctx, co)), es), SwitchTo(m2, ret2, |w.cs|))
    ensures var at := Switched(Call(m2, ret2)); var entry := Trampoline(at);
            && at.r.rip == CO_TRAMPOLINE
            && entry.r.rip == CO_ENTRY && entry.r.rdi == co && entry.r.rsp == Top(ctx) && Top(ctx) % 16 == 0
            && entry.r.rbp == entry.r.rbx == entry.r.r12 == entry.r.r13 == entry.r.r14 == entry.r.r15 == 0
  {
    hide Ran, Intact, Separate;
    var w1, n := Step(w, Create(m, ctx, co)), |w.cs|;
    StepKeepsOk(w, Create(m, ctx, co));
    RunKeepsOk(w1, es);
    SuspendedStays(w1, es, n);
    SwitchRestores(Run(w1, es), m2, ret2, n);
    assert Step(Run(w1, es), SwitchTo(m2, ret2, n)).m == Switched(Call(m2, ret2));
    SeedInside(ctx);
    SeededWords(m.mem, ctx, co, w.cs + [ctx]);
    hide Switched, Run, LegalRun, Seed;
  }

  /** What `co_create` writes into the record: zeros but for `rsp`, its first word. */
  lemma SeededRecord(mem: Memory, ctx: Ctx, co: int, i: nat)
    requires i < 7
    ensures Read(Seed(mem, ctx, co), ctx.rec + 8 * i) == if i == 0 then Top(ctx) - 16 else 0
  {
    RecordLayout(FreshRegs(ctx), mem[Top(ctx) - 8 := co][Top(ctx) - 16 := CO_TRAMPOLINE], ctx.rec, i);
    hide Save;
  }

  lemma SeededWords(mem: Memory, ctx: Ctx, co: int, cs: seq<Ctx>)
    requires ctx.hi - ctx.lo >= 31 && Separate(cs) && ctx in cs
    ensures Read(Seed(mem, ctx, co), Top(ctx) - 8) == co
    ensures Read(Seed(mem, ctx, co), Top(ctx) - 16) == CO_TRAMPOLINE
  {
    SeedInside(ctx);
    var seeded := mem[Top(ctx) - 8 := co][Top(ctx) - 16 := CO_TRAMPOLINE];
    SavedElsewhere(FreshRegs(ctx), seeded, ctx.rec, Top(ctx) - 8);
    SavedElsewhere(FreshRegs(ctx), seeded, ctx.rec, Top(ctx) - 16);
    hide Save;
  }
}
