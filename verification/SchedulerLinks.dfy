/** Where threads are: in every reachable state of the scheduler each thread is either
    running or linked on exactly one list, and migration and exorcise leave the threads
    that are current alone. */
module SchedulerLinks {

  import opened Arithmetic
  import opened Scheduler
  import opened Linking

  predicate Fits(id: ListId, th: Thread) {
    && (id.RunQ? ==> th.cpu == id.c)
    && (id.Zombies? ==> th.cpu == id.c && th.st.Zombie?)
  }

  /** Current on its processor, and not left behind there by an idle thread_switch. */
  predicate OnCpu(cpus: seq<CpuState>, t: Tid, th: Thread) {
    th.cpu < |cpus| && cpus[th.cpu].cur == t && !IsIdle(cpus[th.cpu].stage)
  }

  ghost predicate CurOK(threads: map<Tid, Thread>, cpus: seq<CpuState>) {
    && (forall c :: 0 <= c < |cpus| ==> cpus[c].cur in threads && threads[cpus[c].cur].cpu == c)
    && (forall t :: t in threads ==> threads[t].cpu < |cpus|)
  }

  ghost predicate ListsOK(threads: map<Tid, Thread>, lists: map<ListId, seq<Tid>>) {
    forall id, t :: id in lists && t in lists[id] ==> t in threads && Fits(id, threads[t])
  }

  /** Linked exactly when not running. */
  ghost predicate Placed(threads: map<Tid, Thread>, cpus: seq<CpuState>, lists: map<ListId, seq<Tid>>) {
    forall t :: t in threads ==> (Linked(lists, t) <==> !OnCpu(cpus, t, threads[t]))
  }

  predicate Migrating(k: Task) { k.TakeAt? || k.Give? || k.GiveAt? || k.Back? || k.BackAt? }

  /** What the handler on t's stack is doing fits the lists: it has nothing in hand when
      at rest; what it counted on its own queue is still there; it has at least as many
      victims in hand as it means to send. */
  predicate HandlerOK(cpus: seq<CpuState>, t: Tid, th: Thread, mine: nat, hand: seq<Tid>) {
    var k := th.htask;
    && (!k.Rest? ==> th.intr && th.cpu < |cpus| && cpus[th.cpu].cur == t && Active(th, cpus[th.cpu]))
    && (k.Rest? || k.Count? || k.TakeWant? ==> hand == [])
    && (k.Count? ==> 0 <= k.mine <= mine && k.mine <= k.total && k.i <= |cpus| && (k.i <= th.cpu ==> k.mine == 0))
    && (k.TakeWant? ==> 0 <= k.send <= mine)
    && (k.TakeAt? ==> 0 <= k.n <= k.send <= k.n + mine && |hand| == k.n)
    && (k.Give? || k.GiveAt? ==> k.send <= |hand|)
    && (k.GiveAt? ==> k.i < |cpus| && k.i != th.cpu)
  }

  predicate Exiting(g: Stage) { (g.Begin? || g.Locked?) && g.to.ToZombie? }

  predicate Running(g: Stage) { g.Out? || g.Begin? || g.Locked? || g.Cleaning? }

  /** The thread's own code has nothing in hand when at rest, as it is when it exits;
      and a thread that runs is in state S_RUN. */
  predicate BaseOK(cpus: seq<CpuState>, t: Tid, th: Thread, hand: seq<Tid>) {
    var here := th.cpu < |cpus| && cpus[th.cpu].cur == t;
    && (th.task.Rest? ==> hand == [])
    && (th.st.Zombie? || (here && Exiting(cpus[th.cpu].stage)) ==> th.task.Rest?)
    && (here && Running(cpus[th.cpu].stage) ==> th.st.Run?)
  }

  predicate FrameOK(cpus: seq<CpuState>, lists: map<ListId, seq<Tid>>, t: Tid, th: Thread) {
    && HandlerOK(cpus, t, th, |Items(lists, RunQ(th.cpu))|, Items(lists, Held(t, true)))
    && BaseOK(cpus, t, th, Items(lists, Held(t, false)))
  }

  ghost predicate FramesOK(threads: map<Tid, Thread>, cpus: seq<CpuState>, lists: map<ListId, seq<Tid>>) {
    && (forall t :: t in threads ==> FrameOK(cpus, lists, t, threads[t]))
    && (forall t, h :: t !in threads ==> Items(lists, Held(t, h)) == [])
  }

  /** Victims of a migration still belong to the processor they were taken from. */
  ghost predicate VictimsOK(threads: map<Tid, Thread>, lists: map<ListId, seq<Tid>>) {
    forall t, x :: t in threads && Migrating(threads[t].htask) && x in threads && x in Items(lists, Held(t, true)) ==>
      threads[x].cpu == threads[t].cpu
  }

  ghost predicate Inv(s: State) {
    LinkInv(s) && FramesOK(s.threads, s.cpus, s.lists) && VictimsOK(s.threads, s.lists)
  }

  ghost predicate LinkInv(s: State) {
    Unique(s.lists) && CurOK(s.threads, s.cpus) && ListsOK(s.threads, s.lists) && Placed(s.threads, s.cpus, s.lists)
  }

  lemma InitInv(s: State)
    requires Init(s)
    ensures Inv(s)
  {
  }

  // ------------------------------------------- the kinds of step, as far as links go

  predicate Own(src: ListId, c: Cpu, t: Tid) {
    src == RunQ(c) || src == Zombies(c) || src.Wait? || (src.Held? && src.t == t)
  }

  predicate SameIdle(a: CpuState, b: CpuState) { a.cur == b.cur && IsIdle(a.stage) == IsIdle(b.stage) }

  ghost predicate KeepStep(s: State, c: Cpu, t: Tid, me: Thread, cpu: CpuState, a: Act) {
    a.op.Keep? && a.other.Nobody? && SameIdle(a.cpu, cpu) && (a.me.st == me.st || !IsIdle(cpu.stage))
  }

  /** The current thread goes on a list. */
  ghost predicate EnlistStep(s: State, c: Cpu, t: Tid, me: Thread, cpu: CpuState, a: Act) {
    && a.op.Put? && a.op.t == t && !a.op.dst.Held? && Fits(a.op.dst, a.me)
    && a.other.Nobody? && a.cpu.cur == t && !IsIdle(cpu.stage) && IsIdle(a.cpu.stage)
  }

  ghost predicate ForkStep(s: State, c: Cpu, t: Tid, me: Thread, cpu: CpuState, a: Act) {
    && a.op.Put? && a.op.dst == Held(t, false) && a.op.t !in s.threads
    && a.other == Change(a.op.t, NewThread(c)) && SameIdle(a.cpu, cpu) && a.me.st == me.st
  }

  /** A thread goes from a list of this processor's to another; only to another processor's
      run queue does it take that processor with it, and then it is not current. */
  ghost predicate MoveStep(s: State, c: Cpu, t: Tid, me: Thread, cpu: CpuState, a: Act) {
    && a.op.Move? && Items(s.lists, a.op.src) != [] && Own(a.op.src, c, t)
    && (a.op.dst.RunQ? || (a.op.dst.Held? && a.op.dst.t == t)) && SameIdle(a.cpu, cpu) && a.me.st == me.st
    && var x := Taken(Items(s.lists, a.op.src), a.op.fromHead).0;
       && x in s.threads
       && if a.other.Nobody? then Fits(a.op.dst, s.threads[x])
          else && a.op.dst.RunQ? && a.op.dst.c < |s.cpus| && a.op.dst.c != c && x != t && s.threads[x].cpu == c
               && a.other == Change(x, s.threads[x].(cpu := a.op.dst.c))
  }

  ghost predicate PickStep(s: State, c: Cpu, t: Tid, me: Thread, cpu: CpuState, a: Act) {
    && a.op == Pop(RunQ(c)) && Items(s.lists, RunQ(c)) != [] && a.other.Nobody? && a.me == me
    && IsIdle(cpu.stage) && a.cpu.cur == Items(s.lists, RunQ(c))[0] && !IsIdle(a.cpu.stage)
  }

  ghost predicate ExorciseStep(s: State, c: Cpu, t: Tid, me: Thread, cpu: CpuState, a: Act) {
    && a.op == Pop(Zombies(c)) && Items(s.lists, Zombies(c)) != [] && a.me == me && a.cpu == cpu
    && !IsIdle(cpu.stage) && a.other == Gone(Items(s.lists, Zombies(c))[0])
  }

  /** The current thread keeps its processor, and one of the above happens. */
  ghost predicate LinkStep(s: State, c: Cpu, a: Act)
    requires c < |s.cpus| && s.cpus[c].cur in s.threads
  {
    var t := s.cpus[c].cur;
    var me, cpu := s.threads[t], s.cpus[c];
    && me.cpu == c && a.me.cpu == c
    && (KeepStep(s, c, t, me, cpu, a) || EnlistStep(s, c, t, me, cpu, a) || ForkStep(s, c, t, me, cpu, a)
        || MoveStep(s, c, t, me, cpu, a) || PickStep(s, c, t, me, cpu, a) || ExorciseStep(s, c, t, me, cpu, a))
  }

  // ---------------------------------------------------- the lists after each kind

  lemma PutLinks(m: map<ListId, seq<Tid>>, dst: ListId, x: Tid)
    requires Unique(m) && !Linked(m, x)
    ensures var m' := Apply(m, Put(dst, x));
      && Unique(m') && Linked(m', x)
      && forall y :: y != x ==> (Linked(m', y) <==> Linked(m, y))
  {
    Add(m, dst, Items(m, dst) + [x], x);
  }

  lemma TakenWithout(l: seq<Tid>, head: bool)
    requires l != [] && NoDup(l)
    ensures Without(l, Taken(l, head).1, Taken(l, head).0)
  {
    if head { DropFirst(l); } else { DropLast(l); }
  }

  lemma MoveLinks(m: map<ListId, seq<Tid>>, op: ListOp)
    requires Unique(m) && op.Move? && CanApply(m, op)
    ensures var m' := Apply(m, op); Unique(m') && forall y :: Linked(m', y) <==> Linked(m, y)
  {
    var l := Items(m, op.src);
    var (x, rest) := Taken(l, op.fromHead);
    TakenWithout(l, op.fromHead);
    assert x in m[op.src];
    var m1 := m[op.src := rest];
    Remove(m, op.src, rest, x);
    Add(m1, op.dst, if op.toTail then Items(m1, op.dst) + [x] else [x] + Items(m1, op.dst), x);
  }

  lemma PopLinks(m: map<ListId, seq<Tid>>, src: ListId)
    requires Unique(m) && Items(m, src) != []
    ensures var x, m' := Items(m, src)[0], Apply(m, Pop(src));
      Unique(m') && Linked(m, x) && !Linked(m', x) && forall y :: y != x ==> (Linked(m', y) <==> Linked(m, y))
  {
    var l := Items(m, src);
    TakenWithout(l, true);
    Remove(m, src, l[1..], l[0]);
    assert l[0] in m[src];
  }

  /** What can be on a list afterwards. */
  lemma After1(m: map<ListId, seq<Tid>>, op: ListOp, id: ListId, y: Tid)
    requires CanApply(m, op) && id in Apply(m, op) && y in Apply(m, op)[id]
    ensures (id in m && y in m[id]) || (op.Put? && id == op.dst && y == op.t)
            || (op.Move? && id == op.dst && y == Taken(Items(m, op.src), op.fromHead).0)
  {
  }

  // ------------------------------------------------- and the invariant, kind by kind

  lemma KeepKeeps(s: State, c: Cpu, a: Act)
    requires LinkInv(s) && c < |s.cpus| && LinkStep(s, c, a)
    requires KeepStep(s, c, s.cpus[c].cur, s.threads[s.cpus[c].cur], s.cpus[c], a)
    ensures LinkInv(After(s, c, a))
  {
    var t := s.cpus[c].cur;
    assert !IsIdle(s.cpus[c].stage) ==> OnCpu(s.cpus, t, s.threads[t]);
    forall id, y | id in s.lists && y in s.lists[id] ensures Fits(id, After(s, c, a).threads[y]) {
      if y == t { assert Linked(s.lists, t); }
    }
  }

  lemma EnlistKeeps(s: State, c: Cpu, a: Act)
    requires LinkInv(s) && c < |s.cpus| && LinkStep(s, c, a)
    requires EnlistStep(s, c, s.cpus[c].cur, s.threads[s.cpus[c].cur], s.cpus[c], a)
    ensures LinkInv(After(s, c, a))
  {
    var t, s' := s.cpus[c].cur, After(s, c, a);
    assert OnCpu(s.cpus, t, s.threads[t]);
    PutLinks(s.lists, a.op.dst, t);
    forall id, y | id in s'.lists && y in s'.lists[id] ensures y in s'.threads && Fits(id, s'.threads[y]) {
      After1(s.lists, a.op, id, y);
      if id in s.lists && y in s.lists[id] { assert Linked(s.lists, y); }
    }
  }

  lemma ForkKeepsLists(s: State, c: Cpu, a: Act)
    requires LinkInv(s) && c < |s.cpus| && LinkStep(s, c, a)
    requires ForkStep(s, c, s.cpus[c].cur, s.threads[s.cpus[c].cur], s.cpus[c], a)
    ensures ListsOK(After(s, c, a).threads, After(s, c, a).lists)
  {
    var s' := After(s, c, a);
    forall id, y | id in s'.lists && y in s'.lists[id] ensures y in s'.threads && Fits(id, s'.threads[y]) {
      After1(s.lists, a.op, id, y);
    }
  }

  lemma ForkKeeps(s: State, c: Cpu, a: Act)
    requires LinkInv(s) && c < |s.cpus| && LinkStep(s, c, a)
    requires ForkStep(s, c, s.cpus[c].cur, s.threads[s.cpus[c].cur], s.cpus[c], a)
    ensures LinkInv(After(s, c, a))
  {
    ForkKeepsLists(s, c, a);
    PutLinks(s.lists, a.op.dst, a.op.t);
  }

  lemma MoveKeeps(s: State, c: Cpu, a: Act)
    requires LinkInv(s) && c < |s.cpus| && LinkStep(s, c, a)
    requires MoveStep(s, c, s.cpus[c].cur, s.threads[s.cpus[c].cur], s.cpus[c], a)
    ensures LinkInv(After(s, c, a))
  {
    MoveKeepsLists(s, c, a);
    MoveKeepsPlaces(s, c, a);
  }

  lemma MoveKeepsLists(s: State, c: Cpu, a: Act)
    requires LinkInv(s) && c < |s.cpus| && LinkStep(s, c, a)
    requires MoveStep(s, c, s.cpus[c].cur, s.threads[s.cpus[c].cur], s.cpus[c], a)
    ensures ListsOK(After(s, c, a).threads, After(s, c, a).lists)
  {
    var s', x := After(s, c, a), Taken(Items(s.lists, a.op.src), a.op.fromHead).0;
    MoveLinks(s.lists, a.op);
    assert a.op.dst in s'.lists && x in s'.lists[a.op.dst];
    forall id, y | id in s'.lists && y in s'.lists[id] ensures y in s'.threads && Fits(id, s'.threads[y]) {
      After1(s.lists, a.op, id, y);
    }
  }

  lemma MoveKeepsPlaces(s: State, c: Cpu, a: Act)
    requires LinkInv(s) && c < |s.cpus| && LinkStep(s, c, a)
    requires MoveStep(s, c, s.cpus[c].cur, s.threads[s.cpus[c].cur], s.cpus[c], a)
    ensures var s' := After(s, c, a);
      Unique(s'.lists) && CurOK(s'.threads, s'.cpus) && Placed(s'.threads, s'.cpus, s'.lists)
  {
    var s', x := After(s, c, a), Taken(Items(s.lists, a.op.src), a.op.fromHead).0;
    MoveLinks(s.lists, a.op);
    assert Linked(s.lists, x);
    MoveKeepsCur(s, c, a);
    forall y | y in s'.threads ensures Linked(s'.lists, y) <==> !OnCpu(s'.cpus, y, s'.threads[y]) {
      assert y in s.threads && (Linked(s'.lists, y) <==> Linked(s.lists, y));
      assert Linked(s.lists, y) <==> !OnCpu(s.cpus, y, s.threads[y]);
    }
  }

  lemma MoveKeepsCur(s: State, c: Cpu, a: Act)
    requires CurOK(s.threads, s.cpus) && c < |s.cpus| && LinkStep(s, c, a)
    requires MoveStep(s, c, s.cpus[c].cur, s.threads[s.cpus[c].cur], s.cpus[c], a)
    ensures CurOK(After(s, c, a).threads, After(s, c, a).cpus)
  {
  }

  lemma PickKeeps(s: State, c: Cpu, a: Act)
    requires LinkInv(s) && c < |s.cpus| && LinkStep(s, c, a)
    requires PickStep(s, c, s.cpus[c].cur, s.threads[s.cpus[c].cur], s.cpus[c], a)
    ensures LinkInv(After(s, c, a))
  {
    var s', x := After(s, c, a), Items(s.lists, RunQ(c))[0];
    PopLinks(s.lists, RunQ(c));
    assert x in s.lists[RunQ(c)] && Fits(RunQ(c), s.threads[x]);
    assert s'.threads == s.threads;
    forall id, y | id in s'.lists && y in s'.lists[id] ensures y in s'.threads && Fits(id, s'.threads[y]) {
      After1(s.lists, a.op, id, y);
    }
  }

  lemma ExorciseKeeps(s: State, c: Cpu, a: Act)
    requires LinkInv(s) && c < |s.cpus| && LinkStep(s, c, a)
    requires ExorciseStep(s, c, s.cpus[c].cur, s.threads[s.cpus[c].cur], s.cpus[c], a)
    ensures LinkInv(After(s, c, a)) && NotCurrent(s.cpus, Items(s.lists, Zombies(c))[0])
  {
    var t, s', x := s.cpus[c].cur, After(s, c, a), Items(s.lists, Zombies(c))[0];
    PopLinks(s.lists, Zombies(c));
    assert x in s.lists[Zombies(c)] && Fits(Zombies(c), s.threads[x]);
    assert OnCpu(s.cpus, t, s.threads[t]);
    assert x != t;
    forall id, y | id in s'.lists && y in s'.lists[id] ensures y in s'.threads && Fits(id, s'.threads[y]) {
      After1(s.lists, a.op, id, y);
      assert Linked(s'.lists, y);
    }
  }

  ghost predicate NotCurrent(cpus: seq<CpuState>, t: Tid) { forall c :: 0 <= c < |cpus| ==> cpus[c].cur != t }

  lemma StepKeepsLinks(s: State, c: Cpu, a: Act)
    requires LinkInv(s) && c < |s.cpus| && LinkStep(s, c, a) && CanApply(s.lists, a.op)
    ensures LinkInv(After(s, c, a))
  {
    match a.op
    case Keep => KeepKeeps(s, c, a);
    case Put(_, x) => if x == s.cpus[c].cur { EnlistKeeps(s, c, a); } else { ForkKeeps(s, c, a); }
    case Move(_, _, _, _) => MoveKeeps(s, c, a);
    case Pop(src) => if src.RunQ? { PickKeeps(s, c, a); } else { ExorciseKeeps(s, c, a); }
  }

  // ------------------------------------------------------------------- the frames

  /** A step leaves the private lists of other threads alone, and takes nothing off the
      run queues of other processors. */
  lemma OtherLists(s: State, c: Cpu, a: Act, t: Tid, h: bool, d: Cpu)
    requires c < |s.cpus| && s.cpus[c].cur in s.threads && LinkStep(s, c, a) && CanApply(s.lists, a.op)
    requires t != s.cpus[c].cur
    ensures Items(Apply(s.lists, a.op), Held(t, h)) == Items(s.lists, Held(t, h))
    ensures d != c ==> |Items(Apply(s.lists, a.op), RunQ(d))| >= |Items(s.lists, RunQ(d))|
  {
  }

  /** The records of the other threads: one of them, not current anywhere, may change
      processors, and one may be new. */
  ghost predicate OtherThread(s: State, c: Cpu, a: Act, t: Tid, th: Thread)
    requires c < |s.cpus|
  {
    if t !in s.threads then th == NewThread(c) && NotCurrent(s.cpus, t) && a.cpu.cur == s.cpus[c].cur
    else if s.threads[t].cpu != c then th == s.threads[t]
    else
      && th == s.threads[t].(cpu := th.cpu) && NotCurrent(s.cpus, t)
      && (th.cpu == c ==> a.cpu.cur == t ==> !Running(a.cpu.stage))
  }

  lemma OtherThreads(s: State, c: Cpu, a: Act, t: Tid)
    requires CurOK(s.threads, s.cpus) && ListsOK(s.threads, s.lists)
    requires c < |s.cpus| && LinkStep(s, c, a) && CanApply(s.lists, a.op)
    requires t != s.cpus[c].cur && t in After(s, c, a).threads
    requires a.op.Pop? && a.cpu.cur != s.cpus[c].cur ==> !Running(a.cpu.stage)
    ensures OtherThread(s, c, a, t, After(s, c, a).threads[t])
  {
  }

  lemma OtherFrame(s: State, c: Cpu, a: Act, t: Tid, th: Thread, lists: map<ListId, seq<Tid>>)
    requires c < |s.cpus| && OtherThread(s, c, a, t, th) && s.cpus[c].cur != t
    requires t in s.threads ==> FrameOK(s.cpus, s.lists, t, s.threads[t])
    requires t !in s.threads ==> Items(s.lists, Held(t, true)) == Items(s.lists, Held(t, false)) == []
    requires forall h :: Items(lists, Held(t, h)) == Items(s.lists, Held(t, h))
    requires th.cpu != c ==> |Items(lists, RunQ(th.cpu))| >= |Items(s.lists, RunQ(th.cpu))|
    ensures FrameOK(s.cpus[c := a.cpu], lists, t, th)
  {
  }

  lemma OtherFrames(s: State, c: Cpu, a: Act, t: Tid)
    requires LinkInv(s) && FramesOK(s.threads, s.cpus, s.lists)
    requires c < |s.cpus| && LinkStep(s, c, a) && CanApply(s.lists, a.op)
    requires a.op.Pop? && a.cpu.cur != s.cpus[c].cur ==> !Running(a.cpu.stage)
    requires t != s.cpus[c].cur && t in After(s, c, a).threads
    ensures FrameOK(After(s, c, a).cpus, After(s, c, a).lists, t, After(s, c, a).threads[t])
  {
    var s' := After(s, c, a);
    OtherThreads(s, c, a, t);
    OtherLists(s, c, a, t, true, s'.threads[t].cpu);
    OtherLists(s, c, a, t, false, 0);
    OtherFrame(s, c, a, t, s'.threads[t], s'.lists);
  }

  // -------------------------------------------------- every event is one of the kinds

  /** What an event relies on, about the processor's own thread. */
  ghost predicate Here(s: State, c: Cpu) {
    && c < |s.cpus| && s.cpus[c].cur in s.threads
    && var t := s.cpus[c].cur; s.threads[t].cpu == c && FrameOK(s.cpus, s.lists, t, s.threads[t])
  }

  /** What it then says, besides. */
  ghost predicate Done(s: State, c: Cpu, a: Act)
    requires c < |s.cpus| && s.cpus[c].cur in s.threads && CanApply(s.lists, a.op)
  {
    && LinkStep(s, c, a) && (a.op.Pop? && a.cpu.cur != s.cpus[c].cur ==> !Running(a.cpu.stage))
    && FrameOK(s.cpus[c := a.cpu], Apply(s.lists, a.op), s.cpus[c].cur, a.me)
    && VictimStep(s, c, s.cpus[c].cur, a)
  }

  /** A migration starts with nothing in hand, and takes only from its own processor. */
  ghost predicate VictimStep(s: State, c: Cpu, t: Tid, a: Act)
    requires t in s.threads && CanApply(s.lists, a.op)
  {
    Migrating(a.me.htask) ==>
      && (Migrating(s.threads[t].htask) || Items(s.lists, Held(t, true)) == [])
      && (a.op.Move? && a.op.dst == Held(t, true) ==>
            var x := Taken(Items(s.lists, a.op.src), a.op.fromHead).0; x in s.threads && s.threads[x].cpu == c)
  }

  lemma LocalDone(s: State, c: Cpu, e: LocalEvent)
    requires Here(s, c) && Enabled(s, c, Local(e))
    ensures Done(s, c, ActOf(s, c, Local(e)))
  {
  }

  lemma HeadIn(s: State, id: ListId, head: bool)
    requires ListsOK(s.threads, s.lists) && Items(s.lists, id) != []
    ensures var x := Taken(Items(s.lists, id), head).0; x in s.threads && Fits(id, s.threads[x])
  {
    assert Taken(Items(s.lists, id), head).0 in s.lists[id];
  }

  lemma WakeDone(s: State, c: Cpu, e: WakeEvent)
    requires Here(s, c) && Enabled(s, c, Wake(e)) && ListsOK(s.threads, s.lists)
    ensures Done(s, c, ActOf(s, c, Wake(e)))
  {
    if e.WakeMove? { HeadIn(s, Wait(CurTask(s.threads[s.cpus[c].cur]).w), true); }
  }

  predicate Gathers(e: MigEvent) {
    e.MigStart? || e.MigLook? || e.MigDecide? || e.MigLock? || e.MigTake? || e.MigTaken?
  }

  lemma GatherDone(s: State, c: Cpu, e: MigEvent)
    requires Here(s, c) && Enabled(s, c, Mig(e)) && Gathers(e) && !e.MigTake? && !e.MigDecide?
    ensures Done(s, c, ActOf(s, c, Mig(e)))
  {
  }

  lemma ShareNotNegative(a: int, b: int)
    requires a >= 0 && b > 0
    ensures DivRoundUp(a, b) >= 0
  {
  }

  lemma DecideDone(s: State, c: Cpu)
    requires Here(s, c) && Enabled(s, c, Mig(MigDecide))
    ensures Done(s, c, ActOf(s, c, Mig(MigDecide)))
  {
    ShareNotNegative(s.threads[s.cpus[c].cur].htask.total, |s.cpus|);
  }

  lemma TakeDone(s: State, c: Cpu)
    requires Here(s, c) && Enabled(s, c, Mig(MigTake)) && ListsOK(s.threads, s.lists)
    ensures Done(s, c, ActOf(s, c, Mig(MigTake)))
  {
    HeadIn(s, RunQ(c), false);
  }

  lemma VictimHead(s: State, t: Tid)
    requires ListsOK(s.threads, s.lists) && VictimsOK(s.threads, s.lists)
    requires t in s.threads && Migrating(s.threads[t].htask) && Items(s.lists, Held(t, true)) != []
    ensures Items(s.lists, Held(t, true))[0] in s.threads
    ensures s.threads[Items(s.lists, Held(t, true))[0]].cpu == s.threads[t].cpu
  {
    HeadIn(s, Held(t, true), true);
    assert Items(s.lists, Held(t, true))[0] in Items(s.lists, Held(t, true));
  }

  lemma GiveDone(s: State, c: Cpu, e: MigEvent)
    requires Here(s, c) && Enabled(s, c, Mig(e)) && (e.MigSend? || e.MigBackMove?)
    requires var x := Items(s.lists, Held(s.cpus[c].cur, true))[0]; x in s.threads && s.threads[x].cpu == c
    ensures Done(s, c, ActOf(s, c, Mig(e)))
  {
  }

  lemma VisitDone(s: State, c: Cpu, e: MigEvent)
    requires Here(s, c) && Enabled(s, c, Mig(e)) && !Gathers(e) && !e.MigSend? && !e.MigBackMove?
    ensures Done(s, c, ActOf(s, c, Mig(e)))
  {
  }

  lemma MigDone(s: State, c: Cpu, e: MigEvent)
    requires Here(s, c) && Enabled(s, c, Mig(e)) && ListsOK(s.threads, s.lists) && VictimsOK(s.threads, s.lists)
    ensures Done(s, c, ActOf(s, c, Mig(e)))
  {
    if e.MigTake? {
      TakeDone(s, c);
    } else if e.MigDecide? {
      DecideDone(s, c);
    } else if Gathers(e) {
      GatherDone(s, c, e);
    } else if e.MigSend? || e.MigBackMove? {
      VictimHead(s, s.cpus[c].cur);
      GiveDone(s, c, e);
    } else {
      VisitDone(s, c, e);
    }
  }

  predicate Leaving(e: SwitchEvent) { e.Switch? || e.SwLock? || e.SwReturn? || e.SwEnlist? }

  lemma LeaveDone(s: State, c: Cpu, e: SwitchEvent)
    requires Here(s, c) && Enabled(s, c, Sw(e)) && Leaving(e)
    ensures Done(s, c, ActOf(s, c, Sw(e)))
  {
  }

  lemma ArriveDone(s: State, c: Cpu, e: SwitchEvent)
    requires Here(s, c) && Enabled(s, c, Sw(e)) && !Leaving(e)
    ensures Done(s, c, ActOf(s, c, Sw(e)))
  {
  }

  lemma SwitchDone(s: State, c: Cpu, e: SwitchEvent)
    requires Here(s, c) && Enabled(s, c, Sw(e))
    ensures Done(s, c, ActOf(s, c, Sw(e)))
  {
    if Leaving(e) { LeaveDone(s, c, e); } else { ArriveDone(s, c, e); }
  }

  lemma EventDone(s: State, c: Cpu, e: Event)
    requires Inv(s) && Enabled(s, c, e)
    ensures Done(s, c, ActOf(s, c, e))
  {
    assert FrameOK(s.cpus, s.lists, s.cpus[c].cur, s.threads[s.cpus[c].cur]);
    match e
    case Local(le) => LocalDone(s, c, le);
    case Wake(we) => WakeDone(s, c, we);
    case Mig(me) => MigDone(s, c, me);
    case Sw(se) => SwitchDone(s, c, se);
  }

  // ------------------------------------------------------------ the whole invariant

  lemma GoneFrames(s: State, c: Cpu, a: Act, t: Tid, h: bool)
    requires LinkInv(s) && FramesOK(s.threads, s.cpus, s.lists)
    requires c < |s.cpus| && LinkStep(s, c, a) && CanApply(s.lists, a.op) && t !in After(s, c, a).threads
    ensures Items(After(s, c, a).lists, Held(t, h)) == []
  {
    OtherLists(s, c, a, t, h, 0);
    if t in s.threads {
      ExorciseKeeps(s, c, a);
      assert t in s.lists[Zombies(c)] && Fits(Zombies(c), s.threads[t]);
      assert FrameOK(s.cpus, s.lists, t, s.threads[t]);
    }
  }

  lemma StepKeepsFrames(s: State, c: Cpu, a: Act)
    requires LinkInv(s) && FramesOK(s.threads, s.cpus, s.lists)
    requires c < |s.cpus| && CanApply(s.lists, a.op) && Done(s, c, a)
    ensures FramesOK(After(s, c, a).threads, After(s, c, a).cpus, After(s, c, a).lists)
  {
    var s' := After(s, c, a);
    forall t | t in s'.threads ensures FrameOK(s'.cpus, s'.lists, t, s'.threads[t]) {
      if t == s.cpus[c].cur { ActorThread(s, c, a); } else { OtherFrames(s, c, a, t); }
    }
    forall t, h | t !in s'.threads ensures Items(s'.lists, Held(t, h)) == [] { GoneFrames(s, c, a, t, h); }
  }

  lemma ActorThread(s: State, c: Cpu, a: Act)
    requires LinkInv(s) && c < |s.cpus| && LinkStep(s, c, a) && CanApply(s.lists, a.op)
    ensures var t := s.cpus[c].cur; t in After(s, c, a).threads && After(s, c, a).threads[t] == a.me
  {
    if a.op.Pop? && !a.op.src.RunQ? { ExorciseKeeps(s, c, a); }
  }

  lemma OtherVictim(s: State, c: Cpu, a: Act, t: Tid, x: Tid)
    requires CurOK(s.threads, s.cpus) && ListsOK(s.threads, s.lists)
    requires FramesOK(s.threads, s.cpus, s.lists) && VictimsOK(s.threads, s.lists)
    requires c < |s.cpus| && CanApply(s.lists, a.op) && Done(s, c, a) && t != s.cpus[c].cur
    requires var s' := After(s, c, a);
      t in s'.threads && Migrating(s'.threads[t].htask) && x in s'.threads && x in Items(s'.lists, Held(t, true))
    ensures After(s, c, a).threads[x].cpu == After(s, c, a).threads[t].cpu
  {
    OtherThreads(s, c, a, t);
    OtherLists(s, c, a, t, true, 0);
    if t in s.threads { assert FrameOK(s.cpus, s.lists, t, s.threads[t]); }
    assert x in s.lists[Held(t, true)] && x in s.threads;
    assert s.threads[x].cpu == s.threads[t].cpu != c;
    if x != s.cpus[c].cur { OtherThreads(s, c, a, x); }
  }

  lemma MyVictim(s: State, c: Cpu, a: Act, x: Tid)
    requires LinkInv(s) && VictimsOK(s.threads, s.lists) && c < |s.cpus| && CanApply(s.lists, a.op) && Done(s, c, a)
    requires var t, s' := s.cpus[c].cur, After(s, c, a);
      Unique(s'.lists) && Migrating(a.me.htask) && x in s'.threads && x in Items(s'.lists, Held(t, true)) && x != t
    ensures After(s, c, a).threads[x].cpu == c
  {
    var t := s.cpus[c].cur;
    After1(s.lists, a.op, Held(t, true), x);
    if a.other.Change? && a.op.Move? {
      var y := Taken(Items(s.lists, a.op.src), a.op.fromHead).0;
      assert y in Apply(s.lists, a.op)[a.op.dst];
      assert x != y;
    }
  }

  lemma StepKeepsVictims(s: State, c: Cpu, a: Act)
    requires LinkInv(s) && FramesOK(s.threads, s.cpus, s.lists) && VictimsOK(s.threads, s.lists)
    requires c < |s.cpus| && CanApply(s.lists, a.op) && Done(s, c, a) && LinkInv(After(s, c, a))
    ensures VictimsOK(After(s, c, a).threads, After(s, c, a).lists)
  {
    var s', me := After(s, c, a), s.cpus[c].cur;
    ActorThread(s, c, a);
    forall t, x | t in s'.threads && Migrating(s'.threads[t].htask) && x in s'.threads &&
      x in Items(s'.lists, Held(t, true))
      ensures s'.threads[x].cpu == s'.threads[t].cpu
    {
      if t != me { OtherVictim(s, c, a, t, x); } else if x != me { MyVictim(s, c, a, x); }
    }
  }

  lemma NextKeepsInv(s: State, s': State)
    requires Inv(s) && Next(s, s')
    ensures Inv(s')
  {
    var c, e :| Enabled(s, c, e) && s' == After(s, c, ActOf(s, c, e));
    var a := ActOf(s, c, e);
    EventDone(s, c, e);
    StepKeepsLinks(s, c, a);
    StepKeepsFrames(s, c, a);
    StepKeepsVictims(s, c, a);
  }

  lemma ExecutionStarts(r: seq<State>)
    requires Execution(r)
    ensures Inv(r[0])
  {
    InitInv(r[0]);
  }

  lemma ExecutionGoesOn(r: seq<State>, i: nat)
    requires Execution(r) && 0 < i < |r| && Inv(r[i - 1])
    ensures Inv(r[i])
  {
    assert Goes(r, i - 1);
    NextKeepsInv(r[i - 1], r[i]);
  }

  lemma {:induction false} ExecutionKeepsInv(r: seq<State>, i: nat)
    requires Execution(r) && i < |r|
    ensures Inv(r[i])
  {
    if i == 0 {
      ExecutionStarts(r);
    } else {
      ExecutionKeepsInv(r, i - 1);
      ExecutionGoesOn(r, i);
    }
  }

  // --------------------------------------------------------------- in every execution

  /** A thread is linked once at most; on a run queue it is its own processor's; it is
      linked or running but not both, so only a processor that is idle in thread_switch
      has a current thread that is linked; and none is current on two processors. */
  lemma EveryThreadHasOnePlace(r: seq<State>, i: nat, t: Tid)
    requires Execution(r) && i < |r| && t in r[i].threads
    ensures Unique(r[i].lists)
    ensures forall c :: RunQ(c) in r[i].lists && t in r[i].lists[RunQ(c)] ==> r[i].threads[t].cpu == c
    ensures Linked(r[i].lists, t) <==> !OnCpu(r[i].cpus, t, r[i].threads[t])
    ensures forall c :: 0 <= c < |r[i].cpus| && r[i].cpus[c].cur == t ==>
      r[i].threads[t].cpu == c && (Linked(r[i].lists, t) <==> IsIdle(r[i].cpus[c].stage))
  {
    ExecutionKeepsInv(r, i);
    forall c | RunQ(c) in r[i].lists && t in r[i].lists[RunQ(c)] ensures r[i].threads[t].cpu == c {
      assert Fits(RunQ(c), r[i].threads[t]);
    }
  }

  /** Whatever changes a thread's processor, or destroys it, it was current nowhere; and
      what is destroyed was a zombie. */
  lemma CurrentThreadsAreSpared(r: seq<State>, i: nat, t: Tid)
    requires Execution(r) && i + 1 < |r| && t in r[i].threads
    requires t !in r[i + 1].threads || r[i + 1].threads[t].cpu != r[i].threads[t].cpu
    ensures NotCurrent(r[i].cpus, t)
    ensures t !in r[i + 1].threads ==> r[i].threads[t].st.Zombie?
  {
    ExecutionKeepsInv(r, i);
    assert Goes(r, i);
    var c, e :| Enabled(r[i], c, e) && r[i + 1] == After(r[i], c, ActOf(r[i], c, e));
    EventDone(r[i], c, e);
    SparedByStep(r[i], c, ActOf(r[i], c, e), t);
  }

  lemma SparedByStep(s: State, c: Cpu, a: Act, t: Tid)
    requires LinkInv(s) && c < |s.cpus| && LinkStep(s, c, a) && CanApply(s.lists, a.op) && t in s.threads
    requires t !in After(s, c, a).threads || After(s, c, a).threads[t].cpu != s.threads[t].cpu
    ensures NotCurrent(s.cpus, t)
    ensures t !in After(s, c, a).threads ==> s.threads[t].st.Zombie?
  {
    if t !in After(s, c, a).threads {
      ExorciseKeeps(s, c, a);
      HeadIn(s, Zombies(c), true);
    }
  }

  /** A migration never takes from an empty queue or list, whatever the other processors
      have done since it counted. */
  lemma MigrationNeverRunsDry(r: seq<State>, i: nat, c: Cpu)
    requires Execution(r) && i < |r| && c < |r[i].cpus| && r[i].cpus[c].cur in r[i].threads
    ensures var k, t := r[i].threads[r[i].cpus[c].cur].htask, r[i].cpus[c].cur;
      && (k.TakeAt? && k.n < k.send ==> Items(r[i].lists, RunQ(c)) != [])
      && (k.GiveAt? && k.send > 0 ==> Items(r[i].lists, Held(t, true)) != [])
  {
    ExecutionKeepsInv(r, i);
    assert FrameOK(r[i].cpus, r[i].lists, r[i].cpus[c].cur, r[i].threads[r[i].cpus[c].cur]);
  }
}
