/** Spinlocks and interrupts in the scheduler: the run-queue lock that thread_switch takes
    is handed to the thread switched to and released there, on the same processor; and
    every thread's t_iplhigh_count accounts for its spl and its spinlocks. */
module SchedulerLocks {

  import opened Interrupts
  import opened Linking
  import opened Scheduler
  import Links = SchedulerLinks

  /** The run-queue lock a migration holds. */
  function MigLock(k: Task, c: Cpu): set<Lock> {
    if k.TakeAt? || k.BackAt? then {RunqL(c)} else if k.GiveAt? then {RunqL(k.i)} else {}
  }

  /** Outside thread_switch: no run-queue lock but the migration's, and the channel's
      lock in the first half of a wakeup. */
  ghost predicate TaskLocks(th: Thread, c: Cpu, held: set<Lock>) {
    && MigLock(th.htask, c) <= held && (forall d :: RunqL(d) in held ==> RunqL(d) in MigLock(th.htask, c))
    && (CurTask(th).Waking? ==> WchanL(CurTask(th).w) in held)
  }

  ghost predicate StageLocks(th: Thread, g: Stage, c: Cpu, held: set<Lock>) {
    match g
    case Out => TaskLocks(th, c, held)
    case Begin(to) => held == Guard(to)
    case Locked(to) => held == Guard(to) + {RunqL(c)}
    case Pick => held == {RunqL(c)}
    case Idling => if th.intr then TaskLocks(th, c, held) else held == {}
    case Relock => held == {}
    case Landed => held == {RunqL(c)}
    case Cleaning => held == {}
  }

  /** A handler runs with the spl raised, by itself unless the processor was idle; in
      thread_switch it only ever yields. */
  predicate IntrOK(th: Thread, g: Stage) {
    && (!g.Out? || th.intr ==> !th.task.Waking?)
    && (th.intr ==> th.spl && (th.adjust <==> !g.Idling?) && !g.Relock?)
    && (th.intr && (g.Begin? || g.Locked?) ==> g.to.ToReady?)
    && (th.intr && g.Pick? ==> th.st.Ready?)
    && (th.intr && !g.Out? && !g.Idling? ==> th.saved)
  }

  ghost predicate CurrentOK(th: Thread, cpu: CpuState, c: Cpu, held: set<Lock>) {
    && (if cpu.stage.Idling? then th.ipl == (if th.spl then 1 else 0) + |held| else Balanced(LevelOf(th, cpu), |held|))
    && (!cpu.stage.Out? ==> th.spl)
    && StageLocks(th, cpu.stage, c, held)
    && IntrOK(th, cpu.stage)
  }

  /** A yielding thread is on the run queue until it is picked. */
  predicate YieldOK(t: Tid, th: Thread, g: Stage, q: seq<Tid>) {
    && (g.Pick? && th.st.Ready? ==> t in q)
    && (g.Idling? || g.Relock? ==> !th.st.Ready?)
  }

  /** A thread switched away from: its spl is raised, and it is charged with the run-queue
      lock it will release when it comes back. */
  predicate OffOK(th: Thread) {
    th.spl && th.ipl == 2 && !th.task.Waking? && (th.intr ==> th.adjust && th.saved)
  }

  ghost predicate CpuOK(s: State, c: Cpu)
    requires c < |s.cpus| && s.cpus[c].cur in s.threads
  {
    var t := s.cpus[c].cur;
    && CurrentOK(s.threads[t], s.cpus[c], c, HeldBy(s.holder, c))
    && YieldOK(t, s.threads[t], s.cpus[c].stage, Items(s.lists, RunQ(c)))
  }

  ghost predicate LockInv(s: State) {
    && (forall c :: 0 <= c < |s.cpus| ==> s.cpus[c].cur in s.threads && CpuOK(s, c))
    && (forall t :: t in s.threads && Links.NotCurrent(s.cpus, t) ==> OffOK(s.threads[t]))
  }

  lemma InitLocks(s: State)
    requires Init(s)
    ensures LockInv(s)
  {
    forall c | 0 <= c < |s.cpus| ensures s.cpus[c].cur in s.threads && CpuOK(s, c) { assert HeldBy(s.holder, c) == {}; }
    assert forall t :: t in s.threads ==> s.cpus[t].cur == t;
  }

  // ------------------------------------------------------------ the holders of locks

  function Held1(held: set<Lock>, op: LockOp): set<Lock> {
    match op case NoLock => held case Take(l) => held + {l} case Drop(l) => held - {l}
  }

  predicate CanHold(held: set<Lock>, op: LockOp) {
    match op case NoLock => true case Take(l) => l !in held case Drop(l) => l in held
  }

  lemma HeldAfter(holder: map<Lock, Cpu>, op: LockOp, c: Cpu, d: Cpu)
    requires CanLock(holder, op, c)
    ensures HeldBy(ApplyLock(holder, op, c), d) == if d == c then Held1(HeldBy(holder, c), op) else HeldBy(holder, d)
    ensures CanHold(HeldBy(holder, c), op)
  {
  }

  // ------------------------------------------------- each event, on the processor itself

  /** What an event says about its own processor, unless it switches threads. */
  ghost predicate LockDone(s: State, c: Cpu, a: Act)
    requires c < |s.cpus| && s.cpus[c].cur in s.threads && CanApply(s.lists, a.op)
  {
    && CanLock(s.holder, a.lock, c)
    && CurrentOK(a.me, a.cpu, c, Held1(HeldBy(s.holder, c), a.lock))
    && YieldOK(s.cpus[c].cur, a.me, a.cpu.stage, Items(Apply(s.lists, a.op), RunQ(c)))
  }

  /** What it relies on. */
  ghost predicate Here(s: State, c: Cpu) {
    && c < |s.cpus| && s.cpus[c].cur in s.threads && CpuOK(s, c)
    && var th := s.threads[s.cpus[c].cur]; th.cpu == c && (!th.htask.Rest? ==> th.intr && Active(th, s.cpus[c]))
  }

  lemma SpinLocks(s: State, c: Cpu, e: LocalEvent)
    requires Here(s, c) && Enabled(s, c, Local(e)) && (e.Acquire? || e.Release?)
    ensures LockDone(s, c, ActOf(s, c, Local(e)))
  {
  }

  lemma SplLocks(s: State, c: Cpu, e: LocalEvent)
    requires Here(s, c) && Enabled(s, c, Local(e)) && (e.SplTo? || e.Fork?)
    ensures LockDone(s, c, ActOf(s, c, Local(e)))
  {
  }

  /** Outside thread_switch and with no task in hand only ordinary spinlocks are held. */
  lemma RestHoldsOrdinary(s: State, c: Cpu)
    requires Here(s, c)
    requires var th := s.threads[s.cpus[c].cur]; Active(th, s.cpus[c]) && CurTask(th).Rest?
    ensures HeldBy(s.holder, c) == Ordinary(s.holder, c)
  {
  }

  lemma HandlerLocks(s: State, c: Cpu, e: LocalEvent)
    requires Here(s, c) && Enabled(s, c, Local(e)) && (e.Enter? || e.Leave?)
    ensures LockDone(s, c, ActOf(s, c, Local(e)))
  {
    if e.Leave? { RestHoldsOrdinary(s, c); }
  }

  lemma LocalLocks(s: State, c: Cpu, e: LocalEvent)
    requires Here(s, c) && Enabled(s, c, Local(e))
    ensures LockDone(s, c, ActOf(s, c, Local(e)))
  {
    if e.Acquire? || e.Release? {
      SpinLocks(s, c, e);
    } else if e.Enter? || e.Leave? {
      HandlerLocks(s, c, e);
    } else {
      SplLocks(s, c, e);
    }
  }

  lemma WchanTaken(th: Thread, cpu: CpuState, c: Cpu, held: set<Lock>, w: Wchan, all: bool)
    requires CurrentOK(th, cpu, c, held) && Active(th, cpu) && CurTask(th).Rest? && WchanL(w) !in held
    requires !th.htask.Rest? ==> th.intr
    ensures var a := Locking(SetTask(th, Waking(w, all)), cpu, Keep, Take(WchanL(w)), Nobody);
      CurrentOK(a.me, a.cpu, c, held + {WchanL(w)})
  {
  }

  lemma WchanDropped(th: Thread, cpu: CpuState, c: Cpu, held: set<Lock>)
    requires CurrentOK(th, cpu, c, held) && Active(th, cpu) && CurTask(th).Waking?
    requires !th.htask.Rest? ==> th.intr
    ensures var l := WchanL(CurTask(th).w);
      && l in held
      && var a := Locking(SetTask(th, Waken), cpu, Keep, Drop(l), Nobody); CurrentOK(a.me, a.cpu, c, held - {l})
  {
  }

  lemma WchanLocks(s: State, c: Cpu, e: WakeEvent)
    requires Here(s, c) && Enabled(s, c, Wake(e)) && (e.WakeLock? || e.WakeUnlock?)
    ensures LockDone(s, c, ActOf(s, c, Wake(e)))
  {
    var th, held := s.threads[s.cpus[c].cur], HeldBy(s.holder, c);
    if e.WakeLock? {
      WchanTaken(th, s.cpus[c], c, held, e.w, e.all);
    } else {
      WchanDropped(th, s.cpus[c], c, held);
    }
  }

  lemma NoWchanLocks(s: State, c: Cpu, e: WakeEvent)
    requires Here(s, c) && Enabled(s, c, Wake(e)) && !e.WakeLock? && !e.WakeUnlock?
    ensures LockDone(s, c, ActOf(s, c, Wake(e)))
  {
  }

  lemma WakeLocks(s: State, c: Cpu, e: WakeEvent)
    requires Here(s, c) && Enabled(s, c, Wake(e))
    ensures LockDone(s, c, ActOf(s, c, Wake(e)))
  {
    if e.WakeLock? || e.WakeUnlock? { WchanLocks(s, c, e); } else { NoWchanLocks(s, c, e); }
  }

  predicate Takes(e: MigEvent) { e.MigLock? || e.MigVisit? || e.MigBackLock? }

  predicate Drops(e: MigEvent) { e.MigTaken? || e.MigLeave? || e.MigBackDone? }

  lemma HandlerTakes(th: Thread, cpu: CpuState, c: Cpu, held: set<Lock>, k: Task, l: Lock)
    requires CurrentOK(th, cpu, c, held) && Active(th, cpu) && th.intr && MigLock(th.htask, c) == {}
    requires l.RunqL? && l !in held && MigLock(k, c) == {l} && !k.Waking?
    ensures var a := Locking(th.(htask := k), cpu, Keep, Take(l), Nobody); CurrentOK(a.me, a.cpu, c, held + {l})
  {
  }

  lemma OwnTakeLocks(s: State, c: Cpu, e: MigEvent)
    requires Here(s, c) && Enabled(s, c, Mig(e)) && (e.MigLock? || e.MigBackLock?)
    ensures LockDone(s, c, ActOf(s, c, Mig(e)))
  {
    HandlerTakes(s.threads[s.cpus[c].cur], s.cpus[c], c, HeldBy(s.holder, c), ActOf(s, c, Mig(e)).me.htask, RunqL(c));
  }

  lemma VisitLocks(s: State, c: Cpu)
    requires Here(s, c) && Enabled(s, c, Mig(MigVisit)) && s.threads[s.cpus[c].cur].htask.i != c
    ensures LockDone(s, c, ActOf(s, c, Mig(MigVisit)))
  {
    var th := s.threads[s.cpus[c].cur];
    HandlerTakes(th, s.cpus[c], c, HeldBy(s.holder, c), GiveAt(th.htask.i, th.htask.send, th.htask.share),
                 RunqL(th.htask.i));
  }

  lemma PassLocks(s: State, c: Cpu)
    requires Here(s, c) && Enabled(s, c, Mig(MigVisit)) && s.threads[s.cpus[c].cur].htask.i == c
    ensures LockDone(s, c, ActOf(s, c, Mig(MigVisit)))
  {
  }

  lemma MigTakeLocks(s: State, c: Cpu, e: MigEvent)
    requires Here(s, c) && Enabled(s, c, Mig(e)) && Takes(e)
    ensures LockDone(s, c, ActOf(s, c, Mig(e)))
  {
    if !e.MigVisit? {
      OwnTakeLocks(s, c, e);
    } else if s.threads[s.cpus[c].cur].htask.i == c {
      PassLocks(s, c);
    } else {
      VisitLocks(s, c);
    }
  }

  lemma MigDropLocks(s: State, c: Cpu, e: MigEvent)
    requires Here(s, c) && Enabled(s, c, Mig(e)) && Drops(e)
    ensures LockDone(s, c, ActOf(s, c, Mig(e)))
  {
  }

  lemma MigNoLocks(s: State, c: Cpu, e: MigEvent)
    requires Here(s, c) && Enabled(s, c, Mig(e)) && !Takes(e) && !Drops(e)
    ensures LockDone(s, c, ActOf(s, c, Mig(e)))
  {
  }

  lemma StartLocks(s: State, c: Cpu, e: SwitchEvent)
    requires Here(s, c) && Enabled(s, c, Sw(e)) && e.Switch?
    ensures LockDone(s, c, ActOf(s, c, Sw(e)))
  {
    RestHoldsOrdinary(s, c);
    assert HeldBy(s.holder, c) == Guard(e.to);
  }

  lemma LeaveLocks(s: State, c: Cpu, e: SwitchEvent)
    requires Here(s, c) && Enabled(s, c, Sw(e)) && (e.SwLock? || e.SwReturn?)
    ensures LockDone(s, c, ActOf(s, c, Sw(e)))
  {
  }

  lemma EnlistLocks(s: State, c: Cpu)
    requires Here(s, c) && Enabled(s, c, Sw(SwEnlist))
    ensures LockDone(s, c, ActOf(s, c, Sw(SwEnlist)))
  {
  }

  lemma IdleLocks(s: State, c: Cpu, e: SwitchEvent)
    requires Here(s, c) && Enabled(s, c, Sw(e)) && (e.SwIdle? || e.SwWake? || e.SwRelock?)
    ensures LockDone(s, c, ActOf(s, c, Sw(e)))
  {
  }

  lemma LandLocks(s: State, c: Cpu, e: SwitchEvent)
    requires Here(s, c) && Enabled(s, c, Sw(e)) && (e.SwLand? || e.SwExorcise? || e.SwFinish?)
    ensures LockDone(s, c, ActOf(s, c, Sw(e)))
  {
  }

  lemma SwitchLocks(s: State, c: Cpu, e: SwitchEvent)
    requires Here(s, c) && Enabled(s, c, Sw(e)) && !e.SwPick?
    ensures LockDone(s, c, ActOf(s, c, Sw(e)))
  {
    match e
    case Switch(_) => StartLocks(s, c, e);
    case SwLock => LeaveLocks(s, c, e);
    case SwReturn => LeaveLocks(s, c, e);
    case SwEnlist => EnlistLocks(s, c);
    case SwIdle => IdleLocks(s, c, e);
    case SwWake => IdleLocks(s, c, e);
    case SwRelock => IdleLocks(s, c, e);
    case SwLand => LandLocks(s, c, e);
    case SwExorcise => LandLocks(s, c, e);
    case SwFinish => LandLocks(s, c, e);
  }

  lemma EventLocks(s: State, c: Cpu, e: Event)
    requires Here(s, c) && Enabled(s, c, e) && e != Sw(SwPick)
    ensures LockDone(s, c, ActOf(s, c, e))
  {
    match e
    case Local(le) => LocalLocks(s, c, le);
    case Wake(we) => WakeLocks(s, c, we);
    case Mig(me) =>
      if Takes(me) {
        MigTakeLocks(s, c, me);
      } else if Drops(me) {
        MigDropLocks(s, c, me);
      } else {
        MigNoLocks(s, c, me);
      }
    case Sw(se) => SwitchLocks(s, c, se);
  }

  // --------------------------------------------------------------- the other processors

  lemma OtherCpu(s: State, c: Cpu, a: Act, d: Cpu)
    requires Links.LinkInv(s) && c < |s.cpus| && d < |s.cpus| && d != c
    requires CanApply(s.lists, a.op) && Links.Done(s, c, a) && CanLock(s.holder, a.lock, c) && CpuOK(s, d)
    ensures var s' := After(s, c, a); s'.cpus[d] == s.cpus[d] && s'.cpus[d].cur in s'.threads && CpuOK(s', d)
  {
    var t := s.cpus[d].cur;
    HeldAfter(s.holder, a.lock, c, d);
    assert t != s.cpus[c].cur && s.threads[t].cpu == d;
    if t !in After(s, c, a).threads || After(s, c, a).threads[t].cpu != d {
      Links.SparedByStep(s, c, a, t);
      assert false;
    }
    Links.OtherThreads(s, c, a, t);
    QueueKept(s, c, a, d, t);
  }

  lemma QueueKept(s: State, c: Cpu, a: Act, d: Cpu, t: Tid)
    requires c < |s.cpus| && s.cpus[c].cur in s.threads && Links.LinkStep(s, c, a) && CanApply(s.lists, a.op) && d != c
    ensures t in Items(s.lists, RunQ(d)) ==> t in Items(Apply(s.lists, a.op), RunQ(d))
  {
  }

  lemma OffKept(s: State, c: Cpu, a: Act, t: Tid)
    requires Links.LinkInv(s) && c < |s.cpus| && CanApply(s.lists, a.op) && Links.Done(s, c, a)
    requires t in After(s, c, a).threads && t != s.cpus[c].cur && Links.NotCurrent(s.cpus, t)
    requires t in s.threads ==> OffOK(s.threads[t])
    ensures OffOK(After(s, c, a).threads[t])
  {
    Links.OtherThreads(s, c, a, t);
  }

  lemma StepKeepsLocks(s: State, c: Cpu, a: Act)
    requires Links.LinkInv(s) && LockInv(s) && c < |s.cpus| && CanApply(s.lists, a.op)
    requires Links.Done(s, c, a) && LockDone(s, c, a) && a.cpu.cur == s.cpus[c].cur
    ensures LockInv(After(s, c, a))
  {
    var s', t0 := After(s, c, a), s.cpus[c].cur;
    Links.ActorThread(s, c, a);
    HeldAfter(s.holder, a.lock, c, c);
    forall d | 0 <= d < |s'.cpus| ensures s'.cpus[d].cur in s'.threads && CpuOK(s', d) {
      if d != c { OtherCpu(s, c, a, d); }
    }
    forall t | t in s'.threads && Links.NotCurrent(s'.cpus, t) ensures OffOK(s'.threads[t]) {
      assert s'.cpus[c].cur == t0;
      assert Links.NotCurrent(s.cpus, t) by {
        forall d | 0 <= d < |s.cpus| ensures s.cpus[d].cur != t { assert s'.cpus[d].cur != t; }
      }
      OffKept(s, c, a, t);
    }
  }

  /** The run-queue lock passes from the thread left to the thread picked. */
  lemma PickedOK(s: State, c: Cpu)
    requires Links.LinkInv(s) && LockInv(s) && Enabled(s, c, Sw(SwPick))
    ensures var x, s' := Items(s.lists, RunQ(c))[0], After(s, c, ActOf(s, c, Sw(SwPick)));
      && s'.threads == s.threads && s'.cpus[c].cur == x && x in s'.threads && CpuOK(s', c)
      && (x != s.cpus[c].cur ==> Links.NotCurrent(s.cpus, x) && OffOK(s.threads[s.cpus[c].cur]))
  {
    var t, x := s.cpus[c].cur, Items(s.lists, RunQ(c))[0];
    Links.HeadIn(s, RunQ(c), true);
    assert CpuOK(s, c);
    if x != t { assert Links.NotCurrent(s.cpus, x); }
  }

  lemma PickKeepsLocks(s: State, c: Cpu)
    requires Links.Inv(s) && LockInv(s) && Enabled(s, c, Sw(SwPick))
    ensures LockInv(After(s, c, ActOf(s, c, Sw(SwPick))))
  {
    var a := ActOf(s, c, Sw(SwPick));
    var s', t0 := After(s, c, a), s.cpus[c].cur;
    PickedOK(s, c);
    Links.EventDone(s, c, Sw(SwPick));
    forall d | 0 <= d < |s'.cpus| ensures s'.cpus[d].cur in s'.threads && CpuOK(s', d) {
      if d != c { OtherCpu(s, c, a, d); }
    }
    forall t | t in s'.threads && Links.NotCurrent(s'.cpus, t) ensures OffOK(s'.threads[t]) {
      if t != t0 {
        forall d | 0 <= d < |s.cpus| ensures s.cpus[d].cur != t { assert s'.cpus[d].cur != t; }
        assert Links.NotCurrent(s.cpus, t);
      } else {
        assert s'.cpus[c].cur != t;
      }
    }
  }

  lemma InvHere(s: State, c: Cpu)
    requires Links.Inv(s) && LockInv(s) && c < |s.cpus|
    ensures Here(s, c)
  {
    assert Links.FrameOK(s.cpus, s.lists, s.cpus[c].cur, s.threads[s.cpus[c].cur]);
  }

  lemma NextKeepsLocks(s: State, s': State)
    requires Links.Inv(s) && LockInv(s) && Next(s, s')
    ensures LockInv(s')
  {
    var c, e :| Enabled(s, c, e) && s' == After(s, c, ActOf(s, c, e));
    if e == Sw(SwPick) {
      PickKeepsLocks(s, c);
    } else {
      InvHere(s, c);
      EventLocks(s, c, e);
      Links.EventDone(s, c, e);
      SameCurrent(s, c, e);
      StepKeepsLocks(s, c, ActOf(s, c, e));
    }
  }

  lemma SameCurrent(s: State, c: Cpu, e: Event)
    requires Enabled(s, c, e) && e != Sw(SwPick)
    ensures ActOf(s, c, e).cpu.cur == s.cpus[c].cur
  {
  }

  lemma {:induction false} ExecutionKeepsLocks(r: seq<State>, i: nat)
    requires Execution(r) && i < |r|
    ensures LockInv(r[i])
  {
    if i == 0 {
      InitLocks(r[0]);
    } else {
      ExecutionKeepsLocks(r, i - 1);
      Links.ExecutionKeepsInv(r, i - 1);
      assert Goes(r, i - 1);
      NextKeepsLocks(r[i - 1], r[i]);
    }
  }

  // --------------------------------------------------------------- in every execution

  /** t_iplhigh_count is one for a raised spl plus the spinlocks charged to the thread:
      those its processor holds if it is current, the run-queue lock if it is not; and
      interrupts are off exactly when the current thread's count is positive, except in
      cpu_idle. */
  lemma CountsAreRight(r: seq<State>, i: nat, t: Tid)
    requires Execution(r) && i < |r| && t in r[i].threads
    ensures forall c :: 0 <= c < |r[i].cpus| && r[i].cpus[c].cur == t ==>
      var th, cpu, n := r[i].threads[t], r[i].cpus[c], |HeldBy(r[i].holder, c)|;
      && th.ipl == (if th.spl then 1 else 0) + n
      && (!cpu.stage.Idling? ==> (cpu.irqOff <==> th.ipl > 0))
    ensures Links.NotCurrent(r[i].cpus, t) ==> r[i].threads[t].spl && r[i].threads[t].ipl == 1 + 1
  {
    ExecutionKeepsLocks(r, i);
    forall c | 0 <= c < |r[i].cpus| && r[i].cpus[c].cur == t
      ensures var th, cpu, n := r[i].threads[t], r[i].cpus[c], |HeldBy(r[i].holder, c)|;
        && th.ipl == (if th.spl then 1 else 0) + n
        && (!cpu.stage.Idling? ==> (cpu.irqOff <==> th.ipl > 0))
    {
      assert CpuOK(r[i], c);
    }
  }

  /** While a processor is switching it holds its own run-queue lock from before the
      current thread is put on a list until the thread switched to, old or new, has
      reached its end of thread_switch; there it is the only lock, and afterwards none. */
  lemma RunQueueLockIsHandedOver(r: seq<State>, i: nat, c: Cpu)
    requires Execution(r) && i < |r| && c < |r[i].cpus|
    ensures var g, held := r[i].cpus[c].stage, HeldBy(r[i].holder, c);
      && (g.Locked? ==> RunqL(c) in held)
      && (g.Pick? || g.Landed? ==> held == {RunqL(c)})
      && (g.Relock? || g.Cleaning? ==> held == {})
  {
    ExecutionKeepsLocks(r, i);
    assert CpuOK(r[i], c);
  }

  /** Whatever step comes next, a spinlock is taken only when free and dropped only by
      the processor that holds it. */
  lemma LocksAreDroppedByTheirHolder(r: seq<State>, i: nat, c: Cpu, e: Event)
    requires Execution(r) && i < |r| && Enabled(r[i], c, e)
    ensures CanLock(r[i].holder, ActOf(r[i], c, e).lock, c)
  {
    ExecutionKeepsLocks(r, i);
    Links.ExecutionKeepsInv(r, i);
    InvHere(r[i], c);
    if e != Sw(SwPick) { EventLocks(r[i], c, e); }
  }

  /** When an interrupt handler returns, having dropped the ordinary spinlocks it took, the
      processor holds no spinlock at all, the spl is still high and its raise is the only
      one left, as trap.c asserts. */
  lemma HandlersLeakNothing(r: seq<State>, i: nat, c: Cpu)
    requires Execution(r) && i < |r| && Enabled(r[i], c, Local(Leave))
    ensures var th := r[i].threads[r[i].cpus[c].cur]; HeldBy(r[i].holder, c) == {} && th.spl && th.ipl == 1
  {
    ExecutionKeepsLocks(r, i);
    Links.ExecutionKeepsInv(r, i);
    InvHere(r[i], c);
    RestHoldsOrdinary(r[i], c);
  }

  // ------------------------------------------- nobody waits for a lock holding another

  /** The steps that begin by taking a run-queue lock. */
  predicate TakesRunq(e: Event) {
    match e
    case Wake(we) => we.WakeAdd?
    case Mig(me) => me.MigLook? || Takes(me)
    case Sw(se) => se.SwLock? || se.SwRelock?
    case _ => false
  }

  /** Processor c is about to take such a step: only locks can be in its way. */
  predicate AboutTo(s: State, c: Cpu, e: Event) { Enabled(s.(holder := map[]), c, e) }

  lemma AboutToTake(s: State, c: Cpu, e: Event, d: Cpu)
    requires Here(s, c) && TakesRunq(e) && AboutTo(s, c, e)
    ensures RunqL(d) !in HeldBy(s.holder, c)
  {
  }

  /** A processor about to take a run-queue lock holds none: it never waits for itself,
      which spinlock_acquire panics about, and two processors never wait for each other. */
  lemma NobodyWaitsWithARunQueueLock(r: seq<State>, i: nat, c: Cpu, e: Event, d: Cpu)
    requires Execution(r) && i < |r| && TakesRunq(e) && AboutTo(r[i], c, e)
    ensures RunqL(d) !in HeldBy(r[i].holder, c)
  {
    ExecutionKeepsLocks(r, i);
    Links.ExecutionKeepsInv(r, i);
    InvHere(r[i], c);
    AboutToTake(r[i], c, e, d);
  }

  lemma SwitchingGoesOn(s: State, c: Cpu) returns (e: SwitchEvent)
    requires Here(s, c) && (s.cpus[c].stage.Locked? || s.cpus[c].stage.Pick? || s.cpus[c].stage.Landed?)
    ensures Enabled(s, c, Sw(e)) && !TakesRunq(Sw(e))
  {
    var g := s.cpus[c].stage;
    if g.Locked? {
      e := if NothingToDo(s, c, g.to) then SwReturn else SwEnlist;
    } else if g.Pick? {
      e := if Items(s.lists, RunQ(c)) != [] then SwPick else SwIdle;
    } else {
      e := SwLand;
    }
  }

  lemma MigrationGoesOn(s: State, c: Cpu) returns (e: MigEvent)
    requires Links.Inv(s) && Here(s, c) && MigLock(s.threads[s.cpus[c].cur].htask, c) != {}
    ensures Enabled(s, c, Mig(e)) && !TakesRunq(Mig(e))
  {
    var t := s.cpus[c].cur;
    var k := s.threads[t].htask;
    assert Links.FrameOK(s.cpus, s.lists, t, s.threads[t]);
    if k.TakeAt? {
      e := if k.n < k.send then MigTake else MigTaken;
    } else if k.GiveAt? {
      if MoreToGive(s, k) {
        Links.HeadIn(s, Held(t, true), true);
        e := MigSend;
      } else {
        e := MigLeave;
      }
    } else {
      e := if Items(s.lists, Held(t, true)) != [] then MigBackMove else MigBackDone;
    }
  }

  /** A processor that holds a run-queue lock can always go on, without another lock. */
  lemma HoldersGoOn(r: seq<State>, i: nat, c: Cpu, d: Cpu) returns (e: Event)
    requires Execution(r) && i < |r| && c < |r[i].cpus| && RunqL(d) in HeldBy(r[i].holder, c)
    ensures Enabled(r[i], c, e) && !TakesRunq(e)
  {
    ExecutionKeepsLocks(r, i);
    Links.ExecutionKeepsInv(r, i);
    InvHere(r[i], c);
    var g := r[i].cpus[c].stage;
    if g.Locked? || g.Pick? || g.Landed? {
      var se := SwitchingGoesOn(r[i], c);
      e := Sw(se);
    } else {
      var me := MigrationGoesOn(r[i], c);
      e := Mig(me);
    }
  }

  predicate Touches(op: ListOp, id: ListId) {
    (op.Put? && op.dst == id) || (op.Move? && (op.dst == id || op.src == id)) || (op.Pop? && op.src == id)
  }

  lemma MigTouches(s: State, c: Cpu, e: MigEvent, d: Cpu)
    requires Here(s, c) && Enabled(s, c, Mig(e)) && Touches(ActOf(s, c, Mig(e)).op, RunQ(d))
    ensures RunqL(d) in HeldBy(s.holder, c)
  {
    assert MigLock(s.threads[s.cpus[c].cur].htask, c) <= HeldBy(s.holder, c);
  }

  lemma SwitchTouches(s: State, c: Cpu, e: SwitchEvent, d: Cpu)
    requires Here(s, c) && Enabled(s, c, Sw(e)) && Touches(ActOf(s, c, Sw(e)).op, RunQ(d))
    ensures RunqL(d) in HeldBy(s.holder, c)
  {
  }

  lemma WakeTouches(s: State, c: Cpu, e: WakeEvent, d: Cpu)
    requires Enabled(s, c, Wake(e)) && Touches(ActOf(s, c, Wake(e)).op, RunQ(d))
    ensures Free(s, RunqL(d))
  {
  }

  /** A run queue changes only while no other processor holds its lock. */
  lemma QueuesChangeUnderTheirLock(r: seq<State>, i: nat, c: Cpu, e: Event, d: Cpu)
    requires Execution(r) && i < |r| && Enabled(r[i], c, e) && Touches(ActOf(r[i], c, e).op, RunQ(d))
    ensures RunqL(d) in r[i].holder ==> r[i].holder[RunqL(d)] == c
  {
    ExecutionKeepsLocks(r, i);
    Links.ExecutionKeepsInv(r, i);
    InvHere(r[i], c);
    if e.Wake? {
      WakeTouches(r[i], c, e.we, d);
    } else if e.Mig? {
      MigTouches(r[i], c, e.me, d);
    } else if e.Sw? {
      SwitchTouches(r[i], c, e.se, d);
    }
  }
}
