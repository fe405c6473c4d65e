/** The thread system of a machine with several processors, as a step system.  A step is
    taken by one processor on behalf of the thread current there, or of the interrupt
    handler running on that thread's stack.  It takes or drops at most one spinlock, and
    a list is changed only inside the lock that guards it, so the steps interleave as
    finely as the code does.  Taking a spinlock is the moment its test-and-set succeeds;
    a critical section that makes a single change is one step, for which the lock is free. */
module Scheduler {

  import opened Arithmetic
  import opened Interrupts
  import opened Linking

  type Tid = nat
  type Cpu = nat
  type Wchan = nat

  datatype Lock = RunqL(c: Cpu) | WchanL(w: Wchan) | OtherL(n: nat)

  /** The lists a thread can be linked on: Held are the private lists in the stack frames
      of a thread (wchan_wakeall, thread_consider_migration, or the one thread in hand in
      wchan_wakeone and thread_fork), of its own code or of an interrupt handler. */
  datatype ListId = RunQ(c: Cpu) | Zombies(c: Cpu) | Wait(w: Wchan) | Held(t: Tid, handler: bool)

  datatype RunState = Run | Ready | Sleep | Zombie

  datatype Target = ToReady | ToSleep(w: Wchan) | ToZombie

  /** How far a processor is in thread_switch.  From Pick to Relock c_isidle is set. */
  datatype Stage =
    | Out
    | Begin(to: Target)          // splhigh done
    | Locked(to: Target)         // run queue locked
    | Pick                       // current thread put in its place; looking for the next
    | Idling                     // run queue unlocked, in cpu_idle
    | Relock
    | Landed                     // in the thread switched to, run queue still locked
    | Cleaning                   // run queue unlocked; exorcise

  /** What a frame is doing outside thread_switch. */
  datatype Task =
    | Rest
    | Waking(w: Wchan, all: bool)                      // channel locked, taking threads off it
    | Waken                                            // making the threads in hand runnable
    | Count(i: nat, total: int, mine: int)             // adding up the run queues
    | TakeWant(send: int, share: int)
    | TakeAt(n: int, send: int, share: int)            // own run queue locked, taking victims
    | Give(i: nat, send: int, share: int)
    | GiveAt(i: nat, send: int, share: int)            // run queue of i locked, handing them out
    | Back
    | BackAt                                           // own run queue locked, putting the rest back

  /** spl and ipl are t_curspl and t_iplhigh_count; saved is the local of thread_switch;
      intr says an interrupt handler runs on this stack, adjust that it raised the spl. */
  datatype Thread = Thread(cpu: Cpu, st: RunState, spl: bool, ipl: int, saved: bool,
                           task: Task, htask: Task, intr: bool, adjust: bool)

  datatype CpuState = CpuState(cur: Tid, stage: Stage, irqOff: bool)

  /** holder is lk_holder of the locks that are held. */
  datatype State =
    State(threads: map<Tid, Thread>, cpus: seq<CpuState>, lists: map<ListId, seq<Tid>>, holder: map<Lock, Cpu>)

  function HeldBy(holder: map<Lock, Cpu>, c: Cpu): set<Lock> { set l | l in holder && holder[l] == c }

  /** The spinlocks taken by code outside the scheduler, wait channels included. */
  function Ordinary(holder: map<Lock, Cpu>, c: Cpu): set<Lock> { set l | l in HeldBy(holder, c) && !l.RunqL? }

  predicate Free(s: State, l: Lock) { l !in s.holder }

  function CurTask(th: Thread): Task { if th.intr then th.htask else th.task }

  function SetTask(th: Thread, k: Task): Thread { if th.intr then th.(htask := k) else th.(task := k) }

  function LevelOf(th: Thread, cpu: CpuState): Level { Level(th.spl, th.ipl, cpu.irqOff) }

  function SetLevel(th: Thread, l: Level): Thread { th.(spl := l.spl, ipl := l.count) }

  predicate IsIdle(g: Stage) { g.Pick? || g.Idling? || g.Relock? }

  /** The thread, or a handler on its stack, runs code outside thread_switch. */
  predicate Active(th: Thread, cpu: CpuState) { cpu.stage.Out? || (cpu.stage.Idling? && th.intr) }

  // ---------------------------------------------------- what a step does to each part

  datatype ListOp =
    | Keep
    | Put(dst: ListId, t: Tid)
    | Move(src: ListId, dst: ListId, fromHead: bool, toTail: bool)
    | Pop(src: ListId)

  datatype LockOp = NoLock | Take(l: Lock) | Drop(l: Lock)

  datatype Other = Nobody | Change(t: Tid, th: Thread) | Gone(t: Tid)

  /** The current thread and the processor afterwards, and what happens to the rest. */
  datatype Act = Act(me: Thread, cpu: CpuState, op: ListOp, lock: LockOp, other: Other)

  function Taken(l: seq<Tid>, head: bool): (Tid, seq<Tid>)
    requires l != []
  {
    if head then (l[0], l[1..]) else (l[|l| - 1], l[..|l| - 1])
  }

  predicate CanApply(m: map<ListId, seq<Tid>>, op: ListOp) {
    match op
    case Move(src, _, _, _) => Items(m, src) != []
    case Pop(src) => Items(m, src) != []
    case _ => true
  }

  function Apply(m: map<ListId, seq<Tid>>, op: ListOp): map<ListId, seq<Tid>>
    requires CanApply(m, op)
  {
    match op
    case Keep => m
    case Put(dst, t) => m[dst := Items(m, dst) + [t]]
    case Move(src, dst, fromHead, toTail) =>
      var (t, rest) := Taken(Items(m, src), fromHead);
      var m1 := m[src := rest];
      m1[dst := if toTail then Items(m1, dst) + [t] else [t] + Items(m1, dst)]
    case Pop(src) => m[src := Items(m, src)[1..]]
  }

  predicate CanLock(holder: map<Lock, Cpu>, op: LockOp, c: Cpu) {
    match op
    case NoLock => true
    case Take(l) => l !in holder
    case Drop(l) => l in holder && holder[l] == c
  }

  function ApplyLock(holder: map<Lock, Cpu>, op: LockOp, c: Cpu): map<Lock, Cpu> {
    match op
    case NoLock => holder
    case Take(l) => holder[l := c]
    case Drop(l) => holder - {l}
  }

  function ApplyOther(threads: map<Tid, Thread>, o: Other): map<Tid, Thread> {
    match o
    case Nobody => threads
    case Change(t, th) => threads[t := th]
    case Gone(t) => threads - {t}
  }

  function After(s: State, c: Cpu, a: Act): State
    requires c < |s.cpus| && CanApply(s.lists, a.op)
  {
    State(ApplyOther(s.threads[s.cpus[c].cur := a.me], a.other), s.cpus[c := a.cpu],
          Apply(s.lists, a.op), ApplyLock(s.holder, a.lock, c))
  }

  /** A spinlock is taken or dropped: the level goes up or down with it. */
  function Locking(me: Thread, cpu: CpuState, op: ListOp, lock: LockOp, other: Other): Act {
    var level := match lock
      case NoLock => LevelOf(me, cpu)
      case Take(_) => SplRaise(LevelOf(me, cpu))
      case Drop(_) => SplLower(LevelOf(me, cpu));
    Act(SetLevel(me, level), cpu.(irqOff := level.irqOff), op, lock, other)
  }

  // -------------------------------------------------------------------------- events

  /** spl calls, spinlocks of other code, interrupts and thread_fork. */
  datatype LocalEvent = SplTo(high: bool) | Acquire(l: Lock) | Release(l: Lock) | Enter | Leave | Fork(n: Tid)

  predicate LocalOK(s: State, c: Cpu, t: Tid, me: Thread, cpu: CpuState, e: LocalEvent) {
    match e
    case SplTo(_) => cpu.stage.Out? && !me.intr && me.task.Rest?
    case Acquire(l) => Active(me, cpu) && CurTask(me).Rest? && !l.RunqL? && Free(s, l)
    case Release(l) => Active(me, cpu) && CurTask(me).Rest? && !l.RunqL? && l in s.holder && s.holder[l] == c
    case Enter => !me.intr && ((cpu.stage.Out? && !cpu.irqOff) || cpu.stage.Idling?)
    case Leave => me.intr && me.htask.Rest? && Active(me, cpu) && Ordinary(s.holder, c) == {}
    case Fork(n) => cpu.stage.Out? && !me.intr && me.task.Rest? && n !in s.threads
  }

  function NewThread(c: Cpu): Thread { Thread(c, Ready, true, 2, false, Rest, Rest, false, false) }

  function LocalAct(c: Cpu, t: Tid, me: Thread, cpu: CpuState, e: LocalEvent): Act {
    match e
    case SplTo(high) =>
      var l := Splx(LevelOf(me, cpu), high);
      Act(SetLevel(me, l), cpu.(irqOff := l.irqOff), Keep, NoLock, Nobody)
    case Acquire(l) => Locking(me, cpu, Keep, Take(l), Nobody)
    case Release(l) => Locking(me, cpu, Keep, Drop(l), Nobody)
    case Enter =>
      Act(if me.spl then me.(intr := true, adjust := false)
          else me.(intr := true, adjust := true, spl := true, ipl := me.ipl + 1),
          cpu.(irqOff := true), Keep, NoLock, Nobody)
    case Leave =>
      Act(if me.adjust then me.(intr := false, spl := false, ipl := me.ipl - 1) else me.(intr := false),
          cpu.(irqOff := false), Keep, NoLock, Nobody)
    case Fork(n) => Act(me.(task := Waken), cpu, Put(Held(t, false), n), NoLock, Change(n, NewThread(me.cpu)))
  }

  /** wchan_wakeone and wchan_wakeall, with thread_make_runnable. */
  datatype WakeEvent = WakeLock(w: Wchan, all: bool) | WakeMove | WakeUnlock | WakeAdd | WakeDone

  predicate MoreToWake(s: State, t: Tid, me: Thread)
    requires CurTask(me).Waking?
  {
    Items(s.lists, Wait(CurTask(me).w)) != [] && (CurTask(me).all || Items(s.lists, Held(t, me.intr)) == [])
  }

  predicate WakeOK(s: State, c: Cpu, t: Tid, me: Thread, cpu: CpuState, e: WakeEvent) {
    && Active(me, cpu)
    && match e
       case WakeLock(w, _) => CurTask(me).Rest? && Free(s, WchanL(w))
       case WakeMove => CurTask(me).Waking? && MoreToWake(s, t, me)
       case WakeUnlock => CurTask(me).Waking? && !MoreToWake(s, t, me)
       case WakeAdd => CurTask(me).Waken? && Items(s.lists, Held(t, me.intr)) != []
                       && Items(s.lists, Held(t, me.intr))[0] in s.threads
                       && Free(s, RunqL(s.threads[Items(s.lists, Held(t, me.intr))[0]].cpu))
       case WakeDone => CurTask(me).Waken? && Items(s.lists, Held(t, me.intr)) == []
  }

  function WakeAct(s: State, c: Cpu, t: Tid, me: Thread, cpu: CpuState, e: WakeEvent): Act
    requires WakeOK(s, c, t, me, cpu, e)
  {
    match e
    case WakeLock(w, all) => Locking(SetTask(me, Waking(w, all)), cpu, Keep, Take(WchanL(w)), Nobody)
    case WakeMove => Act(me, cpu, Move(Wait(CurTask(me).w), Held(t, me.intr), true, true), NoLock, Nobody)
    case WakeUnlock => Locking(SetTask(me, Waken), cpu, Keep, Drop(WchanL(CurTask(me).w)), Nobody)
    case WakeAdd =>
      var d := s.threads[Items(s.lists, Held(t, me.intr))[0]].cpu;
      Act(me, cpu, Move(Held(t, me.intr), RunQ(d), true, true), NoLock, Nobody)
    case WakeDone => Act(SetTask(me, Rest), cpu, Keep, NoLock, Nobody)
  }

  /** thread_consider_migration, called from the timer interrupt. */
  datatype MigEvent = MigStart | MigLook | MigDecide | MigLock | MigTake | MigTaken | MigVisit | MigSend | MigLeave
                    | MigEnd | MigBackLock | MigBackMove | MigBackDone

  predicate MoreToGive(s: State, k: Task)
    requires k.GiveAt?
  {
    |Items(s.lists, RunQ(k.i))| < k.share && k.send > 0
  }

  predicate MigOK(s: State, c: Cpu, t: Tid, me: Thread, cpu: CpuState, e: MigEvent) {
    && Active(me, cpu) && me.intr
    && var k := me.htask;
       match e
       case MigStart => k.Rest?
       case MigLook => k.Count? && k.i < |s.cpus| && Free(s, RunqL(k.i))
       case MigDecide => k.Count? && k.i == |s.cpus| > 0
       case MigLock => k.TakeWant? && Free(s, RunqL(c))
       case MigTake => k.TakeAt? && k.n < k.send && Items(s.lists, RunQ(c)) != []
       case MigTaken => k.TakeAt? && k.n >= k.send
       case MigVisit => k.Give? && k.i < |s.cpus| && k.send > 0 && (k.i == c || Free(s, RunqL(k.i)))
       case MigSend => k.GiveAt? && MoreToGive(s, k) && Items(s.lists, Held(t, true)) != []
                       && Items(s.lists, Held(t, true))[0] in s.threads
       case MigLeave => k.GiveAt? && !MoreToGive(s, k)
       case MigEnd => k.Give? && (k.i >= |s.cpus| || k.send <= 0)
       case MigBackLock => k.Back? && Free(s, RunqL(c))
       case MigBackMove => k.BackAt? && Items(s.lists, Held(t, true)) != []
       case MigBackDone => k.BackAt? && Items(s.lists, Held(t, true)) == []
  }

  function MigAct(s: State, c: Cpu, t: Tid, me: Thread, cpu: CpuState, e: MigEvent): Act
    requires MigOK(s, c, t, me, cpu, e)
  {
    var k := me.htask;
    match e
    case MigStart => Act(me.(htask := Count(0, 0, 0)), cpu, Keep, NoLock, Nobody)
    case MigLook =>
      var n := |Items(s.lists, RunQ(k.i))|;
      Act(me.(htask := Count(k.i + 1, k.total + n, if k.i == c then n else k.mine)), cpu, Keep, NoLock, Nobody)
    case MigDecide =>
      var share := DivRoundUp(k.total, |s.cpus|);
      Act(me.(htask := if k.mine < share then Rest else TakeWant(k.mine - share, share)), cpu, Keep, NoLock, Nobody)
    case MigLock => Locking(me.(htask := TakeAt(0, k.send, k.share)), cpu, Keep, Take(RunqL(c)), Nobody)
    case MigTake =>
      Act(me.(htask := TakeAt(k.n + 1, k.send, k.share)), cpu, Move(RunQ(c), Held(t, true), false, false), NoLock,
          Nobody)
    case MigTaken => Locking(me.(htask := Give(0, k.send, k.share)), cpu, Keep, Drop(RunqL(c)), Nobody)
    case MigVisit =>
      if k.i == c then Act(me.(htask := Give(k.i + 1, k.send, k.share)), cpu, Keep, NoLock, Nobody)
      else Locking(me.(htask := GiveAt(k.i, k.send, k.share)), cpu, Keep, Take(RunqL(k.i)), Nobody)
    case MigSend =>
      var x := Items(s.lists, Held(t, true))[0];
      var me' := me.(htask := GiveAt(k.i, k.send - 1, k.share));
      if x == t then Act(me', cpu, Move(Held(t, true), Held(t, true), true, true), NoLock, Nobody)
      else Act(me', cpu, Move(Held(t, true), RunQ(k.i), true, true), NoLock, Change(x, s.threads[x].(cpu := k.i)))
    case MigLeave => Locking(me.(htask := Give(k.i + 1, k.send, k.share)), cpu, Keep, Drop(RunqL(k.i)), Nobody)
    case MigEnd => Act(me.(htask := if Items(s.lists, Held(t, true)) == [] then Rest else Back), cpu, Keep, NoLock,
                       Nobody)
    case MigBackLock => Locking(me.(htask := BackAt), cpu, Keep, Take(RunqL(c)), Nobody)
    case MigBackMove => Act(me, cpu, Move(Held(t, true), RunQ(c), true, true), NoLock, Nobody)
    case MigBackDone => Locking(me.(htask := Rest), cpu, Keep, Drop(RunqL(c)), Nobody)
  }

  /** thread_switch (from thread_yield, wchan_sleep and thread_exit), thread_startup, exorcise. */
  datatype SwitchEvent = Switch(to: Target) | SwLock | SwReturn | SwEnlist | SwPick | SwIdle | SwWake | SwRelock
                       | SwLand | SwExorcise | SwFinish

  /** The spinlock, of its own, that a caller of thread_switch holds. */
  function Guard(to: Target): set<Lock> { if to.ToSleep? then {WchanL(to.w)} else {} }

  predicate NothingToDo(s: State, c: Cpu, to: Target) { to.ToReady? && Items(s.lists, RunQ(c)) == [] }

  predicate SwitchOK(s: State, c: Cpu, t: Tid, me: Thread, cpu: CpuState, e: SwitchEvent) {
    match e
    case Switch(to) =>
      cpu.stage.Out? && CurTask(me).Rest? && (me.intr ==> to.ToReady?) && Ordinary(s.holder, c) == Guard(to)
    case SwLock => cpu.stage.Begin? && Free(s, RunqL(c))
    case SwReturn => cpu.stage.Locked? && NothingToDo(s, c, cpu.stage.to)
    case SwEnlist => cpu.stage.Locked? && !NothingToDo(s, c, cpu.stage.to)
    case SwPick => cpu.stage.Pick? && Items(s.lists, RunQ(c)) != []
    case SwIdle => cpu.stage.Pick? && Items(s.lists, RunQ(c)) == []
    case SwWake => cpu.stage.Idling? && !me.intr
    case SwRelock => cpu.stage.Relock? && Free(s, RunqL(c))
    case SwLand => cpu.stage.Landed?
    case SwExorcise => cpu.stage.Cleaning? && Items(s.lists, Zombies(c)) != []
    case SwFinish => cpu.stage.Cleaning? && Items(s.lists, Zombies(c)) == []
  }

  function SwitchAct(s: State, c: Cpu, t: Tid, me: Thread, cpu: CpuState, e: SwitchEvent): Act
    requires SwitchOK(s, c, t, me, cpu, e)
  {
    match e
    case Switch(to) =>
      var l := Splx(LevelOf(me, cpu), true);
      Act(SetLevel(me.(saved := me.spl || to.ToZombie?), l), cpu.(stage := Begin(to), irqOff := l.irqOff), Keep, NoLock,
          Nobody)
    case SwLock => Locking(me, cpu.(stage := Locked(cpu.stage.to)), Keep, Take(RunqL(c)), Nobody)
    case SwReturn =>
      var l := Splx(SplLower(LevelOf(me, cpu)), me.saved);
      Act(SetLevel(me, l), cpu.(stage := Out, irqOff := l.irqOff), Keep, Drop(RunqL(c)), Nobody)
    case SwEnlist =>
      (match cpu.stage.to
       case ToReady => Act(me.(st := Ready), cpu.(stage := Pick), Put(RunQ(me.cpu), t), NoLock, Nobody)
       case ToSleep(w) => Locking(me.(st := Sleep), cpu.(stage := Pick), Put(Wait(w), t), Drop(WchanL(w)), Nobody)
       case ToZombie => Act(me.(st := Zombie), cpu.(stage := Pick), Put(Zombies(c), t), NoLock, Nobody))
    case SwPick => Act(me, cpu.(cur := Items(s.lists, RunQ(c))[0], stage := Landed), Pop(RunQ(c)), NoLock, Nobody)
    case SwIdle =>
      var a := Locking(me, cpu.(stage := Idling), Keep, Drop(RunqL(c)), Nobody);
      a.(cpu := a.cpu.(irqOff := false))
    case SwWake => Act(me, cpu.(stage := Relock, irqOff := true), Keep, NoLock, Nobody)
    case SwRelock => Locking(me, cpu.(stage := Pick), Keep, Take(RunqL(c)), Nobody)
    case SwLand => Locking(me.(st := Run), cpu.(stage := Cleaning), Keep, Drop(RunqL(c)), Nobody)
    case SwExorcise => Act(me, cpu, Pop(Zombies(c)), NoLock, Gone(Items(s.lists, Zombies(c))[0]))
    case SwFinish =>
      var l := Splx(LevelOf(me, cpu), me.saved);
      Act(SetLevel(me, l), cpu.(stage := Out, irqOff := l.irqOff), Keep, NoLock, Nobody)
  }

  datatype Event = Local(le: LocalEvent) | Wake(we: WakeEvent) | Mig(me: MigEvent) | Sw(se: SwitchEvent)

  predicate Enabled(s: State, c: Cpu, e: Event) {
    && c < |s.cpus| && s.cpus[c].cur in s.threads
    && var t := s.cpus[c].cur;
       match e
       case Local(le) => LocalOK(s, c, t, s.threads[t], s.cpus[c], le)
       case Wake(we) => WakeOK(s, c, t, s.threads[t], s.cpus[c], we)
       case Mig(me) => MigOK(s, c, t, s.threads[t], s.cpus[c], me)
       case Sw(se) => SwitchOK(s, c, t, s.threads[t], s.cpus[c], se)
  }

  function ActOf(s: State, c: Cpu, e: Event): (a: Act)
    requires Enabled(s, c, e)
    ensures CanApply(s.lists, a.op)
  {
    var t := s.cpus[c].cur;
    match e
    case Local(le) => LocalAct(c, t, s.threads[t], s.cpus[c], le)
    case Wake(we) => WakeAct(s, c, t, s.threads[t], s.cpus[c], we)
    case Mig(me) => MigAct(s, c, t, s.threads[t], s.cpus[c], me)
    case Sw(se) => SwitchAct(s, c, t, s.threads[t], s.cpus[c], se)
  }

  ghost predicate Next(s: State, s': State) {
    exists c, e :: Enabled(s, c, e) && s' == After(s, c, ActOf(s, c, e))
  }

  /** Each processor starts with its own thread, running, interrupts on, nothing linked. */
  ghost predicate Init(s: State) {
    && s.lists == map[] && s.holder == map[]
    && (forall c :: 0 <= c < |s.cpus| ==> s.cpus[c] == CpuState(c, Out, false))
    && (forall t :: t in s.threads <==> 0 <= t < |s.cpus|)
    && (forall t :: t in s.threads ==> s.threads[t] == Thread(t, Run, false, 0, false, Rest, Rest, false, false))
  }

  ghost predicate Goes(r: seq<State>, i: nat)
    requires i + 1 < |r|
  {
    Next(r[i], r[i + 1])
  }

  ghost predicate Execution(r: seq<State>) { r != [] && Init(r[0]) && forall i :: 0 <= i < |r| - 1 ==> Goes(r, i) }
}
