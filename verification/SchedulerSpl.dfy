/** The spl over whole executions: thread_switch returns with the spl it was called with,
    however long the thread was away, and an interrupt handler leaves it as it found it, even
    if the handler yields; a new thread starts with interrupts on. */
module SchedulerSpl {

  import opened Scheduler
  import Links = SchedulerLinks
  import Locks = SchedulerLocks
  import W = SchedulerWakeups

  /** Thread t runs its own code, or a handler's, and not thread_switch. */
  ghost predicate Outside(s: State, t: Tid) {
    && t in s.threads
    && var c := s.threads[t].cpu; c < |s.cpus| && s.cpus[c].cur == t && s.cpus[c].stage.Out?
  }

  /** Thread t is somewhere in thread_switch, or waits for its turn in there. */
  ghost predicate Away(s: State, t: Tid) { t in s.threads && !Outside(s, t) }

  /** Thread t has entered thread_switch from thread_exit. */
  ghost predicate Exiting(s: State, t: Tid) {
    && t in s.threads
    && var c := s.threads[t].cpu; c < |s.cpus| && s.cpus[c].cur == t && s.cpus[c].stage == Begin(ToZombie)
  }

  // ------------------------------------------------------------------- what one event does

  /** From th at stage g to th' at g': on the way out of thread_switch the spl becomes what was
      saved on the way in; only a handler's entry, its exit and an spl call change it besides. */
  predicate SplEffect(th: Thread, g: Stage, th': Thread, g': Stage) {
    && th'.cpu == th.cpu && (g.Out? ==> g'.Out? || g'.Begin?)
    && (!g.Out? ==> th'.saved == th.saved && (g'.Out? ==> th'.spl == th.saved && th'.intr == th.intr))
    && (g.Out? && g'.Begin? ==> th'.saved == (th.spl || g'.to.ToZombie?) && th'.intr == th.intr)
    && (th'.intr && !th.intr ==> g' == g && th'.adjust == !th.spl)
    && (th.intr && !th'.intr ==> g' == g && th'.spl == (th.spl && !th.adjust))
    && (th.intr && th'.intr ==> th'.adjust == th.adjust)
  }

  lemma LocalSpl(s: State, c: Cpu, e: LocalEvent)
    requires Enabled(s, c, Local(e))
    ensures var a := ActOf(s, c, Local(e)); SplEffect(s.threads[s.cpus[c].cur], s.cpus[c].stage, a.me, a.cpu.stage)
  {
  }

  lemma WakeSpl(s: State, c: Cpu, e: WakeEvent)
    requires Enabled(s, c, Wake(e))
    ensures var a := ActOf(s, c, Wake(e)); SplEffect(s.threads[s.cpus[c].cur], s.cpus[c].stage, a.me, a.cpu.stage)
  {
  }

  lemma MigSpl(s: State, c: Cpu, e: MigEvent)
    requires Enabled(s, c, Mig(e))
    ensures var a := ActOf(s, c, Mig(e)); SplEffect(s.threads[s.cpus[c].cur], s.cpus[c].stage, a.me, a.cpu.stage)
  {
  }

  lemma SwitchSpl(s: State, c: Cpu, e: SwitchEvent)
    requires Enabled(s, c, Sw(e))
    ensures var a := ActOf(s, c, Sw(e)); SplEffect(s.threads[s.cpus[c].cur], s.cpus[c].stage, a.me, a.cpu.stage)
  {
  }

  lemma EventSpl(s: State, c: Cpu, e: Event)
    requires Enabled(s, c, e)
    ensures var a := ActOf(s, c, e); SplEffect(s.threads[s.cpus[c].cur], s.cpus[c].stage, a.me, a.cpu.stage)
  {
    match e
    case Local(le) => LocalSpl(s, c, le);
    case Wake(we) => WakeSpl(s, c, we);
    case Mig(me) => MigSpl(s, c, me);
    case Sw(se) => SwitchSpl(s, c, se);
  }

  /** Everybody else keeps what is its own. */
  predicate SameSpl(th: Thread, th': Thread) {
    th'.spl == th.spl && th'.saved == th.saved && th'.intr == th.intr && th'.adjust == th.adjust
  }

  lemma OthersKeepSpl(s: State, c: Cpu, e: Event, t: Tid)
    requires Links.Inv(s) && Enabled(s, c, e) && t != s.cpus[c].cur
    requires t in s.threads && t in After(s, c, ActOf(s, c, e)).threads
    ensures SameSpl(s.threads[t], After(s, c, ActOf(s, c, e)).threads[t])
  {
    Links.EventDone(s, c, e);
    Links.OtherThreads(s, c, ActOf(s, c, e), t);
  }

  lemma PickLands(s: State, c: Cpu)
    requires Enabled(s, c, Sw(SwPick))
    ensures !After(s, c, ActOf(s, c, Sw(SwPick))).cpus[c].stage.Out?
  {
  }

  /** Nobody but the thread itself takes it into thread_switch, or out of it. */
  lemma OthersKeepAway(s: State, c: Cpu, e: Event, t: Tid)
    requires Links.Inv(s) && Enabled(s, c, e) && t != s.cpus[c].cur
    requires t in s.threads && t in After(s, c, ActOf(s, c, e)).threads
    ensures Outside(After(s, c, ActOf(s, c, e)), t) <==> Outside(s, t)
  {
    Links.EventDone(s, c, e);
    Links.OtherThreads(s, c, ActOf(s, c, e), t);
    if e == Sw(SwPick) { PickLands(s, c); } else { Locks.SameCurrent(s, c, e); }
  }

  /** What an event does to thread t, at its processor or elsewhere. */
  ghost predicate Passes(s: State, s': State, t: Tid)
    requires t in s.threads && t in s'.threads
  {
    var th, th' := s.threads[t], s'.threads[t];
    && (Away(s, t) ==> th'.saved == th.saved && (Outside(s', t) ==> th'.spl == th.saved))
    && (Outside(s, t) && Away(s', t) ==> th'.saved == (th.spl || Exiting(s', t)))
    && (th'.intr && !th.intr ==> th'.adjust == !th.spl)
    && (th.intr && !th'.intr ==> th'.spl == (th.spl && !th.adjust))
    && (th.intr && th'.intr ==> th'.adjust == th.adjust)
  }

  lemma OthersPass(s: State, c: Cpu, e: Event, t: Tid)
    requires Links.Inv(s) && Enabled(s, c, e) && t != s.cpus[c].cur
    requires t in s.threads && t in After(s, c, ActOf(s, c, e)).threads
    ensures Passes(s, After(s, c, ActOf(s, c, e)), t)
  {
    OthersKeepSpl(s, c, e, t);
    OthersKeepAway(s, c, e, t);
  }

  lemma OwnPasses(s: State, c: Cpu, a: Act)
    requires Links.CurOK(s.threads, s.cpus) && c < |s.cpus| && CanApply(s.lists, a.op)
    requires SplEffect(s.threads[s.cpus[c].cur], s.cpus[c].stage, a.me, a.cpu.stage)
    requires var t, s' := s.cpus[c].cur, After(s, c, a); t in s'.threads && s'.threads[t] == a.me
    requires s.cpus[c].stage.Out? ==> a.cpu.cur == s.cpus[c].cur
    ensures Passes(s, After(s, c, a), s.cpus[c].cur)
  {
  }

  lemma EventPasses(s: State, c: Cpu, e: Event, t: Tid)
    requires Links.Inv(s) && Enabled(s, c, e) && t in s.threads && t in After(s, c, ActOf(s, c, e)).threads
    ensures Passes(s, After(s, c, ActOf(s, c, e)), t)
  {
    if t == s.cpus[c].cur {
      EventSpl(s, c, e);
      if e != Sw(SwPick) { Locks.SameCurrent(s, c, e); }
      Links.EventDone(s, c, e);
      Links.ActorThread(s, c, ActOf(s, c, e));
      OwnPasses(s, c, ActOf(s, c, e));
    } else {
      OthersPass(s, c, e, t);
    }
  }

  lemma RunPasses(r: seq<State>, i: nat, t: Tid)
    requires Execution(r) && i + 1 < |r| && t in r[i].threads && t in r[i + 1].threads
    ensures Passes(r[i], r[i + 1], t)
  {
    var c, e := W.Steps(r, i);
    EventPasses(r[i], c, e, t);
  }

  // --------------------------------------------------------------------- in every execution

  lemma {:induction false} SavedUntilOut(r: seq<State>, i: nat, j: nat, t: Tid)
    requires Execution(r) && i < j < |r| && Away(r[i], t) && Outside(r[j], t)
    requires forall k :: i < k < j ==> Away(r[k], t)
    ensures r[j].threads[t].spl == r[i].threads[t].saved
    decreases j - i
  {
    if i + 1 < j {
      assert Away(r[i + 1], t);
      SavedUntilOut(r, i + 1, j, t);
    }
    RunPasses(r, i, t);
  }

  /** thread_switch, entered at i (by a thread that does not exit) and left at j, whatever the
      other processors and the interrupts in between, leaves the caller's spl as it was. */
  lemma SwitchRestoresSpl(r: seq<State>, i: nat, j: nat, t: Tid)
    requires Execution(r) && i + 1 < j < |r| && Outside(r[i], t) && Outside(r[j], t)
    requires forall k :: i < k < j ==> Away(r[k], t)
    requires !Exiting(r[i + 1], t)
    ensures r[j].threads[t].spl == r[i].threads[t].spl
  {
    assert Away(r[i + 1], t);
    RunPasses(r, i, t);
    SavedUntilOut(r, i + 1, j, t);
  }

  /** A handler that came in at i and left at j, yielding in between or not, leaves the spl of
      the thread it interrupted as it found it. */
  lemma HandlerRestoresSpl(r: seq<State>, i: nat, j: nat, t: Tid)
    requires Execution(r) && i + 1 < j < |r| && t in r[i].threads && !r[i].threads[t].intr
    requires forall k :: i < k < j ==> Handling(r[k], t)
    requires t in r[j].threads && !r[j].threads[t].intr
    ensures r[j].threads[t].spl == r[i].threads[t].spl
  {
    assert Handling(r[i + 1], t);
    RunPasses(r, i, t);
    AdjustsOnce(r, i + 1, j, t);
  }

  ghost predicate Handling(s: State, t: Tid) { t in s.threads && s.threads[t].intr }

  lemma HandlersAreHigh(r: seq<State>, i: nat, t: Tid)
    requires Execution(r) && i < |r| && Handling(r[i], t)
    ensures r[i].threads[t].spl
  {
    Locks.ExecutionKeepsLocks(r, i);
    if !Links.NotCurrent(r[i].cpus, t) {
      var c :| 0 <= c < |r[i].cpus| && r[i].cpus[c].cur == t;
      assert Locks.CpuOK(r[i], c);
    }
  }

  lemma {:induction false} AdjustsOnce(r: seq<State>, i: nat, j: nat, t: Tid)
    requires Execution(r) && i < j < |r| && t in r[j].threads && !r[j].threads[t].intr
    requires Handling(r[i], t) && forall k :: i < k < j ==> Handling(r[k], t)
    ensures r[j].threads[t].spl == !r[i].threads[t].adjust
    decreases j - i
  {
    HandlersAreHigh(r, i, t);
    if i + 1 < j {
      assert Handling(r[i + 1], t);
      RunPasses(r, i, t);
      AdjustsOnce(r, i + 1, j, t);
    } else {
      RunPasses(r, i, t);
    }
  }

  lemma NewThreadsSaved(s: State, c: Cpu, e: Event, t: Tid)
    requires Links.Inv(s) && Enabled(s, c, e) && t !in s.threads && t in After(s, c, ActOf(s, c, e)).threads
    ensures !After(s, c, ActOf(s, c, e)).threads[t].saved
  {
    Links.EventDone(s, c, e);
    Links.OtherThreads(s, c, ActOf(s, c, e), t);
  }

  lemma NewThreadSaves(r: seq<State>, i: nat, t: Tid)
    requires Execution(r) && i + 1 < |r| && t !in r[i].threads && t in r[i + 1].threads
    ensures !r[i + 1].threads[t].saved
  {
    var c, e := W.Steps(r, i);
    NewThreadsSaved(r[i], c, e, t);
  }

  /** A new thread comes out of thread_startup with interrupts on. */
  lemma NewThreadStartsLow(r: seq<State>, i: nat, j: nat, t: Tid)
    requires Execution(r) && i + 1 < j < |r| && t !in r[i].threads && Outside(r[j], t)
    requires forall k :: i < k < j ==> Away(r[k], t)
    ensures !r[j].threads[t].spl
  {
    assert Away(r[i + 1], t);
    NewThreadSaves(r, i, t);
    SavedUntilOut(r, i + 1, j, t);
  }

  /** Outside thread_switch and outside handlers, only the thread's own spl call changes its
      spl, to the level asked for. */
  lemma OnlySplCallsChangeSpl(r: seq<State>, i: nat, c: Cpu, e: Event, t: Tid)
    requires Execution(r) && i < |r| && Enabled(r[i], c, e) && Outside(r[i], t) && !Handling(r[i], t)
    requires var s' := After(r[i], c, ActOf(r[i], c, e)); Outside(s', t) && !Handling(s', t)
    ensures After(r[i], c, ActOf(r[i], c, e)).threads[t].spl ==
      if t == r[i].cpus[c].cur && e.Local? && e.le.SplTo? then e.le.high else r[i].threads[t].spl
  {
    var a := ActOf(r[i], c, e);
    Links.ExecutionKeepsInv(r, i);
    Links.EventDone(r[i], c, e);
    if t == r[i].cpus[c].cur {
      Links.ActorThread(r[i], c, a);
      OwnSpl(r[i], c, e);
    } else {
      OthersKeepSpl(r[i], c, e, t);
    }
  }

  lemma OwnSpl(s: State, c: Cpu, e: Event)
    requires Enabled(s, c, e) && s.cpus[c].stage.Out? && !s.threads[s.cpus[c].cur].intr
    ensures var a := ActOf(s, c, e);
      a.cpu.stage.Out? && !a.me.intr ==>
        a.me.spl == if e.Local? && e.le.SplTo? then e.le.high else s.threads[s.cpus[c].cur].spl
  {
    match e
    case Local(_) =>
    case Wake(_) =>
    case Mig(_) =>
    case Sw(_) =>
  }
}
