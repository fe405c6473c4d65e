/** Sleeping and waking over whole executions: a thread that sleeps on a channel is on that
    channel and no other until a wakeup of that channel takes it; a wakeup takes everybody
    there, or the first; and whom it takes, and whom a fork makes, is on a run queue before
    it returns. */
module SchedulerWakeups {

  import opened Linking
  import opened Scheduler
  import Links = SchedulerLinks
  import Locks = SchedulerLocks

  // ---------------------------------------------------------------- one event, on the lists

  /** The list that thread_switch puts a thread on. */
  function Destination(to: Target, c: Cpu): ListId {
    match to case ToReady => RunQ(c) case ToSleep(w) => Wait(w) case ToZombie => Zombies(c)
  }

  /** What an event does to a wait channel's list: nothing, or it adds the thread that is
      going to sleep there, or it hands the first to a thread that is waking that channel. */
  ghost predicate WaitEffect(s: State, s': State, c: Cpu, w: Wchan)
    requires c < |s.cpus| && s.cpus[c].cur in s.threads
  {
    var t, me, l, l' := s.cpus[c].cur, s.threads[s.cpus[c].cur], Items(s.lists, Wait(w)), Items(s'.lists, Wait(w));
    || l' == l
    || (s.cpus[c].stage == Locked(ToSleep(w)) && l' == l + [t])
    || (&& Active(me, s.cpus[c]) && CurTask(me).Waking? && CurTask(me).w == w && l != [] && l' == l[1..]
        && (CurTask(me).all || Items(s.lists, Held(t, me.intr)) == [])
        && Items(s'.lists, Held(t, me.intr)) == Items(s.lists, Held(t, me.intr)) + [l[0]])
  }

  lemma LocalWait(s: State, c: Cpu, e: LocalEvent, w: Wchan)
    requires Enabled(s, c, Local(e))
    ensures WaitEffect(s, After(s, c, ActOf(s, c, Local(e))), c, w)
  {
  }

  lemma WakeWait(s: State, c: Cpu, e: WakeEvent, w: Wchan)
    requires Enabled(s, c, Wake(e))
    ensures WaitEffect(s, After(s, c, ActOf(s, c, Wake(e))), c, w)
  {
  }

  lemma MigWait(s: State, c: Cpu, e: MigEvent, w: Wchan)
    requires Enabled(s, c, Mig(e))
    ensures WaitEffect(s, After(s, c, ActOf(s, c, Mig(e))), c, w)
  {
  }

  lemma SwitchWait(s: State, c: Cpu, e: SwitchEvent, w: Wchan)
    requires Enabled(s, c, Sw(e))
    ensures WaitEffect(s, After(s, c, ActOf(s, c, Sw(e))), c, w)
  {
  }

  lemma EventWait(s: State, c: Cpu, e: Event, w: Wchan)
    requires Enabled(s, c, e)
    ensures WaitEffect(s, After(s, c, ActOf(s, c, e)), c, w)
  {
    match e
    case Local(le) => LocalWait(s, c, le, w);
    case Wake(we) => WakeWait(s, c, we, w);
    case Mig(me) => MigWait(s, c, me, w);
    case Sw(se) => SwitchWait(s, c, se, w);
  }

  // ------------------------------------------------------------- one event, on a frame

  /** What a thread's own code is at, or the handler on its stack. */
  function TaskOf(th: Thread, h: bool): Task { if h then th.htask else th.task }

  /** From its task k, the list in hand l and the channel's list q of a frame, to k', l' and q':
      what the current thread does to a frame of its own. */
  ghost predicate FrameEffect(s: State, s': State, t: Tid, h: bool)
    requires t in s.threads && t in s'.threads
  {
    var k, k' := TaskOf(s.threads[t], h), TaskOf(s'.threads[t], h);
    var l, l' := Items(s.lists, Held(t, h)), Items(s'.lists, Held(t, h));
    && (k.Waking? ==>
          var q, q' := Items(s.lists, Wait(k.w)), Items(s'.lists, Wait(k.w));
          || (k' == k && l' == l && q' == q)
          || (k' == k && q != [] && l' == l + [q[0]] && q' == q[1..] && (k.all || l == []))
          || (k' == Waken && l' == l && q' == q && (q == [] || (!k.all && l != []))))
    && (k.Waken? ==>
          || (k' == k && l' == l)
          || (&& k' == k && l != [] && l' == l[1..] && l[0] in s.threads
              && Items(s'.lists, RunQ(s.threads[l[0]].cpu)) == Items(s.lists, RunQ(s.threads[l[0]].cpu)) + [l[0]])
          || (k' == Rest && l == l' == []))
    && (k'.Waking? && k != k' ==> k.Rest? && l' == l && s'.lists == s.lists)
  }

  /** A frame that wakes a channel is the one that runs. */
  ghost predicate WakerRuns(s: State, c: Cpu, h: bool)
    requires c < |s.cpus| && s.cpus[c].cur in s.threads
  {
    var me := s.threads[s.cpus[c].cur];
    TaskOf(me, h).Waking? ==> me.intr == h && Active(me, s.cpus[c])
  }

  lemma LocalFrame(s: State, c: Cpu, e: LocalEvent, h: bool)
    requires Links.Here(s, c) && WakerRuns(s, c, h) && Enabled(s, c, Local(e))
    requires s.cpus[c].cur in After(s, c, ActOf(s, c, Local(e))).threads
    ensures FrameEffect(s, After(s, c, ActOf(s, c, Local(e))), s.cpus[c].cur, h)
  {
  }

  lemma WakeFrame(s: State, c: Cpu, e: WakeEvent, h: bool)
    requires Links.Here(s, c) && WakerRuns(s, c, h) && Enabled(s, c, Wake(e))
    ensures FrameEffect(s, After(s, c, ActOf(s, c, Wake(e))), s.cpus[c].cur, h)
  {
  }

  lemma MigFrame(s: State, c: Cpu, e: MigEvent, h: bool)
    requires Links.Here(s, c) && WakerRuns(s, c, h) && Enabled(s, c, Mig(e))
    requires s.cpus[c].cur in After(s, c, ActOf(s, c, Mig(e))).threads
    requires After(s, c, ActOf(s, c, Mig(e))).threads[s.cpus[c].cur] == ActOf(s, c, Mig(e)).me
    ensures FrameEffect(s, After(s, c, ActOf(s, c, Mig(e))), s.cpus[c].cur, h)
  {
  }

  lemma SwitchFrame(s: State, c: Cpu, e: SwitchEvent, h: bool)
    requires Links.Here(s, c) && WakerRuns(s, c, h) && Enabled(s, c, Sw(e))
    requires s.cpus[c].cur in After(s, c, ActOf(s, c, Sw(e))).threads
    requires After(s, c, ActOf(s, c, Sw(e))).threads[s.cpus[c].cur] == ActOf(s, c, Sw(e)).me
    ensures FrameEffect(s, After(s, c, ActOf(s, c, Sw(e))), s.cpus[c].cur, h)
  {
  }

  lemma OwnFrame(s: State, c: Cpu, e: Event, h: bool)
    requires Links.Inv(s) && Enabled(s, c, e) && WakerRuns(s, c, h)
    ensures var t, s' := s.cpus[c].cur, After(s, c, ActOf(s, c, e)); t in s'.threads && FrameEffect(s, s', t, h)
  {
    var a := ActOf(s, c, e);
    assert Links.FrameOK(s.cpus, s.lists, s.cpus[c].cur, s.threads[s.cpus[c].cur]);
    Links.EventDone(s, c, e);
    Links.ActorThread(s, c, a);
    match e
    case Local(le) => LocalFrame(s, c, le, h);
    case Wake(we) => WakeFrame(s, c, we, h);
    case Mig(me) => MigFrame(s, c, me, h);
    case Sw(se) => SwitchFrame(s, c, se, h);
  }

  predicate Busy(k: Task) { k.Waking? || k.Waken? }

  /** A frame at work stays as it is while its thread is not the one that steps. */
  lemma OtherFrame(s: State, c: Cpu, e: Event, t: Tid, h: bool)
    requires Links.Inv(s) && Enabled(s, c, e) && t in s.threads && t != s.cpus[c].cur && Busy(TaskOf(s.threads[t], h))
    ensures var s' := After(s, c, ActOf(s, c, e));
      && t in s'.threads && TaskOf(s'.threads[t], h) == TaskOf(s.threads[t], h)
      && Items(s'.lists, Held(t, h)) == Items(s.lists, Held(t, h))
  {
    var a := ActOf(s, c, e);
    Links.EventDone(s, c, e);
    assert Links.FrameOK(s.cpus, s.lists, t, s.threads[t]);
    if t !in After(s, c, a).threads {
      Links.SparedByStep(s, c, a, t);
      assert false;
    }
    Links.OtherThreads(s, c, a, t);
    Links.OtherLists(s, c, a, t, h, 0);
  }

  // ------------------------------------------------------- who may touch a channel's list

  /** A frame that wakes a channel runs on its processor, which holds the channel's lock. */
  lemma WakerHolds(s: State, t: Tid, h: bool)
    requires Links.Inv(s) && Locks.LockInv(s) && t in s.threads && TaskOf(s.threads[t], h).Waking?
    ensures var th, l := s.threads[t], WchanL(TaskOf(s.threads[t], h).w);
      && th.cpu < |s.cpus| && s.cpus[th.cpu].cur == t && th.intr == h && Active(th, s.cpus[th.cpu])
      && l in s.holder && s.holder[l] == th.cpu
  {
    var th := s.threads[t];
    assert Links.FrameOK(s.cpus, s.lists, t, th);
    if h {
      assert Locks.CpuOK(s, th.cpu);
    } else {
      assert Links.NotCurrent(s.cpus, t) ==> Locks.OffOK(th);
      var c :| 0 <= c < |s.cpus| && s.cpus[c].cur == t;
      assert th.cpu == c && Locks.CpuOK(s, c);
    }
    assert WchanL(TaskOf(th, h).w) in HeldBy(s.holder, th.cpu);
  }

  lemma SleeperHolds(s: State, c: Cpu, w: Wchan)
    requires Locks.LockInv(s) && c < |s.cpus| && s.cpus[c].stage == Locked(ToSleep(w))
    ensures WchanL(w) in s.holder && s.holder[WchanL(w)] == c
  {
    assert Locks.CpuOK(s, c);
    assert WchanL(w) in HeldBy(s.holder, c);
  }

  /** While a frame of t wakes channel w, no other processor touches its list. */
  lemma OnlyTheWaker(s: State, c: Cpu, e: Event, t: Tid, h: bool)
    requires Links.Inv(s) && Locks.LockInv(s) && Enabled(s, c, e) && t in s.threads && t != s.cpus[c].cur
    requires TaskOf(s.threads[t], h).Waking?
    ensures var w := TaskOf(s.threads[t], h).w;
      Items(After(s, c, ActOf(s, c, e)).lists, Wait(w)) == Items(s.lists, Wait(w))
  {
    var w, me := TaskOf(s.threads[t], h).w, s.threads[s.cpus[c].cur];
    WakerHolds(s, t, h);
    EventWait(s, c, e, w);
    if s.cpus[c].stage == Locked(ToSleep(w)) { SleeperHolds(s, c, w); }
    if CurTask(me).Waking? && CurTask(me).w == w { WakerHolds(s, s.cpus[c].cur, me.intr); }
  }

  // ------------------------------------------------------------------ a wakeup gathers

  /** While it holds the channel's lock: what it has in hand and what is left are what was
      there when it began, in that order; a wakeup of one takes one at most. */
  ghost predicate Gathering(s: State, t: Tid, h: bool, w: Wchan, all: bool, l: seq<Tid>) {
    && t in s.threads && TaskOf(s.threads[t], h) == Waking(w, all)
    && Items(s.lists, Held(t, h)) + Items(s.lists, Wait(w)) == l
    && (all || |Items(s.lists, Held(t, h))| <= 1)
  }

  /** How many of l a wakeup takes. */
  function Share(all: bool, l: seq<Tid>): nat { if all then |l| else if l == [] then 0 else 1 }

  /** It has let go of the channel, and has its share in hand. */
  ghost predicate Gathered(s: State, t: Tid, h: bool, w: Wchan, all: bool, l: seq<Tid>) {
    && t in s.threads && TaskOf(s.threads[t], h) == Waken
    && Items(s.lists, Held(t, h)) == l[..Share(all, l)] && Items(s.lists, Wait(w)) == l[Share(all, l)..]
  }

  lemma GatherOwn(s: State, s': State, t: Tid, h: bool, w: Wchan, all: bool, l: seq<Tid>)
    requires Gathering(s, t, h, w, all, l) && t in s'.threads && FrameEffect(s, s', t, h)
    ensures Gathering(s', t, h, w, all, l) || Gathered(s', t, h, w, all, l)
  {
    var hand, q := Items(s.lists, Held(t, h)), Items(s.lists, Wait(w));
    if q != [] { assert hand + q == (hand + [q[0]]) + q[1..]; }
    if TaskOf(s'.threads[t], h) == Waken {
      assert l[..|hand|] == hand && l[|hand|..] == q;
      assert |hand| == Share(all, l);
    }
  }

  lemma GatherStep(s: State, c: Cpu, e: Event, t: Tid, h: bool, w: Wchan, all: bool, l: seq<Tid>)
    requires Links.Inv(s) && Locks.LockInv(s) && Enabled(s, c, e) && Gathering(s, t, h, w, all, l)
    ensures var s' := After(s, c, ActOf(s, c, e));
      Gathering(s', t, h, w, all, l) || Gathered(s', t, h, w, all, l)
  {
    WakerHolds(s, t, h);
    if t == s.cpus[c].cur {
      OwnFrame(s, c, e, h);
      GatherOwn(s, After(s, c, ActOf(s, c, e)), t, h, w, all, l);
    } else {
      OtherFrame(s, c, e, t, h);
      OnlyTheWaker(s, c, e, t, h);
    }
  }

  // -------------------------------------------------------- and makes them runnable

  ghost predicate OnRunQueue(s: State, x: Tid) { exists d :: x in Items(s.lists, RunQ(d)) }

  /** One step of a frame that makes threads runnable: whoever leaves its hand is on the run
      queue of its processor, and it is not done while anyone is in its hand. */
  lemma WakenStep(s: State, c: Cpu, e: Event, t: Tid, h: bool, x: Tid)
    requires Links.Inv(s) && Enabled(s, c, e) && t in s.threads && TaskOf(s.threads[t], h) == Waken
    requires x in Items(s.lists, Held(t, h))
    ensures var s' := After(s, c, ActOf(s, c, e));
      && t in s'.threads
      && ((TaskOf(s'.threads[t], h) == Waken && x in Items(s'.lists, Held(t, h))) || OnRunQueue(s', x))
  {
    if t == s.cpus[c].cur {
      OwnFrame(s, c, e, h);
      var s', l := After(s, c, ActOf(s, c, e)), Items(s.lists, Held(t, h));
      if Items(s'.lists, Held(t, h)) != l {
        if x == l[0] { assert x in Items(s'.lists, RunQ(s.threads[x].cpu)); }
      }
    } else {
      OtherFrame(s, c, e, t, h);
    }
  }

  // --------------------------------------------------------------- in every execution

  lemma Steps(r: seq<State>, i: nat) returns (c: Cpu, e: Event)
    requires Execution(r) && i + 1 < |r|
    ensures Links.Inv(r[i]) && Locks.LockInv(r[i]) && Enabled(r[i], c, e)
    ensures r[i + 1] == After(r[i], c, ActOf(r[i], c, e))
  {
    assert Goes(r, i);
    Links.ExecutionKeepsInv(r, i);
    Locks.ExecutionKeepsLocks(r, i);
    c, e :| Enabled(r[i], c, e) && r[i + 1] == After(r[i], c, ActOf(r[i], c, e));
  }

  /** One processor in thread_switch: from g in s to g' in s', if it moves at all. */
  ghost predicate StageEffect(s: State, s': State, c: Cpu)
    requires c < |s.cpus| && c < |s'.cpus|
  {
    var g, g', t := s.cpus[c].stage, s'.cpus[c].stage, s.cpus[c].cur;
    var q, q' := Items(s.lists, RunQ(c)), Items(s'.lists, RunQ(c));
    && (!g.Pick? ==> s'.cpus[c].cur == t)
    && (g.Out? ==> g' == g || g'.Begin?)
    && (g.Begin? ==> g' == g || g' == Locked(g.to))
    && (g.Locked? ==>
          || g' == g
          || (g'.Out? && g.to.ToReady? && q == [] && s'.lists == s.lists)
          || (&& g'.Pick? && !(g.to.ToReady? && q == [])
              && Items(s'.lists, Destination(g.to, c)) == Items(s.lists, Destination(g.to, c)) + [t]
              && forall id :: id != Destination(g.to, c) ==> Items(s'.lists, id) == Items(s.lists, id)))
    && (g.Pick? ==>
          || (g' == g && s'.cpus[c].cur == t)
          || (g'.Landed? && q != [] && s'.cpus[c].cur == q[0] && q' == q[1..])
          || (g'.Idling? && q == [] && s'.cpus[c].cur == t))
    && (g.Idling? ==> g' == g || g'.Relock?) && (g.Relock? ==> g' == g || g'.Pick?)
    && (g.Landed? ==> g' == g || g'.Cleaning?)
    && (g.Cleaning? ==> g' == g || (g'.Out? && Items(s.lists, Zombies(c)) == []))
  }

  lemma SwitchStage(s: State, c: Cpu, e: SwitchEvent)
    requires Links.Here(s, c) && Enabled(s, c, Sw(e))
    ensures StageEffect(s, After(s, c, ActOf(s, c, Sw(e))), c)
  {
  }

  lemma EventStage(s: State, c: Cpu, e: Event, d: Cpu)
    requires Links.Inv(s) && Enabled(s, c, e) && d < |s.cpus|
    ensures StageEffect(s, After(s, c, ActOf(s, c, e)), d)
  {
    if c != d {
      assert After(s, c, ActOf(s, c, e)).cpus[d] == s.cpus[d];
    } else if e.Sw? {
      assert Links.FrameOK(s.cpus, s.lists, s.cpus[c].cur, s.threads[s.cpus[c].cur]);
      SwitchStage(s, c, e.se);
    } else {
      SameStage(s, c, e);
    }
  }

  lemma SameStage(s: State, c: Cpu, e: Event)
    requires Enabled(s, c, e) && !e.Sw?
    ensures var cpu := After(s, c, ActOf(s, c, e)).cpus[c]; cpu.stage == s.cpus[c].stage && cpu.cur == s.cpus[c].cur
  {
  }

  /** thread_switch: the thread that asks to sleep on a channel is put last on that channel's
      list, one that yields on the run queue, one that exits among the zombies, and no other
      list changes; then the first on the run queue is switched to, as soon as there is one. */
  lemma SwitchGoesOn(r: seq<State>, i: nat, c: Cpu)
    requires Execution(r) && i + 1 < |r| && c < |r[i].cpus|
    ensures c < |r[i + 1].cpus| && StageEffect(r[i], r[i + 1], c)
  {
    var d, e := Steps(r, i);
    EventStage(r[i], d, e, c);
  }

  /** A thread on a channel's list stays there until a wakeup of that channel takes it, which
      takes the first. */
  lemma AsleepUntilWoken(r: seq<State>, i: nat, w: Wchan, x: Tid) returns (t: Tid, h: bool)
    requires Execution(r) && i + 1 < |r| && x in Items(r[i].lists, Wait(w)) && x !in Items(r[i + 1].lists, Wait(w))
    ensures t in r[i].threads && TaskOf(r[i].threads[t], h).Waking? && TaskOf(r[i].threads[t], h).w == w
    ensures x == Items(r[i].lists, Wait(w))[0] && x in Items(r[i + 1].lists, Held(t, h))
  {
    var c, e := Steps(r, i);
    EventWait(r[i], c, e, w);
    t := r[i].cpus[c].cur;
    h := r[i].threads[t].intr;
  }

  /** A frame begins a wakeup with nothing in hand. */
  lemma WakeupBegins(r: seq<State>, i: nat, t: Tid, h: bool, w: Wchan, all: bool)
    requires Execution(r) && i + 1 < |r| && t in r[i].threads && TaskOf(r[i].threads[t], h).Rest?
    requires t in r[i + 1].threads && TaskOf(r[i + 1].threads[t], h) == Waking(w, all)
    ensures Gathering(r[i + 1], t, h, w, all, Items(r[i + 1].lists, Wait(w)))
    ensures Items(r[i + 1].lists, Wait(w)) == Items(r[i].lists, Wait(w))
  {
    var c, e := Steps(r, i);
    assert Links.FrameOK(r[i].cpus, r[i].lists, t, r[i].threads[t]);
    if t == r[i].cpus[c].cur {
      OwnFrame(r[i], c, e, h);
    } else {
      Links.EventDone(r[i], c, e);
      Links.OtherThreads(r[i], c, ActOf(r[i], c, e), t);
    }
    var q := Items(r[i + 1].lists, Wait(w));
    assert [] + q == q;
  }

  lemma RunGathers(r: seq<State>, i: nat, t: Tid, h: bool, w: Wchan, all: bool, l: seq<Tid>)
    requires Execution(r) && i + 1 < |r| && Gathering(r[i], t, h, w, all, l)
    ensures Gathering(r[i + 1], t, h, w, all, l) || Gathered(r[i + 1], t, h, w, all, l)
  {
    var c, e := Steps(r, i);
    GatherStep(r[i], c, e, t, h, w, all, l);
  }

  lemma RunWakens(r: seq<State>, i: nat, t: Tid, h: bool, x: Tid)
    requires Execution(r) && i + 1 < |r| && t in r[i].threads && TaskOf(r[i].threads[t], h) == Waken
    requires x in Items(r[i].lists, Held(t, h))
    ensures t in r[i + 1].threads
    ensures || (TaskOf(r[i + 1].threads[t], h) == Waken && x in Items(r[i + 1].lists, Held(t, h)))
            || OnRunQueue(r[i + 1], x)
  {
    var c, e := Steps(r, i);
    WakenStep(r[i], c, e, t, h, x);
  }

  /** When a wakeup lets go of the channel it has everybody who was there when it took hold of
      it, or, waking one, the first alone; the others are still there. */
  lemma {:induction false} WakeupTakesItsShare(r: seq<State>, i: nat, j: nat, t: Tid, h: bool, w: Wchan, all: bool)
    requires Execution(r) && i + 1 < j < |r| && t in r[i].threads && TaskOf(r[i].threads[t], h).Rest?
    requires forall m :: i < m < j ==> t in r[m].threads && TaskOf(r[m].threads[t], h) == Waking(w, all)
    requires t in r[j].threads && !TaskOf(r[j].threads[t], h).Waking?
    ensures Gathered(r[j], t, h, w, all, Items(r[i].lists, Wait(w)))
  {
    WakeupBegins(r, i, t, h, w, all);
    StillGathers(r, i + 1, j - 1, t, h, w, all, Items(r[i].lists, Wait(w)));
    RunGathers(r, j - 1, t, h, w, all, Items(r[i].lists, Wait(w)));
  }

  lemma {:induction false} StillGathers(r: seq<State>, i: nat, j: nat, t: Tid, h: bool, w: Wchan, all: bool,
      l: seq<Tid>)
    requires Execution(r) && i <= j < |r| && Gathering(r[i], t, h, w, all, l)
    requires forall m :: i <= m <= j ==> t in r[m].threads && TaskOf(r[m].threads[t], h) == Waking(w, all)
    ensures Gathering(r[j], t, h, w, all, l)
  {
    if i < j {
      StillGathers(r, i, j - 1, t, h, w, all, l);
      RunGathers(r, j - 1, t, h, w, all, l);
    }
  }

  /** Whoever is in the hand of a frame that makes threads runnable has been on a run queue
      by the time that frame is at rest. */
  lemma {:induction false} MadeRunnable(r: seq<State>, i: nat, j: nat, t: Tid, h: bool, x: Tid) returns (k: nat)
    requires Execution(r) && i <= j < |r| && t in r[i].threads && TaskOf(r[i].threads[t], h) == Waken
    requires x in Items(r[i].lists, Held(t, h)) && t in r[j].threads && TaskOf(r[j].threads[t], h).Rest?
    ensures i < k <= j && OnRunQueue(r[k], x)
    decreases j - i
  {
    RunWakens(r, i, t, h, x);
    if OnRunQueue(r[i + 1], x) {
      k := i + 1;
    } else {
      k := MadeRunnable(r, i + 1, j, t, h, x);
    }
  }

  /** A wakeup from beginning to end: everybody who was on the channel when it took hold of
      it, or, waking one, the first, has been put on a run queue when it is done. */
  lemma WakeupWakes(r: seq<State>, i: nat, j: nat, t: Tid, h: bool, w: Wchan, all: bool, x: Tid) returns (k: nat)
    requires Execution(r) && i + 1 < j < |r| && t in r[i].threads && TaskOf(r[i].threads[t], h).Rest?
    requires t in r[i + 1].threads && TaskOf(r[i + 1].threads[t], h) == Waking(w, all)
    requires t in r[j].threads && TaskOf(r[j].threads[t], h).Rest?
    requires var q := Items(r[i].lists, Wait(w)); x in q && (all || x == q[0])
    ensures i < k <= j && OnRunQueue(r[k], x)
  {
    var l := Items(r[i].lists, Wait(w));
    WakeupBegins(r, i, t, h, w, all);
    var m := Unlocks(r, i + 1, j, t, h, w, all, l);
    assert x in l[..Share(all, l)];
    k := MadeRunnable(r, m, j, t, h, x);
  }

  lemma {:induction false} Unlocks(r: seq<State>, i: nat, j: nat, t: Tid, h: bool, w: Wchan, all: bool, l: seq<Tid>)
    returns (m: nat)
    requires Execution(r) && i <= j < |r| && Gathering(r[i], t, h, w, all, l)
    requires t in r[j].threads && TaskOf(r[j].threads[t], h).Rest?
    ensures i < m <= j && Gathered(r[m], t, h, w, all, l)
    decreases j - i
  {
    RunGathers(r, i, t, h, w, all, l);
    if Gathered(r[i + 1], t, h, w, all, l) {
      m := i + 1;
    } else {
      m := Unlocks(r, i + 1, j, t, h, w, all, l);
    }
  }

  /** A new thread is in the hand of the thread that forks it. */
  lemma ForkedInHand(r: seq<State>, i: nat, n: Tid) returns (t: Tid)
    requires Execution(r) && i + 1 < |r| && n !in r[i].threads && n in r[i + 1].threads
    ensures t in r[i].threads && t in r[i + 1].threads && TaskOf(r[i + 1].threads[t], false) == Waken
    ensures n in Items(r[i + 1].lists, Held(t, false))
    ensures r[i + 1].threads[n].cpu == r[i].threads[t].cpu && r[i + 1].threads[n].st == RunState.Ready
  {
    var c, e := Steps(r, i);
    t := r[i].cpus[c].cur;
    assert Links.FrameOK(r[i].cpus, r[i].lists, t, r[i].threads[t]);
    NewcomerIs(r[i], c, e, n);
  }

  lemma NewcomerIs(s: State, c: Cpu, e: Event, n: Tid)
    requires Links.Here(s, c) && Enabled(s, c, e) && n !in s.threads && n in After(s, c, ActOf(s, c, e)).threads
    ensures e == Local(Fork(n))
  {
  }

  /** A fork puts the new thread on a run queue before it returns. */
  lemma ForkedIsRunnable(r: seq<State>, i: nat, j: nat, n: Tid) returns (t: Tid, k: nat)
    requires Execution(r) && i + 1 < j < |r| && n !in r[i].threads && n in r[i + 1].threads
    ensures t in r[i + 1].threads && TaskOf(r[i + 1].threads[t], false) == Waken
    ensures t in r[j].threads && TaskOf(r[j].threads[t], false).Rest? ==> i + 1 < k <= j && OnRunQueue(r[k], n)
  {
    t := ForkedInHand(r, i, n);
    k := 0;
    if t in r[j].threads && TaskOf(r[j].threads[t], false).Rest? { k := MadeRunnable(r, i + 1, j, t, false, n); }
  }
}
