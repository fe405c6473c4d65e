/** No runnable thread is lost: a thread on a run queue, or in the hands of a migration,
    stays so until a processor picks it, and a migration makes nobody else runnable. */
module SchedulerRunnable {

  import opened Linking
  import opened Scheduler
  import Links = SchedulerLinks

  /** The run queues, and the victims in the hands of a migration under way. */
  predicate Ready(threads: map<Tid, Thread>, id: ListId) {
    id.RunQ? || (id.Held? && id.handler && id.t in threads && Links.Migrating(threads[id.t].htask))
  }

  ghost predicate Runnable(s: State, x: Tid) { exists id :: Ready(s.threads, id) && x in Items(s.lists, id) }

  /** Just picked from a run queue. */
  ghost predicate Picked(s: State, x: Tid) {
    exists c :: 0 <= c < |s.cpus| && s.cpus[c].cur == x && s.cpus[c].stage.Landed?
  }

  // --------------------------------------------------------------- one list operation

  lemma OnOneList(m: map<ListId, seq<Tid>>, a: ListId, b: ListId, x: Tid)
    requires Unique(m) && x in Items(m, a) && x in Items(m, b)
    ensures a == b
  {
  }

  lemma MoveItems(m: map<ListId, seq<Tid>>, op: ListOp, id: ListId, y: Tid)
    requires Unique(m) && op.Move? && CanApply(m, op)
    ensures var x := Taken(Items(m, op.src), op.fromHead).0;
      y in Items(Apply(m, op), id) <==> if y == x then id == op.dst else y in Items(m, id)
  {
    var l := Items(m, op.src);
    Links.TakenWithout(l, op.fromHead);
    if Taken(l, op.fromHead).0 in Items(m, id) { OnOneList(m, id, op.src, Taken(l, op.fromHead).0); }
  }

  lemma PopItems(m: map<ListId, seq<Tid>>, src: ListId, id: ListId, y: Tid)
    requires Unique(m) && Items(m, src) != []
    ensures y in Items(Apply(m, Pop(src)), id) <==> y != Items(m, src)[0] && y in Items(m, id)
  {
    var l := Items(m, src);
    Links.TakenWithout(l, true);
    if l[0] in Items(m, id) { OnOneList(m, id, src, l[0]); }
  }

  // ------------------------------------------------------------------------ one step

  /** What a step does to the hands of a migration: it ends at rest; what is taken from a
      list of runnable threads goes to another. */
  ghost predicate ReadyStep(s: State, c: Cpu, t: Tid, a: Act)
    requires t in s.threads
  {
    && (Links.Migrating(s.threads[t].htask) ==> Links.Migrating(a.me.htask) || a.me.htask.Rest?)
    && (a.op.Move? && Ready(s.threads, a.op.src) ==>
        a.op.dst.RunQ? || (a.op.dst == Held(t, true) && Links.Migrating(a.me.htask)))
    && (a.op.Pop? ==> a.op.src == Zombies(c) || (a.op.src == RunQ(c) && a.cpu.stage.Landed?))
  }

  lemma WakeReady(s: State, c: Cpu, e: WakeEvent)
    requires Links.Here(s, c) && Enabled(s, c, Wake(e))
    ensures ReadyStep(s, c, s.cpus[c].cur, ActOf(s, c, Wake(e)))
  {
  }

  lemma MigReady(s: State, c: Cpu, e: MigEvent)
    requires Links.Here(s, c) && Enabled(s, c, Mig(e))
    ensures ReadyStep(s, c, s.cpus[c].cur, ActOf(s, c, Mig(e)))
  {
  }

  lemma LocalReady(s: State, c: Cpu, e: LocalEvent)
    requires Links.Here(s, c) && Enabled(s, c, Local(e))
    ensures ReadyStep(s, c, s.cpus[c].cur, ActOf(s, c, Local(e)))
  {
  }

  lemma SwitchReady(s: State, c: Cpu, e: SwitchEvent)
    requires Links.Here(s, c) && Enabled(s, c, Sw(e))
    ensures ReadyStep(s, c, s.cpus[c].cur, ActOf(s, c, Sw(e)))
  {
  }

  lemma EventReady(s: State, c: Cpu, e: Event)
    requires Links.Inv(s) && Enabled(s, c, e)
    ensures ReadyStep(s, c, s.cpus[c].cur, ActOf(s, c, e))
  {
    assert Links.FrameOK(s.cpus, s.lists, s.cpus[c].cur, s.threads[s.cpus[c].cur]);
    match e
    case Wake(we) => WakeReady(s, c, we);
    case Mig(me) => MigReady(s, c, me);
    case Local(le) => LocalReady(s, c, le);
    case Sw(se) => SwitchReady(s, c, se);
  }

  /** The hands of the other threads stay as they are. */
  lemma OtherReady(s: State, c: Cpu, a: Act, id: ListId)
    requires Links.LinkInv(s) && Links.FramesOK(s.threads, s.cpus, s.lists)
    requires c < |s.cpus| && CanApply(s.lists, a.op) && Links.Done(s, c, a) && id.Held? && id.t != s.cpus[c].cur
    ensures Ready(After(s, c, a).threads, id) <==> Ready(s.threads, id)
  {
    var u, s' := id.t, After(s, c, a);
    if u in s'.threads { Links.OtherThreads(s, c, a, u); }
    if u in s.threads && u !in s'.threads {
      Links.SparedByStep(s, c, a, u);
      assert Links.FrameOK(s.cpus, s.lists, u, s.threads[u]);
    }
  }

  /** A list of runnable threads that still holds one is still such a list. */
  lemma StillReady(s: State, c: Cpu, a: Act, id: ListId, x: Tid)
    requires Links.LinkInv(s) && Links.FramesOK(s.threads, s.cpus, s.lists)
    requires c < |s.cpus| && CanApply(s.lists, a.op) && Links.Done(s, c, a) && ReadyStep(s, c, s.cpus[c].cur, a)
    requires Ready(s.threads, id) && x in Items(After(s, c, a).lists, id)
    ensures Ready(After(s, c, a).threads, id)
  {
    if id.Held? {
      if id.t == s.cpus[c].cur { Links.ActorThread(s, c, a); } else { OtherReady(s, c, a, id); }
    }
  }

  lemma StepKeepsRunnable(s: State, c: Cpu, a: Act, x: Tid)
    requires Links.LinkInv(s) && Links.FramesOK(s.threads, s.cpus, s.lists)
    requires c < |s.cpus| && CanApply(s.lists, a.op) && Links.Done(s, c, a) && ReadyStep(s, c, s.cpus[c].cur, a)
    requires Runnable(s, x)
    ensures Runnable(After(s, c, a), x) || (a.op.Pop? && a.cpu.cur == x && a.cpu.stage.Landed?)
  {
    var s' := After(s, c, a);
    var id :| Ready(s.threads, id) && x in Items(s.lists, id);
    if a.op.Move? {
      MoveItems(s.lists, a.op, id, x);
      MoveItems(s.lists, a.op, a.op.dst, x);
      if x == Taken(Items(s.lists, a.op.src), a.op.fromHead).0 {
        Links.HeadIn(s, a.op.src, a.op.fromHead);
        OnOneList(s.lists, id, a.op.src, x);
        Links.ActorThread(s, c, a);
        assert Ready(s'.threads, a.op.dst);
      } else {
        StillReady(s, c, a, id, x);
      }
    } else if a.op.Pop? && x == Items(s.lists, a.op.src)[0] {
      OnOneList(s.lists, id, a.op.src, x);
    } else {
      if a.op.Pop? { PopItems(s.lists, a.op.src, id, x); }
      StillReady(s, c, a, id, x);
    }
  }

  lemma EventKeepsRunnable(s: State, c: Cpu, e: Event, x: Tid)
    requires Links.Inv(s) && Enabled(s, c, e) && Runnable(s, x)
    ensures var s' := After(s, c, ActOf(s, c, e)); Runnable(s', x) || Picked(s', x)
  {
    Links.EventDone(s, c, e);
    EventReady(s, c, e);
    StepKeepsRunnable(s, c, ActOf(s, c, e), x);
    assert After(s, c, ActOf(s, c, e)).cpus[c] == ActOf(s, c, e).cpu;
  }

  lemma NextKeepsRunnable(s: State, s': State, x: Tid)
    requires Links.Inv(s) && Next(s, s') && Runnable(s, x)
    ensures Runnable(s', x) || Picked(s', x)
  {
    var c: Cpu, e: Event :| Enabled(s, c, e) && s' == After(s, c, ActOf(s, c, e));
    EventKeepsRunnable(s, c, e, x);
  }

  /** Migration takes from lists of runnable threads only, and starts with nothing in hand. */
  lemma MigTakesReady(s: State, c: Cpu, e: MigEvent)
    requires Links.Here(s, c) && Enabled(s, c, Mig(e))
    ensures var a := ActOf(s, c, Mig(e));
      (a.op.Keep? || a.op.Move?) && (a.op.Move? ==> Ready(s.threads, a.op.src))
  {
  }

  lemma MigMakesNobodyRunnable(s: State, c: Cpu, e: MigEvent, x: Tid)
    requires Links.Inv(s) && Enabled(s, c, Mig(e)) && Runnable(After(s, c, ActOf(s, c, Mig(e))), x)
    ensures Runnable(s, x)
  {
    var a, t := ActOf(s, c, Mig(e)), s.cpus[c].cur;
    var s' := After(s, c, a);
    var id :| Ready(s'.threads, id) && x in Items(s'.lists, id);
    assert Links.FrameOK(s.cpus, s.lists, t, s.threads[t]);
    Links.EventDone(s, c, Mig(e));
    MigTakesReady(s, c, e);
    Links.ActorThread(s, c, a);
    if a.op.Move? { MoveItems(s.lists, a.op, id, x); }
    if a.op.Move? && x == Taken(Items(s.lists, a.op.src), a.op.fromHead).0 {
      Links.HeadIn(s, a.op.src, a.op.fromHead);
      assert x in Items(s.lists, a.op.src);
    } else {
      if id.Held? && id.t != t { OtherReady(s, c, a, id); }
      assert Ready(s.threads, id);
    }
  }

  // ---------------------------------------------------------------- in every execution

  /** Whatever the other processors have done meanwhile, a step of thread_consider_migration
      leaves the set of runnable threads as it is. */
  lemma MigrationPreservesTheRunnable(r: seq<State>, i: nat, c: Cpu, e: MigEvent, x: Tid)
    requires Execution(r) && i < |r| && Enabled(r[i], c, Mig(e))
    ensures Runnable(After(r[i], c, ActOf(r[i], c, Mig(e))), x) <==> Runnable(r[i], x)
  {
    var s := r[i];
    Links.ExecutionKeepsInv(r, i);
    assert Links.FrameOK(s.cpus, s.lists, s.cpus[c].cur, s.threads[s.cpus[c].cur]);
    if Runnable(s, x) {
      Links.EventDone(s, c, Mig(e));
      EventReady(s, c, Mig(e));
      StepKeepsRunnable(s, c, ActOf(s, c, Mig(e)), x);
      MigTakesReady(s, c, e);
    }
    if Runnable(After(s, c, ActOf(s, c, Mig(e))), x) { MigMakesNobodyRunnable(s, c, e, x); }
  }

  /** And when it has come to rest it has nothing left in hand. */
  lemma HandlersAtRestHoldNobody(r: seq<State>, i: nat, t: Tid)
    requires Execution(r) && i < |r| && t in r[i].threads && r[i].threads[t].htask.Rest?
    ensures Items(r[i].lists, Held(t, true)) == []
  {
    Links.ExecutionKeepsInv(r, i);
    assert Links.FrameOK(r[i].cpus, r[i].lists, t, r[i].threads[t]);
  }

  lemma RunnableInTheNext(r: seq<State>, i: nat, x: Tid)
    requires Execution(r) && i + 1 < |r| && Runnable(r[i], x)
    ensures Runnable(r[i + 1], x) || Picked(r[i + 1], x)
  {
    Links.ExecutionKeepsInv(r, i);
    assert Goes(r, i);
    NextKeepsRunnable(r[i], r[i + 1], x);
  }

  /** A runnable thread stays runnable until some processor picks it. */
  lemma {:induction false} RunnableUntilPicked(r: seq<State>, i: nat, j: nat, x: Tid)
    requires Execution(r) && i <= j < |r| && Runnable(r[i], x)
    requires forall k :: i < k <= j ==> !Picked(r[k], x)
    ensures Runnable(r[j], x)
  {
    if i < j {
      RunnableUntilPicked(r, i, j - 1, x);
      RunnableInTheNext(r, j - 1, x);
    }
  }
}
