/** The steps of thread_consider_migration in the step system, when no other processor comes in
    between, do to the run queues what its loops do to them. */
module SchedulerMigration {

  import opened Arithmetic
  import opened Linking
  import opened Scheduler
  import Links = SchedulerLinks
  import M = Migration

  /** The run queues of all processors. */
  function Queues(s: State): seq<seq<Tid>> {
    seq(|s.cpus|, d requires 0 <= d < |s.cpus| => Items(s.lists, RunQ(d)))
  }

  /** The victims in hand of the handler on t's stack. */
  function Hand(s: State, t: Tid): seq<Tid> { Items(s.lists, Held(t, true)) }

  function FairShare(q: seq<seq<Tid>>): int
    requires |q| > 0
  {
    DivRoundUp(M.Total(q), |q|)
  }

  /** What is to come of the queues q0, as method ConsiderMigration has it: a processor below
      a share changes nothing; any other keeps its first threads, a share of them, and its
      current thread if that is among the rest; all others go to the ends of queues below a
      share. */
  ghost predicate Outcome(q0: seq<seq<Tid>>, q: seq<seq<Tid>>, c: Cpu, t: Tid)
    requires c < |q0|
  {
    var share, mine := FairShare(q0), q0[c];
    && |q| == |q0| && M.Threads(q) == M.Threads(q0)
    && (|mine| < share ==> q == q0)
    && (|mine| >= share ==>
          && 0 <= share && q[c] == mine[..share] + (if t in mine[share..] then [t] else [])
          && M.Grown(q0, q, c, share))
  }

  // ----------------------------------------------------------------- while it goes on

  ghost predicate Kept(q0: seq<seq<Tid>>, c: Cpu, share: int, send: int)
    requires 0 < |q0| && c < |q0|
  {
    share == FairShare(q0) && 0 <= share <= |q0[c]| && send == |q0[c]| - share
  }

  /** The queues once the victims are taken, and the victims. */
  function Cut(q0: seq<seq<Tid>>, c: Cpu, share: int): seq<seq<Tid>>
    requires c < |q0| && 0 <= share <= |q0[c]|
  {
    q0[c := q0[c][..share]]
  }

  /** Handing out, with `whole` queues from i on as they were. */
  ghost predicate Handing(q1: seq<seq<Tid>>, q: seq<seq<Tid>>, c: Cpu, share: int, i: nat, whole: nat,
      v0: seq<Tid>, v: seq<Tid>, send: int, t: Tid)
  {
    && 0 <= share && 0 <= send <= |v| && i <= whole <= |q1| && c < |q1|
    && M.InHand(v, send, t, |v| > send) && M.Grown(q1, q, c, share) && q[c] == q1[c]
    && q[whole..] == q1[whole..] && send <= M.Room(q, c, share, i) && (t in v <==> t in v0)
    && M.Threads(q) + multiset(v) == M.Threads(q1) + multiset(v0)
  }

  /** Nothing is left to hand out. */
  ghost predicate HandedOut(q1: seq<seq<Tid>>, q: seq<seq<Tid>>, c: Cpu, share: int, v0: seq<Tid>,
      left: seq<Tid>, t: Tid)
  {
    && 0 <= share && c < |q1| && M.Grown(q1, q, c, share) && q[c] == q1[c]
    && left == (if t in v0 then [t] else []) && M.Threads(q) + multiset(left) == M.Threads(q1) + multiset(v0)
  }

  /** From the queues q0 to q, with v in hand, by where the handler is. */
  ghost predicate Progress(q0: seq<seq<Tid>>, q: seq<seq<Tid>>, v: seq<Tid>, k: Task, c: Cpu, t: Tid)
    requires c < |q0|
  {
    match k
    case Count(i, total, mine) =>
      q == q0 && v == [] && i <= |q0| && total == M.Total(q0[..i]) && mine == (if i > c then |q0[c]| else 0)
    case TakeWant(send, share) => q == q0 && v == [] && Kept(q0, c, share, send)
    case TakeAt(n, send, share) =>
      && Kept(q0, c, share, send) && 0 <= n <= send
      && q == q0[c := q0[c][..|q0[c]| - n]] && v == q0[c][|q0[c]| - n..]
    case Give(i, send, share) =>
      && FairShare(q0) == share && 0 <= share <= |q0[c]|
      && Handing(Cut(q0, c, share), q, c, share, i, i, q0[c][share..], v, send, t)
    case GiveAt(i, send, share) =>
      && FairShare(q0) == share && 0 <= share <= |q0[c]| && i < |q0| && i != c
      && Handing(Cut(q0, c, share), q, c, share, i, i + 1, q0[c][share..], v, send, t)
    case Back => v != [] && ToPutBack(q0, q, c, v, t)
    case BackAt => if v == [] then Outcome(q0, q, c, t) else ToPutBack(q0, q, c, v, t)
    case Rest => Outcome(q0, q, c, t)
    case _ => false
  }

  ghost predicate ToPutBack(q0: seq<seq<Tid>>, q: seq<seq<Tid>>, c: Cpu, v: seq<Tid>, t: Tid)
    requires c < |q0|
  {
    var share := FairShare(q0);
    0 <= share <= |q0[c]| && HandedOut(Cut(q0, c, share), q, c, share, q0[c][share..], v, t)
  }

  /** From q0 to the state s. */
  ghost predicate Phase(q0: seq<seq<Tid>>, s: State, c: Cpu, t: Tid) {
    && c < |s.cpus| && |s.cpus| == |q0| && s.cpus[c].cur == t && t in s.threads && NoDup(q0[c])
    && Progress(q0, Queues(s), Hand(s, t), s.threads[t].htask, c, t)
  }

  // ------------------------------------------------------------- one list operation

  lemma MovedQueues(s: State, s': State, op: ListOp, d: Cpu)
    requires op.Move? && CanApply(s.lists, op) && s'.lists == Apply(s.lists, op) && |s'.cpus| == |s.cpus|
    requires op.src == RunQ(d) && !op.dst.RunQ? && d < |s.cpus|
    ensures Queues(s') == Queues(s)[d := Taken(Items(s.lists, op.src), op.fromHead).1]
  {
  }

  lemma SentQueues(s: State, s': State, op: ListOp, d: Cpu)
    requires op.Move? && CanApply(s.lists, op) && s'.lists == Apply(s.lists, op) && |s'.cpus| == |s.cpus|
    requires !op.src.RunQ? && op.dst == RunQ(d) && d < |s.cpus| && op.toTail
    ensures Queues(s') == Queues(s)[d := Queues(s)[d] + [Taken(Items(s.lists, op.src), op.fromHead).0]]
  {
  }

  lemma SameQueues(s: State, s': State)
    requires |s'.cpus| == |s.cpus|
    requires forall d :: 0 <= d < |s.cpus| ==> Items(s'.lists, RunQ(d)) == Items(s.lists, RunQ(d))
    ensures Queues(s') == Queues(s)
  {
  }

  // ----------------------------------------------------------------------- each event

  lemma CountStep(q0: seq<seq<Tid>>, s: State, c: Cpu, t: Tid, e: MigEvent)
    requires Phase(q0, s, c, t) && Enabled(s, c, Mig(e)) && (e.MigLook? || e.MigDecide?)
    ensures Phase(q0, After(s, c, ActOf(s, c, Mig(e))), c, t)
  {
    var k := s.threads[t].htask;
    if e.MigLook? {
      assert Queues(s)[k.i] == Items(s.lists, RunQ(k.i));
      M.TotalAppend(q0[..k.i], q0[k.i]);
      assert q0[..k.i + 1] == q0[..k.i] + [q0[k.i]];
    } else {
      assert q0[..|q0|] == q0;
      ShareIsNat(q0);
    }
    SameQueues(s, After(s, c, ActOf(s, c, Mig(e))));
  }

  lemma ShareIsNat(q: seq<seq<Tid>>)
    requires |q| > 0
    ensures FairShare(q) >= 0
  {
    Links.ShareNotNegative(M.Total(q), |q|);
  }

  lemma LockStep(q0: seq<seq<Tid>>, s: State, c: Cpu, t: Tid)
    requires Phase(q0, s, c, t) && Enabled(s, c, Mig(MigLock))
    ensures Phase(q0, After(s, c, ActOf(s, c, Mig(MigLock))), c, t)
  {
    SameQueues(s, After(s, c, ActOf(s, c, Mig(MigLock))));
    assert q0[c][..|q0[c]|] == q0[c] && q0[c := q0[c]] == q0;
  }

  lemma TakeStep(q0: seq<seq<Tid>>, s: State, c: Cpu, t: Tid)
    requires Phase(q0, s, c, t) && Enabled(s, c, Mig(MigTake))
    ensures Phase(q0, After(s, c, ActOf(s, c, Mig(MigTake))), c, t)
  {
    var a := ActOf(s, c, Mig(MigTake));
    var s', n, l := After(s, c, a), s.threads[t].htask.n, q0[c];
    assert Queues(s)[c] == Items(s.lists, RunQ(c)) == l[..|l| - n];
    MovedQueues(s, s', a.op, c);
    assert l[..|l| - n][..|l| - n - 1] == l[..|l| - (n + 1)];
    assert [l[|l| - n - 1]] + l[|l| - n..] == l[|l| - (n + 1)..];
  }

  /** The victims are in hand, and there is room for them all. */
  lemma TakenAll(q0: seq<seq<Tid>>, c: Cpu, t: Tid, share: int, send: int)
    requires c < |q0| && NoDup(q0[c]) && Kept(q0, c, share, send)
    ensures Handing(Cut(q0, c, share), Cut(q0, c, share), c, share, 0, 0, q0[c][share..], q0[c][share..], send, t)
  {
    M.RoomForVictims(q0, c, share);
    M.RoomWithoutMe(q0, c, share, 0, q0[c][..share]);
  }

  lemma TakenStep(q0: seq<seq<Tid>>, s: State, c: Cpu, t: Tid)
    requires Phase(q0, s, c, t) && Enabled(s, c, Mig(MigTaken))
    ensures Phase(q0, After(s, c, ActOf(s, c, Mig(MigTaken))), c, t)
  {
    var k := s.threads[t].htask;
    SameQueues(s, After(s, c, ActOf(s, c, Mig(MigTaken))));
    TakenAll(q0, c, t, k.share, k.send);
  }

  lemma PassedMe(q1: seq<seq<Tid>>, q: seq<seq<Tid>>, c: Cpu, share: int, v0: seq<Tid>, v: seq<Tid>, send: int, t: Tid)
    requires Handing(q1, q, c, share, c, c, v0, v, send, t)
    ensures Handing(q1, q, c, share, c + 1, c + 1, v0, v, send, t)
  {
    assert q[c + 1..] == q[c..][1..] == q1[c + 1..];
  }

  lemma BeginAt(q1: seq<seq<Tid>>, q: seq<seq<Tid>>, c: Cpu, share: int, i: nat, v0: seq<Tid>, v: seq<Tid>, send: int,
      t: Tid)
    requires Handing(q1, q, c, share, i, i, v0, v, send, t) && i < |q1| && i != c
    ensures Handing(q1, q, c, share, i, i + 1, v0, v, send, t)
  {
    assert q[i + 1..] == q[i..][1..] == q1[i + 1..];
  }

  lemma VisitStep(q0: seq<seq<Tid>>, s: State, c: Cpu, t: Tid)
    requires Phase(q0, s, c, t) && Enabled(s, c, Mig(MigVisit))
    ensures Phase(q0, After(s, c, ActOf(s, c, Mig(MigVisit))), c, t)
  {
    var k := s.threads[t].htask;
    var q1, v0 := Cut(q0, c, k.share), q0[c][k.share..];
    SameQueues(s, After(s, c, ActOf(s, c, Mig(MigVisit))));
    if k.i == c {
      PassedMe(q1, Queues(s), c, k.share, v0, Hand(s, t), k.send, t);
    } else {
      BeginAt(q1, Queues(s), c, k.share, k.i, v0, Hand(s, t), k.send, t);
    }
  }

  /** One victim sent to queue i. */
  lemma SendOne(q1: seq<seq<Tid>>, q: seq<seq<Tid>>, c: Cpu, share: int, i: nat, v0: seq<Tid>, v: seq<Tid>, send: int,
      t: Tid)
    requires Handing(q1, q, c, share, i, i + 1, v0, v, send, t) && i < |q1| && i != c
    requires send > 0 && |q[i]| < share && v[0] != t
    ensures Handing(q1, q[i := q[i] + [v[0]]], c, share, i, i + 1, v0, v[1..], send - 1, t)
  {
    var l := q[i] + [v[0]];
    var q' := q[i := l];
    M.DropVictim(v, send, t, |v| > send);
    M.ThreadsUpdate(q, i, l);
    assert multiset(l) == multiset(q[i]) + multiset{v[0]};
    M.Cancel(M.Threads(q'), M.Threads(q), multiset(q[i]), multiset(l), multiset(v), multiset(v[1..]));
    M.RoomBeyond(q, c, share, i + 1, i, l);
    assert q'[i + 1..] == q[i + 1..];
  }

  lemma SendsOne(q0: seq<seq<Tid>>, q: seq<seq<Tid>>, v: seq<Tid>, k: Task, c: Cpu, t: Tid)
    requires c < |q0| && k.GiveAt? && Progress(q0, q, v, k, c, t)
    requires k.send > 0 && |q[k.i]| < k.share && v[0] != t
    ensures Progress(q0, q[k.i := q[k.i] + [v[0]]], v[1..], GiveAt(k.i, k.send - 1, k.share), c, t)
  {
    SendOne(Cut(q0, c, k.share), q, c, k.share, k.i, q0[c][k.share..], v, k.send, t);
  }

  /** The current thread passed over: it goes to the end of the list in hand. */
  lemma PassOver(q1: seq<seq<Tid>>, q: seq<seq<Tid>>, c: Cpu, share: int, i: nat, v0: seq<Tid>, v: seq<Tid>, send: int,
      t: Tid)
    requires Handing(q1, q, c, share, i, i + 1, v0, v, send, t) && send > 0 && v[0] == t
    ensures Handing(q1, q, c, share, i, i + 1, v0, v[1..] + [t], send - 1, t)
  {
    M.DropVictim(v, send, t, |v| > send);
    assert multiset(v[1..] + [t]) == multiset(v);
  }

  /** Sending a victim leaves the sender's own thread alone. */
  ghost predicate SenderStays(s: State, c: Cpu)
    requires Enabled(s, c, Mig(MigSend))
  {
    var t, a := s.cpus[c].cur, ActOf(s, c, Mig(MigSend));
    var s' := After(s, c, a);
    t in s'.threads && s'.threads[t] == a.me
  }

  lemma SenderGoesOn(s: State, c: Cpu)
    requires Links.Inv(s) && Enabled(s, c, Mig(MigSend))
    ensures SenderStays(s, c)
  {
    var a := ActOf(s, c, Mig(MigSend));
    Links.EventDone(s, c, Mig(MigSend));
    Links.ActorThread(s, c, a);
  }

  /** What sending a victim does to the queues and the list in hand. */
  lemma SentOn(s: State, c: Cpu, t: Tid)
    requires Enabled(s, c, Mig(MigSend)) && SenderStays(s, c) && s.cpus[c].cur == t && Hand(s, t)[0] != t
    requires s.threads[t].htask.GiveAt? && s.threads[t].htask.i < |s.cpus|
    ensures var k, v, q, s' := s.threads[t].htask, Hand(s, t), Queues(s), After(s, c, ActOf(s, c, Mig(MigSend)));
      && k.send > 0 && |q[k.i]| < k.share && Queues(s') == q[k.i := q[k.i] + [v[0]]] && Hand(s', t) == v[1..]
      && s'.threads[t].htask == GiveAt(k.i, k.send - 1, k.share)
      && |s'.cpus| == |s.cpus| && s'.cpus[c].cur == t
  {
    SentQueues(s, After(s, c, ActOf(s, c, Mig(MigSend))), ActOf(s, c, Mig(MigSend)).op, s.threads[t].htask.i);
  }

  lemma SendOn(q0: seq<seq<Tid>>, s: State, c: Cpu, t: Tid)
    requires Phase(q0, s, c, t) && Enabled(s, c, Mig(MigSend)) && SenderStays(s, c) && Hand(s, t)[0] != t
    ensures Phase(q0, After(s, c, ActOf(s, c, Mig(MigSend))), c, t)
  {
    SentOn(s, c, t);
    SendsOne(q0, Queues(s), Hand(s, t), s.threads[t].htask, c, t);
  }

  lemma SendBack(q0: seq<seq<Tid>>, s: State, c: Cpu, t: Tid)
    requires Phase(q0, s, c, t) && Enabled(s, c, Mig(MigSend)) && SenderStays(s, c) && Hand(s, t)[0] == t
    ensures Phase(q0, After(s, c, ActOf(s, c, Mig(MigSend))), c, t)
  {
    var k := s.threads[t].htask;
    SameQueues(s, After(s, c, ActOf(s, c, Mig(MigSend))));
    PassOver(Cut(q0, c, k.share), Queues(s), c, k.share, k.i, q0[c][k.share..], Hand(s, t), k.send, t);
  }

  lemma Full(q1: seq<seq<Tid>>, q: seq<seq<Tid>>, c: Cpu, share: int, i: nat, v0: seq<Tid>, v: seq<Tid>, send: int,
      t: Tid)
    requires Handing(q1, q, c, share, i, i + 1, v0, v, send, t) && i < |q1| && (|q[i]| >= share || send <= 0)
    ensures Handing(q1, q, c, share, i + 1, i + 1, v0, v, send, t)
  {
  }

  lemma LeaveStep(q0: seq<seq<Tid>>, s: State, c: Cpu, t: Tid)
    requires Phase(q0, s, c, t) && Enabled(s, c, Mig(MigLeave))
    ensures Phase(q0, After(s, c, ActOf(s, c, Mig(MigLeave))), c, t)
  {
    var k := s.threads[t].htask;
    SameQueues(s, After(s, c, ActOf(s, c, Mig(MigLeave))));
    assert Queues(s)[k.i] == Items(s.lists, RunQ(k.i));
    Full(Cut(q0, c, k.share), Queues(s), c, k.share, k.i, q0[c][k.share..], Hand(s, t), k.send, t);
  }

  lemma AllSent(q1: seq<seq<Tid>>, q: seq<seq<Tid>>, c: Cpu, share: int, i: nat, v0: seq<Tid>, v: seq<Tid>, send: int,
      t: Tid)
    requires Handing(q1, q, c, share, i, i, v0, v, send, t) && (i >= |q1| || send <= 0)
    ensures HandedOut(q1, q, c, share, v0, v, t)
  {
    assert send == 0;
  }

  /** With what is left put back, that is all. */
  lemma Finished(q0: seq<seq<Tid>>, q: seq<seq<Tid>>, c: Cpu, left: seq<Tid>, t: Tid)
    requires c < |q0| && 0 <= FairShare(q0) <= |q0[c]|
    requires HandedOut(Cut(q0, c, FairShare(q0)), q, c, FairShare(q0), q0[c][FairShare(q0)..], left, t)
    ensures Outcome(q0, q[c := q[c] + left], c, t)
  {
    var share := FairShare(q0);
    assert q0[c] == q0[c][..share] + q0[c][share..];
    M.Redistributed(q0, q, q[c := q[c] + left], c, share, q0[c][..share], q0[c][share..], left);
  }

  lemma Ended(q0: seq<seq<Tid>>, q: seq<seq<Tid>>, c: Cpu, share: int, i: nat, v: seq<Tid>, send: int, t: Tid)
    requires c < |q0| && FairShare(q0) == share && 0 <= share <= |q0[c]| && (i >= |q0| || send <= 0)
    requires Handing(Cut(q0, c, share), q, c, share, i, i, q0[c][share..], v, send, t)
    ensures HandedOut(Cut(q0, c, share), q, c, share, q0[c][share..], v, t)
    ensures v == [] ==> Outcome(q0, q, c, t)
  {
    AllSent(Cut(q0, c, share), q, c, share, i, q0[c][share..], v, send, t);
    if v == [] {
      Finished(q0, q, c, v, t);
      assert q[c] + v == q[c] && q[c := q[c]] == q;
    }
  }

  lemma EndStep(q0: seq<seq<Tid>>, s: State, c: Cpu, t: Tid)
    requires Phase(q0, s, c, t) && Enabled(s, c, Mig(MigEnd))
    ensures Phase(q0, After(s, c, ActOf(s, c, Mig(MigEnd))), c, t)
  {
    var k := s.threads[t].htask;
    SameQueues(s, After(s, c, ActOf(s, c, Mig(MigEnd))));
    Ended(q0, Queues(s), c, k.share, k.i, Hand(s, t), k.send, t);
  }

  lemma BackStep(q0: seq<seq<Tid>>, s: State, c: Cpu, t: Tid, e: MigEvent)
    requires Phase(q0, s, c, t) && Enabled(s, c, Mig(e)) && (e.MigBackLock? || e.MigBackDone?)
    ensures Phase(q0, After(s, c, ActOf(s, c, Mig(e))), c, t)
  {
    SameQueues(s, After(s, c, ActOf(s, c, Mig(e))));
  }

  lemma BackMoveStep(q0: seq<seq<Tid>>, s: State, c: Cpu, t: Tid)
    requires Phase(q0, s, c, t) && Enabled(s, c, Mig(MigBackMove))
    ensures Phase(q0, After(s, c, ActOf(s, c, Mig(MigBackMove))), c, t)
  {
    var a, v, q := ActOf(s, c, Mig(MigBackMove)), Hand(s, t), Queues(s);
    SentQueues(s, After(s, c, a), a.op, c);
    assert v == [t];
    Finished(q0, q, c, v, t);
  }

  lemma MigStep(q0: seq<seq<Tid>>, s: State, c: Cpu, t: Tid, e: MigEvent)
    requires Phase(q0, s, c, t) && Enabled(s, c, Mig(e)) && !e.MigStart?
    requires e.MigSend? ==> SenderStays(s, c)
    ensures Phase(q0, After(s, c, ActOf(s, c, Mig(e))), c, t)
  {
    match e
    case MigLook => CountStep(q0, s, c, t, e);
    case MigDecide => CountStep(q0, s, c, t, e);
    case MigLock => LockStep(q0, s, c, t);
    case MigTake => TakeStep(q0, s, c, t);
    case MigTaken => TakenStep(q0, s, c, t);
    case MigVisit => VisitStep(q0, s, c, t);
    case MigSend => if Hand(s, t)[0] == t { SendBack(q0, s, c, t); } else { SendOn(q0, s, c, t); }
    case MigLeave => LeaveStep(q0, s, c, t);
    case MigEnd => EndStep(q0, s, c, t);
    case MigBackLock => BackStep(q0, s, c, t, e);
    case MigBackMove => BackMoveStep(q0, s, c, t);
    case MigBackDone => BackStep(q0, s, c, t, e);
  }

  lemma StartStep(s: State, c: Cpu)
    requires Links.Inv(s) && Enabled(s, c, Mig(MigStart))
    ensures Phase(Queues(s), After(s, c, ActOf(s, c, Mig(MigStart))), c, s.cpus[c].cur)
  {
    var t := s.cpus[c].cur;
    assert Links.FrameOK(s.cpus, s.lists, t, s.threads[t]);
    SameQueues(s, After(s, c, ActOf(s, c, Mig(MigStart))));
    assert Queues(s)[..0] == [];
    assert Queues(s)[c] == Items(s.lists, RunQ(c));
  }

  // ------------------------------------------------------------------ in an execution

  /** Processor c goes on with its migration, and nobody else does anything. */
  ghost predicate Alone(s: State, s': State, c: Cpu) {
    exists e: MigEvent :: Enabled(s, c, Mig(e)) && s' == After(s, c, ActOf(s, c, Mig(e)))
  }

  /** The handler is at rest, or under way. */
  ghost predicate AtRest(s: State, t: Tid) { t in s.threads && s.threads[t].htask.Rest? }

  ghost predicate UnderWay(s: State, t: Tid) { t in s.threads && !s.threads[t].htask.Rest? }

  /** Processor c is at its migration, and goes on with it alone. */
  ghost predicate OnAlone(r: seq<State>, i: nat, c: Cpu, t: Tid)
    requires i + 1 < |r|
  {
    UnderWay(r[i], t) && Alone(r[i], r[i + 1], c)
  }

  lemma OnlyStart(s: State, c: Cpu, e: MigEvent)
    requires Enabled(s, c, Mig(e)) && AtRest(s, s.cpus[c].cur)
    ensures e.MigStart?
  {
  }

  lemma NotStart(s: State, c: Cpu, e: MigEvent)
    requires Enabled(s, c, Mig(e)) && UnderWay(s, s.cpus[c].cur)
    ensures !e.MigStart?
  {
  }

  lemma Begins(s: State, s': State, c: Cpu, t: Tid)
    requires Links.Inv(s) && Alone(s, s', c) && AtRest(s, t) && c < |s.cpus| && s.cpus[c].cur == t
    ensures Phase(Queues(s), s', c, t)
  {
    var e: MigEvent :| Enabled(s, c, Mig(e)) && s' == After(s, c, ActOf(s, c, Mig(e)));
    OnlyStart(s, c, e);
    StartStep(s, c);
  }

  lemma GoesOn(q0: seq<seq<Tid>>, s: State, s': State, c: Cpu, t: Tid)
    requires Links.Inv(s) && Alone(s, s', c) && UnderWay(s, t) && Phase(q0, s, c, t)
    ensures Phase(q0, s', c, t)
  {
    var e: MigEvent :| Enabled(s, c, Mig(e)) && s' == After(s, c, ActOf(s, c, Mig(e)));
    NotStart(s, c, e);
    if e.MigSend? { SenderGoesOn(s, c); }
    MigStep(q0, s, c, t, e);
  }

  lemma BeginsAt(r: seq<State>, i: nat, c: Cpu, t: Tid)
    requires Execution(r) && i + 1 < |r| && c < |r[i].cpus| && r[i].cpus[c].cur == t && AtRest(r[i], t)
    requires Alone(r[i], r[i + 1], c)
    ensures Phase(Queues(r[i]), r[i + 1], c, t)
  {
    Links.ExecutionKeepsInv(r, i);
    Begins(r[i], r[i + 1], c, t);
  }

  lemma GoesOnAt(q0: seq<seq<Tid>>, r: seq<State>, i: nat, c: Cpu, t: Tid)
    requires Execution(r) && i + 1 < |r| && OnAlone(r, i, c, t) && Phase(q0, r[i], c, t)
    ensures Phase(q0, r[i + 1], c, t)
  {
    Links.ExecutionKeepsInv(r, i);
    GoesOn(q0, r[i], r[i + 1], c, t);
  }

  lemma {:induction false} StaysInPhase(q0: seq<seq<Tid>>, r: seq<State>, i: nat, j: nat, c: Cpu, t: Tid)
    requires Execution(r) && i <= j < |r| && Phase(q0, r[i], c, t)
    requires forall k :: i <= k < j ==> OnAlone(r, k, c, t)
    ensures Phase(q0, r[j], c, t)
  {
    if i < j {
      StaysInPhase(q0, r, i, j - 1, c, t);
      assert OnAlone(r, j - 1, c, t);
      GoesOnAt(q0, r, j - 1, c, t);
    }
  }

  /** A migration that no other processor disturbs, from where its handler is at rest to where
      it is at rest again. */
  lemma UndisturbedMigration(r: seq<State>, i: nat, j: nat, c: Cpu, t: Tid)
    requires Execution(r) && i < j < |r| && c < |r[i].cpus| && r[i].cpus[c].cur == t
    requires AtRest(r[i], t) && AtRest(r[j], t)
    requires Alone(r[i], r[i + 1], c) && forall k :: i < k < j ==> OnAlone(r, k, c, t)
    ensures Outcome(Queues(r[i]), Queues(r[j]), c, t)
  {
    BeginsAt(r, i, c, t);
    StaysInPhase(Queues(r[i]), r, i + 1, j, c, t);
  }
}
