/** What the calls of lock_acquire, lock_release and lock_do_i_hold come to, by the states in
    which they begin and end. */
module LockCalls {

  import opened Options
  import opened Lock

  predicate InAcquire(p: PC) {
    p.ASpin? || p.AHave? || p.ABridge? || p.ABoth? || p.ACommitted? || p.AListed? || p.AAsleep? || p.AWaking?
    || p.AMarked? || p.AOwned?
  }
  predicate InRelease(p: PC) {
    p.RSpin? || p.RHave? || p.RFreed? || p.RCleared? || p.RWchan? || p.RPicked? || p.RWaking? || p.RDone?
  }
  predicate InAsk(p: PC) { p.Ask? || p.AskHalf? }

  /** A thread stays where it is, goes on inside its call, begins one, or ends one. */
  ghost predicate Edge(p: PC, p': PC, hold: bool) {
    && (InAcquire(p) && !InAcquire(p') ==> p'.In?)
    && (InRelease(p) && !InRelease(p') ==> p'.Out?)
    && (InAsk(p) && !InAsk(p') ==> p.AskHalf? && p' == if p.inside then In else Out)
    && (!InAcquire(p) && InAcquire(p') ==> p.Out?)
    && (!InRelease(p) && InRelease(p') ==> p.In?)
    && (!InAsk(p) && InAsk(p') ==> p' == Ask(p.In?) && (p.In? || p.Out?))
    && (HasHold(p) && !HasHold(p') ==> p.RHave?)
    && (!HasHold(p) && HasHold(p') ==> p.AHave? && !hold)
    && (!Sleeping(p) && Sleeping(p') ==> p.AHave? && hold)
  }

  lemma CallEdge(s: State, s': State, t: Tid)
    requires t in s.pc && CallStep(s, s', t)
    ensures Edge(s.pc[t], s'.pc[t], s.hold)
  {
  }

  lemma TestEdge(s: State, s': State, t: Tid)
    requires t in s.pc && AcquireStep(s, s', t) && BeforeSleep(s.pc[t])
    ensures Edge(s.pc[t], s'.pc[t], s.hold)
  {
  }

  lemma SleepEdge(s: State, s': State, t: Tid)
    requires t in s.pc && AcquireStep(s, s', t) && !BeforeSleep(s.pc[t])
    ensures Edge(s.pc[t], s'.pc[t], s.hold)
  {
  }

  lemma ReleaseEdge(s: State, s': State, t: Tid)
    requires t in s.pc && ReleaseStep(s, s', t)
    ensures Edge(s.pc[t], s'.pc[t], s.hold)
  {
  }

  lemma OwnEdge(s: State, s': State, t: Tid)
    requires t in s.pc && Step(s, s', t)
    ensures Edge(s.pc[t], s'.pc[t], s.hold)
  {
    if CallStep(s, s', t) {
      CallEdge(s, s', t);
    } else if AcquireStep(s, s', t) {
      if BeforeSleep(s.pc[t]) { TestEdge(s, s', t); } else { SleepEdge(s, s', t); }
    } else {
      ReleaseEdge(s, s', t);
    }
  }

  lemma OtherEdge(s: State, s': State, t: Tid, x: Tid, u: Tid)
    requires Moved(s.pc, s'.pc, t, x) && u in s.pc && u != t
    ensures u in s'.pc && (s'.pc[u] == s.pc[u] || Edge(s.pc[u], s'.pc[u], s.hold))
  {
  }

  lemma RunMoves(r: seq<State>, i: nat) returns (t: Tid, x: Tid)
    requires Run(r) && i + 1 < |r|
    ensures Effects(r[i], r[i + 1], t, x) && Edge(r[i].pc[t], r[i + 1].pc[t], r[i].hold)
  {
    RunKeepsInv(r, i);
    assert Goes(r, i);
    t :| t in r[i].pc && Step(r[i], r[i + 1], t);
    x := Other(r[i], t);
    InvLocal(r[i], t);
    StepEffects(r[i], r[i + 1], t);
    OwnEdge(r[i], r[i + 1], t);
  }

  lemma RunEdge(r: seq<State>, i: nat, u: Tid)
    requires Run(r) && i + 1 < |r| && u in r[i].pc
    ensures u in r[i + 1].pc && (r[i + 1].pc[u] == r[i].pc[u] || Edge(r[i].pc[u], r[i + 1].pc[u], r[i].hold))
  {
    var t, x := RunMoves(r, i);
    if u != t { OtherEdge(r[i], r[i + 1], t, x, u); }
  }

  /** lock_acquire returns holding the lock, and lock_do_i_hold would say so; nobody else does. */
  lemma AcquireEndsHolding(r: seq<State>, i: nat, t: Tid)
    requires Run(r) && i + 1 < |r| && t in r[i].pc && t in r[i + 1].pc
    requires InAcquire(r[i].pc[t]) && !InAcquire(r[i + 1].pc[t])
    ensures r[i + 1].pc[t] == In && r[i + 1].hold && r[i + 1].owner == r[i + 1].holder == Some(t)
  {
    RunEdge(r, i, t);
    RunKeepsInv(r, i + 1);
  }

  /** lock_release returns not holding it. */
  lemma ReleaseEndsFree(r: seq<State>, i: nat, t: Tid)
    requires Run(r) && i + 1 < |r| && t in r[i].pc && t in r[i + 1].pc
    requires InRelease(r[i].pc[t]) && !InRelease(r[i + 1].pc[t])
    ensures r[i + 1].pc[t] == Out && r[i + 1].owner != Some(t) && r[i + 1].holder != Some(t)
  {
    RunEdge(r, i, t);
    RunKeepsInv(r, i + 1);
  }

  /** Once held, the lock stays held until its holder releases it; it is taken only when it
      is free; and nobody goes to sleep on it unless somebody holds it. */
  lemma HeldUntilReleased(r: seq<State>, i: nat, t: Tid)
    requires Run(r) && i + 1 < |r| && t in r[i].pc && t in r[i + 1].pc
    ensures HasHold(r[i].pc[t]) && !HasHold(r[i + 1].pc[t]) ==> InRelease(r[i].pc[t])
    ensures !HasHold(r[i].pc[t]) && HasHold(r[i + 1].pc[t]) ==> InAcquire(r[i].pc[t]) && !r[i].hold
    ensures !Sleeping(r[i].pc[t]) && Sleeping(r[i + 1].pc[t]) ==> InAcquire(r[i].pc[t]) && r[i].hold
  {
    RunEdge(r, i, t);
  }

  /** The thread that calls lock_do_i_hold goes on as it was; what it is told, by hold as it
      read it and owner as it reads it now, is whether it holds the lock. */
  lemma AskAnswers(r: seq<State>, i: nat, t: Tid)
    requires Run(r) && i + 1 < |r| && t in r[i].pc && t in r[i + 1].pc
    requires InAsk(r[i].pc[t]) && !InAsk(r[i + 1].pc[t])
    ensures r[i].pc[t].AskHalf? && (r[i + 1].pc[t].In? || r[i + 1].pc[t].Out?)
    ensures r[i].pc[t].h && r[i].owner == Some(t) <==> r[i + 1].pc[t].In?
  {
    RunEdge(r, i, t);
    DoIHoldIsRight(r, i, t);
  }

  /** The wait list is a queue: a thread joins it at the end, and the first is woken. */
  ghost predicate Queued(pc: map<Tid, PC>, pc': map<Tid, PC>, l: seq<Tid>, l': seq<Tid>) {
    || (l' == l && forall t :: t in pc && t in pc' ==> OnList(pc'[t]) == OnList(pc[t]))
    || (exists t :: t in pc && t in pc' && !OnList(pc[t]) && OnList(pc'[t]) && l' == l + [t])
    || (l != [] && l[0] in pc' && pc'[l[0]].AWaking? && l' == l[1..])
  }

  lemma EffectsQueue(s: State, s': State, t: Tid, x: Tid)
    requires Effects(s, s', t, x)
    ensures Queued(s.pc, s'.pc, s.list, s'.list)
  {
    if s.pc[t].ACommitted? { assert !OnList(s.pc[t]) && OnList(s'.pc[t]); }
  }

  lemma SleepersQueue(r: seq<State>, i: nat)
    requires Run(r) && i + 1 < |r|
    ensures Queued(r[i].pc, r[i + 1].pc, r[i].list, r[i + 1].list)
  {
    var t, x := RunMoves(r, i);
    EffectsQueue(r[i], r[i + 1], t, x);
  }
}
