/** What the calls of cv_wait, cv_signal and cv_broadcast come to over a run, from the state in
    which they begin to the state in which they end. */
module CondVarCalls {

  import opened Options
  import opened CondVar

  predicate InWait(p: PC) { p.CWant? || p.CRelease? || p.CCommitted? || p.CListed? || p.CAsleep? || p.CWaking? }
  predicate InWake(p: PC) { p.WWant? || p.WDrain? || p.WWake? }

  /** How far a cv_wait is. */
  function Place(p: PC): nat {
    if p.CWant? then 0 else if p.CRelease? then 1 else if p.CCommitted? then 2 else if p.CListed? then 3
    else if p.CAsleep? then 4 else 5
  }

  /** A thread that moves goes on to the next place in its call, begins one, or ends one. */
  ghost predicate Edge(p: PC, p': PC) {
    && (InWait(p) ==> if p.CWaking? then p'.Acquire? else InWait(p') && Place(p') == Place(p) + 1)
    && (!InWait(p) && InWait(p') ==> p.In? && p'.CWant?)
    && (!InWake(p) && InWake(p') ==> p.In? && p'.WWant?)
    && (p.WWant? ==> p' == WDrain(p.all, []))
    && (p.WDrain? ==> (p'.WDrain? || p'.WWake?) && p'.all == p.all)
    && (p.WWake? ==> if p.taken == [] then p'.In? else p' == WWake(p.all, p.taken[1..]))
    && (p.Acquire? ==> p'.In?) && (p.Out? ==> p'.Acquire?)
  }

  lemma OwnEdge(s: State, s': State, t: Tid)
    requires Local(s, t) && Step(s, s', t)
    ensures Edge(s.pc[t], s'.pc[t])
  {
  }

  lemma OtherEdge(s: State, s': State, t: Tid, x: Tid, u: Tid)
    requires Moved(s.pc, s'.pc, t, x) && u in s.pc && u != t
    ensures u in s'.pc && (s'.pc[u] == s.pc[u] || Edge(s.pc[u], s'.pc[u]))
  {
  }

  lemma RunMoves(r: seq<State>, i: nat) returns (t: Tid, x: Tid)
    requires Run(r) && i + 1 < |r|
    ensures Effects(r[i], r[i + 1], t, x) && Edge(r[i].pc[t], r[i + 1].pc[t])
  {
    RunKeepsInv(r, i);
    assert Goes(r, i);
    t :| t in r[i].pc && Step(r[i], r[i + 1], t);
    x := Other(r[i], t);
    InvLocal(r[i], t);
    StepEffects(r[i], r[i + 1], t);
    OwnEdge(r[i], r[i + 1], t);
  }

  lemma RunEdge(r: seq<State>, i: nat, u: Tid)
    requires Run(r) && i + 1 < |r| && u in r[i].pc
    ensures u in r[i + 1].pc && (r[i + 1].pc[u] == r[i].pc[u] || Edge(r[i].pc[u], r[i + 1].pc[u]))
  {
    var t, x := RunMoves(r, i);
    if u != t { OtherEdge(r[i], r[i + 1], t, x, u); }
  }

  // ------------------------------------------------------------------------- cv_wait

  lemma {:induction false} StillThere(r: seq<State>, i: nat, j: nat, u: Tid)
    requires Run(r) && i <= j < |r| && u in r[i].pc
    ensures u in r[j].pc
  {
    if i < j {
      StillThere(r, i, j - 1, u);
      RunEdge(r, j - 1, u);
    }
  }

  /** Thread u has been at `place` of its cv_wait, or past it, only to leave through lock_acquire:
      if it is out of the call at j, it was made to acquire the lock again on the way. */
  lemma {:induction false} LeavesByAcquire(r: seq<State>, i: nat, j: nat, u: Tid) returns (k: nat)
    requires Run(r) && i <= j < |r| && u in r[i].pc && InWait(r[i].pc[u]) && u in r[j].pc && !InWait(r[j].pc[u])
    ensures i < k <= j && u in r[k - 1].pc && u in r[k].pc && r[k - 1].pc[u].CWaking? && r[k].pc[u].Acquire?
    decreases j - i
  {
    StillThere(r, i, j - 1, u);
    if InWait(r[j - 1].pc[u]) {
      RunEdge(r, j - 1, u);
      k := j;
    } else {
      k := LeavesByAcquire(r, i, j - 1, u);
    }
  }

  /** Whoever gets out of cv_wait slept: some signal or broadcast, draining the list, took it off. */
  lemma {:induction false} WasTaken(r: seq<State>, i: nat, j: nat, u: Tid) returns (k: nat, b: Tid)
    requires Run(r) && i <= j < |r| && u in r[i].pc && InWait(r[i].pc[u]) && Place(r[i].pc[u]) < 5
    requires u in r[j].pc && r[j].pc[u].CWaking?
    ensures i <= k < j && u in r[k].pc && r[k].pc[u].CAsleep? && u in r[k + 1].pc && r[k + 1].pc[u].CWaking?
    ensures b in r[k].pc && r[k].pc[b].WDrain? && r[k].list != [] && r[k].list[0] == u
    decreases j - i
  {
    StillThere(r, i, j - 1, u);
    if r[j - 1].pc[u].CWaking? {
      k, b := WasTaken(r, i, j - 1, u);
    } else {
      RunEdge(r, j - 1, u);
      var t, x := RunMoves(r, j - 1);
      k, b := j - 1, t;
    }
  }

  /** cv_wait does not return of itself: the thread was on the list, was the first there when
      a signal or broadcast took it, and only then went for the lock again. */
  lemma WaitEndsWoken(r: seq<State>, i: nat, j: nat, u: Tid) returns (k: nat, b: Tid)
    requires Run(r) && i <= j < |r| && u in r[i].pc && r[i].pc[u].CWant? && u in r[j].pc && !InWait(r[j].pc[u])
    ensures i < k < j && u in r[k].pc && r[k].pc[u].CAsleep? && b in r[k].pc && r[k].pc[b].WDrain?
    ensures r[k].list != [] && r[k].list[0] == u && u in r[k + 1].pc && r[k + 1].pc[u].CWaking?
  {
    var m := LeavesByAcquire(r, i, j, u);
    k, b := WasTaken(r, i, m - 1, u);
  }

  // --------------------------------------------------------------------- cv_broadcast

  lemma {:induction false} SameCall(r: seq<State>, i: nat, j: nat, b: Tid)
    requires Run(r) && i <= j < |r| && b in r[i].pc && InWake(r[i].pc[b])
    requires forall k :: i <= k <= j ==> b in r[k].pc && !r[k].pc[b].In?
    ensures InWake(r[j].pc[b]) && r[j].pc[b].all == r[i].pc[b].all
  {
    if i < j {
      SameCall(r, i, j - 1, b);
      RunEdge(r, j - 1, b);
    }
  }

  /** A broadcast, from its call to its return: everyone who was waiting when it was called
      has been made to acquire the lock again by then. */
  lemma BroadcastWakesAll(r: seq<State>, i: nat, j: nat, b: Tid, u: Tid) returns (k: nat)
    requires Run(r) && i < j < |r| && b in r[i].pc && r[i].pc[b] == WWant(true)
    requires b in r[j].pc && r[j].pc[b].In? && forall m :: i <= m < j ==> b in r[m].pc && !r[m].pc[b].In?
    requires u in r[i].pc && Waiting(r[i].pc[u])
    ensures i < k <= j && u in r[k].pc && r[k].pc[u].Acquire?
  {
    SameCall(r, i, j - 1, b);
    RunEdge(r, j - 1, b);
    assert r[j - 1].pc[b] == WWake(true, []);
    StillThere(r, i, j - 1, u);
    BroadcastWakesEveryWaiter(r, j - 1, b, u);
    BroadcastLeavesNoCaller(r, j - 1, b, u);
    k := LeavesByAcquire(r, i, j - 1, u);
  }

  /** While a broadcast runs its caller has the lock, so nobody else is just calling cv_wait. */
  lemma BroadcastLeavesNoCaller(r: seq<State>, i: nat, b: Tid, u: Tid)
    requires Run(r) && i < |r| && b in r[i].pc && InWake(r[i].pc[b]) && u in r[i].pc
    ensures !r[i].pc[u].CWant? && !r[i].pc[u].CRelease?
  {
    RunKeepsInv(r, i);
  }

  // ------------------------------------------------------------------------- cv_signal

  /** A signal on its way, the list having been l when it took the channel's lock. */
  ghost predicate Signals(s: State, b: Tid, l: seq<Tid>)
    requires l != []
  {
    && b in s.pc && l[0] in s.pc && InWake(s.pc[b]) && !s.pc[b].all
    && (s.pc[b].WDrain? ==>
          || (s.pc[b].taken == [] && s.list == l)
          || (s.pc[b].taken == [l[0]] && s.list == l[1..]))
    && (s.pc[b].WWake? ==> (s.pc[b].taken == [l[0]] || s.pc[b].taken == []) && l[1..] <= s.list)
    && !s.pc[b].WWant?
  }

  lemma SignalOwn(s: State, s': State, b: Tid, l: seq<Tid>)
    requires Local(s, b) && Step(s, s', b) && l != [] && Signals(s, b, l)
    ensures b in s'.pc && (if s.pc[b] == WWake(false, []) then s'.pc[b].In? else Signals(s', b, l))
    ensures s.pc[b] == WWake(false, [l[0]]) ==> s'.pc[l[0]].Acquire? && s'.pc[b] == WWake(false, [])
    ensures s.pc[b].WDrain? && s'.pc[b].WWake? ==> s'.pc[b].taken == [l[0]]
    ensures s.pc[b].WWake? ==> s'.list == s.list
  {
  }

  lemma SignalOther(s: State, s': State, t: Tid, x: Tid, b: Tid, l: seq<Tid>)
    requires Inv(s) && Effects(s, s', t, x) && t != b && l != [] && Signals(s, b, l)
    ensures Signals(s', b, l) && s'.pc[b] == s.pc[b]
  {
    assert s.lock == Some(b);
    if s.pc[b].WDrain? { assert s.wc == Some(b); }
  }

  /** What the signal has done by now: its target is off the list, in hand, or already acquiring. */
  lemma SignalStep(r: seq<State>, i: nat, b: Tid, l: seq<Tid>)
    requires Run(r) && i + 1 < |r| && l != [] && Signals(r[i], b, l)
    ensures b in r[i + 1].pc
    ensures r[i + 1].pc[b].In? ==> r[i].pc[b] == WWake(false, []) && r[i + 1].list == r[i].list
    ensures !r[i + 1].pc[b].In? ==> Signals(r[i + 1], b, l)
    ensures r[i].pc[b] != WWake(false, []) && r[i + 1].pc[b] == WWake(false, []) ==>
            l[0] in r[i + 1].pc && r[i + 1].pc[l[0]].Acquire?
  {
    RunKeepsInv(r, i);
    assert Goes(r, i);
    var t :| t in r[i].pc && Step(r[i], r[i + 1], t);
    InvLocal(r[i], t);
    if t == b {
      SignalOwn(r[i], r[i + 1], b, l);
    } else {
      StepEffects(r[i], r[i + 1], t);
      SignalOther(r[i], r[i + 1], t, Other(r[i], t), b, l);
    }
  }

  /** As long as it runs, and once it has nobody left in hand, its target has been made to
      acquire the lock. */
  lemma {:induction false} SignalRuns(r: seq<State>, i: nat, j: nat, b: Tid, l: seq<Tid>) returns (k: nat)
    requires Run(r) && i <= j < |r| && l != [] && Signals(r[i], b, l) && r[i].pc[b] == WDrain(false, [])
    requires forall m :: i <= m <= j ==> b in r[m].pc && !r[m].pc[b].In?
    ensures Signals(r[j], b, l)
    ensures r[j].pc[b] == WWake(false, []) ==> i < k <= j && l[0] in r[k].pc && r[k].pc[l[0]].Acquire?
  {
    k := 0;
    if i < j {
      k := SignalRuns(r, i, j - 1, b, l);
      SignalStep(r, j - 1, b, l);
      if r[j - 1].pc[b] != WWake(false, []) { k := j; }
    }
  }

  /** A signal, from when it has the channel's lock to its return: if anyone was on the list,
      the first, and nobody else, has been taken off it and made to acquire the lock again. */
  lemma SignalWakesTheFirst(r: seq<State>, i: nat, j: nat, b: Tid) returns (k: nat)
    requires Run(r) && i < j < |r| && b in r[i].pc && r[i].pc[b] == WDrain(false, []) && r[i].list != []
    requires b in r[j].pc && r[j].pc[b].In? && forall m :: i <= m < j ==> b in r[m].pc && !r[m].pc[b].In?
    ensures i < k < j && r[i].list[0] in r[k].pc && r[k].pc[r[i].list[0]].Acquire?
    ensures r[i].list[1..] <= r[j].list
  {
    var l := r[i].list;
    RunKeepsInv(r, i);
    k := SignalRuns(r, i, j - 1, b, l);
    SignalStep(r, j - 1, b, l);
  }

  /** And a call of cv_signal does take the channel's lock, after which the list is as it was
      before. */
  lemma {:induction false} SignalLooks(r: seq<State>, i: nat, j: nat, b: Tid) returns (k: nat)
    requires Run(r) && i < j < |r| && b in r[i].pc && r[i].pc[b].WWant?
    requires b in r[j].pc && r[j].pc[b].In? && forall m :: i <= m < j ==> b in r[m].pc && !r[m].pc[b].In?
    ensures i < k < j && r[k].pc[b] == WDrain(r[i].pc[b].all, []) && r[k - 1].pc[b] == r[i].pc[b]
    ensures r[k].list == r[k - 1].list
    decreases j - i
  {
    RunEdge(r, i, b);
    if r[i + 1].pc[b] == r[i].pc[b] {
      k := SignalLooks(r, i + 1, j, b);
    } else {
      k := i + 1;
      WantKeepsList(r, i, b);
    }
  }

  lemma WantKeepsList(r: seq<State>, i: nat, b: Tid)
    requires Run(r) && i + 1 < |r| && b in r[i].pc && b in r[i + 1].pc && r[i].pc[b].WWant? && !r[i + 1].pc[b].WWant?
    ensures r[i + 1].list == r[i].list
  {
    var t, x := RunMoves(r, i);
    if t != b { OtherEdge(r[i], r[i + 1], t, x, b); }
  }
}
