/** cv_wait, cv_signal and cv_broadcast on one condition variable, interleaved at
    every operation on the wait channel's spinlock.  The lock that goes with it is
    taken and released in one step each: module Lock shows that at most one thread
    is between the two. */
module CondVar {

  import opened Options

  type Tid = nat

  /** Where a thread is.  "lock" is the lock passed in, "wc" the channel's spinlock. */
  datatype PC =
    | Out                          // -
    | Acquire                      // -; in lock_acquire
    | In                           // lock
    // cv_wait
    | CWant                        // lock; about to take wc
    | CRelease                     // lock, wc; about to release the lock
    | CCommitted                   // wc; in wchan_sleep
    | CListed                      // wc; on the wait list
    | CAsleep                      // -; on the wait list
    | CWaking                      // -; off the list, not yet runnable
    // cv_signal (one) and cv_broadcast (all)
    | WWant(all: bool)             // lock; about to take wc
    | WDrain(all: bool, taken: seq<Tid>)  // lock, wc; moving sleepers to a private list
    | WWake(all: bool, taken: seq<Tid>)   // lock; making them runnable

  predicate HoldsLock(p: PC) { p.In? || p.CWant? || p.CRelease? || p.WWant? || p.WDrain? || p.WWake? }
  predicate HoldsWc(p: PC) { p.CRelease? || p.CCommitted? || p.CListed? || p.WDrain? }
  predicate OnList(p: PC) { p.CListed? || p.CAsleep? }
  predicate IsWaking(p: PC) { p.CWaking? }

  /** In cv_wait, the lock given up, not woken. */
  predicate Waiting(p: PC) { p.CCommitted? || p.CListed? || p.CAsleep? }

  datatype State = State(lock: Option<Tid>, wc: Option<Tid>, list: seq<Tid>, pc: map<Tid, PC>)

  ghost predicate Init(s: State) {
    s.lock == s.wc == None && s.list == [] && forall t :: t in s.pc ==> s.pc[t] == Out
  }

  function At(s: State, t: Tid, p: PC): State { s.(pc := s.pc[t := p]) }

  ghost predicate Step(s: State, s': State, t: Tid)
    requires t in s.pc
  {
    match s.pc[t]
    case Out => s' == At(s, t, Acquire)
    case Acquire => s.lock.None? && s' == At(s, t, In).(lock := Some(t))
    case In => s' == At(s, t, Out).(lock := None) || s' == At(s, t, CWant)
               || s' == At(s, t, WWant(false)) || s' == At(s, t, WWant(true))
    case CWant => s.wc.None? && s' == At(s, t, CRelease).(wc := Some(t))
    case CRelease => s' == At(s, t, CCommitted).(lock := None)
    case CCommitted => s' == At(s, t, CListed).(list := s.list + [t])
    case CListed => s' == At(s, t, CAsleep).(wc := None)
    case CAsleep => false                     // moved on only by a signal or broadcast
    case CWaking => false                     // moved on only by a signal or broadcast
    case WWant(all) => s.wc.None? && s' == At(s, t, WDrain(all, [])).(wc := Some(t))
    case WDrain(all, taken) =>
      s' == if s.list != [] && (all || taken == [])
            then At(At(s, s.list[0], CWaking), t, WDrain(all, taken + [s.list[0]])).(list := s.list[1..])
            else At(s, t, WWake(all, taken)).(wc := None)
    case WWake(all, taken) => s' == if taken == [] then At(s, t, In)
                                    else At(At(s, taken[0], Acquire), t, WWake(all, taken[1..]))
  }

  ghost predicate Next(s: State, s': State) { exists t :: t in s.pc && Step(s, s', t) }

  // -------------------------------------------------------------- the invariant

  ghost predicate Owned(l: Option<Tid>, pc: map<Tid, PC>, holds: PC -> bool) {
    && (forall t :: t in pc ==> (l == Some(t) <==> holds(pc[t])))
    && (l.Some? ==> l.value in pc)
  }

  /** The list holds exactly the threads in the given kind of place, once each. */
  ghost predicate Lists(list: seq<Tid>, pc: map<Tid, PC>, on: PC -> bool) {
    && (forall i :: 0 <= i < |list| ==> list[i] in pc && on(pc[list[i]]))
    && (forall i, j :: 0 <= i < j < |list| ==> list[i] != list[j])
    && (forall t :: t in pc && on(pc[t]) ==> t in list)
  }

  function Taken(p: PC): seq<Tid> {
    match p
    case WDrain(_, taken) => taken
    case WWake(_, taken) => taken
    case _ => []
  }

  /** The private list of the signaller or broadcaster at work, if any: only the
      thread with the lock can be one. */
  function InHand(s: State): seq<Tid> {
    if s.lock.Some? && s.lock.value in s.pc then Taken(s.pc[s.lock.value]) else []
  }

  /** Once a broadcast has drained the list, and for as long as it runs, nobody
      who gave up the lock is still waiting. */
  ghost predicate BroadcastReachedAll(s: State) {
    s.lock.Some? && s.lock.value in s.pc && s.pc[s.lock.value].WWake? && s.pc[s.lock.value].all ==>
      forall u :: u in s.pc ==> !Waiting(s.pc[u])
  }

  ghost predicate Inv(s: State) {
    && Owned(s.lock, s.pc, HoldsLock) && Owned(s.wc, s.pc, HoldsWc)
    && Lists(s.list, s.pc, OnList) && Lists(InHand(s), s.pc, IsWaking)
    && BroadcastReachedAll(s)
  }

  lemma InitInv(s: State)
    requires Init(s)
    ensures Inv(s)
  {
  }

  // ------------------------------------------------- what one step does, in general

  /** The sleeper a step takes off the list or makes runnable; t itself if none. */
  function Other(s: State, t: Tid): Tid
    requires t in s.pc
  {
    match s.pc[t]
    case WDrain(all, taken) => if s.list != [] && (all || taken == []) then s.list[0] else t
    case WWake(_, taken) => if taken == [] then t else taken[0]
    case _ => t
  }

  ghost predicate LockMove(l: Option<Tid>, l': Option<Tid>, t: Tid, held: bool, held': bool) {
    if held == held' then l' == l
    else if held' then l == None && l' == Some(t)
    else l' == None
  }

  ghost predicate Moved(pc: map<Tid, PC>, pc': map<Tid, PC>, t: Tid, x: Tid) {
    && t in pc && x in pc && t in pc' && x in pc'
    && pc' == (if x == t then pc else pc[x := pc'[x]])[t := pc'[t]]
    && (x != t ==> (pc[t].WDrain? && pc[x].CAsleep? && pc'[x].CWaking?) ||
                   (pc[t].WWake? && pc[x].CWaking? && pc'[x].Acquire?))
  }

  ghost predicate Effects(s: State, s': State, t: Tid, x: Tid) {
    && Moved(s.pc, s'.pc, t, x)
    && var p, p' := s.pc[t], s'.pc[t];
       && LockMove(s.lock, s'.lock, t, HoldsLock(p), HoldsLock(p'))
       && LockMove(s.wc, s'.wc, t, HoldsWc(p), HoldsWc(p'))
       && (if p.CCommitted? then s'.list == s.list + [t] && p'.CListed?
           else if p.WDrain? && x != t then s.list != [] && x == s.list[0] && s'.list == s.list[1..] && !OnList(p')
           else s'.list == s.list && OnList(p') == OnList(p))
       && (if p.WDrain? && x != t then Taken(p') == Taken(p) + [x]
           else if p.WWake? && x != t then Taken(p) != [] && Taken(p)[0] == x && Taken(p') == Taken(p)[1..]
           else Taken(p') == Taken(p))
       && !p.CWaking? && !p'.CWaking?
       && (Taken(p) != [] || Taken(p') != [] ==> HoldsLock(p) && HoldsLock(p'))
       && (HoldsLock(p) != HoldsLock(p') ==> Taken(p) == Taken(p') == [])
       && (Waiting(p') ==> Waiting(p) || p.CRelease?)
       && (p'.WWake? && p'.all ==> (p.WWake? && p.all) || (p.WDrain? && s.list == []))
  }

  ghost predicate Local(s: State, t: Tid) {
    && t in s.pc && Other(s, t) in s.pc
    && (s.pc[t].WDrain? && s.list != [] ==> s.list[0] != t && s.list[0] in s.pc && s.pc[s.list[0]].CAsleep?)
    && (s.pc[t].WWake? && s.pc[t].taken != [] ==> Other(s, t) != t && s.pc[Other(s, t)].CWaking?)
  }

  lemma InvLocal(s: State, t: Tid)
    requires Inv(s) && t in s.pc
    ensures Local(s, t)
  {
    var p := s.pc[t];
    if p.WDrain? && s.list != [] {
      assert OnList(s.pc[s.list[0]]);
      assert s.wc == Some(t) && !HoldsWc(s.pc[s.list[0]]);
    }
    if p.WWake? && p.taken != [] {
      assert s.lock == Some(t) && InHand(s)[0] == p.taken[0];
      assert IsWaking(s.pc[p.taken[0]]);
    }
  }

  lemma StepEffects(s: State, s': State, t: Tid)
    requires Local(s, t) && Step(s, s', t)
    ensures Effects(s, s', t, Other(s, t))
  {
  }

  // --------------------------------------------------- every step keeps the invariant

  lemma OwnedAfter(l: Option<Tid>, l': Option<Tid>, pc: map<Tid, PC>, pc': map<Tid, PC>, t: Tid, x: Tid,
      holds: PC -> bool)
    requires Owned(l, pc, holds) && Moved(pc, pc', t, x)
    requires LockMove(l, l', t, holds(pc[t]), holds(pc'[t]))
    requires x != t ==> !holds(pc[x]) && !holds(pc'[x])
    ensures Owned(l', pc', holds)
  {
  }

  lemma ListsSame(list: seq<Tid>, pc: map<Tid, PC>, pc': map<Tid, PC>, t: Tid, x: Tid, on: PC -> bool)
    requires Lists(list, pc, on) && Moved(pc, pc', t, x) && on(pc[t]) == on(pc'[t]) && on(pc[x]) == on(pc'[x])
    ensures Lists(list, pc', on)
  {
  }

  lemma ListsAppended(list: seq<Tid>, pc: map<Tid, PC>, pc': map<Tid, PC>, t: Tid, x: Tid, y: Tid, on: PC -> bool)
    requires Lists(list, pc, on) && Moved(pc, pc', t, x) && (y == t || y == x)
    requires !on(pc[y]) && on(pc'[y]) && (y != t ==> on(pc[t]) == on(pc'[t])) && (y != x ==> on(pc[x]) == on(pc'[x]))
    ensures Lists(list + [y], pc', on)
  {
    assert y !in list;
  }

  lemma ListsPopped(list: seq<Tid>, pc: map<Tid, PC>, pc': map<Tid, PC>, t: Tid, x: Tid, on: PC -> bool)
    requires Lists(list, pc, on) && Moved(pc, pc', t, x) && x != t && list != [] && list[0] == x
    requires !on(pc'[x]) && on(pc[t]) == on(pc'[t])
    ensures Lists(list[1..], pc', on)
  {
    forall u | u in pc' && on(pc'[u]) ensures u in list[1..] {
      assert u in list && u != list[0];
    }
  }

  lemma StepKeepsLocks(s: State, s': State, t: Tid, x: Tid)
    requires Inv(s) && Effects(s, s', t, x)
    ensures Owned(s'.lock, s'.pc, HoldsLock) && Owned(s'.wc, s'.pc, HoldsWc)
  {
    OwnedAfter(s.lock, s'.lock, s.pc, s'.pc, t, x, HoldsLock);
    OwnedAfter(s.wc, s'.wc, s.pc, s'.pc, t, x, HoldsWc);
  }

  lemma StepKeepsList(s: State, s': State, t: Tid, x: Tid)
    requires Inv(s) && Effects(s, s', t, x)
    ensures Lists(s'.list, s'.pc, OnList)
  {
    if s.pc[t].CCommitted? {
      ListsAppended(s.list, s.pc, s'.pc, t, x, t, OnList);
    } else if s.pc[t].WDrain? && x != t {
      ListsPopped(s.list, s.pc, s'.pc, t, x, OnList);
    } else {
      ListsSame(s.list, s.pc, s'.pc, t, x, OnList);
    }
  }

  lemma InHandAfter(s: State, s': State, t: Tid, x: Tid)
    requires Inv(s) && Effects(s, s', t, x)
    ensures var h, h' := InHand(s), InHand(s');
            if s.pc[t].WDrain? && x != t then h' == h + [x]
            else if s.pc[t].WWake? && x != t then h != [] && h[0] == x && h' == h[1..]
            else h' == h
  {
    if x != t { assert s.lock == Some(t); }
    if s.lock.Some? && s.lock.value != t {
      assert HoldsLock(s.pc[s.lock.value]);
    }
  }

  lemma StepKeepsInHand(s: State, s': State, t: Tid, x: Tid)
    requires Inv(s) && Effects(s, s', t, x)
    ensures Lists(InHand(s'), s'.pc, IsWaking)
  {
    InHandAfter(s, s', t, x);
    if s.pc[t].WDrain? && x != t {
      ListsAppended(InHand(s), s.pc, s'.pc, t, x, x, IsWaking);
    } else if s.pc[t].WWake? && x != t {
      ListsPopped(InHand(s), s.pc, s'.pc, t, x, IsWaking);
    } else {
      ListsSame(InHand(s), s.pc, s'.pc, t, x, IsWaking);
    }
  }

  /** With the channel's lock held by a signaller or broadcaster and the list
      empty, no thread is waiting: one that has given up the lock but is not yet
      on the list holds the channel's lock. */
  lemma EmptyListMeansNobodyWaits(s: State, t: Tid)
    requires Inv(s) && t in s.pc && s.pc[t].WDrain? && s.list == []
    ensures forall u :: u in s.pc ==> !Waiting(s.pc[u])
  {
    assert s.wc == Some(t);
  }

  lemma StepKeepsBroadcast(s: State, s': State, t: Tid, x: Tid)
    requires Inv(s) && Effects(s, s', t, x)
    requires Owned(s'.lock, s'.pc, HoldsLock)
    ensures BroadcastReachedAll(s')
  {
    if s'.lock.Some? && s'.lock.value in s'.pc && s'.pc[s'.lock.value].WWake? && s'.pc[s'.lock.value].all {
      var b := s'.lock.value;
      if b == t && s.pc[t].WDrain? { EmptyListMeansNobodyWaits(s, t); }
    }
  }

  lemma NextKeepsInv(s: State, s': State)
    requires Inv(s) && Next(s, s')
    ensures Inv(s')
  {
    var t :| t in s.pc && Step(s, s', t);
    var x := Other(s, t);
    InvLocal(s, t);
    StepEffects(s, s', t);
    StepKeepsLocks(s, s', t, x);
    StepKeepsList(s, s', t, x);
    StepKeepsInHand(s, s', t, x);
    StepKeepsBroadcast(s, s', t, x);
  }

  // ------------------------------------------------------------------ whole runs

  ghost predicate Goes(r: seq<State>, i: nat)
    requires i + 1 < |r|
  {
    Next(r[i], r[i + 1])
  }

  ghost predicate Run(r: seq<State>) { r != [] && Init(r[0]) && forall i :: 0 <= i < |r| - 1 ==> Goes(r, i) }

  lemma {:induction false} RunKeepsInv(r: seq<State>, i: nat)
    requires Run(r) && i < |r|
    ensures Inv(r[i])
  {
    if i == 0 {
      InitInv(r[0]);
    } else {
      RunKeepsInv(r, i - 1);
      assert Goes(r, i - 1);
      NextKeepsInv(r[i - 1], r[i]);
    }
  }

  /** In every run, when a broadcast is about to return, every thread that had
      given up the lock in cv_wait has been woken and made runnable: none is on
      the list, on its way to it, or still in anyone's hands. */
  lemma BroadcastWakesEveryWaiter(r: seq<State>, i: nat, b: Tid, u: Tid)
    requires Run(r) && i < |r| && b in r[i].pc && u in r[i].pc
    requires r[i].pc[b] == WWake(true, [])
    ensures !Waiting(r[i].pc[u]) && !r[i].pc[u].CWaking?
  {
    RunKeepsInv(r, i);
    assert r[i].lock == Some(b);
  }

  /** A signal that has taken nobody, and is about to give up the channel, leaves nobody waiting. */
  lemma SignalMissesNobody(r: seq<State>, i: nat, b: Tid, u: Tid)
    requires Run(r) && i < |r| && b in r[i].pc && u in r[i].pc
    requires r[i].pc[b].WDrain? && r[i].list == []
    ensures !Waiting(r[i].pc[u])
  {
    RunKeepsInv(r, i);
    EmptyListMeansNobodyWaits(r[i], b);
  }
}
