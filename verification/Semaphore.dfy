/** P and V on one semaphore, by any number of threads and interrupt handlers on
    any number of CPUs, interleaved at every spinlock operation. */
module Semaphore {

  import opened Options

  type Tid = nat

  /** Where a thread is in P or V.  The comments name the locks it holds. */
  datatype PC =
    | Outside
    // P
    | PSpin(woken: bool)          // none; about to take sem_lock
    | PHave(woken: bool)          // sem_lock; about to test sem_count
    | PBridge                     // sem_lock; found 0, about to take the wchan lock
    | PBoth                       // sem_lock, wchan lock
    | PCommitted                  // wchan lock; in wchan_sleep
    | PListed                     // wchan lock; on the wait list
    | PAsleep                     // none; on the wait list
    | PWaking                     // none; off the list, not yet runnable
    | PTaken                      // sem_lock; count taken
    // V
    | VSpin                       // none
    | VHave                       // sem_lock
    | VRaised                     // sem_lock; count raised, wakeone not yet there
    | VWchan                      // sem_lock, wchan lock
    | VPicked(target: Option<Tid>)  // sem_lock, wchan lock; head of list removed
    | VWaking(target: Option<Tid>)  // sem_lock; about to make the target runnable
    | VDone                       // sem_lock

  predicate HoldsSem(p: PC) {
    p.PHave? || p.PBridge? || p.PBoth? || p.PTaken? ||
    p.VHave? || p.VRaised? || p.VWchan? || p.VPicked? || p.VWaking? || p.VDone?
  }
  predicate HoldsWchan(p: PC) { p.PBoth? || p.PCommitted? || p.PListed? || p.VWchan? || p.VPicked? }
  predicate OnList(p: PC) { p.PListed? || p.PAsleep? }

  /** Asleep, or past the test and bound to sleep. */
  predicate Sleeping(p: PC) { p.PBridge? || p.PBoth? || p.PCommitted? || p.PListed? || p.PAsleep? }

  /** Woken, and not yet back at the test of sem_count. */
  predicate Woken(p: PC) { p.PWaking? || (p.PSpin? && p.woken) || (p.PHave? && p.woken) }

  /** A V that has raised the count but not yet looked for a sleeper. */
  predicate MidV(p: PC) { p.VRaised? || p.VWchan? }

  datatype State = State(
    count: int,
    semLock: Option<Tid>,
    wcLock: Option<Tid>,
    list: seq<Tid>,
    pc: map<Tid, PC>,
    initial: nat,
    ups: nat,                     // how often V has raised the count
    downs: nat)                   // how often P has taken it

  ghost predicate Init(s: State) {
    && s.count == s.initial && s.ups == s.downs == 0
    && s.semLock == s.wcLock == None && s.list == []
    && forall t :: t in s.pc ==> s.pc[t] == Outside
  }

  function At(s: State, t: Tid, p: PC): State { s.(pc := s.pc[t := p]) }

  /** One atomic step of thread t. */
  ghost predicate Step(s: State, s': State, t: Tid)
    requires t in s.pc
  {
    match s.pc[t]
    case Outside => s' == At(s, t, PSpin(false)) || s' == At(s, t, VSpin)
    // P
    case PSpin(w) => s.semLock.None? && s' == At(s, t, PHave(w)).(semLock := Some(t))
    case PHave(_) => s' == if s.count == 0 then At(s, t, PBridge)
                           else At(s, t, PTaken).(count := s.count - 1, downs := s.downs + 1)
    case PBridge => s.wcLock.None? && s' == At(s, t, PBoth).(wcLock := Some(t))
    case PBoth => s' == At(s, t, PCommitted).(semLock := None)
    case PCommitted => s' == At(s, t, PListed).(list := s.list + [t])
    case PListed => s' == At(s, t, PAsleep).(wcLock := None)
    case PAsleep => false                     // moved on only by a V
    case PWaking => false                     // moved on only by a V
    case PTaken => s' == At(s, t, Outside).(semLock := None)
    // V
    case VSpin => s.semLock.None? && s' == At(s, t, VHave).(semLock := Some(t))
    case VHave => s' == At(s, t, VRaised).(count := s.count + 1, ups := s.ups + 1)
    case VRaised => s.wcLock.None? && s' == At(s, t, VWchan).(wcLock := Some(t))
    case VWchan => s' == if s.list == [] then At(s, t, VPicked(None))
                         else At(At(s, s.list[0], PWaking), t, VPicked(Some(s.list[0]))).(list := s.list[1..])
    case VPicked(x) => s' == At(s, t, VWaking(x)).(wcLock := None)
    case VWaking(x) => s' == if x.None? then At(s, t, VDone)
                             else At(At(s, x.value, PSpin(true)), t, VDone)
    case VDone => s' == At(s, t, Outside).(semLock := None)
  }

  ghost predicate Next(s: State, s': State) { exists t :: t in s.pc && Step(s, s', t) }

  // -------------------------------------------------------------- the invariant

  ghost predicate Locks(s: State) {
    && (forall t :: t in s.pc ==> (s.semLock == Some(t) <==> HoldsSem(s.pc[t])))
    && (forall t :: t in s.pc ==> (s.wcLock == Some(t) <==> HoldsWchan(s.pc[t])))
    && (s.semLock.Some? ==> s.semLock.value in s.pc)
    && (s.wcLock.Some? ==> s.wcLock.value in s.pc)
  }

  ghost predicate Listed(s: State) {
    && (forall i :: 0 <= i < |s.list| ==> s.list[i] in s.pc && OnList(s.pc[s.list[i]]))
    && (forall i, j :: 0 <= i < j < |s.list| ==> s.list[i] != s.list[j])
    && (forall t :: t in s.pc && OnList(s.pc[t]) ==> t in s.list)
  }

  function Target(p: PC): Option<Tid> {
    match p
    case VPicked(x) => x
    case VWaking(x) => x
    case _ => None
  }

  /** A thread off the list and not yet runnable is in the hands of the V that took it. */
  ghost predicate InHand(s: State) {
    && (forall v :: v in s.pc && Target(s.pc[v]).Some? ==>
          Target(s.pc[v]).value in s.pc && s.pc[Target(s.pc[v]).value].PWaking?)
    && (forall t :: t in s.pc && s.pc[t].PWaking? ==>
          s.semLock.Some? && s.semLock.value in s.pc && Target(s.pc[s.semLock.value]) == Some(t))
  }

  ghost predicate Conserved(s: State) {
    && s.count >= 0
    && s.count == s.initial + s.ups - s.downs
    && (forall t :: t in s.pc && (s.pc[t].PBridge? || s.pc[t].PBoth?) ==> s.count == 0)
  }

  ghost function WokenSet(pc: map<Tid, PC>): set<Tid> { set t | t in pc && Woken(pc[t]) }
  ghost function MidVSet(pc: map<Tid, PC>): set<Tid> { set t | t in pc && MidV(pc[t]) }

  /** No wakeup is lost: as long as anyone sleeps, every unit of the count has a
      woken thread or a V in mid-flight to go with it. */
  ghost predicate NoLostWakeup(s: State) {
    (exists t :: t in s.pc && Sleeping(s.pc[t])) ==> s.count <= |WokenSet(s.pc)| + |MidVSet(s.pc)|
  }

  ghost predicate Inv(s: State) {
    Locks(s) && Listed(s) && InHand(s) && Conserved(s) && NoLostWakeup(s)
  }

  lemma InitInv(s: State)
    requires Init(s)
    ensures Inv(s)
  {
  }

  // ------------------------------------------------- what one step does, in general

  /** The thread a step moves besides its own: the one a V takes off the list or
      makes runnable.  A step that moves no other gives t itself. */
  function Other(s: State, t: Tid): Tid
    requires t in s.pc
  {
    match s.pc[t]
    case VWchan => if s.list == [] then t else s.list[0]
    case VWaking(x) => if x.None? then t else x.value
    case _ => t
  }

  /** A lock is taken when free, given up by its holder, or left alone. */
  ghost predicate LockMove(l: Option<Tid>, l': Option<Tid>, t: Tid, held: bool, held': bool) {
    if held == held' then l' == l
    else if held' then l == None && l' == Some(t)
    else l' == None
  }

  /** Only t and the other thread move, and only t touches locks. */
  ghost predicate Shape(s: State, s': State, t: Tid, x: Tid) {
    && t in s.pc && x in s.pc && t in s'.pc && x in s'.pc
    && s'.pc == (if x == t then s.pc else s.pc[x := s'.pc[x]])[t := s'.pc[t]]
    && LockMove(s.semLock, s'.semLock, t, HoldsSem(s.pc[t]), HoldsSem(s'.pc[t]))
    && LockMove(s.wcLock, s'.wcLock, t, HoldsWchan(s.pc[t]), HoldsWchan(s'.pc[t]))
    && (x != t ==>
          && !HoldsSem(s.pc[x]) && !HoldsSem(s'.pc[x]) && !HoldsWchan(s.pc[x]) && !HoldsWchan(s'.pc[x])
          && ((s.pc[t].VWchan? && s.pc[x].PAsleep? && s'.pc[x].PWaking?) ||
              (s.pc[t].VWaking? && s.pc[x].PWaking? && s'.pc[x] == PSpin(true))))
  }

  lemma StepShape(s: State, s': State, t: Tid)
    requires Locks(s) && Listed(s) && InHand(s) && t in s.pc && Step(s, s', t)
    ensures Shape(s, s', t, Other(s, t))
  {
    if Other(s, t) == t {
      OwnStepShape(s, s', t);
    } else {
      OtherStepShape(s, s', t);
    }
  }

  lemma OwnStepShape(s: State, s': State, t: Tid)
    requires t in s.pc && Step(s, s', t) && Other(s, t) == t
    requires HoldsSem(s.pc[t]) ==> s.semLock == Some(t)
    ensures Shape(s, s', t, t)
  {
  }

  lemma OtherStepShape(s: State, s': State, t: Tid)
    requires Locks(s) && Listed(s) && InHand(s) && t in s.pc && Step(s, s', t) && Other(s, t) != t
    ensures Shape(s, s', t, Other(s, t))
  {
    var x := Other(s, t);
    if s.pc[t].VWchan? {
      assert x == s.list[0];
      assert s.wcLock == Some(t);
      assert OnList(s.pc[x]) && !HoldsWchan(s.pc[x]);
    } else {
      assert Target(s.pc[t]) == Some(x);
    }
  }

  lemma StepKeepsLocks(s: State, s': State, t: Tid, x: Tid)
    requires Locks(s) && Shape(s, s', t, x)
    ensures Locks(s')
  {
  }

  /** What a step does to the list, the thread in hand and the counts. */
  ghost predicate Effects(s: State, s': State, t: Tid, x: Tid)
    requires t in s.pc && t in s'.pc
  {
    var p, p' := s.pc[t], s'.pc[t];
    && (if p.PCommitted? then s'.list == s.list + [t] && p'.PListed?
        else if x != t && p.VWchan? then s.list != [] && x == s.list[0] && s'.list == s.list[1..] && !OnList(p')
        else s'.list == s.list && OnList(p') == OnList(p))
    && Target(p') == (if x != t && p.VWchan? then Some(x) else if p.VPicked? then Target(p) else None)
    && (p.VWaking? ==> Target(p) == if x == t then None else Some(x))
    && s'.initial == s.initial
    && s'.count - s.count == (if p.VHave? then 1 else if p'.PTaken? then -1 else 0)
    && s'.ups - s.ups == (if p.VHave? then 1 else 0)
    && s'.downs - s.downs == (if p'.PTaken? then 1 else 0)
    && (p'.PTaken? ==> p.PHave? && s.count != 0)
    && (p'.PBridge? ==> s.count == 0)
    && (p'.PBoth? ==> p.PBridge?)
    && (p.VHave? ==> p'.VRaised?)
    && (Sleeping(p') ==> Sleeping(p) || p'.PBridge?)
    && (Woken(p) && !Woken(p') ==> p'.PTaken? || p'.PBridge?)
    && (MidV(p) && !MidV(p') ==> p.VWchan? && (x != t || s.list == []))
    && (MidV(p') ==> MidV(p) || p.VHave?)
    && !p.PAsleep? && !p.PWaking? && !p'.PWaking?
  }

  predicate InV(p: PC) { p.VSpin? || p.VHave? || p.VRaised? || p.VWchan? || p.VPicked? || p.VWaking? || p.VDone? }

  lemma DownEffects(s: State, s': State, t: Tid)
    requires t in s.pc && Step(s, s', t) && t in s'.pc && !InV(s.pc[t])
    ensures Effects(s, s', t, Other(s, t))
  {
  }

  lemma UpEffects(s: State, s': State, t: Tid)
    requires t in s.pc && Step(s, s', t) && t in s'.pc && InV(s.pc[t])
    requires s.pc[t].VWchan? ==> t !in s.list
    requires s.pc[t].VWaking? ==> Target(s.pc[t]) != Some(t)
    ensures Effects(s, s', t, Other(s, t))
  {
  }

  lemma StepEffects(s: State, s': State, t: Tid)
    requires t in s.pc && Step(s, s', t) && t in s'.pc
    requires s.pc[t].VWchan? ==> t !in s.list
    requires s.pc[t].VWaking? ==> Target(s.pc[t]) != Some(t)
    ensures Effects(s, s', t, Other(s, t))
  {
    if InV(s.pc[t]) { UpEffects(s, s', t); } else { DownEffects(s, s', t); }
  }

  lemma SleeperListed(s: State, s': State, t: Tid, x: Tid)
    requires Listed(s) && Shape(s, s', t, x) && Effects(s, s', t, x) && s.pc[t].PCommitted?
    ensures Listed(s')
  {
    assert t !in s.list;
  }

  lemma TargetUnlisted(s: State, s': State, t: Tid, x: Tid)
    requires Listed(s) && Shape(s, s', t, x) && Effects(s, s', t, x) && s.pc[t].VWchan? && x != t
    ensures Listed(s')
  {
    forall u | u in s'.pc && OnList(s'.pc[u]) ensures u in s'.list {
      assert u in s.list && u != s.list[0];
    }
  }

  lemma StepKeepsListed(s: State, s': State, t: Tid, x: Tid)
    requires Listed(s) && Shape(s, s', t, x) && Effects(s, s', t, x)
    ensures Listed(s')
  {
    if s.pc[t].PCommitted? {
      SleeperListed(s, s', t, x);
    } else if s.pc[t].VWchan? && x != t {
      TargetUnlisted(s, s', t, x);
    }
  }

  lemma StepKeepsInHand(s: State, s': State, t: Tid, x: Tid)
    requires Locks(s) && InHand(s) && Shape(s, s', t, x) && Effects(s, s', t, x)
    ensures InHand(s')
  {
    assert Target(s.pc[t]).Some? ==> s.semLock == Some(t);
  }

  lemma StepKeepsConserved(s: State, s': State, t: Tid, x: Tid)
    requires Locks(s) && Conserved(s) && Shape(s, s', t, x) && Effects(s, s', t, x)
    ensures Conserved(s')
  {
  }

  lemma {:induction false} SubsetSize(a: set<Tid>, b: set<Tid>)
    requires a <= b
    ensures |a| <= |b|
    decreases |a|
  {
    if a != {} {
      var x :| x in a;
      SubsetSize(a - {x}, b - {x});
    }
  }

  /** When a V finds the list empty, nobody sleeps or is bound to: whoever is past
      the test holds one of the two locks the V holds. */
  lemma EmptyListMeansNobodySleeps(s: State, t: Tid)
    requires Locks(s) && Listed(s) && t in s.pc && s.pc[t].VWchan? && s.list == []
    ensures forall u :: u in s.pc ==> !Sleeping(s.pc[u])
  {
    assert s.semLock == s.wcLock == Some(t);
  }

  lemma Resized(a: set<Tid>, a': set<Tid>, lost: set<Tid>, won: set<Tid>)
    requires a - lost <= a' && won <= a' && won !! a
    ensures |a'| >= |a| - |lost| + |won|
  {
    SubsetSize((a - lost) + won, a');
    assert |a| <= |a - lost| + |lost| by {
      assert a <= (a - lost) + lost;
      SubsetSize(a, (a - lost) + lost);
      assert (a - lost) !! lost;
    }
  }

  /** How many are woken, before and after a step. */
  lemma WokenAfter(s: State, s': State, t: Tid, x: Tid)
    requires Shape(s, s', t, x)
    ensures |WokenSet(s'.pc)| >= |WokenSet(s.pc)|
              - (if Woken(s.pc[t]) && !Woken(s'.pc[t]) then 1 else 0)
              + (if x != t && s.pc[x].PAsleep? then 1 else 0)
  {
    var lost := if Woken(s.pc[t]) && !Woken(s'.pc[t]) then {t} else {};
    var won := if x != t && s.pc[x].PAsleep? then {x} else {};
    Resized(WokenSet(s.pc), WokenSet(s'.pc), lost, won);
  }

  /** How many V are in mid-flight, before and after a step. */
  lemma MidVAfter(s: State, s': State, t: Tid, x: Tid)
    requires Shape(s, s', t, x)
    ensures |MidVSet(s'.pc)| >= |MidVSet(s.pc)|
              - (if MidV(s.pc[t]) && !MidV(s'.pc[t]) then 1 else 0)
              + (if !MidV(s.pc[t]) && MidV(s'.pc[t]) then 1 else 0)
  {
    var lost := if MidV(s.pc[t]) && !MidV(s'.pc[t]) then {t} else {};
    var won := if !MidV(s.pc[t]) && MidV(s'.pc[t]) then {t} else {};
    Resized(MidVSet(s.pc), MidVSet(s'.pc), lost, won);
  }

  lemma StepKeepsNoLostWakeup(s: State, s': State, t: Tid, x: Tid)
    requires Locks(s) && Listed(s) && Conserved(s) && NoLostWakeup(s)
    requires Shape(s, s', t, x) && Effects(s, s', t, x)
    ensures NoLostWakeup(s')
  {
    if u :| u in s'.pc && Sleeping(s'.pc[u]) {
      WokenAfter(s, s', t, x);
      MidVAfter(s, s', t, x);
      if s'.pc[t].PBridge? {
        assert s'.count == 0;
      } else if s.pc[t].VWchan? && x == t && s.list == [] {
        EmptyListMeansNobodySleeps(s, t);
        assert false;
      } else {
        assert u in s.pc && Sleeping(s.pc[u]);
        assert Woken(s.pc[t]) && !Woken(s'.pc[t]) ==> s'.pc[t].PTaken?;
      }
    }
  }

  /** Every step keeps the invariant. */
  lemma NextKeepsInv(s: State, s': State)
    requires Inv(s) && Next(s, s')
    ensures Inv(s')
  {
    var t :| t in s.pc && Step(s, s', t);
    var x := Other(s, t);
    StepShape(s, s', t);
    StepEffects(s, s', t);
    StepKeepsLocks(s, s', t, x);
    StepKeepsListed(s, s', t, x);
    StepKeepsInHand(s, s', t, x);
    StepKeepsConserved(s, s', t, x);
    StepKeepsNoLostWakeup(s, s', t, x);
  }

  // ------------------------------------------------------------------ whole runs

  ghost predicate Goes(r: seq<State>, i: nat)
    requires i + 1 < |r|
  {
    Next(r[i], r[i + 1])
  }

  ghost predicate Run(r: seq<State>) { r != [] && Init(r[0]) && forall i :: 0 <= i < |r| - 1 ==> Goes(r, i) }

  lemma {:induction false} RunKeepsInv(r: seq<State>, i: nat)
    requires Run(r) && i < |r|
    ensures Inv(r[i])
  {
    if i == 0 {
      InitInv(r[0]);
    } else {
      RunKeepsInv(r, i - 1);
      assert Goes(r, i - 1);
      NextKeepsInv(r[i - 1], r[i]);
    }
  }

  /** In every state of every run: the count is what was put in less what was
      taken out, and no wakeup is lost. */
  lemma SemaphoreIsSafe(r: seq<State>, i: nat)
    requires Run(r) && i < |r|
    ensures 0 <= r[i].count == r[i].initial + r[i].ups - r[i].downs
    ensures (exists t :: t in r[i].pc && Sleeping(r[i].pc[t])) ==>
              r[i].count <= |WokenSet(r[i].pc)| + |MidVSet(r[i].pc)|
  {
    RunKeepsInv(r, i);
  }

  /** When every thread is outside or asleep, nobody sleeps on a positive count. */
  lemma NobodySleepsOnAvailableCount(r: seq<State>, i: nat, t: Tid)
    requires Run(r) && i < |r|
    requires forall u :: u in r[i].pc ==> r[i].pc[u].Outside? || r[i].pc[u].PAsleep?
    requires t in r[i].pc && r[i].pc[t].PAsleep?
    ensures r[i].count == 0
  {
    RunKeepsInv(r, i);
    assert WokenSet(r[i].pc) == {} && MidVSet(r[i].pc) == {};
    assert Sleeping(r[i].pc[t]);
  }
}
