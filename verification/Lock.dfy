/** lock_acquire, lock_release and lock_do_i_hold on one lock, by any number of
    threads, interleaved at every spinlock operation and at every read and write
    of the lock's two fields. */
module Lock {

  import opened Options

  type Tid = nat

  /** Where a thread is.  "spin" is lk_spinlock, "wc" the wait channel's lock. */
  datatype PC =
    | Out                          // does not hold the lock
    | In                           // holds the lock
    | Ask(inside: bool)            // lock_do_i_hold: about to read hold
    | AskHalf(inside: bool, h: bool)  // hold was read, about to read owner
    // lock_acquire
    | ASpin(woken: bool)           // about to take spin
    | AHave(woken: bool)           // spin; about to test hold
    | ABridge                      // spin; about to take wc
    | ABoth                        // spin, wc
    | ACommitted                   // wc
    | AListed                      // wc; on the wait list
    | AAsleep                      // on the wait list
    | AWaking                      // off the list, not yet runnable
    | AMarked                      // spin; hold is set
    | AOwned                       // spin; owner is set
    // lock_release
    | RSpin                        // about to take spin
    | RHave                        // spin
    | RFreed                       // spin; hold is cleared
    | RCleared                     // spin; owner is cleared, about to take wc
    | RWchan                       // spin, wc
    | RPicked(target: Option<Tid>) // spin, wc; list head removed
    | RWaking(target: Option<Tid>) // spin
    | RDone                        // spin

  predicate HoldsSpin(p: PC) {
    p.AHave? || p.ABridge? || p.ABoth? || p.AMarked? || p.AOwned? || p.RHave? ||
    p.RFreed? || p.RCleared? || p.RWchan? || p.RPicked? || p.RWaking? || p.RDone?
  }
  predicate HoldsWc(p: PC) { p.ABoth? || p.ACommitted? || p.AListed? || p.RWchan? || p.RPicked? }

  /** From setting hold to clearing it. */
  predicate HasHold(p: PC) {
    p.In? || (p.Ask? && p.inside) || (p.AskHalf? && p.inside) || p.AMarked? || p.AOwned? || p.RSpin? || p.RHave?
  }
  /** From setting owner to clearing it. */
  predicate HasOwner(p: PC) { (HasHold(p) && !p.AMarked?) || p.RFreed? }

  predicate OnList(p: PC) { p.AListed? || p.AAsleep? }

  /** Asleep, or past the test and bound to sleep. */
  predicate Sleeping(p: PC) { p.ABridge? || p.ABoth? || p.ACommitted? || p.AListed? || p.AAsleep? }
  /** Woken by a release, and not yet back at the test of hold. */
  predicate Woken(p: PC) { p.AWaking? || (p.ASpin? && p.woken) || (p.AHave? && p.woken) }
  /** A release that has freed the lock but not yet looked for a sleeper. */
  predicate MidRelease(p: PC) { p.RFreed? || p.RCleared? || p.RWchan? }

  datatype State = State(
    hold: bool,
    owner: Option<Tid>,
    holder: Option<Tid>,           // auxiliary: the thread that set hold
    spin: Option<Tid>,
    wc: Option<Tid>,
    list: seq<Tid>,
    pc: map<Tid, PC>)

  ghost predicate Init(s: State) {
    && !s.hold && s.owner == s.holder == s.spin == s.wc == None && s.list == []
    && forall t :: t in s.pc ==> s.pc[t] == Out
  }

  function At(s: State, t: Tid, p: PC): State { s.(pc := s.pc[t := p]) }

  /** What a thread outside the routines may call, and the two reads of
      lock_do_i_hold, which take no spinlock. */
  ghost predicate CallStep(s: State, s': State, t: Tid)
    requires t in s.pc
  {
    match s.pc[t]
    case Out => s' == At(s, t, ASpin(false)) || s' == At(s, t, Ask(false))
    case In => s' == At(s, t, RSpin) || s' == At(s, t, Ask(true))
    case Ask(inside) => s' == At(s, t, AskHalf(inside, s.hold))
    case AskHalf(inside, _) => s' == At(s, t, if inside then In else Out)
    case _ => false
  }

  ghost predicate AcquireStep(s: State, s': State, t: Tid)
    requires t in s.pc
  {
    match s.pc[t]
    case ASpin(w) => s.spin.None? && s' == At(s, t, AHave(w)).(spin := Some(t))
    case AHave(_) => s' == if s.hold then At(s, t, ABridge) else At(s, t, AMarked).(hold := true, holder := Some(t))
    case ABridge => s.wc.None? && s' == At(s, t, ABoth).(wc := Some(t))
    case ABoth => s' == At(s, t, ACommitted).(spin := None)
    case ACommitted => s' == At(s, t, AListed).(list := s.list + [t])
    case AListed => s' == At(s, t, AAsleep).(wc := None)
    case AMarked => s' == At(s, t, AOwned).(owner := Some(t))
    case AOwned => s' == At(s, t, In).(spin := None)
    case _ => false                // AAsleep and AWaking are moved on by a release
  }

  ghost predicate ReleaseStep(s: State, s': State, t: Tid)
    requires t in s.pc
  {
    match s.pc[t]
    case RSpin => s.spin.None? && s' == At(s, t, RHave).(spin := Some(t))
    case RHave => s' == At(s, t, RFreed).(hold := false, holder := None)
    case RFreed => s' == At(s, t, RCleared).(owner := None)
    case RCleared => s.wc.None? && s' == At(s, t, RWchan).(wc := Some(t))
    case RWchan => s' == if s.list == [] then At(s, t, RPicked(None))
                         else At(At(s, s.list[0], AWaking), t, RPicked(Some(s.list[0]))).(list := s.list[1..])
    case RPicked(x) => s' == At(s, t, RWaking(x)).(wc := None)
    case RWaking(x) => s' == if x.None? then At(s, t, RDone) else At(At(s, x.value, ASpin(true)), t, RDone)
    case RDone => s' == At(s, t, Out).(spin := None)
    case _ => false
  }

  ghost predicate Step(s: State, s': State, t: Tid)
    requires t in s.pc
  {
    CallStep(s, s', t) || AcquireStep(s, s', t) || ReleaseStep(s, s', t)
  }

  ghost predicate Next(s: State, s': State) { exists t :: t in s.pc && Step(s, s', t) }

  // -------------------------------------------------------------- the invariant

  /** l names exactly the thread that is in the given kind of place. */
  ghost predicate Owned(l: Option<Tid>, pc: map<Tid, PC>, holds: PC -> bool) {
    && (forall t :: t in pc ==> (l == Some(t) <==> holds(pc[t])))
    && (l.Some? ==> l.value in pc)
  }

  ghost predicate Locks(s: State) {
    && Owned(s.spin, s.pc, HoldsSpin) && Owned(s.wc, s.pc, HoldsWc)
    && Owned(s.holder, s.pc, HasHold) && Owned(s.owner, s.pc, HasOwner)
    && s.hold == s.holder.Some?
    && forall t :: t in s.pc && (s.pc[t].ABridge? || s.pc[t].ABoth?) ==> s.hold
  }

  ghost predicate Listed(s: State) {
    && (forall i :: 0 <= i < |s.list| ==> s.list[i] in s.pc && OnList(s.pc[s.list[i]]))
    && (forall i, j :: 0 <= i < j < |s.list| ==> s.list[i] != s.list[j])
    && (forall t :: t in s.pc && OnList(s.pc[t]) ==> t in s.list)
  }

  function Target(p: PC): Option<Tid> {
    match p
    case RPicked(x) => x
    case RWaking(x) => x
    case _ => None
  }

  /** A thread off the list and not yet runnable is in the hands of the release that took it. */
  ghost predicate InHand(s: State) {
    && (forall v :: v in s.pc && Target(s.pc[v]).Some? ==>
          Target(s.pc[v]).value in s.pc && s.pc[Target(s.pc[v]).value].AWaking?)
    && (forall t :: t in s.pc && s.pc[t].AWaking? ==>
          s.spin.Some? && s.spin.value in s.pc && Target(s.pc[s.spin.value]) == Some(t))
  }

  /** What the first, unlocked read of lock_do_i_hold returned to a holder. */
  ghost predicate AskedRight(s: State) {
    forall t :: t in s.pc && s.pc[t].AskHalf? && s.pc[t].inside ==> s.pc[t].h
  }

  ghost predicate WillAct(p: PC) { Woken(p) || MidRelease(p) }

  /** A free lock with a sleeper always has a woken thread, or a release in
      mid-flight, that will act on it. */
  ghost predicate NoLostWakeup(s: State) {
    (exists t :: t in s.pc && Sleeping(s.pc[t])) && !s.hold ==> exists t :: t in s.pc && WillAct(s.pc[t])
  }

  ghost predicate Inv(s: State) {
    Locks(s) && Listed(s) && InHand(s) && AskedRight(s) && NoLostWakeup(s)
  }

  lemma InitInv(s: State)
    requires Init(s)
    ensures Inv(s)
  {
  }

  // ------------------------------------------------- what one step does, in general

  /** The thread a step moves besides its own: a sleeper taken off the list or made
      runnable.  A step that moves no other gives t itself. */
  function Other(s: State, t: Tid): Tid
    requires t in s.pc
  {
    match s.pc[t]
    case RWchan => if s.list == [] then t else s.list[0]
    case RWaking(x) => if x.None? then t else x.value
    case _ => t
  }

  ghost predicate LockMove(l: Option<Tid>, l': Option<Tid>, t: Tid, held: bool, held': bool) {
    if held == held' then l' == l
    else if held' then l == None && l' == Some(t)
    else l' == None
  }

  ghost predicate Moved(pc: map<Tid, PC>, pc': map<Tid, PC>, t: Tid, x: Tid) {
    && t in pc && x in pc && t in pc' && x in pc'
    && pc' == (if x == t then pc else pc[x := pc'[x]])[t := pc'[t]]
    && (x != t ==> (pc[t].RWchan? && pc[x].AAsleep? && pc'[x].AWaking?) ||
                   (pc[t].RWaking? && pc[x].AWaking? && pc'[x] == ASpin(true)))
  }

  ghost predicate LockEffects(s: State, s': State, t: Tid, p: PC, p': PC) {
    && LockMove(s.spin, s'.spin, t, HoldsSpin(p), HoldsSpin(p'))
    && LockMove(s.wc, s'.wc, t, HoldsWc(p), HoldsWc(p'))
    && LockMove(s.holder, s'.holder, t, HasHold(p), HasHold(p'))
    && LockMove(s.owner, s'.owner, t, HasOwner(p), HasOwner(p'))
    && s'.hold == s'.holder.Some?
    && (p'.ABridge? || p'.ABoth? ==> s.hold && s'.hold)
    && (s.hold && !s'.hold ==> p.RHave? && p'.RFreed?)
  }

  ghost predicate ListEffects(s: State, s': State, t: Tid, x: Tid, p: PC, p': PC) {
    && (if p.ACommitted? then s'.list == s.list + [t] && p'.AListed?
        else if p.RWchan? && x != t then s.list != [] && x == s.list[0] && s'.list == s.list[1..] && !OnList(p')
        else s'.list == s.list && OnList(p') == OnList(p))
    && Target(p') == (if x != t && p.RWchan? then Some(x) else if p.RPicked? then Target(p) else None)
    && (p.RWaking? ==> Target(p) == if x == t then None else Some(x))
    && !p.AWaking? && !p'.AWaking?
  }

  ghost predicate WaitEffects(s: State, s': State, t: Tid, x: Tid, p: PC, p': PC) {
    && (p'.AskHalf? ==> p == Ask(p'.inside) && p'.h == s.hold)
    && (Sleeping(p') ==> Sleeping(p) || s'.hold)
    && (Woken(p) && !Woken(p') ==> s'.hold)
    && (MidRelease(p) && !MidRelease(p') ==> p.RWchan?)
    && (p.RWchan? && x == t ==> s.list == [])
  }

  ghost predicate Effects(s: State, s': State, t: Tid, x: Tid) {
    && Moved(s.pc, s'.pc, t, x)
    && LockEffects(s, s', t, s.pc[t], s'.pc[t])
    && ListEffects(s, s', t, x, s.pc[t], s'.pc[t])
    && WaitEffects(s, s', t, x, s.pc[t], s'.pc[t])
  }

  /** The facts of the invariant that one step looks at. */
  ghost predicate Local(s: State, t: Tid) {
    && t in s.pc && Other(s, t) in s.pc
    && s.hold == s.holder.Some?
    && (s.pc[t].AMarked? ==> s.owner == None && s.hold)
    && (s.pc[t].ABridge? || s.pc[t].ABoth? ==> s.hold)
    && (s.pc[t].RWchan? && s.list != [] ==> s.list[0] != t && s.pc[s.list[0]].AAsleep?)
    && (s.pc[t].RWaking? && s.pc[t].target.Some? ==> s.pc[t].target.value != t && s.pc[s.pc[t].target.value].AWaking?)
  }

  lemma InvLocal(s: State, t: Tid)
    requires Locks(s) && Listed(s) && InHand(s) && t in s.pc
    ensures Local(s, t)
  {
    var p := s.pc[t];
    if p.RWchan? && s.list != [] {
      assert OnList(s.pc[s.list[0]]);
      assert s.wc == Some(t) && !HoldsWc(s.pc[s.list[0]]);
    }
    if p.RWaking? && p.target.Some? {
      assert Target(p) == p.target;
    }
    if p.AMarked? && s.owner.Some? {
      OwnerIsHolder(s);
      assert false;
    }
  }

  lemma OwnerIsHolder(s: State)
    requires Locks(s) && s.owner.Some?
    ensures s.owner == s.holder || s.owner == s.spin
    ensures HasOwner(s.pc[s.owner.value])
  {
    assert HasOwner(s.pc[s.owner.value]);
  }

  lemma CallEffects(s: State, s': State, t: Tid)
    requires Local(s, t) && CallStep(s, s', t)
    ensures Effects(s, s', t, Other(s, t))
  {
  }

  predicate BeforeSleep(p: PC) { p.ASpin? || p.AHave? || p.ABridge? || p.ABoth? }

  lemma TestEffects(s: State, s': State, t: Tid)
    requires Local(s, t) && AcquireStep(s, s', t) && BeforeSleep(s.pc[t])
    ensures Effects(s, s', t, Other(s, t))
  {
  }

  lemma SleepEffects(s: State, s': State, t: Tid)
    requires Local(s, t) && AcquireStep(s, s', t) && !BeforeSleep(s.pc[t])
    ensures Effects(s, s', t, Other(s, t))
  {
  }

  lemma FreeEffects(s: State, s': State, t: Tid)
    requires Local(s, t) && ReleaseStep(s, s', t)
    requires s.pc[t].RSpin? || s.pc[t].RHave? || s.pc[t].RFreed? || s.pc[t].RCleared?
    ensures Effects(s, s', t, Other(s, t))
  {
  }

  lemma WakeEffects(s: State, s': State, t: Tid)
    requires Local(s, t) && ReleaseStep(s, s', t) && (s.pc[t].RWchan? || s.pc[t].RWaking?)
    ensures Effects(s, s', t, Other(s, t))
  {
  }

  lemma LeaveEffects(s: State, s': State, t: Tid)
    requires Local(s, t) && ReleaseStep(s, s', t) && (s.pc[t].RPicked? || s.pc[t].RDone?)
    ensures Effects(s, s', t, Other(s, t))
  {
  }

  lemma StepEffects(s: State, s': State, t: Tid)
    requires Local(s, t) && Step(s, s', t)
    ensures Effects(s, s', t, Other(s, t))
  {
    if CallStep(s, s', t) { CallEffects(s, s', t); }
    else if AcquireStep(s, s', t) {
      if BeforeSleep(s.pc[t]) { TestEffects(s, s', t); } else { SleepEffects(s, s', t); }
    }
    else if s.pc[t].RSpin? || s.pc[t].RHave? || s.pc[t].RFreed? || s.pc[t].RCleared? { FreeEffects(s, s', t); }
    else if s.pc[t].RWchan? || s.pc[t].RWaking? { WakeEffects(s, s', t); }
    else { LeaveEffects(s, s', t); }
  }

  // --------------------------------------------------- every step keeps the invariant

  lemma OwnedAfter(l: Option<Tid>, l': Option<Tid>, pc: map<Tid, PC>, pc': map<Tid, PC>, t: Tid, x: Tid,
      holds: PC -> bool)
    requires Owned(l, pc, holds) && Moved(pc, pc', t, x)
    requires LockMove(l, l', t, holds(pc[t]), holds(pc'[t]))
    requires x != t ==> !holds(pc[x]) && !holds(pc'[x])
    ensures Owned(l', pc', holds)
  {
  }

  lemma StepKeepsLocks(s: State, s': State, t: Tid, x: Tid)
    requires Locks(s) && Effects(s, s', t, x)
    ensures Locks(s')
  {
    OwnedAfter(s.spin, s'.spin, s.pc, s'.pc, t, x, HoldsSpin);
    OwnedAfter(s.wc, s'.wc, s.pc, s'.pc, t, x, HoldsWc);
    OwnedAfter(s.holder, s'.holder, s.pc, s'.pc, t, x, HasHold);
    OwnedAfter(s.owner, s'.owner, s.pc, s'.pc, t, x, HasOwner);
  }

  lemma SleeperListed(s: State, s': State, t: Tid, x: Tid)
    requires Listed(s) && Effects(s, s', t, x) && s.pc[t].ACommitted?
    ensures Listed(s')
  {
    assert t !in s.list;
  }

  lemma TargetUnlisted(s: State, s': State, t: Tid, x: Tid)
    requires Listed(s) && Effects(s, s', t, x) && s.pc[t].RWchan? && x != t
    ensures Listed(s')
  {
    forall u | u in s'.pc && OnList(s'.pc[u]) ensures u in s'.list {
      assert u in s.list && u != s.list[0];
    }
  }

  lemma StepKeepsListed(s: State, s': State, t: Tid, x: Tid)
    requires Listed(s) && Effects(s, s', t, x)
    ensures Listed(s')
  {
    if s.pc[t].ACommitted? {
      SleeperListed(s, s', t, x);
    } else if s.pc[t].RWchan? && x != t {
      TargetUnlisted(s, s', t, x);
    }
  }

  lemma StepKeepsInHand(s: State, s': State, t: Tid, x: Tid)
    requires Locks(s) && InHand(s) && Effects(s, s', t, x)
    ensures InHand(s')
  {
    assert Target(s.pc[t]).Some? ==> s.spin == Some(t);
  }

  lemma StepKeepsAskedRight(s: State, s': State, t: Tid, x: Tid)
    requires Locks(s) && AskedRight(s) && Effects(s, s', t, x)
    ensures AskedRight(s')
  {
  }

  /** When a release finds the list empty, nobody sleeps or is bound to. */
  lemma EmptyListMeansNobodySleeps(s: State, t: Tid)
    requires Locks(s) && Listed(s) && t in s.pc && s.pc[t].RWchan? && s.list == []
    ensures forall u :: u in s.pc ==> !Sleeping(s.pc[u])
  {
    assert s.spin == s.wc == Some(t);
  }

  lemma StepKeepsNoLostWakeup(s: State, s': State, t: Tid, x: Tid)
    requires Locks(s) && Listed(s) && NoLostWakeup(s) && Effects(s, s', t, x)
    ensures NoLostWakeup(s')
  {
    if u :| u in s'.pc && Sleeping(s'.pc[u]) && !s'.hold {
      assert u in s.pc && Sleeping(s.pc[u]);
      if s.hold {
        assert WillAct(s'.pc[t]);
      } else {
        var w :| w in s.pc && WillAct(s.pc[w]);
        if w != t {
          assert w == x || s'.pc[w] == s.pc[w];
          assert WillAct(s'.pc[w]);
        } else if x != t {
          assert WillAct(s'.pc[x]);
        } else if s.pc[t].RWchan? {
          EmptyListMeansNobodySleeps(s, t);
          assert false;
        } else {
          assert WillAct(s'.pc[t]);
        }
      }
    }
  }

  lemma NextKeepsInv(s: State, s': State)
    requires Inv(s) && Next(s, s')
    ensures Inv(s')
  {
    var t :| t in s.pc && Step(s, s', t);
    var x := Other(s, t);
    InvLocal(s, t);
    StepEffects(s, s', t);
    StepKeepsLocks(s, s', t, x);
    StepKeepsListed(s, s', t, x);
    StepKeepsInHand(s, s', t, x);
    StepKeepsAskedRight(s, s', t, x);
    StepKeepsNoLostWakeup(s, s', t, x);
  }

  // ------------------------------------------------------------------ whole runs

  ghost predicate Goes(r: seq<State>, i: nat)
    requires i + 1 < |r|
  {
    Next(r[i], r[i + 1])
  }

  ghost predicate Run(r: seq<State>) { r != [] && Init(r[0]) && forall i :: 0 <= i < |r| - 1 ==> Goes(r, i) }

  lemma {:induction false} RunKeepsInv(r: seq<State>, i: nat)
    requires Run(r) && i < |r|
    ensures Inv(r[i])
  {
    if i == 0 {
      InitInv(r[0]);
    } else {
      RunKeepsInv(r, i - 1);
      assert Goes(r, i - 1);
      NextKeepsInv(r[i - 1], r[i]);
    }
  }

  /** At most one thread holds the lock. */
  lemma MutualExclusion(r: seq<State>, i: nat, t: Tid, u: Tid)
    requires Run(r) && i < |r| && t in r[i].pc && u in r[i].pc
    requires HasHold(r[i].pc[t]) && HasHold(r[i].pc[u])
    ensures t == u && r[i].hold
  {
    RunKeepsInv(r, i);
  }

  /** The two unlocked reads of lock_do_i_hold answer correctly for the caller,
      whatever other threads do between them. */
  lemma DoIHoldIsRight(r: seq<State>, i: nat, t: Tid)
    requires Run(r) && i < |r| && t in r[i].pc && r[i].pc[t].AskHalf?
    ensures (r[i].pc[t].h && r[i].owner == Some(t)) <==> r[i].pc[t].inside
  {
    RunKeepsInv(r, i);
  }

  /** A free lock with a sleeper always has a thread that will act on it. */
  lemma FreeLockIsNotForgotten(r: seq<State>, i: nat, t: Tid)
    requires Run(r) && i < |r| && t in r[i].pc && Sleeping(r[i].pc[t]) && !r[i].hold
    ensures exists u :: u in r[i].pc && WillAct(r[i].pc[u])
  {
    RunKeepsInv(r, i);
  }
}
