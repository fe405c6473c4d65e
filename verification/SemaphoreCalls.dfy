/** What the calls of P and V come to, counted from outside: by which threads return from
    them, and when, and not by what their steps say they do. */
module SemaphoreCalls {

  import opened Options
  import opened Semaphore

  predicate InP(p: PC) { !p.Outside? && !InV(p) }
  predicate HasTaken(p: PC) { p.PTaken? }
  predicate HasRaised(p: PC) { p.VRaised? || p.VWchan? || p.VPicked? || p.VWaking? || p.VDone? }

  ghost function Who(pc: map<Tid, PC>, at: PC -> bool): set<Tid> { set t | t in pc && at(pc[t]) }

  /** Those who return, and those who call, between two states. */
  ghost function Leaving(s: State, s': State, from: PC -> bool): set<Tid> {
    set t | t in s.pc && t in s'.pc && from(s.pc[t]) && s'.pc[t].Outside?
  }

  ghost function Entering(s: State, s': State, to: PC -> bool): set<Tid> {
    set t | t in s.pc && t in s'.pc && s.pc[t].Outside? && to(s'.pc[t])
  }

  /** How many have returned, and called, up to the i-th state of a run. */
  ghost function Returned(r: seq<State>, i: nat, from: PC -> bool): nat
    requires i < |r|
  {
    if i == 0 then 0 else Returned(r, i - 1, from) + |Leaving(r[i - 1], r[i], from)|
  }

  ghost function Called(r: seq<State>, i: nat, to: PC -> bool): nat
    requires i < |r|
  {
    if i == 0 then 0 else Called(r, i - 1, to) + |Entering(r[i - 1], r[i], to)|
  }

  /** What t, moving from p to p', does to the numbers. */
  ghost predicate Edge(p: PC, p': PC) {
    && (p'.Outside? ==> p.PTaken? || p.VDone?)
    && (p.PTaken? || p.VDone? ==> p'.Outside?)
    && (p.Outside? ==> InP(p') || InV(p')) && (InP(p) && !p.PTaken? ==> InP(p')) && (InV(p) && !p.VDone? ==> InV(p'))
    && (HasRaised(p) && !p.VDone? ==> HasRaised(p')) && (HasRaised(p') ==> HasRaised(p) || p.VHave?)
    && (p.VHave? ==> HasRaised(p')) && (p.Outside? ==> !HasRaised(p') && !p'.PTaken?)
  }

  lemma StepEdge(s: State, s': State, t: Tid)
    requires t in s.pc && Step(s, s', t) && t in s'.pc
    requires s.pc[t].VWchan? ==> t !in s.list
    requires s.pc[t].VWaking? ==> Target(s.pc[t]) != Some(t)
    ensures Edge(s.pc[t], s'.pc[t])
  {
  }

  lemma WhoMoves(s: State, s': State, t: Tid, x: Tid, at: PC -> bool)
    requires Shape(s, s', t, x) && (x != t ==> !at(s.pc[x]) && !at(s'.pc[x]))
    ensures Who(s'.pc, at) == Who(s.pc, at) - {t} + (if at(s'.pc[t]) then {t} else {})
  {
  }

  lemma LeavingIs(s: State, s': State, t: Tid, x: Tid, from: PC -> bool)
    requires Shape(s, s', t, x) && !from(Outside)
    ensures Leaving(s, s', from) == if from(s.pc[t]) && s'.pc[t].Outside? then {t} else {}
  {
  }

  lemma EnteringIs(s: State, s': State, t: Tid, x: Tid, to: PC -> bool)
    requires Shape(s, s', t, x) && !to(Outside)
    ensures Entering(s, s', to) == if s.pc[t].Outside? && to(s'.pc[t]) then {t} else {}
  {
  }

  lemma Size(a: set<Tid>, t: Tid, now: bool)
    ensures |a - {t} + (if now then {t} else {})| == |a| - (if t in a then 1 else 0) + (if now then 1 else 0)
  {
    if t in a { assert a == (a - {t}) + {t}; } else { assert a - {t} == a; }
    if !now { assert a - {t} + {} == a - {t}; }
  }

  /** What a step is, as far as the numbers go. */
  ghost predicate Moves(s: State, s': State, t: Tid, x: Tid) {
    && Shape(s, s', t, x) && Edge(s.pc[t], s'.pc[t])
    && s'.downs - s.downs == (if s'.pc[t].PTaken? then 1 else 0)
    && s'.ups - s.ups == (if s.pc[t].VHave? then 1 else 0)
    && s'.initial == s.initial && (s'.pc[t].PTaken? ==> s.pc[t].PHave?)
  }

  lemma StepMoves(s: State, s': State) returns (t: Tid, x: Tid)
    requires Inv(s) && Next(s, s')
    ensures Moves(s, s', t, x)
  {
    t :| t in s.pc && Step(s, s', t);
    x := Other(s, t);
    StepShape(s, s', t);
    StepEffects(s, s', t);
    StepEdge(s, s', t);
  }

  lemma DownNumbers(s: State, s': State, t: Tid, x: Tid)
    requires Moves(s, s', t, x)
    ensures |Leaving(s, s', InP)| + |Who(s'.pc, HasTaken)| - |Who(s.pc, HasTaken)| == s'.downs - s.downs
  {
    LeavingIs(s, s', t, x, InP);
    WhoMoves(s, s', t, x, HasTaken);
    Size(Who(s.pc, HasTaken), t, s'.pc[t].PTaken?);
  }

  lemma UpNumbers(s: State, s': State, t: Tid, x: Tid)
    requires Moves(s, s', t, x)
    ensures |Leaving(s, s', InV)| + |Who(s'.pc, HasRaised)| - |Who(s.pc, HasRaised)| == s'.ups - s.ups
  {
    LeavingIs(s, s', t, x, InV);
    WhoMoves(s, s', t, x, HasRaised);
    Size(Who(s.pc, HasRaised), t, HasRaised(s'.pc[t]));
  }

  lemma CallNumbers(s: State, s': State, t: Tid, x: Tid)
    requires Moves(s, s', t, x)
    ensures |Entering(s, s', InV)| == |Leaving(s, s', InV)| + |Who(s'.pc, InV)| - |Who(s.pc, InV)|
  {
    LeavingIs(s, s', t, x, InV);
    EnteringIs(s, s', t, x, InV);
    WhoMoves(s, s', t, x, InV);
    Size(Who(s.pc, InV), t, InV(s'.pc[t]));
  }

  lemma StepNumbers(s: State, s': State)
    requires Inv(s) && Next(s, s')
    ensures |Leaving(s, s', InP)| + |Who(s'.pc, HasTaken)| - |Who(s.pc, HasTaken)| == s'.downs - s.downs
    ensures |Leaving(s, s', InV)| + |Who(s'.pc, HasRaised)| - |Who(s.pc, HasRaised)| == s'.ups - s.ups
    ensures |Entering(s, s', InV)| == |Leaving(s, s', InV)| + |Who(s'.pc, InV)| - |Who(s.pc, InV)|
    ensures s'.initial == s.initial
  {
    var t, x := StepMoves(s, s');
    DownNumbers(s, s', t, x);
    UpNumbers(s, s', t, x);
    CallNumbers(s, s', t, x);
  }

  /** In every run: the Ps that have returned, and those about to, are the units taken out of
      the count; the Vs that have raised it, returned or not, the units put in; and of the Vs
      called those that have not returned are under way. */
  lemma {:induction false} ReturnsAreCounted(r: seq<State>, i: nat)
    requires Run(r) && i < |r|
    ensures Returned(r, i, InP) + |Who(r[i].pc, HasTaken)| == r[i].downs
    ensures Returned(r, i, InV) + |Who(r[i].pc, HasRaised)| == r[i].ups
    ensures Called(r, i, InV) == Returned(r, i, InV) + |Who(r[i].pc, InV)|
    ensures r[i].initial == r[0].initial
  {
    if i == 0 {
      assert Who(r[0].pc, HasTaken) == {} && Who(r[0].pc, HasRaised) == {} && Who(r[0].pc, InV) == {};
    } else {
      ReturnsAreCounted(r, i - 1);
      RunKeepsInv(r, i - 1);
      assert Goes(r, i - 1);
      StepNumbers(r[i - 1], r[i]);
    }
  }

  /** No more Ps return than the initial count and the Vs called allow. */
  lemma PsNeedVs(r: seq<State>, i: nat)
    requires Run(r) && i < |r|
    ensures Returned(r, i, InP) <= r[0].initial + Called(r, i, InV)
  {
    ReturnsAreCounted(r, i);
    SemaphoreIsSafe(r, i);
    assert Who(r[i].pc, HasRaised) <= Who(r[i].pc, InV);
    SubsetSize(Who(r[i].pc, HasRaised), Who(r[i].pc, InV));
  }

  /** And when nothing is under way but sleep, the units not taken by a P that returned are
      all still there: with none left, or nobody asleep. */
  lemma NothingIsLost(r: seq<State>, i: nat)
    requires Run(r) && i < |r|
    requires forall t :: t in r[i].pc ==> r[i].pc[t].Outside? || r[i].pc[t].PAsleep?
    ensures r[i].count == r[0].initial + Called(r, i, InV) - Returned(r, i, InP)
    ensures (exists t :: t in r[i].pc && r[i].pc[t].PAsleep?) ==> r[i].count == 0
  {
    ReturnsAreCounted(r, i);
    SemaphoreIsSafe(r, i);
    assert Who(r[i].pc, HasTaken) == {} && Who(r[i].pc, HasRaised) == {} && Who(r[i].pc, InV) == {};
    if t :| t in r[i].pc && r[i].pc[t].PAsleep? { NobodySleepsOnAvailableCount(r, i, t); }
  }

  /** The wait list is a queue: a thread joins it at the end when it goes to sleep, and the
      one that has slept longest is the one that is woken. */
  ghost predicate Queued(pc: map<Tid, PC>, pc': map<Tid, PC>, l: seq<Tid>, l': seq<Tid>) {
    || (l' == l && forall t :: t in pc && t in pc' ==> OnList(pc'[t]) == OnList(pc[t]))
    || (exists t :: t in pc && t in pc' && !OnList(pc[t]) && OnList(pc'[t]) && l' == l + [t])
    || (l != [] && l[0] in pc' && pc'[l[0]].PWaking? && l' == l[1..])
  }

  lemma EffectsQueue(s: State, s': State, t: Tid, x: Tid)
    requires Shape(s, s', t, x) && Effects(s, s', t, x)
    ensures Queued(s.pc, s'.pc, s.list, s'.list)
  {
    if s.pc[t].PCommitted? { assert !OnList(s.pc[t]) && OnList(s'.pc[t]); }
  }

  lemma SleepersQueue(r: seq<State>, i: nat)
    requires Run(r) && i + 1 < |r|
    ensures Queued(r[i].pc, r[i + 1].pc, r[i].list, r[i + 1].list)
  {
    RunKeepsInv(r, i);
    assert Goes(r, i);
    var t :| t in r[i].pc && Step(r[i], r[i + 1], t);
    StepShape(r[i], r[i + 1], t);
    StepEffects(r[i], r[i + 1], t);
    EffectsQueue(r[i], r[i + 1], t, Other(r[i], t));
  }
}
