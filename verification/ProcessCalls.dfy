/** What fork, _exit and waitpid come to over a run, from the state in which they are called to
    the state in which they return. */
module ProcessCalls {

  import opened Processes

  predicate InExit(p: Phase) {
    p.ExitCall? || p.ExitCode? || p.ExitFlag? || p.ExitCast? || p.ExitFree? || p.Exited? || p.Freed? || p.Dead?
  }

  /** How far an _exit is. */
  function Rank(p: Phase): nat {
    match p
    case ExitCall(_) => 1
    case ExitCode(_) => 2
    case ExitFlag(_) => 3
    case ExitCast(_) => 4
    case ExitFree(_) => 5
    case Exited(_) => 6
    case Freed(_) => 7
    case Dead(_) => 8
    case _ => 0
  }

  predicate InFork(p: Phase) { p.Counted? || p.Forking? || p.Recorded? || p.Returning? || p.Forked? }

  /** A process that moves goes on in its call, begins one, or ends one. */
  ghost predicate Edge(p: Phase, p': Phase) {
    && (InExit(p) ==> InExit(p') && p'.code == p.code && Rank(p') == Rank(p) + 1)
    && (!InExit(p) && InExit(p') ==> p.Running? && p'.ExitCall?)
    && (Waits(p) ==> if p.WaitDone? then p'.Running? else Waits(p') && p'.child == p.child)
    && (!Waits(p) && Waits(p') ==> p.Running? && p'.WaitCall?)
    && (InFork(p) ==> if p.Forked? then p'.Running? else InFork(p') || p'.MenuWait?)
    && (!InFork(p) && InFork(p') ==> p.Running? && p'.Counted?)
    && (p.Recorded? ==> p' == Returning(p.child)) && (p.Returning? ==> p'.Forked? && p'.child == p.child)
    && (p'.Returning? ==> p.Recorded?) && (p'.Forked? ==> p.Returning?)
    && (p.NoChild? || p.Embryo? ==> p'.Running?) && (p'.MenuWait? ==> p.Forking?) && !p'.Embryo?
  }

  /** What keeps the step of t away from u. */
  ghost predicate Apart(s: State, t: Pid) {
    && s.counter !in s.phase
    && (t in s.phase && Making(s.phase[t]) ==>
          s.phase[t].child in s.phase && s.phase[s.phase[t].child].Embryo? && s.phase[t].child != t)
  }

  lemma InvApart(s: State, t: Pid)
    requires Inv(s)
    ensures Apart(s, t)
  {
  }

  /** Where u is after a step of t: nobody else is moved but a sleeper and a newborn. */
  ghost predicate Fine(s: State, s': State, t: Pid, u: Pid) {
    u in s.phase ==>
      && u in s'.phase && (s'.phase[u] == s.phase[u] || Edge(s.phase[u], s'.phase[u]))
      && (u != t && s'.phase[u] != s.phase[u] ==> s.phase[u].Asleep? || s.phase[u].Embryo?)
  }

  lemma CallEdge(s: State, s': State, t: Pid, u: Pid)
    requires t in s.phase && t in s.children && s.phase[t].Running? && Call(s, s', t)
    ensures Fine(s, s', t, u)
  {
  }

  lemma ForkEdge(s: State, s': State, t: Pid, u: Pid)
    requires Apart(s, t) && t in s.phase && t in s.children && ForkStep(s, s', t)
    ensures Fine(s, s', t, u)
  {
  }

  lemma WaitEdge(s: State, s': State, t: Pid, u: Pid)
    requires t in s.phase && WaitStep(s, s', t)
    ensures Fine(s, s', t, u)
  {
  }

  lemma ExitEdge(s: State, s': State, t: Pid, u: Pid)
    requires t in s.phase && ExitStep(s, s', t)
    ensures Fine(s, s', t, u)
  {
  }

  lemma StepEdge(s: State, s': State, t: Pid, u: Pid)
    requires Apart(s, t) && Step(s, s', t)
    ensures Fine(s, s', t, u)
  {
    if s.phase[t].Running? {
      CallEdge(s, s', t, u);
    } else if ForkStep(s, s', t) {
      ForkEdge(s, s', t, u);
    } else if WaitStep(s, s', t) {
      WaitEdge(s, s', t, u);
    } else {
      ExitEdge(s, s', t, u);
    }
  }

  lemma RunEdge(r: seq<State>, i: nat, u: Pid)
    requires Run(r) && i + 1 < |r|
    ensures u in r[i].phase ==>
            u in r[i + 1].phase && (r[i + 1].phase[u] == r[i].phase[u] || Edge(r[i].phase[u], r[i + 1].phase[u]))
  {
    assert Goes(r, i);
    var t :| Step(r[i], r[i + 1], t);
    RunKeepsInv(r, i);
    InvApart(r[i], t);
    StepEdge(r[i], r[i + 1], t, u);
  }

  // --------------------------------------------------------------------------- _exit

  /** Once a process has called _exit it never does anything else, and the code it passed is
      the code of every later phase. */
  lemma {:induction false} ExitKeepsItsCode(r: seq<State>, i: nat, j: nat, c: Pid)
    requires Run(r) && i <= j < |r| && c in r[i].phase && InExit(r[i].phase[c])
    ensures c in r[j].phase && InExit(r[j].phase[c]) && r[j].phase[c].code == r[i].phase[c].code
    ensures Rank(r[i].phase[c]) <= Rank(r[j].phase[c])
  {
    if i < j {
      ExitKeepsItsCode(r, i, j - 1, c);
      RunEdge(r, j - 1, c);
    }
  }

  lemma NobodyExitsAtFirst(r: seq<State>, c: Pid)
    requires Run(r) && c in r[0].phase
    ensures !InExit(r[0].phase[c])
  {
  }

  /** A process in _exit has called it, with that code. */
  lemma {:induction false} ExitWasCalled(r: seq<State>, j: nat, c: Pid) returns (i: nat)
    requires Run(r) && j < |r| && c in r[j].phase && InExit(r[j].phase[c])
    ensures i <= j && c in r[i].phase && r[i].phase[c] == ExitCall(r[j].phase[c].code)
  {
    if r[j].phase[c].ExitCall? {
      i := j;
    } else {
      if j == 0 { NobodyExitsAtFirst(r, c); }
      ExitedBefore(r, j, c);
      i := ExitWasCalled(r, j - 1, c);
    }
  }

  lemma ExitedBefore(r: seq<State>, j: nat, c: Pid)
    requires Run(r) && 0 < j < |r| && c in r[j].phase && InExit(r[j].phase[c]) && !r[j].phase[c].ExitCall?
    ensures c in r[j - 1].phase && InExit(r[j - 1].phase[c]) && r[j - 1].phase[c].code == r[j].phase[c].code
  {
    if c !in r[j - 1].phase { Newborn(r, j - 1, c); }
    RunEdge(r, j - 1, c);
  }

  /** A process that was not there before is being made, and does not exit yet. */
  lemma Newborn(r: seq<State>, i: nat, c: Pid)
    requires Run(r) && i + 1 < |r| && c !in r[i].phase && c in r[i + 1].phase
    ensures r[i + 1].phase[c].Embryo?
  {
    assert Goes(r, i);
    var t :| Step(r[i], r[i + 1], t);
    RunKeepsInv(r, i);
    InvApart(r[i], t);
    NewbornStep(r[i], r[i + 1], t, c);
  }

  lemma NewbornStep(s: State, s': State, t: Pid, c: Pid)
    requires Apart(s, t) && Step(s, s', t) && c !in s.phase && c in s'.phase
    ensures s'.phase[c].Embryo?
  {
  }

  // ------------------------------------------------------------------------- waitpid

  /** What waitpid is about to report for a child is made of the code the child passed to
      _exit when it called it. */
  lemma WaitReportsTheCodePassed(r: seq<State>, j: nat, t: Pid) returns (i: nat, code: int)
    requires Run(r) && j < |r| && t in r[j].phase && r[j].phase[t].WaitDone?
    ensures var c := r[j].phase[t].child;
      i <= j && c in r[i].phase && r[i].phase[c] == ExitCall(code) && r[j].phase[t].status == MkWaitExit(code)
  {
    WaitpidReportsTheExitCode(r, j, t);
    var c := r[j].phase[t].child;
    i := ExitWasCalled(r, j, c);
    code := r[j].phase[c].code;
  }

  lemma {:induction false} StillWaits(r: seq<State>, i: nat, j: nat, t: Pid)
    requires Run(r) && i <= j < |r| && t in r[i].phase && Waits(r[i].phase[t])
    requires forall k :: i <= k <= j ==> t in r[k].phase && !r[k].phase[t].Running?
    ensures Waits(r[j].phase[t]) && r[j].phase[t].child == r[i].phase[t].child
  {
    if i < j {
      StillWaits(r, i, j - 1, t);
      RunEdge(r, j - 1, t);
    }
  }

  /** A waitpid for a child returns only with a status for that child. */
  lemma WaitEndsWithStatus(r: seq<State>, i: nat, j: nat, t: Pid)
    requires Run(r) && i < j < |r| && t in r[i].phase && r[i].phase[t].WaitCall? && t in r[j].phase
    requires r[j].phase[t].Running? && forall k :: i <= k < j ==> t in r[k].phase && !r[k].phase[t].Running?
    ensures r[j - 1].phase[t].WaitDone? && r[j - 1].phase[t].child == r[i].phase[t].child
  {
    StillWaits(r, i, j - 1, t);
    RunEdge(r, j - 1, t);
  }

  // ---------------------------------------------------------------------------- fork

  lemma OnlyTheMenu(r: seq<State>, i: nat, t: Pid)
    requires Run(r) && i < |r| && t in r[i].phase && t != MENU
    ensures !r[i].phase[t].MenuWait?
  {
    RunKeepsInv(r, i);
  }

  lemma {:induction false} StillForks(r: seq<State>, i: nat, j: nat, t: Pid)
    requires Run(r) && i <= j < |r| && t in r[i].phase && InFork(r[i].phase[t]) && t != MENU
    requires forall k :: i <= k <= j ==> t in r[k].phase && !r[k].phase[t].Running?
    ensures InFork(r[j].phase[t])
  {
    if i < j {
      StillForks(r, i, j - 1, t);
      RunEdge(r, j - 1, t);
      OnlyTheMenu(r, j, t);
    }
  }

  /** A fork returns only with a pid, of a child that it made, runs and is in childArray. */
  lemma ForkEndsWithPid(r: seq<State>, i: nat, j: nat, t: Pid)
    requires Run(r) && i < j < |r| && t in r[i].phase && r[i].phase[t].Counted? && t in r[j].phase && t != MENU
    requires r[j].phase[t].Running? && forall k :: i <= k < j ==> t in r[k].phase && !r[k].phase[t].Running?
    ensures r[j - 1].phase[t].Forked? && t in r[j - 1].children
    ensures var c := r[j - 1].phase[t].child;
      c in r[j - 1].children[t] && c in r[j - 1].phase && !r[j - 1].phase[c].Embryo?
  {
    StillForks(r, i, j - 1, t);
    RunEdge(r, j - 1, t);
    HasChild(r, j - 1, t);
    ChildStarted(r, j - 1, t);
  }

  lemma HasChild(r: seq<State>, i: nat, t: Pid)
    requires Run(r) && i < |r| && t in r[i].phase && Names(r[i].phase[t])
    ensures t in r[i].children && r[i].phase[t].child in r[i].children[t] && r[i].phase[t].child in r[i].phase
  {
    RunKeepsInv(r, i);
    ChildExists(r[i].phase, r[i].children, t);
  }

  lemma StartStep(s: State, s': State, u: Pid, t: Pid)
    requires Apart(s, u) && Apart(s, t) && Step(s, s', u) && t in s.phase && s.phase[t].Recorded?
    requires t in s'.phase && s'.phase[t] != s.phase[t]
    ensures s.phase[t].child in s'.phase && s'.phase[s.phase[t].child].Running?
  {
    StepEdge(s, s', u, t);
    assert ForkStep(s, s', t);
  }

  lemma RunStarts(r: seq<State>, i: nat, t: Pid)
    requires Run(r) && i + 1 < |r| && t in r[i].phase && r[i].phase[t].Recorded?
    requires t in r[i + 1].phase && r[i + 1].phase[t] != r[i].phase[t]
    ensures r[i].phase[t].child in r[i + 1].phase && r[i + 1].phase[r[i].phase[t].child].Running?
  {
    assert Goes(r, i);
    var u :| Step(r[i], r[i + 1], u);
    RunKeepsInv(r, i);
    InvApart(r[i], u);
    InvApart(r[i], t);
    StartStep(r[i], r[i + 1], u, t);
  }

  /** A fork that has a pid to return, or is about to read one, has started its child. */
  lemma {:induction false} ChildStarted(r: seq<State>, j: nat, t: Pid)
    requires Run(r) && j < |r| && t in r[j].phase && (r[j].phase[t].Returning? || r[j].phase[t].Forked?)
    ensures r[j].phase[t].child in r[j].phase && !r[j].phase[r[j].phase[t].child].Embryo?
  {
    if j == 0 {
      NobodyForksAtFirst(r, t);
    } else {
      if t !in r[j - 1].phase { Newborn(r, j - 1, t); }
      RunEdge(r, j - 1, t);
      if r[j - 1].phase[t].Recorded? {
        RunStarts(r, j - 1, t);
      } else {
        ChildStarted(r, j - 1, t);
        RunEdge(r, j - 1, r[j].phase[t].child);
      }
    }
  }

  lemma NobodyForksAtFirst(r: seq<State>, t: Pid)
    requires Run(r) && t in r[0].phase
    ensures r[0].phase[t].Running?
  {
  }
}
