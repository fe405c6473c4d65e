/** The pid that fork returns.  sys_fork reads it off the structure of the child after the
    child has been made runnable; a child that has exited by then has freed that structure. */
module ForkedPids {

  import opened Options
  import opened Processes

  // ------------------------------------------------- a step by one process, seen by another

  /** What keeps the step of u away from t. */
  ghost predicate Apart(s: State, u: Pid, t: Pid) {
    && s.counter !in s.phase && s.counter !in s.children
    && (u in s.phase && Making(s.phase[u]) && t in s.phase && s.phase[t].Returning? ==> s.phase[u].child != t)
  }

  lemma InvApart(s: State, u: Pid, t: Pid)
    requires Inv(s)
    ensures Apart(s, u, t)
  {
  }

  /** A process in the middle of fork is moved by nobody else. */
  ghost predicate LeavesFork(s: State, s': State, u: Pid, t: Pid) {
    u != t && t in s.phase && s.phase[t].Returning? ==> t in s'.phase && s'.phase[t] == s.phase[t]
  }

  /** childArray only grows. */
  ghost predicate Kept(s: State, s': State) {
    forall p :: p in s.children ==> p in s'.children && s.children[p] <= s'.children[p]
  }

  lemma CallLeaves(s: State, s': State, u: Pid, t: Pid)
    requires u in s.phase && u in s.children && Call(s, s', u)
    ensures LeavesFork(s, s', u, t) && Kept(s, s')
  {
  }

  lemma ForkLeaves(s: State, s': State, u: Pid, t: Pid)
    requires Apart(s, u, t) && u in s.phase && u in s.children && ForkStep(s, s', u)
    ensures LeavesFork(s, s', u, t) && Kept(s, s')
  {
  }

  lemma WaitLeaves(s: State, s': State, u: Pid, t: Pid)
    requires u in s.phase && WaitStep(s, s', u)
    ensures LeavesFork(s, s', u, t) && Kept(s, s')
  {
  }

  lemma ExitLeaves(s: State, s': State, u: Pid, t: Pid)
    requires u in s.phase && ExitStep(s, s', u)
    ensures LeavesFork(s, s', u, t) && Kept(s, s')
  {
  }

  lemma StepLeaves(s: State, s': State, u: Pid, t: Pid)
    requires Apart(s, u, t) && Step(s, s', u)
    ensures LeavesFork(s, s', u, t) && Kept(s, s')
  {
    if s.phase[u].Running? {
      CallLeaves(s, s', u, t);
    } else if ForkStep(s, s', u) {
      ForkLeaves(s, s', u, t);
    } else if WaitStep(s, s', u) {
      WaitLeaves(s, s', u, t);
    } else {
      ExitLeaves(s, s', u, t);
    }
  }

  lemma NextLeaves(r: seq<State>, i: nat, t: Pid) returns (u: Pid)
    requires Run(r) && i + 1 < |r|
    ensures Step(r[i], r[i + 1], u) && LeavesFork(r[i], r[i + 1], u, t) && Kept(r[i], r[i + 1])
  {
    assert Goes(r, i);
    u :| Step(r[i], r[i + 1], u);
    RunKeepsInv(r, i);
    InvApart(r[i], u, t);
    StepLeaves(r[i], r[i + 1], u, t);
  }

  lemma RunKept(r: seq<State>, i: nat)
    requires Run(r) && i + 1 < |r|
    ensures Kept(r[i], r[i + 1])
  {
    var u := NextLeaves(r, i, MENU);
  }

  lemma ChildStays(s: State, s': State, t: Pid, pid: int)
    requires Kept(s, s') && t in s.children && pid in s.children[t]
    ensures t in s'.children && pid in s'.children[t]
  {
    var i :| 0 <= i < |s.children[t]| && s.children[t][i] == pid;
    assert s'.children[t][i] == pid;
  }

  lemma RunKeepsChild(r: seq<State>, i: nat, t: Pid, pid: int)
    requires Run(r) && i + 1 < |r| && t in r[i].children && pid in r[i].children[t]
    ensures t in r[i + 1].children && pid in r[i + 1].children[t]
  {
    RunKept(r, i);
    ChildStays(r[i], r[i + 1], t, pid);
  }

  lemma {:induction false} RunKeepsChildren(r: seq<State>, i: nat, j: nat, t: Pid, pid: int)
    requires Run(r) && i <= j < |r| && t in r[i].children && pid in r[i].children[t]
    ensures t in r[j].children && pid in r[j].children[t]
  {
    if i < j {
      RunKeepsChildren(r, i, j - 1, t, pid);
      RunKeepsChild(r, j - 1, t, pid);
    }
  }

  // ------------------------------------------------------------------ what fork returns

  /** Between r[i] and r[i + 1] the fork of t reads the pid it is going to return. */
  ghost predicate Reads(r: seq<State>, i: nat, t: Pid) {
    i + 1 < |r| && t in r[i].phase && r[i].phase[t].Returning? && t in r[i + 1].phase && r[i + 1].phase[t].Forked?
  }

  lemma InvHasChild(s: State, t: Pid)
    requires Inv(s) && t in s.phase && s.phase[t].Returning?
    ensures var c := s.phase[t].child; c in s.phase && t in s.children && c in s.children[t]
    ensures t != MENU && s.phase[t].child != MENU
  {
    ChildExists(s.phase, s.children, t);
  }

  lemma ForkHasChild(r: seq<State>, i: nat, t: Pid)
    requires Run(r) && i < |r| && t in r[i].phase && r[i].phase[t].Returning?
    ensures var c := r[i].phase[t].child; c in r[i].phase && t in r[i].children && c in r[i].children[t]
    ensures t != MENU && r[i].phase[t].child != MENU
  {
    RunKeepsInv(r, i);
    InvHasChild(r[i], t);
  }

  /** The child is in childArray; and what is read is its pid unless it has been destroyed. */
  lemma ForkReturnsItsChild(r: seq<State>, i: nat, t: Pid)
    requires Run(r) && Reads(r, i, t)
    ensures var c := r[i].phase[t].child;
      && c in r[i].phase && t in r[i].children && c in r[i].children[t]
      && (!Destroyed(r[i].phase[c]) ==> r[i + 1].phase[t].pid == c)
  {
    ForkHasChild(r, i, t);
    var u := NextLeaves(r, i, t);
    if u == t { assert ForkStep(r[i], r[i + 1], t); }
  }

  lemma Extends(r: seq<State>, s': State, t: Pid)
    requires Run(r) && Step(r[|r| - 1], s', t)
    ensures Run(r + [s'])
  {
    var r' := r + [s'];
    forall i | 0 <= i < |r'| - 1 ensures Goes(r', i) {
      if i < |r| - 1 { assert Goes(r, i); } else { assert Step(r'[i], r'[i + 1], t); }
    }
  }

  /** A late read may give anything. */
  lemma LateRead(r: seq<State>, t: Pid, pid: int) returns (r': seq<State>)
    requires Run(r) && t in r[|r| - 1].phase && r[|r| - 1].phase[t].Returning?
    requires var s := r[|r| - 1]; var c := s.phase[t].child; c in s.phase && Destroyed(s.phase[c])
    ensures Run(r') && |r'| == |r| + 1 && r <= r'
    ensures r'[|r|] == At(r[|r| - 1], t, Forked(r[|r| - 1].phase[t].child, pid))
  {
    var s := r[|r| - 1];
    ForkHasChild(r, |r| - 1, t);
    var s' := At(s, t, Forked(s.phase[t].child, pid));
    assert ForkStep(s, s', t);
    Extends(r, s', t);
    r' := r + [s'];
  }

  /** However the run goes on, fork returns the pid of its child, if and only if the child
      has not been destroyed when the pid is read. */
  lemma ForkIsRight(r: seq<State>, t: Pid)
    requires Run(r) && t in r[|r| - 1].phase && r[|r| - 1].phase[t].Returning?
    ensures var s, n := r[|r| - 1], |r| - 1;
      var c := s.phase[t].child;
      && c in s.phase
      && ((forall r': seq<State> :: Run(r') && r <= r' && Reads(r', n, t) ==> r'[n + 1].phase[t].pid == c)
          <==> !Destroyed(s.phase[c]))
  {
    var s, n := r[|r| - 1], |r| - 1;
    var c := s.phase[t].child;
    RunKeepsInv(r, n);
    ChildExists(s.phase, s.children, t);
    if Destroyed(s.phase[c]) {
      var r' := LateRead(r, t, c + 1);
      assert Run(r') && r <= r' && Reads(r', n, t);
    } else {
      forall r': seq<State> | Run(r') && r <= r' && Reads(r', n, t) ensures r'[n + 1].phase[t].pid == c {
        assert r'[n] == s;
        ForkReturnsItsChild(r', n, t);
      }
    }
  }

  /** From then on waitpid knows a pid that fork read in time: it never answers ECHILD for
      it, and what it reports is made of the code that the child passed to _exit. */
  lemma ForkedPidIsKnown(r: seq<State>, i: nat, j: nat, t: Pid)
    requires Run(r) && Reads(r, i, t) && i < j < |r|
    requires var c := r[i].phase[t].child; c in r[i].phase && !Destroyed(r[i].phase[c])
    ensures var s, pid := r[j], r[i + 1].phase[t].pid;
      && t in s.phase && s.phase[t] != NoChild(pid)
      && (s.phase[t].Running? ==> pid >= 0 && Step(s, At(s, t, WaitCall(pid)), t))
      && (s.phase[t].WaitDone? && s.phase[t].child == pid ==> Reported(s.phase, pid, s.phase[t].status))
  {
    var pid := r[i].phase[t].child;
    ForkReturnsItsChild(r, i, t);
    RunKeepsChildren(r, i, j, t, pid);
    RunKeepsInv(r, j);
    var s := r[j];
    if s.phase[t].Running? {
      assert t != MENU by { RunKeepsInv(r, i); }
      assert Call(s, At(s, t, WaitCall(pid)), t);
    }
  }

  // -------------------------------------------------------------------- a run that fails

  /** The phases of _exit, one after the other, up to the end of the structure. */
  function NextPhase(p: Phase): Phase {
    match p
    case ExitCall(code) => ExitCode(code)
    case ExitCode(code) => ExitFlag(code)
    case ExitFlag(code) => ExitCast(code)
    case ExitCast(code) => ExitFree(code)
    case ExitFree(code) => Exited(code)
    case Exited(code) => Freed(code)
    case _ => p
  }

  predicate InExit(p: Phase) { p.ExitCall? || p.ExitCode? || p.ExitFlag? || p.ExitCast? || p.ExitFree? || p.Exited? }

  /** Process c can go on with _exit. */
  ghost predicate CanExit(s: State, c: Pid) {
    && c in s.phase && c in s.children && InTable(s, c)
    && (!Destroyed(s.phase[c]) ==> c in s.cvs) && (s.phase[c].ExitCall? ==> s.table == None)
  }

  /** Nobody but c and those asleep on it moves, and nobody gets a child. */
  ghost predicate OnlyExit(s0: State, s: State, c: Pid) {
    && s.children == s0.children && s.phase.Keys == s0.phase.Keys
    && forall p :: p in s0.phase && p != c && s0.phase[p].Returning? ==> s.phase[p] == s0.phase[p]
  }

  lemma ExitMove(s: State, c: Pid) returns (s': State)
    requires CanExit(s, c) && InExit(s.phase[c])
    ensures Step(s, s', c) && CanExit(s', c) && OnlyExit(s, s', c) && s'.phase[c] == NextPhase(s.phase[c])
  {
    var p := NextPhase(s.phase[c]);
    var code := s.phase[c].code;
    s' := match s.phase[c]
      case ExitCall(_) => At(s, c, p).(table := Some(c))
      case ExitCode(_) => At(s, c, p).(exit := s.exit[c - FIRST := code])
      case ExitFlag(_) => At(s, c, p).(alive := s.alive[c - FIRST := false])
      case ExitCast(_) => At(s, c, p).(phase := Broadcast(s.phase, c)[c := p], cvs := s.cvs[c := {}])
      case ExitFree(_) => At(s, c, p).(table := None)
      case Exited(_) => At(s, c, p).(cvs := s.cvs - {c});
    assert ExitStep(s, s', c);
  }

  /** r goes on from r0 by the exit of c alone, which is in phase p. */
  ghost predicate GoesOn(r0: seq<State>, r: seq<State>, c: Pid, p: Phase)
    requires r0 != []
  {
    && Run(r) && r0 <= r && OnlyExit(r0[|r0| - 1], r[|r| - 1], c)
    && CanExit(r[|r| - 1], c) && r[|r| - 1].phase[c] == p
  }

  lemma ExitsOnce(r0: seq<State>, r: seq<State>, c: Pid, p: Phase) returns (r': seq<State>)
    requires r0 != [] && GoesOn(r0, r, c, p) && InExit(p)
    ensures GoesOn(r0, r', c, NextPhase(p))
  {
    var s' := ExitMove(r[|r| - 1], c);
    Extends(r, s', c);
    r' := r + [s'];
  }

  function Left(p: Phase): nat {
    match p
    case ExitCall(_) => 6
    case ExitCode(_) => 5
    case ExitFlag(_) => 4
    case ExitCast(_) => 3
    case ExitFree(_) => 2
    case Exited(_) => 1
    case _ => 0
  }

  lemma {:induction false} Exits(r0: seq<State>, r1: seq<State>, c: Pid, p: Phase) returns (r: seq<State>)
    requires r0 != [] && GoesOn(r0, r1, c, p) && (InExit(p) || p.Freed?)
    ensures GoesOn(r0, r, c, Freed(p.code))
    decreases Left(p)
  {
    if p.Freed? {
      r := r1;
    } else {
      var r2 := ExitsOnce(r0, r1, c, p);
      var p' := NextPhase(p);
      assert p'.code == p.code && (InExit(p') || p'.Freed?);
      r := Exits(r0, r2, c, p');
    }
  }

  lemma CallsExit(r0: seq<State>, c: Pid, code: int) returns (r: seq<State>)
    requires Run(r0) && IsInt(code) && c != MENU
    requires var s := r0[|r0| - 1]; c in s.phase && s.phase[c].Running? && s.table == None
    ensures GoesOn(r0, r, c, ExitCall(code))
  {
    var s := r0[|r0| - 1];
    var s' := At(s, c, ExitCall(code));
    InvCanExit(r0, c);
    assert Call(s, s', c);
    Extends(r0, s', c);
    r := r0 + [s'];
  }

  lemma InvCanExit(r: seq<State>, c: Pid)
    requires Run(r) && c in r[|r| - 1].phase && c != MENU && r[|r| - 1].phase[c].Running?
    ensures CanExit(r[|r| - 1], c)
  {
    RunKeepsInv(r, |r| - 1);
  }

  lemma UnknownPid(s: State, t: Pid, pid: int)
    requires t in s.phase && s.phase[t].Running? && t != MENU && t in s.children && pid !in s.children[t]
    ensures Step(s, At(s, t, NoChild(pid)), t)
  {
    var s' := At(s, t, NoChild(pid));
    assert exists x: int :: s' == if x in s.children[t] then At(s, t, WaitCall(x)) else At(s, t, NoChild(x));
  }

  /** A fork that returns a number which is not in childArray, followed by a waitpid for it. */
  lemma Answers(r: seq<State>, t: Pid, pid: int) returns (r': seq<State>)
    requires Run(r) && t != MENU && t in r[|r| - 1].phase && r[|r| - 1].phase[t].Forked?
    requires r[|r| - 1].phase[t].pid == pid && t in r[|r| - 1].children && pid !in r[|r| - 1].children[t]
    ensures Run(r') && r <= r' && t in r'[|r'| - 1].phase && r'[|r'| - 1].phase[t] == NoChild(pid)
  {
    var s1 := At(r[|r| - 1], t, Running);
    Extends(r, s1, t);
    var s2 := At(s1, t, NoChild(pid));
    UnknownPid(s1, t, pid);
    Extends(r + [s1], s2, t);
    r' := r + [s1] + [s2];
  }

  lemma ChildGone(r: seq<State>, t: Pid) returns (r': seq<State>)
    requires Run(r)
    requires var s := r[|r| - 1];
      && t in s.phase && s.phase[t].Returning? && s.table == None
      && s.phase[t].child in s.phase && s.phase[s.phase[t].child].Running?
    ensures Run(r') && r <= r'
    ensures var s, s' := r[|r| - 1], r'[|r'| - 1];
      var c := s.phase[t].child;
      && s'.children == s.children && t in s'.phase && s'.phase[t] == s.phase[t]
      && c in s'.phase && Destroyed(s'.phase[c])
  {
    var c := r[|r| - 1].phase[t].child;
    ForkHasChild(r, |r| - 1, t);
    var r1 := CallsExit(r, c, 0);
    r' := Exits(r, r1, c, ExitCall(0));
  }

  /** Whenever the child is running, and lk_tb is free, before the pid is read, the run can
      go on so that fork returns any number at all; and waitpid answers ECHILD if that is no
      child's pid. */
  lemma ForkCanBeWrong(r: seq<State>, t: Pid, pid: int) returns (r': seq<State>, i: nat)
    requires Run(r)
    requires var s := r[|r| - 1];
      && t in s.phase && s.phase[t].Returning? && s.table == None
      && s.phase[t].child in s.phase && s.phase[s.phase[t].child].Running?
      && t in s.children && pid !in s.children[t]
    ensures Run(r') && r <= r' && t in r'[|r'| - 1].phase && r'[|r'| - 1].phase[t] == NoChild(pid)
    ensures Reads(r', i, t) && r'[i].phase[t] == r[|r| - 1].phase[t] && r'[i + 1].phase[t].pid == pid
  {
    var r1 := ChildGone(r, t);
    var r2 := LateRead(r1, t, pid);
    ForkHasChild(r, |r| - 1, t);
    r' := Answers(r2, t, pid);
    i := |r1| - 1;
    assert r'[i] == r2[i] == r1[i] && r'[i + 1] == r2[i + 1];
  }

  /** The menu starts process 2. */
  lemma StartsFirst() returns (r: seq<State>)
    ensures Run(r)
    ensures var s := r[|r| - 1];
      && s.phase == map[MENU := MenuWait, 2 := Running] && s.children == map[MENU := [], 2 := []]
      && s.counter == 3 && s.table == None
  {
    var s := State(map[MENU := Running], map[MENU := []], FIRST, seq(SLOTS, _ => true), seq(SLOTS, _ => 0),
                   None, map[], 0, 0);
    var s1 := At(s, MENU, Counted).(count := 1);
    Extends([s], s1, MENU);
    var s2 := At(At(s1, 2, Embryo), MENU, Forking(2)).(counter := 3, cvs := s1.cvs[2 := {}],
                                                       children := s1.children[2 := []]);
    Extends([s] + [s1], s2, MENU);
    var s3 := At(At(s2, 2, Running), MENU, MenuWait);
    Extends([s] + [s1] + [s2], s3, MENU);
    r := [s] + [s1] + [s2] + [s3];
  }

  /** Process 2 forks process 3, and is about to read its pid. */
  lemma ForksSecond(r0: seq<State>) returns (r: seq<State>)
    requires Run(r0)
    requires var s := r0[|r0| - 1];
      && s.phase == map[MENU := MenuWait, 2 := Running] && s.children == map[MENU := [], 2 := []]
      && s.counter == 3 && s.table == None
    ensures Run(r)
    ensures var s := r[|r| - 1];
      && s.phase == map[MENU := MenuWait, 2 := Returning(3), 3 := Running] && s.table == None
      && s.children == map[MENU := [], 2 := [3], 3 := []]
  {
    var s := r0[|r0| - 1];
    var s1 := At(s, 2, Counted).(count := s.count + 1);
    Extends(r0, s1, 2);
    var s2 := At(At(s1, 3, Embryo), 2, Forking(3)).(counter := 4, cvs := s1.cvs[3 := {}],
                                                    children := s1.children[3 := []]);
    Extends(r0 + [s1], s2, 2);
    var s3 := At(s2, 2, Recorded(3)).(children := s2.children[2 := s2.children[2] + [3]]);
    Extends(r0 + [s1] + [s2], s3, 2);
    assert s2.children == map[MENU := [], 2 := [], 3 := []] && s2.children[2] + [3] == [3];
    var s4 := At(At(s3, 3, Running), 2, Returning(3));
    Extends(r0 + [s1] + [s2] + [s3], s4, 2);
    r := r0 + [s1] + [s2] + [s3] + [s4];
  }

  /** 0xdeadbeef, which kfree leaves in the structure, as a pid. */
  const DEADBEEF := 0xdeadbeef - 0x1_0000_0000

  /** It happens: process 2 forks a child, gets the pid 0xdeadbeef from freed memory, and
      then ECHILD from waitpid. */
  lemma ForkedPidIsLost() returns (r: seq<State>, i: nat)
    ensures Run(r) && Reads(r, i, 2) && r[i].phase[2].child == 3 && r[i + 1].phase[2].pid == DEADBEEF
    ensures 2 in r[|r| - 1].phase && r[|r| - 1].phase[2] == NoChild(DEADBEEF)
  {
    var r1 := StartsFirst();
    var r2 := ForksSecond(r1);
    r, i := ForkCanBeWrong(r2, 2, DEADBEEF);
  }
}
