/** fork, _exit and waitpid over the process tables, interleaved at every operation on
    a table or a lock.  A cv_wait on lk_tb gives the lock up and sleeps in one step and
    a cv_broadcast wakes every sleeper: module CondVar shows that a broadcast made under
    the lock reaches everyone who gave it up before.  User processes have one thread. */
module Processes {

  import opened Options

  /** A process identifier; MENU stands for the kernel's menu thread. */
  type Pid = nat

  const MENU: Pid := 0
  const FIRST: Pid := 2
  const SLOTS := 64

  /** Where a process's thread is. */
  datatype Phase =
    | Embryo                                   // made by fork, no thread yet
    | Running
    // sys_fork, and the menu starting a program
    | Counted                                  // proc_count incremented
    | Forking(child: Pid)                      // has its pid, slot and condition variable
    | Recorded(child: Pid)                     // is in childArray
    | Returning(child: Pid)                    // runs; its pid is still to be read off its structure
    | Forked(child: Pid, pid: int)             // that pid read, about to be returned
    // sys_waitpid
    | NoChild(pid: int)                        // about to return ECHILD
    | WaitCall(child: Pid)                     // the pid is a child; wants lk_tb
    | WaitLoop(child: Pid)                     // holds lk_tb; at the loop test
    | Asleep(child: Pid)                       // on the child's condition variable
    | Woken(child: Pid)                        // wants lk_tb again
    | WaitDone(child: Pid, status: int)        // lk_tb released
    // sys__exit
    | ExitCall(code: int)                      // wants lk_tb
    | ExitCode(code: int)                      // holds lk_tb, about to write exitTable
    | ExitFlag(code: int)                      // holds lk_tb, about to clear aliveTable
    | ExitCast(code: int)                      // holds lk_tb, about to broadcast
    | ExitFree(code: int)                      // holds lk_tb, about to release it
    | Exited(code: int)                        // about to destroy itself
    | Freed(code: int)                         // condition variable and structure gone
    | Dead(code: int)                          // and no longer counted
    | MenuWait                                 // the menu, in P(no_proc_sem)

  predicate HoldsTable(p: Phase) { p.WaitLoop? || p.ExitCode? || p.ExitFlag? || p.ExitCast? || p.ExitFree? }
  predicate HasCode(p: Phase) { p.ExitFlag? || p.ExitCast? || p.ExitFree? || p.Exited? || p.Freed? || p.Dead? }
  predicate NotAlive(p: Phase) { p.ExitCast? || p.ExitFree? || p.Exited? || p.Freed? || p.Dead? }
  predicate HasBroadcast(p: Phase) { p.ExitFree? || p.Exited? || p.Freed? || p.Dead? }
  predicate Destroyed(p: Phase) { p.Freed? || p.Dead? }
  predicate Waits(p: Phase) { p.WaitCall? || p.WaitLoop? || p.Asleep? || p.Woken? || p.WaitDone? }
  predicate Making(p: Phase) { p.Forking? || p.Recorded? }
  predicate Names(p: Phase) { Waits(p) || p.Recorded? || p.Returning? || p.Forked? }

  /** cvs[p] is the set of sleepers on p's condition variable, for as long as it exists. */
  datatype State = State(phase: map<Pid, Phase>, children: map<Pid, seq<Pid>>, counter: nat,
                         alive: seq<bool>, exit: seq<int>, table: Option<Pid>, cvs: map<Pid, set<Pid>>,
                         count: int, noProc: nat)

  ghost predicate Init(s: State) {
    s == State(map[MENU := Running], map[MENU := []], FIRST, seq(SLOTS, _ => true), seq(SLOTS, _ => 0),
               None, map[], 0, 0)
  }

  const INT_MIN := -0x8000_0000
  const INT_MAX := 0x7FFF_FFFF

  predicate IsInt(x: int) { INT_MIN <= x <= INT_MAX }

  /** _MKWAIT_EXIT on a 32-bit int: shifted left by two, the low bits saying "exited". */
  function MkWaitExit(code: int): int {
    var w := (code * 4) % 0x1_0000_0000;
    if w > INT_MAX then w - 0x1_0000_0000 else w
  }

  function WWhat(status: int): int { status % 4 }

  function WExitStatus(status: int): int { status / 4 }

  /** An application gets back the exit code it passed exactly when it fits 30 bits. */
  lemma ExitCodeSurvives(code: int)
    requires IsInt(code)
    ensures WWhat(MkWaitExit(code)) == 0
    ensures WExitStatus(MkWaitExit(code)) == code <==> -0x2000_0000 <= code < 0x2000_0000
  {
    var w := (code * 4) % 0x1_0000_0000;
    assert w % 4 == 0 by {
      var k := (code * 4) / 0x1_0000_0000;
      assert w == 4 * (code - k * 0x4000_0000);
    }
  }

  /** isExist: the test that lets waitpid past ECHILD. */
  method IsExist(childArray: array<int>, countChild: nat, pid: int) returns (childFlag: bool)
    requires countChild <= childArray.Length
    ensures childFlag == (pid in childArray[..countChild])
  {
    childFlag := false;
    var i := 0;
    while i < countChild
      invariant 0 <= i <= countChild && !childFlag && pid !in childArray[..i]
    {
      if childArray[i] == pid {
        childFlag := true;
        break;
      }
      assert childArray[..i + 1] == childArray[..i] + [childArray[i]];
      i := i + 1;
    }
  }

  function At(s: State, t: Pid, p: Phase): State { s.(phase := s.phase[t := p]) }

  /** Everyone asleep on t's condition variable becomes runnable. */
  function Broadcast(phase: map<Pid, Phase>, t: Pid): map<Pid, Phase> {
    map p | p in phase :: if phase[p] == Asleep(t) then Woken(t) else phase[p]
  }

  // ----------------------------------------------------------------------- steps

  /** A process (or the menu) at rest starts a system call. */
  ghost predicate Call(s: State, s': State, t: Pid)
    requires t in s.phase && t in s.children
  {
    || s' == At(s, t, Counted).(count := s.count + 1)
    || (t != MENU && exists code :: IsInt(code) && s' == At(s, t, ExitCall(code)))
    || (t != MENU && exists pid: int :: s' == if pid in s.children[t] then At(s, t, WaitCall(pid))
                                              else At(s, t, NoChild(pid)))
  }

  /** The rest of fork.  A pid is taken only while the tables have a slot for it.  The pid
      to return is read off the structure of the child when the child may be running, and
      may have destroyed itself: then the memory is the heap's, or somebody else's, and any
      value may be read. */
  ghost predicate ForkStep(s: State, s': State, t: Pid)
    requires t in s.phase && t in s.children
  {
    match s.phase[t]
    case Counted =>
      var c := s.counter;
      && c - FIRST < SLOTS
      && s' == At(At(s, c, Embryo), t, Forking(c)).(counter := c + 1, cvs := s.cvs[c := {}],
                                                    children := s.children[c := []])
    case Forking(c) => s' == if t == MENU then At(At(s, c, Running), t, MenuWait)
                             else At(s, t, Recorded(c)).(children := s.children[t := s.children[t] + [c]])
    case Recorded(c) => s' == At(At(s, c, Running), t, Returning(c))
    case Returning(c) =>
      exists pid :: (pid == c || (c in s.phase && Destroyed(s.phase[c]))) && s' == At(s, t, Forked(c, pid))
    case Forked(_, _) => s' == At(s, t, Running)
    case MenuWait => s.noProc > 0 && s' == At(s, t, Running).(noProc := s.noProc - 1)
    case _ => false
  }

  ghost predicate InTable(s: State, c: Pid) { FIRST <= c && c - FIRST < |s.alive| && c - FIRST < |s.exit| }

  ghost predicate WaitStep(s: State, s': State, t: Pid)
    requires t in s.phase
  {
    match s.phase[t]
    case WaitCall(c) => s.table == None && s' == At(s, t, WaitLoop(c)).(table := Some(t))
    case WaitLoop(c) =>
      && InTable(s, c)
      && if s.alive[c - FIRST]
         then c in s.cvs && s' == At(s, t, Asleep(c)).(table := None, cvs := s.cvs[c := s.cvs[c] + {t}])
         else s' == At(s, t, WaitDone(c, MkWaitExit(s.exit[c - FIRST]))).(table := None)
    case Woken(c) => s.table == None && s' == At(s, t, WaitLoop(c)).(table := Some(t))
    case WaitDone(c, _) => s' == At(s, t, Running)
    case NoChild(_) => s' == At(s, t, Running)
    case _ => false
  }

  ghost predicate ExitStep(s: State, s': State, t: Pid)
    requires t in s.phase
  {
    match s.phase[t]
    case ExitCall(code) => s.table == None && s' == At(s, t, ExitCode(code)).(table := Some(t))
    case ExitCode(code) => InTable(s, t) && s' == At(s, t, ExitFlag(code)).(exit := s.exit[t - FIRST := code])
    case ExitFlag(code) => InTable(s, t) && s' == At(s, t, ExitCast(code)).(alive := s.alive[t - FIRST := false])
    case ExitCast(code) => t in s.cvs && s' == At(s, t, ExitFree(code)).(
                             phase := Broadcast(s.phase, t)[t := ExitFree(code)], cvs := s.cvs[t := {}])
    case ExitFree(code) => s' == At(s, t, Exited(code)).(table := None)
    case Exited(code) => s' == At(s, t, Freed(code)).(cvs := s.cvs - {t})
    case Freed(code) => s' ==
      At(s, t, Dead(code)).(count := s.count - 1, noProc := s.noProc + if s.count == 1 then 1 else 0)
    case _ => false
  }

  ghost predicate Step(s: State, s': State, t: Pid) {
    && t in s.phase && t in s.children
    && if s.phase[t].Running? then Call(s, s', t)
       else ForkStep(s, s', t) || WaitStep(s, s', t) || ExitStep(s, s', t)
  }

  ghost predicate Next(s: State, s': State) { exists t :: Step(s, s', t) }

  // --------------------------------------------------------------- the invariant

  /** Slots in use are those of the pids handed out; a slot says alive until the owner
      has cleared it, and by then it holds the owner's exit code. */
  ghost predicate Tables(phase: map<Pid, Phase>, counter: nat, alive: seq<bool>, exit: seq<int>) {
    && |alive| == |exit| == SLOTS && FIRST <= counter <= FIRST + SLOTS
    && (forall p :: p in phase <==> p == MENU || FIRST <= p < counter)
    && (forall p :: p in phase && p != MENU ==> (alive[p - FIRST] <==> !NotAlive(phase[p])))
    && (forall p :: p in phase && p != MENU && HasCode(phase[p]) ==> exit[p - FIRST] == phase[p].code)
    && (forall i :: counter - FIRST <= i < SLOTS ==> alive[i])
  }

  ghost predicate TableLock(phase: map<Pid, Phase>, table: Option<Pid>) {
    && (forall p :: p in phase ==> (table == Some(p) <==> HoldsTable(phase[p])))
    && (table.Some? ==> table.value in phase)
  }

  /** The condition variables of the processes not destroyed, with exactly their sleepers. */
  ghost predicate Sleepers(phase: map<Pid, Phase>, cvs: map<Pid, set<Pid>>) {
    && (forall p :: p in cvs <==> p in phase && p != MENU && !Destroyed(phase[p]))
    && (forall p, q :: p in cvs && q in cvs[p] ==> q in phase && phase[q] == Asleep(p))
    && (forall q :: q in phase && phase[q].Asleep? ==> phase[q].child in cvs && q in cvs[phase[q].child])
    && (forall p :: p in cvs && HasBroadcast(phase[p]) ==> cvs[p] == {})
  }

  /** Parents wait only for processes that fork gave them, get ECHILD only for others, and
      childArray does not overflow. */
  ghost predicate Family(phase: map<Pid, Phase>, children: map<Pid, seq<Pid>>) {
    && (forall p :: p in children <==> p in phase)
    && (forall p, i :: p in children && 0 <= i < |children[p]| ==> IsChild(phase, children[p][i], i))
    && (forall p :: p in phase && p in children && Names(phase[p]) ==> phase[p].child in children[p])
    && (forall p :: p in phase && p in children && phase[p].NoChild? ==> phase[p].pid !in children[p])
    && (forall p :: p in phase && p in children && phase[p].Forking? ==> phase[p].child >= FIRST + |children[p]|)
  }

  ghost predicate IsChild(phase: map<Pid, Phase>, c: Pid, i: nat) { c in phase && c >= FIRST + i }

  /** A process under construction belongs to one maker and does nothing by itself. */
  ghost predicate Makers(phase: map<Pid, Phase>) {
    && (forall p :: p in phase && Making(phase[p]) ==> phase[p].child in phase && phase[phase[p].child].Embryo?)
    && (forall p, q ::
          p in phase && q in phase && Making(phase[p]) && Making(phase[q]) && phase[p].child == phase[q].child ==>
            p == q)
  }

  predicate MenuPhase(p: Phase) { p.Running? || p.Counted? || p.Forking? || p.MenuWait? }

  ghost predicate Menu(phase: map<Pid, Phase>) {
    && MENU in phase && MenuPhase(phase[MENU])
    && forall p :: p in phase && p != MENU ==> !phase[p].MenuWait?
  }

  /** A waitpid about to return reports what the child passed to _exit. */
  ghost predicate Reports(phase: map<Pid, Phase>) {
    forall p :: p in phase && phase[p].WaitDone? ==> Reported(phase, phase[p].child, phase[p].status)
  }

  ghost predicate Reported(phase: map<Pid, Phase>, c: Pid, status: int) {
    c in phase && NotAlive(phase[c]) && status == MkWaitExit(phase[c].code)
  }

  ghost predicate Inv(s: State) {
    && Tables(s.phase, s.counter, s.alive, s.exit) && TableLock(s.phase, s.table) && Sleepers(s.phase, s.cvs)
    && Family(s.phase, s.children) && Makers(s.phase) && Menu(s.phase) && Reports(s.phase)
  }

  lemma InitInv(s: State)
    requires Init(s)
    ensures Inv(s)
  {
  }

  // ------------------------------- steps that move one thread: from p to p' in phase'

  ghost predicate Moved(phase: map<Pid, Phase>, phase': map<Pid, Phase>, t: Pid, p: Phase, p': Phase) {
    t in phase && phase[t] == p && phase' == phase[t := p']
  }

  lemma TablesMoved(phase: map<Pid, Phase>, phase': map<Pid, Phase>, t: Pid, p: Phase, p': Phase,
                    counter: nat, alive: seq<bool>, alive': seq<bool>, exit: seq<int>, exit': seq<int>)
    requires Moved(phase, phase', t, p, p') && Tables(phase, counter, alive, exit) && (t == MENU ==> !NotAlive(p'))
    requires if NotAlive(p) == NotAlive(p') then alive' == alive
             else t != MENU && NotAlive(p') && alive' == alive[t - FIRST := false]
    requires if t != MENU && HasCode(p') && !HasCode(p) then exit' == exit[t - FIRST := p'.code]
             else exit' == exit && (HasCode(p') && t != MENU ==> p'.code == p.code)
    ensures Tables(phase', counter, alive', exit')
  {
  }

  lemma LockMoved(phase: map<Pid, Phase>, phase': map<Pid, Phase>, t: Pid, p: Phase, p': Phase,
                  table: Option<Pid>, table': Option<Pid>)
    requires Moved(phase, phase', t, p, p') && TableLock(phase, table)
    requires if HoldsTable(p) == HoldsTable(p') then table' == table
             else if HoldsTable(p') then table == None && table' == Some(t) else table' == None
    ensures TableLock(phase', table')
  {
  }

  lemma SleepersMoved(phase: map<Pid, Phase>, phase': map<Pid, Phase>, t: Pid, p: Phase, p': Phase,
                      cvs: map<Pid, set<Pid>>)
    requires Moved(phase, phase', t, p, p') && Sleepers(phase, cvs) && !p.Asleep? && !p'.Asleep?
    requires t != MENU ==> Destroyed(p) == Destroyed(p') && (HasBroadcast(p') ==> HasBroadcast(p))
    ensures Sleepers(phase', cvs)
  {
  }

  lemma SleepersJoined(phase: map<Pid, Phase>, phase': map<Pid, Phase>, t: Pid, p: Phase, c: Pid,
                       cvs: map<Pid, set<Pid>>)
    requires Moved(phase, phase', t, p, Asleep(c)) && Sleepers(phase, cvs) && p.WaitLoop?
    requires c in cvs && !HasBroadcast(phase[c])
    ensures Sleepers(phase', cvs[c := cvs[c] + {t}])
  {
  }

  lemma SleepersDestroyed(phase: map<Pid, Phase>, phase': map<Pid, Phase>, t: Pid, p: Phase, p': Phase,
                          cvs: map<Pid, set<Pid>>)
    requires Moved(phase, phase', t, p, p') && Sleepers(phase, cvs) && t != MENU && p.Exited? && p'.Freed?
    ensures Sleepers(phase', cvs - {t})
  {
  }

  lemma FamilyMoved(phase: map<Pid, Phase>, phase': map<Pid, Phase>, t: Pid, p: Phase, p': Phase,
                    children: map<Pid, seq<Pid>>)
    requires Moved(phase, phase', t, p, p') && Family(phase, children) && !p'.Forking?
    requires Names(p') ==> p'.child in children[t]
    requires p'.NoChild? ==> p'.pid !in children[t]
    ensures Family(phase', children)
  {
  }

  lemma MakersMoved(phase: map<Pid, Phase>, phase': map<Pid, Phase>, t: Pid, p: Phase, p': Phase)
    requires Moved(phase, phase', t, p, p') && Makers(phase) && !p.Embryo?
    requires Making(p') ==> Making(p) && p'.child == p.child
    ensures Makers(phase')
  {
  }

  lemma ReportsMoved(phase: map<Pid, Phase>, phase': map<Pid, Phase>, t: Pid, p: Phase, p': Phase)
    requires Moved(phase, phase', t, p, p') && Reports(phase)
    requires NotAlive(p) ==> NotAlive(p') && p'.code == p.code
    requires p'.WaitDone? ==> Reported(phase, p'.child, p'.status) && !NotAlive(p)
    ensures Reports(phase')
  {
    forall q | q in phase' && phase'[q].WaitDone? ensures Reported(phase', phase'[q].child, phase'[q].status) {
      if q != t { assert Reported(phase, phase[q].child, phase[q].status); }
    }
  }

  /** A step that moves t only, and touches the tables as its two phases say. */
  ghost predicate Plain(s: State, s': State, t: Pid) {
    && t in s.phase && t in s'.phase && t in s.children && s'.phase == s.phase[t := s'.phase[t]]
    && s'.counter == s.counter && s'.children == s.children
    && var p, p' := s.phase[t], s'.phase[t];
       && !p.Embryo? && !Making(p') && (t == MENU ==> MenuPhase(p')) && (t != MENU ==> !p'.MenuWait?)
       && PlainTables(s, s', t, p, p') && PlainLock(s, s', t, p, p') && PlainCvs(s, s', t, p, p')
       && PlainWait(s, t, p, p')
  }

  ghost predicate PlainTables(s: State, s': State, t: Pid, p: Phase, p': Phase) {
    && (t == MENU ==> !NotAlive(p'))
    && (if NotAlive(p) == NotAlive(p') then s'.alive == s.alive
        else InTable(s, t) && NotAlive(p') && s'.alive == s.alive[t - FIRST := false])
    && (if HasCode(p') && !HasCode(p) then InTable(s, t) && s'.exit == s.exit[t - FIRST := p'.code]
        else s'.exit == s.exit && (HasCode(p') ==> p'.code == p.code))
  }

  ghost predicate PlainLock(s: State, s': State, t: Pid, p: Phase, p': Phase) {
    if HoldsTable(p) == HoldsTable(p') then s'.table == s.table
    else if HoldsTable(p') then s.table == None && s'.table == Some(t) else s'.table == None
  }

  ghost predicate PlainCvs(s: State, s': State, t: Pid, p: Phase, p': Phase) {
    && !p.Asleep?
    && if p'.Asleep? then
         && p.WaitLoop? && p'.child in s.cvs && p'.child in s.phase && !HasBroadcast(s.phase[p'.child])
         && s'.cvs == s.cvs[p'.child := s.cvs[p'.child] + {t}]
       else if p.Exited? then t != MENU && p'.Freed? && s'.cvs == s.cvs - {t}
       else s'.cvs == s.cvs && (t != MENU ==> Destroyed(p) == Destroyed(p') && (HasBroadcast(p') ==> HasBroadcast(p)))
  }

  ghost predicate PlainWait(s: State, t: Pid, p: Phase, p': Phase)
    requires t in s.children
  {
    && (NotAlive(p) ==> NotAlive(p') && p'.code == p.code)
    && (Names(p') ==> p'.child in s.children[t]) && (p'.NoChild? ==> p'.pid !in s.children[t])
    && (p'.WaitDone? ==> Reported(s.phase, p'.child, p'.status) && !NotAlive(p))
  }

  lemma PlainKeepsTables(s: State, s': State, t: Pid)
    requires Plain(s, s', t) && Tables(s.phase, s.counter, s.alive, s.exit)
    ensures Tables(s'.phase, s'.counter, s'.alive, s'.exit)
  {
    TablesMoved(s.phase, s'.phase, t, s.phase[t], s'.phase[t], s.counter, s.alive, s'.alive, s.exit, s'.exit);
  }

  lemma PlainKeepsLock(s: State, s': State, t: Pid)
    requires Plain(s, s', t) && TableLock(s.phase, s.table)
    ensures TableLock(s'.phase, s'.table)
  {
    LockMoved(s.phase, s'.phase, t, s.phase[t], s'.phase[t], s.table, s'.table);
  }

  lemma PlainKeepsSleepers(s: State, s': State, t: Pid)
    requires Plain(s, s', t) && Sleepers(s.phase, s.cvs)
    ensures Sleepers(s'.phase, s'.cvs)
  {
    var p, p' := s.phase[t], s'.phase[t];
    if p'.Asleep? {
      SleepersJoined(s.phase, s'.phase, t, p, p'.child, s.cvs);
    } else if p.Exited? {
      SleepersDestroyed(s.phase, s'.phase, t, p, p', s.cvs);
    } else {
      SleepersMoved(s.phase, s'.phase, t, p, p', s.cvs);
    }
  }

  lemma PlainKeepsFamily(s: State, s': State, t: Pid)
    requires Plain(s, s', t) && Family(s.phase, s.children)
    ensures Family(s'.phase, s'.children)
  {
    FamilyMoved(s.phase, s'.phase, t, s.phase[t], s'.phase[t], s.children);
  }

  lemma PlainKeepsRest(s: State, s': State, t: Pid)
    requires Plain(s, s', t) && Makers(s.phase) && Menu(s.phase) && Reports(s.phase)
    ensures Makers(s'.phase) && Menu(s'.phase) && Reports(s'.phase)
  {
    MakersMoved(s.phase, s'.phase, t, s.phase[t], s'.phase[t]);
    ReportsMoved(s.phase, s'.phase, t, s.phase[t], s'.phase[t]);
  }

  lemma PlainKeepsInv(s: State, s': State, t: Pid)
    requires Inv(s) && Plain(s, s', t)
    ensures Inv(s')
  {
    PlainKeepsTables(s, s', t);
    PlainKeepsLock(s, s', t);
    PlainKeepsSleepers(s, s', t);
    PlainKeepsFamily(s, s', t);
    PlainKeepsRest(s, s', t);
  }

  /** What a waiter finds at the loop test: the slot of a process that exists, whose
      condition variable exists if the slot says alive, and whose exit code is in the
      table if not. */
  ghost predicate SoundTest(s: State, t: Pid)
    requires t in s.phase && s.phase[t].WaitLoop? && t in s.children
  {
    var c := s.phase[t].child;
    && InTable(s, c) && c in s.phase && c in s.children[t]
    && (s.alive[c - FIRST] ==> c in s.cvs && !HasBroadcast(s.phase[c]))
    && (!s.alive[c - FIRST] ==> Reported(s.phase, c, MkWaitExit(s.exit[c - FIRST])))
  }

  lemma ChildExists(phase: map<Pid, Phase>, children: map<Pid, seq<Pid>>, t: Pid)
    requires Family(phase, children) && t in phase && Names(phase[t])
    ensures phase[t].child in phase && phase[t].child >= FIRST && phase[t].child in children[t]
  {
    var i :| 0 <= i < |children[t]| && children[t][i] == phase[t].child;
    assert IsChild(phase, children[t][i], i);
  }

  lemma SlotIsSound(s: State, c: Pid)
    requires c in s.phase && c >= FIRST && Tables(s.phase, s.counter, s.alive, s.exit)
    ensures InTable(s, c) && (s.alive[c - FIRST] <==> !NotAlive(s.phase[c]))
    ensures !s.alive[c - FIRST] ==> Reported(s.phase, c, MkWaitExit(s.exit[c - FIRST]))
  {
  }

  lemma LoopTestIsSound(s: State, t: Pid)
    requires t in s.phase && s.phase[t].WaitLoop? && t in s.children
    requires Family(s.phase, s.children) && Tables(s.phase, s.counter, s.alive, s.exit)
    requires forall p :: p in s.cvs <==> p in s.phase && p != MENU && !Destroyed(s.phase[p])
    ensures SoundTest(s, t)
  {
    ChildExists(s.phase, s.children, t);
    SlotIsSound(s, s.phase[t].child);
  }

  /** The facts about t itself that its next step relies on. */
  ghost predicate Local(s: State, t: Pid) {
    && t in s.phase && t in s.children && (t == MENU ==> MenuPhase(s.phase[t])) && (t != MENU ==> InTable(s, t))
    && (Names(s.phase[t]) ==> s.phase[t].child in s.children[t])
    && (s.phase[t].WaitLoop? ==> SoundTest(s, t))
  }

  lemma InvLocal(s: State, t: Pid)
    requires Inv(s) && t in s.phase
    ensures Local(s, t)
  {
    if s.phase[t].WaitLoop? { LoopTestIsSound(s, t); }
  }

  lemma WaitCallIsPlain(s: State, s': State, t: Pid, pid: int)
    requires Local(s, t) && s.phase[t].Running? && t != MENU
    requires s' == if pid in s.children[t] then At(s, t, WaitCall(pid)) else At(s, t, NoChild(pid))
    ensures Plain(s, s', t)
  {
  }

  lemma OtherCallIsPlain(s: State, s': State, t: Pid, p': Phase)
    requires Local(s, t) && s.phase[t].Running? && (p'.Counted? || (p'.ExitCall? && t != MENU))
    requires s' == At(s, t, p').(count := s'.count)
    ensures Plain(s, s', t)
  {
  }

  lemma CallIsPlain(s: State, s': State, t: Pid)
    requires Local(s, t) && s.phase[t].Running? && Call(s, s', t)
    ensures Plain(s, s', t)
  {
    var p' := s'.phase[t];
    if p'.Counted? || p'.ExitCall? {
      OtherCallIsPlain(s, s', t, p');
    } else {
      var pid: int :| s' == if pid in s.children[t] then At(s, t, WaitCall(pid)) else At(s, t, NoChild(pid));
      WaitCallIsPlain(s, s', t, pid);
    }
  }

  lemma ReturnIsPlain(s: State, s': State, t: Pid)
    requires Local(s, t) && ForkStep(s, s', t)
    requires s.phase[t].Returning? || s.phase[t].Forked? || (s.phase[t].MenuWait? && t == MENU)
    ensures Plain(s, s', t)
  {
  }

  lemma LoopIsPlain(s: State, s': State, t: Pid)
    requires Local(s, t) && WaitStep(s, s', t) && s.phase[t].WaitLoop?
    ensures Plain(s, s', t)
  {
  }

  lemma WaitIsPlain(s: State, s': State, t: Pid)
    requires Local(s, t) && WaitStep(s, s', t)
    ensures Plain(s, s', t)
  {
    if s.phase[t].WaitLoop? { LoopIsPlain(s, s', t); }
  }

  lemma WriteIsPlain(s: State, s': State, t: Pid)
    requires Local(s, t) && ExitStep(s, s', t) && (s.phase[t].ExitCode? || s.phase[t].ExitFlag?)
    ensures Plain(s, s', t)
  {
  }

  lemma ExitIsPlain(s: State, s': State, t: Pid)
    requires Local(s, t) && ExitStep(s, s', t) && !s.phase[t].ExitCast?
    ensures Plain(s, s', t)
  {
    if s.phase[t].ExitCode? || s.phase[t].ExitFlag? { WriteIsPlain(s, s', t); }
  }

  // ----------------------------------------------------- a process is made, and started

  ghost predicate Born(phase: map<Pid, Phase>, phase': map<Pid, Phase>, t: Pid, c: Pid) {
    t in phase && phase[t].Counted? && c !in phase && c >= FIRST && phase' == phase[c := Embryo][t := Forking(c)]
  }

  lemma BirthKeepsTables(phase: map<Pid, Phase>, phase': map<Pid, Phase>, t: Pid, c: Pid, alive: seq<bool>,
      exit: seq<int>)
    requires Born(phase, phase', t, c) && Tables(phase, c, alive, exit) && c - FIRST < SLOTS
    ensures Tables(phase', c + 1, alive, exit)
  {
  }

  lemma BirthKeepsLock(phase: map<Pid, Phase>, phase': map<Pid, Phase>, t: Pid, c: Pid, table: Option<Pid>)
    requires Born(phase, phase', t, c) && TableLock(phase, table) && Menu(phase)
    ensures TableLock(phase', table) && Menu(phase')
  {
  }

  lemma BirthKeepsSleepers(phase: map<Pid, Phase>, phase': map<Pid, Phase>, t: Pid, c: Pid, cvs: map<Pid, set<Pid>>)
    requires Born(phase, phase', t, c) && Sleepers(phase, cvs)
    ensures Sleepers(phase', cvs[c := {}])
  {
  }

  lemma BirthKeepsRest(phase: map<Pid, Phase>, phase': map<Pid, Phase>, t: Pid, c: Pid)
    requires Born(phase, phase', t, c) && Makers(phase) && Reports(phase)
    ensures Makers(phase') && Reports(phase')
  {
    forall q | q in phase' && phase'[q].WaitDone? ensures Reported(phase', phase'[q].child, phase'[q].status) {
      assert Reported(phase, phase[q].child, phase[q].status);
    }
  }

  /** The children are numbered upwards, so there are never more of them than pids. */
  lemma FewChildren(s: State, t: Pid)
    requires Tables(s.phase, s.counter, s.alive, s.exit) && Family(s.phase, s.children) && t in s.phase
    ensures FIRST + |s.children[t]| <= s.counter
  {
    if |s.children[t]| > 0 {
      var i := |s.children[t]| - 1;
      assert IsChild(s.phase, s.children[t][i], i);
    }
  }

  lemma BirthKeepsFamily(phase: map<Pid, Phase>, phase': map<Pid, Phase>, t: Pid, c: Pid, children: map<Pid, seq<Pid>>)
    requires Born(phase, phase', t, c) && Family(phase, children) && FIRST + |children[t]| <= c
    ensures Family(phase', children[c := []])
  {
    var children' := children[c := []];
    forall p, i | p in children' && 0 <= i < |children'[p]| ensures IsChild(phase', children'[p][i], i) {
      assert IsChild(phase, children[p][i], i);
    }
  }

  lemma BirthKeepsInv(s: State, s': State, t: Pid)
    requires Inv(s) && t in s.phase && s.phase[t].Counted? && ForkStep(s, s', t)
    ensures Inv(s')
  {
    var c := s.counter;
    FewChildren(s, t);
    assert Born(s.phase, s'.phase, t, c);
    BirthKeepsTables(s.phase, s'.phase, t, c, s.alive, s.exit);
    BirthKeepsLock(s.phase, s'.phase, t, c, s.table);
    BirthKeepsSleepers(s.phase, s'.phase, t, c, s.cvs);
    BirthKeepsFamily(s.phase, s'.phase, t, c, s.children);
    BirthKeepsRest(s.phase, s'.phase, t, c);
  }

  lemma RecordKeepsFamily(phase: map<Pid, Phase>, phase': map<Pid, Phase>, t: Pid, c: Pid, children: map<Pid, seq<Pid>>)
    requires Moved(phase, phase', t, Forking(c), Recorded(c)) && Family(phase, children) && c in phase
    ensures Family(phase', children[t := children[t] + [c]])
  {
    var children' := children[t := children[t] + [c]];
    forall p, i | p in children' && 0 <= i < |children'[p]| ensures IsChild(phase', children'[p][i], i) {
      if p != t || i < |children[t]| { assert IsChild(phase, children[p][i], i); }
    }
  }

  lemma RecordKeepsTables(phase: map<Pid, Phase>, phase': map<Pid, Phase>, t: Pid, c: Pid, counter: nat,
                          alive: seq<bool>, exit: seq<int>, table: Option<Pid>, cvs: map<Pid, set<Pid>>)
    requires Moved(phase, phase', t, Forking(c), Recorded(c))
    requires Tables(phase, counter, alive, exit) && TableLock(phase, table) && Sleepers(phase, cvs)
    ensures Tables(phase', counter, alive, exit) && TableLock(phase', table) && Sleepers(phase', cvs)
  {
    TablesMoved(phase, phase', t, Forking(c), Recorded(c), counter, alive, alive, exit, exit);
    LockMoved(phase, phase', t, Forking(c), Recorded(c), table, table);
    SleepersMoved(phase, phase', t, Forking(c), Recorded(c), cvs);
  }

  lemma RecordKeepsRest(phase: map<Pid, Phase>, phase': map<Pid, Phase>, t: Pid, c: Pid)
    requires Moved(phase, phase', t, Forking(c), Recorded(c)) && t != MENU
    requires Makers(phase) && Menu(phase) && Reports(phase)
    ensures Makers(phase') && Menu(phase') && Reports(phase') && c in phase
  {
    MakersMoved(phase, phase', t, Forking(c), Recorded(c));
    ReportsMoved(phase, phase', t, Forking(c), Recorded(c));
  }

  lemma RecordKeepsInv(s: State, s': State, t: Pid)
    requires Inv(s) && t in s.phase && s.phase[t].Forking? && t != MENU && ForkStep(s, s', t)
    ensures Inv(s')
  {
    var c := s.phase[t].child;
    assert Moved(s.phase, s'.phase, t, Forking(c), Recorded(c));
    RecordKeepsRest(s.phase, s'.phase, t, c);
    RecordKeepsTables(s.phase, s'.phase, t, c, s.counter, s.alive, s.exit, s.table, s.cvs);
    RecordKeepsFamily(s.phase, s'.phase, t, c, s.children);
  }

  ghost predicate Started(phase: map<Pid, Phase>, phase': map<Pid, Phase>, t: Pid, c: Pid) {
    && t in phase && c in phase && c != MENU && c != t && phase[c].Embryo? && Making(phase[t]) && phase[t].child == c
    && phase' == phase[c := Running][t := if t == MENU then MenuWait else Returning(c)]
  }

  lemma StartKeepsTables(phase: map<Pid, Phase>, phase': map<Pid, Phase>, t: Pid, c: Pid, counter: nat,
                         alive: seq<bool>, exit: seq<int>, table: Option<Pid>)
    requires Started(phase, phase', t, c) && Tables(phase, counter, alive, exit) && TableLock(phase, table)
    ensures Tables(phase', counter, alive, exit) && TableLock(phase', table)
  {
    var mid, p := phase[c := Running], phase[t];
    TablesMoved(phase, mid, c, Embryo, Running, counter, alive, alive, exit, exit);
    LockMoved(phase, mid, c, Embryo, Running, table, table);
    TablesMoved(mid, phase', t, p, phase'[t], counter, alive, alive, exit, exit);
    LockMoved(mid, phase', t, p, phase'[t], table, table);
  }

  lemma StartKeepsSleepers(phase: map<Pid, Phase>, phase': map<Pid, Phase>, t: Pid, c: Pid, cvs: map<Pid, set<Pid>>)
    requires Started(phase, phase', t, c) && Sleepers(phase, cvs)
    ensures Sleepers(phase', cvs)
  {
    var mid, p := phase[c := Running], phase[t];
    SleepersMoved(phase, mid, c, Embryo, Running, cvs);
    SleepersMoved(mid, phase', t, p, phase'[t], cvs);
  }

  lemma StartKeepsFamily(phase: map<Pid, Phase>, phase': map<Pid, Phase>, t: Pid, c: Pid, children: map<Pid, seq<Pid>>)
    requires Started(phase, phase', t, c) && Family(phase, children) && (t != MENU ==> c in children[t])
    ensures Family(phase', children)
  {
    var mid, p := phase[c := Running], phase[t];
    FamilyMoved(phase, mid, c, Embryo, Running, children);
    FamilyMoved(mid, phase', t, p, phase'[t], children);
  }

  lemma StartKeepsMakers(phase: map<Pid, Phase>, phase': map<Pid, Phase>, t: Pid, c: Pid)
    requires Started(phase, phase', t, c) && Makers(phase) && Menu(phase)
    ensures Makers(phase') && Menu(phase')
  {
  }

  lemma StartKeepsReports(phase: map<Pid, Phase>, phase': map<Pid, Phase>, t: Pid, c: Pid)
    requires Started(phase, phase', t, c) && Reports(phase)
    ensures Reports(phase')
  {
    forall q | q in phase' && phase'[q].WaitDone? ensures Reported(phase', phase'[q].child, phase'[q].status) {
      assert Reported(phase, phase[q].child, phase[q].status);
    }
  }

  lemma StartKeepsInv(s: State, s': State, t: Pid)
    requires Inv(s) && t in s.phase && ForkStep(s, s', t)
    requires s.phase[t].Recorded? || (s.phase[t].Forking? && t == MENU)
    ensures Inv(s')
  {
    var c := s.phase[t].child;
    assert Started(s.phase, s'.phase, t, c);
    StartKeepsTables(s.phase, s'.phase, t, c, s.counter, s.alive, s.exit, s.table);
    StartKeepsSleepers(s.phase, s'.phase, t, c, s.cvs);
    StartKeepsFamily(s.phase, s'.phase, t, c, s.children);
    StartKeepsMakers(s.phase, s'.phase, t, c);
    StartKeepsReports(s.phase, s'.phase, t, c);
  }

  // ----------------------------------------------------------------- the broadcast

  ghost predicate Cast(phase: map<Pid, Phase>, phase': map<Pid, Phase>, t: Pid) {
    && t in phase && t != MENU && phase[t].ExitCast? && phase'.Keys == phase.Keys
    && forall p :: p in phase ==> phase'[p] == if p == t then ExitFree(phase[t].code)
                                               else if phase[p] == Asleep(t) then Woken(t) else phase[p]
  }

  lemma CastKeepsTables(phase: map<Pid, Phase>, phase': map<Pid, Phase>, t: Pid, counter: nat,
                        alive: seq<bool>, exit: seq<int>, table: Option<Pid>)
    requires Cast(phase, phase', t) && Tables(phase, counter, alive, exit) && TableLock(phase, table)
    ensures Tables(phase', counter, alive, exit) && TableLock(phase', table)
  {
  }

  lemma CastKeepsSleepers(phase: map<Pid, Phase>, phase': map<Pid, Phase>, t: Pid, cvs: map<Pid, set<Pid>>)
    requires Cast(phase, phase', t) && Sleepers(phase, cvs)
    ensures Sleepers(phase', cvs[t := {}])
  {
  }

  lemma CastKeepsFamily(phase: map<Pid, Phase>, phase': map<Pid, Phase>, t: Pid, children: map<Pid, seq<Pid>>)
    requires Cast(phase, phase', t) && Family(phase, children)
    ensures Family(phase', children)
  {
  }

  lemma CastKeepsMakers(phase: map<Pid, Phase>, phase': map<Pid, Phase>, t: Pid)
    requires Cast(phase, phase', t) && Makers(phase) && Menu(phase)
    ensures Makers(phase') && Menu(phase')
  {
    forall p | p in phase' && Making(phase'[p])
      ensures phase'[p].child in phase' && phase'[phase'[p].child].Embryo?
    {
      assert phase'[p] == phase[p];
    }
    forall p, q | p in phase' && q in phase' && Making(phase'[p]) && Making(phase'[q])
      ensures phase'[p].child == phase'[q].child ==> p == q
    {
      assert phase'[p] == phase[p] && phase'[q] == phase[q];
    }
  }

  lemma CastKeepsReports(phase: map<Pid, Phase>, phase': map<Pid, Phase>, t: Pid)
    requires Cast(phase, phase', t) && Reports(phase)
    ensures Reports(phase')
  {
    forall q | q in phase' && phase'[q].WaitDone? ensures Reported(phase', phase'[q].child, phase'[q].status) {
      assert Reported(phase, phase[q].child, phase[q].status);
    }
  }

  lemma CastKeepsInv(s: State, s': State, t: Pid)
    requires Inv(s) && t in s.phase && s.phase[t].ExitCast? && ExitStep(s, s', t)
    ensures Inv(s')
  {
    assert Cast(s.phase, s'.phase, t);
    CastKeepsTables(s.phase, s'.phase, t, s.counter, s.alive, s.exit, s.table);
    CastKeepsSleepers(s.phase, s'.phase, t, s.cvs);
    CastKeepsFamily(s.phase, s'.phase, t, s.children);
    CastKeepsMakers(s.phase, s'.phase, t);
    CastKeepsReports(s.phase, s'.phase, t);
  }

  lemma ForkKeepsInv(s: State, s': State, t: Pid)
    requires Inv(s) && t in s.phase && ForkStep(s, s', t)
    ensures Inv(s')
  {
    var p := s.phase[t];
    if p.Counted? {
      BirthKeepsInv(s, s', t);
    } else if p.Forking? && t != MENU {
      RecordKeepsInv(s, s', t);
    } else if Making(p) {
      StartKeepsInv(s, s', t);
    } else {
      InvLocal(s, t);
      assert p.MenuWait? ==> t == MENU;
      ReturnIsPlain(s, s', t);
      PlainKeepsInv(s, s', t);
    }
  }

  lemma NextKeepsInv(s: State, s': State)
    requires Inv(s) && Next(s, s')
    ensures Inv(s')
  {
    var t :| Step(s, s', t);
    StepKeepsInv(s, s', t);
  }

  lemma StepKeepsInv(s: State, s': State, t: Pid)
    requires Inv(s) && Step(s, s', t)
    ensures Inv(s')
  {
    InvLocal(s, t);
    if s.phase[t].Running? {
      CallIsPlain(s, s', t);
      PlainKeepsInv(s, s', t);
    } else if ForkStep(s, s', t) {
      ForkKeepsInv(s, s', t);
    } else if WaitStep(s, s', t) {
      WaitIsPlain(s, s', t);
      PlainKeepsInv(s, s', t);
    } else if s.phase[t].ExitCast? {
      CastKeepsInv(s, s', t);
    } else {
      ExitIsPlain(s, s', t);
      PlainKeepsInv(s, s', t);
    }
  }

  // ------------------------------------------------------------ the count of processes

  function Live(phase: map<Pid, Phase>): set<Pid> { set p | p in phase && p != MENU && !phase[p].Dead? }

  function Pending(phase: map<Pid, Phase>): set<Pid> { set p | p in phase && phase[p].Counted? }

  /** proc_count counts the processes made, or about to be, and not destroyed; the menu
      is let through exactly once, when there is none left. */
  ghost predicate Counts(s: State) {
    && MENU in s.phase
    && s.count == |Live(s.phase)| + |Pending(s.phase)|
    && s.noProc == (if s.phase[MENU].MenuWait? && s.count == 0 then 1 else 0)
    && (s.phase[MENU].Running? ==> s.count == 0)
  }

  lemma SubsetSize(a: set<Pid>, b: set<Pid>)
    requires a <= b
    ensures |a| <= |b|
  {
    assert b == a + (b - a);
  }

  /** A process at work is counted, and so is anything the menu is making beside it. */
  lemma OthersCount(phase: map<Pid, Phase>, t: Pid)
    requires Makers(phase) && t in phase && t != MENU && !phase[t].Dead? && MENU in phase
    ensures |Live(phase)| >= 1
    ensures (phase[MENU].Counted? || phase[MENU].Forking?) && !phase[t].Embryo? ==>
            |Live(phase)| + |Pending(phase)| >= 2
  {
    SubsetSize({t}, Live(phase));
    if phase[MENU].Counted? {
      SubsetSize({MENU}, Pending(phase));
    } else if phase[MENU].Forking? && !phase[t].Embryo? && phase[MENU].child != MENU {
      SubsetSize({t, phase[MENU].child}, Live(phase));
    } else if phase[MENU].Forking? {
      assert phase[phase[MENU].child].Embryo?;
    }
  }

  /** Nothing enters or leaves the count. */
  lemma CountsSame(s: State, s': State)
    requires Counts(s) && MENU in s'.phase && s'.count == s.count && s'.noProc == s.noProc
    requires Live(s'.phase) == Live(s.phase) && Pending(s'.phase) == Pending(s.phase)
    requires s'.phase[MENU] == s.phase[MENU] || (s.phase[MENU].Forking? && s'.phase[MENU].MenuWait? && s.count > 0)
    ensures Counts(s')
  {
  }

  lemma PlainSets(phase: map<Pid, Phase>, phase': map<Pid, Phase>, t: Pid, p: Phase, p': Phase)
    requires Moved(phase, phase', t, p, p') && !p.Counted? && !p'.Counted? && (t == MENU || p.Dead? == p'.Dead?)
    ensures Live(phase') == Live(phase) && Pending(phase') == Pending(phase)
  {
  }

  lemma BornSets(phase: map<Pid, Phase>, phase': map<Pid, Phase>, t: Pid, c: Pid)
    requires Born(phase, phase', t, c)
    ensures |Live(phase')| == |Live(phase)| + 1 && |Pending(phase')| == |Pending(phase)| - 1
  {
    assert Live(phase') == Live(phase) + {c};
    assert Pending(phase) == Pending(phase') + {t};
  }

  lemma StartedSets(phase: map<Pid, Phase>, phase': map<Pid, Phase>, t: Pid, c: Pid)
    requires Started(phase, phase', t, c)
    ensures Live(phase') == Live(phase) && Pending(phase') == Pending(phase)
  {
  }

  lemma CastSets(phase: map<Pid, Phase>, phase': map<Pid, Phase>, t: Pid)
    requires Cast(phase, phase', t)
    ensures Live(phase') == Live(phase) && Pending(phase') == Pending(phase)
  {
  }

  lemma DeadSets(phase: map<Pid, Phase>, phase': map<Pid, Phase>, t: Pid, p: Phase, p': Phase)
    requires Moved(phase, phase', t, p, p') && p.Freed? && p'.Dead? && t != MENU
    ensures |Live(phase')| == |Live(phase)| - 1 && Pending(phase') == Pending(phase)
  {
    assert Live(phase) == Live(phase') + {t};
  }

  lemma CountedKeepsCounts(s: State, s': State, t: Pid)
    requires Makers(s.phase) && Menu(s.phase) && Counts(s) && t in s.phase
    requires s.phase[t].Running? && s' == At(s, t, Counted).(count := s.count + 1)
    ensures Counts(s')
  {
    assert Pending(s'.phase) == Pending(s.phase) + {t};
    assert Live(s'.phase) == Live(s.phase);
    if t != MENU { OthersCount(s.phase, t); }
  }

  lemma CallKeepsCounts(s: State, s': State, t: Pid)
    requires Makers(s.phase) && Menu(s.phase) && Counts(s) && t in s.phase && t in s.children
    requires s.phase[t].Running? && Call(s, s', t)
    ensures Counts(s')
  {
    if s'.phase[t].Counted? {
      CountedKeepsCounts(s, s', t);
    } else {
      PlainSets(s.phase, s'.phase, t, s.phase[t], s'.phase[t]);
      CountsSame(s, s');
    }
  }

  lemma ForkKeepsCounts(s: State, s': State, t: Pid)
    requires Menu(s.phase) && Counts(s) && t in s.phase && t in s.children && ForkStep(s, s', t)
    requires s.counter !in s.phase && s.counter >= FIRST
    requires Making(s.phase[t]) ==> Startable(s.phase, t)
    ensures Counts(s')
  {
    var p := s.phase[t];
    if p.Counted? {
      BornSets(s.phase, s'.phase, t, s.counter);
    } else if p.MenuWait? {
      PlainSets(s.phase, s'.phase, t, p, s'.phase[t]);
    } else {
      if p.Recorded? || (p.Forking? && t == MENU) {
        StartedSets(s.phase, s'.phase, t, p.child);
        SubsetSize({p.child}, Live(s.phase));
      } else {
        PlainSets(s.phase, s'.phase, t, p, s'.phase[t]);
      }
      CountsSame(s, s');
    }
  }

  ghost predicate Startable(phase: map<Pid, Phase>, t: Pid)
    requires t in phase && Making(phase[t])
  {
    var c := phase[t].child;
    c in phase && phase[c].Embryo? && c != MENU && c != t
  }

  lemma WaitKeepsCounts(s: State, s': State, t: Pid)
    requires Menu(s.phase) && Counts(s) && t in s.phase && WaitStep(s, s', t)
    ensures Counts(s')
  {
    PlainSets(s.phase, s'.phase, t, s.phase[t], s'.phase[t]);
    CountsSame(s, s');
  }

  lemma ExitKeepsCounts(s: State, s': State, t: Pid)
    requires Makers(s.phase) && Menu(s.phase) && Counts(s) && t in s.phase && ExitStep(s, s', t)
    ensures Counts(s')
  {
    if s.phase[t].Freed? {
      OthersCount(s.phase, t);
      DeadSets(s.phase, s'.phase, t, s.phase[t], s'.phase[t]);
    } else {
      if s.phase[t].ExitCast? {
        CastSets(s.phase, s'.phase, t);
      } else {
        PlainSets(s.phase, s'.phase, t, s.phase[t], s'.phase[t]);
      }
      CountsSame(s, s');
    }
  }

  lemma StepKeepsCounts(s: State, s': State, t: Pid)
    requires Inv(s) && Counts(s) && Step(s, s', t)
    ensures Counts(s')
  {
    assert s.counter !in s.phase;
    if s.phase[t].Running? {
      CallKeepsCounts(s, s', t);
    } else if ForkStep(s, s', t) {
      ForkKeepsCounts(s, s', t);
    } else if WaitStep(s, s', t) {
      WaitKeepsCounts(s, s', t);
    } else {
      ExitKeepsCounts(s, s', t);
    }
  }

  // -------------------------------------------------------------------- whole runs

  ghost predicate Goes(r: seq<State>, i: nat)
    requires i + 1 < |r|
  {
    Next(r[i], r[i + 1])
  }

  ghost predicate Run(r: seq<State>) { r != [] && Init(r[0]) && forall i :: 0 <= i < |r| - 1 ==> Goes(r, i) }

  lemma {:induction false} RunKeepsInv(r: seq<State>, i: nat)
    requires Run(r) && i < |r|
    ensures Inv(r[i]) && Counts(r[i])
  {
    if i == 0 {
      InitInv(r[0]);
      assert Live(r[0].phase) == {} && Pending(r[0].phase) == {};
    } else {
      RunKeepsInv(r, i - 1);
      assert Goes(r, i - 1);
      var t :| Step(r[i - 1], r[i], t);
      StepKeepsInv(r[i - 1], r[i], t);
      StepKeepsCounts(r[i - 1], r[i], t);
    }
  }

  /** waitpid returns only for a child whose _exit has gone past clearing its slot,
      with the status made of exactly the code passed to _exit. */
  lemma WaitpidReportsTheExitCode(r: seq<State>, i: nat, t: Pid)
    requires Run(r) && i < |r| && t in r[i].phase && r[i].phase[t].WaitDone?
    ensures var c := r[i].phase[t].child;
      t in r[i].children && c in r[i].children[t] && Reported(r[i].phase, c, r[i].phase[t].status)
  {
    RunKeepsInv(r, i);
    ChildExists(r[i].phase, r[i].children, t);
  }

  /** Nobody is asleep on a process that has exited, nor on a condition variable that is
      gone: a sleeper is on the list of a child that will still broadcast. */
  lemma NobodySleepsForever(r: seq<State>, i: nat, t: Pid)
    requires Run(r) && i < |r| && t in r[i].phase && r[i].phase[t].Asleep?
    ensures var c := r[i].phase[t].child;
      && c in r[i].cvs && t in r[i].cvs[c] && c in r[i].phase
      && !HasBroadcast(r[i].phase[c]) && !Destroyed(r[i].phase[c])
  {
    RunKeepsInv(r, i);
    ChildExists(r[i].phase, r[i].children, t);
  }

  /** At the loop test the tables are indexed within bounds and no condition variable
      that is gone is waited on; childArray has room when fork writes to it. */
  lemma TablesAreUsedSafely(r: seq<State>, i: nat, t: Pid)
    requires Run(r) && i < |r| && t in r[i].phase
    ensures t in r[i].children && |r[i].children[t]| <= SLOTS
    ensures r[i].phase[t].Forking? ==> |r[i].children[t]| < SLOTS
    ensures r[i].phase[t].WaitLoop? ==> SoundTest(r[i], t)
  {
    RunKeepsInv(r, i);
    InvLocal(r[i], t);
    FewChildren(r[i], t);
  }

  /** The menu goes on only when every process started has been destroyed. */
  lemma MenuWaitsForAll(r: seq<State>, i: nat, t: Pid)
    requires Run(r) && i < |r| && t in r[i].phase && t != MENU
    requires MENU in r[i].phase && (r[i].phase[MENU].Running? || r[i].noProc > 0)
    ensures r[i].phase[t].Dead?
  {
    RunKeepsInv(r, i);
    if !r[i].phase[t].Dead? { OthersCount(r[i].phase, t); }
  }
}
