/** The intersection monitor of the traffic problem.  Each step is one stretch of
    code run with lk_mutex held: an arrival up to entering or to cv_wait, the code
    after cv_wait, and an exit. */
module Traffic {

  datatype Direction = North | East | South | West

  datatype Vehicle = Vehicle(origin: Direction, destination: Direction)

  function TransDir(o: Direction): (r: int)
    ensures 0 <= r < 4
  {
    match o case North => 0 case East => 1 case South => 2 case West => 3
  }

  // ------------------------------------------------------------- the shared variables

  /** The variables of the monitor: the directions waited for, first come first, the
      direction let through (-1 for none) and the number of vehicles let in. */
  datatype Core = Core(waiting: seq<int>, cur: int, count: int)

  predicate Enters(c: Core, o: Direction) { c.count == 0 && (c.cur == -1 || c.cur == TransDir(o)) }

  function Enqueue(w: seq<int>, d: int): seq<int> { if d in w then w else w + [d] }

  function AfterArrive(c: Core, o: Direction): Core {
    if Enters(c, o) then c.(count := c.count + 1, cur := TransDir(o))
    else c.(waiting := Enqueue(c.waiting, TransDir(o)))
  }

  function AfterExit(c: Core): Core {
    if c.count != 1 then c.(count := c.count - 1)
    else if c.waiting == [] then Core([], -1, 0)
    else Core(c.waiting[1..], c.waiting[0], 0)
  }

  ghost predicate WaitlistOK(w: seq<int>) {
    && |w| <= 4
    && (forall i :: 0 <= i < |w| ==> 0 <= w[i] < 4)
    && (forall i, j :: 0 <= i < j < |w| ==> w[i] != w[j])
  }

  /** Four different directions are all of them. */
  lemma FullNamesAll(w: seq<int>, d: int)
    requires WaitlistOK(w) && |w| == 4 && 0 <= d < 4
    ensures d in w
  {
    assert w[0] == d || w[1] == d || w[2] == d || w[3] == d;
  }

  class Intersection {
    const waitlist: array<int>
    var lenWaitlist: int
    var currentTraffic: int
    var count: int

    ghost predicate Valid()
      reads this, waitlist
    {
      && waitlist.Length == 4 && 0 <= lenWaitlist <= 4
      && WaitlistOK(waitlist[..lenWaitlist])
      && forall i :: lenWaitlist <= i < 4 ==> waitlist[i] == -1
    }

    ghost function Contents(): Core
      requires Valid()
      reads this, waitlist
    {
      Core(waitlist[..lenWaitlist], currentTraffic, count)
    }

    constructor ()
      ensures Valid() && fresh(waitlist) && Contents() == Core([], -1, 0)
    {
      waitlist := new int[4](_ => -1);
      lenWaitlist, currentTraffic, count := 0, -1, 0;
    }

    method InWaitlist(d: int) returns (flag: bool)
      requires Valid() && 0 <= d
      ensures flag == (d in Contents().waiting)
    {
      flag := false;
      for i := 0 to 4
        invariant flag == (d in waitlist[..i])
      {
        assert waitlist[..i + 1] == waitlist[..i] + [waitlist[i]];
        if waitlist[i] == d { flag := true; }
      }
      assert waitlist[..4] == waitlist[..lenWaitlist] + waitlist[lenWaitlist..4];
    }

    /** intersection_before_entry up to lock_release, or to cv_wait when it must wait. */
    method Arrive(origin: Direction) returns (enters: bool)
      requires Valid()
      modifies this, waitlist
      ensures Valid()
      ensures enters == Enters(old(Contents()), origin)
      ensures Contents() == AfterArrive(old(Contents()), origin)
    {
      enters := count == 0 && (currentTraffic == -1 || currentTraffic == TransDir(origin));
      if enters {
        count := count + 1;
        currentTraffic := TransDir(origin);
      } else if lenWaitlist != 4 {
        var flag := InWaitlist(TransDir(origin));
        if !flag {
          waitlist[lenWaitlist] := TransDir(origin);
          lenWaitlist := lenWaitlist + 1;
          assert waitlist[..lenWaitlist] == old(waitlist[..lenWaitlist]) + [TransDir(origin)];
        }
      } else {
        FullNamesAll(waitlist[..4], TransDir(origin));
      }
    }

    /** The rest of intersection_before_entry, after cv_wait. */
    method Resume()
      requires Valid()
      modifies this
      ensures Valid() && Contents() == old(Contents()).(count := old(count) + 1)
    {
      count := count + 1;
    }

    method DropFirst()
      requires Valid() && lenWaitlist > 0
      modifies waitlist, this`lenWaitlist
      ensures Valid() && Contents() == old(Contents()).(waiting := old(Contents()).waiting[1..])
    {
      for i := 0 to 3
        invariant lenWaitlist == old(lenWaitlist)
        invariant forall k :: 0 <= k < i ==> waitlist[k] == old(waitlist[k + 1])
        invariant forall k :: i <= k < 4 ==> waitlist[k] == old(waitlist[k])
      {
        waitlist[i] := waitlist[i + 1];
      }
      waitlist[3] := -1;
      lenWaitlist := lenWaitlist - 1;
      assert waitlist[..lenWaitlist] == old(waitlist[..lenWaitlist])[1..];
    }

    /** intersection_after_exit.  The direction broadcast to, -1 for none. */
    method Exit() returns (woken: int)
      requires Valid() && count > 0
      modifies this, waitlist
      ensures Valid() && Contents() == AfterExit(old(Contents()))
      ensures woken == if old(count) == 1 then Contents().cur else -1
    {
      woken := -1;
      count := count - 1;
      if count == 0 {
        currentTraffic := waitlist[0];
        if waitlist[0] == -1 {
          currentTraffic := -1;
        } else {
          currentTraffic := waitlist[0];
          DropFirst();
        }
        woken := currentTraffic;
      }
    }
  }

  // ---------------------------------------------------------------- the whole system

  type Tid = nat

  /** Vehicles asleep on the condition variable of their origin, woken but not yet
      past cv_wait, and in the intersection. */
  datatype State = State(core: Core, sleeping: map<Tid, Vehicle>, woken: map<Tid, Vehicle>, inside: map<Tid, Vehicle>)

  ghost predicate Init(s: State) { s == State(Core([], -1, 0), map[], map[], map[]) }

  predicate Present(s: State, t: Tid) { t in s.sleeping || t in s.woken || t in s.inside }

  function From(m: map<Tid, Vehicle>, d: int): map<Tid, Vehicle> {
    map t | t in m && TransDir(m[t].origin) == d :: m[t]
  }

  datatype Event = Arrive(t: Tid, v: Vehicle) | Resume(t: Tid) | Exit(t: Tid)

  predicate Enabled(s: State, e: Event) {
    match e
    case Arrive(t, v) => !Present(s, t)
    case Resume(t) => t in s.woken
    case Exit(t) => t in s.inside
  }

  function Next(s: State, e: Event): State
    requires Enabled(s, e)
  {
    match e
    case Arrive(t, v) =>
      var core := AfterArrive(s.core, v.origin);
      if Enters(s.core, v.origin) then State(core, s.sleeping, s.woken, s.inside[t := v])
      else State(core, s.sleeping[t := v], s.woken, s.inside)
    case Resume(t) =>
      State(s.core.(count := s.core.count + 1), s.sleeping, s.woken - {t}, s.inside[t := s.woken[t]])
    case Exit(t) =>
      var core := AfterExit(s.core);
      if s.core.count != 1 then State(core, s.sleeping, s.woken, s.inside - {t})
      else State(core, s.sleeping - From(s.sleeping, core.cur).Keys, s.woken + From(s.sleeping, core.cur),
                 s.inside - {t})
  }

  // ------------------------------------------------------------ what always holds

  ghost predicate Apart(s: State) {
    s.sleeping.Keys !! s.woken.Keys && s.sleeping.Keys !! s.inside.Keys && s.woken.Keys !! s.inside.Keys
  }

  ghost predicate SomeFrom(sleeping: map<Tid, Vehicle>, d: int) {
    exists t :: t in sleeping && TransDir(sleeping[t].origin) == d
  }

  /** The wait list names, once each, exactly the directions with a sleeper. */
  ghost predicate Named(w: seq<int>, sleeping: map<Tid, Vehicle>) {
    && (forall t :: t in sleeping ==> TransDir(sleeping[t].origin) in w)
    && (forall d :: d in w ==> SomeFrom(sleeping, d))
  }

  ghost predicate Inv(s: State) {
    && Apart(s) && WaitlistOK(s.core.waiting) && Named(s.core.waiting, s.sleeping)
    && s.core.count == |s.inside|
    && -1 <= s.core.cur < 4
    && (s.inside == map[] && s.woken == map[] ==> s.sleeping == map[] && s.core.cur == -1)
  }

  lemma SizeAfterAdd(m: map<Tid, Vehicle>, t: Tid, v: Vehicle)
    requires t !in m
    ensures |m[t := v]| == |m| + 1
  {
    assert m[t := v].Keys == m.Keys + {t};
  }

  lemma SizeAfterRemove(m: map<Tid, Vehicle>, t: Tid)
    requires t in m
    ensures |m - {t}| == |m| - 1
    ensures |m| == 1 ==> m - {t} == map[]
  {
    assert m.Keys == (m - {t}).Keys + {t};
    if |m| == 1 { assert |(m - {t}).Keys| == 0; }
  }

  lemma EnqueueNamed(w: seq<int>, sleeping: map<Tid, Vehicle>, t: Tid, v: Vehicle)
    requires WaitlistOK(w) && Named(w, sleeping) && t !in sleeping
    ensures WaitlistOK(Enqueue(w, TransDir(v.origin))) && Named(Enqueue(w, TransDir(v.origin)), sleeping[t := v])
  {
    var w', sleeping' := Enqueue(w, TransDir(v.origin)), sleeping[t := v];
    if |w| == 4 { FullNamesAll(w, TransDir(v.origin)); }
    forall d | d in w' ensures SomeFrom(sleeping', d) {
      if d in w {
        var u :| u in sleeping && TransDir(sleeping[u].origin) == d;
        assert u in sleeping' && sleeping'[u] == sleeping[u];
      } else {
        assert t in sleeping' && sleeping'[t] == v;
      }
    }
  }

  lemma ArriveKeepsInv(s: State, t: Tid, v: Vehicle)
    requires Inv(s) && !Present(s, t)
    ensures Inv(Next(s, Arrive(t, v)))
  {
    if Enters(s.core, v.origin) {
      SizeAfterAdd(s.inside, t, v);
      assert t in Next(s, Arrive(t, v)).inside;
    } else {
      EnqueueNamed(s.core.waiting, s.sleeping, t, v);
      assert s.inside == map[] ==> s.core.count == 0;
    }
  }

  lemma PopNamed(w: seq<int>, sleeping: map<Tid, Vehicle>)
    requires WaitlistOK(w) && w != [] && Named(w, sleeping)
    ensures Named(w[1..], sleeping - From(sleeping, w[0]).Keys)
    ensures From(sleeping, w[0]) != map[]
  {
    var rest := sleeping - From(sleeping, w[0]).Keys;
    forall d | d in w[1..] ensures SomeFrom(rest, d) {
      assert d in w && d != w[0];
      var u :| u in sleeping && TransDir(sleeping[u].origin) == d;
      assert u in rest && rest[u] == sleeping[u];
    }
    assert SomeFrom(sleeping, w[0]);
    var u :| u in sleeping && TransDir(sleeping[u].origin) == w[0];
    assert u in From(sleeping, w[0]);
  }

  lemma NobodyNamed(sleeping: map<Tid, Vehicle>)
    requires Named([], sleeping)
    ensures sleeping == map[]
  {
    assert forall t :: t in sleeping ==> TransDir(sleeping[t].origin) in [];
  }

  lemma HandOver(s: State, t: Tid)
    requires Inv(s) && t in s.inside && s.core.count == 1 && s.core.waiting != []
    ensures Inv(Next(s, Exit(t)))
  {
    var s' := Next(s, Exit(t));
    SizeAfterRemove(s.inside, t);
    PopNamed(s.core.waiting, s.sleeping);
    assert s'.woken != map[] by {
      var u :| u in From(s.sleeping, s.core.waiting[0]);
      assert u in s'.woken;
    }
  }

  lemma ExitKeepsInv(s: State, t: Tid)
    requires Inv(s) && t in s.inside
    ensures Inv(Next(s, Exit(t)))
  {
    if s.core.count == 1 && s.core.waiting != [] {
      HandOver(s, t);
    } else {
      SizeAfterRemove(s.inside, t);
      if s.core.count == 1 {
        NobodyNamed(s.sleeping);
      } else {
        assert |s.inside - {t}| != 0;
      }
    }
  }

  lemma NextKeepsInv(s: State, e: Event)
    requires Inv(s) && Enabled(s, e)
    ensures Inv(Next(s, e))
  {
    match e
    case Arrive(t, v) => ArriveKeepsInv(s, t, v);
    case Resume(t) =>
      SizeAfterAdd(s.inside, t, s.woken[t]);
      assert t in Next(s, e).inside;
    case Exit(t) => ExitKeepsInv(s, t);
  }

  // ------------------------------------------------------------------ one direction at a time

  /** Everyone in the intersection, or woken to enter it, comes from the current direction. */
  ghost predicate OneWay(s: State) {
    && (forall t :: t in s.inside ==> TransDir(s.inside[t].origin) == s.core.cur)
    && (forall t :: t in s.woken ==> TransDir(s.woken[t].origin) == s.core.cur)
  }

  /** The last vehicle leaves while some vehicle that was woken is still to enter, and
      the next direction is not the current one. */
  predicate Overtakes(s: State, e: Event) {
    e.Exit? && s.core.count == 1 && s.woken != map[] && AfterExit(s.core).cur != s.core.cur
  }

  lemma ArriveKeepsOneWay(s: State, t: Tid, v: Vehicle)
    requires Inv(s) && OneWay(s) && !Present(s, t)
    ensures OneWay(Next(s, Arrive(t, v)))
  {
    if Enters(s.core, v.origin) { assert s.inside == map[]; }
  }

  lemma ExitKeepsOneWay(s: State, t: Tid)
    requires Inv(s) && OneWay(s) && t in s.inside && !Overtakes(s, Exit(t))
    ensures OneWay(Next(s, Exit(t)))
  {
    var s' := Next(s, Exit(t));
    if s.core.count == 1 {
      SizeAfterRemove(s.inside, t);
      forall u | u in s'.woken ensures TransDir(s'.woken[u].origin) == s'.core.cur {
        if u !in From(s.sleeping, s'.core.cur) { assert u in s.woken && s'.woken[u] == s.woken[u]; }
      }
    }
  }

  lemma NextKeepsOneWay(s: State, e: Event)
    requires Inv(s) && OneWay(s) && Enabled(s, e) && !Overtakes(s, e)
    ensures OneWay(Next(s, e))
  {
    match e
    case Arrive(t, v) => ArriveKeepsOneWay(s, t, v);
    case Resume(t) =>
    case Exit(t) => ExitKeepsOneWay(s, t);
  }

  /** A run: the states and the events between them. */
  ghost predicate Goes(r: seq<State>, es: seq<Event>, i: nat)
    requires i < |es| && i + 1 < |r|
  {
    Enabled(r[i], es[i]) && r[i + 1] == Next(r[i], es[i])
  }

  ghost predicate Run(r: seq<State>, es: seq<Event>) {
    && |r| == |es| + 1 && Init(r[0])
    && forall i :: 0 <= i < |es| ==> Goes(r, es, i)
  }

  ghost predicate NeverOvertakes(r: seq<State>, es: seq<Event>, n: nat)
    requires |r| == |es| + 1 && n <= |es|
  {
    forall i :: 0 <= i < n ==> !Overtakes(r[i], es[i])
  }

  lemma {:induction false} RunKeepsInv(r: seq<State>, es: seq<Event>, i: nat)
    requires Run(r, es) && i < |r|
    ensures Inv(r[i])
  {
    if i > 0 {
      RunKeepsInv(r, es, i - 1);
      assert Goes(r, es, i - 1);
      NextKeepsInv(r[i - 1], es[i - 1]);
    }
  }

  lemma {:induction false} RunKeepsOneWay(r: seq<State>, es: seq<Event>, i: nat)
    requires Run(r, es) && i < |r| && NeverOvertakes(r, es, i)
    ensures OneWay(r[i])
  {
    if i > 0 {
      RunKeepsOneWay(r, es, i - 1);
      RunKeepsInv(r, es, i - 1);
      assert Goes(r, es, i - 1);
      NextKeepsOneWay(r[i - 1], es[i - 1]);
    }
  }

  predicate RightTurn(v: Vehicle) {
    || (v.origin == West && v.destination == South) || (v.origin == South && v.destination == East)
    || (v.origin == East && v.destination == North) || (v.origin == North && v.destination == West)
  }

  /** What check_constraints panics about. */
  predicate Conflict(a: Vehicle, b: Vehicle) {
    && a.origin != b.origin
    && !(a.origin == b.destination && a.destination == b.origin)
    && !((RightTurn(a) || RightTurn(b)) && a.destination != b.destination)
  }

  /** In every run up to a state reached without overtaking, check_constraints
      finds no conflict. */
  lemma IntersectionIsSafe(r: seq<State>, es: seq<Event>, i: nat, t: Tid, u: Tid)
    requires Run(r, es) && i < |r| && NeverOvertakes(r, es, i)
    requires t in r[i].inside && u in r[i].inside
    ensures r[i].inside[t].origin == r[i].inside[u].origin && !Conflict(r[i].inside[t], r[i].inside[u])
  {
    RunKeepsOneWay(r, es, i);
  }

  /** In every run, overtaking or not, a sleeping vehicle has one in the intersection
      or on its way in before it, whose exit will wake somebody. */
  lemma NobodyIsStranded(r: seq<State>, es: seq<Event>, i: nat, t: Tid)
    requires Run(r, es) && i < |r| && t in r[i].sleeping
    ensures r[i].inside != map[] || r[i].woken != map[]
    ensures TransDir(r[i].sleeping[t].origin) in r[i].core.waiting
  {
    RunKeepsInv(r, es, i);
  }

  // ------------------------------------------------------ and overtaking does break it

  ghost predicate Mixed(s: State) {
    exists t, u :: t in s.inside && u in s.inside && s.inside[t].origin != s.inside[u].origin
  }

  /** Some continuation of at most that many events ends in a mixed state. */
  ghost predicate CanReachMixed(s: State, events: nat)
    decreases events
  {
    Mixed(s) || (events > 0 && exists e :: Enabled(s, e) && CanReachMixed(Next(s, e), events - 1))
  }

  lemma TwoResume(s: State, t: Tid, u: Tid)
    requires t in s.woken && u in s.woken && s.woken[t].origin != s.woken[u].origin
    ensures CanReachMixed(s, 2)
  {
    var s1 := Next(s, Resume(t));
    assert u in s1.woken && Enabled(s, Resume(t)) && Enabled(s1, Resume(u));
    var s2 := Next(s1, Resume(u));
    assert t in s2.inside && u in s2.inside;
    assert CanReachMixed(s2, 0);
    assert CanReachMixed(s1, 1);
  }

  lemma StrangerThenResume(s: State, t: Tid, u: Tid, v: Vehicle)
    requires t in s.woken && !Present(s, u) && s.core.cur == -1 && s.core.count == 0
    requires v.origin != s.woken[t].origin
    ensures CanReachMixed(s, 2)
  {
    var s1 := Next(s, Arrive(u, v));
    assert t in s1.woken && Enabled(s, Arrive(u, v)) && Enabled(s1, Resume(t));
    var s2 := Next(s1, Resume(t));
    assert t in s2.inside && u in s2.inside;
    assert CanReachMixed(s2, 0);
    assert CanReachMixed(s1, 1);
  }

  /** From one direction at a time, an exit loses it if and only if it overtakes; and
      then two more events can put two directions in the intersection.  `u` is any
      vehicle that is elsewhere. */
  lemma OvertakingIsTheFault(s: State, t: Tid, u: Tid)
    requires Inv(s) && OneWay(s) && t in s.inside && !Present(s, u)
    ensures Overtakes(s, Exit(t)) <==> !OneWay(Next(s, Exit(t)))
    ensures Overtakes(s, Exit(t)) ==> CanReachMixed(Next(s, Exit(t)), 2)
  {
    var s' := Next(s, Exit(t));
    if !Overtakes(s, Exit(t)) {
      NextKeepsOneWay(s, Exit(t));
    } else {
      var v :| v in s.woken;
      assert v !in s.sleeping && v in s'.woken && s'.woken[v] == s.woken[v];
      if s.core.waiting == [] {
        var o: Direction := if s.woken[v].origin == North then East else North;
        StrangerThenResume(s', v, u, Vehicle(o, South));
      } else {
        PopNamed(s.core.waiting, s.sleeping);
        var w :| w in From(s.sleeping, s.core.waiting[0]);
        assert w in s'.woken && s'.woken[w] == s.sleeping[w];
        TwoResume(s', v, w);
      }
    }
  }

  lemma Extended(r: seq<State>, es: seq<Event>, e: Event, s: State) returns (r': seq<State>, es': seq<Event>)
    requires Run(r, es) && Enabled(r[|es|], e) && Next(r[|es|], e) == s
    ensures Run(r', es') && |es'| == |es| + 1 && r'[|es'|] == s
  {
    r', es' := r + [s], es + [e];
    forall i | 0 <= i < |es'| ensures Goes(r', es', i) { if i < |es| { assert Goes(r, es, i); } }
  }

  const NS := Vehicle(North, South)
  const EW := Vehicle(East, West)

  lemma BothWoken() returns (r: seq<State>, es: seq<Event>)
    ensures Run(r, es) && |es| == 4 && r[4] == State(Core([], 1, 0), map[], map[1 := EW, 2 := EW], map[])
  {
    r, es := [State(Core([], -1, 0), map[], map[], map[])], [];
    r, es := Extended(r, es, Arrive(0, NS), State(Core([], 0, 1), map[], map[], map[0 := NS]));
    r, es := Extended(r, es, Arrive(1, EW), State(Core([1], 0, 1), map[1 := EW], map[], map[0 := NS]));
    r, es := Extended(r, es, Arrive(2, EW), State(Core([1], 0, 1), map[1 := EW, 2 := EW], map[], map[0 := NS]));
    r, es := Extended(r, es, Exit(0), State(Core([], 1, 0), map[], map[1 := EW, 2 := EW], map[]));
  }

  /** A run of eight events that ends in a panic: two vehicles from the east are woken
      together, the first crosses and leaves before the second has moved, and the
      intersection counts as empty for one from the north. */
  lemma ConflictHappens() returns (r: seq<State>, es: seq<Event>)
    ensures Run(r, es) && |es| == 8
    ensures 2 in r[8].inside && 3 in r[8].inside && Conflict(r[8].inside[2], r[8].inside[3])
  {
    r, es := BothWoken();
    r, es := Extended(r, es, Resume(1), State(Core([], 1, 1), map[], map[2 := EW], map[1 := EW]));
    r, es := Extended(r, es, Exit(1), State(Core([], -1, 0), map[], map[2 := EW], map[]));
    r, es := Extended(r, es, Arrive(3, NS), State(Core([], 0, 1), map[], map[2 := EW], map[3 := NS]));
    r, es := Extended(r, es, Resume(2), State(Core([], 0, 2), map[], map[], map[3 := NS, 2 := EW]));
  }
}
