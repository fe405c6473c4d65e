/** Who gets into the intersection, and when, told from the vehicles: which directions have a
    vehicle asleep, and since when. */
module TrafficOrder {

  import opened Traffic

  /** Some vehicle from direction d is asleep. */
  ghost predicate Waits(s: State, d: int) { SomeFrom(s.sleeping, d) }

  /** Direction d has had a vehicle asleep since before direction e had one. */
  ghost predicate WaitedLonger(r: seq<State>, i: nat, d: int, e: int)
    requires i < |r|
  {
    exists k :: 0 <= k <= i && !Waits(r[k], e) && WaitsFrom(r, k, i, d)
  }

  ghost predicate WaitsFrom(r: seq<State>, k: nat, i: nat, d: int)
    requires i < |r|
  {
    forall m :: k <= m <= i ==> Waits(r[m], d)
  }

  lemma WaitsIs(s: State, d: int)
    requires Inv(s)
    ensures Waits(s, d) <==> d in s.core.waiting
  {
  }

  lemma StillLonger(r: seq<State>, i: nat, d: int, e: int)
    requires i + 1 < |r| && WaitedLonger(r, i, d, e) && Waits(r[i + 1], d)
    ensures WaitedLonger(r, i + 1, d, e)
  {
    var k :| 0 <= k <= i && !Waits(r[k], e) && WaitsFrom(r, k, i, d);
    assert WaitsFrom(r, k, i + 1, d);
  }

  lemma JustJoined(r: seq<State>, i: nat, d: int, e: int)
    requires i + 1 < |r| && Waits(r[i], d) && Waits(r[i + 1], d) && !Waits(r[i], e)
    ensures WaitedLonger(r, i + 1, d, e)
  {
    assert WaitsFrom(r, i, i + 1, d);
  }

  /** The list goes on from w to w': `drop` gone at the front, at most one more at the end. */
  ghost predicate GoesOn(w: seq<int>, w': seq<int>, drop: nat) {
    && drop <= |w| && w[drop..] <= w' && |w'| <= |w| - drop + 1
    && (|w'| == |w| - drop + 1 ==> w'[|w'| - 1] !in w)
  }

  lemma ListMoves(s: State, e: Event) returns (drop: nat)
    requires Inv(s) && Enabled(s, e)
    ensures GoesOn(s.core.waiting, Next(s, e).core.waiting, drop)
  {
    drop := if e.Exit? && s.core.count == 1 && s.core.waiting != [] then 1 else 0;
  }

  lemma RunMoves(r: seq<State>, es: seq<Event>, i: nat) returns (drop: nat)
    requires Run(r, es) && i + 1 < |r|
    ensures GoesOn(r[i].core.waiting, r[i + 1].core.waiting, drop)
  {
    RunKeepsInv(r, es, i);
    assert Goes(r, es, i);
    drop := ListMoves(r[i], es[i]);
  }

  lemma RunShows(r: seq<State>, es: seq<Event>, i: nat, d: int)
    requires Run(r, es) && i < |r|
    ensures Waits(r[i], d) <==> d in r[i].core.waiting
  {
    RunKeepsInv(r, es, i);
    WaitsIs(r[i], d);
  }

  lemma OldOrNew(w: seq<int>, w': seq<int>, drop: nat, a: nat, b: nat)
    requires GoesOn(w, w', drop) && a < b < |w'|
    ensures a + drop < |w| && w'[a] == w[a + drop]
    ensures b + drop < |w| ==> w'[b] == w[b + drop]
    ensures b + drop >= |w| ==> w'[b] !in w
  {
    assert w[drop..][a] == w[a + drop];
    if b + drop < |w| { assert w[drop..][b] == w[b + drop]; }
  }

  lemma NewInOrder(r: seq<State>, es: seq<Event>, i: nat, d: int, e: int)
    requires Run(r, es) && i + 1 < |r|
    requires d in r[i].core.waiting && e !in r[i].core.waiting && d in r[i + 1].core.waiting
    ensures WaitedLonger(r, i + 1, d, e)
  {
    RunShows(r, es, i, d);
    RunShows(r, es, i + 1, d);
    RunShows(r, es, i, e);
    JustJoined(r, i, d, e);
  }

  /** Where two entries of the list were one step earlier, the second perhaps nowhere. */
  lemma Before(r: seq<State>, es: seq<Event>, i: nat, a: nat, b: nat) returns (a': nat, b': nat)
    requires Run(r, es) && i + 1 < |r| && a < b < |r[i + 1].core.waiting|
    ensures a' < |r[i].core.waiting| && r[i].core.waiting[a'] == r[i + 1].core.waiting[a]
    ensures a' < b'
    ensures if b' < |r[i].core.waiting| then r[i].core.waiting[b'] == r[i + 1].core.waiting[b]
            else r[i + 1].core.waiting[b] !in r[i].core.waiting
  {
    var drop := RunMoves(r, es, i);
    OldOrNew(r[i].core.waiting, r[i + 1].core.waiting, drop, a, b);
    a', b' := a + drop, b + drop;
  }

  /** In every run the wait list is in the order in which the directions began to wait. */
  lemma {:induction false} ListIsInOrder(r: seq<State>, es: seq<Event>, i: nat, a: nat, b: nat)
    requires Run(r, es) && i < |r| && a < b < |r[i].core.waiting|
    ensures WaitedLonger(r, i, r[i].core.waiting[a], r[i].core.waiting[b])
  {
    if i > 0 {
      var a', b' := Before(r, es, i - 1, a, b);
      var d, e := r[i].core.waiting[a], r[i].core.waiting[b];
      if b' < |r[i - 1].core.waiting| {
        ListIsInOrder(r, es, i - 1, a', b');
        RunShows(r, es, i, d);
        StillLonger(r, i - 1, d, e);
      } else {
        NewInOrder(r, es, i - 1, d, e);
      }
    }
  }

  /** An arriving vehicle enters exactly if nobody is inside and no direction has been let
      through, or its own; otherwise it sleeps.  Nobody else is moved. */
  lemma ArrivalRule(r: seq<State>, es: seq<Event>, i: nat)
    requires Run(r, es) && i < |es| && es[i].Arrive?
    ensures var s, s', t, v := r[i], r[i + 1], es[i].t, es[i].v;
      var free := s.inside == map[] && (s.core.cur == -1 || s.core.cur == TransDir(v.origin));
      && s'.inside == (if free then s.inside[t := v] else s.inside)
      && s'.sleeping == (if free then s.sleeping else s.sleeping[t := v]) && s'.woken == s.woken
  {
    RunKeepsInv(r, es, i);
    assert Goes(r, es, i);
    if |r[i].inside| == 0 { assert r[i].inside == map[]; }
  }

  /** A vehicle that comes to an intersection where nobody is, or is expected, enters. */
  lemma NoNeedlessWait(r: seq<State>, es: seq<Event>, i: nat)
    requires Run(r, es) && i < |es| && es[i].Arrive? && r[i].inside == map[] && r[i].woken == map[]
    ensures es[i].t in r[i + 1].inside
  {
    RunKeepsInv(r, es, i);
    ArrivalRule(r, es, i);
  }

  /** A vehicle that leaves others behind wakes nobody. */
  lemma ExitAmongOthers(r: seq<State>, es: seq<Event>, i: nat)
    requires Run(r, es) && i < |es| && es[i].Exit? && r[i].inside - {es[i].t} != map[]
    ensures var s, s' := r[i], r[i + 1];
      && s'.inside == s.inside - {es[i].t} && s'.sleeping == s.sleeping && s'.woken == s.woken
      && s'.core.cur == s.core.cur
  {
    RunKeepsInv(r, es, i);
    assert Goes(r, es, i);
    SizeAfterRemove(r[i].inside, es[i].t);
  }

  /** The last one out lets through the direction that has waited longest, and wakes all
      vehicles asleep there and no others; if nobody waits, no direction is let through. */
  lemma LastExitHandsOver(r: seq<State>, es: seq<Event>, i: nat, e: int)
    requires Run(r, es) && i < |es| && es[i].Exit? && r[i].inside - {es[i].t} == map[]
    ensures var s, s' := r[i], r[i + 1];
      var d := s'.core.cur;
      && s'.inside == map[]
      && (if s.sleeping == map[] then d == -1 else Waits(s, d))
      && s'.woken == s.woken + From(s.sleeping, d) && s'.sleeping == s.sleeping - From(s.sleeping, d).Keys
      && (Waits(s, e) && e != d ==> WaitedLonger(r, i, d, e))
  {
    RunKeepsInv(r, es, i);
    assert Goes(r, es, i);
    var s := r[i];
    SizeAfterRemove(s.inside, es[i].t);
    assert |s.inside - {es[i].t}| == 0;
    if s.core.waiting == [] {
      NobodyFrom(s);
    } else {
      WaitsIs(s, s.core.waiting[0]);
      WaitsIs(s, e);
      if Waits(s, e) && e != s.core.waiting[0] {
        var b :| 0 <= b < |s.core.waiting| && s.core.waiting[b] == e;
        ListIsInOrder(r, es, i, 0, b);
      }
    }
  }

  lemma NobodyFrom(s: State)
    requires Inv(s) && s.core.waiting == []
    ensures s.sleeping == map[] && !Waits(s, -1) && From(s.sleeping, -1) == map[]
  {
  }
}
