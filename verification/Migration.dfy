/** thread_consider_migration when no run queue changes under it: what it does to the
    queues, as lists of threads.  Under interference, which is what the code meets, the
    steps of these loops are events of module Scheduler, and the same is proved of them in
    module SchedulerRunnable. */
module Migration {

  import opened Arithmetic
  import opened Linking

  type Tid = nat

  // --------------------------------------------------------- sums over the run queues

  function Total(q: seq<seq<Tid>>): nat {
    if q == [] then 0 else |q[0]| + Total(q[1..])
  }

  /** All the threads on the queues. */
  function Threads(q: seq<seq<Tid>>): multiset<Tid> {
    if q == [] then multiset{} else multiset(q[0]) + Threads(q[1..])
  }

  /** The room below a share on the queues from i on, leaving out `me`. */
  function Room(q: seq<seq<Tid>>, me: int, share: int, i: nat): nat
    requires i <= |q|
    decreases |q| - i
  {
    if i == |q| then 0
    else (if i != me && |q[i]| < share then share - |q[i]| else 0) + Room(q, me, share, i + 1)
  }

  lemma {:induction false} TotalAppend(q: seq<seq<Tid>>, l: seq<Tid>)
    ensures Total(q + [l]) == Total(q) + |l|
  {
    if q != [] {
      assert (q + [l])[1..] == q[1..] + [l];
      TotalAppend(q[1..], l);
    } else {
      assert [l][1..] == [];
    }
  }

  lemma {:induction false} ThreadsUpdate(q: seq<seq<Tid>>, i: nat, l: seq<Tid>)
    requires i < |q|
    ensures Threads(q[i := l]) + multiset(q[i]) == Threads(q) + multiset(l)
  {
    if i == 0 {
      assert q[0 := l][1..] == q[1..];
    } else {
      assert q[i := l][1..] == q[1..][i - 1 := l];
      ThreadsUpdate(q[1..], i - 1, l);
      var first, rest, rest' := multiset(q[0]), Threads(q[1..]), Threads(q[i := l][1..]);
      assert (first + rest') + multiset(q[i]) == first + (rest' + multiset(q[i])) == first + (rest + multiset(l));
    }
  }

  /** Each queue from i on falls short of a share by at most its room; `me` by what it lacks. */
  lemma {:induction false} RoomIsEnough(q: seq<seq<Tid>>, me: nat, share: int, i: nat)
    requires i <= |q| && me < |q|
    ensures Room(q, me, share, i) + Total(q[i..]) >= (|q| - i) * share + (if i <= me then |q[me]| - share else 0)
    decreases |q| - i
  {
    if i == |q| {
      assert q[i..] == [];
    } else {
      RoomIsEnough(q, me, share, i + 1);
      assert q[i..][1..] == q[i + 1..] && q[i..][0] == q[i];
      assert (|q| - i) * share == (|q| - (i + 1)) * share + share;
    }
  }

  lemma {:induction false} RoomBeyond(q: seq<seq<Tid>>, me: nat, share: int, i: nat, k: nat, l: seq<Tid>)
    requires k < i <= |q|
    ensures Room(q[k := l], me, share, i) == Room(q, me, share, i)
    decreases |q| - i
  {
    if i < |q| { RoomBeyond(q, me, share, i + 1, k, l); }
  }

  lemma SharesCoverAll(total: nat, n: nat)
    requires n > 0
    ensures n * DivRoundUp(total, n) >= total
    ensures total > 0 ==> n * (DivRoundUp(total, n) - 1) < total
  {
  }

  // --------------------------------------------------------------------- the loops

  method CountAll(q: array<seq<Tid>>, me: nat) returns (mine: nat, total: nat)
    requires me < q.Length
    ensures mine == |q[me]| && total == Total(q[..])
  {
    mine, total := 0, 0;
    for i := 0 to q.Length
      invariant total == Total(q[..i]) && (i > me ==> mine == |q[me]|)
    {
      total := total + |q[i]|;
      TotalAppend(q[..i], q[i]);
      assert q[..i + 1] == q[..i] + [q[i]];
      if i == me { mine := |q[i]|; }
    }
    assert q[..q.Length] == q[..];
  }

  /** The victims are the last `send` of the queue, in order. */
  method TakeVictims(q: seq<Tid>, send: nat) returns (q': seq<Tid>, victims: seq<Tid>)
    requires send <= |q|
    ensures q' == q[..|q| - send] && victims == q[|q| - send..]
  {
    q', victims := q, [];
    for i := 0 to send
      invariant q' == q[..|q| - i] && victims == q[|q| - i..]
    {
      var t := q'[|q'| - 1];
      q' := q'[..|q'| - 1];
      victims := [t] + victims;
    }
  }

  /** The victims in hand, with `send` to go: all of them, or all but the current thread,
      which has been passed over and is last. */
  ghost predicate InHand(victims: seq<Tid>, send: nat, cur: Tid, passed: bool) {
    && NoDup(victims) && |victims| == send + (if passed then 1 else 0)
    && (passed ==> victims[send] == cur)
  }

  lemma DropVictim(victims: seq<Tid>, send: nat, cur: Tid, passed: bool)
    requires InHand(victims, send, cur, passed) && send > 0
    ensures victims[0] != cur ==> InHand(victims[1..], send - 1, cur, passed)
    ensures victims[0] == cur ==> !passed && InHand(victims[1..] + [cur], send - 1, cur, true)
    ensures victims[0] != cur ==> (cur in victims[1..] <==> cur in victims)
    ensures multiset(victims) == multiset{victims[0]} + multiset(victims[1..])
  {
    assert victims == [victims[0]] + victims[1..];
  }

  /** The inner loop, for one other processor. */
  method GiveTo(q: seq<Tid>, victims: seq<Tid>, send: nat, share: nat, cur: Tid, ghost passed: bool)
    returns (q': seq<Tid>, victims': seq<Tid>, send': nat, ghost passed': bool)
    requires InHand(victims, send, cur, passed)
    ensures InHand(victims', send', cur, passed') && send' <= send && (cur in victims' <==> cur in victims)
    ensures q <= q' && (q' == q || |q'| <= share)
    ensures multiset(q') + multiset(victims') == multiset(q) + multiset(victims)
    ensures send' == 0 || send' + (if |q| < share then share - |q| else 0) <= send
  {
    q', victims', send', passed' := q, victims, send, passed;
    while |q'| < share && send' > 0
      invariant InHand(victims', send', cur, passed') && send' <= send && (cur in victims' <==> cur in victims)
      invariant q <= q' && (q' == q || |q'| <= share) && |q'| - |q| + send' <= send
      invariant multiset(q') + multiset(victims') == multiset(q) + multiset(victims)
      decreases send'
    {
      var t := victims'[0];
      DropVictim(victims', send', cur, passed');
      victims' := victims'[1..];
      send' := send' - 1;
      if t == cur {
        victims' := victims' + [t];
        passed' := true;
        continue;
      }
      q' := q' + [t];
    }
  }

  /** The other queues afterwards: each grows at its end, up to a share at most. */
  ghost predicate Grown(q: seq<seq<Tid>>, q': seq<seq<Tid>>, me: nat, share: int) {
    && |q'| == |q|
    && forall k :: 0 <= k < |q| && k != me ==> q[k] <= q'[k] && (q'[k] == q[k] || |q'[k]| <= share)
  }

  lemma SetQueue(q0: seq<seq<Tid>>, q: seq<seq<Tid>>, me: nat, share: int, i: nat, l: seq<Tid>)
    requires Grown(q0, q, me, share) && i < |q| && i != me && q[i] == q0[i] <= l && (l == q0[i] || |l| <= share)
    ensures Grown(q0, q[i := l], me, share)
  {
  }

  /** How far the outer loop is: from `i` on the queues are as they were. */
  ghost predicate Giving(q0: seq<seq<Tid>>, q: seq<seq<Tid>>, me: nat, share: nat, i: nat, v0: seq<Tid>, v: seq<Tid>,
                         send: nat, cur: Tid, passed: bool)
  {
    && i <= |q| && me < |q| && InHand(v, send, cur, passed) && Grown(q0, q, me, share) && q[me] == q0[me]
    && q[i..] == q0[i..] && send <= Room(q, me, share, i) && (cur in v <==> cur in v0)
    && Threads(q) + multiset(v) == Threads(q0) + multiset(v0)
  }

  lemma GivingStep(q0: seq<seq<Tid>>, q: seq<seq<Tid>>, me: nat, share: nat, i: nat, v0: seq<Tid>, v: seq<Tid>,
                   send: nat, cur: Tid, passed: bool, l: seq<Tid>, v': seq<Tid>, send': nat, passed': bool)
    requires Giving(q0, q, me, share, i, v0, v, send, cur, passed) && i < |q| && i != me
    requires InHand(v', send', cur, passed') && (cur in v' <==> cur in v) && q[i] <= l && (l == q[i] || |l| <= share)
    requires multiset(l) + multiset(v') == multiset(q[i]) + multiset(v)
    requires send' == 0 || send' + (if |q[i]| < share then share - |q[i]| else 0) <= send
    ensures Giving(q0, q[i := l], me, share, i + 1, v0, v', send', cur, passed')
  {
    assert q[i] == q[i..][0] == q0[i];
    GiveOne(q, q[i := l], me, share, i, l, v, v');
    SetQueue(q0, q, me, share, i, l);
    assert q[i := l][i + 1..] == q[i..][1..] == q0[i + 1..];
  }

  lemma SkipMe(q0: seq<seq<Tid>>, q: seq<seq<Tid>>, me: nat, share: nat, v0: seq<Tid>, v: seq<Tid>,
               send: nat, cur: Tid, passed: bool)
    requires Giving(q0, q, me, share, me, v0, v, send, cur, passed) && me < |q|
    ensures Giving(q0, q, me, share, me + 1, v0, v, send, cur, passed)
  {
    assert q[me + 1..] == q[me..][1..] == q0[me + 1..];
  }

  /** The outer loop: with room for all of them, every victim is sent but the current thread. */
  method GiveAll(q: array<seq<Tid>>, me: nat, victims: seq<Tid>, send: nat, share: nat, cur: Tid)
    returns (victims': seq<Tid>)
    requires me < q.Length && InHand(victims, send, cur, false) && send <= Room(q[..], me, share, 0)
    modifies q
    ensures victims' == (if cur in victims then [cur] else [])
    ensures q[me] == old(q[me]) && Grown(old(q[..]), q[..], me, share)
    ensures Threads(q[..]) + multiset(victims') == Threads(old(q[..])) + multiset(victims)
  {
    ghost var q0 := q[..];
    var send': nat := send;
    victims' := victims;
    ghost var passed := false;
    var i := 0;
    while i < q.Length && send' > 0
      invariant 0 <= i <= q.Length && Giving(q0, q[..], me, share, i, victims, victims', send', cur, passed)
    {
      if i != me {
        ghost var was, v, n, p := q[..], victims', send', passed;
        var l;
        l, victims', send', passed := GiveTo(q[i], victims', send', share, cur, passed);
        q[i] := l;
        assert q[..] == was[i := l];
        GivingStep(q0, was, me, share, i, victims, v, n, cur, p, l, victims', send', passed);
      } else {
        SkipMe(q0, q[..], me, share, victims, victims', send', cur, passed);
      }
      i := i + 1;
    }
  }

  lemma Cancel(t': multiset<Tid>, t: multiset<Tid>, q: multiset<Tid>, l: multiset<Tid>, v: multiset<Tid>,
      v': multiset<Tid>)
    requires t' + q == t + l && l + v' == q + v
    ensures t' + v' == t + v
  {
    forall x: Tid ensures (t' + v')[x] == (t + v)[x] {
      assert (t' + q)[x] == (t + l)[x] && (l + v')[x] == (q + v)[x];
    }
  }

  lemma GiveOne(q: seq<seq<Tid>>, q': seq<seq<Tid>>, me: nat, share: nat, i: nat, l: seq<Tid>, v: seq<Tid>,
      v': seq<Tid>)
    requires i < |q| && i != me && q' == q[i := l] && multiset(l) + multiset(v') == multiset(q[i]) + multiset(v)
    ensures Threads(q') + multiset(v') == Threads(q) + multiset(v)
    ensures Room(q', me, share, i + 1) == Room(q, me, share, i) - (if |q[i]| < share then share - |q[i]| else 0)
  {
    ThreadsUpdate(q, i, l);
    Cancel(Threads(q'), Threads(q), multiset(q[i]), multiset(l), multiset(v), multiset(v'));
    RoomBeyond(q, me, share, i + 1, i, l);
  }

  /** With the queues left alone by the others: a processor with less than a share does
      nothing; one with a share or more keeps exactly its first `share` threads, and its
      current thread after them if that was among the rest; every other thread is on some
      queue as before, and no queue is filled beyond a share. */
  method ConsiderMigration(q: array<seq<Tid>>, me: nat, cur: Tid)
    requires me < q.Length && NoDup(q[me])
    modifies q
    ensures var share, mine := DivRoundUp(Total(old(q[..])), q.Length), old(q[me]);
      && (|mine| < share ==> q[..] == old(q[..]))
      && (|mine| >= share ==>
            && q[me] == mine[..share] + (if cur in mine[share..] then [cur] else [])
            && Grown(old(q[..]), q[..], me, share))
    ensures Threads(q[..]) == Threads(old(q[..]))
  {
    var mine, total := CountAll(q, me);
    var share := DivRoundUp(total, q.Length);
    if mine < share { return; }
    RoomForVictims(q[..], me, share);
    Redistribute(q, me, cur, mine - share, share);
  }

  method Redistribute(q: array<seq<Tid>>, me: nat, cur: Tid, send: nat, share: nat)
    requires me < q.Length && NoDup(q[me]) && send == |q[me]| - share && send <= Room(q[..], me, share, 0)
    modifies q
    ensures q[me] == old(q[me])[..share] + (if cur in old(q[me])[share..] then [cur] else [])
    ensures Grown(old(q[..]), q[..], me, share)
    ensures Threads(q[..]) == Threads(old(q[..]))
  {
    ghost var q0 := q[..];
    var kept, victims := TakeVictims(q[me], send);
    q[me] := kept;
    ghost var q1 := q[..];
    assert q1 == q0[me := kept];
    RoomWithoutMe(q0, me, share, 0, kept);
    var left := GiveAll(q, me, victims, send, share, cur);
    ghost var q2 := q[..];
    PutBack(q, me, left);
    Redistributed(q0, q2, q[..], me, share, kept, victims, left);
  }

  lemma Redistributed(q0: seq<seq<Tid>>, q2: seq<seq<Tid>>, q: seq<seq<Tid>>, me: nat, share: nat,
                      kept: seq<Tid>, victims: seq<Tid>, left: seq<Tid>)
    requires me < |q0| && q0[me] == kept + victims && Grown(q0[me := kept], q2, me, share) && q2[me] == kept
    requires Threads(q2) + multiset(left) == Threads(q0[me := kept]) + multiset(victims) && q == q2[me := kept + left]
    ensures Grown(q0, q, me, share) && Threads(q) == Threads(q0)
  {
    ThreadsUpdate(q0, me, kept);
    ThreadsUpdate(q2, me, kept + left);
    assert multiset(kept + left) == multiset(kept) + multiset(left) &&
           multiset(q0[me]) == multiset(kept) + multiset(victims);
    forall x: Tid ensures Threads(q)[x] == Threads(q0)[x] {
      assert (Threads(q) + multiset(kept))[x] == (Threads(q2) + multiset(kept + left))[x];
      assert (Threads(q2) + multiset(left))[x] == (Threads(q0[me := kept]) + multiset(victims))[x];
      assert (Threads(q0[me := kept]) + multiset(q0[me]))[x] == (Threads(q0) + multiset(kept))[x];
    }
    forall k | 0 <= k < |q0| && k != me ensures q0[k] <= q[k] && (q[k] == q0[k] || |q[k]| <= share) {
      assert q0[me := kept][k] == q0[k];
    }
  }

  method PutBack(q: array<seq<Tid>>, me: nat, left: seq<Tid>)
    requires me < q.Length
    modifies q
    ensures q[..] == old(q[..])[me := old(q[me]) + left]
  {
    var rest := left;
    while rest != []
      invariant q[..] == old(q[..])[me := q[me]] && q[me] + rest == old(q[me]) + left
      decreases |rest|
    {
      var t := rest[0];
      rest := rest[1..];
      q[me] := q[me] + [t];
    }
    assert q[me] == q[me] + rest;
  }

  lemma RoomForVictims(q: seq<seq<Tid>>, me: nat, share: nat)
    requires me < |q| && share == DivRoundUp(Total(q), |q|) && |q[me]| >= share
    ensures |q[me]| - share <= Room(q, me, share, 0)
  {
    RoomIsEnough(q, me, share, 0);
    SharesCoverAll(Total(q), |q|);
    assert q[0..] == q;
  }

  lemma {:induction false} RoomWithoutMe(q: seq<seq<Tid>>, me: nat, share: int, i: nat, l: seq<Tid>)
    requires me < |q| && i <= |q|
    ensures Room(q[me := l], me, share, i) == Room(q, me, share, i)
    decreases |q| - i
  {
    if i < |q| { RoomWithoutMe(q, me, share, i + 1, l); }
  }
}
