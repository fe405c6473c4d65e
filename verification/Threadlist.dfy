/** The doubly linked thread lists with a bookend node at each end, refined to
    sequences of threads.  A thread is its list node. */
module Threadlist {

  class Node {
    var next: Node?
    var prev: Node?

    constructor ()
      ensures next == prev == null
    {
      next, prev := null, null;
    }
  }

  /** The nodes of a list in order, both bookends included. */
  ghost predicate Chain(c: seq<Node>)
    reads c
  {
    && |c| >= 2 && c[0].prev == null && c[|c| - 1].next == null
    && (forall i, j :: 0 <= i < j < |c| ==> c[i] != c[j])
    && (forall i :: 0 <= i < |c| - 1 ==> c[i].next == c[i + 1])
    && (forall i :: 1 <= i < |c| ==> c[i].prev == c[i - 1])
  }

  method InsertAfterNode(onlist: Node, addee: Node, ghost c: seq<Node>, ghost k: nat)
    requires Chain(c) && k + 1 < |c| && c[k] == onlist
    requires addee !in c && addee.next == addee.prev == null
    modifies onlist, addee, c[k + 1]
    ensures Chain(c[..k + 1] + [addee] + c[k + 1..])
  {
    addee.prev := onlist;
    addee.next := onlist.next;
    addee.prev.next := addee;
    addee.next.prev := addee;
  }

  method InsertBeforeNode(addee: Node, onlist: Node, ghost c: seq<Node>, ghost k: nat)
    requires Chain(c) && 1 <= k < |c| && c[k] == onlist
    requires addee !in c && addee.next == addee.prev == null
    modifies onlist, addee, c[k - 1]
    ensures Chain(c[..k] + [addee] + c[k..])
  {
    addee.prev := onlist.prev;
    addee.next := onlist;
    addee.prev.next := addee;
    addee.next.prev := addee;
  }

  method RemoveNode(tln: Node, ghost c: seq<Node>, ghost k: nat)
    requires Chain(c) && 1 <= k < |c| - 1 && c[k] == tln
    modifies tln, c[k - 1], c[k + 1]
    ensures Chain(c[..k] + c[k + 1..]) && tln.next == tln.prev == null
  {
    tln.prev.next := tln.next;
    tln.next.prev := tln.prev;
    tln.prev := null;
    tln.next := null;
  }

  /** The nodes after an insertion and after a removal. */
  lemma Inserted(c: seq<Node>, head: Node, threads: seq<Node>, tail: Node, i: nat, x: Node)
    requires c == [head] + threads + [tail] && i <= |threads|
    ensures [head] + (threads[..i] + [x] + threads[i..]) + [tail] == c[..i + 1] + [x] + c[i + 1..]
  {
  }

  lemma Removed(c: seq<Node>, head: Node, threads: seq<Node>, tail: Node, i: nat)
    requires c == [head] + threads + [tail] && i < |threads|
    ensures [head] + (threads[..i] + threads[i + 1..]) + [tail] == c[..i + 1] + c[i + 2..]
  {
  }

  class List {
    const head: Node
    const tail: Node
    var count: int
    ghost var threads: seq<Node>

    ghost function Nodes(): seq<Node>
      reads this
    {
      [head] + threads + [tail]
    }

    ghost predicate Valid()
      reads this, Nodes()
    {
      Chain(Nodes()) && count == |threads|
    }

    constructor ()
      ensures Valid() && threads == [] && fresh(head) && fresh(tail)
    {
      var h := new Node();
      var t := new Node();
      h.next := t;
      t.prev := h;
      head, tail, count, threads := h, t, 0, [];
    }

    method IsEmpty() returns (r: bool)
      requires Valid()
      ensures r == (threads == [])
    {
      r := count == 0;
    }

    method AddHead(t: Node)
      requires Valid() && t !in Nodes() && t.next == t.prev == null
      modifies this, Nodes(), t
      ensures Valid() && threads == [t] + old(threads)
    {
      ghost var c := Nodes();
      InsertAfterNode(head, t, c, 0);
      count := count + 1;
      Inserted(c, head, threads, tail, 0, t);
      assert threads[..0] + [t] + threads[0..] == [t] + threads;
      threads := [t] + threads;
    }

    method AddTail(t: Node)
      requires Valid() && t !in Nodes() && t.next == t.prev == null
      modifies this, Nodes(), t
      ensures Valid() && threads == old(threads) + [t]
    {
      ghost var c := Nodes();
      InsertBeforeNode(t, tail, c, |c| - 1);
      count := count + 1;
      Inserted(c, head, threads, tail, |threads|, t);
      assert threads[..|threads|] + [t] + threads[|threads|..] == threads + [t];
      threads := threads + [t];
    }

    /** The first thread, unlinked; null if there is none. */
    method RemHead() returns (t: Node?)
      requires Valid()
      modifies this, Nodes()
      ensures Valid() && (t == null <==> old(threads) == [])
      ensures t == null ==> threads == []
      ensures t != null ==> old(threads) == [t] + threads && t.next == t.prev == null && t !in Nodes()
    {
      ghost var c := Nodes();
      var tln := head.next;
      assert tln == c[1] && (|c| > 2 ==> tln.next == c[2]);
      if tln.next == null {
        return null;
      }
      assert |c| > 2 && tln == threads[0];
      RemoveNode(tln, c, 1);
      count := count - 1;
      threads := threads[1..];
      assert Nodes() == c[..1] + c[2..];
      t := tln;
    }

    /** The last thread, unlinked; null if there is none. */
    method RemTail() returns (t: Node?)
      requires Valid()
      modifies this, Nodes()
      ensures Valid() && (t == null <==> old(threads) == [])
      ensures t == null ==> threads == []
      ensures t != null ==> old(threads) == threads + [t] && t.next == t.prev == null && t !in Nodes()
    {
      ghost var c := Nodes();
      ghost var n := |c|;
      var tln := tail.prev;
      assert tln == c[n - 2] && (n > 2 ==> tln.prev == c[n - 3]);
      if tln.prev == null {
        return null;
      }
      assert n > 2 && tln == threads[n - 3];
      RemoveNode(tln, c, n - 2);
      count := count - 1;
      Removed(c, head, threads, tail, n - 3);
      assert threads[..n - 3] + threads[n - 2..] == threads[..n - 3];
      threads := threads[..n - 3];
      t := tln;
    }

    method InsertAfter(onlist: Node, addee: Node, ghost i: nat)
      requires Valid() && i < |threads| && threads[i] == onlist
      requires addee !in Nodes() && addee.next == addee.prev == null
      modifies this, Nodes(), addee
      ensures Valid() && threads == old(threads[..i + 1] + [addee] + threads[i + 1..])
    {
      ghost var c := Nodes();
      assert c[i + 1] == onlist && c[i + 2] in c;
      InsertAfterNode(onlist, addee, c, i + 1);
      count := count + 1;
      Inserted(c, head, threads, tail, i + 1, addee);
      threads := threads[..i + 1] + [addee] + threads[i + 1..];
    }

    method InsertBefore(addee: Node, onlist: Node, ghost i: nat)
      requires Valid() && i < |threads| && threads[i] == onlist
      requires addee !in Nodes() && addee.next == addee.prev == null
      modifies this, Nodes(), addee
      ensures Valid() && threads == old(threads[..i] + [addee] + threads[i..])
    {
      ghost var c := Nodes();
      assert c[i + 1] == onlist && c[i] in c;
      InsertBeforeNode(addee, onlist, c, i + 1);
      count := count + 1;
      Inserted(c, head, threads, tail, i, addee);
      threads := threads[..i] + [addee] + threads[i..];
    }

    method Remove(t: Node, ghost i: nat)
      requires Valid() && i < |threads| && threads[i] == t
      modifies this, Nodes()
      ensures Valid() && threads == old(threads[..i] + threads[i + 1..])
      ensures t.next == t.prev == null && t !in Nodes()
    {
      ghost var c := Nodes();
      assert c[i + 1] == t && c[i] in c && c[i + 2] in c;
      RemoveNode(t, c, i + 1);
      count := count - 1;
      Removed(c, head, threads, tail, i);
      threads := threads[..i] + threads[i + 1..];
    }
  }
}
