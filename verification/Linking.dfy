/** Elements linked on several lists: the operations on lists and what they keep. */
module Linking {

  function Items<I(==), T>(m: map<I, seq<T>>, id: I): seq<T> { if id in m then m[id] else [] }

  ghost predicate NoDup<T(!new)>(l: seq<T>) { forall i, j :: 0 <= i < j < |l| ==> l[i] != l[j] }

  /** A list without its k-th element. */
  function Cut<T>(l: seq<T>, k: nat): seq<T>
    requires k < |l|
  {
    l[..k] + l[k + 1..]
  }

  /** Every element is on at most one list, at most once. */
  ghost predicate Unique<I(!new), T(!new)>(m: map<I, seq<T>>) {
    && (forall id :: id in m ==> NoDup(m[id]))
    && (forall a, b, t :: a in m && b in m && t in m[a] && t in m[b] ==> a == b)
  }

  ghost predicate Linked<I(!new), T(!new)>(m: map<I, seq<T>>, t: T) { exists id :: id in m && t in m[id] }

  /** Removing an element from a list. */
  ghost predicate Without<T(!new)>(l: seq<T>, l': seq<T>, t: T) {
    && NoDup(l') && t in l && t !in l'
    && (forall x :: x in l' ==> x in l) && (forall x :: x in l && x != t ==> x in l')
    && |l'| == |l| - 1
  }

  lemma DropFirst<T(!new)>(l: seq<T>)
    requires NoDup(l) && l != []
    ensures Without(l, l[1..], l[0])
  {
    forall x | x in l && x != l[0] ensures x in l[1..] {
      var i :| 0 <= i < |l| && l[i] == x;
      assert l[1..][i - 1] == x;
    }
  }

  lemma DropLast<T(!new)>(l: seq<T>)
    requires NoDup(l) && l != []
    ensures Without(l, l[..|l| - 1], l[|l| - 1])
  {
    forall x | x in l && x != l[|l| - 1] ensures x in l[..|l| - 1] {
      var i :| 0 <= i < |l| && l[i] == x;
      assert l[..|l| - 1][i] == x;
    }
  }

  lemma Remove<I(!new), T(!new)>(m: map<I, seq<T>>, a: I, l: seq<T>, t: T)
    requires Unique(m) && a in m && Without(m[a], l, t)
    ensures Unique(m[a := l]) && !Linked(m[a := l], t)
    ensures forall x :: x != t ==> (Linked(m[a := l], x) <==> Linked(m, x))
  {
    var m' := m[a := l];
    forall x | x != t ensures Linked(m', x) <==> Linked(m, x) {
      if Linked(m, x) {
        var id :| id in m && x in m[id];
        assert id in m' && x in m'[id];
      }
      if Linked(m', x) {
        var id :| id in m' && x in m'[id];
        assert id in m && x in m[id];
      }
    }
  }

  /** Adding an element that is on no list. */
  ghost predicate With<T(!new)>(l: seq<T>, l': seq<T>, t: T) { l' == l + [t] || l' == [t] + l }

  lemma WithHas<T(!new)>(l: seq<T>, l': seq<T>, t: T, x: T)
    requires With(l, l', t)
    ensures x in l' <==> x in l || x == t
  {
  }

  lemma Add<I(!new), T(!new)>(m: map<I, seq<T>>, a: I, l: seq<T>, t: T)
    requires Unique(m) && !Linked(m, t) && With(Items(m, a), l, t)
    ensures Unique(m[a := l]) && Linked(m[a := l], t)
    ensures forall x :: x != t ==> (Linked(m[a := l], x) <==> Linked(m, x))
  {
    var m' := m[a := l];
    assert t !in Items(m, a);
    assert NoDup(l);
    forall x ensures x in l <==> x in Items(m, a) || x == t { WithHas(Items(m, a), l, t, x); }
    assert a in m' && t in m'[a];
    forall id | id in m ensures t !in m[id] { assert !(id in m && t in m[id]); }
    forall x | x != t ensures Linked(m', x) <==> Linked(m, x) {
      if Linked(m, x) {
        var id :| id in m && x in m[id];
        assert id in m' && x in m'[id];
      }
      if Linked(m', x) {
        var id :| id in m' && x in m'[id];
        assert id in m && x in m[id];
      }
    }
  }
}
