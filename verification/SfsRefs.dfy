/** How many references there are to a file, over the whole table of vnodes. */
module SfsRefs {

  import opened Linking
  import opened SfsModel
  import opened Sfs

  function Refs(vnodes: seq<Vnode>, f: nat): nat {
    if vnodes == [] then 0
    else Refs(vnodes[..|vnodes| - 1], f) + if vnodes[|vnodes| - 1].ino == f then vnodes[|vnodes| - 1].refs else 0
  }

  /** References to f are d more; those to any other file are as many as before. */
  ghost predicate RefsMoved(vnodes: seq<Vnode>, vnodes': seq<Vnode>, f: nat, d: int) {
    forall g: nat :: Refs(vnodes', g) == Refs(vnodes, g) + if g == f then d else 0
  }

  ghost predicate SameRefs(vnodes: seq<Vnode>, vnodes': seq<Vnode>) {
    forall g: nat :: Refs(vnodes', g) == Refs(vnodes, g)
  }

  lemma {:induction false} RefsOfUpdate(vnodes: seq<Vnode>, k: nat, n: Vnode, g: nat)
    requires k < |vnodes| && n.ino == vnodes[k].ino
    ensures Refs(vnodes[k := n], g) == Refs(vnodes, g) + if g == n.ino then n.refs - vnodes[k].refs else 0
  {
    var m := |vnodes| - 1;
    if k < m {
      RefsOfUpdate(vnodes[..m], k, n, g);
      assert vnodes[k := n][..m] == vnodes[..m][k := n];
    } else {
      assert vnodes[k := n][..m] == vnodes[..m];
    }
  }

  lemma {:induction false} RefsOfCut(vnodes: seq<Vnode>, k: nat, g: nat)
    requires k < |vnodes|
    ensures Refs(Cut(vnodes, k), g) == Refs(vnodes, g) - if g == vnodes[k].ino then vnodes[k].refs else 0
  {
    var m := |vnodes| - 1;
    if k < m {
      RefsOfCut(vnodes[..m], k, g);
      assert Cut(vnodes, k)[..m - 1] == Cut(vnodes[..m], k) && Cut(vnodes, k)[m - 1] == vnodes[m];
    } else {
      assert Cut(vnodes, k) == vnodes[..m];
    }
  }

  lemma {:induction false} RefsOfSame(vnodes: seq<Vnode>, vnodes': seq<Vnode>, g: nat)
    requires SameVnodes(vnodes, vnodes')
    ensures Refs(vnodes', g) == Refs(vnodes, g)
  {
    if vnodes != [] { RefsOfSame(vnodes[..|vnodes| - 1], vnodes'[..|vnodes| - 1], g); }
  }

  /** With one vnode per file, its count is the number of references to the file. */
  lemma {:induction false} RefsAt(vnodes: seq<Vnode>, k: nat)
    requires k < |vnodes| && forall i, j :: 0 <= i < j < |vnodes| ==> vnodes[i].ino != vnodes[j].ino
    ensures Refs(vnodes, vnodes[k].ino) == vnodes[k].refs
  {
    var m := |vnodes| - 1;
    if k < m {
      RefsAt(vnodes[..m], k);
    } else {
      NoRefs(vnodes[..m], vnodes[k].ino);
    }
  }

  lemma {:induction false} NoRefs(vnodes: seq<Vnode>, f: nat)
    requires forall i :: 0 <= i < |vnodes| ==> vnodes[i].ino != f
    ensures Refs(vnodes, f) == 0
  {
    if vnodes != [] { NoRefs(vnodes[..|vnodes| - 1], f); }
  }

  /** A file is loaded exactly while there are references to it. */
  lemma {:induction false} LoadedIsReferenced(vnodes: seq<Vnode>, f: nat)
    requires forall k :: 0 <= k < |vnodes| ==> vnodes[k].refs > 0
    ensures Loaded(vnodes, f) <==> Refs(vnodes, f) > 0
  {
    if vnodes != [] {
      var m := |vnodes| - 1;
      LoadedIsReferenced(vnodes[..m], f);
      if Loaded(vnodes[..m], f) {
        var j :| 0 <= j < m && vnodes[..m][j].ino == f;
        assert vnodes[j].ino == f;
      }
      if Loaded(vnodes, f) && vnodes[m].ino != f {
        var j :| 0 <= j < |vnodes| && vnodes[j].ino == f;
        assert vnodes[..m][j].ino == f;
      }
    }
  }

  // -------------------------------------------------- what each change of the table does

  lemma RefsAdded(vnodes: seq<Vnode>, n: Vnode)
    ensures RefsMoved(vnodes, vnodes + [n], n.ino, n.refs)
  {
    assert (vnodes + [n])[..|vnodes|] == vnodes;
  }

  lemma RefsSet(vnodes: seq<Vnode>, k: nat, n: Vnode)
    requires k < |vnodes| && n.ino == vnodes[k].ino
    ensures RefsMoved(vnodes, vnodes[k := n], n.ino, n.refs - vnodes[k].refs)
  {
    forall g: nat
      ensures Refs(vnodes[k := n], g) == Refs(vnodes, g) + if g == n.ino then n.refs - vnodes[k].refs else 0
    {
      RefsOfUpdate(vnodes, k, n, g);
    }
  }

  lemma RefsCut(vnodes: seq<Vnode>, vnodes': seq<Vnode>, k: nat)
    requires k < |vnodes| && SameVnodes(Cut(vnodes, k), vnodes')
    ensures RefsMoved(vnodes, vnodes', vnodes[k].ino, 0 - vnodes[k].refs)
  {
    forall g: nat ensures Refs(vnodes', g) == Refs(vnodes, g) + if g == vnodes[k].ino then 0 - vnodes[k].refs else 0 {
      RefsOfCut(vnodes, k, g);
      RefsOfSame(Cut(vnodes, k), vnodes', g);
    }
  }

  lemma RefsKept(vnodes: seq<Vnode>, vnodes': seq<Vnode>)
    requires SameVnodes(vnodes, vnodes')
    ensures SameRefs(vnodes, vnodes')
  {
    forall g: nat ensures Refs(vnodes', g) == Refs(vnodes, g) { RefsOfSame(vnodes, vnodes', g); }
  }
}
