/** The blocks handed out, with the sizes asked for them: each fits the block it got, for
    as long as it is live, and nobody else writes to it. */
module HeapSizes {

  import opened Arithmetic
  import opened HeapModel

  /** Live blocks and the sizes asked. */
  type Live = map<int, int>

  ghost predicate SizesOK(refs: seq<PageRef>, all: seq<int>, live: Live) {
    forall p, a :: p in all && 0 <= p < |refs| && a in live && OnPage(refs[p], a) ==>
      0 <= live[a] <= Size(BlockType(refs[p]))
  }

  /** Memory inside the live blocks is as it was. */
  ghost predicate Untouched(mem: map<int, int>, mem': map<int, int>, live: Live) {
    forall a, x :: a in live && a <= x < a + live[a] ==> Word(mem', x) == Word(mem, x)
  }

  /** The live block at a, and the descriptor of its page. */
  lemma OwnerOf(refs: seq<PageRef>, mem: map<int, int>, all: seq<int>, free: seq<seq<int>>, live: Live, a: int)
    returns (p: int)
    requires PagesOK(refs, mem, all, free, live.Keys) && SizesOK(refs, all, live) && a in live
    ensures p in all && 0 <= p < |refs| && OnPage(refs[p], a) && 0 <= live[a] <= Size(BlockType(refs[p]))
  {
    assert a in live.Keys && Somewhere(refs, all, a);
    p :| p in all && 0 <= p < |refs| && OnPage(refs[p], a);
  }

  lemma OnOnePage(refs: seq<PageRef>, mem: map<int, int>, all: seq<int>, free: seq<seq<int>>, live: set<int>,
                  p: int, q: int, a: int)
    requires PagesOK(refs, mem, all, free, live) && p in all && q in all && OnPage(refs[p], a) && OnPage(refs[q], a)
    ensures p == q
  {
    if p != q {
      OtherPage(refs[p], refs[q], a);
      assert false;
    }
  }

  // ------------------------------------------------------------------------ the sizes

  /** Descriptors may go, but keep the type of their blocks; so do live blocks and sizes. */
  lemma SizesKept(refs: seq<PageRef>, refs': seq<PageRef>, all: seq<int>, all': seq<int>, live: Live, live': Live)
    requires SizesOK(refs, all, live) && |refs'| == |refs|
    requires forall p :: p in all' && 0 <= p < |refs| ==> p in all && refs'[p].pab == refs[p].pab
    requires forall a :: a in live' ==> a in live && live'[a] == live[a]
    ensures SizesOK(refs', all', live')
  {
    forall p, a | p in all' && 0 <= p < |refs| && a in live' && OnPage(refs'[p], a)
      ensures 0 <= live'[a] <= Size(BlockType(refs'[p]))
    {
      assert OnPage(refs[p], a);
    }
  }

  lemma SizeAdded(refs: seq<PageRef>, mem: map<int, int>, all: seq<int>, free: seq<seq<int>>, live: Live, p: int,
      a: int, sz: int)
    requires PagesOK(refs, mem, all, free, live.Keys + {a}) && SizesOK(refs, all, live)
    requires p in all && OnPage(refs[p], a) && 0 <= sz <= Size(BlockType(refs[p]))
    ensures SizesOK(refs, all, live[a := sz])
  {
    forall q | q in all && 0 <= q < |refs| && OnPage(refs[q], a) ensures q == p {
      OnOnePage(refs, mem, all, free, live.Keys + {a}, p, q, a);
    }
  }

  lemma SizesWithNewPage(refs: seq<PageRef>, mem: map<int, int>, all: seq<int>, free: seq<seq<int>>, live: Live, p: int,
      r: PageRef)
    requires PagesOK(refs, mem, all, free, live.Keys) && SizesOK(refs, all, live)
    requires 0 <= p < NREFS && p !in all && RefOK(r) && FreshPage(refs, all, PageAddr(r))
    ensures SizesOK(refs[p := r], [p] + all, live)
  {
    forall a | a in live && OnPage(r, a) ensures false {
      NothingLiveOn(refs, mem, all, free, live.Keys, r, a);
    }
  }

  // ----------------------------------------------------------------------- the memory

  lemma NewPageUntouched(refs: seq<PageRef>, mem: map<int, int>, mem': map<int, int>, all: seq<int>,
      free: seq<seq<int>>, live: Live, page: int)
    requires PagesOK(refs, mem, all, free, live.Keys) && SizesOK(refs, all, live)
    requires page % PAGE == 0 && FreshPage(refs, all, page) && OnlyPage(mem, mem', page)
    ensures Untouched(mem, mem', live)
  {
    forall a, x | a in live && a <= x < a + live[a] ensures Word(mem', x) == Word(mem, x) {
      var p := OwnerOf(refs, mem, all, free, live, a);
      PageAligned(refs[p]);
      BlockFits(PageAddr(refs[p]), BlockType(refs[p]), a);
      PagesApart(PageAddr(refs[p]), page);
    }
  }

  lemma OthersUntouched(refs: seq<PageRef>, mem: map<int, int>, mem': map<int, int>, all: seq<int>, free: seq<seq<int>>,
                        live: Live, p: int, a: int, next: int)
    requires PagesOK(refs, mem, all, free, live.Keys) && SizesOK(refs, all, live) && a in live
    requires p in all && OnPage(refs[p], a) && Wrote(mem, mem', a, Size(BlockType(refs[p])), next)
    ensures Untouched(mem, mem', live - {a})
  {
    forall b, x | b in live - {a} && b <= x < b + live[b] ensures Word(mem', x) == Word(mem, x) {
      var q := OwnerOf(refs, mem, all, free, live, b);
      BlocksApart(refs[p], refs[q], a, b);
    }
  }

  // ---------------------------------------------------------- what the owners may rely on

  /** No two live blocks overlap in what was asked for. */
  lemma AskedApart(refs: seq<PageRef>, mem: map<int, int>, all: seq<int>, free: seq<seq<int>>, live: Live, a: int,
      b: int)
    requires PagesOK(refs, mem, all, free, live.Keys) && SizesOK(refs, all, live)
    requires a in live && b in live && a != b
    ensures a % 8 == 0 && (a + live[a] <= b || b + live[b] <= a)
  {
    var p := OwnerOf(refs, mem, all, free, live, a);
    var q := OwnerOf(refs, mem, all, free, live, b);
    BlocksApart(refs[p], refs[q], a, b);
  }

  lemma MultipleOf(page: int, d: int, s: int, n: int)
    requires s > 0 && n > 0 && n * s == PAGE && page >= 0 && page % PAGE == 0 && d >= 0 && d % s == 0
    ensures (page + d) % s == 0
  {
    var p, q := page / PAGE, d / s;
    assert page == p * PAGE && d == q * s && p >= 0 && q >= 0;
    assert p * (n * s) == p * n * s;
    assert (p * n + q) * s == p * n * s + q * s;
    MulMono(0, p, n);
    QuotientIs(page + d, s, p * n + q);
  }

  /** A block starts at a multiple of its size. */
  lemma SizeAligned(r: PageRef, a: int)
    requires OnPage(r, a)
    ensures a % Size(BlockType(r)) == 0
  {
    PageAligned(r);
    MultipleOf(PageAddr(r), a - PageAddr(r), Size(BlockType(r)), PerPage(BlockType(r)));
  }

  /** A word inside a live block is on no free list. */
  lemma StoreKeepsPage(r: PageRef, mem: map<int, int>, list: seq<int>, live: set<int>, s: PageRef, a: int, x: int,
      w: int)
    requires PageOK(r, mem, list, live) && OnPage(s, a) && a in live && a <= x < a + Size(BlockType(s))
    requires PageAddr(r) != PageAddr(s) || r == s
    ensures PageOK(r, mem[x := w], list, live)
  {
    forall i | 0 <= i < |list| ensures Word(mem[x := w], list[i]) == Word(mem, list[i]) {
      assert list[i] in list;
      BlocksApart(r, s, list[i], a);
    }
  }

  lemma StoreKeepsPages(refs: seq<PageRef>, mem: map<int, int>, all: seq<int>, free: seq<seq<int>>, live: Live, a: int,
      x: int, w: int)
    requires PagesOK(refs, mem, all, free, live.Keys) && SizesOK(refs, all, live) && a in live && a <= x < a + live[a]
    ensures PagesOK(refs, mem[x := w], all, free, live.Keys)
  {
    var p := OwnerOf(refs, mem, all, free, live, a);
    forall q | q in all ensures PageOK(refs[q], mem[x := w], free[q], live.Keys) {
      StoreKeepsPage(refs[q], mem, free[q], live.Keys, refs[p], a, x, w);
    }
  }
}
