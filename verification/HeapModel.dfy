/** What the subpage allocator's data structures have to be like whenever its lock is
    free, and how that survives taking a block, returning one, adding and removing a page. */
module HeapModel {

  import opened Arithmetic
  import opened Linking

  const PAGE := 4096
  const NSIZES := 8
  const NREFS := 256
  const INVALID := 0xffff

  /** struct pageref; list links are indices into the table, -1 for the end. */
  datatype PageRef = PageRef(nextSame: int, nextAll: int, pab: int, off: int, nfree: int)

  function Size(b: int): (r: int)
    requires 0 <= b < NSIZES
    ensures 16 <= r <= 2048 && r % 8 == 0 && PAGE % r == 0
  {
    if b == 0 then 16 else if b == 1 then 32 else if b == 2 then 64 else if b == 3 then 128
    else if b == 4 then 256 else if b == 5 then 512 else if b == 6 then 1024 else 2048
  }

  /** The number of blocks on a page. */
  function PerPage(b: int): (n: nat)
    requires 0 <= b < NSIZES
    ensures n * Size(b) == PAGE && 2 <= n <= 256
  {
    PAGE / Size(b)
  }

  function PageAddr(r: PageRef): int { r.pab - r.pab % PAGE }

  function BlockType(r: PageRef): int { r.pab % PAGE }

  function Next(r: PageRef, same: bool): int { if same then r.nextSame else r.nextAll }

  function Word(mem: map<int, int>, a: int): int { if a in mem then mem[a] else 0 }

  function Following(list: seq<int>, i: int, end: int): int
    requires 0 <= i < |list|
  {
    if i + 1 < |list| then list[i + 1] else end
  }

  ghost predicate Chain(refs: seq<PageRef>, same: bool, head: int, list: seq<int>) {
    && NoDup(list) && (forall i :: 0 <= i < |list| ==> 0 <= list[i] < |refs|)
    && head == (if list == [] then -1 else list[0])
    && forall i :: 0 <= i < |list| ==> Next(refs[list[i]], same) == Following(list, i, -1)
  }

  /** The free list of a page, threaded through the first words of its blocks. */
  ghost predicate FreeChain(mem: map<int, int>, page: int, off: int, list: seq<int>) {
    && off == (if list == [] then INVALID else list[0] - page)
    && forall i :: 0 <= i < |list| ==> Word(mem, list[i]) == Following(list, i, 0)
  }

  /** a is where one of the blocks of a page starts. */
  predicate Block(page: int, size: int, a: int)
    requires size > 0
  {
    page <= a < page + PAGE && (a - page) % size == 0
  }

  predicate RefOK(r: PageRef) { PageAddr(r) > 0 && BlockType(r) < NSIZES }

  /** Each block of the page is either live or on the free list, once; nfree is its length. */
  ghost predicate PageOK(r: PageRef, mem: map<int, int>, list: seq<int>, live: set<int>) {
    && RefOK(r) && NoDup(list) && r.nfree == |list| && FreeChain(mem, PageAddr(r), r.off, list)
    && forall a :: a in list <==> Block(PageAddr(r), Size(BlockType(r)), a) && a !in live
  }

  predicate OnPage(r: PageRef, a: int) { RefOK(r) && Block(PageAddr(r), Size(BlockType(r)), a) }

  ghost predicate Somewhere(refs: seq<PageRef>, all: seq<int>, a: int) {
    exists p :: p in all && 0 <= p < |refs| && OnPage(refs[p], a)
  }

  /** The list of all descriptors and the lists by size hold the same ones. */
  ghost predicate ListsOK(refs: seq<PageRef>, bases: seq<int>, allbase: int, all: seq<int>, same: seq<seq<int>>) {
    && |refs| == NREFS && |bases| == |same| == NSIZES
    && Chain(refs, false, allbase, all)
    && (forall b :: 0 <= b < NSIZES ==> Chain(refs, true, bases[b], same[b]))
    && (forall b, p :: 0 <= b < NSIZES && 0 <= p < NREFS ==> (p in same[b] <==> p in all && BlockType(refs[p]) == b))
  }

  ghost predicate PagesOK(refs: seq<PageRef>, mem: map<int, int>, all: seq<int>, free: seq<seq<int>>, live: set<int>) {
    && |refs| == |free| == NREFS && (forall p :: p in all ==> 0 <= p < NREFS)
    && (forall p :: p in all ==> PageOK(refs[p], mem, free[p], live))
    && (forall p, q :: p in all && q in all && p != q ==> PageAddr(refs[p]) != PageAddr(refs[q]))
    && (forall a :: a in live ==> Somewhere(refs, all, a))
  }

  // ------------------------------------------------------------------------ blocks

  /** Blocks of different pages, and different blocks of a page, do not overlap. */
  lemma BlocksApart(r: PageRef, s: PageRef, a: int, b: int)
    requires OnPage(r, a) && OnPage(s, b) && a != b
    requires PageAddr(r) != PageAddr(s) || r == s
    ensures a + Size(BlockType(r)) <= b || b + Size(BlockType(s)) <= a
    ensures a % 8 == 0
  {
    PageAligned(r);
    PageAligned(s);
    BlockFits(PageAddr(r), BlockType(r), a);
    BlockFits(PageAddr(s), BlockType(s), b);
    if r != s { PagesApart(PageAddr(r), PageAddr(s)); }
    if r == s { SamePageApart(PageAddr(r), BlockType(r), a, b); }
  }

  lemma MultipleFits(d: int, size: int, n: int)
    requires size > 0 && 0 <= d < n * size && d % size == 0
    ensures d + size <= n * size
  {
    QuotientBelow(n, d, size);
    QuotientTimes(d, size);
    MulMono(d / size + 1, n, size);
    assert (d / size + 1) * size == (d / size) * size + size;
  }

  lemma MultiplesApart(d: int, e: int, size: int)
    requires size > 0 && 0 <= d < e && d % size == 0 && e % size == 0
    ensures d + size <= e
  {
    QuotientTimes(d, size);
    QuotientTimes(e, size);
    var j, k := d / size, e / size;
    assert d == j * size && e == k * size;
    if j >= k { MulMono(k, j, size); assert false; }
    MulMono(j + 1, k, size);
    assert (j + 1) * size == j * size + size;
  }

  lemma TimesEight(x: int)
    ensures (8 * x) % 8 == 0
  {
  }

  lemma MultipleOf8(d: int, size: int)
    requires size > 0 && size % 8 == 0 && d >= 0 && d % size == 0
    ensures d % 8 == 0
  {
    QuotientTimes(d, size);
    var q, c := d / size, size / 8;
    assert d == q * size && size == 8 * c;
    assert q * (8 * c) == 8 * (q * c);
    TimesEight(q * c);
  }

  lemma SumOf8(page: int, d: int)
    requires page % PAGE == 0 && d % 8 == 0
    ensures (page + d) % 8 == 0
  {
    var p, q := page / PAGE, d / 8;
    assert page == 8 * (512 * p) && d == 8 * q;
    TimesEight(512 * p + q);
  }

  lemma PageAligned(r: PageRef)
    ensures PageAddr(r) % PAGE == 0
  {
  }

  lemma BlockFits(page: int, b: int, a: int)
    requires 0 <= b < NSIZES && Block(page, Size(b), a) && page % PAGE == 0
    ensures a + Size(b) <= page + PAGE && a % 8 == 0
  {
    MultipleFits(a - page, Size(b), PerPage(b));
    BlockAligned(page, b, a);
  }

  lemma BlockAligned(page: int, b: int, a: int)
    requires 0 <= b < NSIZES && Block(page, Size(b), a) && page % PAGE == 0
    ensures a % 8 == 0
  {
    MultipleOf8(a - page, Size(b));
    SumOf8(page, a - page);
    assert page + (a - page) == a;
  }

  lemma SamePageApart(page: int, b: int, a: int, c: int)
    requires 0 <= b < NSIZES && Block(page, Size(b), a) && Block(page, Size(b), c) && a != c
    ensures a + Size(b) <= c || c + Size(b) <= a
  {
    if a < c { MultiplesApart(a - page, c - page, Size(b)); } else { MultiplesApart(c - page, a - page, Size(b)); }
  }

  lemma PagesApart(p: int, q: int)
    requires p % PAGE == 0 && q % PAGE == 0 && p != q
    ensures p + PAGE <= q || q + PAGE <= p
  {
  }

  lemma OtherPage(r: PageRef, s: PageRef, a: int)
    requires RefOK(r) && RefOK(s) && PageAddr(r) != PageAddr(s) && PageAddr(s) <= a < PageAddr(s) + PAGE
    ensures !(PageAddr(r) <= a < PageAddr(r) + PAGE)
  {
  }

  // ------------------------------------------------------- taking and returning a block

  function Popped(r: PageRef, list: seq<int>): PageRef
    requires list != []
  {
    r.(nfree := r.nfree - 1, off := if |list| > 1 then list[1] - PageAddr(r) else INVALID)
  }

  function Pushed(r: PageRef, a: int): PageRef { r.(nfree := r.nfree + 1, off := a - PageAddr(r)) }

  lemma PopPage(r: PageRef, mem: map<int, int>, list: seq<int>, live: set<int>)
    requires PageOK(r, mem, list, live) && list != []
    ensures PageOK(Popped(r, list), mem, list[1..], live + {list[0]})
    ensures OnPage(r, list[0]) && list[0] !in live
  {
    var l := list[1..];
    assert list[0] in list;
    forall a ensures a in l <==> Block(PageAddr(r), Size(BlockType(r)), a) && a !in live + {list[0]} {
      assert list == [list[0]] + l;
      assert a in list <==> a == list[0] || a in l;
    }
    assert list[0] !in l;
    forall i | 0 <= i < |l| ensures Word(mem, l[i]) == Following(l, i, 0) {
      assert l[i] == list[i + 1] && Following(l, i, 0) == Following(list, i + 1, 0);
    }
  }

  /** Memory changed only inside a block, and the first word of that block is `next`. */
  ghost predicate Wrote(mem: map<int, int>, mem': map<int, int>, a: int, size: int, next: int) {
    Word(mem', a) == next && forall x :: x < a || x >= a + size ==> Word(mem', x) == Word(mem, x)
  }

  lemma PushPage(r: PageRef, mem: map<int, int>, mem': map<int, int>, list: seq<int>, live: set<int>, a: int)
    requires PageOK(r, mem, list, live) && OnPage(r, a) && a in live
    requires Wrote(mem, mem', a, Size(BlockType(r)), if list == [] then 0 else list[0])
    ensures PageOK(Pushed(r, a), mem', [a] + list, live - {a})
  {
    var l := [a] + list;
    forall i | 0 <= i < |list| ensures Word(mem', list[i]) == Word(mem, list[i]) {
      assert list[i] in list;
      SamePageApart(PageAddr(r), BlockType(r), a, list[i]);
    }
    forall i | 0 <= i < |l| ensures Word(mem', l[i]) == Following(l, i, 0) {
      if i > 0 { assert l[i] == list[i - 1] && Following(l, i, 0) == Following(list, i - 1, 0); }
    }
  }

  /** Nothing that happens inside another page matters to a page. */
  lemma PageAlone(r: PageRef, s: PageRef, mem: map<int, int>, mem': map<int, int>, list: seq<int>,
                  live: set<int>, live': set<int>, a: int)
    requires PageOK(r, mem, list, live) && OnPage(s, a) && PageAddr(r) != PageAddr(s)
    requires mem' == mem || Wrote(mem, mem', a, Size(BlockType(s)), Word(mem', a))
    requires live' == live + {a} || live' == live - {a}
    ensures PageOK(r, mem', list, live')
  {
    PageAligned(r);
    PageAligned(s);
    BlockFits(PageAddr(s), BlockType(s), a);
    PagesApart(PageAddr(r), PageAddr(s));
    forall i | 0 <= i < |list| ensures Word(mem', list[i]) == Word(mem, list[i]) { assert list[i] in list; }
  }

  /** One page changes: its descriptor, its free list, and one block of it. */
  lemma OnePageKeepsPages(refs: seq<PageRef>, mem: map<int, int>, mem': map<int, int>, all: seq<int>,
      free: seq<seq<int>>, live: set<int>, live': set<int>, p: int, r: PageRef, list: seq<int>, a: int)
    requires PagesOK(refs, mem, all, free, live) && p in all && r.pab == refs[p].pab && OnPage(refs[p], a)
    requires PageOK(r, mem', list, live')
    requires mem' == mem || Wrote(mem, mem', a, Size(BlockType(r)), Word(mem', a))
    requires live' == live + {a} || live' == live - {a}
    ensures PagesOK(refs[p := r], mem', all, free[p := list], live')
  {
    var refs', free' := refs[p := r], free[p := list];
    forall q | q in all ensures PageOK(refs'[q], mem', free'[q], live') {
      if q != p { PageAlone(refs[q], refs[p], mem, mem', free[q], live, live', a); }
    }
    forall x | x in live' ensures Somewhere(refs', all, x) {
      if x == a {
        assert OnPage(refs'[p], x);
      } else {
        var q :| q in all && 0 <= q < |refs| && OnPage(refs[q], x);
        assert OnPage(refs'[q], x);
      }
    }
  }

  lemma TakeKeepsPages(refs: seq<PageRef>, mem: map<int, int>, all: seq<int>, free: seq<seq<int>>, live: set<int>,
      p: int)
    requires PagesOK(refs, mem, all, free, live) && p in all && free[p] != []
    ensures PagesOK(refs[p := Popped(refs[p], free[p])], mem, all, free[p := free[p][1..]], live + {free[p][0]})
    ensures OnPage(refs[p], free[p][0]) && free[p][0] !in live
  {
    PopPage(refs[p], mem, free[p], live);
    OnePageKeepsPages(refs, mem, mem, all, free, live, live + {free[p][0]}, p, Popped(refs[p], free[p]), free[p][1..],
                      free[p][0]);
  }

  lemma ReturnKeepsPages(refs: seq<PageRef>, mem: map<int, int>, mem': map<int, int>, all: seq<int>,
      free: seq<seq<int>>, live: set<int>, p: int, a: int)
    requires PagesOK(refs, mem, all, free, live) && p in all && OnPage(refs[p], a) && a in live
    requires Wrote(mem, mem', a, Size(BlockType(refs[p])), if free[p] == [] then 0 else free[p][0])
    ensures PagesOK(refs[p := Pushed(refs[p], a)], mem', all, free[p := [a] + free[p]], live - {a})
  {
    PushPage(refs[p], mem, mem', free[p], live, a);
    OnePageKeepsPages(refs, mem, mem', all, free, live, live - {a}, p, Pushed(refs[p], a), [a] + free[p], a);
  }

  // --------------------------------------------------------------- a page with no live block

  function BlockSet(page: int, size: int, n: nat): set<int> {
    if n == 0 then {} else BlockSet(page, size, n - 1) + {page + (n - 1) * size}
  }

  lemma {:induction false} BlockSetHas(page: int, size: int, n: nat, k: nat)
    requires k < n
    ensures page + k * size in BlockSet(page, size, n)
  {
    if k < n - 1 { BlockSetHas(page, size, n - 1, k); }
  }

  lemma {:induction false} BlockSetOnly(page: int, size: int, n: nat, a: int)
    requires size > 0 && a in BlockSet(page, size, n)
    ensures 0 <= a - page < n * size && (a - page) % size == 0
  {
    MulMono(n - 1, n, size);
    if a in BlockSet(page, size, n - 1) {
      BlockSetOnly(page, size, n - 1, a);
    } else {
      MulMono(0, n - 1, size);
      QuotientIs((n - 1) * size, size, n - 1);
      assert n * size == (n - 1) * size + size;
    }
  }

  lemma {:induction false} BlockCount(page: int, size: int, n: nat)
    requires size > 0
    ensures |BlockSet(page, size, n)| == n
  {
    if n > 0 {
      BlockCount(page, size, n - 1);
      var last := page + (n - 1) * size;
      if last in BlockSet(page, size, n - 1) { BlockSetOnly(page, size, n - 1, last); assert false; }
    }
  }

  function Elements(l: seq<int>): set<int> { set x | x in l }

  lemma {:induction false} ElementCount(l: seq<int>)
    requires NoDup(l)
    ensures |Elements(l)| == |l|
  {
    if l != [] {
      var n := |l| - 1;
      ElementCount(l[..n]);
      assert l == l[..n] + [l[n]];
      assert Elements(l) == Elements(l[..n]) + {l[n]};
      assert l[n] !in l[..n];
    }
  }

  /** The starts of the blocks, counted. */
  lemma BlocksAre(page: int, b: int, a: int)
    requires 0 <= b < NSIZES
    ensures Block(page, Size(b), a) <==> a in BlockSet(page, Size(b), PerPage(b))
  {
    var size, n := Size(b), PerPage(b);
    if Block(page, size, a) {
      var d := a - page;
      QuotientTimes(d, size);
      QuotientBelow(n, d, size);
      BlockSetHas(page, size, n, d / size);
      assert a == page + (d / size) * size;
    }
    if a in BlockSet(page, size, n) { BlockSetOnly(page, size, n, a); }
  }

  /** nfree never exceeds the number of blocks, and equals it exactly when none is live. */
  lemma FullyFree(r: PageRef, mem: map<int, int>, list: seq<int>, live: set<int>)
    requires PageOK(r, mem, list, live)
    ensures r.nfree <= PerPage(BlockType(r))
    ensures r.nfree == PerPage(BlockType(r)) <==> forall a :: OnPage(r, a) ==> a !in live
  {
    var page, b := PageAddr(r), BlockType(r);
    var n := PerPage(b);
    var blocks := BlockSet(page, Size(b), n);
    BlockCount(page, Size(b), n);
    ElementCount(list);
    forall a ensures Block(page, Size(b), a) <==> a in blocks { BlocksAre(page, b, a); }
    forall a | a in Elements(list) ensures a in blocks { assert a in list; }
    Subsets(Elements(list), blocks);
    if forall a :: OnPage(r, a) ==> a !in live {
      forall a | a in blocks ensures a in Elements(list) { assert OnPage(r, a); }
    }
    if Elements(list) == blocks {
      forall a | OnPage(r, a) ensures a !in live { assert a in blocks; }
    }
  }

  lemma Subsets(a: set<int>, b: set<int>)
    requires a <= b
    ensures |a| <= |b| && (|a| == |b| <==> a == b)
  {
    assert b == a + (b - a);
    assert |b| == |a| + |b - a|;
  }

  // ---------------------------------------------------------------- adding a page

  /** The free list of a new page: the last block first. */
  function Descending(page: int, size: int, n: nat): seq<int> {
    if n == 0 then [] else [page + (n - 1) * size] + Descending(page, size, n - 1)
  }

  lemma {:induction false} DescendingAt(page: int, size: int, n: nat, i: nat)
    requires i < n
    ensures |Descending(page, size, n)| == n && Descending(page, size, n)[i] == page + (n - 1 - i) * size
  {
    if n > 1 { DescendingAt(page, size, n - 1, if i > 0 then i - 1 else 0); }
  }

  lemma {:induction false} DescendingElements(page: int, size: int, n: nat, a: int)
    ensures a in Descending(page, size, n) <==> a in BlockSet(page, size, n)
  {
    if n > 0 { DescendingElements(page, size, n - 1, a); }
  }

  lemma DescendingNoDup(page: int, size: int, n: nat)
    requires size > 0
    ensures NoDup(Descending(page, size, n)) && |Descending(page, size, n)| == n
  {
    if n > 0 { DescendingAt(page, size, n, 0); }
    forall i, j | 0 <= i < j < n ensures Descending(page, size, n)[i] != Descending(page, size, n)[j] {
      DescendingAt(page, size, n, i);
      DescendingAt(page, size, n, j);
      MulMono(n - 1 - j + 1, n - 1 - i, size);
    }
  }

  function Start(page: int, size: int, k: int): int { page + k * size }

  function Before(page: int, size: int, k: int): int { if k == 0 then 0 else Start(page, size, k - 1) }

  /** Every block threaded to the one before it, the first to nothing. */
  ghost predicate Threaded(mem: map<int, int>, page: int, size: int, n: nat) {
    forall k :: 0 <= k < n ==> Word(mem, Start(page, size, k)) == Before(page, size, k)
  }

  lemma NewPageOK(r: PageRef, mem: map<int, int>, live: set<int>)
    requires RefOK(r) && forall a :: OnPage(r, a) ==> a !in live
    requires var size, n := Size(BlockType(r)), PerPage(BlockType(r));
      r.nfree == n && r.off == (n - 1) * size && Threaded(mem, PageAddr(r), size, n)
    ensures PageOK(r, mem, Descending(PageAddr(r), Size(BlockType(r)), PerPage(BlockType(r))), live)
  {
    var page, size := PageAddr(r), Size(BlockType(r));
    var n := PerPage(BlockType(r));
    var list := Descending(page, size, n);
    DescendingNoDup(page, size, n);
    forall a ensures a in list <==> Block(page, size, a) && a !in live {
      DescendingElements(page, size, n, a);
      BlocksAre(page, BlockType(r), a);
      assert Block(page, size, a) ==> OnPage(r, a);
    }
    DescendingAt(page, size, n, 0);
    forall i | 0 <= i < n ensures Word(mem, list[i]) == Following(list, i, 0) { ThreadedList(mem, page, size, n, i); }
  }

  lemma ThreadedList(mem: map<int, int>, page: int, size: int, n: nat, i: nat)
    requires Threaded(mem, page, size, n) && i < n
    ensures var list := Descending(page, size, n); |list| == n && Word(mem, list[i]) == Following(list, i, 0)
  {
    DescendingAt(page, size, n, i);
    if i + 1 < n { DescendingAt(page, size, n, i + 1); }
    var k := n - 1 - i;
    assert Word(mem, Start(page, size, k)) == Before(page, size, k);
  }

  /** The page is nobody else's: none of the heap's. */
  ghost predicate FreshPage(refs: seq<PageRef>, all: seq<int>, page: int) {
    forall q :: q in all && 0 <= q < |refs| ==> PageAddr(refs[q]) != page
  }

  ghost predicate OnlyPage(mem: map<int, int>, mem': map<int, int>, page: int) {
    forall x :: x < page || x >= page + PAGE ==> Word(mem', x) == Word(mem, x)
  }

  lemma NothingLiveOn(refs: seq<PageRef>, mem: map<int, int>, all: seq<int>, free: seq<seq<int>>, live: set<int>,
      r: PageRef, a: int)
    requires PagesOK(refs, mem, all, free, live) && RefOK(r) && FreshPage(refs, all, PageAddr(r)) && OnPage(r, a)
    ensures a !in live
  {
    if a in live {
      assert Somewhere(refs, all, a);
      var q :| q in all && 0 <= q < |refs| && OnPage(refs[q], a);
      OtherPage(r, refs[q], a);
      assert false;
    }
  }

  lemma AddKeepsPages(refs: seq<PageRef>, mem: map<int, int>, mem': map<int, int>, all: seq<int>, free: seq<seq<int>>,
                      live: set<int>, p: int, r: PageRef, list: seq<int>)
    requires PagesOK(refs, mem, all, free, live) && 0 <= p < NREFS && p !in all && FreshPage(refs, all, PageAddr(r))
    requires PageOK(r, mem', list, live) && OnlyPage(mem, mem', PageAddr(r))
    ensures PagesOK(refs[p := r], mem', [p] + all, free[p := list], live)
  {
    var refs', all', free' := refs[p := r], [p] + all, free[p := list];
    forall q | q in all' ensures PageOK(refs'[q], mem', free'[q], live) {
      if q != p { PageElsewhere(refs[q], r, mem, mem', free[q], live); }
    }
    forall a | a in live ensures Somewhere(refs', all', a) {
      var q :| q in all && 0 <= q < |refs| && OnPage(refs[q], a);
      assert q in all' && OnPage(refs'[q], a);
    }
  }

  lemma PageElsewhere(r: PageRef, s: PageRef, mem: map<int, int>, mem': map<int, int>, list: seq<int>, live: set<int>)
    requires PageOK(r, mem, list, live) && RefOK(s) && PageAddr(r) != PageAddr(s) && OnlyPage(mem, mem', PageAddr(s))
    ensures PageOK(r, mem', list, live)
  {
    PageAligned(r);
    PageAligned(s);
    PagesApart(PageAddr(r), PageAddr(s));
    forall i | 0 <= i < |list| ensures Word(mem', list[i]) == Word(mem, list[i]) { assert list[i] in list; }
  }

  /** Only the links of descriptors change. */
  ghost predicate SamePages(refs: seq<PageRef>, refs': seq<PageRef>) {
    |refs'| == |refs| && forall q :: 0 <= q < |refs| ==>
      refs'[q] == refs[q].(nextSame := refs'[q].nextSame, nextAll := refs'[q].nextAll)
  }

  lemma DropKeepsPages(refs: seq<PageRef>, refs': seq<PageRef>, mem: map<int, int>, all: seq<int>, all': seq<int>,
                       free: seq<seq<int>>, live: set<int>, p: int)
    requires PagesOK(refs, mem, all, free, live) && p in all && SamePages(refs, refs')
    requires forall q :: q in all' <==> q in all && q != p
    requires forall a :: OnPage(refs[p], a) ==> a !in live
    ensures PagesOK(refs', mem, all', free, live)
  {
    forall q | q in all' ensures PageOK(refs'[q], mem, free[q], live) { assert PageOK(refs[q], mem, free[q], live); }
    forall a | a in live ensures Somewhere(refs', all', a) {
      var q :| q in all && 0 <= q < |refs| && OnPage(refs[q], a);
      assert q in all' && OnPage(refs'[q], a);
    }
  }

  // -------------------------------------------------------------------- the two lists

  function SetNext(r: PageRef, same: bool, n: int): PageRef { if same then r.(nextSame := n) else r.(nextAll := n) }

  lemma CutElements(l: seq<int>, k: nat, x: int)
    requires k < |l| && NoDup(l)
    ensures x in Cut(l, k) <==> x in l && x != l[k]
    ensures NoDup(Cut(l, k))
  {
    if x in l && x != l[k] {
      var i :| 0 <= i < |l| && l[i] == x;
      assert Cut(l, k)[if i < k then i else i - 1] == x;
    }
  }

  lemma ChainKept(refs: seq<PageRef>, refs': seq<PageRef>, same: bool, head: int, list: seq<int>)
    requires Chain(refs, same, head, list) && |refs'| == |refs|
    requires forall p :: p in list ==> Next(refs'[p], same) == Next(refs[p], same)
    ensures Chain(refs', same, head, list)
  {
    forall i | 0 <= i < |list| ensures Next(refs'[list[i]], same) == Following(list, i, -1) { assert list[i] in list; }
  }

  lemma ChainCons(refs: seq<PageRef>, same: bool, head: int, list: seq<int>, p: int)
    requires Chain(refs, same, head, list) && 0 <= p < |refs| && p !in list && Next(refs[p], same) == head
    ensures Chain(refs, same, p, [p] + list)
  {
    var l := [p] + list;
    forall i | 0 <= i < |l| ensures Next(refs[l[i]], same) == Following(l, i, -1) {
      if i > 0 { assert l[i] == list[i - 1] && Following(l, i, -1) == Following(list, i - 1, -1); }
    }
  }

  lemma ChainCut(refs: seq<PageRef>, refs': seq<PageRef>, same: bool, head: int, list: seq<int>, k: nat)
    requires Chain(refs, same, head, list) && k < |list|
    requires refs' == if k == 0 then refs
                      else refs[list[k - 1] := SetNext(refs[list[k - 1]], same, Next(refs[list[k]], same))]
    ensures Chain(refs', same, if k == 0 then Next(refs[list[0]], same) else head, Cut(list, k))
  {
    var l := Cut(list, k);
    CutElements(list, k, 0);
    forall i | 0 <= i < |l| ensures Next(refs'[l[i]], same) == Following(l, i, -1) {
      if i < k - 1 {
        assert l[i] == list[i] && Following(l, i, -1) == Following(list, i, -1);
      } else if i == k - 1 {
        assert l[i] == list[i] && Following(l, i, -1) == Following(list, k, -1);
      } else {
        assert l[i] == list[i + 1] && Following(l, i, -1) == Following(list, i + 1, -1);
      }
    }
  }

  lemma LinkKeepsLists(refs: seq<PageRef>, bases: seq<int>, allbase: int, all: seq<int>, same: seq<seq<int>>, p: int,
      r: PageRef)
    requires ListsOK(refs, bases, allbase, all, same) && 0 <= p < NREFS && p !in all
    requires var b := BlockType(r); b < NSIZES && r.nextSame == bases[b] && r.nextAll == allbase
    ensures var b := BlockType(r);
      ListsOK(refs[p := r], bases[b := p], p, [p] + all, same[b := [p] + same[b]])
  {
    var refs', b := refs[p := r], BlockType(r);
    var bases', all', same' := bases[b := p], [p] + all, same[b := [p] + same[b]];
    ChainKept(refs, refs', false, allbase, all);
    ChainCons(refs', false, allbase, all, p);
    forall c | 0 <= c < NSIZES ensures Chain(refs', true, bases'[c], same'[c]) {
      assert p !in same[c];
      ChainKept(refs, refs', true, bases[c], same[c]);
      if c == b { ChainCons(refs', true, bases[b], same[b], p); }
    }
    forall c, q | 0 <= c < NSIZES && 0 <= q < NREFS ensures q in same'[c] <==> q in all' && BlockType(refs'[q]) == c {
      assert q in same[c] <==> q in all && BlockType(refs[q]) == c;
    }
  }

  lemma UnlinkChain(refs: seq<PageRef>, refs1: seq<PageRef>, refs2: seq<PageRef>, bases: seq<int>, base: int,
                    all: seq<int>, same: seq<seq<int>>, b: int, i: nat, c: int)
    requires |refs| == |refs1| == |refs2| == NREFS && |bases| == |same| == NSIZES && 0 <= b < NSIZES && i < |same[b]|
    requires 0 <= c < NSIZES
    requires Chain(refs, true, bases[c], same[c]) && Chain(refs1, true, base, Cut(same[b], i))
    requires c != b ==> forall q :: q in same[c] ==> 0 <= q < NREFS && refs2[q].nextSame == refs[q].nextSame
    requires forall q :: 0 <= q < NREFS ==> refs2[q].nextSame == refs1[q].nextSame
    ensures Chain(refs2, true, bases[b := base][c], same[b := Cut(same[b], i)][c])
  {
    if c == b {
      ChainKept(refs1, refs2, true, base, Cut(same[b], i));
    } else {
      ChainKept(refs, refs2, true, bases[c], same[c]);
    }
  }

  lemma NotOnOther(refs: seq<PageRef>, bases: seq<int>, allbase: int, all: seq<int>, same: seq<seq<int>>, b: int,
      c: int, q: int)
    requires ListsOK(refs, bases, allbase, all, same) && 0 <= b < NSIZES && 0 <= c < NSIZES && b != c && q in same[c]
    ensures 0 <= q < NREFS && q !in same[b]
  {
    var i :| 0 <= i < |same[c]| && same[c][i] == q;
    assert Chain(refs, true, bases[c], same[c]);
    assert BlockType(refs[q]) == c;
  }

  lemma UnlinkChains(refs: seq<PageRef>, refs1: seq<PageRef>, refs2: seq<PageRef>, bases: seq<int>, base: int,
                     allbase: int, all: seq<int>, same: seq<seq<int>>, b: int, i: nat, c: int)
    requires ListsOK(refs, bases, allbase, all, same) && 0 <= b < NSIZES && i < |same[b]| && 0 <= c < NSIZES
    requires |refs1| == |refs2| == NREFS && Chain(refs1, true, base, Cut(same[b], i))
    requires forall q :: 0 <= q < NREFS && q !in same[b] ==> refs1[q].nextSame == refs[q].nextSame
    requires forall q :: 0 <= q < NREFS ==> refs2[q].nextSame == refs1[q].nextSame
    ensures Chain(refs2, true, bases[b := base][c], same[b := Cut(same[b], i)][c])
  {
    assert Chain(refs, true, bases[c], same[c]);
    forall q | c != b && q in same[c] ensures 0 <= q < NREFS && refs2[q].nextSame == refs[q].nextSame {
      NotOnOther(refs, bases, allbase, all, same, b, c, q);
    }
    UnlinkChain(refs, refs1, refs2, bases, base, all, same, b, i, c);
  }

  lemma UnlinkKeepsLists(refs: seq<PageRef>, refs1: seq<PageRef>, refs2: seq<PageRef>, bases: seq<int>, base: int,
                         allbase: int, allbase': int, all: seq<int>, same: seq<seq<int>>, b: int, i: nat, k: nat)
    requires ListsOK(refs, bases, allbase, all, same) && 0 <= b < NSIZES && i < |same[b]| && k < |all|
    requires same[b][i] == all[k]
    requires SamePages(refs, refs1) && SamePages(refs1, refs2)
    requires Chain(refs1, true, base, Cut(same[b], i)) && Chain(refs2, false, allbase', Cut(all, k))
    requires forall q :: 0 <= q < NREFS && q !in same[b] ==> refs1[q].nextSame == refs[q].nextSame
    requires forall q :: 0 <= q < NREFS ==>
               refs1[q].nextAll == refs[q].nextAll && refs2[q].nextSame == refs1[q].nextSame
    ensures ListsOK(refs2, bases[b := base], allbase', Cut(all, k), same[b := Cut(same[b], i)])
  {
    var bases', same' := bases[b := base], same[b := Cut(same[b], i)];
    forall c | 0 <= c < NSIZES ensures Chain(refs2, true, bases'[c], same'[c]) {
      UnlinkChains(refs, refs1, refs2, bases, base, allbase, all, same, b, i, c);
    }
    SameTypes(refs, refs1, refs2);
    UnlinkMembers(refs, refs2, all, same, b, i, k);
  }

  lemma SameTypes(refs: seq<PageRef>, refs1: seq<PageRef>, refs2: seq<PageRef>)
    requires |refs| == NREFS && SamePages(refs, refs1) && SamePages(refs1, refs2)
    ensures forall q :: 0 <= q < NREFS ==> BlockType(refs2[q]) == BlockType(refs[q])
  {
  }

  lemma UnlinkMembers(refs: seq<PageRef>, refs': seq<PageRef>, all: seq<int>, same: seq<seq<int>>, b: int, i: nat,
      k: nat)
    requires |refs| == |refs'| == NREFS && |same| == NSIZES && 0 <= b < NSIZES && i < |same[b]| && k < |all|
    requires NoDup(all) && NoDup(same[b]) && same[b][i] == all[k] && 0 <= all[k] < NREFS
    requires forall c, q :: 0 <= c < NSIZES && 0 <= q < NREFS ==>
               (q in same[c] <==> q in all && BlockType(refs[q]) == c)
    requires forall q :: 0 <= q < NREFS ==> BlockType(refs'[q]) == BlockType(refs[q])
    ensures var same' := same[b := Cut(same[b], i)];
      forall c, q :: 0 <= c < NSIZES && 0 <= q < NREFS ==>
        (q in same'[c] <==> q in Cut(all, k) && BlockType(refs'[q]) == c)
  {
    var same' := same[b := Cut(same[b], i)];
    forall c, q | 0 <= c < NSIZES && 0 <= q < NREFS
      ensures q in same'[c] <==> q in Cut(all, k) && BlockType(refs'[q]) == c
    {
      CutElements(all, k, q);
      CutElements(same[b], i, q);
      assert q in same[c] <==> q in all && BlockType(refs[q]) == c;
      assert all[k] in same[b];
    }
  }
}
