/** The kernel heap.  Each method is a stretch of code run with the heap's spinlock held
    (or the whole of kmalloc and kfree where the lock is not needed), so that any
    interleaving of callers is a sequence of these calls; Valid() is what holds whenever
    the lock is free.  alloc_kpages is outside: the page it returned is a parameter. */
module Kmalloc {

  import opened Arithmetic
  import opened HeapModel
  import opened HeapSizes
  import opened Linking

  const WORDS := NREFS / 32
  const SIZE_T := 0x1_0000_0000        // size_t arithmetic is modulo this

  /** What comes of a free: a page for free_kpages (0 for none), an address on none of the
      heap's pages, or a panic. */
  datatype FreeResult = Freed(page: int) | NotOurs | Panic

  class Heap {
    const refs: array<PageRef>
    const inuse: array2<bool>          // pagerefs_inuse: word i, bit j
    const sizebases: array<int>
    var allbase: int
    var mem: map<int, int>             // memory, by word address
    ghost var all: seq<int>            // the list from allbase
    ghost var same: seq<seq<int>>      // the lists from sizebases
    ghost var free: seq<seq<int>>      // the free list of each page
    ghost var live: Live               // the blocks handed out and not returned, and the sizes asked

    ghost predicate Shape()
      reads this
    {
      refs.Length == NREFS && inuse.Length0 == WORDS && inuse.Length1 == 32 && sizebases.Length == NSIZES
    }

    /** The descriptors marked in use are exactly those listed. */
    ghost predicate Marked(list: seq<int>)
      requires Shape()
      reads this, inuse
    {
      forall i, j :: 0 <= i < WORDS && 0 <= j < 32 ==> (inuse[i, j] <==> i * 32 + j in list)
    }

    ghost predicate Valid()
      reads this, refs, inuse, sizebases
    {
      && Shape() && Marked(all)
      && ListsOK(refs[..], sizebases[..], allbase, all, same)
      && PagesOK(refs[..], mem, all, free, live.Keys) && SizesOK(refs[..], all, live)
    }

    constructor ()
      ensures Valid() && live == map[] && all == [] && fresh(refs) && fresh(inuse) && fresh(sizebases)
    {
      refs := new PageRef[NREFS](_ => PageRef(-1, -1, 0, 0, 0));
      inuse := new bool[WORDS, 32]((_, _) => false);
      sizebases := new int[NSIZES](_ => -1);
      allbase, mem := -1, map[];
      all, same, free, live := [], seq(NSIZES, _ => []), seq(NREFS, _ => []), map[];
    }

    // ------------------------------------------------------------- descriptors

    /** The first descriptor not in use, now marked; -1 if there is none. */
    method AllocPageRef() returns (p: int)
      requires Shape()
      modifies inuse
      ensures p == -1 ==> forall i, j :: 0 <= i < WORDS && 0 <= j < 32 ==> inuse[i, j] && old(inuse[i, j])
      ensures p != -1 ==>
        && 0 <= p < NREFS && !old(inuse[p / 32, p % 32])
        && forall i, j :: 0 <= i < WORDS && 0 <= j < 32 ==>
             inuse[i, j] == (old(inuse[i, j]) || (i == p / 32 && j == p % 32))
    {
      for i := 0 to WORDS
        invariant forall k, j :: 0 <= k < i && 0 <= j < 32 ==> inuse[k, j]
        invariant forall k, j :: 0 <= k < WORDS && 0 <= j < 32 ==> inuse[k, j] == old(inuse[k, j])
      {
        for j := 0 to 32
          invariant forall l :: 0 <= l < j ==> inuse[i, l]
          invariant forall k, l :: 0 <= k < WORDS && 0 <= l < 32 ==> inuse[k, l] == old(inuse[k, l])
        {
          if !inuse[i, j] {
            inuse[i, j] := true;
            return i * 32 + j;
          }
        }
      }
      p := -1;
    }

    method FreePageRef(p: int)
      requires Shape() && 0 <= p < NREFS
      modifies inuse
      ensures forall i, j :: 0 <= i < WORDS && 0 <= j < 32 ==>
                inuse[i, j] == (old(inuse[i, j]) && !(i == p / 32 && j == p % 32))
    {
      inuse[p / 32, p % 32] := false;
    }

    // --------------------------------------------------------------- allocation

    /** b is the smallest size class that is large enough. */
    static ghost predicate Fits(b: int, sz: int) {
      0 <= b < NSIZES && sz <= Size(b) && forall c :: 0 <= c < b ==> Size(c) < sz
    }

    /** blocktype: the smallest size that is large enough. */
    static method TypeOf(sz: int) returns (b: int)
      requires 0 <= sz <= 2048
      ensures Fits(b, sz)
    {
      b := 0;
      while sz > Size(b)
        invariant 0 <= b < NSIZES && forall c :: 0 <= c < b ==> Size(c) < sz
        decreases NSIZES - b
      {
        b := b + 1;
      }
    }

    /** A page of the right size with a free block; -1 if there is none. */
    method FindPage(b: int) returns (pr: int)
      requires Valid() && 0 <= b < NSIZES
      ensures pr != -1 ==> pr in all && 0 <= pr < NREFS && refs[pr].nfree > 0 && BlockType(refs[pr]) == b
      ensures pr == -1 ==> forall p :: p in same[b] && 0 <= p < NREFS ==> refs[p].nfree <= 0
    {
      pr := sizebases[b];
      ghost var i := 0;
      while pr != -1
        invariant 0 <= i <= |same[b]| && pr == if i < |same[b]| then same[b][i] else -1
        invariant forall k :: 0 <= k < i ==> refs[same[b][k]].nfree <= 0
        decreases |same[b]| - i
      {
        if refs[pr].nfree > 0 {
          assert pr in same[b];
          return;
        }
        assert Next(refs[..][same[b][i]], true) == Following(same[b], i, -1);
        pr := refs[pr].nextSame;
        i := i + 1;
      }
    }

    method PopFreeList(pr: int, ghost list: seq<int>) returns (ptr: int)
      requires Shape() && 0 <= pr < NREFS && list != [] && PageOK(refs[pr], mem, list, live.Keys)
      modifies refs
      ensures ptr == list[0] && refs[..] == old(refs[..])[pr := Popped(old(refs[pr]), list)]
    {
      assert Word(mem, list[0]) == Following(list, 0, 0);
      NextIsBlock(refs[pr], mem, list, live.Keys);
      var prpage := PageAddr(refs[pr]);
      ptr := prpage + refs[pr].off;
      var fl := Word(mem, ptr);
      refs[pr] := refs[pr].(nfree := refs[pr].nfree - 1);
      if fl != 0 {
        refs[pr] := refs[pr].(off := fl - prpage);
      } else {
        refs[pr] := refs[pr].(off := INVALID);
      }
    }

    /** doalloc: the first block of the page's free list, for a request of that size. */
    method TakeBlock(pr: int, ghost sz: int) returns (ptr: int)
      requires Valid() && pr in all && 0 <= pr < NREFS && refs[pr].nfree > 0 && 0 <= sz <= Size(BlockType(refs[pr]))
      modifies refs, this`free, this`live
      ensures Valid() && IsBlockOf(ptr, BlockType(old(refs[pr]))) && ptr > 0
      ensures ptr !in old(live) && live == old(live)[ptr := sz]
      ensures forall q :: 0 <= q < NREFS ==> refs[q].pab == old(refs[q].pab)
    {
      ghost var rs := refs[..];
      assert PageOK(rs[pr], mem, free[pr], live.Keys);
      Taken(rs, sizebases[..], allbase, mem, all, same, free, live.Keys, pr);
      ptr := PopFreeList(pr, free[pr]);
      free := free[pr := free[pr][1..]];
      SizesKept(rs, refs[..], all, all, live, live);
      SizeAdded(refs[..], mem, all, free, live, pr, ptr, sz);
      assert live[ptr := sz].Keys == live.Keys + {ptr};
      live := live[ptr := sz];
      assert OnPage(refs[pr], ptr);
    }

    /** The first critical section of subpage_kmalloc: 0 if no page has a block. */
    method TryAlloc(sz: int) returns (ptr: int, b: int)
      requires Valid() && 0 <= sz <= 2048
      modifies refs, this`free, this`live
      ensures Valid() && Fits(b, sz)
      ensures ptr == 0 ==> live == old(live) && refs[..] == old(refs[..])
      ensures ptr != 0 ==> ptr !in old(live) && live == old(live)[ptr := sz] && IsBlockOf(ptr, b)
    {
      b := TypeOf(sz);
      var pr := FindPage(b);
      if pr == -1 { return 0, b; }
      ptr := TakeBlock(pr, sz);
    }

    /** A block of type b starts there. */
    ghost predicate IsBlockOf(a: int, b: int)
      reads this, refs
    {
      exists p :: p in all && 0 <= p < refs.Length && OnPage(refs[p], a) && BlockType(refs[p]) == b
    }

    /** Threads the blocks of a new page, each to the one before. */
    method ThreadPage(page: int, b: int) returns (off: int)
      requires 0 <= b < NSIZES && page > 0 && page % PAGE == 0
      modifies this`mem
      ensures Threaded(mem, page, Size(b), PerPage(b)) && OnlyPage(old(mem), mem, page)
      ensures off == (PerPage(b) - 1) * Size(b)
    {
      var size := Size(b);
      var n := PerPage(b);
      var fl := page;
      mem := mem[fl := 0];
      assert Start(page, size, 0) == page;
      var i := 1;
      while i < n
        invariant 1 <= i <= n && fl == page + (i - 1) * size
        invariant Threaded(mem, page, size, i) && OnlyPage(old(mem), mem, page)
      {
        ThreadStep(old(mem), mem, page, size, n, i);
        fl := page + i * size;
        mem := mem[fl := page + (i - 1) * size];
        i := i + 1;
      }
      off := fl - page;
    }

    /** Sets up descriptor p for the page and puts it at the head of both lists. */
    method SetUpRef(p: int, page: int, b: int)
      requires Shape() && 0 <= p < NREFS && 0 <= b < NSIZES && page > 0 && page % PAGE == 0
      modifies refs, sizebases, this`allbase, this`mem
      ensures refs[..] == old(refs[..])[p := PageRef(old(sizebases[b]), old(allbase), page + b,
                                                     (PerPage(b) - 1) * Size(b), PerPage(b))]
      ensures sizebases[..] == old(sizebases[..])[b := p] && allbase == p
      ensures Threaded(mem, page, Size(b), PerPage(b)) && OnlyPage(old(mem), mem, page)
    {
      refs[p] := refs[p].(pab := page + b, nfree := PerPage(b));
      var off := ThreadPage(page, b);
      refs[p] := refs[p].(off := off);
      refs[p] := refs[p].(nextSame := sizebases[b]);
      sizebases[b] := p;
      refs[p] := refs[p].(nextAll := allbase);
      allbase := p;
    }

    method InsertPage(p: int, page: int, b: int)
      requires Shape() && ListsOK(refs[..], sizebases[..], allbase, all, same)
      requires PagesOK(refs[..], mem, all, free, live.Keys) && SizesOK(refs[..], all, live)
      requires 0 <= p < NREFS && p !in all && 0 <= b < NSIZES
      requires page > 0 && page % PAGE == 0 && FreshPage(refs[..], all, page)
      modifies refs, sizebases, this`allbase, this`mem, this`all, this`same, this`free
      ensures ListsOK(refs[..], sizebases[..], allbase, all, same)
      ensures PagesOK(refs[..], mem, all, free, live.Keys) && SizesOK(refs[..], all, live)
      ensures Untouched(old(mem), mem, live)
      ensures all == [p] + old(all) && PageAddr(refs[p]) == page && BlockType(refs[p]) == b && refs[p].nfree > 0
    {
      ghost var rs, bases0 := refs[..], sizebases[..];
      SetUpRef(p, page, b);
      NewRefIs(refs[p], page, b);
      LinkKeepsLists(rs, bases0, old(allbase), all, same, p, refs[p]);
      InsertedPages(rs, old(mem), mem, all, free, live.Keys, p, refs[p]);
      SizesWithNewPage(rs, old(mem), all, free, live, p, refs[p]);
      NewPageUntouched(rs, old(mem), mem, all, free, live, page);
      all, same, free := [p] + all, same[b := [p] + same[b]], free[p := Descending(page, Size(b), PerPage(b))];
    }

    /** AllocPageRef, as far as the lists are concerned. */
    method NewRef() returns (p: int)
      requires Shape() && Marked(all)
      modifies inuse
      ensures p == -1 ==> Marked(all) && forall q :: 0 <= q < NREFS ==> q in all
      ensures p != -1 ==> 0 <= p < NREFS && p !in all && Marked([p] + all)
    {
      p := AllocPageRef();
      if p == -1 {
        forall q | 0 <= q < NREFS ensures q in all {
          BitIndex(q / 32, q % 32, q);
          assert inuse[q / 32, q % 32];
        }
      } else {
        BitIndex(p / 32, p % 32, p);
        forall i, j | 0 <= i < WORDS && 0 <= j < 32 ensures inuse[i, j] <==> i * 32 + j in [p] + all {
          BitIndex(i, j, p);
        }
      }
    }

    /** The second critical section of subpage_kmalloc, with the page that alloc_kpages
        returned: 0 if there is no descriptor for it, and the caller frees the page. */
    method NewPage(page: int, b: int, ghost sz: int) returns (ptr: int)
      requires Valid() && 0 <= b < NSIZES && page > 0 && page % PAGE == 0 && FreshPage(refs[..], all, page)
      requires 0 <= sz <= Size(b)
      modifies this, refs, inuse, sizebases
      ensures Valid() && Untouched(old(mem), mem, old(live))
      ensures ptr == 0 ==> live == old(live) && all == old(all) && forall p :: 0 <= p < NREFS ==> p in all
      ensures ptr != 0 ==> ptr !in old(live) && live == old(live)[ptr := sz] && IsBlockOf(ptr, b)
    {
      var p := NewRef();
      if p == -1 { return 0; }
      InsertPage(p, page, b);
      ptr := TakeBlock(p, sz);
    }

    /** subpage_kmalloc as one call: alloc_kpages returns `page` when asked, 0 for no memory. */
    method SubpageAlloc(sz: int, page: int) returns (ptr: int, ghost b: int)
      requires Valid() && 0 <= sz <= 2048
      requires page != 0 ==> page > 0 && page % PAGE == 0 && FreshPage(refs[..], all, page)
      modifies this, refs, inuse, sizebases
      ensures Valid() && Untouched(old(mem), mem, old(live))
      ensures ptr == 0 ==> live == old(live) && (page == 0 || forall p :: 0 <= p < NREFS ==> p in all)
      ensures ptr != 0 ==> ptr !in old(live) && live == old(live)[ptr := sz] && Fits(b, sz) && IsBlockOf(ptr, b)
    {
      var blktype;
      ptr, blktype := TryAlloc(sz);
      if ptr == 0 && page != 0 {
        ptr := NewPage(page, blktype, sz);
      }
      b := blktype;
    }

    /** The whole pages of an allocation too large for the subpage allocator: enough for it
        if and only if rounding up does not wrap, and then no more than needed. */
    static method WholePages(sz: int) returns (npages: int)
      requires 0 <= sz < SIZE_T
      ensures npages * PAGE >= sz <==> sz <= SIZE_T - PAGE
      ensures sz <= SIZE_T - PAGE ==> (npages - 1) * PAGE < sz
      ensures sz > SIZE_T - PAGE ==> npages == 0
    {
      npages := ((sz + PAGE - 1) % SIZE_T) / PAGE;
    }

    /** kmalloc: alloc_kpages returns `page` when asked for that many pages. */
    method Kmalloc(sz: int, page: int) returns (ptr: int, npages: int, ghost b: int)
      requires Valid() && 0 <= sz < SIZE_T
      requires page != 0 ==> page > 0 && page % PAGE == 0 && FreshPage(refs[..], all, page)
      modifies this, refs, inuse, sizebases
      ensures Valid() && Untouched(old(mem), mem, old(live))
      ensures sz >= 2048 ==> ptr == page && live == old(live) && (npages * PAGE >= sz <==> sz <= SIZE_T - PAGE)
      ensures sz < 2048 && ptr == 0 ==> live == old(live) && (page == 0 || forall p :: 0 <= p < NREFS ==> p in all)
      ensures sz < 2048 && ptr != 0 ==>
              ptr !in old(live) && live == old(live)[ptr := sz] && Fits(b, sz) && IsBlockOf(ptr, b)
    {
      b := 0;
      if sz >= 2048 {
        npages := WholePages(sz);
        return page, npages, b;
      }
      npages := 1;
      ptr, b := SubpageAlloc(sz, page);
    }

    /** The owner of a live block writes a word of it. */
    method Store(a: int, x: int, w: int)
      requires Valid() && a in live && a <= x < a + live[a] && x % 4 == 0
      modifies this`mem
      ensures Valid() && mem == old(mem)[x := w] && Untouched(old(mem), mem, live - {a})
    {
      StoreKeepsPages(refs[..], mem, all, free, live, a, x, w);
      forall b | b in live && b != a ensures a + live[a] <= b || b + live[b] <= a { BlocksDoNotOverlap(a, b); }
      mem := mem[x := w];
    }

    /** What the owners of blocks rely on: whatever calls came in between, no two of them
        overlap in the sizes asked, and each is aligned. */
    lemma BlocksDoNotOverlap(a: int, b: int)
      requires Valid() && a in live && b in live && a != b
      ensures a % 8 == 0 && (a + live[a] <= b || b + live[b] <= a)
    {
      AskedApart(refs[..], mem, all, free, live, a, b);
    }

    /** A live block is one of one class only, at least as large as asked, and aligned to the
        size of its class. */
    lemma BlocksAreAligned(a: int) returns (b: int)
      requires Valid() && a in live
      ensures 0 <= b < NSIZES && IsBlockOf(a, b) && live[a] <= Size(b) && a % Size(b) == 0
      ensures forall c :: IsBlockOf(a, c) ==> c == b
    {
      var p := OwnerOf(refs[..], mem, all, free, live, a);
      b := BlockType(refs[p]);
      SizeAligned(refs[p], a);
      forall c | IsBlockOf(a, c) ensures c == b {
        var q :| q in all && 0 <= q < refs.Length && OnPage(refs[q], a) && BlockType(refs[q]) == c;
        OnOnePage(refs[..], mem, all, free, live.Keys, p, q, a);
      }
    }

    // ------------------------------------------------------------------ freeing

    predicate Within(r: PageRef, a: int) { PageAddr(r) <= a < PageAddr(r) + PAGE }

    /** The descriptor of the page an address is on; -1 if it is on none. */
    method FindOwner(ptr: int) returns (pr: int)
      requires Valid()
      ensures pr != -1 ==> pr in all && 0 <= pr < NREFS && Within(refs[pr], ptr)
      ensures pr == -1 ==> forall p :: p in all && 0 <= p < NREFS ==> !Within(refs[p], ptr)
    {
      pr := allbase;
      ghost var i := 0;
      while pr != -1
        invariant 0 <= i <= |all| && pr == if i < |all| then all[i] else -1
        invariant forall k :: 0 <= k < i ==> !Within(refs[all[k]], ptr)
        decreases |all| - i
      {
        if Within(refs[pr], ptr) { return; }
        assert Next(refs[..][all[i]], false) == Following(all, i, -1);
        pr := refs[pr].nextAll;
        i := i + 1;
      }
    }

    static function NthWord(ptr: int, i: int): int { ptr + 4 * i }

    method FillDeadbeef(ptr: int, len: nat)
      modifies this`mem
      ensures forall x :: x < ptr || x >= ptr + len ==> Word(mem, x) == Word(old(mem), x)
      ensures forall i :: 0 <= i < len / 4 ==> Word(mem, NthWord(ptr, i)) == 0xdeadbeef
    {
      for i := 0 to len / 4
        invariant forall x :: x < ptr || x >= ptr + len ==> Word(mem, x) == Word(old(mem), x)
        invariant forall k :: 0 <= k < i ==> Word(mem, NthWord(ptr, k)) == 0xdeadbeef
      {
        mem := mem[NthWord(ptr, i) := 0xdeadbeef];
      }
    }

    method PushFreeList(pr: int, ptr: int, ghost list: seq<int>)
      requires Shape() && 0 <= pr < NREFS && OnPage(refs[pr], ptr) && (list != [] ==> OnPage(refs[pr], list[0]))
      requires refs[pr].off == if list == [] then INVALID else list[0] - PageAddr(refs[pr])
      modifies refs, this`mem
      ensures Wrote(old(mem), mem, ptr, Size(BlockType(old(refs[pr]))), if list == [] then 0 else list[0])
      ensures refs[..] == old(refs[..])[pr := Pushed(old(refs[pr]), ptr)]
    {
      var prpage, size := PageAddr(refs[pr]), Size(BlockType(refs[pr]));
      FillDeadbeef(ptr, size);
      if refs[pr].off == INVALID {
        mem := mem[ptr := 0];
      } else {
        mem := mem[ptr := prpage + refs[pr].off];
      }
      refs[pr] := refs[pr].(off := ptr - prpage);
      refs[pr] := refs[pr].(nfree := refs[pr].nfree + 1);
    }

    /** The first loop of remove_lists. */
    method UnlinkSame(pr: int, b: int, ghost list: seq<int>) returns (ghost i: nat)
      requires Shape() && 0 <= b < NSIZES && Chain(refs[..], true, sizebases[b], list) && pr in list
      modifies refs, sizebases
      ensures i < |list| && list[i] == pr && Chain(refs[..], true, sizebases[b], Cut(list, i))
      ensures sizebases[..] == old(sizebases[..])[b := sizebases[b]] && OnlyNext(old(refs[..]), refs[..], true, list)
    {
      var prev, cur := -1, sizebases[b];
      i := 0;
      while cur != pr
        invariant i < |list| && cur == list[i] && prev == (if i == 0 then -1 else list[i - 1]) && pr !in list[..i]
        invariant refs[..] == old(refs[..]) && sizebases[..] == old(sizebases[..])
        decreases |list| - i
      {
        assert Next(refs[..][list[i]], true) == Following(list, i, -1) && pr in list[i + 1..];
        prev := cur;
        cur := refs[cur].nextSame;
        i := i + 1;
      }
      ghost var rs, head := refs[..], sizebases[b];
      if prev == -1 {
        sizebases[b] := refs[pr].nextSame;
      } else {
        refs[prev] := refs[prev].(nextSame := refs[pr].nextSame);
      }
      ChainCut(rs, refs[..], true, head, list, i);
    }

    /** And the second. */
    method UnlinkAll(pr: int, ghost list: seq<int>) returns (ghost i: nat)
      requires Shape() && Chain(refs[..], false, allbase, list) && pr in list
      modifies refs, this`allbase
      ensures i < |list| && list[i] == pr && Chain(refs[..], false, allbase, Cut(list, i))
      ensures OnlyNext(old(refs[..]), refs[..], false, list)
    {
      var prev, cur := -1, allbase;
      i := 0;
      while cur != pr
        invariant i < |list| && cur == list[i] && prev == (if i == 0 then -1 else list[i - 1]) && pr !in list[..i]
        invariant refs[..] == old(refs[..]) && allbase == old(allbase)
        decreases |list| - i
      {
        assert Next(refs[..][list[i]], false) == Following(list, i, -1) && pr in list[i + 1..];
        prev := cur;
        cur := refs[cur].nextAll;
        i := i + 1;
      }
      ghost var rs, head := refs[..], allbase;
      if prev == -1 {
        allbase := refs[pr].nextAll;
      } else {
        refs[prev] := refs[prev].(nextAll := refs[pr].nextAll);
      }
      ChainCut(rs, refs[..], false, head, list, i);
    }

    method RemoveLists(pr: int, b: int)
      requires Shape() && ListsOK(refs[..], sizebases[..], allbase, all, same)
      requires pr in all && 0 <= pr < NREFS && BlockType(refs[pr]) == b && 0 <= b < NSIZES
      modifies refs, sizebases, this`allbase, this`all, this`same
      ensures ListsOK(refs[..], sizebases[..], allbase, all, same) && SamePages(old(refs[..]), refs[..])
      ensures forall q :: q in all <==> q in old(all) && q != pr
    {
      ghost var rs, bases0, allbase0 := refs[..], sizebases[..], allbase;
      ghost var i := UnlinkSame(pr, b, same[b]);
      ghost var rs1 := refs[..];
      ChainKept(rs, rs1, false, allbase, all);
      ghost var k := UnlinkAll(pr, all);
      UnlinkKeepsLists(rs, rs1, refs[..], bases0, sizebases[b], allbase0, allbase, all, same, b, i, k);
      forall q ensures q in Cut(all, k) <==> q in all && q != pr { CutElements(all, k, q); }
      all, same := Cut(all, k), same[b := Cut(same[b], i)];
    }

    /** Puts a live block on its page's free list. */
    method ReturnBlock(pr: int, ptr: int)
      requires Valid() && pr in all && 0 <= pr < NREFS && OnPage(refs[pr], ptr) && ptr in live
      modifies refs, this`mem, this`free, this`live
      ensures Valid() && live == old(live) - {ptr} && Untouched(old(mem), mem, live)
      ensures refs[pr].pab == old(refs[pr]).pab && refs[pr].nfree <= PerPage(BlockType(refs[pr]))
      ensures refs[pr].nfree == PerPage(BlockType(refs[pr])) <==> forall a :: OnPage(refs[pr], a) ==> a !in live
    {
      ghost var rs, list := refs[..], free[pr];
      assert PageOK(rs[pr], mem, list, live.Keys) && (list != [] ==> list[0] in list);
      PushFreeList(pr, ptr, list);
      ReturnKeepsPages(rs, old(mem), mem, all, free, live.Keys, pr, ptr);
      LinksKept(rs, refs[..], sizebases[..], allbase, all, same);
      OthersUntouched(rs, old(mem), mem, all, free, live, pr, ptr, Word(mem, ptr));
      SizesKept(rs, refs[..], all, all, live, live - {ptr});
      assert (live - {ptr}).Keys == live.Keys - {ptr};
      free, live := free[pr := [ptr] + list], live - {ptr};
      FullyFree(refs[pr], mem, free[pr], live.Keys);
    }

    /** Takes a page with no live block out of the heap. */
    method DropPage(pr: int) returns (page: int)
      requires Valid() && pr in all && 0 <= pr < NREFS && forall a :: OnPage(refs[pr], a) ==> a !in live
      modifies refs, sizebases, inuse, this`allbase, this`all, this`same
      ensures Valid() && page == PageAddr(old(refs[pr])) && FreshPage(refs[..], all, page)
    {
      ghost var rs, all0 := refs[..], all;
      assert PageOK(rs[pr], mem, free[pr], live.Keys);
      page := PageAddr(refs[pr]);
      RemoveLists(pr, BlockType(refs[pr]));
      DropKeepsPages(rs, refs[..], mem, all0, all, free, live.Keys, pr);
      SizesKept(rs, refs[..], all0, all, live, live);
      FreePageRef(pr);
      forall i, j | 0 <= i < WORDS && 0 <= j < 32 ensures inuse[i, j] <==> i * 32 + j in all { BitIndex(i, j, pr); }
    }

    /** The page of a block just freed: still the heap's, or without a live block and a
        descriptor, and then it is `page`. */
    ghost predicate GivenUp(ptr: int, page: int)
      reads this, refs
    {
      if page == 0 then Somewhere(refs[..], all, ptr)
      else
        && page <= ptr < page + PAGE && FreshPage(refs[..], all, page)
        && forall a :: a in live ==> !(page <= a < page + PAGE)
    }

    method FreeOnPage(pr: int, ptr: int) returns (page: int)
      requires Valid() && pr in all && 0 <= pr < NREFS && OnPage(refs[pr], ptr) && ptr in live
      modifies this, refs, sizebases, inuse
      ensures Valid() && live == old(live) - {ptr} && Untouched(old(mem), mem, live)
      ensures page != 0 ==> FreshPage(refs[..], all, page) && forall a :: a in live ==> !(page <= a < page + PAGE)
      ensures page == 0 <==> exists a :: OnPage(old(refs[pr]), a) && a in live
      ensures if page == 0 then Somewhere(refs[..], all, ptr) else page <= ptr < page + PAGE
    {
      ReturnBlock(pr, ptr);
      page := 0;
      if refs[pr].nfree == PerPage(BlockType(refs[pr])) {
        PageAligned(refs[pr]);
        page := DropPage(pr);
        assert page > 0;
        forall a | a in live ensures !(page <= a < page + PAGE) {
          LiveElsewhere(refs[..], mem, all, free, live.Keys, page, a);
        }
      }
    }

    /** On one of the heap's pages. */
    ghost predicate OnHeap(a: int)
      reads this, refs
    {
      exists p :: p in all && 0 <= p < refs.Length && Within(refs[p], a)
    }

    /** A block on a free list: to free it again is an error the code does not notice. */
    ghost predicate IsFree(a: int)
      reads this, refs
    {
      a !in live && exists p :: p in all && 0 <= p < refs.Length && OnPage(refs[p], a)
    }

    lemma OwnerOfFree(pr: int, ptr: int)
      requires Valid() && IsFree(ptr)
      requires if pr == -1 then !OnHeap(ptr) else pr in all && 0 <= pr < NREFS && Within(refs[pr], ptr)
      ensures pr != -1 && OnPage(refs[pr], ptr) && ptr !in live
    {
      var q :| q in all && 0 <= q < NREFS && ptr in free[q];
      assert PageOK(refs[..][q], mem, free[q], live.Keys);
      assert OnPage(refs[q], ptr);
      PageAligned(refs[q]);
      BlockFits(PageAddr(refs[q]), BlockType(refs[q]), ptr);
      if pr != -1 && q != pr { OtherPage(refs[pr], refs[q], ptr); assert false; }
    }

    /** The test of an address for its place on its page: it cannot tell a live block from
        one that is on a free list. */
    method StartsBlock(pr: int, ptr: int) returns (isBlock: bool)
      requires Valid()
      requires if pr == -1 then !OnHeap(ptr) else pr in all && 0 <= pr < NREFS && Within(refs[pr], ptr)
      ensures isBlock == (ptr in live || IsFree(ptr))
      ensures isBlock ==> pr != -1 && OnPage(refs[pr], ptr)
    {
      if ptr in live { OwnerOfLive(refs[..], mem, all, free, live.Keys, pr, ptr); }
      if IsFree(ptr) { OwnerOfFree(pr, ptr); }
      if pr == -1 { return false; }
      assert PageOK(refs[..][pr], mem, free[pr], live.Keys);
      var offset := ptr - PageAddr(refs[pr]);
      isBlock := !(offset >= PAGE || offset % Size(BlockType(refs[pr])) != 0);
      assert isBlock <==> OnPage(refs[pr], ptr);
    }

    /** The search for the page, and the test. */
    method FindBlock(ptr: int) returns (pr: int, isBlock: bool)
      requires Valid()
      ensures (pr == -1 <==> !OnHeap(ptr)) && isBlock == (ptr in live || IsFree(ptr))
      ensures isBlock ==> pr in all && 0 <= pr < NREFS && OnPage(refs[pr], ptr)
    {
      pr := FindOwner(ptr);
      isBlock := StartsBlock(pr, ptr);
    }

    /** subpage_kfree: frees a live block, refuses an address on none of the heap's pages,
        and panics on one that is no block's.  What goes to free_kpages once the lock is
        dropped has by then no live block and no descriptor on it. */
    method SubpageFree(ptr: int) returns (res: FreeResult)
      requires Valid() && !IsFree(ptr)
      modifies this, refs, sizebases, inuse
      ensures Valid() && live == old(live) - {ptr} && Untouched(old(mem), mem, live)
      ensures res.Freed? <==> ptr in old(live)
      ensures res.NotOurs? <==> !old(OnHeap(ptr))
      ensures res.Freed? ==> GivenUp(ptr, res.page)
    {
      var pr, isBlock := FindBlock(ptr);
      if pr == -1 { return NotOurs; }
      if !isBlock { return Panic; }
      var page := FreeOnPage(pr, ptr);
      return Freed(page);
    }

    /** kfree: the page to hand to free_kpages afterwards, 0 for none.  The page of a block
        is handed over if nothing is live on it, and stays the heap's otherwise. */
    method Kfree(ptr: int) returns (res: FreeResult)
      requires Valid() && !IsFree(ptr)
      modifies this, refs, sizebases, inuse
      ensures Valid() && live == old(live) - {ptr} && Untouched(old(mem), mem, live)
      ensures res.Panic? <==> ptr !in old(live) && (old(OnHeap(ptr)) || ptr % PAGE != 0)
      ensures ptr !in old(live) && !res.Panic? ==> res == Freed(ptr)
      ensures ptr in old(live) ==> res.Freed? && GivenUp(ptr, res.page)
    {
      if ptr == 0 {
        NullIsNobodys(refs[..], mem, all, free, live.Keys);
        return Freed(0);
      }
      res := SubpageFree(ptr);
      if res.NotOurs? {
        res := if ptr % PAGE == 0 then Freed(ptr) else Panic;
      }
    }
  }

  lemma OwnerOfLive(refs: seq<PageRef>, mem: map<int, int>, all: seq<int>, free: seq<seq<int>>, live: set<int>, p: int,
      a: int)
    requires PagesOK(refs, mem, all, free, live) && a in live
    requires p != -1 ==> p in all && PageAddr(refs[p]) <= a < PageAddr(refs[p]) + PAGE
    requires p == -1 ==> forall q :: q in all && 0 <= q < NREFS ==> !(PageAddr(refs[q]) <= a < PageAddr(refs[q]) + PAGE)
    ensures p != -1 && OnPage(refs[p], a)
  {
    assert Somewhere(refs, all, a);
    var q :| q in all && 0 <= q < |refs| && OnPage(refs[q], a);
    if p != -1 && q != p { OtherPage(refs[p], refs[q], a); assert false; }
  }

  lemma NullIsNobodys(refs: seq<PageRef>, mem: map<int, int>, all: seq<int>, free: seq<seq<int>>, live: set<int>)
    requires PagesOK(refs, mem, all, free, live)
    ensures 0 !in live && forall p :: p in all ==> PageAddr(refs[p]) > 0
  {
    assert 0 in live ==> Somewhere(refs, all, 0);
    forall p | p in all ensures PageAddr(refs[p]) > 0 { assert PageOK(refs[p], mem, free[p], live); }
  }

  lemma LiveElsewhere(refs: seq<PageRef>, mem: map<int, int>, all: seq<int>, free: seq<seq<int>>, live: set<int>,
      page: int, a: int)
    requires PagesOK(refs, mem, all, free, live) && a in live && FreshPage(refs, all, page) && page % PAGE == 0
    ensures !(page <= a < page + PAGE)
  {
    assert Somewhere(refs, all, a);
    var q :| q in all && 0 <= q < |refs| && OnPage(refs[q], a);
    PageAligned(refs[q]);
    PagesApart(page, PageAddr(refs[q]));
  }

  /** Of descriptors, only the links of one kind change, and only on the list. */
  ghost predicate OnlyNext(refs: seq<PageRef>, refs': seq<PageRef>, same: bool, list: seq<int>) {
    && |refs'| == |refs|
    && (forall q :: 0 <= q < |refs| ==> refs'[q] == SetNext(refs[q], same, Next(refs'[q], same)))
    && (forall q :: 0 <= q < |refs| && q !in list ==> refs'[q] == refs[q])
  }

  lemma NewRefIs(r: PageRef, page: int, b: int)
    requires page % PAGE == 0 && 0 <= b < NSIZES && r.pab == page + b
    ensures PageAddr(r) == page && BlockType(r) == b
  {
    PabIs(page, b);
  }

  lemma InsertedPages(refs: seq<PageRef>, mem: map<int, int>, mem': map<int, int>, all: seq<int>,
                      free: seq<seq<int>>, live: set<int>, p: int, r: PageRef)
    requires PagesOK(refs, mem, all, free, live) && 0 <= p < NREFS && p !in all && RefOK(r)
    requires FreshPage(refs, all, PageAddr(r))
    requires var b := BlockType(r); r.nfree == PerPage(b) && r.off == (PerPage(b) - 1) * Size(b)
    requires Threaded(mem', PageAddr(r), Size(BlockType(r)), PerPage(BlockType(r))) && OnlyPage(mem, mem', PageAddr(r))
    ensures PagesOK(refs[p := r], mem', [p] + all,
                    free[p := Descending(PageAddr(r), Size(BlockType(r)), PerPage(BlockType(r)))], live)
  {
    forall a | OnPage(r, a) ensures a !in live { NothingLiveOn(refs, mem, all, free, live, r, a); }
    NewPageOK(r, mem', live);
    AddKeepsPages(refs, mem, mem', all, free, live, p, r,
                  Descending(PageAddr(r), Size(BlockType(r)), PerPage(BlockType(r))));
  }

  lemma BitIndex(i: int, j: int, p: int)
    requires 0 <= j < 32 && 0 <= i && 0 <= p
    ensures i * 32 + j == p <==> i == p / 32 && j == p % 32
  {
  }

  /** MKPAB and its two inverses. */
  lemma PabIs(page: int, b: int)
    requires page % PAGE == 0 && 0 <= b < NSIZES
    ensures (page + b) % PAGE == b
  {
  }

  lemma MultiplesDiffer(k: int, i: int, size: int)
    requires 0 <= k < i && size > 0
    ensures k * size + size <= i * size
  {
    MulMono(k + 1, i, size);
    assert (k + 1) * size == k * size + size;
  }

  lemma ThreadStep(mem0: map<int, int>, mem: map<int, int>, page: int, size: int, n: nat, i: nat)
    requires size > 0 && n * size == PAGE && 1 <= i < n
    requires Threaded(mem, page, size, i) && OnlyPage(mem0, mem, page)
    ensures var mem' := mem[page + i * size := page + (i - 1) * size];
      Threaded(mem', page, size, i + 1) && OnlyPage(mem0, mem', page)
  {
    var mem' := mem[page + i * size := page + (i - 1) * size];
    MultiplesDiffer(i, n, size);
    MultiplesDiffer(0, i, size);
    forall k | 0 <= k < i + 1 ensures Word(mem', Start(page, size, k)) == Before(page, size, k) {
      if k < i { MultiplesDiffer(k, i, size); }
    }
  }

  lemma Taken(refs: seq<PageRef>, bases: seq<int>, allbase: int, mem: map<int, int>, all: seq<int>, same: seq<seq<int>>,
              free: seq<seq<int>>, live: set<int>, p: int)
    requires ListsOK(refs, bases, allbase, all, same) && PagesOK(refs, mem, all, free, live) && p in all
    requires free[p] != []
    ensures var refs' := refs[p := Popped(refs[p], free[p])];
      && ListsOK(refs', bases, allbase, all, same)
      && PagesOK(refs', mem, all, free[p := free[p][1..]], live + {free[p][0]})
      && OnPage(refs[p], free[p][0]) && free[p][0] !in live
  {
    TakeKeepsPages(refs, mem, all, free, live, p);
    LinksKept(refs, refs[p := Popped(refs[p], free[p])], bases, allbase, all, same);
  }

  /** A block is never at address 0, so a null link is the end of the list. */
  lemma NextIsBlock(r: PageRef, mem: map<int, int>, list: seq<int>, live: set<int>)
    requires PageOK(r, mem, list, live) && list != []
    ensures Following(list, 0, 0) == 0 <==> |list| == 1
  {
    if |list| > 1 { assert list[1] in list; }
  }

  /** Changing anything but links and types leaves the lists. */
  lemma LinksKept(refs: seq<PageRef>, refs': seq<PageRef>, bases: seq<int>, allbase: int, all: seq<int>,
      same: seq<seq<int>>)
    requires ListsOK(refs, bases, allbase, all, same) && |refs'| == |refs|
    requires forall p :: 0 <= p < NREFS ==>
      refs'[p].nextSame == refs[p].nextSame && refs'[p].nextAll == refs[p].nextAll && refs'[p].pab == refs[p].pab
    ensures ListsOK(refs', bases, allbase, all, same)
  {
    ChainKept(refs, refs', false, allbase, all);
    forall b | 0 <= b < NSIZES ensures Chain(refs', true, bases[b], same[b]) {
      ChainKept(refs, refs', true, bases[b], same[b]);
    }
  }
}
