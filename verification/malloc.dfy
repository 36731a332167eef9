/** The user-level allocator of lib/malloc.c: pages of the arena are filled in order, the last word of
    a block's last page counts the blocks that end there, earlier pages are marked as continued. */
module Malloc {
  const PGSIZE: nat := 0x1000
  const FIRST: nat := 0x8000              // page number of mbegin
  const END: nat := 0x1_0000              // page number of mend
  const MAXMALLOC: nat := 0x10_0000
  const WORD: nat := 0x1_0000_0000
  const TOP: nat := 0x10_0000             // pages in the address space
  const UTOP: nat := 0xE_EC00             // page number of UTOP

  /** A mapped page: whether it is marked as continued, and its last word. */
  datatype Pg = Pg(cont: bool, ref: nat)

  /** The allocator's state; live maps the address of a block to its size, and leaked holds the pages
      whose count includes a reference nobody will drop. */
  datatype Heap = Heap(mptr: nat, pages: map<nat, Pg>, live: map<nat, nat>, leaked: multiset<nat>)

  function Page(a: nat): nat { a / PGSIZE }
  function Off(a: nat): nat { a % PGSIZE }

  /** The page with the reference word of a block. */
  function Last(v: nat, n: nat): nat { Page(v + n + 3) }

  /** ROUNDUP(n, 4) in 32 bits. */
  function RoundUp4(n: nat): nat { ((n + 3) - (n + 3) % 4) % WORD }

  ghost function Ending(live: map<nat, nat>, q: nat): set<nat> {
    set v | v in live && Last(v, live[v]) == q
  }

  function Inside(mptr: nat, q: nat): nat {
    if Off(mptr) != 0 && Page(mptr) == q then 1 else 0
  }

  ghost predicate Spans(pages: map<nat, Pg>, first: nat, last: nat) {
    && (forall q: nat :: first <= q < last ==> q in pages && pages[q].cont)
    && last in pages && !pages[last].cont
  }

  ghost predicate BlockOk(h: Heap, v: nat)
    requires v in h.live
  {
    var n := h.live[v];
    && n > 0 && n % 4 == 0 && v % 4 == 0 && FIRST <= Page(v) <= Last(v, n) < END
    && (Page(v) < Last(v, n) ==> Off(v) == 0)
    && Spans(h.pages, Page(v), Last(v, n))
  }

  ghost predicate OrderOk(h: Heap, v: nat, w: nat)
    requires v in h.live && w in h.live
  {
    v < w ==> v + h.live[v] <= w && Last(v, h.live[v]) <= Page(w)
  }

  ghost predicate CoveredBy(live: map<nat, nat>, v: nat, q: nat) {
    v in live && Page(v) <= q < Last(v, live[v])
  }

  ghost predicate PageOk(h: Heap, q: nat) {
    if q !in h.pages then h.leaked[q] == 0
    else if h.pages[q].cont then h.leaked[q] == 0 && exists v :: CoveredBy(h.live, v, q)
    else h.pages[q].ref == |Ending(h.live, q)| + Inside(h.mptr, q) + h.leaked[q] && h.pages[q].ref > 0 && h.leaked[q] <= 1
  }

  /** How the live blocks lie around a pointer into the middle of a page. */
  ghost predicate AroundOk(h: Heap, v: nat)
    requires v in h.live
  {
    if v < h.mptr then v + h.live[v] <= h.mptr && Last(v, h.live[v]) <= Page(h.mptr) else Page(v) > Page(h.mptr)
  }

  ghost predicate PointerOk(h: Heap) {
    && FIRST <= Page(h.mptr) < END && h.mptr % 4 == 0
    && (Off(h.mptr) != 0 ==>
          && Page(h.mptr) in h.pages && !h.pages[Page(h.mptr)].cont
          && forall v :: v in h.live ==> AroundOk(h, v))
  }

  ghost predicate Ok(h: Heap) {
    && PointerOk(h)
    && (forall v :: v in h.live ==> BlockOk(h, v))
    && (forall v, w :: v in h.live && w in h.live ==> OrderOk(h, v, w))
    && (forall q: nat :: PageOk(h, q))
    && (forall q :: q in h.pages ==> FIRST <= q < END)
  }

  // The operations

  /** The chunk fits in the rest of the page mptr is in. */
  predicate FitsHere(mptr: nat, n: nat) {
    Page(mptr) == Page(mptr + n + 3)
  }

  function Append(h: Heap, n: nat): Heap
    requires Page(h.mptr) in h.pages
  {
    var q := Page(h.mptr);
    Heap(h.mptr + n, h.pages[q := h.pages[q].(ref := h.pages[q].ref + 1)], h.live[h.mptr := n], h.leaked)
  }

  /** free on the chain of pages first..last: the continued ones go, the last one loses a reference. */
  function Unref(pages: map<nat, Pg>, first: nat, last: nat): map<nat, Pg>
    requires last in pages
  {
    var rest := map q | q in pages && !(first <= q < last) :: pages[q];
    if pages[last].ref == 1 then rest - {last} else rest[last := Pg(false, if pages[last].ref == 0 then WORD - 1 else pages[last].ref - 1)]
  }

  /** The heap without the pointer's reference to its page; the pointer is back at the beginning. */
  function MoveOn(h: Heap): Heap
    requires Page(h.mptr) in h.pages
  {
    h.(mptr := FIRST * PGSIZE, pages := Unref(h.pages, Page(h.mptr), Page(h.mptr)))
  }

  /** A free run of pages for a chunk at page q. */
  ghost predicate FreeRun(pages: map<nat, Pg>, q: nat, n: nat) {
    forall p: nat :: q <= p <= Last(q * PGSIZE, n) ==> Vacant(pages, p)
  }

  predicate Vacant(pages: map<nat, Pg>, p: nat) {
    p < END && p !in pages
  }

  /** The pages of a new chunk: all but the last continued, the last with two references. */
  function Mapped(pages: map<nat, Pg>, first: nat, last: nat): map<nat, Pg> {
    pages + map q: nat | first <= q <= last :: NewPage(q, last)
  }

  function NewPage(q: nat, last: nat): Pg {
    if q < last then Pg(true, 0) else Pg(false, 2)
  }

  function Place(h: Heap, n: nat): Heap {
    var last := Last(h.mptr, n);
    Heap(h.mptr + n, Mapped(h.pages, Page(h.mptr), last), h.live[h.mptr := n],
         if n % PGSIZE == 0 then h.leaked + multiset{last} else h.leaked)
  }

  function Release(h: Heap, v: nat): Heap
    requires v in h.live && Last(v, h.live[v]) in h.pages
  {
    h.(pages := Unref(h.pages, Page(v), Last(v, h.live[v])), live := h.live - {v})
  }

  // Each keeps the invariant

  lemma EndingAdd(live: map<nat, nat>, v: nat, n: nat, q: nat)
    requires v !in live
    ensures Ending(live[v := n], q) == Ending(live, q) + (if Last(v, n) == q then {v} else {})
    ensures |Ending(live[v := n], q)| == |Ending(live, q)| + (if Last(v, n) == q then 1 else 0)
  {
    assert Ending(live[v := n], q) == Ending(live, q) + (if Last(v, n) == q then {v} else {});
  }

  lemma EndingRemove(live: map<nat, nat>, v: nat, q: nat)
    requires v in live
    ensures |Ending(live - {v}, q)| == |Ending(live, q)| - (if Last(v, live[v]) == q then 1 else 0)
  {
    assert Ending(live - {v}, q) == Ending(live, q) - (if Last(v, live[v]) == q then {v} else {});
  }

  /** Where the pointer goes when a chunk is appended: still before the reference word of its page. */
  lemma AppendPlace(mptr: nat, n: nat)
    requires mptr % 4 == 0 && n % 4 == 0 && FitsHere(mptr, n) && Off(mptr) != 0
    ensures Page(mptr + n) == Page(mptr) == Last(mptr, n) && Off(mptr + n) != 0 && (mptr + n) % 4 == 0
  {
  }

  lemma Below(a: nat, b: nat)
    ensures Page(a) < Page(b) ==> a < b
    ensures a <= b ==> Page(a) <= Page(b)
  {
  }

  lemma AppendPages(h: Heap, n: nat, p: nat)
    requires Ok(h) && Off(h.mptr) != 0 && n > 0 && n % 4 == 0 && FitsHere(h.mptr, n) && h.mptr !in h.live
    ensures PageOk(Append(h, n), p)
  {
    hide Page, Off, FitsHere, Last, BlockOk, OrderOk, AroundOk, Ending;
    var t := Append(h, n);
    AppendPlace(h.mptr, n);
    assert PageOk(h, p);
    EndingAdd(h.live, h.mptr, n, p);
    if p in h.pages && h.pages[p].cont {
      var v :| CoveredBy(h.live, v, p);
      assert CoveredBy(t.live, v, p);
    }
  }

  lemma AppendBlocks(h: Heap, n: nat, v: nat)
    requires Ok(h) && Off(h.mptr) != 0 && n > 0 && n % 4 == 0 && FitsHere(h.mptr, n) && h.mptr !in h.live
    requires v in Append(h, n).live
    ensures BlockOk(Append(h, n), v) && AroundOk(Append(h, n), v)
  {
    hide Page, Off, FitsHere, Last, PageOk, OrderOk;
    AppendPlace(h.mptr, n);
    if v != h.mptr {
      assert BlockOk(h, v) && AroundOk(h, v);
      Below(h.mptr + n, v);
    }
  }

  lemma AppendOrder(h: Heap, n: nat, v: nat, w: nat)
    requires Ok(h) && Off(h.mptr) != 0 && n > 0 && n % 4 == 0 && FitsHere(h.mptr, n) && h.mptr !in h.live
    requires v in Append(h, n).live && w in Append(h, n).live
    ensures OrderOk(Append(h, n), v, w)
  {
    hide Page, Off, FitsHere, Last, PageOk, BlockOk;
    AppendPlace(h.mptr, n);
    if v != h.mptr && w != h.mptr {
      assert OrderOk(h, v, w);
    } else if v != h.mptr {
      assert AroundOk(h, v);
      Below(h.mptr, v);
    } else if w != h.mptr {
      assert AroundOk(h, w);
      Below(h.mptr + n, w);
    }
  }

  lemma AppendOk(h: Heap, n: nat)
    requires Ok(h) && Off(h.mptr) != 0 && n > 0 && n % 4 == 0 && FitsHere(h.mptr, n)
    ensures h.mptr !in h.live && Ok(Append(h, n))
  {
    hide Page, Off, FitsHere, Last, PageOk, BlockOk, OrderOk;
    var t := Append(h, n);
    AppendPlace(h.mptr, n);
    assert h.mptr in h.live ==> AroundOk(h, h.mptr);
    forall v | v in t.live
      ensures BlockOk(t, v) && AroundOk(t, v)
    {
      AppendBlocks(h, n, v);
    }
    forall v, w | v in t.live && w in t.live
      ensures OrderOk(t, v, w)
    {
      AppendOrder(h, n, v, w);
    }
    forall p: nat
      ensures PageOk(t, p)
    {
      AppendPages(h, n, p);
    }
  }

  // Dropping the pointer's reference to its page

  lemma Aligned(q: nat)
    ensures Page(q * PGSIZE) == q && Off(q * PGSIZE) == 0 && q * PGSIZE % 4 == 0
  {
    assert q * PGSIZE == 4 * (q * 1024);
  }

  lemma MoveOnOk(h: Heap)
    requires Ok(h) && Off(h.mptr) != 0
    ensures Ok(MoveOn(h))
  {
    hide Page, Off, Last, Ending;
    var t, m := MoveOn(h), Page(h.mptr);
    Aligned(FIRST);
    assert PageOk(h, m);
    forall v | v in t.live
      ensures BlockOk(t, v)
    {
      assert BlockOk(h, v);
      EndingOne(h.live, v);
    }
    forall v, w | v in t.live && w in t.live
      ensures OrderOk(t, v, w)
    {
      assert OrderOk(h, v, w);
    }
    forall p: nat
      ensures PageOk(t, p)
    {
      assert PageOk(h, p);
    }
  }

  /** A live block counts in its last page. */
  lemma EndingOne(live: map<nat, nat>, v: nat)
    requires v in live
    ensures |Ending(live, Last(v, live[v]))| >= 1
  {
    assert v in Ending(live, Last(v, live[v]));
  }

  // Placing a chunk in a free run

  lemma PlaceFacts(mptr: nat, n: nat)
    requires Off(mptr) == 0 && n > 0 && n % 4 == 0 && mptr % 4 == 0
    ensures Page(mptr + n) == Last(mptr, n) >= Page(mptr) && (mptr + n) % 4 == 0
    ensures Off(mptr + n) == 0 <==> n % PGSIZE == 0
    ensures Page(mptr) * PGSIZE == mptr
  {
  }

  /** No live block reaches into a free run. */
  lemma RunClear(h: Heap, n: nat, v: nat)
    requires Ok(h) && Off(h.mptr) == 0 && n > 0 && n % 4 == 0 && FreeRun(h.pages, Page(h.mptr), n) && v in h.live
    ensures Last(v, h.live[v]) < Page(h.mptr) || Page(v) > Last(h.mptr, n)
  {
    hide Page, Off, Last, PageOk, OrderOk, AroundOk;
    PlaceFacts(h.mptr, n);
    assert BlockOk(h, v);
    var q := if Page(v) >= Page(h.mptr) then Page(v) else Page(h.mptr);
    if Page(v) <= q <= Last(v, h.live[v]) {
      assert !Vacant(h.pages, q);
    }
  }

  lemma PlacePages(h: Heap, n: nat, p: nat)
    requires Ok(h) && Off(h.mptr) == 0 && n > 0 && n % 4 == 0 && FreeRun(h.pages, Page(h.mptr), n) && h.mptr !in h.live
    ensures PageOk(Place(h, n), p)
  {
    hide Page, Off, Last, BlockOk, OrderOk, AroundOk, Ending;
    var t := Place(h, n);
    PlaceFacts(h.mptr, n);
    assert PageOk(h, p);
    EndingAdd(h.live, h.mptr, n, p);
    var last := Last(h.mptr, n);
    if Page(h.mptr) <= p <= last {
      assert Vacant(h.pages, p);
      if p == last {
        NoneEnding(h, n, p);
      } else {
        assert CoveredBy(t.live, h.mptr, p);
      }
    } else if p in h.pages && h.pages[p].cont {
      var v :| CoveredBy(h.live, v, p);
      assert CoveredBy(t.live, v, p);
    }
  }

  lemma NoneEnding(h: Heap, n: nat, p: nat)
    requires Ok(h) && Off(h.mptr) == 0 && n > 0 && n % 4 == 0 && FreeRun(h.pages, Page(h.mptr), n)
    requires p == Last(h.mptr, n)
    ensures Ending(h.live, p) == {}
  {
    hide Page, Off, Last, PageOk, OrderOk, AroundOk, BlockOk;
    PlaceFacts(h.mptr, n);
    forall v | v in h.live
      ensures Last(v, h.live[v]) != p
    {
      RunClear(h, n, v);
      LastAfter(v, h.live[v]);
    }
  }

  lemma LastAfter(v: nat, n: nat)
    ensures Page(v) <= Last(v, n)
  {
  }

  lemma PlaceBlocks(h: Heap, n: nat, v: nat)
    requires Ok(h) && Off(h.mptr) == 0 && n > 0 && n % 4 == 0 && FreeRun(h.pages, Page(h.mptr), n) && h.mptr !in h.live
    requires v in Place(h, n).live
    ensures BlockOk(Place(h, n), v)
    ensures Off(h.mptr + n) != 0 ==> AroundOk(Place(h, n), v)
  {
    hide Page, Off, Last, PageOk, OrderOk;
    PlaceFacts(h.mptr, n);
    assert Vacant(h.pages, Last(h.mptr, n));
    if v != h.mptr {
      assert BlockOk(h, v);
      RunClear(h, n, v);
      LastAfter(v, h.live[v]);
      BlockEnd(v, h.live[v]);
      Below(h.mptr + n, v);
      Below(v + h.live[v], h.mptr);
    }
  }

  lemma BlockEnd(v: nat, n: nat)
    ensures Page(v + n) <= Last(v, n)
  {
  }

  lemma PlaceOrder(h: Heap, n: nat, v: nat, w: nat)
    requires Ok(h) && Off(h.mptr) == 0 && n > 0 && n % 4 == 0 && FreeRun(h.pages, Page(h.mptr), n) && h.mptr !in h.live
    requires v in Place(h, n).live && w in Place(h, n).live
    ensures OrderOk(Place(h, n), v, w)
  {
    hide Page, Off, Last, PageOk, BlockOk, AroundOk;
    PlaceFacts(h.mptr, n);
    if v != h.mptr && w != h.mptr {
      assert OrderOk(h, v, w);
    } else if v != h.mptr {
      RunClear(h, n, v);
      BlockEnd(v, h.live[v]);
      LastAfter(h.mptr, n);
      Below(v + h.live[v], h.mptr);
      Below(h.mptr, v);
    } else if w != h.mptr {
      RunClear(h, n, w);
      Below(h.mptr + n, w);
      LastAfter(w, h.live[w]);
      Below(w, h.mptr);
    }
  }

  lemma PlaceOk(h: Heap, n: nat)
    requires Ok(h) && Off(h.mptr) == 0 && n > 0 && n % 4 == 0 && FreeRun(h.pages, Page(h.mptr), n)
    ensures h.mptr !in h.live && Ok(Place(h, n))
  {
    hide Page, Off, Last, PageOk, BlockOk, OrderOk, AroundOk;
    var t := Place(h, n);
    PlaceFacts(h.mptr, n);
    if h.mptr in h.live {
      RunClear(h, n, h.mptr);
      LastAfter(h.mptr, h.live[h.mptr]);
      LastAfter(h.mptr, n);
      assert false;
    }
    forall v | v in t.live
      ensures BlockOk(t, v) && (Off(t.mptr) != 0 ==> AroundOk(t, v))
    {
      PlaceBlocks(h, n, v);
    }
    forall v, w | v in t.live && w in t.live
      ensures OrderOk(t, v, w)
    {
      PlaceOrder(h, n, v, w);
    }
    forall p: nat
      ensures PageOk(t, p)
    {
      PlacePages(h, n, p);
    }
    assert Vacant(h.pages, Last(h.mptr, n));
  }

  // Releasing a block

  lemma ReleaseBlocks(h: Heap, v: nat, w: nat)
    requires Ok(h) && v in h.live && w in h.live && v != w && Last(v, h.live[v]) in h.pages
    ensures BlockOk(Release(h, v), w)
  {
    hide Page, Off, Last, AroundOk, Ending;
    assert BlockOk(h, v) && BlockOk(h, w) && OrderOk(h, v, w) && OrderOk(h, w, v);
    if Last(v, h.live[v]) == Last(w, h.live[w]) {
      assert PageOk(h, Last(v, h.live[v]));
      EndingTwo(h.live, v, w);
    }
  }

  lemma EndingTwo(live: map<nat, nat>, v: nat, w: nat)
    requires v in live && w in live && v != w && Last(v, live[v]) == Last(w, live[w])
    ensures |Ending(live, Last(v, live[v]))| >= 2
  {
    EndingRemove(live, v, Last(v, live[v]));
    EndingOne(live - {v}, w);
  }

  lemma ReleasePages(h: Heap, v: nat, p: nat)
    requires Ok(h) && v in h.live && Last(v, h.live[v]) in h.pages
    ensures PageOk(Release(h, v), p)
  {
    hide Page, Off, Last, OrderOk, AroundOk, Ending;
    var t := Release(h, v);
    assert PageOk(h, p) && BlockOk(h, v);
    EndingRemove(h.live, v, p);
    EndingOne(h.live, v);
    if p in t.pages && t.pages[p].cont {
      var u :| CoveredBy(h.live, u, p);
      assert CoveredBy(t.live, u, p);
    }
  }

  lemma ReleasePointer(h: Heap, v: nat)
    requires Ok(h) && v in h.live && Last(v, h.live[v]) in h.pages
    ensures PointerOk(Release(h, v))
  {
    hide Page, Off, Last, OrderOk, Ending;
    var t, q := Release(h, v), Page(h.mptr);
    assert BlockOk(h, v) && PageOk(h, q);
    EndingOne(h.live, v);
    if Off(h.mptr) != 0 {
      forall w | w in t.live
        ensures AroundOk(t, w)
      {
        assert AroundOk(h, w);
      }
    }
  }

  lemma ReleaseOk(h: Heap, v: nat)
    requires Ok(h) && v in h.live
    ensures BlockOk(h, v) && Ok(Release(h, v))
  {
    hide Page, Off, Last, PageOk, AroundOk, Spans, PointerOk;
    assert BlockOk(h, v);
    LastMapped(h, v);
    hide BlockOk;
    var t := Release(h, v);
    ReleasePointer(h, v);
    forall w | w in t.live
      ensures BlockOk(t, w)
    {
      ReleaseBlocks(h, v, w);
    }
    forall u, w | u in t.live && w in t.live
      ensures OrderOk(t, u, w)
    {
      assert OrderOk(h, u, w);
    }
    forall p: nat
      ensures PageOk(t, p)
    {
      ReleasePages(h, v, p);
    }
  }

  lemma LastMapped(h: Heap, v: nat)
    requires v in h.live && BlockOk(h, v)
    ensures Last(v, h.live[v]) in h.pages
  {
  }

  // What the invariant means

  /** Live blocks are pairwise disjoint, every page of a block is mapped and the block ends before its
      reference word.  With nothing leaked, a page's count is the number of blocks that end in it plus
      one if the pointer is inside, and the mapped pages are exactly the continued pages of live
      blocks and the pages with something to count. */
  lemma BlocksAreSafe(h: Heap)
    requires Ok(h)
    ensures forall v, w :: v in h.live && w in h.live && v != w ==> v + h.live[v] <= w || w + h.live[w] <= v
    ensures forall v, a: nat :: v in h.live && v <= a < v + h.live[v] ==>
              Page(a) in h.pages && a < (Last(v, h.live[v]) + 1) * PGSIZE - 4
    ensures h.leaked == multiset{} ==>
              forall q: nat ::
                && (q in h.pages <==> (exists v :: CoveredBy(h.live, v, q)) || Ending(h.live, q) != {} || Inside(h.mptr, q) == 1)
                && (q in h.pages && !h.pages[q].cont ==> h.pages[q].ref == |Ending(h.live, q)| + Inside(h.mptr, q))
  {
    hide PageOk, AroundOk, PointerOk, Ending, CoveredBy;
    forall v, w | v in h.live && w in h.live && v != w
      ensures v + h.live[v] <= w || w + h.live[w] <= v
    {
      assert OrderOk(h, v, w) && OrderOk(h, w, v);
    }
    forall v, a: nat | v in h.live && v <= a < v + h.live[v]
      ensures Page(a) in h.pages && a < (Last(v, h.live[v]) + 1) * PGSIZE - 4
    {
      assert BlockOk(h, v);
      Below(v, a);
      Below(a, v + h.live[v] + 3);
    }
    if h.leaked == multiset{} {
      forall q: nat
        ensures q in h.pages <==> (exists v :: CoveredBy(h.live, v, q)) || Ending(h.live, q) != {} || Inside(h.mptr, q) == 1
        ensures q in h.pages && !h.pages[q].cont ==> h.pages[q].ref == |Ending(h.live, q)| + Inside(h.mptr, q)
      {
        CountsExact(h, q);
      }
    }
  }

  lemma CountsExact(h: Heap, q: nat)
    requires Ok(h) && h.leaked == multiset{}
    ensures q in h.pages <==> (exists v :: CoveredBy(h.live, v, q)) || Ending(h.live, q) != {} || Inside(h.mptr, q) == 1
    ensures q in h.pages && !h.pages[q].cont ==> h.pages[q].ref == |Ending(h.live, q)| + Inside(h.mptr, q)
  {
    hide Page, Off, Last, AroundOk, OrderOk;
    assert PageOk(h, q);
    forall v | v in h.live
      ensures BlockOk(h, v)
    {
    }
    if Ending(h.live, q) != {} {
      var v :| v in Ending(h.live, q);
      assert q in h.pages;
    }
  }

  /** The k-th word of page q, as a number below 1024. */
  function WordIn(q: nat, a: nat): int { (a - q * PGSIZE) / 4 }

  lemma EndsApart(h: Heap, q: nat, v: nat, w: nat)
    requires Ok(h) && v in Ending(h.live, q) && w in Ending(h.live, q) && v < w
    ensures 0 <= WordIn(q, v + h.live[v]) < WordIn(q, w + h.live[w]) < 1024
  {
    hide PageOk, AroundOk, PointerOk, Spans;
    assert BlockOk(h, v) && BlockOk(h, w) && OrderOk(h, v, w);
    EndWord(q, v, h.live[v]);
    EndWord(q, w, h.live[w]);
    WordsMonotone(q, v + h.live[v], w, w + h.live[w]);
  }

  lemma EndWord(q: nat, v: nat, n: nat)
    requires Last(v, n) == q && v % 4 == 0 && n % 4 == 0
    ensures q * PGSIZE <= v + n && 0 <= WordIn(q, v + n) < 1024 && (v + n) % 4 == 0
  {
  }

  lemma WordsMonotone(q: nat, a: nat, w: nat, b: nat)
    requires q * PGSIZE <= a <= w < b && a % 4 == 0 && b % 4 == 0
    ensures WordIn(q, a) < WordIn(q, b)
  {
  }

  lemma EndsDiffer(h: Heap, q: nat, v: nat, w: nat)
    requires Ok(h) && v in Ending(h.live, q) && w in Ending(h.live, q) && v != w && v in h.live && w in h.live
    ensures WordIn(q, v + h.live[v]) != WordIn(q, w + h.live[w])
  {
    hide Ok, WordIn, Ending;
    if v < w {
      EndsApart(h, q, v, w);
    } else {
      EndsApart(h, q, w, v);
    }
  }

  /** Numbers that differ pairwise and stay below a bound are no more than it. */
  lemma {:induction false} FewEnds(h: Heap, q: nat, ends: set<nat>, bound: nat)
    requires Ok(h) && ends <= Ending(h.live, q) && ends <= h.live.Keys
    requires forall v :: v in ends ==> 0 <= WordIn(q, v + h.live[v]) < bound
    ensures |ends| <= bound
    decreases bound
  {
    hide Ok, WordIn, Ending;
    if bound == 0 {
      assert ends == {};
    } else if v :| v in ends && WordIn(q, v + h.live[v]) == bound - 1 {
      var rest := ends - {v};
      forall w | w in rest
        ensures 0 <= WordIn(q, w + h.live[w]) < bound - 1
      {
        EndsDiffer(h, q, v, w);
      }
      FewEnds(h, q, rest, bound - 1);
    } else {
      FewEnds(h, q, ends, bound - 1);
    }
  }

  /** The reference word never comes near 32 bits. */
  lemma CountIsSmall(h: Heap, q: nat)
    requires Ok(h) && q in h.pages && !h.pages[q].cont
    ensures h.pages[q].ref <= 1026
  {
    hide Last, Page, Off, Spans, WordIn;
    assert PageOk(h, q);
    forall v | v in Ending(h.live, q)
      ensures 0 <= WordIn(q, v + h.live[v]) < 1024
    {
      assert BlockOk(h, v);
      EndWord(q, v, h.live[v]);
    }
    FewEnds(h, q, Ending(h.live, q), 1024);
  }

  // The address search

  /** isfree(q * PGSIZE, n + 4) in 32 bits; low holds the pages below the arena that are mapped. */
  ghost predicate Accepts(pages: map<nat, Pg>, low: set<nat>, q: nat, n: nat) {
    var end := (q * PGSIZE + n + 4) % WORD;
    end <= q * PGSIZE || forall p: nat :: q <= p <= Page(end - 1) ==> Vacant(pages, p) && p !in low
  }

  /** The page looked at after k unsuccessful rounds of the search; the pointer has 32 bits. */
  function Position(start: nat, k: nat): nat {
    if k == 0 then start
    else if Position(start, k - 1) + 1 == END then FIRST
    else (Position(start, k - 1) + 1) % TOP
  }

  lemma {:induction false} PositionShift(start: nat, k: nat, i: nat)
    ensures Position(start, k + i) == Position(Position(start, k), i)
  {
    if i > 0 {
      PositionShift(start, k, i - 1);
    }
  }

  lemma {:induction false} StaysInside(start: nat, k: nat)
    requires FIRST <= start < END
    ensures FIRST <= Position(start, k) < END
  {
    if k > 0 {
      StaysInside(start, k - 1);
    }
  }

  lemma {:induction false} CountsUp(start: nat, k: nat)
    requires start + k < TOP && !(start < END <= start + k)
    ensures Position(start, k) == start + k
  {
    if k > 0 {
      CountsUp(start, k - 1);
    }
  }

  /** A search that starts in the arena comes to every page of it. */
  lemma Covers(start: nat, q: nat) returns (k: nat)
    requires FIRST <= start < END && FIRST <= q < END
    ensures Position(start, k) == q
  {
    if q >= start {
      k := q - start;
      CountsUp(start, k);
    } else {
      CountsUp(start, END - 1 - start);
      assert Position(start, END - start) == FIRST;
      CountsUp(FIRST, q - FIRST);
      k := END - start + (q - FIRST);
      PositionShift(start, END - start, q - FIRST);
    }
  }

  /** One that starts at its end goes up to the top of the address space and on from address 0. */
  lemma FromEnd(k: nat)
    requires k < TOP - END + END
    ensures Position(END, k) == if k < TOP - END then END + k else k - (TOP - END)
  {
    if k < TOP - END {
      CountsUp(END, k);
    } else {
      CountsUp(END, TOP - END - 1);
      assert Position(END, TOP - END) == 0;
      CountsUp(0, k - (TOP - END));
      PositionShift(END, TOP - END, k - (TOP - END));
    }
  }

  /** The search looks only at pages of the arena if and only if it does not start at its end. */
  lemma SearchStaysIff(start: nat)
    requires FIRST <= start <= END
    ensures (forall k: nat :: FIRST <= Position(start, k) < END) <==> start < END
  {
    if start < END {
      forall k: nat
        ensures FIRST <= Position(start, k) < END
      {
        StaysInside(start, k);
      }
    } else {
      assert Position(start, 0) == END;
    }
  }

  /** In the arena and below it no sum wraps around. */
  lemma AcceptsBelow(pages: map<nat, Pg>, low: set<nat>, q: nat, n: nat)
    requires q < END && n < MAXMALLOC
    ensures Accepts(pages, low, q, n) <==>
              FreeRun(pages, q, n) && forall p: nat :: q <= p <= Last(q * PGSIZE, n) ==> p !in low
  {
    assert (q * PGSIZE + n + 4) % WORD == q * PGSIZE + n + 4;
  }

  lemma AcceptsInside(pages: map<nat, Pg>, low: set<nat>, q: nat, n: nat)
    requires FIRST <= q < END && n < MAXMALLOC && forall p :: p in low ==> p < FIRST
    ensures Accepts(pages, low, q, n) <==> FreeRun(pages, q, n)
  {
    hide Accepts, FreeRun;
    AcceptsBelow(pages, low, q, n);
  }

  /** The first page above the arena where the end of the chunk wraps around; TOP if it is too short for that. */
  function WrapPage(n: nat): int { TOP - (n + 4) / PGSIZE }

  /** Above the arena a page is rejected until the sum wraps around; then the loop of isfree is empty. */
  lemma AcceptsAbove(pages: map<nat, Pg>, low: set<nat>, q: nat, n: nat)
    requires END <= q < TOP && n < MAXMALLOC
    ensures Accepts(pages, low, q, n) <==> q >= WrapPage(n)
  {
    var sum := q * PGSIZE + n + 4;
    WrapsIff(q, n);
    if q >= WrapPage(n) {
      assert sum % WORD == sum - WORD;
    } else {
      assert sum % WORD == sum;
      assert Page(sum - 1) >= q by {
        Below(q * PGSIZE, sum - 1);
        Aligned(q);
      }
      assert !Vacant(pages, q);
    }
  }

  lemma WrapsIff(q: nat, n: nat)
    requires q < TOP && n < MAXMALLOC
    ensures q * PGSIZE + n + 4 >= WORD <==> q >= WrapPage(n)
    ensures q * PGSIZE + n + 4 < 2 * WORD && UTOP < WrapPage(n) <= TOP && (WrapPage(n) == TOP <==> n + 4 < PGSIZE)
  {
    var a := (n + 4) / PGSIZE;
    assert n + 4 == PGSIZE * a + (n + 4) % PGSIZE;
  }

  /** The search stops in round k. */
  ghost predicate FirstAt(pages: map<nat, Pg>, low: set<nat>, start: nat, k: nat, n: nat) {
    && Accepts(pages, low, Position(start, k), n)
    && forall j: nat :: j < k ==> !Accepts(pages, low, Position(start, j), n)
  }

  /** A chunk of a page or more ends the search from the end of the arena just below the top. */
  lemma StraysHigh(pages: map<nat, Pg>, low: set<nat>, n: nat, k: nat)
    requires n < MAXMALLOC && n + 4 >= PGSIZE && FirstAt(pages, low, END, k, n)
    ensures Position(END, k) == WrapPage(n)
  {
    hide Accepts, Position;
    WrapsIff(0, n);
    var w := WrapPage(n) - END;
    FromEnd(w);
    AcceptsAbove(pages, low, WrapPage(n), n);
    if k < w {
      FromEnd(k);
      AcceptsAbove(pages, low, END + k, n);
    }
  }

  /** A smaller one at the lowest page that is not mapped, if there is one below the arena. */
  ghost predicate Lowest(low: set<nat>, p: nat) {
    p < FIRST && p !in low && forall q: nat :: q < p ==> q in low
  }

  lemma LowAccepts(pages: map<nat, Pg>, low: set<nat>, q: nat, n: nat)
    requires q < FIRST && n + 4 < PGSIZE && forall p :: p in pages ==> FIRST <= p < END
    ensures Accepts(pages, low, q, n) <==> q !in low
    ensures q !in low ==> FreeRun(pages, q, n) && Last(q * PGSIZE, n) == q
  {
    Aligned(q);
    assert Last(q * PGSIZE, n) == q;
    AcceptsBelow(pages, low, q, n);
  }

  lemma HighRejects(pages: map<nat, Pg>, low: set<nat>, n: nat, j: nat)
    requires n + 4 < PGSIZE && j < TOP - END
    ensures !Accepts(pages, low, Position(END, j), n)
  {
    hide Accepts, Position;
    FromEnd(j);
    WrapsIff(0, n);
    AcceptsAbove(pages, low, END + j, n);
  }

  lemma StraysLow(pages: map<nat, Pg>, low: set<nat>, n: nat, k: nat, p: nat)
    requires n + 4 < PGSIZE && FirstAt(pages, low, END, k, n) && Lowest(low, p) && forall q :: q in pages ==> FIRST <= q < END
    ensures Position(END, k) == p
  {
    hide Accepts, Position;
    var w := TOP - END + p;
    FromEnd(w);
    LowAccepts(pages, low, p, n);
    if k < TOP - END {
      HighRejects(pages, low, n, k);
    } else if k < w {
      FromEnd(k);
      LowAccepts(pages, low, k - (TOP - END), n);
    }
  }

  /** With every page below the arena mapped, it re-enters the arena at its beginning. */
  lemma ComesBack(pages: map<nat, Pg>, low: set<nat>, n: nat, k: nat)
    requires n + 4 < PGSIZE && (forall p: nat :: p < FIRST ==> p in low) && forall q :: q in pages ==> FIRST <= q < END
    requires Accepts(pages, low, Position(END, k), n)
    ensures FIRST <= Position(END, k) < END
  {
    hide Accepts, Position;
    var w := TOP - END + FIRST;
    if k < TOP - END {
      HighRejects(pages, low, n, k);
    } else if k < w {
      FromEnd(k);
      LowAccepts(pages, low, k - (TOP - END), n);
    } else {
      FromEnd(w);
      PositionShift(END, w, k - w);
      StaysInside(FIRST, k - w);
    }
  }

  /** From the end of the arena, the search goes astray unless it comes back. */
  ghost predicate Astray(low: set<nat>, n: nat) {
    n + 4 >= PGSIZE || exists p: nat :: p < FIRST && p !in low
  }

  lemma {:induction false} LowestBelow(low: set<nat>, p: nat) returns (q: nat)
    requires p < FIRST && p !in low
    ensures Lowest(low, q)
    decreases p
  {
    if r: nat :| r < p && r !in low {
      q := LowestBelow(low, r);
    } else {
      q := p;
    }
  }

  // The code

  class Arena {
    var mptr: nat
    var pages: map<nat, Pg>
    var low: set<nat>                     // pages mapped below the arena, by others
    ghost var live: map<nat, nat>
    ghost var leaked: multiset<nat>

    ghost function H(): Heap
      reads this
    {
      Heap(mptr, pages, live, leaked)
    }

    /** Before the first call the pointer is null and nothing is mapped. */
    ghost predicate Valid()
      reads this
    {
      && (forall p :: p in low ==> p < FIRST)
      && if mptr == 0 then pages == map[] && live == map[] && leaked == multiset{} else Ok(H())
    }

    constructor (low: set<nat>)
      requires forall p :: p in low ==> p < FIRST
      ensures Valid() && live == map[] && leaked == multiset{} && mptr == 0 && this.low == low
    {
      mptr, pages, live, leaked := 0, map[], map[], multiset{};
      this.low := low;
    }

    /** isfree(v, n + 4) for a page-aligned v. */
    method IsFree(v: nat, n: nat) returns (r: bool)
      requires Off(v) == 0 && v < WORD && n < MAXMALLOC
      ensures r <==> Accepts(pages, low, Page(v), n)
    {
      PageStart(v);
      ghost var first := Page(v);
      var end := (v + n + 4) % WORD;
      var va := v;
      while va < end
        invariant va % PGSIZE == 0 && va >= v && (va == v || va <= END * PGSIZE)
        invariant forall p: nat :: first <= p < Page(va) ==> Vacant(pages, p) && p !in low
        decreases end - va
      {
        Within(v, end, va);
        if Page(va) >= END || Page(va) in pages || Page(va) in low {
          assert !(Vacant(pages, Page(va)) && Page(va) !in low);
          return false;
        }
        va := (va + PGSIZE) % WORD;
      }
      if v < end {
        Beyond(end, va);
      }
      return true;
    }

    /** The search for address space: it stops at the first page that is accepted, and gives up, after
        the second time around the end, exactly when it would never find one. */
    method Search(n: nat) returns (found: bool, ghost wraps: nat, ghost k: nat)
      requires Off(mptr) == 0 && mptr < WORD && n < MAXMALLOC
      modifies this`mptr
      ensures Off(mptr) == 0 && mptr < WORD && wraps <= 2 && (found <==> wraps < 2)
      ensures found ==> Page(mptr) == Position(Page(old(mptr)), k) && FirstAt(pages, low, Page(old(mptr)), k, n)
      ensures !found ==> mptr == FIRST * PGSIZE && forall j: nat :: !Accepts(pages, low, Position(Page(old(mptr)), j), n)
    {
      hide Accepts;
      var nwrap := 0;
      ghost var start := Page(mptr);
      wraps, k, found := 0, 0, true;
      while true
        invariant nwrap == wraps < 2 && found
        invariant Off(mptr) == 0 && mptr < WORD && Page(mptr) == Position(start, k)
        invariant forall j: nat :: j < k ==> !Accepts(pages, low, Position(start, j), n)
        invariant wraps == 1 ==> FIRST <= Page(mptr) < END
        invariant wraps == 1 ==> forall q: nat :: FIRST <= q < Page(mptr) ==> !Accepts(pages, low, q, n)
        decreases 2 - nwrap, if Page(mptr) < END then END - Page(mptr) else TOP - Page(mptr) + END
      {
        var free := IsFree(mptr, n);
        if free {
          break;
        }
        NextPage(mptr);
        mptr := (mptr + PGSIZE) % WORD;
        k := k + 1;
        if mptr == END * PGSIZE {
          mptr := FIRST * PGSIZE;
          nwrap := nwrap + 1;
          wraps := nwrap;
          if nwrap == 2 {
            found := false;
            NeverAccepted(pages, low, start, k, n);
            return;
          }
        }
      }
    }

    /** free below its checks: unmap the continued pages, drop a reference to the page after them. */
    method Drop(v: nat, ghost last: nat)
      requires FIRST <= Page(v) <= last < END && Spans(pages, Page(v), last) && pages[last].ref > 0
      modifies this`pages
      ensures pages == Unref(old(pages), Page(v), last)
    {
      hide Page;
      var c := Page(v);
      while pages[c].cont
        invariant Page(v) <= c <= last && Spans(pages, c, last) && pages[last] == old(pages)[last]
        invariant pages == map q | q in old(pages) && !(Page(v) <= q < c) :: old(pages)[q]
        decreases last - c
      {
        pages := pages - {c};
        c := c + 1;
      }
      pages := pages[c := Pg(false, pages[c].ref - 1)];
      if pages[c].ref == 0 {
        pages := pages - {c};
      }
    }

    method Free(v: nat)
      requires Valid() && (v == 0 || v in live)
      modifies this`pages, this`live
      ensures Valid() && live == old(live) - {v}
    {
      hide Page, Off, Last, PointerOk, AroundOk, Spans, Unref, Ending;
      if v == 0 {
        NotNull(H());
        return;
      }
      ghost var h := H();
      assert Ok(h);
      ReleaseOk(h, v);
      LastCounts(h, v);
      Drop(v, Last(v, live[v]));
      live := live - {v};
      assert H() == Release(h, v);
    }

    /** The allocation loop: all pages of the chunk, or none; end is the offset after the last page. */
    method AllocPages(n: nat, avail: nat) returns (ok: bool, end: nat)
      requires Off(mptr) == 0 && n < MAXMALLOC && (Page(mptr) < END || UTOP <= Page(mptr))
      requires if Page(mptr) < END then FreeRun(pages, Page(mptr), n) else forall p :: p in pages ==> p < END
      modifies this`pages
      ensures ok <==> Page(mptr) < END && avail >= Last(mptr, n) - Page(mptr) + 1
      ensures ok ==> end >= 4 && Page(mptr + end - 4) == Last(mptr, n)
      ensures pages == if ok then Fresh(old(pages), Page(mptr), Last(mptr, n) + 1, Last(mptr, n)) else old(pages)
    {
      hide Fresh, Page, Off, Last, FreeRun;
      ghost var first, last := Page(mptr), Last(mptr, n);
      LastAfter(mptr, n);
      if first < END {
        RunVacant(pages, mptr, n);
      }
      FreshNone(pages, first, last);
      var i, left := 0, avail;
      ghost var k := 0;
      while i < n + 4
        invariant i == k * PGSIZE && first + k <= last + 1 && left == avail - k
        invariant k > 0 ==> i - PGSIZE < n + 4 && first < END
        invariant pages == Fresh(old(pages), first, first + k, last)
        decreases n + 4 - i
      {
        ChunkPage(mptr, n, k);
        var cont := i + PGSIZE < n + 4;
        if left == 0 || Page(mptr + i) >= UTOP {
          Undo(i, k, old(pages), first, last);
          return false, 0;
        }
        FreshStep(old(pages), first, first + k, last);
        pages := pages[Page(mptr + i) := Pg(cont, 0)];
        i, left := i + PGSIZE, left - 1;
        k := k + 1;
      }
      ChunkEnd(mptr, n, k);
      return true, i;
    }

    /** Page allocation failed at offset i: unmap from there down, which undoes the ones before it. */
    method Undo(i: nat, ghost k: nat, ghost was: map<nat, Pg>, ghost first: nat, ghost last: nat)
      requires Off(mptr) == 0 && first == Page(mptr) && i == k * PGSIZE && first + k <= last
      requires pages == Fresh(was, first, first + k, last)
      requires forall p: nat :: first <= p <= last ==> p !in was
      modifies this`pages
      ensures pages == was
    {
      hide Fresh, Page, Off;
      var j: int := i;
      ghost var m: int := k;
      while j >= 0
        invariant j == m * PGSIZE && -1 <= m <= k
        invariant pages == Fresh(was, first, first + (if m == k then k else m + 1), last)
      {
        OffsetPage(mptr, m);
        FreshBack(was, first, first + m, last);
        pages := pages - {Page(mptr + j)};
        j := j - PGSIZE;
        m := m - 1;
      }
      FreshNone(was, first, last);
    }

    /** malloc(n); avail says how many page allocations would succeed during the call.  It leaves the
        arena if and only if the pointer has to step off the arena's last page and the search from there
        goes astray; in every other case the invariant is kept. */
    method Malloc(n: nat, avail: nat) returns (v: nat)
      requires Valid() && n < WORD && RoundUp4(n) > 0
      modifies this`mptr, this`pages, this`live, this`leaked
      ensures FIRST * PGSIZE <= mptr < END * PGSIZE <==> !Leaves(old(mptr), low, RoundUp4(n))
      ensures !Leaves(old(mptr), low, RoundUp4(n)) ==>
                && Valid()
                && (v != 0 ==> n <= RoundUp4(n) < MAXMALLOC && v !in old(live) && live == old(live)[v := RoundUp4(n)])
                && (v == 0 ==> live == old(live))
                && leaked == (if v != 0 && RoundUp4(n) % PGSIZE == 0 then old(leaked) + multiset{Last(v, RoundUp4(n))} else old(leaked))
                && (v != 0 ==> Served(old(H()), H(), low, RoundUp4(n), v))
                && (v == 0 && RoundUp4(n) < MAXMALLOC ==> pages == Opened(old(H())).pages)
                && (v == 0 ==> RoundUp4(n) >= MAXMALLOC || NoRun(pages, RoundUp4(n)) || avail < (RoundUp4(n) + 3) / PGSIZE + 1)
      ensures Leaves(old(mptr), low, RoundUp4(n)) ==>
                && END - 1 in old(pages)
                && Strayed(old(H()).(mptr := END * PGSIZE, pages := Unref(old(pages), END - 1, END - 1)), H(), low, RoundUp4(n), avail, v)
    {
      hide Page, Off, Last, Ok, FitsHere, RoundUp4, NoRun, Astray, Strayed, Unref, FoundAt, Place, Append, Took, Served, Opened;
      ghost var h0 := H();
      Rounded(n);
      NotNull(H());
      if mptr == 0 {
        mptr := FIRST * PGSIZE;
        FirstCall(H());
      }
      ZeroAligned();
      PointerBounds(H());
      var m := RoundUp4(n);
      if m >= MAXMALLOC {
        return 0;
      }
      if Off(mptr) != 0 {
        if FitsHere(mptr, m) {
          v := Grow(m);
          ServedHere(h0, H(), low, m, v);
          PointerBounds(H());
          return;
        }
        PointerPage(H());
        StepOff();
      } else {
        Repoint(H(), FIRST * PGSIZE);
      }
      PageStart(mptr);
      ghost var h := H();
      OpenedIs(h0, h);
      v := Take(m, avail);
      if h.mptr == END * PGSIZE && Astray(low, m) {
        StrayedOut(h, H(), low, m, avail, v);
      } else {
        TookServes(h0, h, H(), low, m, avail, v);
        PointerBounds(H());
      }
    }

    /** The chunk goes into the rest of the current page. */
    method Grow(n: nat) returns (v: nat)
      requires Ok(H()) && mptr != 0 && Off(mptr) != 0 && n > 0 && n % 4 == 0 && FitsHere(mptr, n)
      modifies this`mptr, this`pages, this`live
      ensures mptr != 0 && Ok(H()) && v != 0 && v !in old(live) && live == old(live)[v := n] && leaked == old(leaked) && n % PGSIZE != 0
      ensures Page(old(mptr)) in old(pages) && v == old(mptr) && H() == Append(old(H()), n)
    {
      hide Page, Off, Ok, FitsHere;
      PointerPage(H());
      AppendOk(H(), n);
      SmallChunk(mptr, n);
      ghost var h := H();
      pages := pages[Page(mptr) := pages[Page(mptr)].(ref := pages[Page(mptr)].ref + 1)];
      v := mptr;
      mptr := mptr + n;
      live := live[v := n];
      assert H() == Append(h, n);
    }

    /** Stop working on this page: drop the pointer's reference and go on to the next. */
    method StepOff()
      requires Ok(H()) && Off(mptr) != 0
      modifies this`pages, this`mptr
      ensures Off(mptr) == 0 && Page(mptr) == Page(old(mptr)) + 1
      ensures Page(old(mptr)) in old(pages) && pages == Unref(old(pages), Page(old(mptr)), Page(old(mptr)))
      ensures Ok(H().(mptr := FIRST * PGSIZE)) && mptr != 0
    {
      hide Page, Off, Ok, Unref;
      PointerPage(H());
      ghost var h := H();
      MoveOnOk(h);
      Aligned(Page(mptr) + 1);
      Drop(mptr, Page(mptr));
      mptr := (Page(mptr) + 1) * PGSIZE;
      assert H().(mptr := FIRST * PGSIZE) == MoveOn(h);
    }

    /** Find address space for the chunk, map it, and leave its last page open. */
    method Take(n: nat, avail: nat) returns (v: nat)
      requires Off(mptr) == 0 && FIRST <= Page(mptr) <= END && 0 < n < MAXMALLOC && n % 4 == 0
      requires Ok(H().(mptr := FIRST * PGSIZE)) && forall p :: p in low ==> p < FIRST
      modifies this`mptr, this`pages, this`live, this`leaked
      ensures !(Page(old(mptr)) == END && Astray(low, n)) ==> Took(old(H()), H(), low, n, avail, v)
      ensures Page(old(mptr)) == END && Astray(low, n) ==> Strayed(old(H()), H(), low, n, avail, v)
    {
      hide Page, Off, Last, Ok, FreeRun, Fresh, Mapped, Accepts, Position, FirstAt, FoundAt, Astray, NoRun, Strayed, Lowest, Place, Took;
      ghost var h0 := H();
      PageStart(mptr);
      ArenaPages(h0);
      var found, _, k := Search(n);
      ghost var h := H();
      if !found {
        NotFound(h0, low, n);
        Aligned(FIRST);
        TookNothing(h0, H(), low, n, avail);
        return 0;
      }
      Landed(h0, low, n, k, mptr);
      ghost var astray := Page(h0.mptr) == END && Astray(low, n);
      LowestLow(low, Page(mptr));
      ChunkCount(mptr, n);
      var ok, end := AllocPages(n, avail);
      if !ok {
        if astray {
          StrayEmpty(h0, H(), low, n, avail);
        } else {
          TookNothing(h0, H(), low, n, avail);
        }
        return 0;
      }
      LastAfter(mptr, n);
      FreshMapped(h.pages, Page(mptr), Last(mptr, n));
      pages := pages[Page(mptr + end - 4) := Pg(false, 2)];
      v := mptr;
      mptr := mptr + n;
      if astray {
        MappedOne(h.pages, Page(v));
        StrayMapped(h0, H(), low, n, avail, v);
      } else {
        live := live[v := n];
        leaked := if n % PGSIZE == 0 then leaked + multiset{Last(v, n)} else leaked;
        Placed(h, H(), n);
        TookPages(h0, H(), low, n, avail, v, k);
      }
    }

    /** Nothing but calls of malloc leads there: 128 large blocks fill the arena to eight bytes before
        its end, and the next small one leaves it, while some page below the arena is unmapped. */
    method FillThenLeave(p: nat) returns (v: nat)
      requires Valid() && mptr == 0 && p < FIRST && p !in low
      modifies this`mptr, this`pages, this`live, this`leaked
      ensures !(FIRST * PGSIZE <= mptr < END * PGSIZE) && live == Stretches(128)
    {
      hide Page, Off, Ok, Served, Leaves, NoRun, RoundUp4, Stretched, Stretches;
      StretchStart(H());
      for k := 0 to 128
        invariant Valid() && Stretched(H(), k) && live == Stretches(k)
      {
        ghost var h := H();
        StretchRoom(h, low, k);
        var w := Malloc(STRETCH, 256);
        StretchServed(h, H(), low, k, w, 256);
      }
      AtTheEnd(H(), low, p);
      v := Malloc(8, 1);
    }
  }

  /** A block that fills 256 pages but for four bytes and its reference word. */
  const STRETCH: nat := 0xF_FFF8

  /** The first k of them, one after the other. */
  ghost function Stretches(k: nat): map<nat, nat> {
    if k == 0 then map[] else Stretches(k - 1)[(FIRST + 256 * (k - 1)) * PGSIZE := STRETCH]
  }

  /** After k of them: the pointer is eight bytes before the next free page, and all pages are below it. */
  ghost predicate Stretched(h: Heap, k: nat) {
    && h.mptr == (if k == 0 then 0 else (FIRST + 256 * k) * PGSIZE - 8)
    && forall q :: q in h.pages ==> q < FIRST + 256 * k
  }

  lemma StretchStart(h: Heap)
    requires h == Heap(0, map[], map[], multiset{})
    ensures Stretched(h, 0) && Stretches(0) == map[]
  {
  }

  lemma StretchBounds(k: nat)
    requires 0 < k
    ensures var mptr := (FIRST + 256 * k) * PGSIZE - 8;
            && Page(mptr) == FIRST + 256 * k - 1 && Off(mptr) == 0xFF8 && !FitsHere(mptr, STRETCH) && !FitsHere(mptr, 8)
    ensures Last((FIRST + 256 * (k - 1)) * PGSIZE, STRETCH) == FIRST + 256 * k - 1
    ensures RoundUp4(STRETCH) == STRETCH && RoundUp4(8) == 8 && (STRETCH + 3) / PGSIZE + 1 == 256
  {
  }

  lemma StretchOpened(h: Heap, k: nat)
    requires Stretched(h, k) && k < 128 && (h.mptr == 0 || Ok(h))
    ensures var t := Opened(h);
            && Page(t.mptr) == FIRST + 256 * k && t.live == h.live && FreeRun(t.pages, FIRST + 256 * k, STRETCH)
            && forall q :: q in t.pages ==> q < FIRST + 256 * k
    ensures !(Off(h.mptr) != 0 && FitsHere(h.mptr, STRETCH))
  {
    hide Ok;
    StretchBounds(k + 1);
    if k > 0 {
      StretchBounds(k);
      PointerPage(h);
    }
  }

  lemma StretchRoom(h: Heap, low: set<nat>, k: nat)
    requires Stretched(h, k) && k < 128
    ensures !Leaves(h.mptr, low, RoundUp4(STRETCH)) && RoundUp4(STRETCH) == STRETCH
  {
    StretchBounds(k + 1);
    if k > 0 {
      StretchBounds(k);
    }
  }

  /** The next one is served, right behind the others. */
  lemma StretchServed(h: Heap, t: Heap, low: set<nat>, k: nat, v: nat, avail: nat)
    requires Stretched(h, k) && k < 128 && (h.mptr == 0 || Ok(h)) && avail >= 256 && forall p :: p in low ==> p < FIRST
    requires RoundUp4(STRETCH) == STRETCH && h.live == Stretches(k)
    requires v != 0 ==> Served(h, t, low, STRETCH, v)
    requires v == 0 ==> t.pages == Opened(h).pages && (NoRun(t.pages, STRETCH) || avail < (STRETCH + 3) / PGSIZE + 1)
    ensures Stretched(t, k + 1) && t.live == Stretches(k + 1) && v == (FIRST + 256 * k) * PGSIZE
  {
    hide Ok, Opened, Page, Off, FitsHere, FreeRun, Accepts, Last;
    var q := FIRST + 256 * k;
    StretchOpened(h, k);
    StretchBounds(k + 1);
    var o := Opened(h);
    AcceptsInside(o.pages, low, q, STRETCH);
    SomeRun(o.pages, q, STRETCH);
    FoundFirst(o.pages, low, q, v, STRETCH);
    StretchPlaced(o.(mptr := v), q, k);
  }

  lemma SomeRun(pages: map<nat, Pg>, q: nat, n: nat)
    requires FIRST <= q < END && FreeRun(pages, q, n)
    ensures !NoRun(pages, n)
  {
  }

  lemma FoundFirst(pages: map<nat, Pg>, low: set<nat>, start: nat, v: nat, n: nat)
    requires FoundAt(pages, low, start, v, n) && Accepts(pages, low, start, n)
    ensures v == start * PGSIZE
  {
    hide Accepts;
    assert Position(start, 0) == start;
  }

  lemma StretchPlaced(h: Heap, q: nat, k: nat)
    requires q == FIRST + 256 * k && h.mptr == q * PGSIZE && forall p :: p in h.pages ==> p < q
    ensures Stretched(Place(h, STRETCH), k + 1)
  {
    StretchBounds(k + 1);
  }

  lemma AtTheEnd(h: Heap, low: set<nat>, p: nat)
    requires Stretched(h, 128) && p < FIRST && p !in low
    ensures Leaves(h.mptr, low, RoundUp4(8)) && RoundUp4(8) > 0
  {
    StretchBounds(128);
  }

  /** The state from which malloc searches for pages. */
  function Opened(h: Heap): Heap {
    if h.mptr == 0 then h.(mptr := FIRST * PGSIZE)
    else if Off(h.mptr) != 0 && Page(h.mptr) in h.pages then
      h.(mptr := (Page(h.mptr) + 1) * PGSIZE, pages := Unref(h.pages, Page(h.mptr), Page(h.mptr)))
    else h
  }

  /** What a successful malloc does: the rest of the current page, or the first accepted pages. */
  ghost predicate Served(h: Heap, t: Heap, low: set<nat>, n: nat, v: nat) {
    if Off(h.mptr) != 0 && FitsHere(h.mptr, n) then
      Page(h.mptr) in h.pages && v == h.mptr && t == Append(h, n)
    else
      FoundAt(Opened(h).pages, low, Page(Opened(h).mptr), v, n) && t == Place(Opened(h).(mptr := v), n)
  }

  /** What the search and the page allocation lead to. */
  ghost predicate Took(h: Heap, t: Heap, low: set<nat>, n: nat, avail: nat, v: nat) {
    && t.mptr != 0 && Ok(t)
    && if v == 0 then t == h.(mptr := t.mptr) && (NoRun(h.pages, n) || avail < (n + 3) / PGSIZE + 1)
       else v !in h.live && FoundAt(h.pages, low, Page(h.mptr), v, n) && t == Place(h.(mptr := v), n)
  }

  lemma TookNothing(h: Heap, t: Heap, low: set<nat>, n: nat, avail: nat)
    requires t == h.(mptr := t.mptr) && Ok(h.(mptr := FIRST * PGSIZE)) && Off(t.mptr) == 0 && FIRST <= Page(t.mptr) < END
    requires NoRun(h.pages, n) || avail < (n + 3) / PGSIZE + 1
    ensures Took(h, t, low, n, avail, 0)
  {
    hide Ok, Page, Off, NoRun;
    ZeroAligned();
    Repoint(h.(mptr := FIRST * PGSIZE), t.mptr);
  }

  lemma TookPages(h: Heap, t: Heap, low: set<nat>, n: nat, avail: nat, v: nat, k: nat)
    requires t == Place(h.(mptr := v), n) && Ok(t) && v !in h.live && v != 0
    requires FirstAt(h.pages, low, Page(h.mptr), k, n) && Off(v) == 0 && Page(v) == Position(Page(h.mptr), k)
    ensures Took(h, t, low, n, avail, v)
  {
    hide Ok, FirstAt, Page, Off, Last, Mapped, Position, FoundAt;
    PageStart(v);
    FoundHere(h.pages, low, Page(h.mptr), v, n, k);
  }

  lemma ServedHere(h: Heap, t: Heap, low: set<nat>, n: nat, v: nat)
    requires Off(h.mptr) != 0 && FitsHere(h.mptr, n) && Page(h.mptr) in h.pages && v == h.mptr && t == Append(h, n)
    ensures Served(h, t, low, n, v)
  {
  }

  lemma OpenedIs(h: Heap, t: Heap)
    requires h.mptr == 0 ==> t == h.(mptr := FIRST * PGSIZE)
    requires h.mptr != 0 && Off(h.mptr) == 0 ==> t == h
    requires Off(h.mptr) != 0 ==>
               && Page(h.mptr) in h.pages && Off(t.mptr) == 0 && Page(t.mptr) == Page(h.mptr) + 1
               && t == h.(mptr := t.mptr, pages := Unref(h.pages, Page(h.mptr), Page(h.mptr)))
    ensures t == Opened(h)
  {
    hide Unref;
    if Off(t.mptr) == 0 {
      PageStart(t.mptr);
    }
  }

  /** From the state it opened to what malloc promises. */
  lemma TookServes(h0: Heap, h: Heap, t: Heap, low: set<nat>, n: nat, avail: nat, v: nat)
    requires h == Opened(h0) && Took(h, t, low, n, avail, v) && !(Off(h0.mptr) != 0 && FitsHere(h0.mptr, n))
    ensures t.mptr != 0 && Ok(t)
    ensures v != 0 ==> v !in h0.live && t.live == h0.live[v := n] && Served(h0, t, low, n, v)
    ensures t.leaked == if v != 0 && n % PGSIZE == 0 then h0.leaked + multiset{Last(v, n)} else h0.leaked
    ensures v == 0 ==> t.live == h0.live && t.pages == h.pages && (NoRun(t.pages, n) || avail < (n + 3) / PGSIZE + 1)
  {
    hide Ok, FoundAt, NoRun, Off, FitsHere, Last, Mapped, Unref, Page;
  }

  /** The search from page start ends at address v. */
  ghost predicate FoundAt(pages: map<nat, Pg>, low: set<nat>, start: nat, v: nat, n: nat) {
    exists k: nat :: FirstAt(pages, low, start, k, n) && v == Position(start, k) * PGSIZE
  }

  lemma FoundHere(pages: map<nat, Pg>, low: set<nat>, start: nat, v: nat, n: nat, k: nat)
    requires FirstAt(pages, low, start, k, n) && v == Position(start, k) * PGSIZE
    ensures FoundAt(pages, low, start, v, n)
  {
  }

  lemma LowestLow(low: set<nat>, p: nat)
    ensures Lowest(low, p) ==> p < FIRST
  {
  }

  lemma Placed(h: Heap, t: Heap, n: nat)
    requires t == Heap(h.mptr + n, Mapped(h.pages, Page(h.mptr), Last(h.mptr, n)), h.live[h.mptr := n],
                       if n % PGSIZE == 0 then h.leaked + multiset{Last(h.mptr, n)} else h.leaked)
    ensures t == Place(h, n)
  {
  }

  /** malloc's pointer is in the last page of the arena, the chunk does not fit there, and the search
      that then starts at the end of the arena does not come back. */
  ghost predicate Leaves(mptr: nat, low: set<nat>, n: nat) {
    Off(mptr) != 0 && Page(mptr) == END - 1 && n < MAXMALLOC && !FitsHere(mptr, n) && Astray(low, n)
  }

  /** Where it ends.  A chunk of a page or more: just below the top of the address space, where nothing
      can be mapped; a smaller one: a page below the arena, page 0 if that is unmapped, so that the call
      returns 0 although a page was mapped. */
  ghost predicate Strayed(h: Heap, t: Heap, low: set<nat>, n: nat, avail: nat, v: nat) {
    && t.live == h.live && t.leaked == h.leaked && !(FIRST * PGSIZE <= t.mptr < END * PGSIZE)
    && if n + 4 >= PGSIZE then v == 0 && t.pages == h.pages && t.mptr == WrapPage(n) * PGSIZE
       else exists p: nat :: Lowest(low, p) && StrayedTo(h, t, n, avail, v, p)
  }

  ghost predicate StrayedTo(h: Heap, t: Heap, n: nat, avail: nat, v: nat, p: nat) {
    if avail == 0 then v == 0 && t.pages == h.pages && t.mptr == p * PGSIZE
    else v == p * PGSIZE && t.pages == h.pages[p := Pg(false, 2)] && t.mptr == p * PGSIZE + n
  }

  /** Nowhere in the arena is there room for a chunk. */
  ghost predicate NoRun(pages: map<nat, Pg>, n: nat) {
    forall q: nat :: FIRST <= q < END ==> !FreeRun(pages, q, n)
  }

  /** The pages first..upto-1 of a chunk that ends in page last, as sys_page_alloc leaves them. */
  function Fresh(pages: map<nat, Pg>, first: nat, upto: nat, last: nat): map<nat, Pg> {
    pages + map q: nat | first <= q < upto :: FreshPage(q, last)
  }

  function FreshPage(q: nat, last: nat): Pg {
    Pg(q < last, 0)
  }

  lemma FreshNone(pages: map<nat, Pg>, first: nat, last: nat)
    ensures Fresh(pages, first, first, last) == pages
  {
  }

  lemma FreshStep(pages: map<nat, Pg>, first: nat, upto: nat, last: nat)
    requires first <= upto
    ensures Fresh(pages, first, upto + 1, last) == Fresh(pages, first, upto, last)[upto := Pg(upto < last, 0)]
  {
  }

  lemma FreshBack(pages: map<nat, Pg>, first: nat, q: nat, last: nat)
    requires first <= q && q !in pages
    ensures Fresh(pages, first, q + 1, last) - {q} == Fresh(pages, first, q, last) == Fresh(pages, first, q, last) - {q}
  {
  }

  lemma FreshMapped(pages: map<nat, Pg>, first: nat, last: nat)
    requires first <= last
    ensures Fresh(pages, first, last + 1, last)[last := Pg(false, 2)] == Mapped(pages, first, last)
  {
  }

  lemma RunVacant(pages: map<nat, Pg>, mptr: nat, n: nat)
    requires Off(mptr) == 0 && FreeRun(pages, Page(mptr), n)
    ensures Page(mptr) <= Last(mptr, n)
    ensures forall p: nat :: Page(mptr) <= p <= Last(mptr, n) ==> p !in pages
  {
    PageStart(mptr);
    forall p: nat | Page(mptr) <= p <= Last(mptr, n)
      ensures p !in pages
    {
      assert Vacant(pages, p);
    }
  }

  lemma OffsetPage(mptr: nat, k: nat)
    requires Off(mptr) == 0
    ensures Page(mptr + k * PGSIZE) == Page(mptr) + k
  {
  }

  lemma ChunkPage(mptr: nat, n: nat, k: nat)
    requires Off(mptr) == 0 && k * PGSIZE < n + 4
    ensures Page(mptr + k * PGSIZE) == Page(mptr) + k <= Last(mptr, n)
    ensures k * PGSIZE + PGSIZE < n + 4 <==> Page(mptr) + k < Last(mptr, n)
  {
  }

  lemma ChunkEnd(mptr: nat, n: nat, k: nat)
    requires Off(mptr) == 0 && k > 0 && (k - 1) * PGSIZE < n + 4 <= k * PGSIZE
    ensures Page(mptr) + k == Last(mptr, n) + 1 && Page(mptr + k * PGSIZE - 4) == Last(mptr, n)
  {
  }

  lemma ChunkCount(mptr: nat, n: nat)
    requires Off(mptr) == 0
    ensures Last(mptr, n) - Page(mptr) == (n + 3) / PGSIZE
  {
  }

  lemma SmallChunk(mptr: nat, n: nat)
    requires Off(mptr) != 0 && FitsHere(mptr, n) && n > 0
    ensures n % PGSIZE != 0
  {
  }

  lemma Rounded(n: nat)
    requires n < WORD
    ensures RoundUp4(n) % 4 == 0 && (RoundUp4(n) > 0 ==> n <= RoundUp4(n))
  {
  }

  lemma FirstCall(h: Heap)
    requires h == Heap(FIRST * PGSIZE, map[], map[], multiset{})
    ensures Ok(h) && Off(h.mptr) == 0
  {
    Aligned(FIRST);
  }

  lemma PointerPage(h: Heap)
    requires Ok(h) && Off(h.mptr) != 0
    ensures FIRST <= Page(h.mptr) < END && h.mptr % 4 == 0
    ensures Spans(h.pages, Page(h.mptr), Page(h.mptr)) && h.pages[Page(h.mptr)].ref > 0
  {
    assert PageOk(h, Page(h.mptr));
  }

  lemma NotNull(h: Heap)
    ensures Ok(h) ==> h.mptr != 0 && 0 !in h.live
  {
  }

  lemma LastCounts(h: Heap, v: nat)
    requires Ok(h) && v in h.live
    ensures var last := Last(v, h.live[v]);
            FIRST <= Page(v) <= last < END && Spans(h.pages, Page(v), last) && h.pages[last].ref > 0
  {
    assert BlockOk(h, v);
    assert PageOk(h, Last(v, h.live[v]));
  }

  lemma AlignedPointer(mptr: nat)
    requires Off(mptr) == 0 && FIRST <= Page(mptr)
    ensures mptr != 0 && mptr % 4 == 0
  {
    PageStart(mptr);
    Aligned(Page(mptr));
  }

  /** A page-aligned pointer may be moved to any other page. */
  lemma Repoint(h: Heap, mptr: nat)
    requires Ok(h) && Off(h.mptr) == 0 && Off(mptr) == 0 && FIRST <= Page(mptr) < END
    ensures Ok(h.(mptr := mptr)) && mptr != 0 && mptr % 4 == 0
  {
    hide Last, Ending, Spans, Page, Off;
    AlignedPointer(mptr);
    var t := h.(mptr := mptr);
    forall v | v in h.live
      ensures BlockOk(t, v)
    {
      assert BlockOk(h, v);
    }
    forall v, w | v in h.live && w in h.live
      ensures OrderOk(t, v, w)
    {
      assert OrderOk(h, v, w);
    }
    forall q: nat
      ensures PageOk(t, q)
    {
      assert PageOk(h, q);
    }
  }

  lemma PageStart(v: nat)
    requires Off(v) == 0
    ensures Page(v) * PGSIZE == v
  {
  }

  lemma Within(v: nat, end: nat, va: nat)
    requires Off(v) == 0 && va % PGSIZE == 0 && v <= va < end <= WORD
    ensures Page(v) <= Page(va) <= Page(end - 1) && (va < END * PGSIZE ==> Page((va + PGSIZE) % WORD) == Page(va) + 1)
    ensures va >= END * PGSIZE ==> Page(va) >= END
    ensures va < END * PGSIZE ==> (va + PGSIZE) % WORD == va + PGSIZE <= END * PGSIZE
  {
  }

  lemma Beyond(end: nat, va: nat)
    requires va % PGSIZE == 0 && 0 < end <= va
    ensures Page(end - 1) < Page(va)
  {
  }

  /** The pointer one page on, in 32 bits. */
  lemma NextPage(mptr: nat)
    requires Off(mptr) == 0 && mptr < WORD
    ensures Page(mptr) < TOP && Off((mptr + PGSIZE) % WORD) == 0 && Page((mptr + PGSIZE) % WORD) == (Page(mptr) + 1) % TOP
    ensures (mptr + PGSIZE) % WORD == END * PGSIZE <==> Page(mptr) + 1 == END
  {
    PageStart(mptr);
    if mptr == WORD - PGSIZE {
      assert (mptr + PGSIZE) % WORD == 0;
    } else {
      assert (mptr + PGSIZE) % WORD == mptr + PGSIZE;
    }
  }

  /** Twice around: whatever comes later has been looked at. */
  lemma NeverAccepted(pages: map<nat, Pg>, low: set<nat>, start: nat, k: nat, n: nat)
    requires forall j: nat :: j < k ==> !Accepts(pages, low, Position(start, j), n)
    requires Position(start, k) == FIRST && forall q: nat :: FIRST <= q < END ==> !Accepts(pages, low, q, n)
    ensures forall j: nat :: !Accepts(pages, low, Position(start, j), n)
  {
    hide Accepts;
    forall j: nat
      ensures !Accepts(pages, low, Position(start, j), n)
    {
      if j >= k {
        PositionShift(start, k, j - k);
        StaysInside(FIRST, j - k);
      }
    }
  }

  lemma ZeroAligned()
    ensures Off(0) == 0 && Off(FIRST * PGSIZE) == 0 && Page(FIRST * PGSIZE) == FIRST
  {
  }

  lemma PointerBounds(h: Heap)
    requires Ok(h)
    ensures FIRST <= Page(h.mptr) < END && FIRST * PGSIZE <= h.mptr < END * PGSIZE
  {
  }

  /** The start of a search the invariant allows, and where it is accepted. */
  ghost predicate Searching(h: Heap, low: set<nat>, n: nat) {
    && Off(h.mptr) == 0 && FIRST <= Page(h.mptr) <= END && 0 < n < MAXMALLOC && n % 4 == 0
    && Ok(h.(mptr := FIRST * PGSIZE)) && forall p :: p in low ==> p < FIRST
  }

  /** The search fails only when nothing in the arena is free, and never once it has gone astray. */
  lemma NotFound(h: Heap, low: set<nat>, n: nat)
    requires Searching(h, low, n) && forall j: nat :: !Accepts(h.pages, low, Position(Page(h.mptr), j), n)
    ensures NoRun(h.pages, n) && !(Page(h.mptr) == END && Astray(low, n))
  {
    hide Accepts, FreeRun, Position, Ok, Page, Off;
    var start := Page(h.mptr);
    if start == END && Astray(low, n) {
      AstrayAccepted(h, low, n);
      assert false;
    }
    forall q: nat | FIRST <= q < END
      ensures !FreeRun(h.pages, q, n)
    {
      AcceptsInside(h.pages, low, q, n);
      if start < END {
        var k := Covers(start, q);
      } else {
        var k := Covers(FIRST, q);
        FromEnd(TOP - END + FIRST);
        PositionShift(END, TOP - END + FIRST, k);
        assert !Accepts(h.pages, low, Position(END, TOP - END + FIRST + k), n);
      }
    }
  }

  lemma AstrayAccepted(h: Heap, low: set<nat>, n: nat)
    requires Searching(h, low, n) && Astray(low, n)
    ensures exists j: nat :: Accepts(h.pages, low, Position(END, j), n)
  {
    hide Accepts, Position, Page, Off;
    WrapsIff(0, n);
    if n + 4 >= PGSIZE {
      FromEnd(WrapPage(n) - END);
      AcceptsAbove(h.pages, low, WrapPage(n), n);
      assert Accepts(h.pages, low, Position(END, WrapPage(n) - END), n);
    } else {
      var p: nat :| p < FIRST && p !in low;
      FromEnd(TOP - END + p);
      ArenaPages(h);
      LowAccepts(h.pages, low, p, n);
      assert Accepts(h.pages, low, Position(END, TOP - END + p), n);
    }
  }

  lemma ArenaPages(h: Heap)
    requires Ok(h.(mptr := FIRST * PGSIZE))
    ensures forall p :: p in h.pages ==> FIRST <= p < END
  {
  }

  /** Where the search ends: in the arena, ready for the chunk, or astray. */
  lemma Landed(h: Heap, low: set<nat>, n: nat, k: nat, mptr: nat)
    requires Searching(h, low, n) && FirstAt(h.pages, low, Page(h.mptr), k, n)
    requires Off(mptr) == 0 && Page(mptr) == Position(Page(h.mptr), k)
    ensures var t := h.(mptr := mptr);
            if Page(h.mptr) == END && Astray(low, n) then
              if n + 4 >= PGSIZE then Page(mptr) == WrapPage(n) && UTOP <= Page(mptr)
              else Lowest(low, Page(mptr)) && FreeRun(h.pages, Page(mptr), n) && Last(mptr, n) == Page(mptr)
            else
              && FIRST <= Page(mptr) < END && FreeRun(h.pages, Page(mptr), n)
              && mptr != 0 && Ok(t) && Ok(Place(t, n)) && mptr !in h.live && mptr + n != 0
  {
    hide Accepts, FreeRun, Position, Ok, Page, Off, Last, Place;
    ArenaPages(h);
    PageStart(mptr);
    if Page(h.mptr) == END && Astray(low, n) {
      if n + 4 >= PGSIZE {
        StraysHigh(h.pages, low, n, k);
        WrapsIff(0, n);
      } else {
        var p: nat :| p < FIRST && p !in low;
        var q := LowestBelow(low, p);
        StraysLow(h.pages, low, n, k, q);
        LowAccepts(h.pages, low, q, n);
      }
    } else {
      if Page(h.mptr) < END {
        StaysInside(Page(h.mptr), k);
      } else {
        ComesBack(h.pages, low, n, k);
      }
      AcceptsInside(h.pages, low, Page(mptr), n);
      ZeroAligned();
      Repoint(h.(mptr := FIRST * PGSIZE), mptr);
      PlaceOk(h.(mptr := mptr), n);
    }
  }

  lemma StrayEmpty(h: Heap, t: Heap, low: set<nat>, n: nat, avail: nat)
    requires Off(t.mptr) == 0 && t == h.(mptr := t.mptr) && (n + 4 < PGSIZE ==> avail == 0)
    requires if n + 4 >= PGSIZE then Page(t.mptr) == WrapPage(n) && UTOP <= Page(t.mptr) else Lowest(low, Page(t.mptr))
    ensures Strayed(h, t, low, n, avail, 0)
  {
    PageStart(t.mptr);
    if n + 4 < PGSIZE {
      assert Lowest(low, Page(t.mptr)) && StrayedTo(h, t, n, avail, 0, Page(t.mptr));
    }
  }

  lemma StrayedOut(h: Heap, t: Heap, low: set<nat>, n: nat, avail: nat, v: nat)
    requires Strayed(h, t, low, n, avail, v)
    ensures !(FIRST * PGSIZE <= t.mptr < END * PGSIZE)
  {
  }

  lemma StrayMapped(h: Heap, t: Heap, low: set<nat>, n: nat, avail: nat, v: nat)
    requires Off(v) == 0 && Lowest(low, Page(v)) && avail > 0 && n + 4 < PGSIZE
    requires t == h.(mptr := v + n, pages := h.pages[Page(v) := Pg(false, 2)])
    ensures Strayed(h, t, low, n, avail, v)
  {
    PageStart(v);
    assert Lowest(low, Page(v)) && StrayedTo(h, t, n, avail, v, Page(v));
  }

  lemma MappedOne(pages: map<nat, Pg>, q: nat)
    ensures Mapped(pages, q, q) == pages[q := Pg(false, 2)]
  {
  }
}
