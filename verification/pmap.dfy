/** The page manager of kern/pmap.c and the address-space part of kern/env.c, in place. */
module PageManager {
  import opened PageTables

  const E_INVAL: int := 3
  const E_NO_MEM: int := 4

  const MPENTRY_PAGE: nat := 0x7         // PGNUM(MPENTRY_PADDR)
  const IOPHYS_PAGE: nat := 0xA0         // IOPHYSMEM / PGSIZE
  const EXTPHYS_PAGE: nat := 0x100       // EXTPHYSMEM / PGSIZE

  /** The pages page_init puts on the free list. */
  predicate FreeAtBoot(i: nat, basemem: nat, kernelEnd: nat) {
    && i != 0 && i != MPENTRY_PAGE
    && (i < basemem || i < IOPHYS_PAGE || (i >= EXTPHYS_PAGE && i >= kernelEnd))
  }

  predicate KernelOwned(i: nat, basemem: nat, kernelEnd: nat) {
    i == 0 || (i != MPENTRY_PAGE && basemem <= i && EXTPHYS_PAGE <= i < kernelEnd)
  }

  /** page_init has handled the pages below i: the free ones are listed from the highest down,
      and the pages of the kernel image carry a count of one. */
  ghost predicate Booted(m: Pm, i: nat, npages: nat, basemem: nat, kernelEnd: nat) {
    && ListOk(m) && BootCounts(m, i, npages, basemem, kernelEnd)
    && m.managed == (set p: nat | p < npages && FreeAtBoot(p, basemem, kernelEnd))
    && m.refs == map[] && m.envPgdir == map[]
    && (forall p: nat :: p in m.free <==> p < i && p < npages && FreeAtBoot(p, basemem, kernelEnd))
    && (forall k, l :: 0 <= k < l < |m.free| ==> m.free[k] > m.free[l])
  }

  ghost predicate BootCounts(m: Pm, i: nat, npages: nat, basemem: nat, kernelEnd: nat) {
    && |m.ppRef| == npages
    && (forall p: nat :: p < npages ==> m.ppRef[p] == if p < i && KernelOwned(p, basemem, kernelEnd) then 1 else 0)
  }

  ghost function BootNext(m: Pm, i: nat, basemem: nat, kernelEnd: nat): Pm {
    if FreeAtBoot(i, basemem, kernelEnd) then
      m.(ppRef := Set(m.ppRef, i, 0), ppLink := Set(m.ppLink, i, m.pageFreeList), pageFreeList := i, free := [i] + m.free)
    else
      m.(ppRef := if KernelOwned(i, basemem, kernelEnd) then Set(m.ppRef, i, 1) else m.ppRef, ppLink := Set(m.ppLink, i, NULL))
  }

  lemma BootList(m: Pm, i: nat, npages: nat, basemem: nat, kernelEnd: nat)
    requires ListOk(m) && i < |m.mem| && i !in m.free
    requires FreeAtBoot(i, basemem, kernelEnd) ==> i in m.managed
    ensures ListOk(BootNext(m, i, basemem, kernelEnd))
  {
    hide FreeAtBoot, KernelOwned;
  }

  lemma BootStep(m: Pm, i: nat, npages: nat, basemem: nat, kernelEnd: nat)
    requires Booted(m, i, npages, basemem, kernelEnd) && 1 <= i < npages
    ensures Booted(BootNext(m, i, basemem, kernelEnd), i + 1, npages, basemem, kernelEnd)
  {
    hide FreeAtBoot, KernelOwned, ListOk, BootCounts, BootNext;
    BootCountsStep(m, i, npages, basemem, kernelEnd);
    BootLength(m, i, npages, basemem, kernelEnd);
    BootList(m, i, npages, basemem, kernelEnd);
    BootFree(m, i, npages, basemem, kernelEnd);
  }

  lemma BootFree(m: Pm, i: nat, npages: nat, basemem: nat, kernelEnd: nat)
    requires 1 <= i < npages
    requires forall p: nat :: p in m.free <==> p < i && p < npages && FreeAtBoot(p, basemem, kernelEnd)
    requires forall k, l :: 0 <= k < l < |m.free| ==> m.free[k] > m.free[l]
    ensures var n, next := BootNext(m, i, basemem, kernelEnd), i + 1;
            && n.managed == m.managed && n.refs == m.refs && n.envPgdir == m.envPgdir
            && (forall p: nat :: p in n.free <==> p < next && p < npages && FreeAtBoot(p, basemem, kernelEnd))
            && (forall k, l :: 0 <= k < l < |n.free| ==> n.free[k] > n.free[l])
  {
    hide FreeAtBoot, KernelOwned;
    var n := BootNext(m, i, basemem, kernelEnd);
    forall k, l | 0 <= k < l < |n.free|
      ensures n.free[k] > n.free[l]
    {
      if FreeAtBoot(i, basemem, kernelEnd) {
        assert n.free[l] == m.free[l - 1] && m.free[l - 1] in m.free;
      }
    }
  }

  lemma BootCountsStep(m: Pm, i: nat, npages: nat, basemem: nat, kernelEnd: nat)
    requires BootCounts(m, i, npages, basemem, kernelEnd) && 1 <= i < npages
    ensures BootCounts(BootNext(m, i, basemem, kernelEnd), i + 1, npages, basemem, kernelEnd)
  {
  }

  lemma BootLength(m: Pm, i: nat, npages: nat, basemem: nat, kernelEnd: nat)
    requires ListOk(m) && BootCounts(m, i, npages, basemem, kernelEnd)
    ensures |m.mem| == npages
  {
  }

  /** On a machine whose base memory ends at the I/O hole or before it. */
  lemma BootedPages(m: Pm, npages: nat, basemem: nat, kernelEnd: nat)
    requires Booted(m, npages, npages, basemem, kernelEnd)
    ensures basemem <= 0xA0 ==> forall p: nat ::
              p in m.free <==> p < npages && p != 0 && p != 7 && !(0xA0 <= p < 0x100) && !(0x100 <= p < kernelEnd)
    ensures basemem <= 0xA0 ==> |m.ppRef| == npages && forall p: nat :: p < npages ==> m.ppRef[p] == if p == 0 || 0x100 <= p < kernelEnd then 1 else 0
  {
    hide ListOk;
  }

  function BootRefs(n: nat): seq<nat> {
    seq(n, i => if i == 0 then 1 else 0)
  }

  function BootLinks(n: nat): seq<int> {
    seq(n, _ => NULL)
  }

  lemma BootStart(m: Pm, npages: nat, basemem: nat, kernelEnd: nat)
    requires 1 <= npages == |m.mem|
    requires m.ppRef == BootRefs(npages) && m.ppLink == BootLinks(npages) && m.pageFreeList == NULL
    requires m.managed == (set p: nat | p < npages && FreeAtBoot(p, basemem, kernelEnd))
    requires m.refs == map[] && m.envPgdir == map[] && m.free == []
    ensures Booted(m, 1, npages, basemem, kernelEnd)
  {
  }

  /** What page_init may use of the state it builds. */
  lemma BootLens(m: Pm, i: nat, npages: nat, basemem: nat, kernelEnd: nat)
    requires Booted(m, i, npages, basemem, kernelEnd)
    ensures |m.ppRef| == |m.ppLink| == npages
  {
  }

  class Memory {
    const kernPgdir: seq<Word>
    ghost const managed: set<nat>

    var ppRef: seq<nat>
    var ppLink: seq<int>
    var pageFreeList: int
    var mem: seq<seq<Word>>
    var envPgdir: map<nat, nat>

    ghost var free: seq<nat>
    ghost var refs: map<Ref, Word>

    ghost function S(): Pm
      reads this
    {
      Pm(ppRef, ppLink, pageFreeList, mem, envPgdir, free, refs, managed)
    }

    ghost predicate Ok()
      reads this
    {
      Valid(S()) && KernDir(kernPgdir)
    }

    /** page_init, over a zeroed pages array. */
    constructor PageInit(npages: nat, basemem: nat, kernelEnd: nat, kern: seq<Word>, ram: seq<seq<Word>>)
      requires KernDir(kern) && 1 <= npages == |ram| && forall p :: 0 <= p < npages ==> |ram[p]| == NPTENTRIES
      ensures Ok() && Settled(S(), {}) && kernPgdir == kern && mem == ram
      ensures Booted(S(), npages, npages, basemem, kernelEnd)
      ensures basemem <= 0xA0 ==> forall p: nat ::
                p in free <==> p < npages && p != 0 && p != 7 && !(0xA0 <= p < 0x100) && !(0x100 <= p < kernelEnd)
      ensures basemem <= 0xA0 ==> |ppRef| == npages && forall p: nat :: p < npages ==> ppRef[p] == if p == 0 || 0x100 <= p < kernelEnd then 1 else 0
    {
      kernPgdir := kern;
      managed := set p: nat | p < npages && FreeAtBoot(p, basemem, kernelEnd);
      ppRef := BootRefs(npages);
      ppLink := BootLinks(npages);
      pageFreeList := NULL;
      mem := ram;
      envPgdir := map[];
      free := [];
      refs := map[];
      new;
      hide Booted, Valid, Settled, KernDir, ListOk, BootRefs, BootLinks, FreeAtBoot, BootNext;
      BootStart(S(), npages, basemem, kernelEnd);
      var i := 1;
      while i < npages
        invariant 1 <= i <= npages && mem == ram
        invariant Booted(S(), i, npages, basemem, kernelEnd)
      {
        BootLens(S(), i, npages, basemem, kernelEnd);
        BootStep(S(), i, npages, basemem, kernelEnd);
        BootPage(i, basemem, kernelEnd);
        i := i + 1;
      }
      EmptyValid(S(), npages, basemem, kernelEnd);
      BootedPages(S(), npages, basemem, kernelEnd);
    }

    /** The loop body of page_init. */
    method BootPage(i: nat, basemem: nat, kernelEnd: nat)
      requires 1 <= i < |ppRef| == |ppLink|
      modifies this`ppRef, this`ppLink, this`pageFreeList, this`free
      ensures S() == BootNext(old(S()), i, basemem, kernelEnd)
    {
      if i == MPENTRY_PAGE {
        ppLink := ppLink[i := NULL];
      } else if i < basemem {
        ppRef := ppRef[i := 0];
        ppLink := ppLink[i := pageFreeList];
        pageFreeList := i;
        free := [i] + free;
      } else if IOPHYS_PAGE <= i < EXTPHYS_PAGE {
        ppLink := ppLink[i := NULL];
      } else if EXTPHYS_PAGE <= i < kernelEnd {
        ppRef := ppRef[i := 1];
        ppLink := ppLink[i := NULL];
      } else {
        ppRef := ppRef[i := 0];
        ppLink := ppLink[i := pageFreeList];
        pageFreeList := i;
        free := [i] + free;
      }
    }

    method PageAlloc(zero: bool) returns (pp: int)
      requires ListOk(S())
      modifies this`ppLink, this`pageFreeList, this`free, this`mem
      ensures ListOk(S())
      ensures pp == NULL <==> old(free) == []
      ensures pp == NULL ==> unchanged(this)
      ensures pp != NULL ==> pp == old(free)[0] && S() == Alloc(old(S()), zero)
    {
      if pageFreeList == NULL {
        return NULL;
      }
      ghost var m := S();
      pp := pageFreeList;
      pageFreeList := ppLink[pp];
      ppLink := ppLink[pp := NULL];
      if zero {
        mem := mem[pp := ZeroPage()];
      }
      free := free[1..];
      AllocKeepsList(m, zero);
    }

    method PageFree(pp: nat)
      requires ListOk(S())
      requires pp in managed && ppRef[pp] == 0 && pp !in free
      modifies this`ppLink, this`pageFreeList, this`free
      ensures ListOk(S()) && S() == Free(old(S()), pp)
    {
      FreeKeepsList(S(), pp);
      ppLink := ppLink[pp := pageFreeList];
      pageFreeList := pp;
      free := [pp] + free;
    }

    method PageDecref(pp: nat)
      requires ListOk(S())
      requires pp in managed && ppRef[pp] >= 1
      modifies this`ppRef, this`ppLink, this`pageFreeList, this`free
      ensures ListOk(S()) && S() == Decref(old(S()), pp)
    {
      DecrefKeepsList(S(), pp);
      ppRef := ppRef[pp := Dec16(ppRef[pp])];
      if ppRef[pp] == 0 {
        PageFree(pp);
      }
    }

    /** pgdir_walk: the page number of the table for directory index d, or NULL. */
    method PgdirWalk(e: nat, d: nat, create: bool) returns (pt: int)
      requires Ok() && DirRef(e) in refs && d < PDX_UTOP
      modifies this`ppRef, this`ppLink, this`pageFreeList, this`mem, this`free, this`refs
      ensures Ok()
      ensures pt == NULL <==> TableRef(e, d) !in old(refs) && (!create || old(free) == [])
      ensures pt == NULL || TableRef(e, d) in old(refs) ==> unchanged(this)
      ensures pt != NULL ==> TableRef(e, d) in refs && refs[TableRef(e, d)].frame == pt
      ensures pt != NULL && TableRef(e, d) !in old(refs) ==> S() == AddTable(old(S()), e, d)
    {
      hide TreeOk, CountsOk, Adopt, TableMem;
      ghost var m := S();
      WalkFacts(m, e, d);
      var dir := envPgdir[e];
      if Present(mem[dir][d]) {
        return mem[dir][d].frame;
      }
      if !create {
        return NULL;
      }
      pt := PageAlloc(true);
      if pt != NULL {
        ppRef := ppRef[pt := Inc16(ppRef[pt])];
        mem := mem[dir := mem[dir][d := Word(pt, PDE_FLAGS)]];
        refs := refs[TableRef(e, d) := Word(pt, PDE_FLAGS)];
        hide ListOk;
        AddTableStep(m, S(), e, d, pt, dir);
      }
    }

    /** page_lookup, as documented: NULL when nothing is mapped at the address. */
    method PageLookup(e: nat, d: nat, t: nat) returns (pp: int, pt: int)
      requires ListOk(S()) && TreeOk(S()) && DirRef(e) in refs && d < PDX_UTOP && t < NPTENTRIES
      ensures pp == NULL <==> PageRef(e, d, t) !in refs
      ensures pp != NULL ==> pp == refs[PageRef(e, d, t)].frame && TableRef(e, d) in refs && pt == refs[TableRef(e, d)].frame
    {
      LookupFacts(S(), e, d, t);
      hide ListOk, TreeOk;
      var dir := envPgdir[e];
      if !Present(mem[dir][d]) {
        return NULL, NULL;
      }
      pt := mem[dir][d].frame;
      pp := if Present(mem[pt][t]) then mem[pt][t].frame else NULL;
    }

    method PageRemove(e: nat, d: nat, t: nat)
      requires ListOk(S()) && TreeOk(S()) && DirRef(e) in refs && d < PDX_UTOP && t < NPTENTRIES
      requires PageRef(e, d, t) in refs ==>
                 var p := refs[PageRef(e, d, t)].frame; p < |ppRef| && ppRef[p] >= Count(refs, p)
      modifies this`ppRef, this`ppLink, this`pageFreeList, this`mem, this`free, this`refs
      ensures PageRef(e, d, t) !in old(refs) ==> unchanged(this)
      ensures PageRef(e, d, t) in old(refs) ==> S() == Remove(old(S()), e, d, t)
    {
      hide ListOk, TreeOk, Decref, Count;
      ghost var r := PageRef(e, d, t);
      var pp, pt := PageLookup(e, d, t);
      if pp == NULL {
        return;
      }
      ghost var m := S();
      CountPositive(refs, r);
      LookupFacts(m, e, d, t);
      PageDecref(pp);
      DecrefMem(m, pp);
      mem := mem[pt := mem[pt][t := ZERO]];
      refs := refs - {r};
    }

    method PageInsert(e: nat, pp: nat, d: nat, t: nat, perm: bv12) returns (r: int)
      requires Ok() && DirRef(e) in refs && d < PDX_UTOP && t < NPTENTRIES
      requires IsDataPage(S(), pp) && At(ppRef, pp) < 0xFFFF
      modifies this`ppRef, this`ppLink, this`pageFreeList, this`mem, this`free, this`refs
      ensures Ok()
      ensures r == if old(Walkable(S(), e, d)) then 0 else -E_NO_MEM
      ensures r != 0 ==> unchanged(this)
      ensures r == 0 ==> S() == Insert(old(S()), e, d, t, Word(pp, perm | PTE_P))
      ensures r == 0 ==> Agrees(old(S()), S(), Pages(old(S()))[PageRef(e, d, t) := Word(pp, perm | PTE_P)])
    {
      hide ListOk, TreeOk, CountsOk, IsDataPage, AddTable, Count, Remove, CountsOwed, Pages;
      ghost var m := S();
      var w := Word(pp, perm | PTE_P);
      assert Present(w);
      var pt := PgdirWalk(e, d, true);
      if pt == NULL {
        return -E_NO_MEM;
      }
      InsertFacts(m, e, d, t, w);
      ghost var m0 := S();
      AfterWalk(m, m0, e, d, pp);
      LookupFacts(m0, e, d, t);
      ppRef := ppRef[pp := Inc16(ppRef[pp])];
      ghost var m1 := S();
      CountedOwed(m0, pp);
      assert m1 == Counted(m0, pp);
      if Present(mem[pt][t]) {
        RemoveOwedReady(m1, e, d, t, pp);
        PageRemove(e, d, t);
        RemoveParts(m1, e, d, t);
      }
      mem := mem[pt := mem[pt][t := w]];
      refs := refs[PageRef(e, d, t) := w];
      assert S() == Map(m0, e, d, t, w);
      r := 0;
    }

    /** env_setup_vm. */
    method EnvSetupVm(e: nat) returns (r: int)
      requires Ok() && DirRef(e) !in refs
      modifies this`ppRef, this`ppLink, this`pageFreeList, this`mem, this`envPgdir, this`free, this`refs
      ensures Ok()
      ensures r == if old(free) == [] then -E_NO_MEM else 0
      ensures r != 0 ==> unchanged(this)
      ensures r == 0 ==> S() == AddDir(old(S()), e, kernPgdir)
      ensures r == 0 ==> e in envPgdir && refs == old(refs)[DirRef(e) := Word(envPgdir[e], 0)] && envPgdir[e] == old(free)[0]
      ensures r == 0 ==> EmptySpace(S(), envPgdir[e], kernPgdir)
      ensures Settled(old(S()), {}) ==> Settled(S(), {})
    {
      hide TreeOk, CountsOk, Adopt, Adoptable;
      ghost var m := S();
      var p := PageAlloc(true);
      if p == NULL {
        return -E_NO_MEM;
      }
      envPgdir := envPgdir[e := p];
      mem := mem[p := kernPgdir];
      ppRef := ppRef[p := Inc16(ppRef[p])];
      mem := mem[p := mem[p][PDX_UVPT := Word(p, PTE_P | PTE_U)]];
      refs := refs[DirRef(e) := Word(p, 0)];
      AddDirStep(m, S(), e, kernPgdir, p);
      NewSpace(m, S(), e, kernPgdir, p);
      r := 0;
    }

    /** sys_page_alloc once its arguments are checked: a zeroed page, mapped or given back. */
    method AllocAt(e: nat, d: nat, t: nat, perm: bv12) returns (r: int)
      requires Ok() && Settled(S(), {}) && DirRef(e) in refs && d < PDX_UTOP && t < NPTENTRIES
      modifies this`ppRef, this`ppLink, this`pageFreeList, this`mem, this`free, this`refs
      ensures Ok() && Settled(S(), {})
      ensures Without(refs, e) == Without(old(refs), e)
      ensures r == if old(free) == [] || (|old(free)| == 1 && TableRef(e, d) !in old(refs)) then -E_NO_MEM else 0
      ensures r != 0 ==> S() == old(S()).(mem := mem)
      ensures r == 0 ==> Agrees(old(S()), S(), Pages(old(S()))[PageRef(e, d, t) := Word(old(free)[0], perm | PTE_P)])
      ensures r == 0 ==> Content(S(), old(free)[0]) == ZeroPage()
    {
      hide ListOk, TreeOk, CountsOk, Settled, IsDataPage, Insert, Pages, KernDir;
      ghost var m := S();
      var pp := PageAlloc(true);
      if pp == NULL {
        return -E_NO_MEM;
      }
      ghost var m1 := S();
      AllocFacts(m, true);
      AllocSettled(m, true, {});
      assert {} + {m.free[0]} == {m.free[0]};
      r := PageInsert(e, pp, d, t, perm);
      if r < 0 {
        FreshIsFreeable(m, m1);
        PageFree(pp);
        FreeUndoesAlloc(m, true);
        RestoredValid(m, S());
      } else {
        InsertSettled(m1, e, d, t, Word(pp, perm | PTE_P), {m.free[0]});
        InsertWithout(m1, e, d, t, Word(pp, perm | PTE_P));
        assert {m.free[0]} - {pp} == {};
        AgreesTrans(m, m1, S(), Pages(m1)[PageRef(e, d, t) := Word(pp, perm | PTE_P)]);
      }
    }

    /** sys_page_map once its arguments are checked: a second mapping of the page at the source address. */
    method MapAt(se: nat, sd: nat, st: nat, e: nat, d: nat, t: nat, perm: bv12) returns (r: int)
      requires Ok() && Settled(S(), {}) && DirRef(se) in refs && sd < PDX_UTOP && st < NPTENTRIES
      requires DirRef(e) in refs && d < PDX_UTOP && t < NPTENTRIES
      requires PageRef(se, sd, st) in refs ==> At(ppRef, refs[PageRef(se, sd, st)].frame) < 0xFFFF
      modifies this`ppRef, this`ppLink, this`pageFreeList, this`mem, this`free, this`refs
      ensures Ok() && Settled(S(), {})
      ensures Without(refs, e) == Without(old(refs), e)
      ensures r == if PageRef(se, sd, st) !in old(refs) then -E_INVAL
                   else if !Walkable(old(S()), e, d) then -E_NO_MEM else 0
      ensures r != 0 ==> unchanged(this)
      ensures r == 0 ==> Agrees(old(S()), S(),
                Pages(old(S()))[PageRef(e, d, t) := Word(old(refs)[PageRef(se, sd, st)].frame, perm | PTE_P)])
      ensures r == 0 ==> var p := old(refs)[PageRef(se, sd, st)].frame; At(ppRef, p) <= At(old(ppRef), p) + 1
      ensures r == 0 ==> TableRef(e, d) in refs
    {
      hide ListOk, TreeOk, CountsOk, Settled, IsDataPage, Insert, Pages, KernDir, Walkable;
      ghost var m := S();
      var pp, pt := PageLookup(se, sd, st);
      if pp == NULL {
        return -E_INVAL;
      }
      MappedIsData(m, se, sd, st);
      r := PageInsert(e, pp, d, t, perm);
      if r == 0 {
        InsertSettled(m, e, d, t, Word(pp, perm | PTE_P), {});
        InsertWithout(m, e, d, t, Word(pp, perm | PTE_P));
        InsertCount(m, e, d, t, Word(pp, perm | PTE_P));
        InsertTable(m, S(), e, d, t, Word(pp, perm | PTE_P));
        assert {} - {pp as nat} == {};
      }
    }

    /** sys_page_unmap once its arguments are checked. */
    method UnmapAt(e: nat, d: nat, t: nat)
      requires Ok() && Settled(S(), {}) && DirRef(e) in refs && d < PDX_UTOP && t < NPTENTRIES
      modifies this`ppRef, this`ppLink, this`pageFreeList, this`mem, this`free, this`refs
      ensures Ok() && Settled(S(), {})
      ensures Without(refs, e) == Without(old(refs), e)
      ensures Agrees(old(S()), S(), Pages(old(S())) - {PageRef(e, d, t)})
    {
      hide ListOk, TreeOk, CountsOk, Settled, IsDataPage, Remove, KernDir, Count;
      ghost var m := S();
      if PageRef(e, d, t) in refs {
        RemoveReady(m, e, d, t);
        RemoveFacts(m, e, d, t, {});
      }
      PageRemove(e, d, t);
      RemoveParts(m, e, d, t);
      assert PageRef(e, d, t) !in m.refs ==> Pages(m) == Pages(m) - {PageRef(e, d, t)};
    }

    /** env_free: walk the user part of the directory, unmap everything, release the tables and the directory. */
    method EnvFree(e: nat)
      requires Ok() && Settled(S(), {}) && DirRef(e) in refs
      modifies this`ppRef, this`ppLink, this`pageFreeList, this`mem, this`envPgdir, this`free, this`refs
      ensures Ok() && Settled(S(), {})
      ensures refs == Without(old(refs), e)
      ensures forall p: nat :: IsDataPage(old(S()), p) ==> Content(S(), p) == Content(old(S()), p)
    {
      hide ListOk, TreeOk, CountsOk, Settled, KernDir, Tree, Count, Remove, RemoveTable, IsDataPage, Drop, Decref, RemoveDir;
      ghost var m0 := S();
      SweepStart(m0, e);
      var pdeno := 0;
      while pdeno < PDX_UTOP
        invariant 0 <= pdeno <= PDX_UTOP
        invariant Sweeping(m0, S(), e, pdeno, 0) && DirRef(e) in refs
      {
        ghost var m1 := S();
        LookupFacts(m1, e, pdeno, 0);
        if Present(mem[envPgdir[e]][pdeno]) {
          var pt := mem[envPgdir[e]][pdeno].frame;
          var pteno := 0;
          while pteno < NPTENTRIES
            invariant 0 <= pteno <= NPTENTRIES
            invariant Sweeping(m0, S(), e, pdeno, pteno) && DirRef(e) in refs
            invariant TableRef(e, pdeno) in refs && refs[TableRef(e, pdeno)].frame == pt
          {
            ghost var m := S();
            LookupFacts(m, e, pdeno, pteno);
            if Present(mem[pt][pteno]) {
              RemoveReady(m, e, pdeno, pteno);
              SweepPage(m0, m, e, pdeno, pteno);
              PageRemove(e, pdeno, pteno);
              RemoveParts(m, e, pdeno, pteno);
            } else {
              SweepNoPage(m0, m, e, pdeno, pteno);
            }
            pteno := pteno + 1;
          }
          ghost var m := S();
          TableReady(m, e, pdeno);
          SweepTable(m0, m, e, pdeno);
          RemoveTableStep(m, e, pdeno, pt);
          mem := mem[envPgdir[e] := mem[envPgdir[e]][pdeno := ZERO]];
          PageDecref(pt);
          refs := refs - {TableRef(e, pdeno)};
          assert S() == RemoveTable(m, e, pdeno);
        } else {
          SweepNoTable(m0, m1, e, pdeno);
        }
        pdeno := pdeno + 1;
      }
      ghost var m := S();
      DirReady(m, e);
      var pa := envPgdir[e];
      SweepDir(m0, m, e);
      RemoveDirStep(m, e, pa);
      envPgdir := envPgdir - {e};
      PageDecref(pa);
      refs := refs - {DirRef(e)};
      assert S() == RemoveDir(m, e);
    }
  }

  lemma EmptyValid(m: Pm, npages: nat, basemem: nat, kernelEnd: nat)
    requires Booted(m, npages, npages, basemem, kernelEnd)
    requires forall p :: 0 <= p < |m.mem| ==> |m.mem[p]| == NPTENTRIES
    ensures Valid(m) && Settled(m, {})
  {
    assert forall p: nat :: Naming(m.refs, p) == {};
  }

  lemma InsertTable(m: Pm, n: Pm, e: nat, d: nat, t: nat, w: Word)
    requires Agrees(m, n, Pages(m)[PageRef(e, d, t) := w])
    ensures TableRef(e, d) in n.refs
  {
    hide ListOk, CountsOk;
    assert PageRef(e, d, t) in Pages(n);
  }

  lemma MappedIsData(m: Pm, e: nat, d: nat, t: nat)
    requires Valid(m) && PageRef(e, d, t) in m.refs
    ensures IsDataPage(m, m.refs[PageRef(e, d, t)].frame)
  {
  }

  lemma RemoveReady(m: Pm, e: nat, d: nat, t: nat)
    requires Valid(m) && PageRef(e, d, t) in m.refs
    ensures var p := m.refs[PageRef(e, d, t)].frame; p < |m.ppRef| && m.ppRef[p] >= Count(m.refs, p)
  {
    hide Tree, Count;
  }

  lemma SweepStart(m: Pm, e: nat)
    requires Valid(m) && Settled(m, {})
    ensures Sweeping(m, m, e, 0, 0)
  {
    hide Valid, Settled;
    assert m.refs == Sweep(m.refs, e, 0, 0);
  }

  /** A page table or directory about to be released has a count of one. */
  lemma TableReady(m: Pm, e: nat, d: nat)
    requires Valid(m) && TableRef(e, d) in m.refs
    ensures var p := m.refs[TableRef(e, d)].frame; p in m.managed && p < |m.ppRef| && m.ppRef[p] >= 1
  {
    hide Tree, Count;
    CountPositive(m.refs, TableRef(e, d));
  }

  lemma DirReady(m: Pm, e: nat)
    requires Valid(m) && DirRef(e) in m.refs
    ensures e in m.envPgdir && m.envPgdir[e] == m.refs[DirRef(e)].frame
    ensures var p := m.envPgdir[e]; p in m.managed && p < |m.ppRef| && m.ppRef[p] >= 1
  {
    hide Tree, Count;
    CountPositive(m.refs, DirRef(e));
  }

  /** Clearing the directory entry first and dropping the count second comes to the same. */
  lemma RemoveTableStep(m: Pm, e: nat, d: nat, pt: nat)
    requires ListOk(m) && TreeOk(m) && TableRef(e, d) in m.refs && m.refs[TableRef(e, d)].frame == pt
    requires d < PDX_UTOP && DirRef(e) in m.refs
    ensures e in m.envPgdir && m.envPgdir[e] < |m.mem| && |m.mem[m.envPgdir[e]]| == NPTENTRIES
    ensures var mem := m.mem[m.envPgdir[e] := m.mem[m.envPgdir[e]][d := ZERO]];
            && ListOk(m.(mem := mem))
            && RemoveTable(m, e, d) == Decref(m.(mem := mem), pt).(refs := m.refs - {TableRef(e, d)})
  {
    LookupFacts(m, e, d, 0);
    hide TreeOk;
  }

  lemma RemoveDirStep(m: Pm, e: nat, pa: nat)
    requires ListOk(m) && DirRef(e) in m.refs && m.refs[DirRef(e)].frame == pa
    ensures ListOk(m.(envPgdir := m.envPgdir - {e}))
    ensures RemoveDir(m, e) == Decref(m.(envPgdir := m.envPgdir - {e}), pa).(refs := m.refs - {DirRef(e)})
  {
  }

  /** A directory with nothing below UTOP, itself at UVPT for user code to read, and the kernel's entries
      everywhere else. */
  ghost predicate EmptySpace(m: Pm, p: nat, kern: seq<Word>) {
    && p < |m.mem| && |m.mem[p]| == |kern| == NPTENTRIES
    && (forall d: nat :: d < PDX_UTOP ==> m.mem[p][d] == ZERO)
    && m.mem[p][957].frame == p && m.mem[p][957].flags & PTE_P != 0 && m.mem[p][957].flags & PTE_U != 0 && m.mem[p][957].flags & PTE_W == 0
    && (forall d: nat :: PDX_UTOP <= d < NPTENTRIES && d != 957 ==> m.mem[p][d] == kern[d])
  }

  lemma NewSpace(m: Pm, n: Pm, e: nat, kern: seq<Word>, p: nat)
    requires KernDir(kern) && m.free != [] && p == m.free[0] < |m.mem| && n == AddDir(m, e, kern)
    ensures EmptySpace(n, p, kern) && n.refs == m.refs[DirRef(e) := Word(p, 0)] && n.envPgdir == m.envPgdir[e := p]
  {
  }

  lemma AddDirStep(m: Pm, n: Pm, e: nat, kern: seq<Word>, p: nat)
    requires Valid(m) && KernDir(kern) && DirRef(e) !in m.refs && m.free != [] && p == m.free[0]
    requires p < |m.ppRef| && p < |m.mem|
    requires n == Alloc(m, true).(ppRef := m.ppRef[p := Inc16(m.ppRef[p])], refs := m.refs[DirRef(e) := Word(p, 0)],
                                  mem := Alloc(m, true).mem[p := kern[PDX_UVPT := Word(p, PTE_P | PTE_U)]],
                                  envPgdir := m.envPgdir[e := p])
    ensures n == AddDir(m, e, kern) && Valid(n)
    ensures Settled(m, {}) ==> Settled(n, {})
  {
    hide ListOk, CountsOk, Tree;
    AddDirFits(m, e, kern);
    var mem := Set(m.mem, p, DirPage(kern, p));
    AdoptKeeps(m, DirRef(e), Word(p, 0), mem, m.envPgdir[e := p]);
    if Settled(m, {}) {
      AdoptSettled(m, DirRef(e), Word(p, 0), mem, m.envPgdir[e := p], {});
    }
    assert n.mem == mem;
  }

  lemma FreshIsFreeable(m: Pm, n: Pm)
    requires Valid(m) && m.free != [] && n == Alloc(m, true)
    ensures ListOk(n) && m.free[0] in n.managed && m.free[0] < |n.ppRef| && n.ppRef[m.free[0]] == 0 && m.free[0] !in n.free
  {
    hide Tree, Count;
    AllocKeepsList(m, true);
  }

  lemma RestoredValid(m: Pm, n: Pm)
    requires Valid(m) && Settled(m, {}) && m.free != []
    requires n == Free(Alloc(m, true), m.free[0]) && n == m.(mem := n.mem)
    ensures Valid(n) && Settled(n, {})
  {
    hide Tree, ListOk, CountsOk;
    FreshIsData(m);
    TreeOtherPage(m.refs, m.mem, m.free[0], ZeroPage());
    RestoredList(m, n);
  }

  lemma RestoredList(m: Pm, n: Pm)
    requires ListOk(m) && CountsOk(m) && n == m.(mem := n.mem) && |n.mem| == |m.mem|
    ensures ListOk(n) && CountsOk(n)
  {
    hide Count;
  }

  lemma AgreesTrans(m: Pm, m1: Pm, n: Pm, pages: map<Ref, Word>)
    requires Agrees(m, m1, Pages(m)) && Agrees(m1, n, pages)
    requires forall q: nat :: IsDataPage(m, q) ==> IsDataPage(m1, q)
    ensures Agrees(m, n, pages)
  {
    hide Valid, IsDataPage, Pages;
  }

  lemma AddTableStep(m: Pm, n: Pm, e: nat, d: nat, pt: nat, dir: nat)
    requires Valid(m) && Walkable(m, e, d) && TableRef(e, d) !in m.refs
    requires pt == m.free[0] && e in m.envPgdir && dir == m.envPgdir[e]
    requires var a := Alloc(m, true);
             && pt < |m.ppRef| && dir < |a.mem| && |a.mem[dir]| == NPTENTRIES
             && n == a.(ppRef := m.ppRef[pt := Inc16(m.ppRef[pt])], refs := m.refs[TableRef(e, d) := Word(pt, PDE_FLAGS)],
                        mem := a.mem[dir := a.mem[dir][d := Word(pt, PDE_FLAGS)]])
    ensures n == AddTable(m, e, d) && Valid(n)
  {
    hide ListOk, CountsOk, Tree;
    AddTableFits(m, e, d);
    AdoptKeeps(m, TableRef(e, d), Word(pt, PDE_FLAGS), TableMem(m, e, d), m.envPgdir);
  }

  lemma LookupFacts(m: Pm, e: nat, d: nat, t: nat)
    requires ListOk(m) && TreeOk(m) && DirRef(e) in m.refs && d < PDX_UTOP && t < NPTENTRIES
    ensures e in m.envPgdir && m.envPgdir[e] == m.refs[DirRef(e)].frame
    ensures m.envPgdir[e] < |m.mem| && |m.mem[m.envPgdir[e]]| == NPTENTRIES
    ensures Present(m.mem[m.envPgdir[e]][d]) <==> TableRef(e, d) in m.refs
    ensures TableRef(e, d) in m.refs ==> m.mem[m.envPgdir[e]][d] == m.refs[TableRef(e, d)]
    ensures TableRef(e, d) in m.refs ==>
              var pt := m.refs[TableRef(e, d)].frame;
              && pt < |m.mem| && |m.mem[pt]| == NPTENTRIES
              && (Present(m.mem[pt][t]) <==> PageRef(e, d, t) in m.refs)
              && (PageRef(e, d, t) in m.refs ==> m.mem[pt][t] == m.refs[PageRef(e, d, t)])
    ensures PageRef(e, d, t) in m.refs ==>
              var p := m.refs[PageRef(e, d, t)].frame;
              TableRef(e, d) in m.refs && p in m.managed && p < |m.ppRef| && p < |m.mem|
  {
  }

  lemma DecrefMem(m: Pm, p: nat)
    ensures Decref(m, p).mem == m.mem && Decref(m, p).refs == m.refs && Decref(m, p).envPgdir == m.envPgdir
  {
  }

  /** After pgdir_walk with create, the page to insert is still a data page with the same count. */
  lemma AfterWalk(m: Pm, n: Pm, e: nat, d: nat, pp: nat)
    requires Valid(m) && Walkable(m, e, d) && IsDataPage(m, pp)
    requires n == if TableRef(e, d) in m.refs then m else AddTable(m, e, d)
    ensures Valid(n) && IsDataPage(n, pp) && pp < |n.ppRef| && At(m.ppRef, pp) == n.ppRef[pp]
    ensures TableRef(e, d) in n.refs && DirRef(e) in n.refs
    ensures ListOk(n) && TreeOk(n)
  {
    if TableRef(e, d) !in m.refs {
      AddTableFacts(m, e, d);
    }
    hide Tree, Count, AddTable, CountsOk;
    DataPageInRange(n, pp);
  }

  lemma RemoveOwedReady(m: Pm, e: nat, d: nat, t: nat, owed: nat)
    requires Owed(m, owed) && PageRef(e, d, t) in m.refs
    ensures var p := m.refs[PageRef(e, d, t)].frame; p < |m.ppRef| && m.ppRef[p] >= Count(m.refs, p)
  {
    hide Tree, Count;
  }

  lemma WalkFacts(m: Pm, e: nat, d: nat)
    requires Valid(m) && DirRef(e) in m.refs && d < PDX_UTOP
    ensures ListOk(m) && e in m.envPgdir && m.envPgdir[e] == m.refs[DirRef(e)].frame
    ensures m.envPgdir[e] < |m.mem| && |m.mem[m.envPgdir[e]]| == NPTENTRIES
    ensures Present(m.mem[m.envPgdir[e]][d]) <==> TableRef(e, d) in m.refs
    ensures TableRef(e, d) in m.refs ==> m.mem[m.envPgdir[e]][d] == m.refs[TableRef(e, d)]
    ensures m.envPgdir[e] !in m.free
  {
  }

  /** What an environment may do with its own address space. */
  datatype Op =
    | AllocOp(d: nat, t: nat, perm: bv12)
    | MapOp(srcenv: nat, srcd: nat, srct: nat, d: nat, t: nat, perm: bv12)
    | UnmapOp(d: nat, t: nat)

  /** Creating an environment, any run of its own maps and unmaps, and destroying it again restores
      every reference and the set of free pages. */
  method Lifetime(mm: Memory, e: nat, ops: seq<Op>)
    requires mm.Ok() && Settled(mm.S(), {}) && DirRef(e) !in mm.refs
    modifies mm
    ensures mm.Ok() && Settled(mm.S(), {})
    ensures mm.refs == old(mm.refs)
    ensures forall p :: p in mm.managed ==> (p in mm.free <==> p in old(mm.free))
  {
    hide Valid, Settled, KernDir, Pages, Agrees, Walkable, Unnamed;
    ghost var m0 := mm.S();
    TreeOfValid(m0);
    NoDirNoRefs(m0, e);
    var r := mm.EnvSetupVm(e);
    if r != 0 {
      return;
    }
    var i := 0;
    while i < |ops|
      invariant mm.Ok() && Settled(mm.S(), {}) && e in mm.envPgdir
      invariant Without(mm.refs, e) == m0.refs
    {
      DirKnown(mm.S(), e);
      match ops[i] {
        case AllocOp(d, t, perm) =>
          if d < PDX_UTOP && t < NPTENTRIES {
            var _ := mm.AllocAt(e, d, t, perm);
          }
        case MapOp(se, sd, st, d, t, perm) =>
          if d < PDX_UTOP && t < NPTENTRIES && sd < PDX_UTOP && st < NPTENTRIES && se in mm.envPgdir {
            DirKnown(mm.S(), se);
            TreeOfValid(mm.S());
            var pp, _ := mm.PageLookup(se, sd, st);
            if pp != NULL && At(mm.ppRef, pp) < 0xFFFF {
              var _ := mm.MapAt(se, sd, st, e, d, t, perm);
            }
          }
        case UnmapOp(d, t) =>
          if d < PDX_UTOP && t < NPTENTRIES {
            mm.UnmapAt(e, d, t);
          }
      }
      i := i + 1;
    }
    DirKnown(mm.S(), e);
    mm.EnvFree(e);
    forall p | p in mm.managed
      ensures p in mm.free <==> p in m0.free
    {
      FreeIffUnnamed(m0, p);
      FreeIffUnnamed(mm.S(), p);
    }
  }

  lemma DirKnown(m: Pm, e: nat)
    requires Valid(m) && e in m.envPgdir
    ensures DirRef(e) in m.refs
  {
  }
}
