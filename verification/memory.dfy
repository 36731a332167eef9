/** Physical pages, two-level page tables and reference counts (kern/pmap.c, kern/env.c).

    A 32-bit word is split as section 4.3 of the Intel SDM, volume 3A, splits a page table
    entry: twenty bits of frame number and twelve bits of flags.  A physical page is 1024
    such words, so page tables and data pages live in the same memory. */
module PageTables {

  const NPTENTRIES: nat := 1024
  const PDX_UTOP: nat := 955       // PDX(0xeec00000)
  const PDX_UVPT: nat := 957       // PDX(0xef400000)
  const NULL: int := -1

  const PTE_P: bv12 := 0x001
  const PTE_W: bv12 := 0x002
  const PTE_U: bv12 := 0x004
  const PTE_SYSCALL: bv12 := 0xE07      // PTE_AVAIL | PTE_P | PTE_W | PTE_U
  const PDE_FLAGS: bv12 := 0x007   // PTE_P | PTE_W | PTE_U

  datatype Word = Word(frame: nat, flags: bv12)

  const ZERO := Word(0, 0)

  function ZeroPage(): (page: seq<Word>)
    ensures |page| == NPTENTRIES
    ensures forall i :: 0 <= i < NPTENTRIES ==> page[i] == ZERO
  {
    seq(NPTENTRIES, _ => ZERO)
  }

  predicate Present(w: Word) {
    w.flags & PTE_P != 0
  }

  /** Something that holds a counted reference to a physical page. */
  datatype Ref =
    | DirRef(env: nat)
    | TableRef(env: nat, pdx: nat)
    | PageRef(env: nat, pdx: nat, ptx: nat)

  /** The references to physical page p. */
  ghost function Naming(refs: map<Ref, Word>, p: nat): set<Ref> {
    set r | r in refs && refs[r].frame == p
  }

  ghost function Count(refs: map<Ref, Word>, p: nat): nat {
    |Naming(refs, p)|
  }

  lemma CountAdd(refs: map<Ref, Word>, r: Ref, w: Word)
    requires r !in refs
    ensures forall p: nat :: Count(refs[r := w], p) == Count(refs, p) + (if p == w.frame then 1 else 0)
  {
    hide Count;
    forall p: nat
      ensures Count(refs[r := w], p) == Count(refs, p) + (if p == w.frame then 1 else 0)
    {
      CountAddOne(refs, r, w, p);
    }
  }

  lemma CountAddOne(refs: map<Ref, Word>, r: Ref, w: Word, p: nat)
    requires r !in refs
    ensures Count(refs[r := w], p) == Count(refs, p) + (if p == w.frame then 1 else 0)
  {
    if p == w.frame {
      assert Naming(refs[r := w], p) == Naming(refs, p) + {r};
    } else {
      assert Naming(refs[r := w], p) == Naming(refs, p);
    }
  }

  lemma CountRemove(refs: map<Ref, Word>, r: Ref)
    requires r in refs
    ensures forall p: nat :: Count(refs - {r}, p) == Count(refs, p) - (if p == refs[r].frame then 1 else 0)
  {
    forall p: nat
      ensures Count(refs - {r}, p) == Count(refs, p) - (if p == refs[r].frame then 1 else 0)
    {
      var less := if p == refs[r].frame then {r} else {};
      assert Naming(refs - {r}, p) == Naming(refs, p) - less;
    }
  }

  /** A page directory or page table is named exactly once. */
  lemma CountOnce(refs: map<Ref, Word>, r: Ref)
    requires r in refs
    requires forall s :: s in refs && refs[s].frame == refs[r].frame ==> s == r
    ensures Count(refs, refs[r].frame) == 1
  {
    assert Naming(refs, refs[r].frame) == {r};
  }

  lemma CountPositive(refs: map<Ref, Word>, r: Ref)
    requires r in refs
    ensures Count(refs, refs[r].frame) >= 1
  {
    assert r in Naming(refs, refs[r].frame);
  }

  ghost predicate NoDup<T>(s: seq<T>) {
    forall i, j :: 0 <= i < j < |s| ==> s[i] != s[j]
  }

  /** References nest, and directories and tables are named once. */
  ghost predicate Shape(refs: map<Ref, Word>) {
    && (forall r, s :: r in refs && s in refs && r != s && refs[r].frame == refs[s].frame ==> r.PageRef? && s.PageRef?)
    && (forall e: nat, d: nat :: TableRef(e, d) in refs ==>
          DirRef(e) in refs && d < PDX_UTOP && refs[TableRef(e, d)].flags == PDE_FLAGS)
    && (forall e: nat, d: nat, t: nat :: PageRef(e, d, t) in refs ==>
          TableRef(e, d) in refs && t < NPTENTRIES && Present(refs[PageRef(e, d, t)]))
  }

  ghost function Held(refs: map<Ref, Word>, r: Ref): Word {
    if r in refs then refs[r] else ZERO
  }

  /** Memory holds, in its directories and tables, exactly the references in refs. */
  ghost predicate Tree(refs: map<Ref, Word>, mem: seq<seq<Word>>) {
    && Shape(refs)
    && (forall p :: 0 <= p < |mem| ==> |mem[p]| == NPTENTRIES)
    && (forall r :: r in refs ==> refs[r].frame < |mem|)
    && (forall e: nat, d: nat :: DirRef(e) in refs && d < PDX_UTOP ==>
          mem[refs[DirRef(e)].frame][d] == Held(refs, TableRef(e, d)))
    && (forall e: nat, d: nat, t: nat :: TableRef(e, d) in refs && t < NPTENTRIES ==>
          mem[refs[TableRef(e, d)].frame][t] == Held(refs, PageRef(e, d, t)))
  }

  ghost predicate Unnamed(refs: map<Ref, Word>, p: nat) {
    forall r :: r in refs ==> refs[r].frame != p
  }

  lemma TreeAddDir(refs: map<Ref, Word>, mem: seq<seq<Word>>, e: nat, p: nat, page: seq<Word>)
    requires Tree(refs, mem) && p < |mem| && Unnamed(refs, p) && DirRef(e) !in refs
    requires |page| == NPTENTRIES && forall d :: 0 <= d < PDX_UTOP ==> page[d] == ZERO
    ensures Tree(refs[DirRef(e) := Word(p, 0)], mem[p := page])
  {
  }

  lemma TreeAddTable(refs: map<Ref, Word>, mem: seq<seq<Word>>, e: nat, d: nat, p: nat)
    requires Tree(refs, mem) && p < |mem| && Unnamed(refs, p)
    requires DirRef(e) in refs && d < PDX_UTOP && TableRef(e, d) !in refs
    ensures var w := Word(p, PDE_FLAGS);
            var dir := refs[DirRef(e)].frame;
            Tree(refs[TableRef(e, d) := w], mem[p := ZeroPage()][dir := mem[dir][d := w]])
  {
  }

  lemma FramesDiffer(refs: map<Ref, Word>, r: Ref, s: Ref)
    requires Shape(refs) && r in refs && s in refs && r != s && !r.PageRef?
    ensures refs[r].frame != refs[s].frame
  {
  }

  lemma ShapeSetPage(refs: map<Ref, Word>, e: nat, d: nat, t: nat, w: Word)
    requires Shape(refs) && TableRef(e, d) in refs && t < NPTENTRIES && Present(w)
    requires forall r :: r in refs && refs[r].frame == w.frame ==> r.PageRef?
    ensures Shape(refs[PageRef(e, d, t) := w])
  {
  }

  lemma TreeSetPage(refs: map<Ref, Word>, mem: seq<seq<Word>>, e: nat, d: nat, t: nat, w: Word)
    requires Tree(refs, mem) && TableRef(e, d) in refs && t < NPTENTRIES
    requires w.frame < |mem| && Present(w)
    requires forall r :: r in refs && refs[r].frame == w.frame ==> r.PageRef?
    ensures var pt := refs[TableRef(e, d)].frame;
            Tree(refs[PageRef(e, d, t) := w], mem[pt := mem[pt][t := w]])
  {
    hide Shape;
    var pt := refs[TableRef(e, d)].frame;
    var after, mem1 := refs[PageRef(e, d, t) := w], mem[pt := mem[pt][t := w]];
    ShapeSetPage(refs, e, d, t, w);
    forall f: nat, i: nat | DirRef(f) in after && i < PDX_UTOP
      ensures mem1[after[DirRef(f)].frame][i] == Held(after, TableRef(f, i))
    {
      FramesDiffer(refs, DirRef(f), TableRef(e, d));
    }
    forall f: nat, i: nat, j: nat | TableRef(f, i) in after && j < NPTENTRIES
      ensures mem1[after[TableRef(f, i)].frame][j] == Held(after, PageRef(f, i, j))
    {
      if f != e || i != d {
        FramesDiffer(refs, TableRef(f, i), TableRef(e, d));
      }
    }
  }

  lemma ShapeRemovePage(refs: map<Ref, Word>, e: nat, d: nat, t: nat)
    requires Shape(refs) && PageRef(e, d, t) in refs
    ensures Shape(refs - {PageRef(e, d, t)}) && TableRef(e, d) in refs && t < NPTENTRIES
  {
  }

  lemma TreeRemovePage(refs: map<Ref, Word>, mem: seq<seq<Word>>, e: nat, d: nat, t: nat)
    requires Tree(refs, mem) && PageRef(e, d, t) in refs
    ensures var pt := refs[TableRef(e, d)].frame;
            Tree(refs - {PageRef(e, d, t)}, mem[pt := mem[pt][t := ZERO]])
  {
    hide Shape;
    ShapeRemovePage(refs, e, d, t);
    var pt := refs[TableRef(e, d)].frame;
    var after, mem1 := refs - {PageRef(e, d, t)}, mem[pt := mem[pt][t := ZERO]];
    forall f: nat, i: nat | DirRef(f) in after && i < PDX_UTOP
      ensures mem1[after[DirRef(f)].frame][i] == Held(after, TableRef(f, i))
    {
      FramesDiffer(refs, DirRef(f), TableRef(e, d));
    }
    forall f: nat, i: nat, j: nat | TableRef(f, i) in after && j < NPTENTRIES
      ensures mem1[after[TableRef(f, i)].frame][j] == Held(after, PageRef(f, i, j))
    {
      if f != e || i != d {
        FramesDiffer(refs, TableRef(f, i), TableRef(e, d));
      }
    }
  }

  lemma TreeRemoveTable(refs: map<Ref, Word>, mem: seq<seq<Word>>, e: nat, d: nat)
    requires Tree(refs, mem) && TableRef(e, d) in refs
    requires forall t: nat :: PageRef(e, d, t) !in refs
    ensures var dir := refs[DirRef(e)].frame;
            Tree(refs - {TableRef(e, d)}, mem[dir := mem[dir][d := ZERO]])
  {
  }

  lemma TreeRemoveDir(refs: map<Ref, Word>, mem: seq<seq<Word>>, e: nat)
    requires Tree(refs, mem) && DirRef(e) in refs
    requires forall d: nat :: TableRef(e, d) !in refs
    ensures Tree(refs - {DirRef(e)}, mem)
  {
  }

  /** The page after the i-th on a free list. */
  function Next(s: seq<nat>, i: nat): int {
    if i < |s| then s[i] else NULL
  }

  /** The page manager as a value.  The first five fields are what kern/pmap.c stores;
      free spells the linked list out, head first, and refs lists every counted reference
      with the word that holds it. */
  datatype Pm = Pm(
    ppRef: seq<nat>,
    ppLink: seq<int>,
    pageFreeList: int,
    mem: seq<seq<Word>>,
    envPgdir: map<nat, nat>,
    free: seq<nat>,
    refs: map<Ref, Word>,
    managed: set<nat>)      // the pages page_init put on the free list

  /** The list through pp_link is acyclic, duplicate-free and holds unreferenced pages. */
  ghost predicate ListOk(m: Pm) {
    && |m.ppRef| == |m.ppLink| == |m.mem|
    && (forall p :: p in m.managed ==> p < |m.mem|)
    && NoDup(m.free)
    && (forall i :: 0 <= i < |m.free| ==> m.free[i] in m.managed && m.ppRef[m.free[i]] == 0)
    && m.pageFreeList == Next(m.free, 0)
    && (forall i :: 0 <= i < |m.free| ==> m.ppLink[m.free[i]] == Next(m.free, i + 1))
    && (forall p :: 0 <= p < |m.mem| && p !in m.free ==> m.ppLink[p] == NULL)
  }

  ghost predicate TreeOk(m: Pm) {
    && (forall r :: r in m.refs ==> m.refs[r].frame in m.managed && m.refs[r].frame !in m.free)
    && (forall e: nat :: e in m.envPgdir <==> DirRef(e) in m.refs)
    && (forall e: nat :: DirRef(e) in m.refs ==> m.refs[DirRef(e)] == Word(m.envPgdir[e], 0))
    && Tree(m.refs, m.mem)
  }

  ghost predicate CountsOk(m: Pm) {
    forall p :: p in m.managed ==> p < |m.ppRef| && m.ppRef[p] == Count(m.refs, p)
  }

  ghost predicate Valid(m: Pm) {
    ListOk(m) && TreeOk(m) && CountsOk(m)
  }

  /** Every unreferenced managed page is on the free list, except the pages in transit. */
  ghost predicate Settled(m: Pm, transit: set<nat>) {
    forall p :: p in m.managed && p !in transit && Unnamed(m.refs, p) ==> p in m.free
  }

  /** A page that may be mapped as user data. */
  ghost predicate IsDataPage(m: Pm, p: nat) {
    && p in m.managed && p !in m.free
    && (forall r :: r in m.refs && m.refs[r].frame == p ==> r.PageRef?)
  }

  /** The decrement of a 16-bit counter. */
  function Dec16(n: nat): nat {
    if n == 0 then 0xFFFF else n - 1
  }

  /** The increment of a 16-bit counter. */
  function Inc16(n: nat): nat {
    (n + 1) % 0x1_0000
  }

  function Set<T>(s: seq<T>, i: nat, x: T): seq<T> {
    if i < |s| then s[i := x] else s
  }

  function SetEntry(mem: seq<seq<Word>>, p: nat, i: nat, w: Word): seq<seq<Word>> {
    if p < |mem| then mem[p := Set(mem[p], i, w)] else mem
  }

  function At(s: seq<nat>, i: nat): nat {
    if i < |s| then s[i] else 0
  }

  /** page_alloc when the free list is not empty. */
  ghost function Alloc(m: Pm, zero: bool): Pm {
    var p := At(m.free, 0);
    m.(ppLink := Set(m.ppLink, p, NULL), pageFreeList := Next(m.free, 1), free := if m.free == [] then [] else m.free[1..],
       mem := if zero then Set(m.mem, p, ZeroPage()) else m.mem)
  }

  lemma AllocLinks(m: Pm, zero: bool, i: nat)
    requires ListOk(m) && m.free != [] && i < |m.free| - 1
    ensures var n := Alloc(m, zero);
            && i < |n.free| && n.free[i] == m.free[i + 1] && n.free[i] in m.managed && n.free[i] < |n.ppRef| == |n.ppLink|
            && n.ppRef[n.free[i]] == 0 && n.ppLink[n.free[i]] == Next(n.free, i + 1)
  {
    assert m.free[0] != m.free[i + 1];
    assert m.ppLink[m.free[i + 1]] == Next(m.free, i + 2);
  }

  lemma AllocUnlinked(m: Pm, zero: bool, q: nat)
    requires ListOk(m) && m.free != [] && q < |m.mem| && q !in m.free[1..]
    ensures q < |Alloc(m, zero).ppLink| && Alloc(m, zero).ppLink[q] == NULL
  {
    assert m.free == [m.free[0]] + m.free[1..];
    assert q == m.free[0] || q !in m.free;
  }

  lemma AllocKeepsList(m: Pm, zero: bool)
    requires ListOk(m) && m.free != []
    ensures ListOk(Alloc(m, zero))
  {
    var n := Alloc(m, zero);
    forall i | 0 <= i < |n.free|
      ensures n.free[i] in n.managed && n.ppRef[n.free[i]] == 0 && n.ppLink[n.free[i]] == Next(n.free, i + 1)
    {
      AllocLinks(m, zero, i);
    }
    forall q | 0 <= q < |n.mem| && q !in n.free
      ensures n.ppLink[q] == NULL
    {
      AllocUnlinked(m, zero, q);
    }
  }

  /** page_free. */
  ghost function Free(m: Pm, p: nat): Pm {
    m.(ppLink := Set(m.ppLink, p, m.pageFreeList), pageFreeList := p, free := [p] + m.free)
  }

  lemma FreeKeepsList(m: Pm, p: nat)
    requires ListOk(m) && p in m.managed && m.ppRef[p] == 0 && p !in m.free
    ensures ListOk(Free(m, p))
  {
  }

  /** page_decref. */
  ghost function Decref(m: Pm, p: nat): Pm {
    var m1 := m.(ppRef := Set(m.ppRef, p, Dec16(At(m.ppRef, p))));
    if At(m1.ppRef, p) == 0 then Free(m1, p) else m1
  }

  lemma DecrefKeepsList(m: Pm, p: nat)
    requires ListOk(m) && p in m.managed && m.ppRef[p] >= 1
    ensures ListOk(Decref(m, p))
    ensures Decref(m, p).ppRef == m.ppRef[p := m.ppRef[p] - 1]
    ensures Decref(m, p).free == if m.ppRef[p] == 1 then [p] + m.free else m.free
  {
    var m1 := m.(ppRef := m.ppRef[p := m.ppRef[p] - 1]);
    assert Decref(m, p) == if m.ppRef[p] == 1 then Free(m1, p) else m1;
    assert ListOk(m1);
    hide Decref, Set, At;
    if m1.ppRef[p] == 0 {
      FreeKeepsList(m1, p);
      hide ListOk;
    }
  }

  /** Naming the first free page by reference r. */
  ghost function Adopt(m: Pm, r: Ref, w: Word, mem: seq<seq<Word>>, dirs: map<nat, nat>): Pm {
    Alloc(m, true).(ppRef := Set(m.ppRef, w.frame, Inc16(At(m.ppRef, w.frame))), refs := m.refs[r := w], mem := mem, envPgdir := dirs)
  }

  ghost predicate Adoptable(m: Pm, r: Ref, w: Word, mem: seq<seq<Word>>, dirs: map<nat, nat>) {
    && r !in m.refs && m.free != [] && w.frame == m.free[0]
    && |mem| == |m.mem| && Tree(m.refs[r := w], mem)
    && (r.DirRef? ==> w.flags == 0 && dirs == m.envPgdir[r.env := w.frame])
    && (!r.DirRef? ==> dirs == m.envPgdir)
  }

  lemma AdoptKeepsList(m: Pm, r: Ref, w: Word, mem: seq<seq<Word>>, dirs: map<nat, nat>)
    requires ListOk(m) && Adoptable(m, r, w, mem, dirs)
    ensures ListOk(Adopt(m, r, w, mem, dirs))
  {
    hide Tree;
    AllocKeepsList(m, true);
    HeadOnly(m.free, w.frame);
  }

  lemma HeadOnly<T>(free: seq<T>, x: T)
    requires NoDup(free) && free != []
    ensures free[0] !in free[1..] && (x !in free ==> x !in free[1..])
  {
  }

  lemma AdoptFrame(m: Pm, r: Ref, w: Word, mem: seq<seq<Word>>, dirs: map<nat, nat>, s: Ref)
    requires ListOk(m) && TreeOk(m) && Adoptable(m, r, w, mem, dirs) && (s == r || s in m.refs)
    ensures var f := if s == r then w.frame else m.refs[s].frame; f in m.managed && f !in m.free[1..]
  {
    hide Tree;
    HeadOnly(m.free, if s == r then w.frame else m.refs[s].frame);
  }

  lemma AdoptDir(m: Pm, r: Ref, w: Word, mem: seq<seq<Word>>, dirs: map<nat, nat>, e: nat)
    requires TreeOk(m) && Adoptable(m, r, w, mem, dirs)
    ensures e in dirs <==> DirRef(e) in m.refs[r := w]
    ensures DirRef(e) in m.refs[r := w] ==> m.refs[r := w][DirRef(e)] == Word(dirs[e], 0)
  {
    hide Tree;
    assert DirRef(e) in m.refs <==> e in m.envPgdir;
  }

  lemma AdoptKeepsTree(m: Pm, r: Ref, w: Word, mem: seq<seq<Word>>, dirs: map<nat, nat>)
    requires ListOk(m) && TreeOk(m) && Adoptable(m, r, w, mem, dirs)
    ensures TreeOk(Adopt(m, r, w, mem, dirs))
  {
    hide Tree, ListOk;
    var n := Adopt(m, r, w, mem, dirs);
    forall s | s in n.refs
      ensures n.refs[s].frame in n.managed && n.refs[s].frame !in n.free
    {
      AdoptFrame(m, r, w, mem, dirs, s);
    }
    forall e: nat
      ensures e in n.envPgdir <==> DirRef(e) in n.refs
      ensures DirRef(e) in n.refs ==> n.refs[DirRef(e)] == Word(n.envPgdir[e], 0)
    {
      AdoptDir(m, r, w, mem, dirs, e);
    }
  }

  lemma AdoptKeeps(m: Pm, r: Ref, w: Word, mem: seq<seq<Word>>, dirs: map<nat, nat>)
    requires Valid(m) && Adoptable(m, r, w, mem, dirs)
    ensures Valid(Adopt(m, r, w, mem, dirs))
  {
    hide Tree, Count, TreeOk;
    AdoptKeepsList(m, r, w, mem, dirs);
    AdoptKeepsTree(m, r, w, mem, dirs);
    CountAdd(m.refs, r, w);
    assert CountsOk(Adopt(m, r, w, mem, dirs));
    hide CountsOk, ListOk;
  }

  lemma AdoptSettled(m: Pm, r: Ref, w: Word, mem: seq<seq<Word>>, dirs: map<nat, nat>, transit: set<nat>)
    requires Valid(m) && Adoptable(m, r, w, mem, dirs) && Settled(m, transit)
    ensures Settled(Adopt(m, r, w, mem, dirs), transit)
  {
    hide Valid, Tree;
    var n := Adopt(m, r, w, mem, dirs);
    forall p | p in m.managed && p !in transit && Unnamed(n.refs, p)
      ensures p in n.free
    {
      assert n.refs[r].frame == m.free[0];
      assert n.refs - {r} == m.refs - {r};
      UnnamedBefore(m.refs, n.refs, r, p);
    }
  }

  /** pgdir_walk with create set, when the table is missing and a page is free. */
  ghost function AddTable(m: Pm, e: nat, d: nat): Pm {
    var w := Word(At(m.free, 0), PDE_FLAGS);
    Adopt(m, TableRef(e, d), w, TableMem(m, e, d), m.envPgdir)
  }

  ghost function TableMem(m: Pm, e: nat, d: nat): seq<seq<Word>> {
    var p := At(m.free, 0);
    SetEntry(Set(m.mem, p, ZeroPage()), Held(m.refs, DirRef(e)).frame, d, Word(p, PDE_FLAGS))
  }

  /** The table for directory index d can be had. */
  ghost predicate Walkable(m: Pm, e: nat, d: nat) {
    DirRef(e) in m.refs && d < PDX_UTOP && (TableRef(e, d) in m.refs || m.free != [])
  }

  lemma AddTableFits(m: Pm, e: nat, d: nat)
    requires Valid(m) && Walkable(m, e, d) && TableRef(e, d) !in m.refs
    ensures Adoptable(m, TableRef(e, d), Word(At(m.free, 0), PDE_FLAGS), TableMem(m, e, d), m.envPgdir)
  {
    hide CountsOk;
    TreeAddTable(m.refs, m.mem, e, d, m.free[0]);
  }

  /** env_setup_vm: the directory is a copy of the kernel's, with the table window at UVPT. */
  ghost function DirPage(kern: seq<Word>, p: nat): seq<Word> {
    Set(kern, PDX_UVPT, Word(p, PTE_P | PTE_U))
  }

  ghost predicate KernDir(kern: seq<Word>) {
    |kern| == NPTENTRIES && forall d :: 0 <= d < PDX_UTOP ==> kern[d] == ZERO
  }

  ghost function AddDir(m: Pm, e: nat, kern: seq<Word>): Pm {
    var p := At(m.free, 0);
    Adopt(m, DirRef(e), Word(p, 0), Set(m.mem, p, DirPage(kern, p)), m.envPgdir[e := p])
  }

  lemma AddDirFits(m: Pm, e: nat, kern: seq<Word>)
    requires Valid(m) && KernDir(kern) && DirRef(e) !in m.refs && m.free != []
    ensures var p := m.free[0];
            Adoptable(m, DirRef(e), Word(p, 0), Set(m.mem, p, DirPage(kern, p)), m.envPgdir[e := p])
  {
    hide CountsOk;
    TreeAddDir(m.refs, m.mem, e, m.free[0], DirPage(kern, m.free[0]));
  }

  /** Counts are exact, except that the count of p already includes a mapping still to be made. */
  ghost predicate CountsOwed(m: Pm, p: nat) {
    forall q :: q in m.managed ==> q < |m.ppRef| && m.ppRef[q] == Count(m.refs, q) + (if q == p then 1 else 0)
  }

  ghost predicate Owed(m: Pm, p: nat) {
    ListOk(m) && TreeOk(m) && CountsOwed(m, p) && IsDataPage(m, p)
  }

  /** Giving up reference r: its page loses a count, and memory and directories become what is given. */
  ghost function Drop(m: Pm, r: Ref, mem: seq<seq<Word>>, dirs: map<nat, nat>): Pm {
    Decref(m, Held(m.refs, r).frame).(mem := mem, envPgdir := dirs, refs := m.refs - {r})
  }

  /** What memory and directories must be for the references without r. */
  ghost predicate Fits(m: Pm, r: Ref, mem: seq<seq<Word>>, dirs: map<nat, nat>) {
    && r in m.refs && |mem| == |m.mem| && Tree(m.refs - {r}, mem)
    && dirs == if r.DirRef? then m.envPgdir - {r.env} else m.envPgdir
  }

  lemma DropKeepsList(m: Pm, r: Ref, mem: seq<seq<Word>>, dirs: map<nat, nat>, p: nat)
    requires ListOk(m) && p in m.managed && m.ppRef[p] >= 1
    requires r in m.refs && m.refs[r].frame == p && |mem| == |m.mem|
    ensures var n := Drop(m, r, mem, dirs);
            && ListOk(n)
            && n.refs == m.refs - {r} && n.managed == m.managed
            && n.ppRef == m.ppRef[p := m.ppRef[p] - 1]
            && n.free == if m.ppRef[p] == 1 then [p] + m.free else m.free
  {
    DecrefKeepsList(m, p);
    assert Decref(m, p).managed == m.managed;
    hide Decref;
  }

  lemma DropKeepsTree(m: Pm, r: Ref, mem: seq<seq<Word>>, dirs: map<nat, nat>, p: nat)
    requires TreeOk(m) && Fits(m, r, mem, dirs) && m.refs[r].frame == p
    requires var n := Drop(m, r, mem, dirs);
             n.managed == m.managed && (n.free == m.free || (n.free == [p] + m.free && Count(m.refs, p) == 1))
    ensures TreeOk(Drop(m, r, mem, dirs))
  {
    hide Tree, Count, Decref;
    CountRemove(m.refs, r);
    var n := Drop(m, r, mem, dirs);
    forall s | s in n.refs
      ensures n.refs[s].frame in n.managed && n.refs[s].frame !in n.free
    {
      if n.refs[s].frame == p {
        CountPositive(n.refs, s);
      }
    }
  }

  lemma DropKeepsStructure(m: Pm, r: Ref, mem: seq<seq<Word>>, dirs: map<nat, nat>, p: nat)
    requires ListOk(m) && TreeOk(m) && Fits(m, r, mem, dirs)
    requires m.refs[r].frame == p && p in m.managed && m.ppRef[p] >= Count(m.refs, p)
    ensures var n := Drop(m, r, mem, dirs);
            && ListOk(n) && TreeOk(n)
            && n.refs == m.refs - {r} && n.managed == m.managed
            && m.ppRef[p] >= 1 && n.ppRef == m.ppRef[p := m.ppRef[p] - 1]
            && n.free == if m.ppRef[p] == 1 then [p] + m.free else m.free
  {
    hide TreeOk, Count, Drop;
    CountPositive(m.refs, r);
    DropKeepsList(m, r, mem, dirs, p);
    DropKeepsTree(m, r, mem, dirs, p);
  }

  lemma DropKeeps(m: Pm, r: Ref, mem: seq<seq<Word>>, dirs: map<nat, nat>)
    requires Valid(m) && Fits(m, r, mem, dirs)
    ensures Valid(Drop(m, r, mem, dirs))
  {
    hide ListOk, Tree, Count, Drop;
    CountPositive(m.refs, r);
    CountRemove(m.refs, r);
    DropKeepsStructure(m, r, mem, dirs, m.refs[r].frame);
    hide TreeOk;
  }

  lemma DropKeepsOwed(m: Pm, r: Ref, mem: seq<seq<Word>>, dirs: map<nat, nat>, owed: nat)
    requires Owed(m, owed) && Fits(m, r, mem, dirs)
    ensures Owed(Drop(m, r, mem, dirs), owed)
  {
    hide ListOk, Tree, Count, Drop;
    CountPositive(m.refs, r);
    CountRemove(m.refs, r);
    DropKeepsStructure(m, r, mem, dirs, m.refs[r].frame);
    hide TreeOk;
  }

  lemma UnnamedBefore(before: map<Ref, Word>, after: map<Ref, Word>, r: Ref, p: nat)
    requires after - {r} == before - {r} && Unnamed(after, p)
    ensures Unnamed(before - {r}, p)
    ensures (r in before ==> before[r].frame != p) ==> Unnamed(before, p)
  {
    forall s | s in before - {r}
      ensures (before - {r})[s].frame != p
    {
      assert s in after - {r};
    }
    assert forall s :: s in before && s != r ==> s in before - {r};
  }

  lemma NamedOnlyBy(refs: map<Ref, Word>, r: Ref)
    requires r in refs && Unnamed(refs - {r}, refs[r].frame)
    ensures Count(refs, refs[r].frame) == 1
  {
    assert forall s :: s in refs && s != r ==> s in refs - {r};
    CountOnce(refs, r);
  }

  /** A page given up is still named, owed a mapping, or on the free list. */
  lemma DropFrees(m: Pm, r: Ref, mem: seq<seq<Word>>, dirs: map<nat, nat>, owed: nat)
    requires Owed(m, owed) && Fits(m, r, mem, dirs)
    ensures var n := Drop(m, r, mem, dirs);
            var v := m.refs[r].frame;
            && n.refs == m.refs - {r} && n.managed == m.managed
            && (forall p :: p in m.free ==> p in n.free)
            && (v != owed && Unnamed(n.refs, v) ==> v in n.free)
  {
    hide ListOk, Tree, Count, Drop;
    CountPositive(m.refs, r);
    DropKeepsStructure(m, r, mem, dirs, m.refs[r].frame);
    if Unnamed(m.refs - {r}, m.refs[r].frame) {
      NamedOnlyBy(m.refs, r);
    }
  }

  lemma DropSettled(m: Pm, r: Ref, mem: seq<seq<Word>>, dirs: map<nat, nat>, transit: set<nat>)
    requires Valid(m) && Settled(m, transit) && Fits(m, r, mem, dirs)
    ensures Settled(Drop(m, r, mem, dirs), transit)
  {
    hide ListOk, Tree, Count, Drop;
    var v := m.refs[r].frame;
    var n := Drop(m, r, mem, dirs);
    DropKeepsStructure(m, r, mem, dirs, v);
    forall p | p in n.managed && p !in transit && Unnamed(n.refs, p)
      ensures p in n.free
    {
      if p == v {
        NamedOnlyBy(m.refs, r);
      } else {
        UnnamedBefore(m.refs, n.refs, r, p);
      }
    }
  }

  /** page_remove of a mapped page. */
  ghost function Remove(m: Pm, e: nat, d: nat, t: nat): Pm {
    Drop(m, PageRef(e, d, t), SetEntry(m.mem, Held(m.refs, TableRef(e, d)).frame, t, ZERO), m.envPgdir)
  }

  lemma RemoveFits(m: Pm, e: nat, d: nat, t: nat)
    requires TreeOk(m) && PageRef(e, d, t) in m.refs
    ensures Fits(m, PageRef(e, d, t), SetEntry(m.mem, Held(m.refs, TableRef(e, d)).frame, t, ZERO), m.envPgdir)
  {
    TreeRemovePage(m.refs, m.mem, e, d, t);
  }

  /** env_free's release of an emptied page table. */
  ghost function RemoveTable(m: Pm, e: nat, d: nat): Pm {
    Drop(m, TableRef(e, d), SetEntry(m.mem, Held(m.refs, DirRef(e)).frame, d, ZERO), m.envPgdir)
  }

  lemma RemoveTableFits(m: Pm, e: nat, d: nat)
    requires TreeOk(m) && TableRef(e, d) in m.refs && forall t: nat :: PageRef(e, d, t) !in m.refs
    ensures Fits(m, TableRef(e, d), SetEntry(m.mem, Held(m.refs, DirRef(e)).frame, d, ZERO), m.envPgdir)
  {
    TreeRemoveTable(m.refs, m.mem, e, d);
  }

  /** env_free's release of an emptied page directory. */
  ghost function RemoveDir(m: Pm, e: nat): Pm {
    Drop(m, DirRef(e), m.mem, m.envPgdir - {e})
  }

  lemma RemoveDirFits(m: Pm, e: nat)
    requires TreeOk(m) && DirRef(e) in m.refs && forall d: nat :: TableRef(e, d) !in m.refs
    ensures Fits(m, DirRef(e), m.mem, m.envPgdir - {e})
  {
    TreeRemoveDir(m.refs, m.mem, e);
  }

  ghost function Counted(m: Pm, p: nat): Pm {
    m.(ppRef := Set(m.ppRef, p, Inc16(At(m.ppRef, p))))
  }

  lemma CountedOwed(m: Pm, p: nat)
    requires Valid(m) && IsDataPage(m, p) && m.ppRef[p] < 0xFFFF
    ensures Owed(Counted(m, p), p)
  {
    hide Tree, Count;
  }

  /** Writing an entry. */
  ghost function Put(m: Pm, e: nat, d: nat, t: nat, w: Word): Pm {
    m.(mem := SetEntry(m.mem, Held(m.refs, TableRef(e, d)).frame, t, w), refs := m.refs[PageRef(e, d, t) := w])
  }

  lemma PutTree(m: Pm, e: nat, d: nat, t: nat, w: Word)
    requires Owed(m, w.frame) && TableRef(e, d) in m.refs && t < NPTENTRIES && Present(w)
    requires PageRef(e, d, t) !in m.refs
    ensures TreeOk(Put(m, e, d, t, w)) && ListOk(Put(m, e, d, t, w))
  {
    hide Tree, CountsOwed, ListOk;
    TableLens(m, e, d);
    DataPageInRangeOf(m, w.frame);
    TreeSetPage(m.refs, m.mem, e, d, t, w);
    ListIgnoresTree(m, Put(m, e, d, t, w));
  }

  lemma DataPageInRangeOf(m: Pm, p: nat)
    requires ListOk(m) && IsDataPage(m, p)
    ensures p < |m.mem|
  {
  }

  lemma PutKeeps(m: Pm, e: nat, d: nat, t: nat, w: Word)
    requires Owed(m, w.frame) && TableRef(e, d) in m.refs && t < NPTENTRIES && Present(w)
    requires PageRef(e, d, t) !in m.refs
    ensures Valid(Put(m, e, d, t, w))
  {
    hide Count, ListOk, TreeOk, SetEntry;
    PutTree(m, e, d, t, w);
    CountAdd(m.refs, PageRef(e, d, t), w);
  }

  /** page_insert once the table exists: count the new mapping, remove the old one, write the entry. */
  ghost function Map(m: Pm, e: nat, d: nat, t: nat, w: Word): Pm {
    var m1 := Counted(m, w.frame);
    Put(if PageRef(e, d, t) in m.refs then Remove(m1, e, d, t) else m1, e, d, t, w)
  }

  lemma MapKeeps(m: Pm, e: nat, d: nat, t: nat, w: Word)
    requires Valid(m) && TableRef(e, d) in m.refs && t < NPTENTRIES && IsDataPage(m, w.frame) && Present(w)
    requires m.ppRef[w.frame] < 0xFFFF
    ensures Valid(Map(m, e, d, t, w))
    ensures Map(m, e, d, t, w).refs == m.refs[PageRef(e, d, t) := w]
  {
    hide ListOk, TreeOk, CountsOk, IsDataPage, CountsOwed, Decref, SetEntry, Set, At, Held, Tree, Fits;
    var r := PageRef(e, d, t);
    CountedOwed(m, w.frame);
    var m1 := Counted(m, w.frame);
    if r in m.refs {
      RemoveFits(m1, e, d, t);
      DropKeepsOwed(m1, r, SetEntry(m1.mem, Held(m1.refs, TableRef(e, d)).frame, t, ZERO), m1.envPgdir, w.frame);
      var m2 := Remove(m1, e, d, t);
      PutKeeps(m2, e, d, t, w);
      assert m2.refs[r := w] == m.refs[r := w];
    } else {
      PutKeeps(m1, e, d, t, w);
    }
  }

  lemma MapSettled(m: Pm, e: nat, d: nat, t: nat, w: Word, transit: set<nat>)
    requires Valid(m) && Settled(m, transit) && TableRef(e, d) in m.refs && t < NPTENTRIES
    requires IsDataPage(m, w.frame) && m.ppRef[w.frame] < 0xFFFF
    ensures Settled(Map(m, e, d, t, w), transit - {w.frame})
  {
    hide ListOk, TreeOk, Count, CountsOwed, Drop, SetEntry, Set, At, Held;
    var r := PageRef(e, d, t);
    var n := Map(m, e, d, t, w);
    var m1 := Counted(m, w.frame);
    CountedOwed(m, w.frame);
    if r in m.refs {
      var v := m.refs[r].frame;
      RemoveFits(m1, e, d, t);
      DropFrees(m1, r, SetEntry(m1.mem, Held(m1.refs, TableRef(e, d)).frame, t, ZERO), m1.envPgdir, w.frame);
      forall p | p in n.managed && p !in transit - {w.frame} && Unnamed(n.refs, p)
        ensures p in n.free
      {
        assert n.refs[r] == w;
        UnnamedBefore(m.refs, n.refs, r, p);
      }
    } else {
      assert n.free == m.free && n.managed == m.managed;
      forall p | p in n.managed && p !in transit - {w.frame} && Unnamed(n.refs, p)
        ensures p in n.free
      {
        assert n.refs[r] == w;
        UnnamedBefore(m.refs, n.refs, r, p);
      }
    }
  }

  /** page_insert when the table can be had. */
  ghost function Insert(m: Pm, e: nat, d: nat, t: nat, w: Word): Pm {
    Map(if TableRef(e, d) in m.refs then m else AddTable(m, e, d), e, d, t, w)
  }

  /** The user mappings alone. */
  ghost function Pages(m: Pm): map<Ref, Word> {
    map r | r in m.refs && r.PageRef? :: m.refs[r]
  }

  function Content(m: Pm, p: nat): seq<Word> {
    if p < |m.mem| then m.mem[p] else []
  }

  /** Everything a client of the page manager may rely on between two states: it stays valid, nothing
      but the named user mapping changes, and data pages keep their contents. */
  ghost predicate Agrees(m: Pm, n: Pm, pages: map<Ref, Word>) {
    && Valid(n) && n.managed == m.managed && n.envPgdir == m.envPgdir
    && Pages(n) == pages
    && (forall p: nat :: IsDataPage(m, p) ==> Content(n, p) == Content(m, p))
  }

  lemma AddTableFacts(m: Pm, e: nat, d: nat)
    requires Valid(m) && Walkable(m, e, d) && TableRef(e, d) !in m.refs
    ensures var n := AddTable(m, e, d);
            && Agrees(m, n, Pages(m)) && TableRef(e, d) in n.refs
            && (forall p: nat :: IsDataPage(m, p) ==> IsDataPage(n, p) && At(n.ppRef, p) == At(m.ppRef, p))
  {
    hide Tree, Count, CountsOk;
    AddTableFits(m, e, d);
    AdoptKeeps(m, TableRef(e, d), Word(At(m.free, 0), PDE_FLAGS), TableMem(m, e, d), m.envPgdir);
    var n := AddTable(m, e, d);
    assert Pages(n) == Pages(m);
    AddTableData(m, e, d);
    FreshIsData(m);
    hide ListOk, TreeOk;
  }

  lemma AddTableData(m: Pm, e: nat, d: nat)
    requires m.free != []
    ensures var n := AddTable(m, e, d);
            forall p: nat :: IsDataPage(m, p) ==> IsDataPage(n, p) && At(n.ppRef, p) == At(m.ppRef, p)
  {
    assert m.free == [m.free[0]] + m.free[1..];
  }

  lemma MapMem(m: Pm, e: nat, d: nat, t: nat, w: Word, p: nat)
    ensures Map(m, e, d, t, w).managed == m.managed && Map(m, e, d, t, w).envPgdir == m.envPgdir
    ensures p != Held(m.refs, TableRef(e, d)).frame ==> Content(Map(m, e, d, t, w), p) == Content(m, p)
  {
  }

  lemma MapFacts(m: Pm, e: nat, d: nat, t: nat, w: Word)
    requires Valid(m) && TableRef(e, d) in m.refs && t < NPTENTRIES
    requires IsDataPage(m, w.frame) && Present(w) && m.ppRef[w.frame] < 0xFFFF
    ensures Agrees(m, Map(m, e, d, t, w), Pages(m)[PageRef(e, d, t) := w])
  {
    hide Valid, Map;
    MapKeeps(m, e, d, t, w);
    MapMem(m, e, d, t, w, 0);
    var n := Map(m, e, d, t, w);
    assert Pages(n) == Pages(m)[PageRef(e, d, t) := w];
    forall p: nat | IsDataPage(m, p)
      ensures Content(n, p) == Content(m, p)
    {
      MapMem(m, e, d, t, w, p);
    }
  }

  ghost predicate Insertable(m: Pm, e: nat, d: nat, t: nat, w: Word) {
    && Valid(m) && Walkable(m, e, d) && t < NPTENTRIES
    && IsDataPage(m, w.frame) && Present(w) && At(m.ppRef, w.frame) < 0xFFFF
  }

  /** page_insert keeps every count exact and puts exactly the named mapping in place. */
  lemma InsertFacts(m: Pm, e: nat, d: nat, t: nat, w: Word)
    requires Insertable(m, e, d, t, w)
    ensures Agrees(m, Insert(m, e, d, t, w), Pages(m)[PageRef(e, d, t) := w])
  {
    hide Valid, IsDataPage, Map, AddTable;
    DataPageInRange(m, w.frame);
    if TableRef(e, d) in m.refs {
      MapFacts(m, e, d, t, w);
    } else {
      AddTableFacts(m, e, d);
      var m1 := AddTable(m, e, d);
      DataPageInRange(m1, w.frame);
      MapFacts(m1, e, d, t, w);
    }
  }

  lemma DataPageInRange(m: Pm, p: nat)
    requires Valid(m) && IsDataPage(m, p)
    ensures p < |m.ppRef| && p < |m.mem|
  {
  }

  lemma InsertSettled(m: Pm, e: nat, d: nat, t: nat, w: Word, transit: set<nat>)
    requires Insertable(m, e, d, t, w) && Settled(m, transit)
    ensures Settled(Insert(m, e, d, t, w), transit - {w.frame})
  {
    hide Valid, IsDataPage, Map, Settled, Adopt, Adoptable;
    DataPageInRange(m, w.frame);
    if TableRef(e, d) in m.refs {
      MapSettled(m, e, d, t, w, transit);
    } else {
      AddTableFits(m, e, d);
      AddTableFacts(m, e, d);
      AdoptSettled(m, TableRef(e, d), Word(At(m.free, 0), PDE_FLAGS), TableMem(m, e, d), m.envPgdir, transit);
      var m1 := AddTable(m, e, d);
      DataPageInRange(m1, w.frame);
      MapSettled(m1, e, d, t, w, transit);
    }
  }

  lemma OwedFacts(m: Pm, p: nat)
    requires Owed(m, p)
    ensures p in m.managed && p < |m.ppRef| && m.ppRef[p] == Count(m.refs, p) + 1
  {
  }

  lemma TableThere(m: Pm, e: nat, d: nat, t: nat)
    requires TreeOk(m) && PageRef(e, d, t) in m.refs
    ensures TableRef(e, d) in m.refs && DirRef(e) in m.refs && d < PDX_UTOP && t < NPTENTRIES
  {
  }

  /** Inserting a page again where it is already mapped changes its permissions only:
      its count stays and it never visits the free list. */
  lemma ReinsertKeepsPage(m: Pm, e: nat, d: nat, t: nat, w: Word)
    requires Insertable(m, e, d, t, w)
    requires PageRef(e, d, t) in m.refs && m.refs[PageRef(e, d, t)].frame == w.frame
    ensures var n := Insert(m, e, d, t, w);
            n.ppRef == m.ppRef && n.free == m.free && n.refs == m.refs[PageRef(e, d, t) := w]
  {
    hide ListOk, TreeOk, CountsOk, CountsOwed, IsDataPage, Tree, Count, Drop, Fits;
    var r := PageRef(e, d, t);
    var m1 := Counted(m, w.frame);
    TableThere(m, e, d, t);
    DataPageInRange(m, w.frame);
    CountedOwed(m, w.frame);
    OwedFacts(m1, w.frame);
    RemoveFits(m1, e, d, t);
    CountPositive(m.refs, r);
    DropKeepsStructure(m1, r, SetEntry(m1.mem, Held(m1.refs, TableRef(e, d)).frame, t, ZERO), m1.envPgdir, w.frame);
  }

  /** page_remove gives up exactly the named mapping. */
  lemma RemoveFacts(m: Pm, e: nat, d: nat, t: nat, transit: set<nat>)
    requires Valid(m) && PageRef(e, d, t) in m.refs
    ensures Agrees(m, Remove(m, e, d, t), Pages(m) - {PageRef(e, d, t)})
    ensures Settled(m, transit) ==> Settled(Remove(m, e, d, t), transit)
  {
    hide ListOk, CountsOk, Tree, Decref, Settled, Count;
    var r := PageRef(e, d, t);
    var mem := SetEntry(m.mem, Held(m.refs, TableRef(e, d)).frame, t, ZERO);
    RemoveFits(m, e, d, t);
    DropKeeps(m, r, mem, m.envPgdir);
    if Settled(m, transit) {
      DropSettled(m, r, mem, m.envPgdir, transit);
    }
    DecrefFrame(m, Held(m.refs, r).frame);
    TableThere(m, e, d, t);
    var n := Remove(m, e, d, t);
    assert Pages(n) == Pages(m) - {r};
  }

  lemma DecrefFrame(m: Pm, p: nat)
    ensures Decref(m, p).managed == m.managed
  {
  }

  /** A page off the free list may be mapped, and nothing else changes. */
  lemma AllocFacts(m: Pm, zero: bool)
    requires Valid(m) && m.free != []
    ensures var n := Alloc(m, zero);
            var p := m.free[0];
            && Agrees(m, n, Pages(m)) && n.refs == m.refs
            && IsDataPage(n, p) && At(n.ppRef, p) == 0
            && (zero ==> Content(n, p) == ZeroPage())
            && (forall q: nat :: IsDataPage(m, q) ==> IsDataPage(n, q))
  {
    hide Tree, Count, TreeOk;
    AllocKeepsList(m, zero);
    AllocTree(m, zero);
    var n := Alloc(m, zero);
    assert CountsOk(n);
    FreshIsData(m);
    hide ListOk, CountsOk;
    assert Pages(n) == Pages(m);
    assert m.free == [m.free[0]] + m.free[1..];
  }

  lemma FreshIsData(m: Pm)
    requires ListOk(m) && TreeOk(m) && m.free != []
    ensures m.free[0] in m.managed && m.free[0] < |m.mem| && m.free[0] !in m.free[1..]
    ensures forall r :: r in m.refs ==> m.refs[r].frame != m.free[0]
    ensures m.ppRef[m.free[0]] == 0
  {
    hide Tree;
  }

  lemma AllocTree(m: Pm, zero: bool)
    requires ListOk(m) && TreeOk(m) && m.free != []
    ensures TreeOk(Alloc(m, zero))
  {
    hide Tree, ListOk;
    FreshIsData(m);
    TreeOtherPage(m.refs, m.mem, m.free[0], ZeroPage());
    forall r | r in m.refs
      ensures m.refs[r].frame !in m.free[1..]
    {
      assert m.refs[r].frame !in m.free;
    }
  }

  lemma TreeOtherPage(refs: map<Ref, Word>, mem: seq<seq<Word>>, p: nat, page: seq<Word>)
    requires Tree(refs, mem) && Unnamed(refs, p) && p < |mem| && |page| == NPTENTRIES
    ensures Tree(refs, mem[p := page])
  {
    hide Shape;
  }

  lemma AllocSettled(m: Pm, zero: bool, transit: set<nat>)
    requires m.free != [] && Settled(m, transit)
    ensures Settled(Alloc(m, zero), transit + {m.free[0]})
  {
    assert m.free == [m.free[0]] + m.free[1..];
  }

  /** Giving back a page that was never mapped restores the free list exactly. */
  lemma FreeUndoesAlloc(m: Pm, zero: bool)
    requires ListOk(m) && m.free != []
    ensures var n := Free(Alloc(m, zero), m.free[0]);
            n == m.(mem := n.mem)
  {
    var n := Free(Alloc(m, zero), m.free[0]);
    assert m.free == [m.free[0]] + m.free[1..];
    assert n.ppLink == m.ppLink;
  }

  /** At a system call boundary the free list is exactly the pages nothing names. */
  lemma FreeIffUnnamed(m: Pm, p: nat)
    requires Valid(m) && Settled(m, {}) && p in m.managed
    ensures p in m.free <==> Unnamed(m.refs, p)
  {
    hide Tree, Count;
  }

  ghost function Without(refs: map<Ref, Word>, e: nat): map<Ref, Word> {
    map r | r in refs && r.env != e :: refs[r]
  }

  /** Destroying an environment frees exactly the pages only it named. */
  lemma DestroyFrees(m: Pm, n: Pm, e: nat, p: nat)
    requires Valid(m) && Settled(m, {}) && Valid(n) && Settled(n, {})
    requires n.refs == Without(m.refs, e) && n.managed == m.managed && p in m.managed
    ensures p in n.free <==> p in m.free || forall r :: r in m.refs && m.refs[r].frame == p ==> r.env == e
  {
    hide Valid, Settled;
    FreeIffUnnamed(m, p);
    FreeIffUnnamed(n, p);
    if Unnamed(n.refs, p) {
      forall r | r in m.refs && m.refs[r].frame == p
        ensures r.env == e
      {
        assert r.env != e ==> r in n.refs;
      }
    }
  }

  /** What env_free has released when it reaches directory index d and table index t. */
  ghost predicate Swept(r: Ref, e: nat, d: nat, t: nat) {
    && r.env == e
    && ((r.TableRef? && r.pdx < d) || (r.PageRef? && (r.pdx < d || (r.pdx == d && r.ptx < t))))
  }

  ghost function Sweep(refs: map<Ref, Word>, e: nat, d: nat, t: nat): map<Ref, Word> {
    map r | r in refs && !Swept(r, e, d, t) :: refs[r]
  }

  /** The state of env_free part way through. */
  ghost predicate Sweeping(m0: Pm, m: Pm, e: nat, d: nat, t: nat) {
    && Valid(m) && Settled(m, {})
    && m.managed == m0.managed && m.envPgdir == m0.envPgdir
    && m.refs == Sweep(m0.refs, e, d, t)
    && (forall p: nat :: IsDataPage(m0, p) ==> Content(m, p) == Content(m0, p))
  }

  lemma SweepPage(m0: Pm, m: Pm, e: nat, d: nat, t: nat)
    requires Valid(m0) && Sweeping(m0, m, e, d, t) && PageRef(e, d, t) in m.refs
    ensures Sweeping(m0, Remove(m, e, d, t), e, d, t + 1)
  {
    hide Valid, Settled, Remove, TreeOk, ListOk, Pages;
    TreeOfValid(m);
    TableThere(m, e, d, t);
    RemoveFacts(m, e, d, t, {});
    RemoveParts(m, e, d, t);
    var n := Remove(m, e, d, t);
    assert n.refs == Sweep(m0.refs, e, d, t + 1);
    assert TableRef(e, d) in m0.refs;
  }

  lemma TreeOfValid(m: Pm)
    requires Valid(m)
    ensures TreeOk(m) && ListOk(m)
  {
  }

  lemma RemoveParts(m: Pm, e: nat, d: nat, t: nat)
    ensures Remove(m, e, d, t).mem == SetEntry(m.mem, Held(m.refs, TableRef(e, d)).frame, t, ZERO)
    ensures Remove(m, e, d, t).refs == m.refs - {PageRef(e, d, t)}
    ensures Remove(m, e, d, t).envPgdir == m.envPgdir
  {
  }

  lemma SweepNoPage(m0: Pm, m: Pm, e: nat, d: nat, t: nat)
    requires Sweeping(m0, m, e, d, t) && PageRef(e, d, t) !in m.refs
    ensures Sweeping(m0, m, e, d, t + 1)
  {
    hide Valid, Settled;
    assert PageRef(e, d, t) !in m0.refs;
    assert m.refs == Sweep(m0.refs, e, d, t + 1);
  }

  lemma SweepTable(m0: Pm, m: Pm, e: nat, d: nat)
    requires Valid(m0) && Sweeping(m0, m, e, d, NPTENTRIES) && TableRef(e, d) in m.refs && d < PDX_UTOP
    ensures Sweeping(m0, RemoveTable(m, e, d), e, d + 1, 0)
  {
    hide ListOk, CountsOk, Tree, Settled, Drop, Count;
    forall t: nat
      ensures PageRef(e, d, t) !in m.refs
    {
      if PageRef(e, d, t) in m0.refs {
        TableThere(m0, e, d, t);
      }
    }
    DirThere(m0, e, d);
    RemoveTableFits(m, e, d);
    var mem := SetEntry(m.mem, Held(m.refs, DirRef(e)).frame, d, ZERO);
    DropKeeps(m, TableRef(e, d), mem, m.envPgdir);
    DropSettled(m, TableRef(e, d), mem, m.envPgdir, {});
    DropParts(m, TableRef(e, d), mem, m.envPgdir);
    var n := RemoveTable(m, e, d);
    forall r | r in m0.refs && Swept(r, e, d + 1, 0)
      ensures Swept(r, e, d, NPTENTRIES) || r == TableRef(e, d)
    {
      if r.PageRef? {
        TableThere(m0, r.env, r.pdx, r.ptx);
      }
    }
    assert n.refs == Sweep(m0.refs, e, d + 1, 0);
  }

  lemma DirThere(m: Pm, e: nat, d: nat)
    requires TreeOk(m) && TableRef(e, d) in m.refs
    ensures DirRef(e) in m.refs
  {
  }

  lemma DropParts(m: Pm, r: Ref, mem: seq<seq<Word>>, dirs: map<nat, nat>)
    ensures var n := Drop(m, r, mem, dirs);
            n.mem == mem && n.envPgdir == dirs && n.refs == m.refs - {r} && n.managed == m.managed
  {
  }

  lemma SweepNoTable(m0: Pm, m: Pm, e: nat, d: nat)
    requires Valid(m0) && Sweeping(m0, m, e, d, 0) && TableRef(e, d) !in m.refs
    ensures Sweeping(m0, m, e, d + 1, 0)
  {
    hide ListOk, CountsOk, Tree, Settled;
    assert TableRef(e, d) !in m0.refs;
    forall r | r in m0.refs && Swept(r, e, d + 1, 0)
      ensures Swept(r, e, d, 0)
    {
      if r.PageRef? {
        TableThere(m0, r.env, r.pdx, r.ptx);
      }
    }
    assert m.refs == Sweep(m0.refs, e, d + 1, 0);
  }

  lemma SweepDir(m0: Pm, m: Pm, e: nat)
    requires Valid(m0) && Sweeping(m0, m, e, PDX_UTOP, 0) && DirRef(e) in m.refs
    ensures var n := RemoveDir(m, e);
            && Valid(n) && Settled(n, {}) && n.managed == m0.managed
            && n.refs == Without(m0.refs, e) && n.mem == m.mem
  {
    hide ListOk, CountsOk, Tree, Settled, Drop, Count;
    forall r | r in m0.refs && r.env == e && !r.DirRef?
      ensures Swept(r, e, PDX_UTOP, 0)
    {
      if r.PageRef? {
        TableThere(m0, r.env, r.pdx, r.ptx);
      } else {
        TableInRange(m0, r.env, r.pdx);
      }
    }
    RemoveDirFits(m, e);
    DropKeeps(m, DirRef(e), m.mem, m.envPgdir - {e});
    DropSettled(m, DirRef(e), m.mem, m.envPgdir - {e}, {});
    DropParts(m, DirRef(e), m.mem, m.envPgdir - {e});
    assert RemoveDir(m, e).refs == Without(m0.refs, e);
  }

  lemma TableInRange(m: Pm, e: nat, d: nat)
    requires TreeOk(m) && TableRef(e, d) in m.refs
    ensures d < PDX_UTOP
  {
  }

  /** At 65535 mappings the 16-bit count wraps to zero while 65536 references remain. */
  lemma CountWraps(m: Pm, e: nat, d: nat, t: nat, w: Word)
    requires Valid(m) && TableRef(e, d) in m.refs && t < NPTENTRIES && IsDataPage(m, w.frame) && Present(w)
    requires At(m.ppRef, w.frame) == 0xFFFF
    requires PageRef(e, d, t) in m.refs ==> m.refs[PageRef(e, d, t)].frame != w.frame
    ensures var n := Map(m, e, d, t, w);
            !Valid(n) && At(n.ppRef, w.frame) == 0 && Count(n.refs, w.frame) == 0x1_0000
  {
    hide ListOk, Tree, Count, SetEntry;
    var r := PageRef(e, d, t);
    var n := Map(m, e, d, t, w);
    DataPageInRange(m, w.frame);
    MapMem(m, e, d, t, w, 0);
    assert n.refs == m.refs[r := w];
    assert At(n.ppRef, w.frame) == 0;
    NewNaming(m.refs, r, w);
  }

  lemma NewNaming(refs: map<Ref, Word>, r: Ref, w: Word)
    requires r in refs ==> refs[r].frame != w.frame
    ensures Count(refs[r := w], w.frame) == Count(refs, w.frame) + 1
  {
    assert Naming(refs[r := w], w.frame) == Naming(refs, w.frame) + {r};
  }

  /** With the old mapping of the same page at the address, the increment and the decrement cancel. */
  lemma ReinsertAtLimit(m: Pm, e: nat, d: nat, t: nat, w: Word)
    requires Valid(m) && TableRef(e, d) in m.refs && t < NPTENTRIES && IsDataPage(m, w.frame) && Present(w)
    requires At(m.ppRef, w.frame) == 0xFFFF
    requires PageRef(e, d, t) in m.refs && m.refs[PageRef(e, d, t)].frame == w.frame
    ensures Valid(Map(m, e, d, t, w))
  {
    hide ListOk, Tree, Count, Map;
    var r := PageRef(e, d, t);
    DataPageInRange(m, w.frame);
    TreeSetPage(m.refs, m.mem, e, d, t, w);
    ReinsertParts(m, e, d, t, w);
    CountRemove(m.refs, r);
    CountAdd(m.refs - {r}, r, w);
    assert (m.refs - {r})[r := w] == m.refs[r := w];
    ListIgnoresTree(m, Map(m, e, d, t, w));
  }

  lemma ListIgnoresTree(m: Pm, n: Pm)
    requires ListOk(m) && n == m.(mem := n.mem, refs := n.refs) && |n.mem| == |m.mem|
    ensures ListOk(n)
  {
  }

  lemma TableLens(m: Pm, e: nat, d: nat)
    requires TreeOk(m) && TableRef(e, d) in m.refs
    ensures var pt := m.refs[TableRef(e, d)].frame; pt < |m.mem| && |m.mem[pt]| == NPTENTRIES
  {
  }

  lemma ReinsertParts(m: Pm, e: nat, d: nat, t: nat, w: Word)
    requires Valid(m) && TableRef(e, d) in m.refs && t < NPTENTRIES && At(m.ppRef, w.frame) == 0xFFFF
    requires PageRef(e, d, t) in m.refs && m.refs[PageRef(e, d, t)].frame == w.frame
    ensures var pt := m.refs[TableRef(e, d)].frame;
            pt < |m.mem| && |m.mem[pt]| == NPTENTRIES &&
            Map(m, e, d, t, w) == m.(mem := m.mem[pt := m.mem[pt][t := w]], refs := m.refs[PageRef(e, d, t) := w])
  {
    hide ListOk, CountsOk, TreeOk, Tree;
    TableLens(m, e, d);
    var n := Map(m, e, d, t, w);
    var r := PageRef(e, d, t);
    assert (m.refs - {r})[r := w] == m.refs[r := w];
    assert n.ppRef == m.ppRef;
    var page := m.mem[m.refs[TableRef(e, d)].frame];
    assert page[t := ZERO][t := w] == page[t := w];
    assert n.mem == m.mem[m.refs[TableRef(e, d)].frame := m.mem[m.refs[TableRef(e, d)].frame][t := w]];
  }

  lemma MapKeepsCountsIff(m: Pm, e: nat, d: nat, t: nat, w: Word)
    requires Valid(m) && TableRef(e, d) in m.refs && t < NPTENTRIES && IsDataPage(m, w.frame) && Present(w)
    requires At(m.ppRef, w.frame) <= 0xFFFF
    ensures Valid(Map(m, e, d, t, w)) <==>
              At(m.ppRef, w.frame) < 0xFFFF
              || (PageRef(e, d, t) in m.refs && m.refs[PageRef(e, d, t)].frame == w.frame)
  {
    hide ListOk, TreeOk, CountsOk, IsDataPage, Map, Tree;
    DataPageInRange(m, w.frame);
    if At(m.ppRef, w.frame) < 0xFFFF {
      MapKeeps(m, e, d, t, w);
    } else if PageRef(e, d, t) in m.refs && m.refs[PageRef(e, d, t)].frame == w.frame {
      ReinsertAtLimit(m, e, d, t, w);
    } else {
      CountWraps(m, e, d, t, w);
    }
  }

  /** Exactly when page_insert, with or without a new page table, keeps the counts: the page is mapped
      fewer than 65535 times, or the same page is already mapped at the address. */
  lemma InsertKeepsCountsIff(m: Pm, e: nat, d: nat, t: nat, w: Word)
    requires Valid(m) && Walkable(m, e, d) && t < NPTENTRIES && IsDataPage(m, w.frame) && Present(w)
    requires At(m.ppRef, w.frame) <= 0xFFFF
    ensures Valid(Insert(m, e, d, t, w)) <==>
              At(m.ppRef, w.frame) < 0xFFFF
              || (PageRef(e, d, t) in m.refs && m.refs[PageRef(e, d, t)].frame == w.frame)
  {
    hide Valid, IsDataPage, Map, AddTable;
    if TableRef(e, d) in m.refs {
      MapKeepsCountsIff(m, e, d, t, w);
    } else {
      TableAdded(m, e, d);
      NoTableNoPage(m, e, d, t);
      MapKeepsCountsIff(AddTable(m, e, d), e, d, t, w);
    }
  }

  lemma NoTableNoPage(m: Pm, e: nat, d: nat, t: nat)
    requires Valid(m) && TableRef(e, d) !in m.refs
    ensures PageRef(e, d, t) !in m.refs
  {
  }

  /** page_insert into one address space leaves the references of every other one alone. */
  lemma InsertWithout(m: Pm, e: nat, d: nat, t: nat, w: Word)
    requires Insertable(m, e, d, t, w)
    ensures Without(Insert(m, e, d, t, w).refs, e) == Without(m.refs, e)
  {
    hide Valid, IsDataPage, Map;
    DataPageInRange(m, w.frame);
    if TableRef(e, d) in m.refs {
      MapKeeps(m, e, d, t, w);
    } else {
      AddTableFacts(m, e, d);
      var m1 := AddTable(m, e, d);
      DataPageInRange(m1, w.frame);
      MapKeeps(m1, e, d, t, w);
    }
  }

  /** An environment without a directory has no references at all. */
  lemma NoDirNoRefs(m: Pm, e: nat)
    requires TreeOk(m) && DirRef(e) !in m.refs
    ensures Without(m.refs, e) == m.refs
  {
    forall r | r in m.refs
      ensures r.env != e
    {
      match r
      case DirRef(_) =>
      case TableRef(_, d) => DirThere(m, r.env, d);
      case PageRef(_, d, t) => TableThere(m, r.env, d, t);
    }
  }

  lemma CountUpdate(refs: map<Ref, Word>, r: Ref, w: Word)
    ensures Count(refs[r := w], w.frame) <= Count(refs, w.frame) + 1
  {
    hide Count;
    if r in refs {
      CountRemove(refs, r);
      CountAdd(refs - {r}, r, w);
      assert (refs - {r})[r := w] == refs[r := w];
    } else {
      CountAdd(refs, r, w);
    }
  }

  /** page_insert adds at most one to the count of the page it maps. */
  lemma InsertCount(m: Pm, e: nat, d: nat, t: nat, w: Word)
    requires Insertable(m, e, d, t, w)
    ensures At(Insert(m, e, d, t, w).ppRef, w.frame) <= At(m.ppRef, w.frame) + 1
  {
    hide ListOk, TreeOk, Map, AddTable, Count, CountsOk, Tree;
    DataPageInRange(m, w.frame);
    var m1 := if TableRef(e, d) in m.refs then m else AddTable(m, e, d);
    if TableRef(e, d) !in m.refs {
      AddTableFacts(m, e, d);
    }
    DataPageInRange(m1, w.frame);
    MapKeeps(m1, e, d, t, w);
    MapMem(m1, e, d, t, w, 0);
    var n := Map(m1, e, d, t, w);
    CountUpdate(m1.refs, PageRef(e, d, t), w);
    CountAt(m1, w.frame);
    CountAt(n, w.frame);
  }

  lemma CountAt(m: Pm, p: nat)
    requires Valid(m) && p in m.managed
    ensures At(m.ppRef, p) == Count(m.refs, p)
  {
  }

  // The limit of a count is reached

  /** Page n / 1024, n % 1024 of an address space. */
  function TableNo(n: nat): nat { n / NPTENTRIES }
  function EntryNo(n: nat): (t: nat)
    ensures t < NPTENTRIES
  {
    n % NPTENTRIES
  }

  /** One page mapped at the first n addresses of e. */
  ghost function Mapped(m: Pm, e: nat, w: Word, n: nat): Pm {
    if n == 0 then m else var k: nat := n - 1; Insert(Mapped(m, e, w, k), e, TableNo(k), EntryNo(k), w)
  }

  ghost predicate NothingMapped(m: Pm, e: nat, w: Word) {
    && Valid(m) && DirRef(e) in m.refs && IsDataPage(m, w.frame) && Present(w)
    && (forall r :: r in m.refs && r.env == e ==> r.DirRef?)
  }

  /** After n mappings, with count references to begin with: the first n addresses and their tables. */
  ghost predicate Filling(m: Pm, e: nat, w: Word, n: nat, count: nat) {
    && Valid(m) && DirRef(e) in m.refs && IsDataPage(m, w.frame) && Present(w) && At(m.ppRef, w.frame) == count + n
    && (forall d: nat, t: nat :: PageRef(e, d, t) in m.refs ==> d * NPTENTRIES + t < n && t < NPTENTRIES)
    && (forall d: nat :: TableRef(e, d) in m.refs <==> d * NPTENTRIES < n)
  }

  lemma NextFree(n: nat, d: nat, t: nat)
    requires d * NPTENTRIES + t < n && t < NPTENTRIES
    ensures !(d == TableNo(n) && t == EntryNo(n)) && d * NPTENTRIES + t < n + 1
  {
  }

  lemma NextTable(n: nat, d: nat)
    ensures d * NPTENTRIES < n + 1 <==> d * NPTENTRIES < n || d == TableNo(n)
    ensures TableNo(n) * NPTENTRIES < n <==> EntryNo(n) != 0
    ensures TableNo(n) * NPTENTRIES + EntryNo(n) == n
  {
  }

  /** Mapping into a table that is there. */
  lemma MapOneMore(m: Pm, e: nat, d: nat, t: nat, w: Word)
    requires Valid(m) && TableRef(e, d) in m.refs && PageRef(e, d, t) !in m.refs && t < NPTENTRIES
    requires IsDataPage(m, w.frame) && Present(w) && At(m.ppRef, w.frame) < 0xFFFF
    ensures var n := Map(m, e, d, t, w);
            && Valid(n) && n.refs == m.refs[PageRef(e, d, t) := w] && n.free == m.free
            && IsDataPage(n, w.frame) && At(n.ppRef, w.frame) == At(m.ppRef, w.frame) + 1
  {
    hide Valid;
    DataPageInRange(m, w.frame);
    MapKeeps(m, e, d, t, w);
  }

  lemma TableAdded(m: Pm, e: nat, d: nat)
    requires Valid(m) && Walkable(m, e, d) && TableRef(e, d) !in m.refs
    ensures var n := AddTable(m, e, d);
            && Valid(n) && n.refs == m.refs[TableRef(e, d) := Word(m.free[0], PDE_FLAGS)] && n.free == m.free[1..]
            && (forall p: nat :: IsDataPage(m, p) ==> IsDataPage(n, p) && At(n.ppRef, p) == At(m.ppRef, p))
  {
    AddTableFacts(m, e, d);
  }

  lemma InsertOneMore(m: Pm, e: nat, w: Word, n: nat, count: nat)
    requires Filling(m, e, w, n, count) && count + n < 0xFFFF && (EntryNo(n) == 0 ==> m.free != [])
    ensures var t := Insert(m, e, TableNo(n), EntryNo(n), w);
            Filling(t, e, w, n + 1, count) && |t.free| == |m.free| - if EntryNo(n) == 0 then 1 else 0
  {
    hide Valid, IsDataPage, Map, AddTable;
    var d, t, k := TableNo(n), EntryNo(n), n + 1;
    NextTable(n, d);
    var m1 := if TableRef(e, d) in m.refs then m else AddTable(m, e, d);
    if TableRef(e, d) !in m.refs {
      TableAdded(m, e, d);
    }
    if PageRef(e, d, t) in m.refs {
      NextFree(n, d, t);
    }
    MapOneMore(m1, e, d, t, w);
    var next := Map(m1, e, d, t, w);
    forall d': nat, t': nat | PageRef(e, d', t') in next.refs
      ensures d' * NPTENTRIES + t' < k && t' < NPTENTRIES
    {
      if PageRef(e, d', t') in m.refs {
        NextFree(n, d', t');
      }
    }
    forall d': nat
      ensures TableRef(e, d') in next.refs <==> d' * NPTENTRIES < k
    {
      NextTable(n, d');
    }
  }

  function Tables(n: nat): nat { (n + NPTENTRIES - 1) / NPTENTRIES }

  lemma TablesNext(n: nat)
    ensures Tables(n + 1) == Tables(n) + if EntryNo(n) == 0 then 1 else 0
    ensures n <= 0xFFFF ==> Tables(n) <= 64
  {
  }

  lemma {:induction false} MappedFills(m: Pm, e: nat, w: Word, n: nat, count: nat)
    requires NothingMapped(m, e, w) && count == At(m.ppRef, w.frame) && count + n <= 0xFFFF && |m.free| >= 64
    ensures Filling(Mapped(m, e, w, n), e, w, n, count) && |Mapped(m, e, w, n).free| == |m.free| - Tables(n)
  {
    hide Valid, IsDataPage, Insert;
    if n > 0 {
      var k: nat := n - 1;
      MappedFills(m, e, w, k, count);
      TablesNext(k);
      TablesNext(n);
      InsertOneMore(Mapped(m, e, w, k), e, w, k, count);
    }
  }

  /** From every state with an empty address space and 64 free pages, mapping a data page at enough
      addresses reaches a correct state with a count of 65535, and one more mapping breaks it. */
  lemma LimitReached(m: Pm, e: nat, w: Word)
    requires NothingMapped(m, e, w) && At(m.ppRef, w.frame) <= 0xFFFF && |m.free| >= 64
    ensures var n: nat := 0xFFFF - At(m.ppRef, w.frame);
            var t := Mapped(m, e, w, n);
            var u := Insert(t, e, TableNo(n), EntryNo(n), w);
            && Valid(t) && At(t.ppRef, w.frame) == 0xFFFF
            && !Valid(u) && At(u.ppRef, w.frame) == 0 && Count(u.refs, w.frame) == 0x1_0000
  {
    hide Valid, IsDataPage, Map, AddTable, NothingMapped, Count;
    var count := At(m.ppRef, w.frame);
    var n: nat := 0xFFFF - count;
    MappedFills(m, e, w, n, count);
    TablesNext(n);
    var t := Mapped(m, e, w, n);
    var d := TableNo(n);
    NextTable(n, d);
    if PageRef(e, d, EntryNo(n)) in t.refs {
      NextFree(n, d, EntryNo(n));
    }
    if TableRef(e, d) in t.refs {
      CountWraps(t, e, d, EntryNo(n), w);
    } else {
      TableAdded(t, e, d);
      CountWraps(AddTable(t, e, d), e, d, EntryNo(n), w);
    }
  }
}
