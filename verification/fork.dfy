/** fork, duppage and pgfault of lib/fork.c on the kernel's page tables.  Each method makes the system calls
    of the source in order and follows a run of the machine of module CopyOnWrite, so that what is
    proved there of every run holds of them. */
module UserFork {
  import opened PageTables
  import opened PageManager
  import C = CopyOnWrite

  const PTE_SHARE: bv12 := 0x400
  const PTE_COW: bv12 := 0x800

  function Decode(flags: bv12): C.Prot {
    C.Prot(flags & PTE_W != 0, flags & PTE_COW != 0, flags & PTE_SHARE != 0)
  }

  lemma DecodeFacts(flags: bv12)
    ensures Decode(PTE_P | PTE_COW | PTE_U | PTE_P | PTE_P) == C.COW
    ensures Decode(PTE_U | PTE_P | PTE_P) == C.RO
    ensures Decode(PTE_U | PTE_P | PTE_W | PTE_P) == C.RW
    ensures Decode((flags & PTE_SYSCALL) | PTE_P) == Decode(flags)
  {
  }

  /** A page user code can read and write in place. */
  predicate UserWritable(w: Word) {
    && w.flags & PTE_P != 0 && w.flags & PTE_U != 0 && w.flags & PTE_W != 0
    && w.flags & PTE_COW == 0 && w.flags & PTE_SHARE == 0
  }

  function SlotOf(e: nat, d: nat, t: nat): C.Slot {
    C.Slot(e, C.Vpn(d, t))
  }

  /** State s and the page manager m agree on the virtual page (d, t) of environment e. */
  ghost predicate AbsRef(m: Pm, s: C.State, e: nat, d: nat, t: nat) {
    && (PageRef(e, d, t) in m.refs <==> SlotOf(e, d, t) in s.pages)
    && (PageRef(e, d, t) in m.refs ==>
          var w := m.refs[PageRef(e, d, t)];
          s.pages[SlotOf(e, d, t)] == C.Pte(w.frame, Decode(w.flags)) && w.frame in s.data && s.data[w.frame] == Content(m, w.frame))
  }

  ghost predicate Abstracts(m: Pm, s: C.State) {
    forall e: nat, d: nat, t: nat :: AbsRef(m, s, e, d, t)
  }

  lemma MappedData(m: Pm, r: Ref)
    requires Valid(m) && r in m.refs && r.PageRef?
    ensures IsDataPage(m, m.refs[r].frame) && m.refs[r].frame < |m.mem|
  {
    hide CountsOk;
  }

  lemma PagesAt(m: Pm, r: Ref)
    requires r.PageRef?
    ensures (r in Pages(m) <==> r in m.refs) && (r in m.refs ==> Pages(m)[r] == m.refs[r])
  {
  }

  /** Mapping a page that is mapped somewhere already. */
  lemma AbsMap(m: Pm, n: Pm, s: C.State, s': C.State, e: nat, d: nat, t: nat, w: Word, src: Ref)
    requires Valid(m) && Abstracts(m, s) && Agrees(m, n, Pages(m)[PageRef(e, d, t) := w])
    requires src.PageRef? && src in m.refs && m.refs[src].frame == w.frame
    requires s'.pages == s.pages[SlotOf(e, d, t) := C.Pte(w.frame, Decode(w.flags))] && s'.data == s.data
    ensures Abstracts(n, s')
  {
    hide Valid, Decode, IsDataPage, Pages, Content;
    MappedData(m, src);
    assert AbsRef(m, s, src.env, src.pdx, src.ptx);
    forall e': nat, d': nat, t': nat
      ensures AbsRef(n, s', e', d', t')
    {
      var r := PageRef(e', d', t');
      assert AbsRef(m, s, e', d', t');
      PagesAt(m, r);
      PagesAt(n, r);
      if r in m.refs {
        MappedData(m, r);
      }
    }
  }

  /** Mapping a page that was free. */
  lemma AbsFresh(m: Pm, n: Pm, s: C.State, s': C.State, e: nat, d: nat, t: nat, w: Word)
    requires Valid(m) && Abstracts(m, s) && Agrees(m, n, Pages(m)[PageRef(e, d, t) := w])
    requires Unnamed(m.refs, w.frame) && Content(n, w.frame) == ZeroPage()
    requires s'.pages == s.pages[SlotOf(e, d, t) := C.Pte(w.frame, Decode(w.flags))] && s'.data == s.data[w.frame := ZeroPage()]
    ensures Abstracts(n, s')
  {
    hide Valid, Decode, IsDataPage, Pages, Content;
    forall e': nat, d': nat, t': nat
      ensures AbsRef(n, s', e', d', t')
    {
      var r := PageRef(e', d', t');
      assert AbsRef(m, s, e', d', t');
      PagesAt(m, r);
      PagesAt(n, r);
      if r in m.refs {
        MappedData(m, r);
      }
    }
  }

  lemma AbsUnmap(m: Pm, n: Pm, s: C.State, s': C.State, e: nat, d: nat, t: nat)
    requires Valid(m) && Abstracts(m, s) && Agrees(m, n, Pages(m) - {PageRef(e, d, t)})
    requires s'.pages == s.pages - {SlotOf(e, d, t)} && s'.data == s.data
    ensures Abstracts(n, s')
  {
    hide Valid, Decode, IsDataPage, Pages, Content;
    forall e': nat, d': nat, t': nat
      ensures AbsRef(n, s', e', d', t')
    {
      var r := PageRef(e', d', t');
      assert AbsRef(m, s, e', d', t');
      PagesAt(m, r);
      PagesAt(n, r);
      if r in m.refs {
        MappedData(m, r);
      }
    }
  }

  /** Storing into a data page touches no page table. */
  lemma StoreKeeps(m: Pm, p: nat, page: seq<Word>)
    requires Valid(m) && IsDataPage(m, p) && p < |m.mem| && |page| == NPTENTRIES
    ensures Valid(m.(mem := m.mem[p := page]))
    ensures Settled(m, {}) ==> Settled(m.(mem := m.mem[p := page]), {})
  {
    hide CountsOk;
    var n := m.(mem := m.mem[p := page]);
    assert CountsOk(n) by {
      CountsIgnoreMem(m, n);
    }
  }

  lemma CountsIgnoreMem(m: Pm, n: Pm)
    requires CountsOk(m) && n == m.(mem := n.mem)
    ensures CountsOk(n)
  {
  }

  ghost predicate Traced(m: Pm, s0: C.State, zs: seq<C.Step>) {
    C.Legal(s0, zs, ZeroPage()) && Abstracts(m, C.After(s0, zs, ZeroPage()))
  }

  ghost function Machine(s0: C.State, zs: seq<C.Step>): C.State {
    C.After(s0, zs, ZeroPage())
  }

  /** The protection duppage gives the child. */
  function DupProt(prot: C.Prot): C.Prot {
    if prot.share then prot else if prot.write || prot.cow then C.COW else C.RO
  }

  lemma DupChildTrace(m: Pm, n: Pm, s0: C.State, zs: seq<C.Step>, e: nat, c: nat, d: nat, t: nat, w: Word)
    requires Valid(m) && Traced(m, s0, zs) && PageRef(e, d, t) in m.refs && C.Vpn(d, t) != C.PFTEMP
    requires C.Running(Machine(s0, zs), e) && C.ForkOf(Machine(s0, zs), e) == C.Forking(c)
    requires Agrees(m, n, Pages(m)[PageRef(c, d, t) := w]) && w.frame == m.refs[PageRef(e, d, t)].frame
    requires Decode(w.flags) == DupProt(Decode(m.refs[PageRef(e, d, t)].flags))
    ensures var zs' := zs + [C.DupChild(SlotOf(e, d, t))];
            var prot := Decode(m.refs[PageRef(e, d, t)].flags);
            && Traced(n, s0, zs') && C.Running(Machine(s0, zs'), e)
            && C.ForkOf(Machine(s0, zs'), e) ==
                 if !prot.share && (prot.write || prot.cow) then C.Dup(c, SlotOf(e, d, t), prot.write) else C.Forking(c)
  {
    hide Valid, Agrees, Decode, Abstracts;
    var z := C.DupChild(SlotOf(e, d, t));
    var s := Machine(s0, zs);
    AbsAt(m, s, e, d, t);
    C.RunExtend(s0, zs, z, ZeroPage());
    AbsMap(m, n, s, C.Next(s, z, ZeroPage()), c, d, t, w, PageRef(e, d, t));
  }

  lemma DupParentTrace(m: Pm, n: Pm, s0: C.State, zs: seq<C.Step>, e: nat, c: nat, d: nat, t: nat, w: Word)
    requires Valid(m) && Traced(m, s0, zs) && PageRef(e, d, t) in m.refs
    requires var f := C.ForkOf(Machine(s0, zs), e); C.Running(Machine(s0, zs), e) && f.Dup? && f.at == SlotOf(e, d, t) && f.child == c
    requires Agrees(m, n, Pages(m)[PageRef(e, d, t) := w]) && w.frame == m.refs[PageRef(e, d, t)].frame
    requires Decode(w.flags) == C.COW
    ensures var zs' := zs + [C.DupParent(e)];
            Traced(n, s0, zs') && C.Running(Machine(s0, zs'), e) && C.ForkOf(Machine(s0, zs'), e) == C.Forking(c)
  {
    hide Valid, Agrees, Decode, Abstracts;
    var z := C.DupParent(e);
    var s := Machine(s0, zs);
    AbsAt(m, s, e, d, t);
    C.RunExtend(s0, zs, z, ZeroPage());
    AbsMap(m, n, s, C.Next(s, z, ZeroPage()), e, d, t, w, PageRef(e, d, t));
  }

  /** The flags duppage leaves in the child and in the parent. */
  function ChildFlags(flags: bv12): bv12 {
    if flags & PTE_SHARE != 0 then (flags & PTE_SYSCALL) | PTE_P
    else if flags & PTE_W != 0 || flags & PTE_COW != 0 then PTE_P | PTE_COW | PTE_U | PTE_P | PTE_P
    else PTE_U | PTE_P | PTE_P
  }

  function ParentFlags(flags: bv12): bv12 {
    if flags & PTE_SHARE == 0 && (flags & PTE_W != 0 || flags & PTE_COW != 0) then PTE_P | PTE_COW | PTE_U | PTE_P | PTE_P
    else flags
  }

  /** What duppage owes for a user page with entry w: parent and child both keep access to it, and either
      can write it only if it is shared; a private page one of them could write, or would have copied,
      is copied on a write from now on. */
  ghost predicate Inherited(w: Word, child: Word, parent: Word) {
    && child.frame == parent.frame == w.frame
    && child.flags & PTE_P != 0 && child.flags & PTE_U != 0 && parent.flags & PTE_P != 0 && parent.flags & PTE_U != 0
    && (child.flags & PTE_W != 0 <==> w.flags & PTE_SHARE != 0 && w.flags & PTE_W != 0)
    && (parent.flags & PTE_W != 0 <==> w.flags & PTE_SHARE != 0 && w.flags & PTE_W != 0)
    && (child.flags & PTE_SHARE != 0 <==> w.flags & PTE_SHARE != 0) && (parent.flags & PTE_SHARE != 0 <==> w.flags & PTE_SHARE != 0)
    && (child.flags & PTE_COW != 0 <==> w.flags & PTE_COW != 0 || (w.flags & PTE_SHARE == 0 && w.flags & PTE_W != 0))
    && (parent.flags & PTE_COW != 0 <==> w.flags & PTE_COW != 0 || (w.flags & PTE_SHARE == 0 && w.flags & PTE_W != 0))
  }

  lemma InheritedFlags(w: Word)
    requires w.flags & PTE_P != 0 && w.flags & PTE_U != 0
    ensures Inherited(w, Word(w.frame, ChildFlags(w.flags)), Word(w.frame, ParentFlags(w.flags)))
  {
  }

  /** Every user page of e below the user stack's top, in its tables and in those of the child. */
  ghost predicate AllInherited(m: Pm, n: Pm, e: nat, c: nat) {
    forall d: nat, t: nat :: PageRef(e, d, t) in m.refs && d * NPTENTRIES + t < USTACK_PN && m.refs[PageRef(e, d, t)].flags & PTE_U != 0 ==>
      && PageRef(c, d, t) in n.refs && PageRef(e, d, t) in n.refs
      && Inherited(m.refs[PageRef(e, d, t)], n.refs[PageRef(c, d, t)], n.refs[PageRef(e, d, t)])
  }

  lemma ForkedInherits(m: Pm, n: Pm, e: nat, c: nat)
    requires Valid(m) && e != c && Forked(Pages(m), Pages(n) - {PageRef(c, XSTACK_D, XSTACK_T)}, e, c, USTACK_PN)
    ensures AllInherited(m, n, e, c)
  {
    hide Valid, Pages, Inherited, ChildFlags, ParentFlags;
    forall d: nat, t: nat | PageRef(e, d, t) in m.refs && d * NPTENTRIES + t < USTACK_PN && m.refs[PageRef(e, d, t)].flags & PTE_U != 0
      ensures PageRef(c, d, t) in n.refs && PageRef(e, d, t) in n.refs
      ensures Inherited(m.refs[PageRef(e, d, t)], n.refs[PageRef(c, d, t)], n.refs[PageRef(e, d, t)])
    {
      var a, b := PageRef(e, d, t), PageRef(c, d, t);
      PresentPage(m, a);
      InheritedFlags(m.refs[a]);
      PagesAt(m, a);
      PagesAt(n, a);
      PagesAt(n, b);
      assert SlotForked(Pages(m), Pages(n) - {PageRef(c, XSTACK_D, XSTACK_T)}, e, c, USTACK_PN, a);
      assert SlotForked(Pages(m), Pages(n) - {PageRef(c, XSTACK_D, XSTACK_T)}, e, c, USTACK_PN, b);
    }
  }

  lemma PresentPage(m: Pm, r: Ref)
    requires Valid(m) && r in m.refs && r.PageRef?
    ensures m.refs[r].flags & PTE_P != 0
  {
  }

  lemma DupInherits(m: Pm, n: Pm, e: nat, c: nat, d: nat, t: nat)
    requires Valid(m) && e != c && PageRef(e, d, t) in m.refs && Pages(n) == DupPages(Pages(m), e, c, d, t)
    requires m.refs[PageRef(e, d, t)].flags & PTE_U != 0
    ensures PageRef(c, d, t) in n.refs && PageRef(e, d, t) in n.refs
    ensures Inherited(m.refs[PageRef(e, d, t)], n.refs[PageRef(c, d, t)], n.refs[PageRef(e, d, t)])
  {
    hide Valid, Pages, Inherited, ChildFlags, ParentFlags;
    var a, b := PageRef(e, d, t), PageRef(c, d, t);
    PresentPage(m, a);
    InheritedFlags(m.refs[a]);
    PagesAt(m, a);
    PagesAt(n, a);
    PagesAt(n, b);
  }

  /** The user mappings after duppage of page (d, t) of e into c. */
  ghost function DupPages(pages: map<Ref, Word>, e: nat, c: nat, d: nat, t: nat): map<Ref, Word> {
    var w := Held(pages, PageRef(e, d, t));
    pages[PageRef(c, d, t) := Word(w.frame, ChildFlags(w.flags))][PageRef(e, d, t) := Word(w.frame, ParentFlags(w.flags))]
  }

  lemma DupPagesNoWrite(pages: map<Ref, Word>, e: nat, c: nat, d: nat, t: nat)
    requires PageRef(e, d, t) in pages && e != c
    requires ParentFlags(pages[PageRef(e, d, t)].flags) == pages[PageRef(e, d, t)].flags
    ensures var w := pages[PageRef(e, d, t)];
            DupPages(pages, e, c, d, t) == pages[PageRef(c, d, t) := Word(w.frame, ChildFlags(w.flags))]
  {
    hide ChildFlags, ParentFlags;
  }

  /** The pages environment e maps in m hold in n what they held in m. */
  ghost predicate Unaltered(m: Pm, n: Pm, e: nat) {
    forall r :: r in Pages(m) && r.env == e ==> Content(n, Pages(m)[r].frame) == Content(m, Pages(m)[r].frame)
  }

  lemma MapUnaltered(m: Pm, n: Pm, pages: map<Ref, Word>, e: nat)
    requires Valid(m) && Agrees(m, n, pages)
    ensures Unaltered(m, n, e)
  {
    hide Valid, Content, IsDataPage;
    forall r | r in Pages(m) && r.env == e
      ensures Content(n, Pages(m)[r].frame) == Content(m, Pages(m)[r].frame)
    {
      MappedData(m, r);
    }
  }

  lemma UnalteredThrough(m: Pm, m1: Pm, n: Pm, e: nat)
    requires Unaltered(m, m1, e) && Unaltered(m1, n, e)
    requires forall r :: r in Pages(m) && r.env == e ==> r in Pages(m1) && Pages(m1)[r].frame == Pages(m)[r].frame
    ensures Unaltered(m, n, e)
  {
    hide Content, Pages;
  }

  /** duppage(envid, pn): map our page at (d, t) into the child c; a private writable or copy-on-write
      page becomes copy-on-write in the child and then here. */
  method Duppage(mm: Memory, e: nat, c: nat, d: nat, t: nat, ghost s0: C.State, ghost zs: seq<C.Step>)
      returns (r: int, ghost zs': seq<C.Step>)
    requires mm.Ok() && Settled(mm.S(), {}) && DirRef(e) in mm.refs && DirRef(c) in mm.refs && e != c
    requires PageRef(e, d, t) in mm.refs && C.Vpn(d, t) != C.PFTEMP
    requires At(mm.ppRef, mm.refs[PageRef(e, d, t)].frame) < 0xFFFE
    requires Traced(mm.S(), s0, zs)
    requires C.Running(Machine(s0, zs), e) && C.ForkOf(Machine(s0, zs), e) == C.Forking(c)
    modifies mm
    ensures mm.Ok() && Settled(mm.S(), {}) && mm.envPgdir == old(mm.envPgdir)
    ensures r == if old(Walkable(mm.S(), c, d)) then 0 else -E_NO_MEM
    ensures r != 0 ==> unchanged(mm)
    ensures r == 0 ==>
              var prot := Decode(old(mm.refs)[PageRef(e, d, t)].flags);
              zs' == zs + [C.DupChild(SlotOf(e, d, t))]
                     + if !prot.share && (prot.write || prot.cow) then [C.DupParent(e)] else []
    ensures r == 0 ==> Traced(mm.S(), s0, zs') && C.Running(Machine(s0, zs'), e) && C.ForkOf(Machine(s0, zs'), e) == C.Forking(c)
    ensures r == 0 ==> Pages(mm.S()) == DupPages(Pages(old(mm.S())), e, c, d, t) && Unaltered(old(mm.S()), mm.S(), e)
    ensures r == 0 ==> PageRef(c, d, t) in mm.refs && PageRef(e, d, t) in mm.refs
    ensures r == 0 && old(mm.refs)[PageRef(e, d, t)].flags & PTE_U != 0 ==>
              Inherited(old(mm.refs)[PageRef(e, d, t)], mm.refs[PageRef(c, d, t)], mm.refs[PageRef(e, d, t)])
  {
    hide Inherited, Unaltered, Valid, Settled, Decode, KernDir, Pages, Walkable, IsDataPage, Content, Traced, C.Running, C.ForkOf, Machine;
    ghost var m := mm.S();
    PageThere(m, e, d, t);
    PagesAt(m, PageRef(e, d, t));
    var pp, pt := mm.PageLookup(e, d, t);
    var flags := mm.mem[pt][t].flags;
    DecodeFacts(flags);
    DecodeBits(flags);
    zs' := zs + [C.DupChild(SlotOf(e, d, t))];
    if flags & PTE_SHARE != 0 {
      r := mm.MapAt(e, d, t, c, d, t, flags & PTE_SYSCALL);
      if r < 0 { return; }
      DupChildTrace(m, mm.S(), s0, zs, e, c, d, t, Word(pp, (flags & PTE_SYSCALL) | PTE_P));
      DupPagesNoWrite(Pages(m), e, c, d, t);
      MapUnaltered(m, mm.S(), Pages(mm.S()), e);
      assert zs' + [] == zs';
      DupThere(m, mm.S(), e, c, d, t);
      return;
    }
    if flags & PTE_W == 0 && flags & PTE_COW == 0 {
      r := mm.MapAt(e, d, t, c, d, t, PTE_U | PTE_P);
      if r < 0 { return; }
      DupChildTrace(m, mm.S(), s0, zs, e, c, d, t, Word(pp, PTE_U | PTE_P | PTE_P));
      DupPagesNoWrite(Pages(m), e, c, d, t);
      MapUnaltered(m, mm.S(), Pages(mm.S()), e);
      assert zs' + [] == zs';
      DupThere(m, mm.S(), e, c, d, t);
      return;
    }
    r := mm.MapAt(e, d, t, c, d, t, PTE_P | PTE_COW | PTE_U | PTE_P);
    if r < 0 { return; }
    ghost var m1 := mm.S();
    ghost var w := Word(pp, PTE_P | PTE_COW | PTE_U | PTE_P | PTE_P);
    DupChildTrace(m, m1, s0, zs, e, c, d, t, w);
    AfterDupChild(m, m1, e, c, d, t, w);
    r := mm.MapAt(e, d, t, e, d, t, PTE_P | PTE_COW | PTE_U | PTE_P);
    DupParentTrace(m1, mm.S(), s0, zs', e, c, d, t, w);
    zs' := zs' + [C.DupParent(e)];
    MapUnaltered(m, m1, Pages(m1), e);
    MapUnaltered(m1, mm.S(), Pages(mm.S()), e);
    UnalteredThrough(m, m1, mm.S(), e);
    DupThere(m, mm.S(), e, c, d, t);
  }

  lemma DupThere(m: Pm, n: Pm, e: nat, c: nat, d: nat, t: nat)
    requires Valid(m) && e != c && PageRef(e, d, t) in m.refs && Pages(n) == DupPages(Pages(m), e, c, d, t)
    ensures PageRef(c, d, t) in n.refs && PageRef(e, d, t) in n.refs
    ensures m.refs[PageRef(e, d, t)].flags & PTE_U != 0 ==>
              Inherited(m.refs[PageRef(e, d, t)], n.refs[PageRef(c, d, t)], n.refs[PageRef(e, d, t)])
  {
    hide Valid, Pages, Inherited, ChildFlags, ParentFlags;
    PagesAt(n, PageRef(e, d, t));
    PagesAt(n, PageRef(c, d, t));
    if m.refs[PageRef(e, d, t)].flags & PTE_U != 0 {
      DupInherits(m, n, e, c, d, t);
    }
  }

  lemma DecodeBits(flags: bv12)
    ensures Decode(flags) == C.Prot(flags & PTE_W != 0, flags & PTE_COW != 0, flags & PTE_SHARE != 0)
  {
  }

  lemma PageThere(m: Pm, e: nat, d: nat, t: nat)
    requires Valid(m) && PageRef(e, d, t) in m.refs
    ensures ListOk(m) && TreeOk(m) && TableRef(e, d) in m.refs && DirRef(e) in m.refs && d < PDX_UTOP && t < NPTENTRIES
    ensures var pt := m.refs[TableRef(e, d)].frame;
            pt < |m.mem| && |m.mem[pt]| == NPTENTRIES && m.mem[pt][t] == m.refs[PageRef(e, d, t)]
    ensures IsDataPage(m, m.refs[PageRef(e, d, t)].frame) && m.refs[PageRef(e, d, t)].frame < |m.ppRef|
  {
    hide CountsOk;
    LookupFacts(m, e, d, t);
    MappedData(m, PageRef(e, d, t));
    hide Tree;
  }

  lemma AbsAt(m: Pm, s: C.State, e: nat, d: nat, t: nat)
    requires Abstracts(m, s) && PageRef(e, d, t) in m.refs
    ensures var w := m.refs[PageRef(e, d, t)];
            SlotOf(e, d, t) in s.pages && s.pages[SlotOf(e, d, t)] == C.Pte(w.frame, Decode(w.flags))
            && w.frame in s.data && s.data[w.frame] == Content(m, w.frame)
  {
    hide Decode, Content;
    assert AbsRef(m, s, e, d, t);
  }

  /** After the child's mapping is made, ours is still there. */
  lemma AfterDupChild(m: Pm, n: Pm, e: nat, c: nat, d: nat, t: nat, w: Word)
    requires Valid(m) && Agrees(m, n, Pages(m)[PageRef(c, d, t) := w]) && e != c
    requires PageRef(e, d, t) in m.refs
    ensures PageRef(e, d, t) in n.refs && n.refs[PageRef(e, d, t)] == m.refs[PageRef(e, d, t)]
    ensures DirRef(e) in n.refs && Walkable(n, e, d)
  {
    hide ListOk, CountsOk, Pages, IsDataPage, Content, TreeOk;
    PagesAt(m, PageRef(e, d, t));
    PagesAt(n, PageRef(e, d, t));
    TableThere(n, e, d, t);
  }

  const TEMP_D: nat := C.PFTEMP.pdx
  const TEMP_T: nat := C.PFTEMP.ptx

  lemma FaultAllocTrace(m: Pm, n: Pm, s0: C.State, zs: seq<C.Step>, e: nat, d: nat, t: nat, w: Word)
    requires Valid(m) && Traced(m, s0, zs) && PageRef(e, d, t) in m.refs && C.Vpn(d, t) != C.PFTEMP
    requires C.Running(Machine(s0, zs), e) && !Decode(m.refs[PageRef(e, d, t)].flags).write
    requires Agrees(m, n, Pages(m)[PageRef(e, TEMP_D, TEMP_T) := w])
    requires Unnamed(m.refs, w.frame) && Content(n, w.frame) == ZeroPage() && Decode(w.flags) == C.RW
    ensures var zs' := zs + [C.FaultAlloc(SlotOf(e, d, t), w.frame)];
            Traced(n, s0, zs') && C.FaultOf(Machine(s0, zs'), e) == C.Allocated(SlotOf(e, d, t))
  {
    hide Valid, Agrees, Decode, Abstracts;
    var z := C.FaultAlloc(SlotOf(e, d, t), w.frame);
    var s := Machine(s0, zs);
    AbsAt(m, s, e, d, t);
    UnnamedUnmapped(m, s, w.frame);
    C.RunExtend(s0, zs, z, ZeroPage());
    AbsFresh(m, n, s, C.Next(s, z, ZeroPage()), e, TEMP_D, TEMP_T, w);
  }

  lemma UnnamedUnmapped(m: Pm, s: C.State, p: nat)
    requires Abstracts(m, s) && Unnamed(m.refs, p)
    ensures C.Unmapped(s, p)
  {
    hide Decode, Content;
    forall a | a in s.pages
      ensures s.pages[a].frame != p
    {
      assert a == SlotOf(a.env, a.vpn.pdx, a.vpn.ptx);
      assert AbsRef(m, s, a.env, a.vpn.pdx, a.vpn.ptx);
    }
  }

  lemma FaultCopyTrace(m: Pm, n: Pm, s0: C.State, zs: seq<C.Step>, e: nat, d: nat, t: nat)
    requires Valid(m) && Traced(m, s0, zs) && PageRef(e, d, t) in m.refs && PageRef(e, TEMP_D, TEMP_T) in m.refs
    requires C.FaultOf(Machine(s0, zs), e) == C.Allocated(SlotOf(e, d, t))
    requires var p := m.refs[PageRef(e, TEMP_D, TEMP_T)].frame;
             var q := m.refs[PageRef(e, d, t)].frame;
             p < |m.mem| && q < |m.mem| && n == m.(mem := m.mem[p := m.mem[q]])
    ensures var zs' := zs + [C.FaultCopy(e)];
            Traced(n, s0, zs') && C.FaultOf(Machine(s0, zs'), e) == C.Copied(SlotOf(e, d, t))
  {
    hide Valid, Decode, Abstracts;
    var s := Machine(s0, zs);
    AbsAt(m, s, e, d, t);
    AbsAt(m, s, e, TEMP_D, TEMP_T);
    C.RunExtend(s0, zs, C.FaultCopy(e), ZeroPage());
    AbsStore(m, n, s, C.Next(s, C.FaultCopy(e), ZeroPage()), m.refs[PageRef(e, TEMP_D, TEMP_T)].frame, m.mem[m.refs[PageRef(e, d, t)].frame]);
  }

  lemma AbsStore(m: Pm, n: Pm, s: C.State, s': C.State, p: nat, page: seq<Word>)
    requires Abstracts(m, s) && p < |m.mem| && n == m.(mem := m.mem[p := page])
    requires s'.pages == s.pages && s'.data == s.data[p := page]
    ensures Abstracts(n, s')
  {
    hide Decode;
    forall e: nat, d: nat, t: nat
      ensures AbsRef(n, s', e, d, t)
    {
      assert AbsRef(m, s, e, d, t);
    }
  }

  lemma FaultMapTrace(m: Pm, n: Pm, s0: C.State, zs: seq<C.Step>, e: nat, d: nat, t: nat, w: Word)
    requires Valid(m) && Traced(m, s0, zs) && PageRef(e, TEMP_D, TEMP_T) in m.refs
    requires C.FaultOf(Machine(s0, zs), e) == C.Copied(SlotOf(e, d, t))
    requires Agrees(m, n, Pages(m)[PageRef(e, d, t) := w]) && w.frame == m.refs[PageRef(e, TEMP_D, TEMP_T)].frame
    requires Decode(w.flags) == C.RW
    ensures var zs' := zs + [C.FaultMap(e)];
            Traced(n, s0, zs') && C.FaultOf(Machine(s0, zs'), e) == C.Mapped(SlotOf(e, d, t))
  {
    hide Valid, Agrees, Decode, Abstracts;
    var s := Machine(s0, zs);
    AbsAt(m, s, e, TEMP_D, TEMP_T);
    C.RunExtend(s0, zs, C.FaultMap(e), ZeroPage());
    AbsMap(m, n, s, C.Next(s, C.FaultMap(e), ZeroPage()), e, d, t, w, PageRef(e, TEMP_D, TEMP_T));
  }

  lemma FaultDoneTrace(m: Pm, n: Pm, s0: C.State, zs: seq<C.Step>, e: nat, a: C.Slot)
    requires Valid(m) && Traced(m, s0, zs) && C.FaultOf(Machine(s0, zs), e) == C.Mapped(a)
    requires Agrees(m, n, Pages(m) - {PageRef(e, TEMP_D, TEMP_T)})
    ensures Traced(n, s0, zs + [C.FaultDone(e)])
  {
    hide Valid, Agrees, Abstracts;
    var s := Machine(s0, zs);
    C.RunExtend(s0, zs, C.FaultDone(e), ZeroPage());
    AbsUnmap(m, n, s, C.Next(s, C.FaultDone(e), ZeroPage()), e, TEMP_D, TEMP_T);
  }

  /** memmove of a whole page between two addresses mapped in environment e. */
  method CopyPage(mm: Memory, e: nat, d: nat, t: nat, sd: nat, st: nat)
    requires mm.Ok() && Settled(mm.S(), {}) && PageRef(e, d, t) in mm.refs && PageRef(e, sd, st) in mm.refs
    modifies mm`mem
    ensures mm.Ok() && Settled(mm.S(), {})
    ensures var p := mm.refs[PageRef(e, d, t)].frame;
            var q := mm.refs[PageRef(e, sd, st)].frame;
            p < |old(mm.mem)| && q < |old(mm.mem)| && mm.mem == old(mm.mem)[p := old(mm.mem)[q]]
  {
    hide Valid, Settled, KernDir, IsDataPage;
    PageThere(mm.S(), e, d, t);
    PageThere(mm.S(), e, sd, st);
    var p, _ := mm.PageLookup(e, d, t);
    var q, _ := mm.PageLookup(e, sd, st);
    MappedData(mm.S(), PageRef(e, d, t));
    MappedData(mm.S(), PageRef(e, sd, st));
    PageLen(mm.S(), q);
    StoreKeeps(mm.S(), p, mm.mem[q]);
    mm.mem := mm.mem[p := mm.mem[q]];
  }

  lemma PageLen(m: Pm, p: nat)
    requires Valid(m) && p < |m.mem|
    ensures |m.mem[p]| == NPTENTRIES
  {
  }

  /** pgfault: a fresh page at PFTEMP, a copy of the faulting page, the copy mapped in its place. */
  method Pgfault(mm: Memory, e: nat, d: nat, t: nat, ghost s0: C.State, ghost zs: seq<C.Step>)
      returns (r: int, ghost zs': seq<C.Step>)
    requires mm.Ok() && Settled(mm.S(), {}) && PageRef(e, d, t) in mm.refs && C.Vpn(d, t) != C.PFTEMP
    requires mm.refs[PageRef(e, d, t)].flags & PTE_W == 0
    requires Traced(mm.S(), s0, zs) && C.Running(Machine(s0, zs), e)
    modifies mm
    ensures mm.Ok() && Settled(mm.S(), {})
    ensures r != 0 ==> r == -E_NO_MEM && mm.refs == old(mm.refs) && mm.free == old(mm.free)
    ensures r == 0 ==> old(mm.free) != []
    ensures r == 0 ==> zs' == zs + [C.FaultAlloc(SlotOf(e, d, t), old(mm.free)[0])] + [C.FaultCopy(e)] + [C.FaultMap(e)] + [C.FaultDone(e)]
    ensures r == 0 ==> Traced(mm.S(), s0, zs')
    ensures r == 0 ==> C.Running(Machine(s0, zs'), e) && Machine(s0, zs').fork == Machine(s0, zs).fork
    ensures r == 0 ==>
              && PageRef(e, d, t) in mm.refs
              && UserWritable(mm.refs[PageRef(e, d, t)]) && mm.refs[PageRef(e, d, t)].frame == old(mm.free)[0]
              && Replaced(old(mm.S()), mm.S(), e, d, t)
  {
    hide Valid, Settled, Agrees, Decode, KernDir, Pages, Walkable, IsDataPage, Content, Traced, C.Running, C.FaultOf, Machine, Unnamed,
      Replaced, UserWritable;
    ghost var m := mm.S();
    zs' := zs;
    PageThere(m, e, d, t);
    DecodeFacts(0);
    DecodeBits(m.refs[PageRef(e, d, t)].flags);
    r := mm.AllocAt(e, TEMP_D, TEMP_T, PTE_U | PTE_P | PTE_W);
    if r < 0 { return; }
    ghost var w := Word(m.free[0], PTE_U | PTE_P | PTE_W | PTE_P);
    ghost var m1 := mm.S();
    HeadUnnamed(m);
    FaultAllocTrace(m, m1, s0, zs, e, d, t, w);
    zs' := zs + [C.FaultAlloc(SlotOf(e, d, t), w.frame)];
    AfterMap(m, m1, e, TEMP_D, TEMP_T, w, e, d, t);
    CopyPage(mm, e, TEMP_D, TEMP_T, d, t);
    ghost var m2 := mm.S();
    FaultCopyTrace(m1, m2, s0, zs', e, d, t);
    zs' := zs' + [C.FaultCopy(e)];
    TempCount(m, m1, e, d, t, w);
    PageThere(m2, e, d, t);
    PageThere(m2, e, TEMP_D, TEMP_T);
    r := mm.MapAt(e, TEMP_D, TEMP_T, e, d, t, PTE_U | PTE_P | PTE_W);
    assert r == 0 by { Stays(m2, e, d); }
    ghost var m3 := mm.S();
    FaultMapTrace(m2, m3, s0, zs', e, d, t, w);
    zs' := zs' + [C.FaultMap(e)];
    AfterMap(m2, m3, e, d, t, w, e, d, t);
    PageThere(m3, e, d, t);
    mm.UnmapAt(e, TEMP_D, TEMP_T);
    FaultDoneTrace(m3, mm.S(), s0, zs', e, SlotOf(e, d, t));
    zs' := zs' + [C.FaultDone(e)];
    FaultRun(s0, zs, zs', e, SlotOf(e, d, t), w.frame);
    FaultPages(m, m1, m2, m3, mm.S(), e, d, t, w);
    FreshWritable(w);
  }

  lemma FreshWritable(w: Word)
    requires w.flags == PTE_U | PTE_P | PTE_W | PTE_P
    ensures UserWritable(w)
  {
  }

  /** A copy of the page at (d, t) has taken its place, and the temporary mapping is gone. */
  ghost predicate Replaced(m: Pm, n: Pm, e: nat, d: nat, t: nat) {
    && PageRef(e, d, t) in m.refs && PageRef(e, d, t) in n.refs
    && Content(n, n.refs[PageRef(e, d, t)].frame) == Content(m, m.refs[PageRef(e, d, t)].frame)
    && Pages(n) == Pages(m)[PageRef(e, d, t) := n.refs[PageRef(e, d, t)]] - {PageRef(e, TEMP_D, TEMP_T)}
  }

  /** From the four calls to what the fault handler leaves. */
  lemma FaultPages(m: Pm, m1: Pm, m2: Pm, m3: Pm, n: Pm, e: nat, d: nat, t: nat, w: Word)
    requires Valid(m) && Valid(m1) && Valid(m2) && Valid(m3) && PageRef(e, d, t) in m.refs && C.Vpn(d, t) != C.PFTEMP
    requires Agrees(m, m1, Pages(m)[PageRef(e, TEMP_D, TEMP_T) := w])
    requires PageRef(e, d, t) in m1.refs && m1.refs[PageRef(e, d, t)] == m.refs[PageRef(e, d, t)]
    requires var q := m.refs[PageRef(e, d, t)].frame; w.frame < |m1.mem| && q < |m1.mem| && m2 == m1.(mem := m1.mem[w.frame := m1.mem[q]])
    requires Agrees(m2, m3, Pages(m2)[PageRef(e, d, t) := w]) && Agrees(m3, n, Pages(m3) - {PageRef(e, TEMP_D, TEMP_T)})
    ensures PageRef(e, d, t) in n.refs && n.refs[PageRef(e, d, t)] == w
    ensures Replaced(m, n, e, d, t)
  {
    hide Valid, IsDataPage;
    var a, b := PageRef(e, d, t), PageRef(e, TEMP_D, TEMP_T);
    assert a != b;
    MappedData(m, a);
    assert Pages(m2) == Pages(m1);
    assert b in Pages(m1) && b in Pages(m2);
    MappedData(m2, b);
    assert a in Pages(m3) && Pages(m3)[a] == w;
    MappedData(m3, a);
    assert a in Pages(n) && Pages(n)[a] == w;
    PagesAt(n, a);
  }

  /** A handled fault leaves the environment running and every fork where it was. */
  lemma FaultRun(s0: C.State, zs: seq<C.Step>, zs': seq<C.Step>, e: nat, a: C.Slot, p: nat)
    requires zs' == zs + [C.FaultAlloc(a, p)] + [C.FaultCopy(e)] + [C.FaultMap(e)] + [C.FaultDone(e)]
    requires C.Running(Machine(s0, zs), e)
    ensures C.Running(Machine(s0, zs'), e) && Machine(s0, zs').fork == Machine(s0, zs).fork
  {
    hide C.After;
    var zs1 := zs + [C.FaultAlloc(a, p)];
    var zs2 := zs1 + [C.FaultCopy(e)];
    var zs3 := zs2 + [C.FaultMap(e)];
    C.AfterOne(s0, zs, C.FaultAlloc(a, p), ZeroPage());
    C.AfterOne(s0, zs1, C.FaultCopy(e), ZeroPage());
    C.AfterOne(s0, zs2, C.FaultMap(e), ZeroPage());
    C.AfterOne(s0, zs3, C.FaultDone(e), ZeroPage());
  }

  lemma Stays(m: Pm, e: nat, d: nat)
    requires DirRef(e) in m.refs && TableRef(e, d) in m.refs && d < PDX_UTOP
    ensures Walkable(m, e, d)
  {
  }

  lemma HeadUnnamed(m: Pm)
    requires Valid(m) && m.free != []
    ensures Unnamed(m.refs, m.free[0])
  {
    hide Tree, Count;
  }

  /** A mapping is there after it is made, and so is every other one. */
  lemma AfterMap(m: Pm, n: Pm, e: nat, d: nat, t: nat, w: Word, e': nat, d': nat, t': nat)
    requires Agrees(m, n, Pages(m)[PageRef(e, d, t) := w])
    ensures PageRef(e, d, t) in n.refs && n.refs[PageRef(e, d, t)] == w
    ensures PageRef(e', d', t') in m.refs && PageRef(e', d', t') != PageRef(e, d, t) ==>
              PageRef(e', d', t') in n.refs && n.refs[PageRef(e', d', t')] == m.refs[PageRef(e', d', t')]
  {
    hide Valid, Pages, IsDataPage, Content;
    PagesAt(m, PageRef(e', d', t'));
    PagesAt(n, PageRef(e', d', t'));
    PagesAt(n, PageRef(e, d, t));
  }

  /** A page that was free is named by its one new mapping only. */
  lemma TempCount(m: Pm, n: Pm, e: nat, d: nat, t: nat, w: Word)
    requires Valid(m) && Unnamed(m.refs, w.frame) && Agrees(m, n, Pages(m)[PageRef(e, TEMP_D, TEMP_T) := w])
    ensures At(n.ppRef, w.frame) < 0xFFFF
  {
    hide ListOk, Pages, Content, IsDataPage, CountsOk, Tree, Count;
    var r := PageRef(e, TEMP_D, TEMP_T);
    PagesAt(n, r);
    MappedData(n, r);
    forall s | s in n.refs && n.refs[s].frame == w.frame
      ensures s == r
    {
      SharedIsPage(n, r, s);
      PagesAt(n, s);
      PagesAt(m, s);
    }
    CountOnce(n.refs, r);
    CountAt(n, w.frame);
  }

  lemma SharedIsPage(m: Pm, r: Ref, s: Ref)
    requires TreeOk(m) && r in m.refs && s in m.refs && r.PageRef? && m.refs[r].frame == m.refs[s].frame
    ensures s.PageRef? && m.refs[r].frame in m.managed
  {
  }

  // fork

  const USTACK_PN: nat := 0xEEBFE       // PGNUM(USTACKTOP)
  const XSTACK_D: nat := 954            // PDX(UXSTACKTOP - PGSIZE)
  const XSTACK_T: nat := 1023

  function Num(d: nat, t: nat): nat { d * NPTENTRIES + t }

  /** fork duplicates a page below the user stack top that the parent has mapped for user access. */
  ghost predicate Copied(pages: map<Ref, Word>, e: nat, n: nat, d: nat, t: nat) {
    PageRef(e, d, t) in pages && Num(d, t) < n && pages[PageRef(e, d, t)].flags & PTE_U != 0
  }

  /** What became of reference r when the pages of e numbered below n were duplicated into c. */
  ghost predicate SlotForked(before: map<Ref, Word>, after: map<Ref, Word>, e: nat, c: nat, n: nat, r: Ref) {
    if r.PageRef? && r.env == c then
      && (r in after <==> Copied(before, e, n, r.pdx, r.ptx))
      && (r in after ==> var w := before[PageRef(e, r.pdx, r.ptx)]; after[r] == Word(w.frame, ChildFlags(w.flags)))
    else if r.PageRef? && r.env == e then
      && (r in after <==> r in before)
      && (r in after ==> after[r] == if Copied(before, e, n, r.pdx, r.ptx) then Word(before[r].frame, ParentFlags(before[r].flags)) else before[r])
    else
      (r in after <==> r in before) && (r in after ==> after[r] == before[r])
  }

  ghost predicate Forked(before: map<Ref, Word>, after: map<Ref, Word>, e: nat, c: nat, n: nat) {
    forall r :: SlotForked(before, after, e, c, n, r)
  }

  lemma NumInjective(d: nat, t: nat, n: nat)
    requires t < NPTENTRIES
    ensures Num(d, t) == n <==> d == n / NPTENTRIES && t == n % NPTENTRIES
  {
  }

  ghost predicate ShortTables(pages: map<Ref, Word>) {
    forall r :: r in pages ==> r.PageRef? && r.ptx < NPTENTRIES
  }

  lemma ForkedNone(pages: map<Ref, Word>, e: nat, c: nat)
    requires e != c && forall r :: r in pages ==> r.env != c
    ensures Forked(pages, pages, e, c, 0)
  {
  }

  /** The loop passes a page that is not duplicated. */
  lemma ForkedSkip(before: map<Ref, Word>, after: map<Ref, Word>, e: nat, c: nat, n: nat)
    requires Forked(before, after, e, c, n) && e != c && ShortTables(before)
    requires !Copied(before, e, n + 1, n / NPTENTRIES, n % NPTENTRIES)
    ensures Forked(before, after, e, c, n + 1)
  {
    hide Num, ChildFlags, ParentFlags;
    var k := n + 1;
    forall r
      ensures SlotForked(before, after, e, c, k, r)
    {
      assert SlotForked(before, after, e, c, n, r);
      if r.PageRef? {
        CopiedNext(before, e, n, r.pdx, r.ptx);
      }
    }
  }

  lemma CopiedNext(pages: map<Ref, Word>, e: nat, n: nat, d: nat, t: nat)
    requires ShortTables(pages)
    ensures Copied(pages, e, n + 1, d, t) <==>
              Copied(pages, e, n, d, t) || (d == n / NPTENTRIES && t == n % NPTENTRIES && Copied(pages, e, n + 1, d, t))
  {
    hide Num;
    if PageRef(e, d, t) in pages {
      NumInjective(d, t, n);
    }
  }

  /** The loop duplicates a page. */
  lemma ForkedDup(before: map<Ref, Word>, after: map<Ref, Word>, e: nat, c: nat, n: nat)
    requires Forked(before, after, e, c, n) && e != c && ShortTables(before)
    requires Copied(before, e, n + 1, n / NPTENTRIES, n % NPTENTRIES)
    ensures Forked(before, DupPages(after, e, c, n / NPTENTRIES, n % NPTENTRIES), e, c, n + 1)
  {
    hide Num, ChildFlags, ParentFlags;
    var d, t := n / NPTENTRIES, n % NPTENTRIES;
    var next := DupPages(after, e, c, d, t);
    NumInjective(d, t, n);
    SlotBefore(before, after, e, c, n, d, t);
    var k := n + 1;
    forall r
      ensures SlotForked(before, next, e, c, k, r)
    {
      assert SlotForked(before, after, e, c, n, r);
      if r.PageRef? {
        CopiedNext(before, e, n, r.pdx, r.ptx);
      }
    }
  }

  /** A page the loop has not reached is mapped in the parent as it was. */
  lemma SlotBefore(before: map<Ref, Word>, after: map<Ref, Word>, e: nat, c: nat, n: nat, d: nat, t: nat)
    requires Forked(before, after, e, c, n) && e != c && t < NPTENTRIES && Num(d, t) >= n
    ensures PageRef(e, d, t) in after <==> PageRef(e, d, t) in before
    ensures PageRef(e, d, t) in after ==> after[PageRef(e, d, t)] == before[PageRef(e, d, t)]
  {
    hide Num, ChildFlags, ParentFlags;
    assert SlotForked(before, after, e, c, n, PageRef(e, d, t));
  }

  // How far the counts can rise

  /** The pages of e numbered below n that name physical page p. */
  ghost function Own(pages: map<Ref, Word>, e: nat, n: nat, p: nat): set<Ref> {
    set r | r in pages && r.PageRef? && r.env == e && Num(r.pdx, r.ptx) < n && pages[r].frame == p
  }

  lemma OwnGrows(pages: map<Ref, Word>, e: nat, n: nat, m: nat, p: nat)
    requires n <= m
    ensures |Own(pages, e, n, p)| <= |Own(pages, e, m, p)|
  {
    var a, b := Own(pages, e, n, p), Own(pages, e, m, p);
    assert b == a + (b - a);
  }

  lemma OwnNext(pages: map<Ref, Word>, e: nat, n: nat, d: nat, t: nat)
    requires PageRef(e, d, t) in pages && Num(d, t) == n
    ensures var p := pages[PageRef(e, d, t)].frame; |Own(pages, e, n + 1, p)| >= |Own(pages, e, n, p)| + 1
  {
    hide Num;
    var p := pages[PageRef(e, d, t)].frame;
    var a, b := Own(pages, e, n, p), Own(pages, e, n + 1, p);
    assert a + {PageRef(e, d, t)} <= b;
    assert b == (a + {PageRef(e, d, t)}) + (b - (a + {PageRef(e, d, t)}));
  }

  lemma CountPut(pages: map<Ref, Word>, r: Ref, w: Word, p: nat)
    ensures Count(pages[r := w], p) <= Count(pages, p) + (if w.frame == p then 1 else 0)
  {
    var a, b := Naming(pages, p), Naming(pages[r := w], p);
    if w.frame == p {
      assert a + {r} == b;
    } else {
      assert b <= a;
      assert a == b + (a - b);
    }
  }

  lemma CountSameFrame(pages: map<Ref, Word>, r: Ref, w: Word, p: nat)
    requires r in pages && pages[r].frame == w.frame
    ensures Count(pages[r := w], p) == Count(pages, p)
  {
    assert Naming(pages[r := w], p) == Naming(pages, p);
  }

  /** Duplicating a page adds at most one mapping, of the page itself. */
  lemma DupCount(pages: map<Ref, Word>, e: nat, c: nat, d: nat, t: nat, p: nat)
    requires PageRef(e, d, t) in pages && e != c
    ensures Count(DupPages(pages, e, c, d, t), p) <= Count(pages, p) + (if pages[PageRef(e, d, t)].frame == p then 1 else 0)
  {
    hide ChildFlags, ParentFlags, Count;
    var w := pages[PageRef(e, d, t)];
    var x := Word(w.frame, ChildFlags(w.flags));
    CountPut(pages, PageRef(c, d, t), x, p);
    CountSameFrame(pages[PageRef(c, d, t) := x], PageRef(e, d, t), Word(w.frame, ParentFlags(w.flags)), p);
  }

  ghost predicate RoomFor(before: map<Ref, Word>, after: map<Ref, Word>, e: nat, n: nat) {
    forall p: nat :: Count(after, p) <= Count(before, p) + |Own(before, e, n, p)|
  }

  lemma RoomSkip(before: map<Ref, Word>, after: map<Ref, Word>, e: nat, n: nat)
    requires RoomFor(before, after, e, n)
    ensures RoomFor(before, after, e, n + 1)
  {
    hide Count, Own;
    forall p: nat
      ensures Count(after, p) <= Count(before, p) + |Own(before, e, n + 1, p)|
    {
      OwnGrows(before, e, n, n + 1, p);
    }
  }

  lemma RoomDup(before: map<Ref, Word>, after: map<Ref, Word>, e: nat, c: nat, n: nat, d: nat, t: nat)
    requires RoomFor(before, after, e, n) && e != c && PageRef(e, d, t) in before && PageRef(e, d, t) in after
    requires after[PageRef(e, d, t)].frame == before[PageRef(e, d, t)].frame && Num(d, t) == n
    ensures RoomFor(before, DupPages(after, e, c, d, t), e, n + 1)
  {
    hide Count, Own, Num, DupPages;
    OwnNext(before, e, n, d, t);
    forall p: nat
      ensures Count(DupPages(after, e, c, d, t), p) <= Count(before, p) + |Own(before, e, n + 1, p)|
    {
      OwnGrows(before, e, n, n + 1, p);
      DupCount(after, e, c, d, t, p);
    }
  }

  /** The count of a mapped page is the number of user mappings. */
  lemma CountOfMapped(m: Pm, r: Ref)
    requires Valid(m) && r.PageRef? && r in m.refs
    ensures At(m.ppRef, m.refs[r].frame) == Count(Pages(m), m.refs[r].frame)
  {
    hide ListOk, Tree;
    var p := m.refs[r].frame;
    MappedData(m, r);
    assert Naming(m.refs, p) == Naming(Pages(m), p);
  }

  lemma PnRange(n: nat)
    requires n < USTACK_PN
    ensures n / NPTENTRIES < PDX_UTOP && n % NPTENTRIES < NPTENTRIES && Num(n / NPTENTRIES, n % NPTENTRIES) == n
  {
  }

  /** No page of the parent can run out of 16-bit references while fork maps it once more. */
  ghost predicate Roomy(pages: map<Ref, Word>, e: nat) {
    forall p: nat :: Count(pages, p) + |Own(pages, e, USTACK_PN, p)| < 0xFFFE
  }

  /** Where fork's loop stands before page n. */
  ghost predicate Duplicating(before: map<Ref, Word>, after: map<Ref, Word>, e: nat, c: nat, n: nat) {
    && e != c && ShortTables(before) && Roomy(before, e) && PageRef(e, TEMP_D, TEMP_T) !in before
    && Forked(before, after, e, c, n) && RoomFor(before, after, e, n)
  }

  lemma DuplicatingStart(m: Pm, e: nat, c: nat)
    requires Valid(m) && e != c && Roomy(Pages(m), e) && PageRef(e, TEMP_D, TEMP_T) !in m.refs
    requires forall r :: r in Pages(m) ==> r.env != c
    ensures Duplicating(Pages(m), Pages(m), e, c, 0)
  {
    hide Roomy, Count, ListOk, CountsOk;
    PagesAt(m, PageRef(e, TEMP_D, TEMP_T));
    ForkedNone(Pages(m), e, c);
  }

  /** What duppage may rely on when the loop calls it for page n. */
  lemma DuplicatingAt(before: map<Ref, Word>, m: Pm, e: nat, c: nat, n: nat)
    requires Valid(m) && Duplicating(before, Pages(m), e, c, n) && n < USTACK_PN
    ensures var d, t := n / NPTENTRIES, n % NPTENTRIES;
            && (PageRef(e, d, t) in m.refs <==> PageRef(e, d, t) in before)
            && (PageRef(e, d, t) in m.refs ==> m.refs[PageRef(e, d, t)] == before[PageRef(e, d, t)])
            && (PageRef(e, d, t) in m.refs ==> C.Vpn(d, t) != C.PFTEMP && At(m.ppRef, m.refs[PageRef(e, d, t)].frame) < 0xFFFE)
            && (Copied(before, e, n + 1, d, t) <==> PageRef(e, d, t) in m.refs && m.refs[PageRef(e, d, t)].flags & PTE_U != 0)
  {
    hide Valid, Num, Forked, Pages, Count, Own;
    var d, t := n / NPTENTRIES, n % NPTENTRIES;
    PnRange(n);
    PagesAt(m, PageRef(e, d, t));
    SlotBefore(before, Pages(m), e, c, n, d, t);
    if PageRef(e, d, t) in m.refs {
      var p := m.refs[PageRef(e, d, t)].frame;
      CountOfMapped(m, PageRef(e, d, t));
      OwnGrows(before, e, n, USTACK_PN, p);
    }
  }

  lemma DuplicatingSkip(before: map<Ref, Word>, after: map<Ref, Word>, e: nat, c: nat, n: nat)
    requires Duplicating(before, after, e, c, n) && !Copied(before, e, n + 1, n / NPTENTRIES, n % NPTENTRIES)
    ensures Duplicating(before, after, e, c, n + 1)
  {
    hide Forked, RoomFor, Roomy, ShortTables, Copied;
    ForkedSkip(before, after, e, c, n);
    RoomSkip(before, after, e, n);
  }

  lemma DuplicatingDup(before: map<Ref, Word>, after: map<Ref, Word>, e: nat, c: nat, n: nat)
    requires Duplicating(before, after, e, c, n) && Copied(before, e, n + 1, n / NPTENTRIES, n % NPTENTRIES) && n < USTACK_PN
    ensures Duplicating(before, DupPages(after, e, c, n / NPTENTRIES, n % NPTENTRIES), e, c, n + 1)
  {
    hide Forked, RoomFor, Roomy, ShortTables, DupPages, Num;
    var d, t := n / NPTENTRIES, n % NPTENTRIES;
    PnRange(n);
    SlotBefore(before, after, e, c, n, d, t);
    ForkedDup(before, after, e, c, n);
    RoomDup(before, after, e, c, n, d, t);
  }

  /** fork's loop: every page below the user stack that the parent maps for user access is duplicated,
      in order; nothing else changes. */
  method DupAll(mm: Memory, e: nat, c: nat, ghost s0: C.State, ghost zs: seq<C.Step>) returns (r: int, ghost zs': seq<C.Step>)
    requires mm.Ok() && Settled(mm.S(), {}) && DirRef(e) in mm.refs && DirRef(c) in mm.refs
    requires Duplicating(Pages(mm.S()), Pages(mm.S()), e, c, 0)
    requires Traced(mm.S(), s0, zs) && C.Running(Machine(s0, zs), e) && C.ForkOf(Machine(s0, zs), e) == C.Forking(c)
    modifies mm
    ensures mm.Ok() && Settled(mm.S(), {}) && mm.envPgdir == old(mm.envPgdir)
    ensures r == 0 || r == -E_NO_MEM
    ensures r == 0 ==> Forked(Pages(old(mm.S())), Pages(mm.S()), e, c, USTACK_PN) && Unaltered(old(mm.S()), mm.S(), e)
    ensures r == 0 ==> Traced(mm.S(), s0, zs') && C.Running(Machine(s0, zs'), e) && C.ForkOf(Machine(s0, zs'), e) == C.Forking(c)
  {
    hide Valid, Settled, Decode, KernDir, Pages, Walkable, IsDataPage, Content, Traced, C.Running, C.ForkOf, Machine,
      Duplicating, Forked, Copied, DupPages, Unaltered;
    ghost var m0 := mm.S();
    ghost var before := Pages(m0);
    UnalteredSelf(m0, e);
    DirsOf(mm.S());
    zs' := zs;
    for pn := 0 to USTACK_PN
      invariant mm.Ok() && Settled(mm.S(), {}) && mm.envPgdir == old(mm.envPgdir)
      invariant Duplicating(before, Pages(mm.S()), e, c, pn) && Unaltered(m0, mm.S(), e)
      invariant Traced(mm.S(), s0, zs') && C.Running(Machine(s0, zs'), e) && C.ForkOf(Machine(s0, zs'), e) == C.Forking(c)
    {
      var d, t := pn / NPTENTRIES, pn % NPTENTRIES;
      PnRange(pn);
      DirsOf(mm.S());
      TreeOfValid(mm.S());
      DuplicatingAt(before, mm.S(), e, c, pn);
      var pp, pt := mm.PageLookup(e, d, t);
      var user := false;
      if pp != NULL {
        PageThere(mm.S(), e, d, t);
        user := mm.mem[pt][t].flags & PTE_U != 0;
      }
      if user {
        DuplicatingDup(before, Pages(mm.S()), e, c, pn);
        DistinctEnvs(before, Pages(mm.S()), e, c, pn);
        ghost var m := mm.S();
        r, zs' := Duppage(mm, e, c, d, t, s0, zs');
        if r < 0 {
          return;
        }
        ParentKept(before, Pages(m), e, c, pn);
        UnalteredThrough(m0, m, mm.S(), e);
      } else {
        DuplicatingSkip(before, Pages(mm.S()), e, c, pn);
      }
    }
    ForkedNow(before, Pages(mm.S()), e, c);
    r := 0;
  }

  lemma DistinctEnvs(before: map<Ref, Word>, after: map<Ref, Word>, e: nat, c: nat, n: nat)
    requires Duplicating(before, after, e, c, n)
    ensures e != c
  {
  }

  lemma ForkedNow(before: map<Ref, Word>, after: map<Ref, Word>, e: nat, c: nat)
    requires Duplicating(before, after, e, c, USTACK_PN)
    ensures Forked(before, after, e, c, USTACK_PN)
  {
  }

  lemma DirsOf(m: Pm)
    requires Valid(m)
    ensures forall e: nat :: e in m.envPgdir <==> DirRef(e) in m.refs
  {
  }

  lemma UnalteredSelf(m: Pm, e: nat)
    ensures Unaltered(m, m, e)
  {
  }

  lemma ParentKept(before: map<Ref, Word>, after: map<Ref, Word>, e: nat, c: nat, n: nat)
    requires Duplicating(before, after, e, c, n)
    ensures forall r :: r in before && r.env == e ==> r in after && after[r].frame == before[r].frame
  {
    hide Roomy, RoomFor, Copied, ChildFlags, ParentFlags;
    forall r | r in before && r.env == e
      ensures r in after && after[r].frame == before[r].frame
    {
      assert SlotForked(before, after, e, c, n, r);
    }
  }

  // The calls around the loop

  lemma AbsSame(m: Pm, s: C.State, s': C.State)
    requires Abstracts(m, s) && s'.pages == s.pages && s'.data == s.data
    ensures Abstracts(m, s')
  {
    hide Decode, Content;
    forall e: nat, d: nat, t: nat
      ensures AbsRef(m, s', e, d, t)
    {
      assert AbsRef(m, s, e, d, t);
    }
  }

  lemma ExoforkTrace(m: Pm, s0: C.State, zs: seq<C.Step>, e: nat, c: nat)
    requires Traced(m, s0, zs) && C.Enabled(Machine(s0, zs), C.Exofork(e, c), ZeroPage())
    ensures var zs' := zs + [C.Exofork(e, c)];
            Traced(m, s0, zs') && C.Running(Machine(s0, zs'), e) && C.ForkOf(Machine(s0, zs'), e) == C.Forking(c)
  {
    hide Abstracts;
    C.RunExtend(s0, zs, C.Exofork(e, c), ZeroPage());
    AbsSame(m, Machine(s0, zs), C.Next(Machine(s0, zs), C.Exofork(e, c), ZeroPage()));
  }

  lemma StackTrace(m: Pm, n: Pm, s0: C.State, zs: seq<C.Step>, e: nat, c: nat, w: Word)
    requires Valid(m) && Traced(m, s0, zs) && C.Running(Machine(s0, zs), e) && C.ForkOf(Machine(s0, zs), e) == C.Forking(c)
    requires Agrees(m, n, Pages(m)[PageRef(c, XSTACK_D, XSTACK_T) := w])
    requires Unnamed(m.refs, w.frame) && Content(n, w.frame) == ZeroPage() && Decode(w.flags) == C.RW
    ensures var zs' := zs + [C.Alloc(e, SlotOf(c, XSTACK_D, XSTACK_T), C.RW, w.frame)];
            Traced(n, s0, zs') && C.Running(Machine(s0, zs'), e) && C.ForkOf(Machine(s0, zs'), e) == C.Forking(c)
  {
    hide Valid, Agrees, Decode, Abstracts;
    var z := C.Alloc(e, SlotOf(c, XSTACK_D, XSTACK_T), C.RW, w.frame);
    var s := Machine(s0, zs);
    UnnamedUnmapped(m, s, w.frame);
    C.RunExtend(s0, zs, z, ZeroPage());
    AbsFresh(m, n, s, C.Next(s, z, ZeroPage()), c, XSTACK_D, XSTACK_T, w);
  }

  lemma ForkDoneTrace(m: Pm, s0: C.State, zs: seq<C.Step>, e: nat, c: nat)
    requires Traced(m, s0, zs) && C.Running(Machine(s0, zs), e) && C.ForkOf(Machine(s0, zs), e) == C.Forking(c)
    ensures var zs' := zs + [C.ForkDone(e)];
            && Traced(m, s0, zs') && c in Machine(s0, zs').runnable
            && C.Running(Machine(s0, zs'), e) && C.ForkOf(Machine(s0, zs'), e) == C.NoFork
  {
    hide Abstracts;
    C.RunExtend(s0, zs, C.ForkDone(e), ZeroPage());
    AbsSame(m, Machine(s0, zs), C.Next(Machine(s0, zs), C.ForkDone(e), ZeroPage()));
  }

  /** The child reads at every duplicated address what the parent read there before fork. */
  ghost predicate SameMemory(m: Pm, n: Pm, e: nat, c: nat) {
    forall d: nat, t: nat :: Copied(Pages(m), e, USTACK_PN, d, t) ==>
      && PageRef(c, d, t) in Pages(n)
      && Content(n, Pages(n)[PageRef(c, d, t)].frame) == Content(m, Pages(m)[PageRef(e, d, t)].frame)
  }

  lemma ChildSameMemory(m: Pm, n: Pm, e: nat, c: nat)
    requires Forked(Pages(m), Pages(n), e, c, USTACK_PN) && Unaltered(m, n, e)
    ensures SameMemory(m, n, e, c)
  {
    hide Content, Pages, ChildFlags, ParentFlags, Num;
    forall d: nat, t: nat | Copied(Pages(m), e, USTACK_PN, d, t)
      ensures PageRef(c, d, t) in Pages(n)
      ensures Content(n, Pages(n)[PageRef(c, d, t)].frame) == Content(m, Pages(m)[PageRef(e, d, t)].frame)
    {
      assert SlotForked(Pages(m), Pages(n), e, c, USTACK_PN, PageRef(c, d, t));
    }
  }

  lemma StackKeepsMemory(m: Pm, m1: Pm, n: Pm, e: nat, c: nat, w: Word)
    requires Valid(m1) && SameMemory(m, m1, e, c) && Agrees(m1, n, Pages(m1)[PageRef(c, XSTACK_D, XSTACK_T) := w])
    ensures SameMemory(m, n, e, c)
  {
    hide Valid, Content, Pages, Agrees;
    AgreesPages(m1, n, Pages(m1)[PageRef(c, XSTACK_D, XSTACK_T) := w]);
    MapUnaltered(m1, n, Pages(n), c);
    forall d: nat, t: nat | Copied(Pages(m), e, USTACK_PN, d, t)
      ensures PageRef(c, d, t) in Pages(n)
      ensures Content(n, Pages(n)[PageRef(c, d, t)].frame) == Content(m, Pages(m)[PageRef(e, d, t)].frame)
    {
      assert PageRef(c, d, t) in Pages(m1) && PageRef(c, d, t).env == c;
      assert PageRef(c, d, t) != PageRef(c, XSTACK_D, XSTACK_T);
    }
  }

  lemma AgreesPages(m: Pm, n: Pm, pages: map<Ref, Word>)
    requires Agrees(m, n, pages)
    ensures Pages(n) == pages && Agrees(m, n, Pages(n))
  {
  }

  /** fork, from the child's creation to its being made runnable.  Out of memory the source panics. */
  method Fork(mm: Memory, e: nat, c: nat, ghost s0: C.State, ghost zs: seq<C.Step>) returns (r: int, ghost zs': seq<C.Step>)
    requires mm.Ok() && Settled(mm.S(), {}) && DirRef(e) in mm.refs && DirRef(c) in mm.refs && e != c
    requires (forall x :: x in Pages(mm.S()) ==> x.env != c) && PageRef(e, TEMP_D, TEMP_T) !in mm.refs && Roomy(Pages(mm.S()), e)
    requires Traced(mm.S(), s0, zs) && C.Enabled(Machine(s0, zs), C.Exofork(e, c), ZeroPage())
    modifies mm
    ensures mm.Ok() && Settled(mm.S(), {})
    ensures r == 0 || r == -E_NO_MEM
    ensures r == 0 ==> Forked(Pages(old(mm.S())), Pages(mm.S()) - {PageRef(c, XSTACK_D, XSTACK_T)}, e, c, USTACK_PN)
    ensures r == 0 ==> SameMemory(old(mm.S()), mm.S(), e, c) && AllInherited(old(mm.S()), mm.S(), e, c)
    ensures r == 0 ==> PageRef(c, XSTACK_D, XSTACK_T) in mm.refs && UserWritable(mm.refs[PageRef(c, XSTACK_D, XSTACK_T)])
                       && Content(mm.S(), mm.refs[PageRef(c, XSTACK_D, XSTACK_T)].frame) == ZeroPage()
    ensures r == 0 ==> Traced(mm.S(), s0, zs') && c in Machine(s0, zs').runnable
    ensures r == 0 ==> C.Running(Machine(s0, zs'), e) && C.ForkOf(Machine(s0, zs'), e) == C.NoFork
  {
    hide Valid, Settled, Decode, KernDir, Pages, IsDataPage, Content, Traced, C.Running, C.ForkOf, C.Enabled, Machine,
      Duplicating, Forked, Unaltered, Agrees, Roomy, SameMemory, Unnamed, AllInherited;
    ghost var m := mm.S();
    DuplicatingStart(m, e, c);
    ExoforkTrace(m, s0, zs, e, c);
    r, zs' := DupAll(mm, e, c, s0, zs + [C.Exofork(e, c)]);
    if r < 0 {
      return;
    }
    ghost var m1 := mm.S();
    ChildSameMemory(m, m1, e, c);
    DirsOf(m);
    DirsOf(m1);
    r := mm.AllocAt(c, XSTACK_D, XSTACK_T, PTE_U | PTE_P | PTE_W);
    if r < 0 {
      return;
    }
    ghost var w := Word(m1.free[0], PTE_U | PTE_P | PTE_W | PTE_P);
    DecodeFacts(0);
    HeadUnnamed(m1);
    StackTrace(m1, mm.S(), s0, zs', e, c, w);
    StackKeepsMemory(m, m1, mm.S(), e, c, w);
    StackAlone(m, m1, mm.S(), e, c, w);
    ForkedInherits(m, mm.S(), e, c);
    zs' := zs' + [C.Alloc(e, SlotOf(c, XSTACK_D, XSTACK_T), C.RW, w.frame)];
    ForkDoneTrace(mm.S(), s0, zs', e, c);
    zs' := zs' + [C.ForkDone(e)];
  }

  /** The exception stack lies above everything the loop duplicates. */
  lemma StackAlone(m: Pm, m1: Pm, n: Pm, e: nat, c: nat, w: Word)
    requires Forked(Pages(m), Pages(m1), e, c, USTACK_PN) && Agrees(m1, n, Pages(m1)[PageRef(c, XSTACK_D, XSTACK_T) := w])
    ensures Pages(n) - {PageRef(c, XSTACK_D, XSTACK_T)} == Pages(m1)
    ensures PageRef(c, XSTACK_D, XSTACK_T) in n.refs && n.refs[PageRef(c, XSTACK_D, XSTACK_T)] == w
  {
    hide Valid, Content;
    var x := PageRef(c, XSTACK_D, XSTACK_T);
    assert SlotForked(Pages(m), Pages(m1), e, c, USTACK_PN, x);
    assert x !in Pages(m1);
    PagesAt(n, x);
  }

  /** What the page tables and frames hold after any run of these methods and of user code: every private
      page of a runnable environment reads as eager copying would have left it. */
  lemma TracedIsEager(m: Pm, s0: C.State, m0: C.Eager, zs: seq<C.Step>, e: nat, d: nat, t: nat)
    requires C.Inv(s0) && C.Refines(s0, m0) && Traced(m, s0, zs)
    requires PageRef(e, d, t) in m.refs && !Decode(m.refs[PageRef(e, d, t)].flags).share
    requires e in Machine(s0, zs).runnable && C.Vpn(d, t) != C.PFTEMP
    ensures var n := C.EagerAfter(s0, m0, zs, ZeroPage());
            SlotOf(e, d, t) in n && Content(m, m.refs[PageRef(e, d, t)].frame) == n[SlotOf(e, d, t)]
  {
    hide C.Inv, C.Refines, C.EagerAfter, C.After, C.Legal, Abstracts, Decode, Content;
    C.ForkRefinesEagerCopy(s0, m0, zs, ZeroPage());
    AbsAt(m, Machine(s0, zs), e, d, t);
  }

  /** And of two references to one page, one of them private, neither can be written through, outside
      the two transits of pgfault and duppage. */
  lemma TracedReadOnly(m: Pm, s0: C.State, m0: C.Eager, zs: seq<C.Step>, a: Ref, b: Ref)
    requires C.Inv(s0) && C.Refines(s0, m0) && Traced(m, s0, zs)
    requires a.PageRef? && b.PageRef? && a != b && a in m.refs && b in m.refs && m.refs[a].frame == m.refs[b].frame
    requires !Decode(m.refs[a].flags).share
    ensures var x, y := SlotOf(a.env, a.pdx, a.ptx), SlotOf(b.env, b.pdx, b.ptx);
            && !Decode(m.refs[b].flags).share
            && ((!Decode(m.refs[a].flags).write && !Decode(m.refs[b].flags).write)
                || C.InTransit(Machine(s0, zs), x, y) || C.InTransit(Machine(s0, zs), y, x))
  {
    hide C.Inv, C.Refines, C.After, C.Legal, Abstracts, Decode, Content, C.InTransit;
    AbsAt(m, Machine(s0, zs), a.env, a.pdx, a.ptx);
    AbsAt(m, Machine(s0, zs), b.env, b.pdx, b.ptx);
    C.SharedPagesReadOnly(s0, m0, zs, ZeroPage(), SlotOf(a.env, a.pdx, a.ptx), SlotOf(b.env, b.pdx, b.ptx));
  }
}
