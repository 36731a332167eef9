/** Copy-on-write fork (lib/fork.c) against eager copying.

    Environments run interleaved, one system call, memory access or copy at a time.  The eager
    machine beside the real one gives every environment its own page for each of its private
    addresses and copies it when fork duplicates the page. */
module CopyOnWrite {
  import PageTables

  type Word = PageTables.Word
  type Page = seq<Word>

  /** What lib/fork.c looks at in a page table entry. */
  datatype Prot = Prot(write: bool, cow: bool, share: bool)
  datatype Pte = Pte(frame: nat, prot: Prot)

  /** A page of the virtual address space of an environment. */
  datatype Vpn = Vpn(pdx: nat, ptx: nat)
  datatype Slot = Slot(env: nat, vpn: Vpn)

  const PFTEMP := Vpn(1, 1023)     // UTEMP + PTSIZE - PGSIZE

  const RW := Prot(true, false, false)
  const RO := Prot(false, false, false)
  const COW := Prot(false, true, false)

  /** Where an environment is in pgfault. */
  datatype Fault = NoFault | Allocated(at: Slot) | Copied(at: Slot) | Mapped(at: Slot)

  /** Where an environment is in fork; Dup is between the two map calls of duppage. */
  datatype Fork = NoFork | Forking(child: nat) | Dup(child: nat, at: Slot, late: bool)

  datatype State = State(
    pages: map<Slot, Pte>,
    data: map<nat, Page>,
    fault: map<nat, Fault>,
    fork: map<nat, Fork>,
    runnable: set<nat>)

  function FaultOf(s: State, e: nat): Fault {
    if e in s.fault then s.fault[e] else NoFault
  }

  function ForkOf(s: State, e: nat): Fork {
    if e in s.fork then s.fork[e] else NoFork
  }

  function At(s: State, a: Slot): Pte {
    if a in s.pages then s.pages[a] else Pte(0, RO)
  }

  /** The page seen through slot a. */
  function See(s: State, a: Slot): Page {
    if At(s, a).frame in s.data then s.data[At(s, a).frame] else []
  }

  function Put(page: Page, off: nat, x: Word): Page {
    if off < |page| then page[off := x] else page
  }

  function Temp(e: nat): Slot {
    Slot(e, PFTEMP)
  }

  function Child(a: Slot, c: nat): Slot {
    Slot(c, a.vpn)
  }

  /** Environment e may run its own code: it is scheduled and not inside pgfault. */
  predicate Running(s: State, e: nat) {
    e in s.runnable && FaultOf(s, e).NoFault?
  }

  predicate Private(s: State, a: Slot) {
    a in s.pages && !s.pages[a].prot.share
  }

  ghost predicate Unmapped(s: State, p: nat) {
    forall a :: a in s.pages ==> s.pages[a].frame != p
  }

  datatype Step =
    | Write(at: Slot, off: nat, x: Word)
    | FaultAlloc(at: Slot, frame: nat)
    | FaultCopy(env: nat)
    | FaultMap(env: nat)
    | FaultDone(env: nat)
    | Alloc(env: nat, at: Slot, prot: Prot, frame: nat)
    | Unmap(env: nat, at: Slot)
    | ShareMap(env: nat, src: Slot, at: Slot, prot: Prot)
    | Exofork(env: nat, child: nat)
    | DupChild(at: Slot)
    | DupParent(env: nat)
    | ForkDone(env: nat)
    | Exit(env: nat)

  /** Who may change the mapping at a: its environment, or the parent that is forking it. */
  predicate Owns(s: State, e: nat, a: Slot) {
    && Running(s, e) && !ForkOf(s, e).Dup? && a.vpn != PFTEMP
    && (a.env == e || ForkOf(s, e) == Forking(a.env))
  }

  ghost predicate Enabled(s: State, z: Step, zero: Page) {
    match z
    case Write(a, off, x) =>
      && Running(s, a.env) && a.vpn != PFTEMP
      && a in s.pages && s.pages[a].prot.write && s.pages[a].frame in s.data && off < |s.data[s.pages[a].frame]|
    case FaultAlloc(a, p) =>
      && Running(s, a.env) && a.vpn != PFTEMP && a in s.pages && !s.pages[a].prot.write && Unmapped(s, p)
    case FaultCopy(e) =>
      && FaultOf(s, e).Allocated?
    case FaultMap(e) =>
      && FaultOf(s, e).Copied?
    case FaultDone(e) =>
      && FaultOf(s, e).Mapped?
    case Alloc(e, a, prot, p) =>
      && Owns(s, e, a) && Unmapped(s, p)
    case Unmap(e, a) =>
      && Owns(s, e, a)
    case ShareMap(e, src, a, prot) =>
      && Owns(s, e, a) && src in s.pages && s.pages[src].prot.share && prot.share
    case Exofork(e, c) =>
      && Running(s, e) && ForkOf(s, e).NoFork? && c != e && c !in s.runnable
      && FaultOf(s, c).NoFault? && ForkOf(s, c).NoFork?
      && (forall a :: a in s.pages ==> a.env != c)
      && (forall f :: f in s.fork && !s.fork[f].NoFork? ==> s.fork[f].child != c)
    case DupChild(a) =>
      && Running(s, a.env) && ForkOf(s, a.env).Forking? && a in s.pages && a.vpn != PFTEMP
    case DupParent(e) =>
      && Running(s, e) && ForkOf(s, e).Dup?
    case ForkDone(e) =>
      && Running(s, e) && ForkOf(s, e).Forking?
    case Exit(e) =>
      && e in s.runnable
  }

  /** One step of the real machine; a fresh page holds zero. */
  ghost function Next(s: State, z: Step, zero: Page): State {
    match z
    case Write(a, off, x) =>
      s.(data := s.data[At(s, a).frame := Put(See(s, a), off, x)])
    case FaultAlloc(a, p) =>
      s.(pages := s.pages[Temp(a.env) := Pte(p, RW)], data := s.data[p := zero], fault := s.fault[a.env := Allocated(a)])
    case FaultCopy(e) =>
      var a := Faulted(s, e);
      s.(data := s.data[At(s, Temp(e)).frame := See(s, a)], fault := s.fault[e := Copied(a)])
    case FaultMap(e) =>
      var a := Faulted(s, e);
      s.(pages := s.pages[a := Pte(At(s, Temp(e)).frame, RW)], fault := s.fault[e := Mapped(a)])
    case FaultDone(e) =>
      s.(pages := s.pages - {Temp(e)}, fault := s.fault[e := NoFault])
    case Alloc(e, a, prot, p) =>
      s.(pages := s.pages[a := Pte(p, prot)], data := s.data[p := zero])
    case Unmap(e, a) =>
      s.(pages := s.pages - {a})
    case ShareMap(e, src, a, prot) =>
      s.(pages := s.pages[a := Pte(At(s, src).frame, prot)])
    case Exofork(e, c) =>
      s.(fork := s.fork[e := Forking(c)])
    case DupChild(a) =>
      var c := Forked(s, a.env);
      var w := At(s, a);
      if w.prot.share then s.(pages := s.pages[Child(a, c) := w])
      else if w.prot.write || w.prot.cow then
        s.(pages := s.pages[Child(a, c) := Pte(w.frame, COW)], fork := s.fork[a.env := Dup(c, a, w.prot.write)])
      else s.(pages := s.pages[Child(a, c) := Pte(w.frame, RO)])
    case DupParent(e) =>
      var a := Dupped(s, e);
      s.(pages := s.pages[a := Pte(At(s, a).frame, COW)], fork := s.fork[e := Forking(Forked(s, e))])
    case ForkDone(e) =>
      s.(fork := s.fork[e := NoFork], runnable := s.runnable + {Forked(s, e)})
    case Exit(e) =>
      s.(pages := Without(s.pages, e), runnable := s.runnable - {e}, fault := s.fault[e := NoFault], fork := s.fork[e := NoFork])
  }

  /** env_destroy takes all pages of an environment, wherever it is in pgfault or fork. */
  function Without<T>(pages: map<Slot, T>, e: nat): map<Slot, T> {
    map a | a in pages && a.env != e :: pages[a]
  }

  function Faulted(s: State, e: nat): Slot {
    if FaultOf(s, e).NoFault? then Temp(e) else FaultOf(s, e).at
  }

  function Forked(s: State, e: nat): nat {
    if ForkOf(s, e).NoFork? then e else ForkOf(s, e).child
  }

  function Dupped(s: State, e: nat): Slot {
    if ForkOf(s, e).Dup? then ForkOf(s, e).at else Temp(e)
  }

  /** Private memory under eager copying. */
  type Eager = map<Slot, Page>

  function Copy(m: Eager, from: Slot, to: Slot): Eager {
    if from in m then m[to := m[from]] else m - {to}
  }

  /** The copy that waits for the second map call of duppage. */
  function CopyLate(s: State, m: Eager, e: nat): Eager {
    if ForkOf(s, e).Dup? && ForkOf(s, e).late then Copy(m, Dupped(s, e), Child(Dupped(s, e), Forked(s, e))) else m
  }

  /** The same step with eager copying.  Fork copies each private page once: at the first map call of
      duppage, or at the second if the parent could still write the page between the two. */
  ghost function NextEager(s: State, m: Eager, z: Step, zero: Page): Eager {
    match z
    case Write(a, off, x) =>
      if Private(s, a) && a in m then m[a := Put(m[a], off, x)] else m
    case FaultMap(e) =>
      if Private(s, Faulted(s, e)) then m else m[Faulted(s, e) := See(s, Temp(e))]
    case Alloc(e, a, prot, p) => if prot.share then m - {a} else m[a := zero]
    case Unmap(e, a) => m - {a}
    case ShareMap(e, src, a, prot) => m - {a}
    case DupChild(a) =>
      var c := Child(a, Forked(s, a.env));
      if Private(s, a) && !At(s, a).prot.write then Copy(m, a, c) else m - {c}
    case DupParent(e) =>
      CopyLate(s, m, e)
    case Exit(e) => Without(CopyLate(s, m, e), e)
    case _ => m
  }

  /** The private pages the eager machine has: all but the temporary ones and one still to be copied. */
  ghost predicate Counted(s: State, a: Slot) {
    Private(s, a) && a.vpn != PFTEMP && forall e: nat :: !Pending(s, e, a)
  }

  /** Slot a waits for the second map call of duppage in environment e. */
  predicate Pending(s: State, e: nat, a: Slot) {
    var f := ForkOf(s, e);
    f.Dup? && f.late && a == Child(f.at, f.child)
  }

  /** Reading through the page tables gives what the eager machine holds. */
  ghost predicate Refines(s: State, m: Eager) {
    forall a :: Counted(s, a) ==> a in m && See(s, a) == m[a]
  }

  /** Two private mappings of one page that may include a writable one: a page being installed by
      pgfault, and a page between the two map calls of duppage. */
  predicate InTransit(s: State, a: Slot, b: Slot) {
    || (a == Temp(a.env) && FaultOf(s, a.env) == Mapped(b))
    || (var f := ForkOf(s, a.env); f.Dup? && f.late && f.at == a && b == Child(a, f.child))
  }

  /** A page with two private mappings is writable through none of them, outside the two transits;
      shared and private mappings never meet. */
  ghost predicate PairOk(s: State, a: Slot, b: Slot)
    requires a in s.pages && b in s.pages
  {
    && s.pages[a].prot.share == s.pages[b].prot.share
    && (s.pages[a].prot.share || (!s.pages[a].prot.write && !s.pages[b].prot.write)
        || InTransit(s, a, b) || InTransit(s, b, a))
  }

  ghost predicate FaultOk(s: State, e: nat) {
    match FaultOf(s, e)
    case NoFault => Temp(e) !in s.pages
    case Allocated(a) => Held(s, e, a) && !s.pages[a].prot.write
    case Copied(a) =>
      && Held(s, e, a) && !s.pages[a].prot.write
      && (Private(s, a) ==> s.data[s.pages[Temp(e)].frame] == s.data[s.pages[a].frame])
    case Mapped(a) => Held(s, e, a) && s.pages[a] == s.pages[Temp(e)]
  }

  /** In pgfault for a, the temporary page is mapped read-write. */
  ghost predicate Held(s: State, e: nat, a: Slot) {
    && e in s.runnable && a.env == e && a.vpn != PFTEMP && a in s.pages && Temp(e) in s.pages
    && s.pages[Temp(e)].prot == RW
    && s.pages[a].frame in s.data && s.pages[Temp(e)].frame in s.data
  }

  ghost predicate ForkOk(s: State, e: nat) {
    match ForkOf(s, e)
    case NoFork => true
    case Forking(c) => e in s.runnable && c !in s.runnable && FaultOf(s, c).NoFault? && ForkOf(s, c).NoFork?
    case Dup(c, a, late) =>
      && e in s.runnable && c !in s.runnable && FaultOf(s, c).NoFault? && ForkOf(s, c).NoFork?
      && a.env == e && a.vpn != PFTEMP && Private(s, a) && Private(s, Child(a, c))
      && s.pages[Child(a, c)].prot == COW
      && (late ==> s.pages[a].prot.write && s.pages[a].frame == s.pages[Child(a, c)].frame)
  }

  ghost predicate Pairs(s: State) {
    forall a, b :: a in s.pages && b in s.pages && a != b && s.pages[a].frame == s.pages[b].frame ==> PairOk(s, a, b)
  }

  /** No two environments are forking the same child. */
  ghost predicate Children(fork: map<nat, Fork>) {
    forall e, f :: e in fork && f in fork && e != f && !fork[e].NoFork? && !fork[f].NoFork? ==> fork[e].child != fork[f].child
  }

  ghost predicate Inv(s: State) {
    && (forall a :: a in s.pages ==> s.pages[a].frame in s.data)
    && Pairs(s)
    && (forall e: nat :: FaultOk(s, e))
    && (forall e: nat :: ForkOk(s, e))
    && Children(s.fork)
  }

  lemma WritePairs(s: State, a: Slot, off: nat, x: Word, zero: Page)
    requires Inv(s) && Enabled(s, Write(a, off, x), zero)
    ensures Pairs(Next(s, Write(a, off, x), zero))
  {
    hide Children;
    assert FaultOk(s, a.env) && ForkOk(s, a.env);
  }

  lemma WriteLocal(s: State, a: Slot, off: nat, x: Word, zero: Page, f: nat)
    requires Inv(s) && Enabled(s, Write(a, off, x), zero)
    ensures FaultOk(Next(s, Write(a, off, x), zero), f) && ForkOk(Next(s, Write(a, off, x), zero), f)
  {
    hide Children;
    assert FaultOk(s, a.env) && ForkOk(s, a.env);
    assert FaultOk(s, f) && ForkOk(s, f);
  }

  lemma FaultAllocPairs(s: State, a: Slot, p: nat, zero: Page)
    requires Inv(s) && Enabled(s, FaultAlloc(a, p), zero)
    ensures Pairs(Next(s, FaultAlloc(a, p), zero))
  {
    hide Children;
    assert FaultOk(s, a.env) && ForkOk(s, a.env);
  }

  lemma FaultAllocLocal(s: State, a: Slot, p: nat, zero: Page, f: nat)
    requires Inv(s) && Enabled(s, FaultAlloc(a, p), zero)
    ensures FaultOk(Next(s, FaultAlloc(a, p), zero), f) && ForkOk(Next(s, FaultAlloc(a, p), zero), f)
  {
    hide Children;
    assert FaultOk(s, a.env) && ForkOk(s, a.env);
    assert FaultOk(s, f) && ForkOk(s, f);
  }

  lemma FaultCopyPairs(s: State, e: nat, zero: Page)
    requires Inv(s) && Enabled(s, FaultCopy(e), zero)
    ensures Pairs(Next(s, FaultCopy(e), zero))
  {
    hide Children;
    assert FaultOk(s, e) && ForkOk(s, e);
  }

  lemma FaultCopyLocal(s: State, e: nat, zero: Page, f: nat)
    requires Inv(s) && Enabled(s, FaultCopy(e), zero)
    ensures FaultOk(Next(s, FaultCopy(e), zero), f) && ForkOk(Next(s, FaultCopy(e), zero), f)
  {
    hide Children, Pairs;
    assert FaultOk(s, e) && ForkOk(s, e);
    assert FaultOk(s, f) && ForkOk(s, f);
    if f != e && FaultOf(s, f).Copied? {
      TempAlone(s, e, Temp(f));
      TempAlone(s, e, FaultOf(s, f).at);
    }
  }

  /** Until pgfault maps it, nobody else maps the page it allocated. */
  lemma TempAlone(s: State, e: nat, y: Slot)
    requires Inv(s) && (FaultOf(s, e).Allocated? || FaultOf(s, e).Copied?)
    requires Temp(e) in s.pages && y in s.pages && y != Temp(e)
    ensures s.pages[y].frame != s.pages[Temp(e)].frame
  {
    hide Children;
    assert FaultOk(s, e) && FaultOk(s, y.env) && ForkOk(s, y.env) && ForkOk(s, e);
    assert s.pages[y].frame == s.pages[Temp(e)].frame ==> PairOk(s, Temp(e), y);
  }

  lemma FaultMapPairs(s: State, e: nat, zero: Page)
    requires Inv(s) && Enabled(s, FaultMap(e), zero)
    ensures Pairs(Next(s, FaultMap(e), zero))
  {
    hide Children, ForkOk;
    assert FaultOk(s, e) && ForkOk(s, e);
    hide FaultOk;
    var t := Next(s, FaultMap(e), zero);
    var a := Faulted(s, e);
    forall x, y | x in t.pages && y in t.pages && x != y && t.pages[x].frame == t.pages[y].frame
      ensures PairOk(t, x, y)
    {
      if x != a && y != a {
        assert PairOk(s, x, y);
      } else {
        var z := if x == a then y else x;
        if z != Temp(e) {
          TempAlone(s, e, z);
        }
      }
    }
  }

  lemma FaultMapLocal(s: State, e: nat, zero: Page, f: nat)
    requires Inv(s) && Enabled(s, FaultMap(e), zero)
    ensures FaultOk(Next(s, FaultMap(e), zero), f) && ForkOk(Next(s, FaultMap(e), zero), f)
  {
    hide Children;
    assert FaultOk(s, e) && ForkOk(s, e);
    assert FaultOk(s, f) && ForkOk(s, f);
  }

  lemma FaultDonePairs(s: State, e: nat, zero: Page)
    requires Inv(s) && Enabled(s, FaultDone(e), zero)
    ensures Pairs(Next(s, FaultDone(e), zero))
  {
    hide Children, ForkOk, FaultOk;
    var t := Next(s, FaultDone(e), zero);
    forall x, y | x in t.pages && y in t.pages && x != y && t.pages[x].frame == t.pages[y].frame
      ensures PairOk(t, x, y)
    {
      assert PairOk(s, x, y);
    }
  }

  lemma FaultDoneLocal(s: State, e: nat, zero: Page, f: nat)
    requires Inv(s) && Enabled(s, FaultDone(e), zero)
    ensures FaultOk(Next(s, FaultDone(e), zero), f) && ForkOk(Next(s, FaultDone(e), zero), f)
  {
    hide Children;
    assert FaultOk(s, e) && ForkOk(s, e);
    assert FaultOk(s, f) && ForkOk(s, f);
  }

  lemma AllocPairs(s: State, e: nat, a: Slot, prot: Prot, p: nat, zero: Page)
    requires Inv(s) && Enabled(s, Alloc(e, a, prot, p), zero)
    ensures Pairs(Next(s, Alloc(e, a, prot, p), zero))
  {
    hide Children;
    assert FaultOk(s, e) && ForkOk(s, e);
  }

  lemma AllocLocal(s: State, e: nat, a: Slot, prot: Prot, p: nat, zero: Page, f: nat)
    requires Inv(s) && Enabled(s, Alloc(e, a, prot, p), zero)
    ensures FaultOk(Next(s, Alloc(e, a, prot, p), zero), f) && ForkOk(Next(s, Alloc(e, a, prot, p), zero), f)
  {
    assert FaultOk(s, e) && ForkOk(s, e);
    assert FaultOk(s, f) && ForkOk(s, f);
  }

  lemma UnmapPairs(s: State, e: nat, a: Slot, zero: Page)
    requires Inv(s) && Enabled(s, Unmap(e, a), zero)
    ensures Pairs(Next(s, Unmap(e, a), zero))
  {
    hide Children;
    assert FaultOk(s, e) && ForkOk(s, e);
  }

  lemma UnmapLocal(s: State, e: nat, a: Slot, zero: Page, f: nat)
    requires Inv(s) && Enabled(s, Unmap(e, a), zero)
    ensures FaultOk(Next(s, Unmap(e, a), zero), f) && ForkOk(Next(s, Unmap(e, a), zero), f)
  {
    assert FaultOk(s, e) && ForkOk(s, e);
    assert FaultOk(s, f) && ForkOk(s, f);
  }

  lemma ShareMapPairs(s: State, e: nat, src: Slot, a: Slot, prot: Prot, zero: Page)
    requires Inv(s) && Enabled(s, ShareMap(e, src, a, prot), zero)
    ensures Pairs(Next(s, ShareMap(e, src, a, prot), zero))
  {
    hide Children;
    assert FaultOk(s, e) && ForkOk(s, e);
  }

  lemma ShareMapLocal(s: State, e: nat, src: Slot, a: Slot, prot: Prot, zero: Page, f: nat)
    requires Inv(s) && Enabled(s, ShareMap(e, src, a, prot), zero)
    ensures FaultOk(Next(s, ShareMap(e, src, a, prot), zero), f) && ForkOk(Next(s, ShareMap(e, src, a, prot), zero), f)
  {
    assert FaultOk(s, e) && ForkOk(s, e);
    assert FaultOk(s, f) && ForkOk(s, f);
  }

  lemma ExoforkPairs(s: State, e: nat, c: nat, zero: Page)
    requires Inv(s) && Enabled(s, Exofork(e, c), zero)
    ensures Pairs(Next(s, Exofork(e, c), zero))
  {
    hide Children;
    assert FaultOk(s, e) && ForkOk(s, e);
  }

  lemma ExoforkLocal(s: State, e: nat, c: nat, zero: Page, f: nat)
    requires Inv(s) && Enabled(s, Exofork(e, c), zero)
    ensures FaultOk(Next(s, Exofork(e, c), zero), f) && ForkOk(Next(s, Exofork(e, c), zero), f)
  {
    hide Children;
    assert FaultOk(s, e) && ForkOk(s, e);
    assert FaultOk(s, f) && ForkOk(s, f);
  }

  /** Another mapping of a page about to be duplicated is as little writable as this one. */
  lemma DupChildOther(s: State, a: Slot, y: Slot)
    requires Inv(s) && Running(s, a.env) && ForkOf(s, a.env).Forking? && a in s.pages && a.vpn != PFTEMP
    requires y in s.pages && y != a && s.pages[y].frame == s.pages[a].frame
    ensures s.pages[y].prot.share == s.pages[a].prot.share
    ensures s.pages[a].prot.share || (!s.pages[a].prot.write && !s.pages[y].prot.write)
  {
    hide Children;
    assert PairOk(s, a, y);
    assert FaultOk(s, y.env) && ForkOk(s, y.env);
  }

  lemma DupChildPairs(s: State, a: Slot, zero: Page)
    requires Inv(s) && Enabled(s, DupChild(a), zero)
    ensures Pairs(Next(s, DupChild(a), zero))
  {
    hide Children, FaultOk, ForkOk;
    var t := Next(s, DupChild(a), zero);
    var k := Child(a, Forked(s, a.env));
    forall x, y | x in t.pages && y in t.pages && x != y && t.pages[x].frame == t.pages[y].frame
      ensures PairOk(t, x, y)
    {
      if x != k && y != k {
        assert PairOk(s, x, y);
      } else {
        var z := if x == k then y else x;
        if z != a {
          DupChildOther(s, a, z);
        }
      }
    }
  }

  lemma DupChildLocal(s: State, a: Slot, zero: Page, f: nat)
    requires Inv(s) && Enabled(s, DupChild(a), zero)
    ensures FaultOk(Next(s, DupChild(a), zero), f) && ForkOk(Next(s, DupChild(a), zero), f)
  {
    assert FaultOk(s, a.env) && ForkOk(s, a.env);
    assert FaultOk(s, f) && ForkOk(s, f);
  }

  lemma DupParentPairs(s: State, e: nat, zero: Page)
    requires Inv(s) && Enabled(s, DupParent(e), zero)
    ensures Pairs(Next(s, DupParent(e), zero))
  {
    hide Children;
    assert FaultOk(s, e) && ForkOk(s, e);
  }

  lemma DupParentLocal(s: State, e: nat, zero: Page, f: nat)
    requires Inv(s) && Enabled(s, DupParent(e), zero)
    ensures FaultOk(Next(s, DupParent(e), zero), f) && ForkOk(Next(s, DupParent(e), zero), f)
  {
    hide Children;
    assert FaultOk(s, e) && ForkOk(s, e);
    assert FaultOk(s, f) && ForkOk(s, f);
  }

  lemma ForkDonePairs(s: State, e: nat, zero: Page)
    requires Inv(s) && Enabled(s, ForkDone(e), zero)
    ensures Pairs(Next(s, ForkDone(e), zero))
  {
    hide Children;
    assert FaultOk(s, e) && ForkOk(s, e);
  }

  lemma ForkDoneLocal(s: State, e: nat, zero: Page, f: nat)
    requires Inv(s) && Enabled(s, ForkDone(e), zero)
    ensures FaultOk(Next(s, ForkDone(e), zero), f) && ForkOk(Next(s, ForkDone(e), zero), f)
  {
    assert FaultOk(s, e) && ForkOk(s, e);
    assert FaultOk(s, f) && ForkOk(s, f);
  }

  lemma ExitPairs(s: State, e: nat, zero: Page)
    requires Inv(s) && Enabled(s, Exit(e), zero)
    ensures Pairs(Next(s, Exit(e), zero))
  {
    hide Children, FaultOk;
    assert ForkOk(s, e);
    var t := Next(s, Exit(e), zero);
    forall a, b | a in t.pages && b in t.pages && a != b && t.pages[a].frame == t.pages[b].frame
      ensures PairOk(t, a, b)
    {
      assert PairOk(s, a, b);
      assert ForkOk(s, a.env) && ForkOk(s, b.env);
    }
  }

  lemma ExitLocal(s: State, e: nat, zero: Page, f: nat)
    requires Inv(s) && Enabled(s, Exit(e), zero)
    ensures FaultOk(Next(s, Exit(e), zero), f) && ForkOk(Next(s, Exit(e), zero), f)
  {
    hide Children, Pairs;
    assert FaultOk(s, f) && ForkOk(s, f);
  }

  lemma LocalKeeps(s: State, z: Step, zero: Page, f: nat)
    requires Inv(s) && Enabled(s, z, zero)
    ensures FaultOk(Next(s, z, zero), f) && ForkOk(Next(s, z, zero), f)
  {
    hide Inv, Enabled, Next, FaultOk, ForkOk;
    match z
    case Write(a, off, x) => WriteLocal(s, a, off, x, zero, f);
    case FaultAlloc(a, p) => FaultAllocLocal(s, a, p, zero, f);
    case FaultCopy(e) => FaultCopyLocal(s, e, zero, f);
    case FaultMap(e) => FaultMapLocal(s, e, zero, f);
    case FaultDone(e) => FaultDoneLocal(s, e, zero, f);
    case Alloc(e, a, prot, p) => AllocLocal(s, e, a, prot, p, zero, f);
    case Unmap(e, a) => UnmapLocal(s, e, a, zero, f);
    case ShareMap(e, src, a, prot) => ShareMapLocal(s, e, src, a, prot, zero, f);
    case Exofork(e, c) => ExoforkLocal(s, e, c, zero, f);
    case DupChild(a) => DupChildLocal(s, a, zero, f);
    case DupParent(e) => DupParentLocal(s, e, zero, f);
    case ForkDone(e) => ForkDoneLocal(s, e, zero, f);
    case Exit(e) => ExitLocal(s, e, zero, f);
  }

  lemma PairsKeep(s: State, z: Step, zero: Page)
    requires Inv(s) && Enabled(s, z, zero)
    ensures Pairs(Next(s, z, zero))
  {
    hide Inv, Enabled, Next, Pairs;
    match z
    case Write(a, off, x) => WritePairs(s, a, off, x, zero);
    case FaultAlloc(a, p) => FaultAllocPairs(s, a, p, zero);
    case FaultCopy(e) => FaultCopyPairs(s, e, zero);
    case FaultMap(e) => FaultMapPairs(s, e, zero);
    case FaultDone(e) => FaultDonePairs(s, e, zero);
    case Alloc(e, a, prot, p) => AllocPairs(s, e, a, prot, p, zero);
    case Unmap(e, a) => UnmapPairs(s, e, a, zero);
    case ShareMap(e, src, a, prot) => ShareMapPairs(s, e, src, a, prot, zero);
    case Exofork(e, c) => ExoforkPairs(s, e, c, zero);
    case DupChild(a) => DupChildPairs(s, a, zero);
    case DupParent(e) => DupParentPairs(s, e, zero);
    case ForkDone(e) => ForkDonePairs(s, e, zero);
    case Exit(e) => ExitPairs(s, e, zero);
  }

  /** Every step of every environment keeps the invariant. */
  lemma StepKeepsInv(s: State, z: Step, zero: Page)
    requires Inv(s) && Enabled(s, z, zero)
    ensures Inv(Next(s, z, zero))
  {
    PairsKeep(s, z, zero);
    var t := Next(s, z, zero);
    forall f: nat
      ensures FaultOk(t, f) && ForkOk(t, f)
    {
      LocalKeeps(s, z, zero, f);
    }
    BackedChildren(s, z, zero);
    hide Pairs, Children, FaultOk, ForkOk, Next;
  }

  lemma BackedChildren(s: State, z: Step, zero: Page)
    requires Inv(s) && Enabled(s, z, zero)
    ensures var t := Next(s, z, zero);
            (forall a :: a in t.pages ==> t.pages[a].frame in t.data) && Children(t.fork)
  {
    hide Pairs;
    var e := match z case FaultCopy(e) => e case FaultMap(e) => e case DupParent(e) => e case _ => 0;
    assert FaultOk(s, e);
    assert z.DupParent? ==> ForkOk(s, e);
  }

  /** A private slot counted after a step that changes at most the fork state of e0 was counted before. */
  lemma StillCounted(s: State, t: State, b: Slot, e0: nat)
    requires Counted(t, b) && Private(s, b) && (Pending(s, e0, b) ==> Pending(t, e0, b))
    requires forall e: nat :: e != e0 ==> ForkOf(t, e) == ForkOf(s, e)
    ensures Counted(s, b)
  {
    forall e: nat
      ensures !Pending(s, e, b)
    {
      assert !Pending(t, e, b);
    }
  }

  /** A private page of a running environment is never the one fork still has to copy. */
  lemma OwnCounted(s: State, a: Slot)
    requires Inv(s) && a.env in s.runnable && a.vpn != PFTEMP && Private(s, a)
    ensures Counted(s, a)
  {
    forall e: nat
      ensures !Pending(s, e, a)
    {
      assert ForkOk(s, e);
    }
  }

  /** A write by a running environment is seen through no other counted slot, if the page is private. */
  lemma WriteAlone(s: State, a: Slot, b: Slot)
    requires Inv(s) && Running(s, a.env) && a.vpn != PFTEMP && a in s.pages && s.pages[a].prot.write
    requires Counted(s, b) && b != a
    ensures s.pages[b].frame != s.pages[a].frame
  {
    hide Children;
    assert FaultOk(s, b.env) && ForkOk(s, b.env) && ForkOk(s, a.env);
    assert !Pending(s, a.env, b);
    assert s.pages[b].frame == s.pages[a].frame ==> PairOk(s, a, b);
  }

  lemma WriteRefines(s: State, m: Eager, a: Slot, off: nat, x: Word, zero: Page, b: Slot)
    requires Inv(s) && Refines(s, m) && Enabled(s, Write(a, off, x), zero)
    requires Counted(Next(s, Write(a, off, x), zero), b)
    ensures b in NextEager(s, m, Write(a, off, x), zero) && See(Next(s, Write(a, off, x), zero), b) == NextEager(s, m, Write(a, off, x), zero)[b]
  {
    hide Children, Pairs;
    var t := Next(s, Write(a, off, x), zero);
    assert FaultOk(s, a.env) && ForkOk(s, a.env);
    StillCounted(s, t, b, a.env);
    if b != a {
      WriteAlone(s, a, b);
    }
  }

  lemma FaultAllocRefines(s: State, m: Eager, a: Slot, p: nat, zero: Page, b: Slot)
    requires Inv(s) && Refines(s, m) && Enabled(s, FaultAlloc(a, p), zero)
    requires Counted(Next(s, FaultAlloc(a, p), zero), b)
    ensures b in NextEager(s, m, FaultAlloc(a, p), zero) && See(Next(s, FaultAlloc(a, p), zero), b) == NextEager(s, m, FaultAlloc(a, p), zero)[b]
  {
    hide Children, Pairs;
    var t := Next(s, FaultAlloc(a, p), zero);
    assert FaultOk(s, a.env) && ForkOk(s, a.env);
    StillCounted(s, t, b, a.env);
  }

  lemma FaultCopyRefines(s: State, m: Eager, e: nat, zero: Page, b: Slot)
    requires Inv(s) && Refines(s, m) && Enabled(s, FaultCopy(e), zero)
    requires Counted(Next(s, FaultCopy(e), zero), b)
    ensures b in NextEager(s, m, FaultCopy(e), zero) && See(Next(s, FaultCopy(e), zero), b) == NextEager(s, m, FaultCopy(e), zero)[b]
  {
    hide Children, Pairs;
    var t := Next(s, FaultCopy(e), zero);
    assert FaultOk(s, e) && ForkOk(s, e);
    StillCounted(s, t, b, e);
    TempAlone(s, e, b);
  }

  lemma FaultMapRefines(s: State, m: Eager, e: nat, zero: Page, b: Slot)
    requires Inv(s) && Refines(s, m) && Enabled(s, FaultMap(e), zero)
    requires Counted(Next(s, FaultMap(e), zero), b)
    ensures b in NextEager(s, m, FaultMap(e), zero) && See(Next(s, FaultMap(e), zero), b) == NextEager(s, m, FaultMap(e), zero)[b]
  {
    hide Children, Pairs;
    var t := Next(s, FaultMap(e), zero);
    assert FaultOk(s, e) && ForkOk(s, e);
    if Private(s, b) {
      StillCounted(s, t, b, e);
    }
  }

  lemma FaultDoneRefines(s: State, m: Eager, e: nat, zero: Page, b: Slot)
    requires Inv(s) && Refines(s, m) && Enabled(s, FaultDone(e), zero)
    requires Counted(Next(s, FaultDone(e), zero), b)
    ensures b in NextEager(s, m, FaultDone(e), zero) && See(Next(s, FaultDone(e), zero), b) == NextEager(s, m, FaultDone(e), zero)[b]
  {
    hide Children, Pairs;
    var t := Next(s, FaultDone(e), zero);
    assert FaultOk(s, e) && ForkOk(s, e);
    StillCounted(s, t, b, e);
  }

  lemma AllocRefines(s: State, m: Eager, e: nat, a: Slot, prot: Prot, p: nat, zero: Page, b: Slot)
    requires Inv(s) && Refines(s, m) && Enabled(s, Alloc(e, a, prot, p), zero)
    requires Counted(Next(s, Alloc(e, a, prot, p), zero), b)
    ensures b in NextEager(s, m, Alloc(e, a, prot, p), zero)
    ensures See(Next(s, Alloc(e, a, prot, p), zero), b) == NextEager(s, m, Alloc(e, a, prot, p), zero)[b]
  {
    hide Children, Pairs;
    var t := Next(s, Alloc(e, a, prot, p), zero);
    assert FaultOk(s, e) && ForkOk(s, e);
    if b != a {
      StillCounted(s, t, b, e);
    }
  }

  lemma UnmapRefines(s: State, m: Eager, e: nat, a: Slot, zero: Page, b: Slot)
    requires Inv(s) && Refines(s, m) && Enabled(s, Unmap(e, a), zero)
    requires Counted(Next(s, Unmap(e, a), zero), b)
    ensures b in NextEager(s, m, Unmap(e, a), zero) && See(Next(s, Unmap(e, a), zero), b) == NextEager(s, m, Unmap(e, a), zero)[b]
  {
    hide Children, Pairs;
    var t := Next(s, Unmap(e, a), zero);
    assert FaultOk(s, e) && ForkOk(s, e);
    StillCounted(s, t, b, e);
  }

  lemma ShareMapRefines(s: State, m: Eager, e: nat, src: Slot, a: Slot, prot: Prot, zero: Page, b: Slot)
    requires Inv(s) && Refines(s, m) && Enabled(s, ShareMap(e, src, a, prot), zero)
    requires Counted(Next(s, ShareMap(e, src, a, prot), zero), b)
    ensures b in NextEager(s, m, ShareMap(e, src, a, prot), zero)
    ensures See(Next(s, ShareMap(e, src, a, prot), zero), b) == NextEager(s, m, ShareMap(e, src, a, prot), zero)[b]
  {
    hide Children, Pairs;
    var t := Next(s, ShareMap(e, src, a, prot), zero);
    assert FaultOk(s, e) && ForkOk(s, e);
    StillCounted(s, t, b, e);
  }

  lemma ExoforkRefines(s: State, m: Eager, e: nat, c: nat, zero: Page, b: Slot)
    requires Inv(s) && Refines(s, m) && Enabled(s, Exofork(e, c), zero)
    requires Counted(Next(s, Exofork(e, c), zero), b)
    ensures b in NextEager(s, m, Exofork(e, c), zero) && See(Next(s, Exofork(e, c), zero), b) == NextEager(s, m, Exofork(e, c), zero)[b]
  {
    hide Children, Pairs;
    var t := Next(s, Exofork(e, c), zero);
    assert FaultOk(s, e) && ForkOk(s, e);
    StillCounted(s, t, b, e);
  }

  lemma DupChildRefines(s: State, m: Eager, a: Slot, zero: Page, b: Slot)
    requires Inv(s) && Refines(s, m) && Enabled(s, DupChild(a), zero)
    requires Counted(Next(s, DupChild(a), zero), b)
    ensures b in NextEager(s, m, DupChild(a), zero) && See(Next(s, DupChild(a), zero), b) == NextEager(s, m, DupChild(a), zero)[b]
  {
    hide Children, Pairs;
    var t := Next(s, DupChild(a), zero);
    assert FaultOk(s, a.env) && ForkOk(s, a.env);
    var k := Child(a, Forked(s, a.env));
    if b == k {
      assert !At(s, a).prot.write by {
        assert !Pending(t, a.env, b);
      }
      OwnCounted(s, a);
    } else {
      StillCounted(s, t, b, a.env);
    }
  }

  lemma DupParentRefines(s: State, m: Eager, e: nat, zero: Page, b: Slot)
    requires Inv(s) && Refines(s, m) && Enabled(s, DupParent(e), zero)
    requires Counted(Next(s, DupParent(e), zero), b)
    ensures b in NextEager(s, m, DupParent(e), zero) && See(Next(s, DupParent(e), zero), b) == NextEager(s, m, DupParent(e), zero)[b]
  {
    hide Children, Pairs;
    var t := Next(s, DupParent(e), zero);
    assert FaultOk(s, e) && ForkOk(s, e);
    var a := Dupped(s, e);
    OwnCounted(s, a);
    if !Pending(s, e, b) {
      StillCounted(s, t, b, e);
    }
  }

  lemma ForkDoneRefines(s: State, m: Eager, e: nat, zero: Page, b: Slot)
    requires Inv(s) && Refines(s, m) && Enabled(s, ForkDone(e), zero)
    requires Counted(Next(s, ForkDone(e), zero), b)
    ensures b in NextEager(s, m, ForkDone(e), zero) && See(Next(s, ForkDone(e), zero), b) == NextEager(s, m, ForkDone(e), zero)[b]
  {
    hide Children, Pairs;
    var t := Next(s, ForkDone(e), zero);
    assert FaultOk(s, e) && ForkOk(s, e);
    StillCounted(s, t, b, e);
  }

  lemma ExitRefines(s: State, m: Eager, e: nat, zero: Page, b: Slot)
    requires Inv(s) && Refines(s, m) && Enabled(s, Exit(e), zero)
    requires Counted(Next(s, Exit(e), zero), b)
    ensures b in NextEager(s, m, Exit(e), zero) && See(Next(s, Exit(e), zero), b) == NextEager(s, m, Exit(e), zero)[b]
  {
    hide Children, Pairs;
    var t := Next(s, Exit(e), zero);
    assert FaultOk(s, e) && ForkOk(s, e);
    if Pending(s, e, b) {
      OwnCounted(s, Dupped(s, e));
    } else {
      StillCounted(s, t, b, e);
    }
  }

  /** Copy-on-write refines eager copying, one step at a time. */
  lemma StepRefines(s: State, m: Eager, z: Step, zero: Page)
    requires Inv(s) && Refines(s, m) && Enabled(s, z, zero)
    ensures Refines(Next(s, z, zero), NextEager(s, m, z, zero))
  {
    hide Inv, Enabled, Next, NextEager, Counted, See;
    forall b | Counted(Next(s, z, zero), b)
      ensures b in NextEager(s, m, z, zero) && See(Next(s, z, zero), b) == NextEager(s, m, z, zero)[b]
    {
      match z
      case Write(a, off, x) => WriteRefines(s, m, a, off, x, zero, b);
      case FaultAlloc(a, p) => FaultAllocRefines(s, m, a, p, zero, b);
      case FaultCopy(e) => FaultCopyRefines(s, m, e, zero, b);
      case FaultMap(e) => FaultMapRefines(s, m, e, zero, b);
      case FaultDone(e) => FaultDoneRefines(s, m, e, zero, b);
      case Alloc(e, a, prot, p) => AllocRefines(s, m, e, a, prot, p, zero, b);
      case Unmap(e, a) => UnmapRefines(s, m, e, a, zero, b);
      case ShareMap(e, src, a, prot) => ShareMapRefines(s, m, e, src, a, prot, zero, b);
      case Exofork(e, c) => ExoforkRefines(s, m, e, c, zero, b);
      case DupChild(a) => DupChildRefines(s, m, a, zero, b);
      case DupParent(e) => DupParentRefines(s, m, e, zero, b);
      case ForkDone(e) => ForkDoneRefines(s, m, e, zero, b);
      case Exit(e) => ExitRefines(s, m, e, zero, b);
    }
  }

  /** The real machine after a run of steps. */
  ghost function After(s: State, zs: seq<Step>, zero: Page): State
    decreases |zs|
  {
    if zs == [] then s else After(Next(s, zs[0], zero), zs[1..], zero)
  }

  /** Each step of the run was possible when it was taken. */
  ghost predicate Legal(s: State, zs: seq<Step>, zero: Page)
    decreases |zs|
  {
    zs != [] ==> Enabled(s, zs[0], zero) && Legal(Next(s, zs[0], zero), zs[1..], zero)
  }

  ghost function EagerAfter(s: State, m: Eager, zs: seq<Step>, zero: Page): Eager
    decreases |zs|
  {
    if zs == [] then m else EagerAfter(Next(s, zs[0], zero), NextEager(s, m, zs[0], zero), zs[1..], zero)
  }

  lemma {:induction false} AfterOne(s: State, zs: seq<Step>, z: Step, zero: Page)
    ensures After(s, zs + [z], zero) == Next(After(s, zs, zero), z, zero)
    decreases |zs|
  {
    hide Next;
    if zs == [] {
      assert zs + [z] == [z];
      assert [z][1..] == [];
    } else {
      AfterOne(Next(s, zs[0], zero), zs[1..], z, zero);
      assert (zs + [z])[1..] == zs[1..] + [z];
    }
  }

  lemma {:induction false} RunExtend(s: State, zs: seq<Step>, z: Step, zero: Page)
    requires Legal(s, zs, zero) && Enabled(After(s, zs, zero), z, zero)
    ensures Legal(s, zs + [z], zero) && After(s, zs + [z], zero) == Next(After(s, zs, zero), z, zero)
    decreases |zs|
  {
    hide Enabled, Next;
    AfterOne(s, zs, z, zero);
    if zs == [] {
      assert zs + [z] == [z];
    } else {
      RunExtend(Next(s, zs[0], zero), zs[1..], z, zero);
      assert (zs + [z])[1..] == zs[1..] + [z];
    }
  }

  /** Over every interleaving of reads, write faults, allocations, forks and exits, a running environment reads
      through its page table exactly the private memory that eager copying would have given it, and no
      page with two private mappings is writable outside the two transits. */
  lemma {:induction false} ForkRefinesEagerCopy(s: State, m: Eager, zs: seq<Step>, zero: Page)
    requires Inv(s) && Refines(s, m) && Legal(s, zs, zero)
    ensures var t := After(s, zs, zero);
            var n := EagerAfter(s, m, zs, zero);
            && Inv(t) && Refines(t, n)
            && forall a :: a in t.pages && a.env in t.runnable && a.vpn != PFTEMP && Private(t, a) ==>
                 a in n && See(t, a) == n[a]
    decreases |zs|
  {
    if zs == [] {
      hide Inv, Counted, See, FaultOk, ForkOk, Pairs;
      forall a | a in s.pages && a.env in s.runnable && a.vpn != PFTEMP && Private(s, a)
        ensures a in m && See(s, a) == m[a]
      {
        OwnCounted(s, a);
      }
    } else {
      hide Inv, Refines, Enabled, Next, NextEager, See;
      StepKeepsInv(s, zs[0], zero);
      StepRefines(s, m, zs[0], zero);
      ForkRefinesEagerCopy(Next(s, zs[0], zero), NextEager(s, m, zs[0], zero), zs[1..], zero);
    }
  }

  /** In every run, a page with two private mappings is writable through neither, except while pgfault
      still has its temporary mapping or duppage is between its two map calls for that very page. */
  lemma SharedPagesReadOnly(s: State, m: Eager, zs: seq<Step>, zero: Page, a: Slot, b: Slot)
    requires Inv(s) && Refines(s, m) && Legal(s, zs, zero) && a != b
    ensures var t := After(s, zs, zero);
            Private(t, a) && b in t.pages && t.pages[a].frame == t.pages[b].frame ==>
              Private(t, b) && ((!t.pages[a].prot.write && !t.pages[b].prot.write) || InTransit(t, a, b) || InTransit(t, b, a))
  {
    hide FaultOk, ForkOk, Children, Refines;
    ForkRefinesEagerCopy(s, m, zs, zero);
    var t := After(s, zs, zero);
    if Private(t, a) && b in t.pages && t.pages[a].frame == t.pages[b].frame {
      assert PairOk(t, a, b);
    }
  }

  /** A state with no environment forking or faulting, private pages unshared: a place to start. */
  lemma QuietStart(s: State)
    requires s.fault == map[] && s.fork == map[]
    requires forall a :: a in s.pages ==> s.pages[a].frame in s.data && a.vpn != PFTEMP
    requires forall a, b :: a in s.pages && b in s.pages && a != b ==> s.pages[a].frame != s.pages[b].frame
    ensures Inv(s)
    ensures Refines(s, map a | a in s.pages :: See(s, a))
  {
  }
}
