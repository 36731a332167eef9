/** Environments and system calls: kern/env.c and kern/syscall.c over the page manager. */
module Kernel {
  import opened PageTables
  import opened PageManager
  import opened Environments

  const PGSIZE: nat := 0x1000
  const PTSIZE: nat := 0x40_0000
  const UTOP: nat := 0xEEC0_0000
  const E_IPC_NOT_RECV: int := 7

  function Pdx(va: nat): nat { va / PTSIZE }
  function Ptx(va: nat): nat { va / PGSIZE % NPTENTRIES }

  lemma UserVa(va: nat)
    requires va < UTOP
    ensures Pdx(va) < PDX_UTOP && Ptx(va) < NPTENTRIES
  {
  }

  datatype Env = Env(
    envId: int,
    parentId: int,
    status: Status,
    link: int,
    recving: bool,
    dstva: nat,
    value: nat,
    from: int,
    perm: bv12)

  /** The environment table as a value; allocs counts the allocations of each slot. */
  datatype Table = Table(envs: seq<Env>, envFreeList: int, free: seq<nat>, allocs: seq<nat>)

  /** A slot is free exactly when it is on the free list, and carries the identifier of its last allocation. */
  ghost predicate SlotOk(m: Table, i: nat)
    requires i < |m.envs| == |m.allocs|
  {
    && (m.envs[i].status == FREE <==> i in m.free)
    && m.envs[i].envId == IdAfter(i, m.allocs[i])
    && (m.envs[i].status != FREE ==> m.allocs[i] >= 1)
    && (m.envs[i].status != FREE && m.envs[i].recving && m.envs[i].dstva < UTOP ==> m.envs[i].dstva % PGSIZE == 0)
  }

  ghost predicate TableOk(m: Table) {
    && |m.envs| == |m.allocs| == NENV
    && NoDup(m.free) && (forall i :: 0 <= i < |m.free| ==> m.free[i] < NENV)
    && m.envFreeList == Next(m.free, 0)
    && (forall i :: 0 <= i < |m.free| ==> m.envs[m.free[i]].link == Next(m.free, i + 1))
    && (forall i: nat :: i < NENV ==> SlotOk(m, i))
  }

  /** env_alloc's commit for the slot at the head of the list. */
  ghost function Allocated(m: Table, parent: int): Table
    requires TableOk(m) && m.free != []
  {
    var e := m.free[0];
    m.(envs := m.envs[e := m.envs[e].(envId := NextId(m.envs[e].envId, e), parentId := parent, status := RUNNABLE, recving := false)],
       envFreeList := m.envs[e].link, free := m.free[1..], allocs := m.allocs[e := m.allocs[e] + 1])
  }

  lemma AllocatedOk(m: Table, parent: int)
    requires TableOk(m) && m.free != []
    ensures TableOk(Allocated(m, parent))
  {
    hide NextId;
    var n := Allocated(m, parent);
    assert m.free == [m.free[0]] + m.free[1..];
    forall i: nat | i < NENV
      ensures SlotOk(n, i)
    {
      assert SlotOk(m, i);
    }
  }

  lemma TableHead(m: Table)
    requires TableOk(m)
    ensures |m.envs| == |m.allocs| == NENV && m.envFreeList == Next(m.free, 0)
    ensures m.free != [] ==> m.free[0] < NENV
  {
  }

  lemma SlotNow(m: Table, e: nat)
    requires TableOk(m) && e < NENV
    ensures |m.envs| == |m.allocs| == NENV && SlotOk(m, e)
  {
  }

  ghost function Freed(m: Table, e: nat): Table
    requires e < |m.envs|
  {
    m.(envs := m.envs[e := m.envs[e].(status := FREE, link := m.envFreeList)], envFreeList := e, free := [e] + m.free)
  }

  lemma HeadFree(m: Table)
    requires TableOk(m) && m.free != []
    ensures m.free[0] < |m.envs| && m.envs[m.free[0]].status == FREE
  {
    hide IdAfter;
    assert SlotOk(m, m.free[0]);
  }

  /** Live environments have different identifiers. */
  lemma OneNamed(m: Table, i: nat, j: nat)
    requires TableOk(m) && i < NENV && j < NENV && m.envs[i].status != FREE && m.envs[j].status != FREE
    requires m.envs[i].envId == m.envs[j].envId
    ensures i == j && m.envs[i].envId > 0 && Envx(m.envs[i].envId) == i
  {
    hide IdAfter;
    assert SlotOk(m, i) && SlotOk(m, j);
    IdNamesSlot(i, m.allocs[i]);
    IdNamesSlot(j, m.allocs[j]);
  }

  /** A child's identifier with the permission check is good for its parent and for nobody else but itself. */
  lemma ChildIsMine(m: Table, cur: nat, c: nat)
    requires TableOk(m) && cur < NENV && c < NENV && cur != c && m.envs[cur].status != FREE && m.envs[c].status != FREE
    requires m.envs[c].parentId == m.envs[cur].envId
    ensures |m.envs| == NENV && EnvidOf(m.envs, cur, m.envs[c].envId, true) == c
    ensures forall f: nat :: f < NENV && m.envs[f].status != FREE && f != cur && f != c ==> EnvidOf(m.envs, f, m.envs[c].envId, true) == NULL
  {
    hide TableOk;
    TableHead(m);
    var r := m.envs[c].envId;
    OneNamed(m, c, c);
    forall f: nat | f < NENV && m.envs[f].status != FREE && f != cur && f != c
      ensures EnvidOf(m.envs, f, r, true) == NULL
    {
      forall i: nat | i < NENV && m.envs[i].status != FREE && m.envs[i].envId == r
        ensures !(i == f || m.envs[i].parentId == m.envs[f].envId)
      {
        OneNamed(m, i, c);
        if m.envs[cur].envId == m.envs[f].envId {
          OneNamed(m, cur, f);
        }
      }
    }
  }

  /** Before, the new identifier named nobody. */
  lemma UnknownBefore(m: Table, n: Table, cur: nat, c: nat)
    requires TableOk(m) && TableOk(n) && cur < NENV && c < NENV && m.envs[c].status == FREE && n.envs[c].status != FREE
    requires forall i: nat :: i < NENV && i != c ==> n.envs[i] == m.envs[i]
    ensures |m.envs| == NENV && EnvidOf(m.envs, cur, n.envs[c].envId, false) == NULL
  {
    hide TableOk;
    TableHead(m);
    TableHead(n);
    OneNamed(n, c, c);
    forall i: nat | i < NENV && m.envs[i].status != FREE
      ensures m.envs[i].envId != n.envs[c].envId
    {
      if n.envs[i].envId == n.envs[c].envId {
        OneNamed(n, i, c);
      }
    }
  }

  lemma FreedOk(m: Table, e: nat)
    requires TableOk(m) && e < NENV && m.envs[e].status != FREE
    ensures TableOk(Freed(m, e))
  {
    hide IdAfter;
    assert SlotOk(m, e);
    var n := Freed(m, e);
    forall i: nat | i < NENV
      ensures SlotOk(n, i)
    {
      assert SlotOk(m, i);
    }
  }

  /** Changing a live environment without freeing it or giving it another identifier. */
  lemma UpdatedOk(m: Table, e: nat, env: Env)
    requires TableOk(m) && e < NENV && m.envs[e].status != FREE
    requires env.status != FREE && env.envId == m.envs[e].envId && env.link == m.envs[e].link
    requires env.recving && env.dstva < UTOP ==> env.dstva % PGSIZE == 0
    ensures TableOk(m.(envs := m.envs[e := env]))
  {
    hide IdAfter;
    assert SlotOk(m, e);
    var n := m.(envs := m.envs[e := env]);
    forall i: nat | i < NENV
      ensures SlotOk(n, i)
    {
      assert SlotOk(m, i);
    }
  }

  /** env_init has handled the slots from i up: they are listed in ascending order. */
  ghost predicate Initialised(m: Table, i: nat) {
    && |m.envs| == NENV && m.allocs == seq(NENV, _ => 0) && i <= NENV
    && |m.free| == NENV - i && m.envFreeList == Next(m.free, 0)
    && (forall k :: 0 <= k < |m.free| ==> m.free[k] == i + k)
    && (forall k: nat :: i <= k < NENV ==>
          m.envs[k].envId == 0 && m.envs[k].status == FREE && m.envs[k].link == if k + 1 < NENV then k + 1 else NULL)
  }

  lemma InitStart(m: Table)
    requires |m.envs| == NENV && m.allocs == seq(NENV, _ => 0) && m.free == [] && m.envFreeList == NULL
    ensures Initialised(m, NENV)
  {
  }

  lemma InitStep(m: Table, i: nat)
    requires Initialised(m, i) && i > 0
    ensures Initialised(m.(envs := m.envs[i - 1 := m.envs[i - 1].(link := m.envFreeList, envId := 0, status := FREE)],
                           envFreeList := i - 1, free := [i - 1] + m.free), i - 1)
  {
  }

  lemma InitOk(m: Table)
    requires Initialised(m, 0)
    ensures TableOk(m)
    ensures forall i: nat :: i < NENV ==> m.free[i] == i && m.envs[i].envId == 0 && m.envs[i].status == FREE
  {
    forall i: nat | i < NENV
      ensures SlotOk(m, i)
    {
      assert m.free[i] == i;
    }
  }

  /** A receiver waiting in sys_ipc_recv. */
  function Waiting(env: Env, dstva: nat): Env {
    env.(dstva := dstva, recving := true, status := NOT_RUNNABLE)
  }

  /** A receiver that has been handed a message. */
  function Delivered(env: Env, value: nat, from: int, perm: bv12): Env {
    env.(recving := false, value := value, from := from, perm := perm, status := RUNNABLE)
  }

  /** A receiver that can run on with a message. */
  predicate Holds(env: Env, value: nat, from: int, perm: bv12) {
    env.status == RUNNABLE && !env.recving && env.value == value && env.from == from && env.perm == perm
  }

  /** Whether a send names a page the sender may send with this permission. */
  ghost predicate SendablePage(refs: map<Ref, Word>, e: nat, srcva: nat, perm: Word) {
    && srcva % PGSIZE == 0
    && perm.frame == 0 && perm.flags & PTE_U != 0 && perm.flags & PTE_P != 0 && perm.flags & !PTE_SYSCALL == 0
    && PageRef(e, Pdx(srcva), Ptx(srcva)) in refs
    && (perm.flags & PTE_W != 0 ==> refs[PageRef(e, Pdx(srcva), Ptx(srcva))].flags & PTE_W != 0)
  }

  /** The slot an identifier stands for, or NULL: what envid2env documents. */
  ghost function EnvidOf(envs: seq<Env>, cur: int, envid: int, checkperm: bool): (e: int)
    requires |envs| == NENV && 0 <= cur < NENV
    ensures e == NULL || 0 <= e < NENV
  {
    if envid == 0 then cur
    else if (exists i: nat :: i < NENV && envs[i].status != FREE && envs[i].envId == envid
                              && (!checkperm || i == cur || envs[i].parentId == envs[cur].envId))
    then Envx(envid)
    else NULL
  }

  class Kernel {
    const mm: Memory
    var envs: seq<Env>
    var envFreeList: int
    var cur: int                    // curenv, as a slot, or NULL
    ghost var free: seq<nat>
    ghost var allocs: seq<nat>

    ghost function T(): Table
      reads this
    {
      Table(envs, envFreeList, free, allocs)
    }

    /** Live environments are those with a page directory; at most one of them is current. */
    ghost predicate Ok()
      reads this, mm
    {
      && mm.Ok() && Settled(mm.S(), {}) && TableOk(T())
      && (forall e :: e in mm.envPgdir <==> 0 <= e < |envs| && envs[e].status != FREE)
      && (cur == NULL || (0 <= cur < |envs| && envs[cur].status != FREE))
    }

    /** env_init: every slot free, listed in ascending order. */
    constructor EnvInit(mm: Memory, garbage: seq<Env>)
      requires mm.Ok() && Settled(mm.S(), {}) && mm.envPgdir == map[] && |garbage| == NENV
      ensures this.mm == mm && Ok() && cur == NULL
      ensures Initialised(T(), 0)
    {
      hide Valid, Settled, KernDir, Initialised, TableOk;
      this.mm := mm;
      envs := garbage;
      envFreeList := NULL;
      cur := NULL;
      free := [];
      allocs := seq(NENV, _ => 0);
      new;
      var i := NENV;
      InitStart(T());
      while i > 0
        invariant 0 <= i <= NENV && |envs| == NENV && Initialised(T(), i) && cur == NULL
      {
        InitStep(T(), i);
        i := i - 1;
        envs := envs[i := envs[i].(link := envFreeList, envId := 0, status := FREE)];
        envFreeList := i;
        free := [i] + free;
      }
      InitOk(T());
      assert forall k: nat :: k < NENV ==> envs[k].status == FREE;
    }

    /** envid2env: error, or the slot.  A stale identifier is accepted only after 524287 further
        allocations of the same slot. */
    method Envid2Env(envid: int, checkperm: bool) returns (r: int, e: int)
      requires Ok() && cur != NULL
      ensures |envs| == NENV && e == EnvidOf(envs, cur, envid, checkperm) && r == if e == NULL then -E_BAD_ENV else 0
      ensures envid == 0 ==> r == 0 && e == cur
      ensures r == 0 && checkperm ==> e == cur || envs[e].parentId == envs[cur].envId
      ensures r == 0 ==> 0 <= e < NENV && envs[e].status != FREE && (envid != 0 ==> e == Envx(envid) && envs[e].envId == envid)
      ensures envid != 0 && r == 0 ==>
                forall n: nat :: 1 <= n <= allocs[e] && allocs[e] - n < PERIOD && IdAfter(e, n) == envid ==> n == allocs[e]
    {
      hide Valid, Settled, IdAfter, KernDir;
      if envid == 0 {
        return 0, cur;
      }
      var i := Envx(envid);
      assert SlotOk(T(), i);
      forall j: nat | j < NENV && envs[j].status != FREE && envs[j].envId == envid
        ensures j == i
      {
        assert SlotOk(T(), j);
        IdNamesSlot(j, allocs[j]);
      }
      if envs[i].status == FREE || envs[i].envId != envid {
        return -E_BAD_ENV, NULL;
      }
      if checkperm && i != cur && envs[i].parentId != envs[cur].envId {
        return -E_BAD_ENV, NULL;
      }
      forall n: nat | 1 <= n <= allocs[i] && allocs[i] - n < PERIOD && IdAfter(i, n) == envid
        ensures n == allocs[i]
      {
        IdRepeatsIff(i, n, allocs[i]);
      }
      return 0, i;
    }

    /** env_alloc. */
    method EnvAlloc(parent: int) returns (r: int, e: int)
      requires Ok()
      modifies this`envs, this`envFreeList, this`free, this`allocs, mm
      ensures Ok()
      ensures r == if old(free) == [] then -E_NO_FREE_ENV else if old(mm.free) == [] then -E_NO_MEM else 0
      ensures r != 0 ==> T() == old(T()) && mm.S() == old(mm.S())
      ensures r == 0 ==> e == old(free)[0] && T() == Allocated(old(T()), parent)
      ensures r == 0 ==>
                && 0 <= e < |envs| == |old(envs)| && envs[e].parentId == parent && envs[e].status == RUNNABLE && !envs[e].recving
                && forall i: nat :: i < |envs| && i != e ==> envs[i] == old(envs)[i]
      ensures r == 0 ==> mm.S() == AddDir(old(mm.S()), e, mm.kernPgdir)
    {
      hide Valid, Settled, KernDir, NextId, IdAfter, AddDir, TableOk;
      TableHead(T());
      e := envFreeList;
      if e == NULL {
        return -E_NO_FREE_ENV, NULL;
      }
      ghost var m := T();
      FreeHasNoDir(this, e);
      r := mm.EnvSetupVm(e);
      if r < 0 {
        return r, NULL;
      }
      AddDirDirs(old(mm.S()), e, mm.kernPgdir);
      AllocatedOk(m, parent);
      envFreeList := envs[e].link;
      envs := envs[e := envs[e].(envId := NextId(envs[e].envId, e), parentId := parent, status := RUNNABLE, recving := false)];
      free := free[1..];
      allocs := allocs[e := allocs[e] + 1];
    }

    /** env_free: its memory, then its slot. */
    method EnvFree(e: nat)
      requires Ok() && e < NENV && envs[e].status != FREE
      modifies this`envs, this`envFreeList, this`free, this`cur, mm
      ensures Ok() && cur == (if old(cur) == e then NULL else old(cur))
      ensures T() == Freed(old(T()), e)
      ensures mm.refs == Without(old(mm.refs), e)
      ensures forall p :: p in mm.managed ==>
                (p in mm.free <==> p in old(mm.free) || forall r :: r in old(mm.refs) && old(mm.refs)[r].frame == p ==> r.env == e)
    {
      hide Valid, Settled, KernDir, IdAfter, TableOk, Unnamed;
      ghost var m := mm.S();
      TableHead(T());
      DirKnown(m, e);
      mm.EnvFree(e);
      FreedOk(T(), e);
      DirsAfterFree(m, mm.S(), e);
      envs := envs[e := envs[e].(status := FREE, link := envFreeList)];
      envFreeList := e;
      free := [e] + free;
      if cur == e {
        cur := NULL;
      }
      forall p | p in mm.managed
        ensures p in mm.free <==> p in m.free || forall r :: r in m.refs && m.refs[r].frame == p ==> r.env == e
      {
        DestroyFrees(m, mm.S(), e, p);
      }
    }

    method SysExofork() returns (r: int)
      requires Ok() && cur != NULL
      modifies this`envs, this`envFreeList, this`free, this`allocs, mm
      ensures Ok()
      ensures old(free) == [] ==> r == -E_NO_FREE_ENV
      ensures old(free) != [] && old(mm.free) == [] ==> r == -E_NO_MEM
      ensures r < 0 ==> T() == old(T()) && mm.S() == old(mm.S())
      ensures old(free) != [] && old(mm.free) != [] ==>
                var c := old(free)[0];
                var t := Allocated(old(T()), old(envs)[cur].envId);
                && c < |t.envs| && T() == t.(envs := t.envs[c := t.envs[c].(status := NOT_RUNNABLE)]) && r == t.envs[c].envId > 0
                && mm.S() == AddDir(old(mm.S()), c, mm.kernPgdir)
      ensures |envs| == |old(envs)| == NENV
      ensures r >= 0 ==>
                var c := EnvidOf(envs, cur, r, true);
                && c != NULL && envs[c].status == NOT_RUNNABLE && !envs[c].recving && EnvidOf(old(envs), cur, r, false) == NULL
                && (forall f: nat :: f < NENV && envs[f].status != FREE && f != cur && f != c ==> EnvidOf(envs, f, r, true) == NULL)
                && (forall i: nat :: i < NENV && i != c ==> envs[i] == old(envs)[i])
    {
      hide Valid, Settled, KernDir, NextId, IdAfter, AddDir, TableOk, EnvidOf;
      TableHead(T());
      ghost var m := T();
      var child;
      r, child := EnvAlloc(envs[cur].envId);
      if r < 0 {
        return;
      }
      TableHead(T());
      LiveId(T(), child);
      UpdatedOk(T(), child, envs[child].(status := NOT_RUNNABLE));
      envs := envs[child := envs[child].(status := NOT_RUNNABLE)];
      r := envs[child].envId;
      HeadFree(m);
      ChildIsMine(T(), cur, child);
      UnknownBefore(m, T(), cur, child);
    }

    /** sys_env_set_status. */
    method SysEnvSetStatus(envid: int, status: Status) returns (r: int)
      requires Ok() && cur != NULL
      modifies this`envs
      ensures Ok()
      ensures var e := EnvidOf(old(envs), cur, envid, true);
              && r == (if e == NULL then -E_BAD_ENV else if status != RUNNABLE && status != NOT_RUNNABLE then -E_INVAL else 0)
              && envs == (if r == 0 then old(envs)[e := old(envs)[e].(status := status)] else old(envs))
    {
      hide Valid, Settled, KernDir, IdAfter, TableOk, EnvidOf;
      var e;
      r, e := Envid2Env(envid, true);
      if r < 0 {
        return;
      }
      if status != NOT_RUNNABLE && status != RUNNABLE {
        return -E_INVAL;
      }
      SlotNow(T(), e);
      UpdatedOk(T(), e, envs[e].(status := status));
      envs := envs[e := envs[e].(status := status)];
    }

    method SysPageAlloc(envid: int, va: nat, perm: Word) returns (r: int)
      requires Ok() && cur != NULL
      modifies mm
      ensures Ok()
      ensures var e := EnvidOf(envs, cur, envid, true);
              r == if e == NULL then -E_BAD_ENV
                   else if va >= UTOP || va % PGSIZE != 0 || perm.frame != 0 || perm.flags & !PTE_SYSCALL != 0 then -E_INVAL
                   else if old(mm.free) == [] || (|old(mm.free)| == 1 && TableRef(e, Pdx(va)) !in old(mm.refs)) then -E_NO_MEM
                   else 0
      ensures r != 0 ==> mm.S() == old(mm.S()).(mem := mm.mem)
      ensures r == 0 ==>
                var e := EnvidOf(envs, cur, envid, true);
                var p := At(old(mm.free), 0);
                && e >= 0 && Content(mm.S(), p) == ZeroPage()
                && Agrees(old(mm.S()), mm.S(), Pages(old(mm.S()))[PageRef(e, Pdx(va), Ptx(va)) := Word(p, PTE_U | PTE_P | perm.flags | PTE_P)])
    {
      hide Valid, Settled, KernDir, TableOk, EnvidOf, Agrees, Pages, Content, Pdx, Ptx;
      var e;
      r, e := Envid2Env(envid, true);
      if r < 0 {
        return;
      }
      if va >= UTOP || va % PGSIZE != 0 {
        return -E_INVAL;
      }
      var flags := PTE_U | PTE_P | perm.flags;
      PermBits(perm.flags);
      if perm.frame != 0 || flags & !PTE_SYSCALL != 0 {
        return -E_INVAL;
      }
      UserVa(va);
      DirKnown(mm.S(), e);
      r := mm.AllocAt(e, Pdx(va), Ptx(va), flags);
    }

    method SysPageMap(srcenvid: int, srcva: nat, dstenvid: int, dstva: nat, perm: bv12) returns (r: int)
      requires Ok() && cur != NULL
      requires var s := EnvidOf(envs, cur, srcenvid, true);
               s >= 0 && PageRef(s, Pdx(srcva), Ptx(srcva)) in mm.refs ==>
                 At(mm.ppRef, mm.refs[PageRef(s, Pdx(srcva), Ptx(srcva))].frame) < 0xFFFF
      modifies mm
      ensures Ok()
      ensures var s := EnvidOf(envs, cur, srcenvid, true);
              var e := EnvidOf(envs, cur, dstenvid, true);
              r == if s < 0 || e < 0 then -E_BAD_ENV
                   else if srcva >= UTOP || srcva % PGSIZE != 0 || dstva >= UTOP || dstva % PGSIZE != 0
                           || PageRef(s, Pdx(srcva), Ptx(srcva)) !in old(mm.refs) then -E_INVAL
                   else if !Walkable(old(mm.S()), e, Pdx(dstva)) then -E_NO_MEM
                   else 0
      ensures r != 0 ==> mm.S() == old(mm.S())
      ensures r == 0 ==>
                var s := EnvidOf(envs, cur, srcenvid, true);
                var e := EnvidOf(envs, cur, dstenvid, true);
                && s >= 0 && e >= 0 && PageRef(s, Pdx(srcva), Ptx(srcva)) in old(mm.refs)
                && Agrees(old(mm.S()), mm.S(),
                     Pages(old(mm.S()))[PageRef(e, Pdx(dstva), Ptx(dstva)) :=
                       Word(old(mm.refs)[PageRef(s, Pdx(srcva), Ptx(srcva))].frame, perm | PTE_P)])
    {
      hide Valid, Settled, KernDir, TableOk, EnvidOf, Agrees, Pages, Content, Pdx, Ptx, Walkable;
      var s, e;
      r, s := Envid2Env(srcenvid, true);
      if r < 0 {
        return;
      }
      r, e := Envid2Env(dstenvid, true);
      if r < 0 {
        return;
      }
      if srcva >= UTOP || srcva % PGSIZE != 0 || dstva >= UTOP || dstva % PGSIZE != 0 {
        return -E_INVAL;
      }
      UserVa(srcva);
      UserVa(dstva);
      DirKnown(mm.S(), s);
      DirKnown(mm.S(), e);
      r := mm.MapAt(s, Pdx(srcva), Ptx(srcva), e, Pdx(dstva), Ptx(dstva), perm);
    }

    method SysPageUnmap(envid: int, va: nat) returns (r: int)
      requires Ok() && cur != NULL
      modifies mm
      ensures Ok()
      ensures var e := EnvidOf(envs, cur, envid, true);
              r == if e == NULL then -E_BAD_ENV else if va >= UTOP || va % PGSIZE != 0 then -E_INVAL else 0
      ensures r != 0 ==> mm.S() == old(mm.S())
      ensures r == 0 ==>
                var e := EnvidOf(envs, cur, envid, true);
                e >= 0 && Agrees(old(mm.S()), mm.S(), Pages(old(mm.S())) - {PageRef(e, Pdx(va), Ptx(va))})
    {
      hide Valid, Settled, KernDir, TableOk, EnvidOf, Agrees, Pages, Content, Pdx, Ptx;
      var e;
      r, e := Envid2Env(envid, true);
      if r < 0 {
        return;
      }
      if va >= UTOP || va % PGSIZE != 0 {
        return -E_INVAL;
      }
      UserVa(va);
      DirKnown(mm.S(), e);
      mm.UnmapAt(e, Pdx(va), Ptx(va));
    }

    /** sys_ipc_recv, up to giving up the processor. */
    method SysIpcRecv(dstva: nat) returns (r: int)
      requires Ok() && cur != NULL
      modifies this`envs
      ensures Ok()
      ensures r == if dstva < UTOP && dstva % PGSIZE != 0 then -E_INVAL else 0
      ensures envs == if r == 0 then old(envs)[cur := Waiting(old(envs)[cur], dstva)] else old(envs)
      ensures r == 0 ==> cur < |envs| && envs[cur].recving && envs[cur].status == NOT_RUNNABLE && envs[cur].dstva == dstva
    {
      hide Valid, Settled, KernDir, TableOk, IdAfter;
      TableHead(T());
      if dstva < UTOP && dstva % PGSIZE != 0 {
        return -E_INVAL;
      }
      UpdatedOk(T(), cur, Waiting(envs[cur], dstva));
      envs := envs[cur := envs[cur].(dstva := dstva)];
      envs := envs[cur := envs[cur].(recving := true)];
      envs := envs[cur := envs[cur].(status := NOT_RUNNABLE)];
      assert envs == old(envs)[cur := Waiting(old(envs)[cur], dstva)];
      r := 0;
    }

    /** The checks sys_ipc_try_send makes on the page to send. */
    method CheckPage(srcva: nat, perm: Word) returns (ok: bool)
      requires Ok() && cur != NULL && srcva < UTOP
      ensures ok <==> SendablePage(mm.refs, cur, srcva, perm)
    {
      hide Valid, Settled, KernDir, TableOk, Pdx, Ptx, IdAfter;
      TableHead(T());
      DirKnown(mm.S(), cur);
      UserVa(srcva);
      TreeOfValid(mm.S());
      var pp, pt := mm.PageLookup(cur, Pdx(srcva), Ptx(srcva));
      LookupFacts(mm.S(), cur, Pdx(srcva), Ptx(srcva));
      if srcva % PGSIZE != 0 {
        return false;
      }
      if perm.flags & PTE_U == 0 || perm.flags & PTE_P == 0 || perm.frame != 0 || perm.flags & !PTE_SYSCALL != 0 {
        return false;
      }
      if pp == NULL {
        return false;
      }
      if perm.flags & PTE_W != 0 && mm.mem[pt][Ptx(srcva)].flags & PTE_W == 0 {
        return false;
      }
      return true;
    }

    /** The mapping sys_ipc_try_send makes for a receiver that asked for a page. */
    method SendPage(e: nat, srcva: nat, perm: bv12) returns (r: int)
      requires Ok() && cur != NULL && e < NENV && envs[e].status != FREE && srcva < UTOP && envs[e].dstva < UTOP
      requires PageRef(cur, Pdx(srcva), Ptx(srcva)) in mm.refs
               && At(mm.ppRef, mm.refs[PageRef(cur, Pdx(srcva), Ptx(srcva))].frame) < 0xFFFF
      modifies mm
      ensures Ok()
      ensures r == if Walkable(old(mm.S()), e, Pdx(envs[e].dstva)) then 0 else -E_NO_MEM
      ensures r != 0 ==> mm.S() == old(mm.S())
      ensures r == 0 ==> PageCrossed(old(mm.S()), mm.S(), cur, srcva, e, envs[e].dstva, perm)
    {
      hide Valid, Settled, KernDir, TableOk, Agrees, Pages, Content, Pdx, Ptx, Walkable, IdAfter;
      TableHead(T());
      UserVa(srcva);
      UserVa(envs[e].dstva);
      DirKnown(mm.S(), e);
      DirKnown(mm.S(), cur);
      r := mm.MapAt(cur, Pdx(srcva), Ptx(srcva), e, Pdx(envs[e].dstva), Ptx(envs[e].dstva), perm);
    }

    /** The receiver's fields, written once nothing can fail any more. */
    method Deliver(e: nat, value: nat, perm: bv12)
      requires Ok() && cur != NULL && e < NENV && envs[e].status != FREE
      modifies this`envs
      ensures Ok()
      ensures envs == old(envs)[e := Delivered(old(envs)[e], value, old(envs)[cur].envId, perm)]
      ensures e < |envs| && Holds(envs[e], value, old(envs)[cur].envId, perm) && envs[e].envId == old(envs)[e].envId
    {
      hide Valid, Settled, KernDir, TableOk, IdAfter;
      TableHead(T());
      UpdatedOk(T(), e, Delivered(envs[e], value, envs[cur].envId, perm));
      envs := envs[e := envs[e].(recving := false)];
      envs := envs[e := envs[e].(from := envs[cur].envId)];
      envs := envs[e := envs[e].(value := value)];
      envs := envs[e := envs[e].(perm := perm)];
      envs := envs[e := envs[e].(status := RUNNABLE)];
      assert envs == old(envs)[e := Delivered(old(envs)[e], value, old(envs)[cur].envId, perm)];
    }

    /** sys_ipc_try_send: all or nothing, and a page goes across exactly when both sides name an
        address below UTOP. */
    method SysIpcTrySend(envid: int, value: nat, srcva: nat, perm: Word) returns (r: int)
      requires Ok() && cur != NULL
      requires srcva < UTOP && PageRef(cur, Pdx(srcva), Ptx(srcva)) in mm.refs ==>
                 At(mm.ppRef, mm.refs[PageRef(cur, Pdx(srcva), Ptx(srcva))].frame) < 0xFFFF
      modifies this`envs, mm
      ensures Ok()
      ensures r == SendResult(old(envs), old(mm.S()), cur, envid, srcva, perm)
      ensures r != 0 ==> T() == old(T()) && mm.S() == old(mm.S())
      ensures r == 0 ==>
                var e := EnvidOf(old(envs), cur, envid, false);
                && e >= 0 && old(envs)[e].recving
                && (var sent := srcva < UTOP && old(envs)[e].dstva < UTOP;
                    && envs == old(envs)[e := Delivered(old(envs)[e], value, old(envs)[cur].envId, if sent then perm.flags else 0)]
                    && Holds(envs[e], value, old(envs)[cur].envId, if sent then perm.flags else 0)
                    && (if sent then PageCrossed(old(mm.S()), mm.S(), cur, srcva, e, old(envs)[e].dstva, perm.flags)
                        else mm.S() == old(mm.S())))
    {
      hide Valid, Settled, KernDir, TableOk, EnvidOf, Pdx, Ptx, Walkable, IdAfter, SendablePage, PageCrossed, Delivered, Holds;
      TableHead(T());
      var e;
      r, e := Envid2Env(envid, false);
      if r < 0 {
        return -E_BAD_ENV;
      }
      if !envs[e].recving {
        return -E_IPC_NOT_RECV;
      }
      if srcva < UTOP {
        var ok := CheckPage(srcva, perm);
        if !ok {
          return -E_INVAL;
        }
        PageNamed(mm.refs, cur, srcva, perm);
      }
      var sent := srcva < UTOP && envs[e].dstva < UTOP;
      if sent {
        r := SendPage(e, srcva, perm.flags);
        if r < 0 {
          return;
        }
      }
      Deliver(e, value, if sent then perm.flags else 0);
      r := 0;
    }
  }

  /** sys_ipc_try_send's return value, checks in the order the source makes them. */
  ghost function SendResult(envs: seq<Env>, m: Pm, cur: int, envid: int, srcva: nat, perm: Word): int
    requires |envs| == NENV && 0 <= cur < NENV
  {
    var e := EnvidOf(envs, cur, envid, false);
    if e < 0 then -E_BAD_ENV
    else if !envs[e].recving then -E_IPC_NOT_RECV
    else if srcva < UTOP && !SendablePage(m.refs, cur, srcva, perm) then -E_INVAL
    else if srcva < UTOP && envs[e].dstva < UTOP && !Walkable(m, e, Pdx(envs[e].dstva)) then -E_NO_MEM
    else 0
  }

  /** From m to n nothing changed but e's page at dstva, which is now s's page at srcva. */
  ghost predicate PageCrossed(m: Pm, n: Pm, s: nat, srcva: nat, e: nat, dstva: nat, perm: bv12) {
    && PageRef(s, Pdx(srcva), Ptx(srcva)) in m.refs
    && Agrees(m, n, Pages(m)[PageRef(e, Pdx(dstva), Ptx(dstva)) :=
                               Word(m.refs[PageRef(s, Pdx(srcva), Ptx(srcva))].frame, perm | PTE_P)])
  }

  lemma PageNamed(refs: map<Ref, Word>, e: nat, srcva: nat, perm: Word)
    requires SendablePage(refs, e, srcva, perm)
    ensures PageRef(e, Pdx(srcva), Ptx(srcva)) in refs
  {
  }

  lemma PermBits(flags: bv12)
    ensures (PTE_U | PTE_P | flags) & !PTE_SYSCALL == flags & !PTE_SYSCALL
  {
  }

  lemma LiveId(m: Table, e: nat)
    requires TableOk(m) && e < NENV && m.envs[e].status != FREE
    ensures m.envs[e].envId > 0
  {
    hide IdAfter;
    assert SlotOk(m, e);
    IdNamesSlot(e, m.allocs[e]);
  }

  lemma FreeHasNoDir(k: Kernel, e: nat)
    requires k.Ok() && k.free != [] && e == k.envFreeList
    ensures e < NENV && k.envs[e].status == FREE && DirRef(e) !in k.mm.refs
  {
    hide Settled, IdAfter;
    assert SlotOk(k.T(), e);
    NoDirKnown(k.mm.S(), e);
    hide Valid;
  }

  lemma NoDirKnown(m: Pm, e: nat)
    requires Valid(m) && e !in m.envPgdir
    ensures DirRef(e) !in m.refs
  {
  }

  lemma AddDirDirs(m: Pm, e: nat, kern: seq<Word>)
    requires m.free != []
    ensures AddDir(m, e, kern).envPgdir == m.envPgdir[e := m.free[0]]
  {
  }

  lemma DirsAfterFree(m: Pm, n: Pm, e: nat)
    requires Valid(m) && Valid(n) && n.refs == Without(m.refs, e)
    ensures forall f: nat :: f in n.envPgdir <==> f in m.envPgdir && f != e
  {
    hide ListOk, CountsOk, Tree;
    forall f: nat
      ensures f in n.envPgdir <==> f in m.envPgdir && f != e
    {
      assert DirRef(f) in n.refs <==> DirRef(f) in m.refs && f != e;
    }
  }

  // Whole runs

  datatype Call =
    | Switch(slot: nat)
    | Exofork
    | SetStatus(envid: int, status: Status)
    | AllocPage(envid: int, va: nat, perm: Word)
    | MapPage(srcenvid: int, srcva: nat, envid: int, va: nat, mapperm: bv12)
    | UnmapPage(envid: int, va: nat)
    | Receive(va: nat)
    | TrySend(envid: int, value: nat, va: nat, perm: Word)
    | Destroy(slot: nat)

  /** Whether the page an environment maps at an address, if any, can take one more mapping. */
  method CanShare(k: Kernel, e: nat, va: nat) returns (ok: bool)
    requires k.Ok() && e < NENV && k.envs[e].status != FREE
    ensures ok <==>
              (PageRef(e, Pdx(va), Ptx(va)) in k.mm.refs ==> At(k.mm.ppRef, k.mm.refs[PageRef(e, Pdx(va), Ptx(va))].frame) < 0xFFFF)
  {
    hide Valid, Settled, KernDir, TableOk, Pdx, Ptx, IdAfter;
    TableHead(k.T());
    TreeOfValid(k.mm.S());
    if va >= UTOP {
      NothingAbove(k.mm.S(), e, va);
      return true;
    }
    UserVa(va);
    DirKnown(k.mm.S(), e);
    var pp, _ := k.mm.PageLookup(e, Pdx(va), Ptx(va));
    return pp == NULL || At(k.mm.ppRef, pp) < 0xFFFF;
  }

  /** No environment maps anything above UTOP that is counted. */
  lemma NothingAbove(m: Pm, e: nat, va: nat)
    requires TreeOk(m) && va >= UTOP
    ensures PageRef(e, Pdx(va), Ptx(va)) !in m.refs
  {
    hide Held, Ptx;
    assert Pdx(va) >= PDX_UTOP;
  }

  /** Any run of system calls by any environments, whatever their arguments, keeps the whole invariant;
      only a mapping that would pass the 16-bit limit of a page's count is left out of the run. */
  method Run(k: Kernel, calls: seq<Call>)
    requires k.Ok()
    modifies k, k.mm
    ensures k.Ok() && Consistent(k.mm.S())
  {
    hide Valid, Settled, KernDir, TableOk, Pdx, Ptx, IdAfter, EnvidOf, Agrees, Pages, SendResult, PageCrossed, Consistent,
      Allocated, Freed, Delivered, AddDir, Walkable;
    for i := 0 to |calls|
      invariant k.Ok()
    {
      Perform(k, calls[i]);
    }
    ConsistentNow(k.mm.S());
  }

  method Perform(k: Kernel, call: Call)
    requires k.Ok()
    modifies k, k.mm
    ensures k.Ok()
  {
    hide Valid, Settled, KernDir, TableOk, Pdx, Ptx, IdAfter, EnvidOf, Agrees, Pages, SendResult, PageCrossed,
      Allocated, Freed, Delivered, AddDir, Walkable;
    TableHead(k.T());
    if call.Switch? {
      if call.slot < NENV && k.envs[call.slot].status != FREE {
        k.cur := call.slot;
      }
    } else if call.Destroy? {
      if call.slot < NENV && k.envs[call.slot].status != FREE {
        k.EnvFree(call.slot);
      }
    } else if k.cur != NULL {
      PerformAs(k, call);
    }
  }

  method PerformAs(k: Kernel, call: Call)
    requires k.Ok() && k.cur != NULL && !call.Switch? && !call.Destroy?
    modifies k, k.mm
    ensures k.Ok()
  {
    hide Valid, Settled, KernDir, TableOk, Pdx, Ptx, IdAfter, EnvidOf, Agrees, Pages, SendResult, PageCrossed,
      Allocated, Freed, Delivered, AddDir, Walkable;
    TableHead(k.T());
    match call {
      case Exofork =>
        var _ := k.SysExofork();
      case SetStatus(envid, status) =>
        var _ := k.SysEnvSetStatus(envid, status);
      case AllocPage(envid, va, perm) =>
        var _ := k.SysPageAlloc(envid, va, perm);
      case MapPage(srcenvid, srcva, envid, va, perm) =>
        var _, s := k.Envid2Env(srcenvid, true);
        var ok := true;
        if s != NULL {
          ok := CanShare(k, s, srcva);
        }
        if ok {
          var _ := k.SysPageMap(srcenvid, srcva, envid, va, perm);
        }
      case UnmapPage(envid, va) =>
        var _ := k.SysPageUnmap(envid, va);
      case Receive(va) =>
        var _ := k.SysIpcRecv(va);
      case TrySend(envid, value, va, perm) =>
        var ok := true;
        if va < UTOP {
          ok := CanShare(k, k.cur, va);
        }
        if ok {
          var _ := k.SysIpcTrySend(envid, value, va, perm);
        }
    }
  }

  /** What the invariant means for physical memory: every managed page's count is the number of page
      table entries, directory entries and directories naming it, the free list has no page twice, and
      it holds exactly the pages nothing names. */
  ghost predicate Consistent(m: Pm) {
    && (forall p :: p in m.managed ==> At(m.ppRef, p) == Count(m.refs, p))
    && Tree(m.refs, m.mem) && NoDup(m.free) && m.pageFreeList == Next(m.free, 0)
    && (forall p :: p in m.managed ==> (p in m.free <==> Count(m.refs, p) == 0))
  }

  lemma ConsistentNow(m: Pm)
    requires Valid(m) && Settled(m, {})
    ensures Consistent(m)
  {
    hide Tree;
    forall p | p in m.managed
      ensures p in m.free <==> Count(m.refs, p) == 0
    {
      FreeIffUnnamed(m, p);
      if !Unnamed(m.refs, p) {
        var r :| r in m.refs && m.refs[r].frame == p;
        CountPositive(m.refs, r);
      } else {
        assert Naming(m.refs, p) == {};
      }
    }
  }
}
