/** Several processors under one kernel lock: trap entry, the lock, environment switching and
    halting, as steps of a machine (kern/trap.c, kern/env.c, kern/sched.c, kern/spinlock.c). */
module Multiprocessor {
  import opened Environments

  const NONE: int := -1

  /** Where a processor is.  LockHalted and LockUser are the two spin loops of trap(). */
  datatype Pc =
    | UserMode
    | Idle
    | LockHalted(fromUser: bool)
    | LockUser
    | Entered
    | Dispatching
    | Leaving
    | Yielding
    | Unlocking(toUser: bool)

  datatype Cpu = Cpu(pc: Pc, halted: bool, cur: int, tally: Tally)

  /** How often a processor entered and left the kernel, and took and released the lock. */
  datatype Tally = Tally(entries: nat, acquired: nat, released: nat, exits: nat)

  /** An environment identifier: its slot, and how often that slot has been allocated. */
  datatype Id = Id(slot: int, gen: nat)

  datatype Slot = Slot(status: Status, recving: bool, gen: nat, parent: Id)

  datatype State = State(locked: bool, cpus: seq<Cpu>, envs: seq<Slot>)

  datatype Op =
    | Nothing
    | Yield
    | Recv
    | Send(to: nat)
    | SetStatus(who: nat, status: Status)
    | Exofork(child: nat)
    | Destroy(victim: nat)

  datatype Step =
    | Trap(c: nat)
    | Acquire(c: nat)
    | Collect(c: nat)
    | Dispatch(c: nat, op: Op)
    | Leave(c: nat)
    | Pick(c: nat, e: nat)
    | Halt(c: nat)
    | Unlock(c: nat)

  // The state after a step

  function Live(s: State, e: int): bool {
    0 <= e < |s.envs| && s.envs[e].status != FREE
  }

  function StatusOf(s: State, e: int): Status {
    if 0 <= e < |s.envs| then s.envs[e].status else FREE
  }

  function WithCpu(s: State, c: nat, cpu: Cpu): State {
    if c < |s.cpus| then s.(cpus := s.cpus[c := cpu]) else s
  }

  function WithSlot(s: State, e: int, slot: Slot): State {
    if 0 <= e < |s.envs| then s.(envs := s.envs[e := slot]) else s
  }

  function WithStatus(s: State, e: int, status: Status): State {
    if 0 <= e < |s.envs| then WithSlot(s, e, s.envs[e].(status := status)) else s
  }

  function WithWait(s: State, e: int, status: Status, recving: bool): State {
    if 0 <= e < |s.envs| then WithSlot(s, e, s.envs[e].(status := status, recving := recving)) else s
  }

  function IdOf(s: State, e: int): Id {
    Id(e, if 0 <= e < |s.envs| then s.envs[e].gen else 0)
  }

  /** env_alloc: a new identifier, and the caller as parent. */
  function Forked(s: State, e: int, parent: int): State {
    if 0 <= e < |s.envs| then WithSlot(s, e, Slot(NOT_RUNNABLE, false, s.envs[e].gen + 1, IdOf(s, parent))) else s
  }

  /** trap() after its first lock_kernel, if that was needed. */
  function AfterHalted(fromUser: bool): Pc {
    if fromUser then LockUser else Dispatching
  }

  function TrapIn(cpu: Cpu): Cpu {
    var fromUser := cpu.pc.UserMode?;
    Cpu(if cpu.halted then LockHalted(fromUser) else AfterHalted(fromUser), false, cpu.cur,
        cpu.tally.(entries := cpu.tally.entries + 1))
  }

  function Locked(cpu: Cpu): Cpu {
    cpu.(pc := if cpu.pc.LockHalted? then AfterHalted(cpu.pc.fromUser) else Entered,
         tally := cpu.tally.(acquired := cpu.tally.acquired + 1))
  }

  function Unlocked(cpu: Cpu): Cpu {
    cpu.(pc := if cpu.pc == Unlocking(true) then UserMode else Idle,
         tally := cpu.tally.(released := cpu.tally.released + 1, exits := cpu.tally.exits + 1))
  }

  /** env_free of e by processor c, which forgets e when it was current. */
  function Freed(s: State, c: nat, e: int): State
    requires c < |s.cpus|
  {
    var t := WithStatus(s, e, FREE);
    if s.cpus[c].cur == e then WithCpu(t, c, s.cpus[c].(cur := NONE, pc := Yielding))
    else WithCpu(t, c, s.cpus[c].(pc := Leaving))
  }

  /** env_run: the old environment back to RUNNABLE if it was RUNNING, the new one RUNNING; a call
      for the environment already current changes no status. */
  function Run(s: State, c: nat, e: int): State
    requires c < |s.cpus|
  {
    var cur := s.cpus[c].cur;
    var t := if cur == e then s
             else if StatusOf(s, cur) == RUNNING then WithStatus(WithStatus(s, cur, RUNNABLE), e, RUNNING)
             else WithStatus(s, e, RUNNING);
    WithCpu(t, c, s.cpus[c].(cur := e, pc := Unlocking(true)))
  }

  function Perform(s: State, c: nat, op: Op): State
    requires c < |s.cpus|
  {
    var cpu := s.cpus[c];
    match op
    case Nothing => WithCpu(s, c, cpu.(pc := Leaving))
    case Yield => WithCpu(s, c, cpu.(pc := Yielding))
    case Recv => WithCpu(WithWait(s, cpu.cur, NOT_RUNNABLE, true), c, cpu.(pc := Yielding))
    case Send(e) => WithCpu(WithWait(s, e, RUNNABLE, false), c, cpu.(pc := Leaving))
    case SetStatus(e, status) => WithCpu(WithStatus(s, e, status), c, cpu.(pc := Leaving))
    case Exofork(e) => WithCpu(Forked(s, e, cpu.cur), c, cpu.(pc := Leaving))
    case Destroy(e) =>
      if StatusOf(s, e) == RUNNING && cpu.cur != e
      then WithCpu(WithStatus(s, e, DYING), c, cpu.(pc := Leaving))
      else Freed(s, c, e)
  }

  function After(s: State, step: Step): State {
    if step.c >= |s.cpus| then s else
    var cpu := s.cpus[step.c];
    match step
    case Trap(c) => WithCpu(s, c, TrapIn(cpu))
    case Acquire(c) => WithCpu(s, c, Locked(cpu)).(locked := true)
    case Collect(c) => if StatusOf(s, cpu.cur) == DYING then Freed(s, c, cpu.cur) else WithCpu(s, c, cpu.(pc := Dispatching))
    case Dispatch(c, op) => Perform(s, c, op)
    case Leave(c) => if StatusOf(s, cpu.cur) == RUNNING then Run(s, c, cpu.cur) else WithCpu(s, c, cpu.(pc := Yielding))
    case Pick(c, e) => Run(s, c, e)
    case Halt(c) => WithCpu(s, c, cpu.(pc := Unlocking(false), cur := NONE, halted := true))
    case Unlock(c) => WithCpu(s, c, Unlocked(cpu)).(locked := false)
  }

  // When a step may be taken

  ghost predicate Elsewhere(s: State, c: nat, e: int) {
    exists d: nat :: d < |s.cpus| && d != c && s.cpus[d].cur == e
  }

  ghost predicate OtherRunnable(s: State, e: int) {
    exists f: nat :: f < |s.envs| && f != e && s.envs[f].status == RUNNABLE
  }

  /** With nothing RUNNING or DYING either, sched_halt drops into the monitor for good. */
  ghost predicate SomeRunning(s: State) {
    exists f: nat :: f < |s.envs| && (s.envs[f].status == RUNNING || s.envs[f].status == DYING)
  }

  /** envid2env with checkperm: the environment itself or an immediate child of it. */
  predicate Permitted(s: State, cur: int, e: nat) {
    e == cur || (e < |s.envs| && s.envs[e].parent == IdOf(s, cur))
  }

  /** How far the scan of sched_yield goes from cur before it looks at e; cur itself comes last. */
  function Distance(s: State, cur: int, e: nat): int {
    if e > cur then e - cur - 1 else e - cur - 1 + |s.envs|
  }

  /** The environment that scan stops at. */
  ghost predicate Nearest(s: State, cur: int, e: nat) {
    && e < |s.envs| && s.envs[e].status == RUNNABLE
    && forall f: nat :: f < |s.envs| && s.envs[f].status == RUNNABLE ==> Distance(s, cur, e) <= Distance(s, cur, f)
  }

  /** What the kernel itself checks before it performs the operation for its current environment. */
  ghost predicate Enabled(s: State, c: nat, op: Op)
    requires c < |s.cpus|
  {
    if s.cpus[c].cur == NONE then op.Nothing? || op.Yield? else
    match op
    case Send(e) => Live(s, e) && s.envs[e].recving
    case SetStatus(e, status) => Live(s, e) && Permitted(s, s.cpus[c].cur, e) && (status == RUNNABLE || status == NOT_RUNNABLE)
    case Exofork(e) => e < |s.envs| && s.envs[e].status == FREE
    case Destroy(e) => Live(s, e) && Permitted(s, s.cpus[c].cur, e)
    case _ => true
  }

  /** What the kernel does not check.  A status may be set on an environment that neither waits for
      a message (unless it stays NOT_RUNNABLE) nor is current on another processor, and on the caller itself to
      RUNNABLE only while another environment is RUNNABLE; a dying environment may not be destroyed again. */
  ghost predicate Careful(s: State, c: nat, op: Op)
    requires c < |s.cpus|
  {
    match op
    case SetStatus(e, status) =>
      && !Elsewhere(s, c, e)
      && (status == RUNNABLE ==> !(Live(s, e) && s.envs[e].recving) && (e == s.cpus[c].cur ==> OtherRunnable(s, e)))
    case Destroy(e) => StatusOf(s, e) != DYING
    case _ => true
  }

  ghost predicate Takes(s: State, step: Step) {
    && step.c < |s.cpus|
    && var cpu := s.cpus[step.c];
       match step
       case Trap(_) => cpu.pc.UserMode? || cpu.pc.Idle?
       case Acquire(_) => (cpu.pc.LockHalted? || cpu.pc.LockUser?) && !s.locked
       case Collect(_) => cpu.pc.Entered?
       case Dispatch(c, op) => cpu.pc.Dispatching? && Enabled(s, c, op)
       case Leave(_) => cpu.pc.Leaving?
       case Pick(_, e) =>
         && cpu.pc.Yielding? && e < |s.envs|
         && (Nearest(s, cpu.cur, e) || (e == cpu.cur && s.envs[e].status == RUNNING && !OtherRunnable(s, e)))
       case Halt(_) => cpu.pc.Yielding? && StatusOf(s, cpu.cur) != RUNNING && !OtherRunnable(s, NONE) && SomeRunning(s)
       case Unlock(_) => cpu.pc.Unlocking?
  }

  /** A step the kernel takes; in a careful run its system call is careful too. */
  ghost predicate May(s: State, step: Step, careful: bool) {
    Takes(s, step) && (careful && step.Dispatch? ==> Careful(s, step.c, step.op))
  }

  ghost predicate Legal(s: State, step: Step) {
    May(s, step, true)
  }

  // The invariant

  predicate Holds(pc: Pc) {
    pc.Entered? || pc.Dispatching? || pc.Leaving? || pc.Yielding? || pc.Unlocking?
  }

  predicate Spins(pc: Pc) {
    pc.LockHalted? || pc.LockUser?
  }

  /** One lock per entry and one release per exit. */
  predicate Balanced(cpu: Cpu) {
    var t := cpu.tally;
    && t.released == t.exits
    && t.acquired == t.released + (if Holds(cpu.pc) then 1 else 0)
    && t.entries == t.exits + (if Holds(cpu.pc) || Spins(cpu.pc) then 1 else 0)
  }

  ghost predicate CurOk(s: State, cpu: Cpu) {
    var status := StatusOf(s, cpu.cur);
    match cpu.pc
    case UserMode => status == RUNNING || status == DYING
    case LockUser => status == RUNNING || status == DYING
    case Entered => status == RUNNING || status == DYING
    case Idle => cpu.cur == NONE
    case LockHalted(fromUser) => !fromUser && cpu.cur == NONE
    case Dispatching => cpu.cur == NONE || status == RUNNING
    case Unlocking(toUser) => if toUser then status == RUNNING else cpu.cur == NONE
    case _ => cpu.cur == NONE || (status != FREE && status != DYING && (status == RUNNABLE ==> OtherRunnable(s, cpu.cur)))
  }

  ghost predicate CpuOk(s: State, c: nat)
    requires c < |s.cpus|
  {
    && CurOk(s, s.cpus[c]) && Balanced(s.cpus[c])
    && (s.cpus[c].halted <==> s.cpus[c].pc.Idle? || s.cpus[c].pc == Unlocking(false))
    && (Holds(s.cpus[c].pc) ==> s.locked)
  }

  ghost predicate Apart(s: State, c: nat, d: nat)
    requires c < |s.cpus| && d < |s.cpus|
  {
    && !(Holds(s.cpus[c].pc) && Holds(s.cpus[d].pc))
    && (s.cpus[c].cur != NONE ==> s.cpus[c].cur != s.cpus[d].cur)
  }

  ghost predicate Current(s: State, e: int) {
    exists c: nat :: c < |s.cpus| && s.cpus[c].cur == e
  }

  ghost predicate SlotOk(s: State, e: nat)
    requires e < |s.envs|
  {
    var slot := s.envs[e];
    && (slot.status == RUNNING || slot.status == DYING ==> Current(s, e))
    && (slot.status != FREE && slot.recving ==> slot.status == NOT_RUNNABLE)
  }

  ghost predicate LockHeld(s: State) {
    exists c: nat :: c < |s.cpus| && Holds(s.cpus[c].pc)
  }

  ghost predicate Inv(s: State) {
    && (forall c: nat :: c < |s.cpus| ==> CpuOk(s, c))
    && (forall c: nat, d: nat :: c < |s.cpus| && d < |s.cpus| && c != d ==> Apart(s, c, d))
    && (forall e: nat :: e < |s.envs| ==> SlotOk(s, e))
    && (s.locked ==> LockHeld(s))
  }

  // Every step keeps it

  /** A processor other than the one that moved keeps its part while its own environment keeps its
      status and the lock it may hold stays held. */
  lemma OthersKept(s: State, t: State, c: nat)
    requires Inv(s) && c < |s.cpus| == |t.cpus| && |s.envs| == |t.envs|
    requires forall d: nat :: d < |s.cpus| && d != c ==> t.cpus[d] == s.cpus[d] && StatusKept(s, t, s.cpus[d].cur)
    requires Holds(s.cpus[c].pc) || !s.locked || (t.locked == s.locked && t.envs == s.envs)
    requires CpuOk(t, c) && (forall d: nat :: d < |s.cpus| && d != c ==> Apart(t, c, d))
    requires forall e: nat :: e < |s.envs| ==> SlotOk(t, e)
    requires t.locked ==> LockHeld(t)
    ensures Inv(t)
  {
    hide CurOk, Balanced, SlotOk, LockHeld;
    forall d: nat | d < |s.cpus| && d != c
      ensures CpuOk(t, d) && Apart(t, c, d) && Apart(t, d, c)
    {
      assert CpuOk(s, d) && Apart(s, c, d) && Apart(t, c, d);
      CurKept(s, t, s.cpus[d]);
    }
    forall a: nat, b: nat | a < |s.cpus| && b < |s.cpus| && a != b
      ensures Apart(t, a, b)
    {
      assert Apart(s, a, b);
    }
  }

  /** The status of an environment is untouched, or it runs and is marked as dying. */
  ghost predicate StatusKept(s: State, t: State, e: int) {
    StatusOf(t, e) == StatusOf(s, e) || (StatusOf(s, e) == RUNNING && StatusOf(t, e) == DYING)
  }

  lemma CurKept(s: State, t: State, cpu: Cpu)
    requires CurOk(s, cpu) && StatusKept(s, t, cpu.cur) && (Holds(cpu.pc) ==> t.envs == s.envs)
    ensures CurOk(t, cpu)
  {
  }

  /** A slot no step touched keeps its part as long as its processor keeps it current. */
  lemma SlotKept(s: State, t: State, c: nat, e: nat)
    requires |t.cpus| == |s.cpus| && |t.envs| == |s.envs| && c < |s.cpus| && e < |s.envs|
    requires SlotOk(s, e) && t.envs[e] == s.envs[e]
    requires forall d: nat :: d < |s.cpus| && d != c ==> t.cpus[d] == s.cpus[d]
    requires s.cpus[c].cur == e && (s.envs[e].status == RUNNING || s.envs[e].status == DYING) ==> t.cpus[c].cur == e
    ensures SlotOk(t, e)
  {
    if s.envs[e].status == RUNNING || s.envs[e].status == DYING {
      var d: nat :| d < |s.cpus| && s.cpus[d].cur == e;
      assert t.cpus[d].cur == e;
    }
  }

  lemma MovesKeepInv(s: State, step: Step)
    requires Inv(s) && Takes(s, step) && (step.Trap? || step.Acquire? || step.Unlock? || step.Halt?)
    ensures Inv(After(s, step))
  {
    var t, c := After(s, step), step.c;
    assert CpuOk(s, c);
    forall d: nat | d < |s.cpus| && d != c
      ensures Apart(t, c, d)
    {
      assert Apart(s, c, d) && CpuOk(s, d);
    }
    forall e: nat | e < |s.envs|
      ensures SlotOk(t, e)
    {
      SlotKept(s, t, c, e);
    }
    if step.Acquire? {
      assert Holds(t.cpus[c].pc);
    } else if t.locked {
      var d: nat :| d < |s.cpus| && Holds(s.cpus[d].pc);
      assert Apart(s, c, d) || c == d;
      assert Holds(t.cpus[d].pc);
    }
    OthersKept(s, t, c);
  }

  lemma CollectKeepsInv(s: State, c: nat)
    requires Inv(s) && Takes(s, Collect(c))
    ensures Inv(After(s, Collect(c)))
  {
    var t := After(s, Collect(c));
    assert CpuOk(s, c);
    forall d: nat | d < |s.cpus| && d != c
      ensures Apart(t, c, d) && StatusKept(s, t, s.cpus[d].cur)
    {
      assert Apart(s, c, d) && CpuOk(s, d);
    }
    forall e: nat | e < |s.envs|
      ensures SlotOk(t, e)
    {
      if e != s.cpus[c].cur || t.envs == s.envs {
        SlotKept(s, t, c, e);
      }
    }
    assert Holds(t.cpus[c].pc);
    OthersKept(s, t, c);
  }

  /** env_run keeps the invariant exactly when it does not restart a current environment that is not RUNNING. */
  lemma RunKeepsInvIff(s: State, c: nat, e: nat)
    requires Inv(s) && c < |s.cpus| && (s.cpus[c].pc.Yielding? || s.cpus[c].pc.Leaving?) && e < |s.envs|
    requires s.envs[e].status == RUNNABLE || (e == s.cpus[c].cur && s.envs[e].status == RUNNING)
    ensures Inv(Run(s, c, e)) <==> e != s.cpus[c].cur || s.envs[e].status == RUNNING
  {
    var t := Run(s, c, e);
    assert CpuOk(s, c);
    if e == s.cpus[c].cur && s.envs[e].status != RUNNING {
      assert !CpuOk(t, c);
      return;
    }
    forall d: nat | d < |s.cpus| && d != c
      ensures Apart(t, c, d) && StatusKept(s, t, s.cpus[d].cur)
    {
      assert Apart(s, c, d) && CpuOk(s, d);
    }
    forall f: nat | f < |s.envs|
      ensures SlotOk(t, f)
    {
      assert SlotOk(s, f);
      if f == e {
        assert t.cpus[c].cur == e;
      } else if f != s.cpus[c].cur {
        SlotKept(s, t, c, f);
      }
    }
    assert Holds(t.cpus[c].pc);
    OthersKept(s, t, c);
  }

  lemma CarefulKeepsInv(s: State, c: nat, op: Op)
    requires Inv(s) && Takes(s, Dispatch(c, op)) && Careful(s, c, op)
    ensures Inv(Perform(s, c, op))
  {
    var t := Perform(s, c, op);
    assert CpuOk(s, c);
    forall d: nat | d < |s.cpus| && d != c
      ensures Apart(t, c, d) && StatusKept(s, t, s.cpus[d].cur)
    {
      assert Apart(s, c, d) && CpuOk(s, d);
      DispatchSpares(s, c, d, op);
    }
    forall e: nat | e < |s.envs|
      ensures SlotOk(t, e)
    {
      assert SlotOk(s, e);
      if t.envs[e] == s.envs[e] {
        SlotKept(s, t, c, e);
      } else if t.envs[e].status == DYING {
        var d: nat :| d < |s.cpus| && s.cpus[d].cur == e;
        assert t.cpus[d].cur == e;
      }
    }
    assert Holds(t.cpus[c].pc);
    DispatchedCpu(s, c, op);
    OthersKept(s, t, c);
  }

  lemma DispatchSpares(s: State, c: nat, d: nat, op: Op)
    requires Inv(s) && Takes(s, Dispatch(c, op)) && Careful(s, c, op) && d < |s.cpus| && d != c
    ensures StatusKept(s, Perform(s, c, op), s.cpus[d].cur)
  {
    hide Balanced;
    assert Apart(s, c, d) && CpuOk(s, d) && CpuOk(s, c);
    if op.Send? {
      assert SlotOk(s, op.to);
    }
  }

  lemma DispatchedCpu(s: State, c: nat, op: Op)
    requires Inv(s) && Takes(s, Dispatch(c, op)) && Careful(s, c, op)
    ensures CpuOk(Perform(s, c, op), c)
  {
    var t := Perform(s, c, op);
    assert CpuOk(s, c);
    match op
    case Send(e) => assert SlotOk(s, e);
    case SetStatus(e, status) =>
      if status == RUNNABLE && e == s.cpus[c].cur {
        var f: nat :| f < |s.envs| && f != e && s.envs[f].status == RUNNABLE;
        assert t.envs[f].status == RUNNABLE;
      }
    case _ =>
  }

  lemma CarelessBreaksInv(s: State, c: nat, op: Op)
    requires Inv(s) && Takes(s, Dispatch(c, op)) && !Careful(s, c, op)
    ensures !Inv(Perform(s, c, op))
  {
    var t := Perform(s, c, op);
    assert CpuOk(s, c);
    match op {
      case SetStatus(e, status) =>
        if Elsewhere(s, c, e) {
          var d: nat :| d < |s.cpus| && d != c && s.cpus[d].cur == e;
          assert Apart(s, c, d) && CpuOk(s, d) && !CpuOk(t, d);
        } else if s.envs[e].recving {
          assert !SlotOk(t, e);
        } else {
          assert !OtherRunnable(t, e) by {
            assert forall f: nat :: f < |s.envs| && f != e ==> t.envs[f] == s.envs[f];
          }
          assert !CpuOk(t, c);
        }
      case Destroy(e) =>
        assert SlotOk(s, e);
        var d: nat :| d < |s.cpus| && s.cpus[d].cur == e;
        assert Apart(s, c, d) && CpuOk(s, d) && !CpuOk(t, d);
    }
  }

  /** The exact condition: an operation the kernel accepts keeps the invariant if and only if it is careful. */
  lemma DispatchKeepsInvIff(s: State, c: nat, op: Op)
    requires Inv(s) && Takes(s, Dispatch(c, op))
    ensures Inv(After(s, Dispatch(c, op))) <==> Careful(s, c, op)
  {
    hide Inv, Takes, Careful, Perform;
    DispatchingCpu(s, c, op);
    if Careful(s, c, op) {
      CarefulKeepsInv(s, c, op);
    } else {
      CarelessBreaksInv(s, c, op);
    }
  }

  lemma DispatchingCpu(s: State, c: nat, op: Op)
    requires Takes(s, Dispatch(c, op))
    ensures c < |s.cpus|
  {
  }

  lemma StepKeepsInv(s: State, step: Step)
    requires Inv(s) && Legal(s, step)
    ensures Inv(After(s, step))
  {
    hide Inv, Perform, Careful, Enabled, Run;
    match step
    case Collect(c) => CollectKeepsInv(s, c);
    case Dispatch(c, op) => DispatchKeepsInvIff(s, c, op);
    case Leave(c) => LeaveKeepsInv(s, c);
    case Pick(c, e) => PickKeepsInv(s, c, e);
    case _ => MovesKeepInv(s, step);
  }

  lemma LeaveKeepsInv(s: State, c: nat)
    requires Inv(s) && Takes(s, Leave(c))
    ensures Inv(After(s, Leave(c)))
  {
    var t := After(s, Leave(c));
    if StatusOf(s, s.cpus[c].cur) == RUNNING {
      RunKeepsInvIff(s, c, s.cpus[c].cur);
      return;
    }
    assert CpuOk(s, c) && t.envs == s.envs;
    assert OtherRunnable(s, s.cpus[c].cur) ==> OtherRunnable(t, s.cpus[c].cur);
    forall d: nat | d < |s.cpus| && d != c
      ensures Apart(t, c, d)
    {
      assert Apart(s, c, d);
    }
    forall e: nat | e < |s.envs|
      ensures SlotOk(t, e)
    {
      SlotKept(s, t, c, e);
    }
    assert Holds(t.cpus[c].pc);
    OthersKept(s, t, c);
  }

  lemma PickKeepsInv(s: State, c: nat, e: nat)
    requires Inv(s) && Takes(s, Pick(c, e))
    ensures Inv(After(s, Pick(c, e)))
  {
    assert CpuOk(s, c);
    RunKeepsInvIff(s, c, e);
  }

  // Whole runs

  /** Processor 0 boots holding the lock; the others wait for it as if woken from a halt. */
  ghost predicate Booted(s: State) {
    && |s.cpus| > 0 && s.locked
    && s.cpus[0] == Cpu(Yielding, false, NONE, Tally(1, 1, 0, 0))
    && (forall c: nat :: 0 < c < |s.cpus| ==> s.cpus[c] == Cpu(LockHalted(false), false, NONE, Tally(1, 0, 0, 0)))
    && (forall e: nat :: e < |s.envs| ==> s.envs[e].status in {FREE, RUNNABLE} && !s.envs[e].recving)
  }

  function RunOf(s: State, steps: seq<Step>): State
    decreases |steps|
  {
    if steps == [] then s else RunOf(After(s, steps[0]), steps[1..])
  }

  ghost predicate RunOk(s: State, steps: seq<Step>, careful: bool)
    decreases |steps|
  {
    steps != [] ==> May(s, steps[0], careful) && RunOk(After(s, steps[0]), steps[1..], careful)
  }

  ghost predicate LegalRun(s: State, steps: seq<Step>) {
    RunOk(s, steps, true)
  }

  lemma {:induction false} RunKeepsInv(s: State, steps: seq<Step>)
    requires Inv(s) && LegalRun(s, steps)
    ensures Inv(RunOf(s, steps))
    decreases |steps|
  {
    hide Inv, May, After;
    if steps != [] {
      StepKeepsInv(s, steps[0]);
      RunKeepsInv(After(s, steps[0]), steps[1..]);
    }
  }

  lemma BootInv(s: State)
    requires Booted(s)
    ensures Inv(s)
  {
    assert Holds(s.cpus[0].pc);
  }

  predicate OneInKernel(t: State) {
    forall c: nat, d: nat :: c < |t.cpus| && d < |t.cpus| && Holds(t.cpus[c].pc) && Holds(t.cpus[d].pc) ==> c == d
  }

  predicate LockPerEntry(t: State) {
    forall c: nat :: c < |t.cpus| ==>
      var n := t.cpus[c].tally;
      && n.acquired == n.entries - (if Spins(t.cpus[c].pc) then 1 else 0)
      && n.released == n.exits == n.acquired - (if Holds(t.cpus[c].pc) then 1 else 0)
  }

  predicate NeverShared(t: State) {
    forall c: nat, d: nat :: c < |t.cpus| && d < |t.cpus| && t.cpus[c].cur == t.cpus[d].cur != NONE ==> c == d
  }

  ghost predicate RunsOnOne(t: State, e: int) {
    exists c: nat :: c < |t.cpus| && t.cpus[c].cur == e && forall d: nat :: d < |t.cpus| && t.cpus[d].cur == e ==> d == c
  }

  /** Never two inside the kernel, the lock held exactly while one is, one acquisition per entry and one
      release per exit, no environment current on two processors, every RUNNING or DYING environment
      current on exactly one, and a processor in user mode, or waiting to enter from it, only ever in
      such an environment. */
  ghost predicate Safe(t: State) {
    && OneInKernel(t) && LockPerEntry(t) && NeverShared(t)
    && (t.locked <==> LockHeld(t))
    && (forall e: nat :: e < |t.envs| && t.envs[e].status in {RUNNING, DYING} ==> RunsOnOne(t, e))
    && (forall c: nat :: c < |t.cpus| && (t.cpus[c].pc.UserMode? || t.cpus[c].pc.LockUser?) ==>
          StatusOf(t, t.cpus[c].cur) in {RUNNING, DYING})
  }

  /** Over every careful run of any number of processors. */
  lemma KernelLockSafe(s: State, steps: seq<Step>)
    requires Booted(s) && LegalRun(s, steps)
    ensures Safe(RunOf(s, steps))
  {
    hide Inv, Booted, LegalRun, Safe;
    BootInv(s);
    RunKeepsInv(s, steps);
    InvSafe(RunOf(s, steps));
  }

  lemma InvSafe(t: State)
    requires Inv(t)
    ensures Safe(t)
  {
    forall c: nat | c < |t.cpus|
      ensures CpuOk(t, c) && Balanced(t.cpus[c])
    {
      assert CpuOk(t, c);
    }
    forall c: nat, d: nat | c < |t.cpus| && d < |t.cpus| && Holds(t.cpus[c].pc) && Holds(t.cpus[d].pc)
      ensures c == d
    {
      assert c == d || Apart(t, c, d);
    }
    assert NeverShared(t) by {
      forall c: nat, d: nat | c < |t.cpus| && d < |t.cpus| && t.cpus[c].cur == t.cpus[d].cur != NONE
        ensures c == d
      {
        assert c == d || Apart(t, c, d);
      }
    }
    forall e: nat | e < |t.envs| && t.envs[e].status in {RUNNING, DYING}
      ensures RunsOnOne(t, e)
    {
      assert SlotOk(t, e);
      var c: nat :| c < |t.cpus| && t.cpus[c].cur == e;
      assert forall d: nat :: d < |t.cpus| && t.cpus[d].cur == e ==> d == c;
    }
    if LockHeld(t) {
      var c: nat :| c < |t.cpus| && Holds(t.cpus[c].pc);
      assert CpuOk(t, c);
    }
  }

  // What goes wrong otherwise

  lemma {:induction false} Concat(s: State, a: seq<Step>, b: seq<Step>, careful: bool)
    requires RunOk(s, a, careful) && RunOk(RunOf(s, a), b, careful)
    ensures RunOk(s, a + b, careful) && RunOf(s, a + b) == RunOf(RunOf(s, a), b)
    decreases |a|
  {
    hide May, After;
    if a == [] {
      assert a + b == b;
    } else {
      Concat(After(s, a[0]), a[1..], b, careful);
      assert (a + b)[1..] == a[1..] + b;
    }
  }

  lemma Then(s: State, a: seq<Step>, z: Step, b: seq<Step>, careful: bool)
    requires RunOk(s, a, careful) && May(RunOf(s, a), z, careful) && b == a + [z]
    ensures RunOk(s, b, careful) && RunOf(s, b) == After(RunOf(s, a), z)
  {
    hide May, After;
    var t := RunOf(s, a);
    assert [z][1..] == [] && RunOf(t, [z]) == After(t, z);
    Concat(s, a, [z], careful);
  }

  /** Processor c is at pc inside the kernel with current environment e. */
  ghost predicate Inside(s: State, c: nat, pc: Pc, e: int) {
    && c < |s.cpus| && s.locked && s.cpus[c].pc == pc && s.cpus[c].cur == e && !s.cpus[c].halted && 0 <= e < |s.envs|
  }

  /** Back to user mode and into the kernel again. */
  function RoundTrip(c: nat): seq<Step> {
    [Leave(c), Unlock(c), Trap(c), Acquire(c), Collect(c)]
  }

  function Again(s: State, c: nat): State
    requires c < |s.cpus|
  {
    var n := s.cpus[c].tally;
    WithCpu(s, c, Cpu(Dispatching, false, s.cpus[c].cur, Tally(n.entries + 1, n.acquired + 1, n.released + 1, n.exits + 1)))
  }

  lemma RoundTripTo(s: State, c: nat, careful: bool)
    requires c < |s.cpus| && Inside(s, c, Leaving, s.cpus[c].cur) && StatusOf(s, s.cpus[c].cur) == RUNNING
    ensures RunOk(s, RoundTrip(c), careful) && RunOf(s, RoundTrip(c)) == Again(s, c)
  {
    hide RunOk, RunOf;
    RunStart(s, careful);
    Then(s, [], Leave(c), [Leave(c)], careful);
    Then(s, [Leave(c)], Unlock(c), [Leave(c), Unlock(c)], careful);
    Then(s, [Leave(c), Unlock(c)], Trap(c), [Leave(c), Unlock(c), Trap(c)], careful);
    Then(s, [Leave(c), Unlock(c), Trap(c)], Acquire(c), [Leave(c), Unlock(c), Trap(c), Acquire(c)], careful);
    Then(s, [Leave(c), Unlock(c), Trap(c), Acquire(c)], Collect(c), RoundTrip(c), careful);
    assert RunOf(s, RoundTrip(c)).cpus == Again(s, c).cpus;
  }

  lemma RunStart(s: State, careful: bool)
    ensures RunOk(s, [], careful) && RunOf(s, []) == s
  {
  }

  /** The environments beside e that run or could. */
  function Busy(s: State, e: int): set<nat> {
    set f: nat | f < |s.envs| && f != e && (s.envs[f].status == RUNNABLE || s.envs[f].status == RUNNING)
  }

  /** From s to t only processor c has moved, and it is about to run e. */
  ghost predicate Reached(s: State, t: State, c: nat, e: nat) {
    && |t.cpus| == |s.cpus| && |t.envs| == |s.envs| && e < |s.envs| && Inside(t, c, Unlocking(true), e)
    && t.envs[e] == s.envs[e].(status := RUNNING) && Busy(t, e) <= Busy(s, e)
    && forall d: nat :: d < |s.cpus| && d != c ==> t.cpus[d] == s.cpus[d]
  }

  lemma {:induction false} SomeNearest(s: State, cur: int, e: nat) returns (f: nat)
    requires cur < |s.envs| && e < |s.envs| && s.envs[e].status == RUNNABLE
    ensures Nearest(s, cur, f)
    decreases Distance(s, cur, e)
  {
    f := e;
    if g: nat :| g < |s.envs| && s.envs[g].status == RUNNABLE && Distance(s, cur, g) < Distance(s, cur, e) {
      f := SomeNearest(s, cur, g);
    }
  }

  /** Into user mode and back. */
  lemma EnterAgain(s: State, c: nat, e: nat) returns (steps: seq<Step>)
    requires Inside(s, c, Unlocking(true), e) && s.envs[e].status == RUNNING
    ensures RunOk(s, steps, true)
    ensures var t := RunOf(s, steps);
            && Inside(t, c, Dispatching, e) && t.envs == s.envs && |t.cpus| == |s.cpus|
            && forall d: nat :: d < |s.cpus| && d != c ==> t.cpus[d] == s.cpus[d]
  {
    hide RunOk, RunOf;
    RunStart(s, true);
    Then(s, [], Unlock(c), [Unlock(c)], true);
    Then(s, [Unlock(c)], Trap(c), [Unlock(c), Trap(c)], true);
    Then(s, [Unlock(c), Trap(c)], Acquire(c), [Unlock(c), Trap(c), Acquire(c)], true);
    steps := [Unlock(c), Trap(c), Acquire(c), Collect(c)];
    Then(s, [Unlock(c), Trap(c), Acquire(c)], Collect(c), steps, true);
  }

  /** Picked by the scheduler, f enters the kernel and waits for a message. */
  lemma BlockNext(s: State, c: nat, e: nat, f: nat) returns (steps: seq<Step>)
    requires c < |s.cpus| && s.locked && s.cpus[c].pc == Yielding && !s.cpus[c].halted && s.cpus[c].cur < |s.envs|
    requires Nearest(s, s.cpus[c].cur, f) && f != e && e < |s.envs|
    requires s.envs[e].status == RUNNABLE || (s.envs[e].status == RUNNING && s.cpus[c].cur == e)
    ensures RunOk(s, steps, true)
    ensures var t := RunOf(s, steps);
            && |t.cpus| == |s.cpus| && |t.envs| == |s.envs| && Inside(t, c, Yielding, f)
            && t.envs[e] == s.envs[e].(status := RUNNABLE) && Busy(t, e) <= Busy(s, e) - {f} && f in Busy(s, e)
            && forall d: nat :: d < |s.cpus| && d != c ==> t.cpus[d] == s.cpus[d]
  {
    hide RunOk, RunOf, Nearest;
    NearestRuns(s, s.cpus[c].cur, f);
    var z, w := Pick(c, f), Dispatch(c, Recv);
    RunStart(s, true);
    Then(s, [], z, [z], true);
    var t := After(s, z);
    PickedRuns(s, c, f);
    var enter := EnterAgain(t, c, f);
    Concat(s, [z], enter, true);
    var u := RunOf(t, enter);
    steps := [z] + enter + [w];
    Then(s, [z] + enter, w, steps, true);
  }

  lemma NearestRuns(s: State, cur: int, f: nat)
    requires Nearest(s, cur, f) && cur < |s.envs|
    ensures f < |s.envs| && s.envs[f].status == RUNNABLE && (f == cur ==> !OtherRunnable(s, cur))
  {
  }

  lemma PickedRuns(s: State, c: nat, f: nat)
    requires c < |s.cpus| && f < |s.envs| && s.envs[f].status == RUNNABLE && s.cpus[c].cur != f
    ensures Run(s, c, f).envs[f].status == RUNNING
  {
  }

  /** The scheduler gets to e once those it prefers have blocked, one after the other. */
  lemma {:induction false} ReachFrom(s: State, c: nat, e: nat) returns (steps: seq<Step>)
    requires c < |s.cpus| && s.locked && s.cpus[c].pc == Yielding && !s.cpus[c].halted && s.cpus[c].cur < |s.envs|
    requires e < |s.envs| && s.envs[e].status == RUNNABLE && s.cpus[c].cur != e
    ensures RunOk(s, steps, true) && Reached(s, RunOf(s, steps), c, e)
    decreases |Busy(s, e)|
  {
    hide RunOk, RunOf, Nearest;
    var f := SomeNearest(s, s.cpus[c].cur, e);
    if f == e {
      RunStart(s, true);
      steps := [Pick(c, e)];
      Then(s, [], Pick(c, e), steps, true);
    } else {
      var block := BlockNext(s, c, e, f);
      var t := RunOf(s, block);
      FewerBusy(s, t, e, f);
      var rest := ReachFrom(t, c, e);
      Concat(s, block, rest, true);
      steps := block + rest;
    }
  }

  lemma FewerBusy(s: State, t: State, e: int, f: nat)
    requires Busy(t, e) <= Busy(s, e) - {f} && f in Busy(s, e)
    ensures |Busy(t, e)| < |Busy(s, e)|
  {
    Smaller(Busy(t, e), Busy(s, e) - {f});
  }

  lemma {:induction false} Smaller(a: set<nat>, b: set<nat>)
    requires a <= b
    ensures |a| <= |b|
    decreases |a|
  {
    if x :| x in a {
      Smaller(a - {x}, b - {x});
    }
  }

  /** Whatever c's environment was told to do, a RUNNABLE environment can be next. */
  lemma YieldTo(s: State, c: nat, g: int, e: nat) returns (steps: seq<Step>)
    requires Inside(s, c, Leaving, g) && StatusOf(s, g) == RUNNING && e < |s.envs| && s.envs[e].status == RUNNABLE
    ensures RunOk(s, steps, true) && Reached(s, RunOf(s, steps), c, e)
  {
    hide RunOk, RunOf, Nearest;
    RoundTripTo(s, c, true);
    var first := RoundTrip(c) + [Dispatch(c, Yield)];
    Then(s, RoundTrip(c), Dispatch(c, Yield), first, true);
    var t := RunOf(s, first);
    var rest := ReachFrom(t, c, e);
    Concat(s, first, rest, true);
    steps := first + rest;
  }

  /** A careful run is a run. */
  lemma {:induction false} Careless(s: State, steps: seq<Step>)
    requires RunOk(s, steps, true)
    ensures RunOk(s, steps, false)
    decreases |steps|
  {
    hide Takes, After, Careful;
    if steps != [] {
      Careless(After(s, steps[0]), steps[1..]);
    }
  }

  /** Setting the status of an environment that is current on another processor to RUNNABLE: the
      caller can yield to it, and it is current on both. */
  lemma ElsewhereRunsTwice(s: State, c: nat, e: nat) returns (steps: seq<Step>)
    requires Inv(s) && Takes(s, Dispatch(c, SetStatus(e, RUNNABLE))) && Elsewhere(s, c, e)
    ensures steps != [] && steps[0] == Dispatch(c, SetStatus(e, RUNNABLE)) && RunOk(s, steps, false) && !NeverShared(RunOf(s, steps))
  {
    hide RunOk, RunOf, Careful;
    var z := Dispatch(c, SetStatus(e, RUNNABLE));
    var d: nat :| d < |s.cpus| && d != c && s.cpus[d].cur == e;
    assert CpuOk(s, c) && CpuOk(s, d) && Apart(s, c, d);
    RunStart(s, false);
    Then(s, [], z, [z], false);
    var t := After(s, z);
    var rest := YieldTo(t, c, s.cpus[c].cur, e);
    Careless(t, rest);
    Concat(s, [z], rest, false);
    steps := [z] + rest;
    var u := RunOf(s, steps);
    assert u.cpus[c].cur == u.cpus[d].cur == e;
  }

  /** Destroying a dying environment again frees it under the processor it runs on: its slot can be
      forked anew, and the new environment is then current on both. */
  lemma DestroyTwiceRunsTwice(s: State, c: nat, e: nat) returns (steps: seq<Step>)
    requires Inv(s) && Takes(s, Dispatch(c, Destroy(e))) && StatusOf(s, e) == DYING
    ensures steps != [] && steps[0] == Dispatch(c, Destroy(e)) && RunOk(s, steps, false) && !NeverShared(RunOf(s, steps))
  {
    hide RunOk, RunOf, Careful;
    var g := s.cpus[c].cur;
    assert CpuOk(s, c) && SlotOk(s, e);
    var d: nat :| d < |s.cpus| && s.cpus[d].cur == e;
    assert d != c;
    var z := Dispatch(c, Destroy(e));
    RunStart(s, false);
    Then(s, [], z, [z], false);
    var t := After(s, z);
    var rest := ForkAnew(t, c, d, g, e);
    Concat(s, [z], rest, false);
    steps := [z] + rest;
  }

  /** A free slot that processor d still has current is forked anew and run. */
  lemma ForkAnew(s: State, c: nat, d: nat, g: int, e: nat) returns (steps: seq<Step>)
    requires Inside(s, c, Leaving, g) && StatusOf(s, g) == RUNNING && d < |s.cpus| && d != c && s.cpus[d].cur == e
    requires e < |s.envs| && s.envs[e].status == FREE
    ensures RunOk(s, steps, false) && !NeverShared(RunOf(s, steps))
  {
    hide RunOk, RunOf, Careful;
    var again := CallNext(s, c, g, Exofork(e));
    var t1 := RunOf(s, again);
    var third := CallNext(t1, c, g, SetStatus(e, RUNNABLE));
    Concat(s, again, third, false);
    var t2 := RunOf(t1, third);
    var rest := YieldTo(t2, c, g, e);
    Careless(t2, rest);
    Concat(s, again + third, rest, false);
    steps := again + third + rest;
    var u := RunOf(s, steps);
    assert u.cpus[c].cur == u.cpus[d].cur == e;
  }

  /** The next system call of c's environment. */
  lemma CallNext(s: State, c: nat, g: int, op: Op) returns (steps: seq<Step>)
    requires Inside(s, c, Leaving, g) && StatusOf(s, g) == RUNNING && Enabled(Again(s, c), c, op)
    ensures RunOk(s, steps, false) && RunOf(s, steps) == Perform(Again(s, c), c, op)
  {
    hide RunOk, RunOf, Perform;
    RoundTripTo(s, c, false);
    steps := RoundTrip(c) + [Dispatch(c, op)];
    Then(s, RoundTrip(c), Dispatch(c, op), steps, false);
  }

  /** An environment sets itself RUNNABLE while no other one is: it goes on running with that status. */
  lemma SelfRunnableStays(s: State, c: nat, e: nat) returns (steps: seq<Step>)
    requires Inside(s, c, Leaving, e) && s.envs[e].status == RUNNABLE && !OtherRunnable(s, e)
    ensures RunOk(s, steps, true)
    ensures var t := RunOf(s, steps); t == WithCpu(s, c, Unlocked(s.cpus[c].(pc := Unlocking(true)))).(locked := false)
  {
    hide RunOk, RunOf;
    RunStart(s, true);
    Then(s, [], Leave(c), [Leave(c)], true);
    assert After(s, Leave(c)).envs == s.envs;
    Then(s, [Leave(c)], Pick(c, e), [Leave(c), Pick(c, e)], true);
    steps := [Leave(c), Pick(c, e), Unlock(c)];
    Then(s, [Leave(c), Pick(c, e)], Unlock(c), steps, true);
    assert RunOf(s, steps).cpus == WithCpu(s, c, Unlocked(s.cpus[c].(pc := Unlocking(true)))).cpus;
  }

  /** From there an idle processor picks it as well. */
  lemma SelfRunnableRunsTwice(s: State, c: nat, d: nat, e: nat) returns (steps: seq<Step>)
    requires c < |s.cpus| && d < |s.cpus| && c != d && !s.locked && e < |s.envs| && s.envs[e].status == RUNNABLE
    requires s.cpus[c].pc == UserMode && s.cpus[c].cur == e && s.cpus[d].pc == Idle && s.cpus[d].halted && s.cpus[d].cur == NONE
    ensures RunOk(s, steps, true) && !NeverShared(RunOf(s, steps))
  {
    hide RunOk, RunOf;
    RunStart(s, true);
    Then(s, [], Trap(d), [Trap(d)], true);
    Then(s, [Trap(d)], Acquire(d), [Trap(d), Acquire(d)], true);
    var first := [Trap(d), Acquire(d), Dispatch(d, Yield)];
    Then(s, [Trap(d), Acquire(d)], Dispatch(d, Yield), first, true);
    var rest := ReachFrom(RunOf(s, first), d, e);
    Concat(s, first, rest, true);
    steps := first + rest;
    var u := RunOf(s, steps);
    assert u.cpus[c].cur == u.cpus[d].cur == e;
  }

  // The exact condition for the property itself

  /** All RUNNABLE environments but e can block themselves while e yields. */
  lemma {:induction false} BlockOthers(s: State, c: nat, e: nat) returns (steps: seq<Step>)
    requires Inside(s, c, Dispatching, e) && s.envs[e].status == RUNNING && s.envs[e].recving
    ensures RunOk(s, steps, true)
    ensures var t := RunOf(s, steps);
            Inside(t, c, Dispatching, e) && t.envs[e].status == RUNNING && t.envs[e].recving && !OtherRunnable(t, e)
    decreases |Busy(s, e)|
  {
    hide RunOk, RunOf, Nearest;
    RunStart(s, true);
    steps := [];
    if g: nat :| g < |s.envs| && g != e && s.envs[g].status == RUNNABLE {
      var z := Dispatch(c, Yield);
      Then(s, [], z, [z], true);
      var t := After(s, z);
      var f := SomeNearest(t, e, g);
      NearestRuns(t, e, f);
      var block := BlockNext(t, c, e, f);
      Concat(s, [z], block, true);
      var u := RunOf(t, block);
      var back := ReachFrom(u, c, e);
      Concat(s, [z] + block, back, true);
      var v := RunOf(u, back);
      var enter := EnterAgain(v, c, e);
      Concat(s, [z] + block + back, enter, true);
      var w := RunOf(v, enter);
      assert Busy(w, e) == Busy(v, e) && Busy(t, e) == Busy(s, e);
      FewerBusy(s, w, e, f);
      var rest := BlockOthers(w, c, e);
      Concat(s, [z] + block + back + enter, rest, true);
      steps := [z] + block + back + enter + rest;
    }
  }

  /** A waiting receiver made RUNNABLE runs while it still waits; alone, it can send to itself. */
  lemma WokenReceiverUnsafe(s: State, c: nat, g: int, e: nat) returns (steps: seq<Step>)
    requires Inside(s, c, Leaving, g) && StatusOf(s, g) == RUNNING && e < |s.envs| && s.envs[e].status == RUNNABLE && s.envs[e].recving
    ensures RunOk(s, steps, true) && !Safe(RunOf(s, steps))
  {
    hide RunOk, RunOf, Safe;
    var first := YieldTo(s, c, g, e);
    var t := RunOf(s, first);
    var second := EnterAgain(t, c, e);
    Concat(s, first, second, true);
    var t1 := RunOf(t, second);
    var third := BlockOthers(t1, c, e);
    Concat(s, first + second, third, true);
    var t2 := RunOf(t1, third);
    var fourth := SendSelf(t2, c, e);
    Concat(s, first + second + third, fourth, true);
    steps := first + second + third + fourth;
  }

  lemma SendSelf(s: State, c: nat, e: nat) returns (steps: seq<Step>)
    requires Inside(s, c, Dispatching, e) && s.envs[e].status == RUNNING && s.envs[e].recving && !OtherRunnable(s, e)
    ensures RunOk(s, steps, true) && !Safe(RunOf(s, steps))
  {
    hide RunOk, RunOf;
    var z := Dispatch(c, Send(e));
    RunStart(s, true);
    Then(s, [], z, [z], true);
    var t := After(s, z);
    assert forall f: nat :: f < |s.envs| && f != e ==> t.envs[f] == s.envs[f];
    var rest := SelfRunnableStays(t, c, e);
    Concat(s, [z], rest, true);
    steps := [z] + rest;
    NowUnsafe(RunOf(s, steps), c);
  }

  lemma NowUnsafe(t: State, d: nat)
    requires d < |t.cpus| && (t.cpus[d].pc.UserMode? || t.cpus[d].pc.LockUser?) && StatusOf(t, t.cpus[d].cur) !in {RUNNING, DYING}
    ensures !Safe(t)
  {
  }

  /** After a careless call the property fails, at once or at the end of a run that is careful from then on. */
  lemma CarelessUnsafe(s: State, c: nat, op: Op) returns (steps: seq<Step>)
    requires Inv(s) && Takes(s, Dispatch(c, op)) && !Careful(s, c, op)
    ensures LegalRun(After(s, Dispatch(c, op)), steps) && !Safe(RunOf(After(s, Dispatch(c, op)), steps))
  {
    hide Balanced, Safe, RunOk, RunOf;
    var t := After(s, Dispatch(c, op));
    assert CpuOk(s, c);
    RunStart(t, true);
    steps := [];
    if op.Destroy? {
      assert SlotOk(s, op.victim);
      var d: nat :| d < |s.cpus| && s.cpus[d].cur == op.victim;
      assert Apart(s, c, d) && CpuOk(s, d);
      NowUnsafe(t, d);
    } else {
      var e := op.who;
      if Elsewhere(s, c, e) {
        var d: nat :| d < |s.cpus| && d != c && s.cpus[d].cur == e;
        assert Apart(s, c, d) && CpuOk(s, d);
        NowUnsafe(t, d);
      } else if s.envs[e].recving {
        assert SlotOk(s, e);
        steps := WokenReceiverUnsafe(t, c, s.cpus[c].cur, e);
      } else {
        assert forall f: nat :: f < |s.envs| && f != e ==> t.envs[f] == s.envs[f];
        steps := SelfRunnableStays(t, c, e);
        NowUnsafe(RunOf(t, steps), c);
      }
    }
  }

  /** The exact condition: after a system call the kernel accepts, every careful run stays safe if and
      only if the call was careful. */
  lemma DispatchSafeIff(s: State, c: nat, op: Op)
    requires Inv(s) && Takes(s, Dispatch(c, op))
    ensures Careful(s, c, op) <==>
              forall steps :: LegalRun(After(s, Dispatch(c, op)), steps) ==> Safe(RunOf(After(s, Dispatch(c, op)), steps))
  {
    hide Inv, Takes, Careful, Safe, LegalRun, After;
    DispatchingCpu(s, c, op);
    var t := After(s, Dispatch(c, op));
    if Careful(s, c, op) {
      DispatchKeepsInvIff(s, c, op);
      forall steps | LegalRun(t, steps)
        ensures Safe(RunOf(t, steps))
      {
        RunKeepsInv(t, steps);
        InvSafe(RunOf(t, steps));
      }
    } else {
      var steps := CarelessUnsafe(s, c, op);
    }
  }

  // Nothing is stuck

  /** A waiting environment does not run before something is sent to it; the sender goes on, and the
      receiver can be next. */
  lemma ReceiverRuns(s: State, c: nat, g: int, e: nat) returns (steps: seq<Step>)
    requires Inside(s, c, Dispatching, g) && StatusOf(s, g) == RUNNING && e < |s.envs| && e != g
    requires s.envs[e].status == NOT_RUNNABLE && s.envs[e].recving
    ensures steps != [] && steps[0] == Dispatch(c, Send(e)) && RunOk(s, steps, true)
    ensures var t := RunOf(s, steps); Inside(t, c, Unlocking(true), e) && t.envs[e] == s.envs[e].(status := RUNNING, recving := false)
  {
    hide RunOk, RunOf;
    var z := Dispatch(c, Send(e));
    RunStart(s, true);
    Then(s, [], z, [z], true);
    var t := After(s, z);
    var rest := YieldTo(t, c, g, e);
    Concat(s, [z], rest, true);
    steps := [z] + rest;
  }

  /** sys_ipc_recv leaves its caller waiting and out of the scheduler's sight, until a send or a status
      change. */
  lemma RecvWaits(s: State, c: nat, e: nat, d: nat)
    requires Inv(s) && Takes(s, Dispatch(c, Recv)) && s.cpus[c].cur == e && e < |s.envs|
    ensures var t := After(s, Dispatch(c, Recv));
            && t.envs[e] == s.envs[e].(status := NOT_RUNNABLE, recving := true) && t.cpus[c].pc == Yielding
            && !Takes(t, Pick(d, e))
  {
  }

  /** From every reachable state some processor can move, unless one is in the scheduler with nothing
      left to run anywhere: then sched_halt has dropped into the monitor. */
  lemma SomeoneMoves(s: State)
    requires Inv(s) && s.cpus != []
    requires forall c: nat :: c < |s.cpus| && s.cpus[c].pc == Yielding ==> OtherRunnable(s, NONE) || SomeRunning(s)
    ensures exists step :: Legal(s, step)
  {
    hide Inv;
    if LockHeld(s) {
      var c: nat :| c < |s.cpus| && Holds(s.cpus[c].pc);
      InsideMoves(s, c);
    } else {
      NotLocked(s);
      var cpu := s.cpus[0];
      if Spins(cpu.pc) {
        assert Legal(s, Acquire(0));
      } else {
        assert Legal(s, Trap(0));
      }
    }
  }

  lemma NotLocked(s: State)
    requires Inv(s) && !LockHeld(s)
    ensures !s.locked && forall c: nat :: c < |s.cpus| ==> !Holds(s.cpus[c].pc)
  {
  }

  lemma InsideMoves(s: State, c: nat)
    requires Inv(s) && c < |s.cpus| && Holds(s.cpus[c].pc)
    requires s.cpus[c].pc == Yielding ==> OtherRunnable(s, NONE) || SomeRunning(s)
    ensures exists step :: Legal(s, step)
  {
    assert CpuOk(s, c);
    hide Inv, Nearest;
    var cpu := s.cpus[c];
    match cpu.pc {
      case Entered => assert Legal(s, Collect(c));
      case Dispatching => assert Legal(s, Dispatch(c, Nothing));
      case Leaving => assert Legal(s, Leave(c));
      case Unlocking(_) => assert Legal(s, Unlock(c));
      case Yielding =>
        if OtherRunnable(s, NONE) {
          var f: nat :| f < |s.envs| && f != NONE && s.envs[f].status == RUNNABLE;
          var e := SomeNearest(s, cpu.cur, f);
          NearestRuns(s, cpu.cur, e);
          assert Legal(s, Pick(c, e));
        } else if StatusOf(s, cpu.cur) == RUNNING {
          assert !OtherRunnable(s, cpu.cur);
          assert Legal(s, Pick(c, cpu.cur));
        } else {
          assert Legal(s, Halt(c));
        }
    }
  }

  /** Destroying an environment ends it: at once, or, if another processor runs it, as soon as that one
      enters the kernel; until then it is marked, and nobody picks it. */
  lemma DestroyEnds(s: State, c: nat, e: nat, d: nat)
    requires Inv(s) && Takes(s, Dispatch(c, Destroy(e))) && Careful(s, c, Destroy(e))
    ensures var t := After(s, Dispatch(c, Destroy(e)));
            && StatusOf(t, e) == (if Elsewhere(s, c, e) && StatusOf(s, e) == RUNNING then DYING else FREE)
            && !Takes(t, Pick(d, e)) && (forall f: nat :: f < |s.envs| && f != e ==> t.envs[f] == s.envs[f])
  {
    assert CpuOk(s, c) && SlotOk(s, e);
    if StatusOf(s, e) == RUNNING && s.cpus[c].cur != e {
      var b: nat :| b < |s.cpus| && s.cpus[b].cur == e;
      assert Elsewhere(s, c, e);
    }
    if Elsewhere(s, c, e) {
      var b: nat :| b < |s.cpus| && b != c && s.cpus[b].cur == e;
      assert Apart(s, c, b);
    }
  }

  lemma DyingFreed(s: State, c: nat)
    requires Inv(s) && Takes(s, Collect(c)) && StatusOf(s, s.cpus[c].cur) == DYING
    ensures var t := After(s, Collect(c)); StatusOf(t, s.cpus[c].cur) == FREE && t.cpus[c].cur == NONE && t.cpus[c].pc == Yielding
  {
  }
}
