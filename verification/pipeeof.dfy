/** The end-of-file test of lib/pipe.c: reference counts of the descriptor pages of a pipe, over
    every interleaving of the system calls that dup, close, exit and fork make on one processor. */
module PipeEof {
  const WORD: nat := 0x1_0000_0000
  const MAXFD: nat := 32

  /** The pages that matter: the two descriptor pages of one pipe, its data page, and all others. */
  datatype Page = ReadEnd | WriteEnd | Pipe | Other(id: nat)

  /** Descriptor number num of an environment, with one descriptor page and one data page. */
  datatype Slot = Slot(env: nat, num: nat)

  /** Where an environment is in close, dup, fork or _pipeisclosed: before which system call or load.
      An environment that does not exist yet is Unborn; Growing is a child its parent is still forking. */
  datatype Stage =
    | Rest
    | CloseFd(num: nat, next: Stage)          // devpipe_close: unmap the descriptor page
    | CloseData(num: nat, next: Stage)        // devpipe_close: unmap the data page
    | CloseAgain(num: nat, next: Stage)       // fd_close: unmap the descriptor page
    | DupData(src: nat, dst: nat)
    | DupFd(src: nat, dst: nat)
    | UndoFd(num: nat)
    | UndoData(num: nat)
    | Unborn
    | Growing(parent: nat)
    | ForkFd(child: nat, num: nat)            // fork: all descriptor pages, by number,
    | ForkData(child: nat, num: nat)          // then all data pages
    | LoadRuns(num: nat)
    | RefFd(num: nat, runs: nat, since: nat)
    | RefPipe(num: nat, runs: nat, since: nat, a: nat)
    | LoadAgain(num: nat, runs: nat, since: nat, a: nat, b: nat)

  /** since in a stage counts the context switches back to the environment after it loaded env_runs. */
  datatype State = State(fd: map<Slot, Page>, data: map<Slot, Page>, stages: seq<Stage>, cur: nat, runs: seq<nat>)

  datatype Step =
    | StartClose(num: nat)
    | StartDup(src: nat, dst: nat)
    | StartCheck(num: nat)
    | StartFork(child: nat)
    | Go(mapped: bool)                        // the next call of cur; mapped: sys_page_map finds memory
    | Switch(e: nat)
    | Destroy(e: nat)

  predicate IsEnd(p: Page) { p == ReadEnd || p == WriteEnd }

  function PageAt(m: map<Slot, Page>, x: Slot): Page {
    if x in m then m[x] else Other(0)
  }

  /** pageref: how many mappings name a page. */
  function Refs(m: map<Slot, Page>, p: Page): nat {
    |Naming(m, p)|
  }

  function Naming(m: map<Slot, Page>, p: Page): set<Slot> {
    set x | x in m && m[x] == p
  }

  function Without(m: map<Slot, Page>, e: nat): map<Slot, Page> {
    map x | x in m && x.env != e :: m[x]
  }

  /** An environment that is not scheduled. */
  predicate Dormant(stage: Stage) { stage.Unborn? || stage.Growing? }

  /** dst becomes what src is: mapped to the same page, or not mapped. */
  function Copy(m: map<Slot, Page>, src: Slot, dst: Slot): map<Slot, Page> {
    if src in m then m[dst := m[src]] else m
  }

  predicate Fits(s: State) {
    |s.stages| == |s.runs| && s.cur < |s.stages|
  }

  function At(s: State, stage: Stage): State
    requires Fits(s)
  {
    s.(stages := s.stages[s.cur := stage])
  }

  /** close(num), then next.  A device other than a pipe has no data page of its own to unmap. */
  function Closing(s: State, num: nat, next: Stage): Stage {
    var x := Slot(s.cur, num);
    if x !in s.fd then next else if IsEnd(s.fd[x]) then CloseFd(num, next) else CloseAgain(num, next)
  }

  /** A context switch counts a run of the environment switched to, which its check may notice. */
  function Noticed(stage: Stage): Stage {
    match stage
    case RefFd(num, n, since) => RefFd(num, n, since + 1)
    case RefPipe(num, n, since, a) => RefPipe(num, n, since + 1, a)
    case LoadAgain(num, n, since, a, b) => LoadAgain(num, n, since + 1, a, b)
    case _ => stage
  }

  function Proceed(s: State, mapped: bool): State
    requires Fits(s)
  {
    var e := s.cur;
    match s.stages[e]
    case Rest => s
    case CloseFd(i, next) => At(s.(fd := s.fd - {Slot(e, i)}), CloseData(i, next))
    case CloseData(i, next) => At(s.(data := s.data - {Slot(e, i)}), CloseAgain(i, next))
    case CloseAgain(i, next) => At(s.(fd := s.fd - {Slot(e, i)}), next)
    case DupData(src, dst) =>
      if Slot(e, src) !in s.data then At(s, DupFd(src, dst))
      else if mapped then At(s.(data := s.data[Slot(e, dst) := s.data[Slot(e, src)]]), DupFd(src, dst))
      else At(s, UndoFd(dst))
    case DupFd(src, dst) =>
      if mapped && Slot(e, src) in s.fd then At(s.(fd := s.fd[Slot(e, dst) := s.fd[Slot(e, src)]]), Rest)
      else At(s, UndoFd(dst))
    case UndoFd(i) => At(s.(fd := s.fd - {Slot(e, i)}), UndoData(i))
    case UndoData(i) => At(s.(data := s.data - {Slot(e, i)}), Rest)
    case Unborn => s
    case Growing(_) => s
    case ForkFd(c, i) =>
      if i >= MAXFD then At(s, ForkData(c, 0))
      else if mapped then At(s.(fd := Copy(s.fd, Slot(e, i), Slot(c, i))), ForkFd(c, i + 1))
      else s
    case ForkData(c, i) =>
      if i >= MAXFD then (if c < |s.stages| then At(s.(stages := s.stages[c := Rest]), Rest) else s)
      else if mapped then At(s.(data := Copy(s.data, Slot(e, i), Slot(c, i))), ForkData(c, i + 1))
      else s
    case LoadRuns(i) => At(s, RefFd(i, s.runs[e], 0))
    case RefFd(i, n, since) => At(s, RefPipe(i, n, since, Refs(s.fd, PageAt(s.fd, Slot(e, i)))))
    case RefPipe(i, n, since, a) => At(s, LoadAgain(i, n, since, a, Refs(s.data, PageAt(s.data, Slot(e, i)))))
    case LoadAgain(i, n, since, a, b) => At(s, if s.runs[e] == n then Rest else LoadRuns(i))
  }

  function After(s: State, step: Step): (t: State)
    requires Fits(s)
    ensures Fits(t) && |t.stages| == |s.stages|
  {
    var resting := s.stages[s.cur] == Rest;
    match step
    case StartClose(i) => if resting then At(s, Closing(s, i, Rest)) else s
    case StartDup(src, dst) => if resting && Slot(s.cur, src) in s.fd then At(s, Closing(s, dst, DupData(src, dst))) else s
    case StartCheck(i) => if resting && IsEnd(PageAt(s.fd, Slot(s.cur, i))) then At(s, LoadRuns(i)) else s
    case StartFork(c) =>
      if resting && c < |s.stages| && s.stages[c] == Unborn && (forall x :: x in s.fd.Keys + s.data.Keys ==> x.env != c) then
        At(s.(stages := s.stages[c := Growing(s.cur)]), ForkFd(c, 0))
      else s
    case Go(mapped) => Proceed(s, mapped)
    case Switch(e) =>
      if e < |s.stages| && e != s.cur && !Dormant(s.stages[e]) then
        s.(cur := e, runs := s.runs[e := (s.runs[e] + 1) % WORD], stages := s.stages[e := Noticed(s.stages[e])])
      else s
    case Destroy(e) =>
      if e < |s.stages| && (resting || e == s.cur) && !Dormant(s.stages[e]) then
        s.(fd := Without(s.fd, e), data := Without(s.data, e), stages := s.stages[e := Rest])
      else s
  }

  // The invariant

  /** The slot whose data page an environment holds without a descriptor page for the moment. */
  predicate Exempt(stage: Stage, num: nat) {
    match stage
    case CloseData(i, _) => i == num
    case DupFd(_, i) => i == num
    case UndoFd(i) => i == num
    case UndoData(i) => i == num
    case _ => false
  }

  /** Every descriptor page of the pipe comes with its data page, except in a child still being forked,
      and outside a close or dup in progress every data page comes with a descriptor page. */
  ghost predicate SlotOk(s: State, x: Slot) {
    && (x in s.fd && IsEnd(s.fd[x]) ==> (x in s.data && s.data[x] == Pipe) || (x.env < |s.stages| && s.stages[x.env].Growing?))
    && (x in s.data && s.data[x] == Pipe ==>
          (x in s.fd && IsEnd(s.fd[x])) || (x.env < |s.stages| && Exempt(s.stages[x.env], x.num)))
  }

  /** After a close, only resting or the rest of a dup to the slot just closed. */
  predicate NextOk(num: nat, next: Stage) {
    next == Rest || (next.DupData? && next.dst == num)
  }

  predicate Alike(m: map<Slot, Page>, x: Slot, y: Slot) {
    (x in m <==> y in m) && PageAt(m, x) == PageAt(m, y)
  }

  /** The child c of a fork by e has e's first n descriptor pages and first k data pages, and no others. */
  ghost predicate ForkOk(s: State, e: nat, c: nat, n: nat, k: nat) {
    && c < |s.stages| && c != e && s.stages[c] == Growing(e)
    && (forall i: nat :: i < n ==> Alike(s.fd, Slot(c, i), Slot(e, i)))
    && (forall i: nat :: i < k ==> Alike(s.data, Slot(c, i), Slot(e, i)))
    && (forall i: nat :: i >= n ==> Slot(c, i) !in s.fd)
    && (forall i: nat :: i >= k ==> Slot(c, i) !in s.data)
  }

  ghost predicate StageOk(s: State, e: nat)
    requires Fits(s) && e < |s.stages|
  {
    match s.stages[e]
    case CloseFd(i, next) => NextOk(i, next)
    case CloseData(i, next) => NextOk(i, next) && Slot(e, i) !in s.fd
    case CloseAgain(i, next) => NextOk(i, next) && !IsEnd(PageAt(s.fd, Slot(e, i)))
    case DupData(_, i) => Slot(e, i) !in s.fd
    case DupFd(src, i) => Slot(e, i) !in s.fd && (IsEnd(PageAt(s.fd, Slot(e, src))) <==> PageAt(s.data, Slot(e, i)) == Pipe)
    case UndoFd(i) => Slot(e, i) !in s.fd
    case UndoData(i) => Slot(e, i) !in s.fd
    case Rest => true
    case Unborn => true
    case Growing(_) => true
    case ForkFd(c, n) => n <= MAXFD && ForkOk(s, e, c, n, 0)
    case ForkData(c, k) => k <= MAXFD && ForkOk(s, e, c, MAXFD, k)
    case stage => IsEnd(PageAt(s.fd, Slot(e, stage.num)))
  }

  /** While no switch back has been counted, what a check read is still true. */
  ghost predicate CheckOk(s: State, e: nat)
    requires Fits(s) && e < |s.stages|
  {
    match s.stages[e]
    case RefFd(_, n, since) => s.runs[e] == (n + since) % WORD && n < WORD && since < WORD
    case RefPipe(i, n, since, a) =>
      && s.runs[e] == (n + since) % WORD && n < WORD && since < WORD
      && (since == 0 && s.cur == e ==> a == Refs(s.fd, PageAt(s.fd, Slot(e, i))))
    case LoadAgain(i, n, since, a, b) =>
      && s.runs[e] == (n + since) % WORD && n < WORD && since < WORD
      && (since == 0 && s.cur == e ==>
            a == Refs(s.fd, PageAt(s.fd, Slot(e, i))) && b == Refs(s.data, PageAt(s.data, Slot(e, i))))
    case _ => s.runs[e] < WORD
  }

  ghost predicate Inv(s: State) {
    && Fits(s)
    && (forall x :: SlotOk(s, x))
    && (forall e: nat :: e < |s.stages| ==> StageOk(s, e) && CheckOk(s, e))
  }

  // Every step keeps it

  ghost predicate SameSlots(s: State, t: State, e: nat) {
    forall i: nat ::
      && (Slot(e, i) in t.fd <==> Slot(e, i) in s.fd) && PageAt(t.fd, Slot(e, i)) == PageAt(s.fd, Slot(e, i))
      && (Slot(e, i) in t.data <==> Slot(e, i) in s.data) && PageAt(t.data, Slot(e, i)) == PageAt(s.data, Slot(e, i))
  }

  predicate Forks(stage: Stage) { stage.ForkFd? || stage.ForkData? }

  /** Other environments' stages depend on nothing a step of cur changes. */
  lemma OthersKept(s: State, t: State, e: nat)
    requires Inv(s) && Fits(t) && |t.stages| == |s.stages| && e < |s.stages| && e != s.cur && t.cur == s.cur
    requires t.stages[e] == s.stages[e] && t.runs[e] == s.runs[e] && SameSlots(s, t, e)
    requires Forks(s.stages[e]) ==>
               var c := s.stages[e].child; SameSlots(s, t, c) && (c < |s.stages| ==> t.stages[c] == s.stages[c])
    ensures StageOk(t, e) && CheckOk(t, e)
  {
    hide SlotOk, Refs;
    assert StageOk(s, e) && CheckOk(s, e);
    if Forks(s.stages[e]) {
      var c := s.stages[e].child;
      var n := if s.stages[e].ForkFd? then s.stages[e].num else MAXFD;
      var k := if s.stages[e].ForkFd? then 0 else s.stages[e].num;
      ForkKept(s, t, e, c, n, k);
    }
  }

  lemma ForkKept(s: State, t: State, e: nat, c: nat, n: nat, k: nat)
    requires ForkOk(s, e, c, n, k) && |t.stages| == |s.stages| && t.stages[c] == s.stages[c]
    requires SameSlots(s, t, e) && SameSlots(s, t, c)
    ensures ForkOk(t, e, c, n, k)
  {
    forall i: nat | i < n
      ensures Alike(t.fd, Slot(c, i), Slot(e, i))
    {
      assert Alike(s.fd, Slot(c, i), Slot(e, i));
    }
    forall i: nat | i < k
      ensures Alike(t.data, Slot(c, i), Slot(e, i))
    {
      assert Alike(s.data, Slot(c, i), Slot(e, i));
    }
  }

  lemma GoKeepsSlots(s: State, mapped: bool, x: Slot)
    requires Inv(s)
    ensures SlotOk(Proceed(s, mapped), x)
  {
    hide Refs, CheckOk;
    var e := s.cur;
    assert SlotOk(s, x) && StageOk(s, e);
    match s.stages[e]
    case DupData(src, dst) => assert SlotOk(s, Slot(e, src)) && SlotOk(s, Slot(e, dst));
    case DupFd(src, dst) => assert SlotOk(s, Slot(e, src)) && SlotOk(s, Slot(e, dst));
    case ForkFd(c, i) => ForkSlots(s, mapped, x, c);
    case ForkData(c, i) => ForkSlots(s, mapped, x, c);
    case _ =>
  }

  /** A fork step changes slots of the child only, and gives it what the parent has. */
  lemma ForkSlots(s: State, mapped: bool, x: Slot, c: nat)
    requires Inv(s) && Forks(s.stages[s.cur]) && s.stages[s.cur].child == c
    ensures SlotOk(Proceed(s, mapped), x)
  {
    hide Refs, CheckOk;
    var e := s.cur;
    var y := Slot(e, x.num);
    assert SlotOk(s, x) && StageOk(s, e) && SlotOk(s, y);
    if x.env == c && s.stages[e].ForkData? {
      if x.num < MAXFD {
        assert Alike(s.fd, Slot(c, x.num), Slot(e, x.num));
        if s.stages[e].num >= MAXFD {
          assert Alike(s.data, Slot(c, x.num), Slot(e, x.num));
        }
      } else {
        assert Slot(c, x.num) !in s.fd;
      }
    }
  }

  lemma GoKeepsStage(s: State, mapped: bool)
    requires Inv(s)
    ensures StageOk(Proceed(s, mapped), s.cur)
  {
    hide Refs, CheckOk;
    var e := s.cur;
    assert StageOk(s, e);
    match s.stages[e]
    case DupData(src, dst) => assert SlotOk(s, Slot(e, src)) && SlotOk(s, Slot(e, dst));
    case ForkFd(c, i) => ForkStage(s, mapped, c);
    case ForkData(c, i) => ForkStage(s, mapped, c);
    case _ =>
  }

  lemma ForkStage(s: State, mapped: bool, c: nat)
    requires Inv(s) && Forks(s.stages[s.cur]) && s.stages[s.cur].child == c
    ensures StageOk(Proceed(s, mapped), s.cur)
  {
    hide Refs, CheckOk, SlotOk;
    var e := s.cur;
    var t := Proceed(s, mapped);
    assert StageOk(s, e);
    var n := if s.stages[e].ForkFd? then s.stages[e].num else MAXFD;
    var k := if s.stages[e].ForkFd? then 0 else s.stages[e].num;
    if t.stages[e].ForkFd? || t.stages[e].ForkData? {
      forall i: nat | i < n || (i == n && t.stages[e] == ForkFd(c, n + 1))
        ensures Alike(t.fd, Slot(c, i), Slot(e, i))
      {
        assert i < n ==> Alike(s.fd, Slot(c, i), Slot(e, i));
      }
      forall i: nat | i < k || (i == k && t.stages[e] == ForkData(c, k + 1))
        ensures Alike(t.data, Slot(c, i), Slot(e, i))
      {
        assert i < k ==> Alike(s.data, Slot(c, i), Slot(e, i));
      }
    }
  }

  lemma GoKeepsCheck(s: State, mapped: bool)
    requires Inv(s)
    ensures CheckOk(Proceed(s, mapped), s.cur)
  {
    hide Refs, SlotOk;
    assert CheckOk(s, s.cur) && StageOk(s, s.cur);
    assert s.runs[s.cur] < WORD && s.runs[s.cur] % WORD == s.runs[s.cur];
  }

  /** A step of cur leaves every environment alone but itself and the child it is forking. */
  lemma GoSpares(s: State, mapped: bool, f: nat)
    requires Inv(s) && f < |s.stages| && f != s.cur && s.stages[f] != Growing(s.cur)
    ensures SameSlots(s, Proceed(s, mapped), f) && Proceed(s, mapped).stages[f] == s.stages[f]
  {
    hide Refs, SlotOk, CheckOk, StageOk, ForkOk;
    ForkChild(s);
  }

  lemma ForkChild(s: State)
    requires Inv(s)
    ensures var stage := s.stages[s.cur]; Forks(stage) ==> stage.child < |s.stages| && s.stages[stage.child] == Growing(s.cur)
  {
    hide SlotOk, CheckOk;
    assert StageOk(s, s.cur);
  }

  /** What happens to the child meanwhile. */
  lemma GoGrows(s: State, mapped: bool, f: nat)
    requires Inv(s) && f < |s.stages| && f != s.cur && s.stages[f] == Growing(s.cur)
    ensures Proceed(s, mapped).stages[f] == Rest || Proceed(s, mapped).stages[f] == Growing(s.cur)
  {
    hide Refs, SlotOk, CheckOk, ForkOk;
  }

  lemma GoKeepsOther(s: State, mapped: bool, e: nat)
    requires Inv(s) && e < |s.stages| && e != s.cur
    ensures StageOk(Proceed(s, mapped), e) && CheckOk(Proceed(s, mapped), e)
  {
    hide SlotOk, Refs, IsEnd, SameSlots, ForkOk;
    var t := Proceed(s, mapped);
    assert CheckOk(s, e) && StageOk(s, e);
    GoShape(s, mapped);
    if Dormant(s.stages[s.cur]) {
      assert t == s;
    } else if s.stages[e] == Growing(s.cur) {
      GoGrows(s, mapped, e);
    } else {
      GoSpares(s, mapped, e);
      if Forks(s.stages[e]) {
        ForkedChild(s, e);
        GoSpares(s, mapped, s.stages[e].child);
      }
      OthersKept(s, t, e);
    }
  }

  lemma GoShape(s: State, mapped: bool)
    requires Fits(s)
    ensures var t := Proceed(s, mapped); Fits(t) && |t.stages| == |s.stages| && t.cur == s.cur && t.runs == s.runs
  {
    hide Refs;
  }

  lemma ForkedChild(s: State, e: nat)
    requires Inv(s) && e < |s.stages| && Forks(s.stages[e]) && e != s.cur
    ensures var c := s.stages[e].child;
            c < |s.stages| && c != e && s.stages[c] == Growing(e) && (c == s.cur ==> s.stages[s.cur] == Growing(e))
  {
    hide SlotOk, CheckOk, Alike;
    assert StageOk(s, e);
  }

  lemma GoKeepsInv(s: State, mapped: bool)
    requires Inv(s)
    ensures Inv(Proceed(s, mapped))
  {
    hide SlotOk, StageOk, CheckOk, Refs, IsEnd, Proceed;
    var t := Proceed(s, mapped);
    GoShape(s, mapped);
    forall x
      ensures SlotOk(t, x)
    {
      GoKeepsSlots(s, mapped, x);
    }
    forall e: nat | e < |s.stages|
      ensures StageOk(t, e) && CheckOk(t, e)
    {
      if e == s.cur {
        GoKeepsStage(s, mapped);
        GoKeepsCheck(s, mapped);
      } else {
        GoKeepsOther(s, mapped, e);
      }
    }
  }

  lemma StartKeepsInv(s: State, step: Step)
    requires Inv(s) && (step.StartClose? || step.StartDup? || step.StartCheck?)
    ensures Inv(After(s, step))
  {
    hide Refs, Alike;
    var t := After(s, step);
    forall x
      ensures SlotOk(t, x)
    {
      assert SlotOk(s, x);
    }
    forall e: nat | e < |s.stages|
      ensures StageOk(t, e) && CheckOk(t, e)
    {
      assert StageOk(s, e) && CheckOk(s, e);
    }
  }

  lemma StartForkKeepsInv(s: State, c: nat)
    requires Inv(s)
    ensures Inv(After(s, StartFork(c)))
  {
    hide Refs, Alike;
    var t := After(s, StartFork(c));
    forall x
      ensures SlotOk(t, x)
    {
      assert SlotOk(s, x);
    }
    forall e: nat | e < |s.stages|
      ensures StageOk(t, e) && CheckOk(t, e)
    {
      assert StageOk(s, e) && CheckOk(s, e);
      assert forall i: nat :: t != s ==> Slot(c, i) !in s.fd.Keys + s.data.Keys;
    }
  }

  lemma SwitchKeepsInv(s: State, e: nat)
    requires Inv(s) && Patient(s, Switch(e))
    ensures Inv(After(s, Switch(e)))
  {
    hide Refs;
    var t := After(s, Switch(e));
    forall x
      ensures SlotOk(t, x)
    {
      assert SlotOk(s, x);
    }
    hide StageOk, CheckOk;
    forall f: nat | f < |s.stages|
      ensures StageOk(t, f) && CheckOk(t, f)
    {
      assert StageOk(s, f) && CheckOk(s, f);
      SwitchStage(s, e, f);
      SwitchCheck(s, e, f);
    }
  }

  lemma SwitchStage(s: State, e: nat, f: nat)
    requires Fits(s) && f < |s.stages| && StageOk(s, f)
    ensures StageOk(After(s, Switch(e)), f)
  {
    hide Refs;
  }

  lemma SwitchCheck(s: State, e: nat, f: nat)
    requires Fits(s) && f < |s.stages| && CheckOk(s, f) && Patient(s, Switch(e))
    ensures CheckOk(After(s, Switch(e)), f)
  {
    hide Refs;
    if f == e && f != s.cur {
      WrapStep(s.stages[e], s.runs[e]);
    }
  }

  lemma WrapStep(stage: Stage, runs: nat)
    requires (stage.RefFd? || stage.RefPipe? || stage.LoadAgain?) ==> runs == (stage.runs + stage.since) % WORD
    ensures (stage.RefFd? || stage.RefPipe? || stage.LoadAgain?) ==> (runs + 1) % WORD == (stage.runs + (stage.since + 1)) % WORD
  {
  }

  lemma DestroyKeepsInv(s: State, e: nat)
    requires Inv(s)
    ensures Inv(After(s, Destroy(e)))
  {
    hide Refs;
    var t := After(s, Destroy(e));
    forall x
      ensures SlotOk(t, x)
    {
      assert SlotOk(s, x);
    }
    forall f: nat | f < |s.stages|
      ensures StageOk(t, f) && CheckOk(t, f)
    {
      assert StageOk(s, f) && CheckOk(s, f);
      if f == s.cur || f == e {
      } else if t != s {
        OthersKept(s, t, f);
      }
    }
  }

  /** A check is never overtaken by a whole cycle of the 32-bit run counter. */
  predicate Patient(s: State, step: Step) {
    step.Switch? && step.e < |s.stages| && (s.stages[step.e].RefFd? || s.stages[step.e].RefPipe? || s.stages[step.e].LoadAgain?) ==>
      s.stages[step.e].since + 1 < WORD
  }

  lemma StepKeepsInv(s: State, step: Step)
    requires Inv(s) && Patient(s, step)
    ensures Inv(After(s, step))
  {
    hide Inv, Patient;
    match step
    case Go(mapped) => GoKeepsInv(s, mapped);
    case Switch(e) => SwitchKeepsInv(s, e);
    case Destroy(e) => DestroyKeepsInv(s, e);
    case StartFork(c) => StartForkKeepsInv(s, c);
    case _ => StartKeepsInv(s, step);
  }

  // What the counts say

  /** Descriptor pages of the pipe without its data page, and data pages without such a descriptor page. */
  function Half(s: State): set<Slot> {
    set x | x in s.fd && IsEnd(s.fd[x]) && PageAt(s.data, x) != Pipe
  }

  function Lone(s: State): set<Slot> {
    set x | x in s.data && s.data[x] == Pipe && !IsEnd(PageAt(s.fd, x))
  }

  lemma Parts(whole: set<Slot>, a: set<Slot>, b: set<Slot>)
    requires forall x :: x in whole <==> x in a || x in b
    requires forall x :: !(x in a && x in b)
    ensures |whole| == |a| + |b|
  {
    assert whole == a + b;
    assert a !! b;
  }

  /** In every state the counts differ by exactly the slots that are half mapped, one way or the other. */
  lemma PipeBalance(s: State)
    ensures Refs(s.data, Pipe) + |Half(s)| == Refs(s.fd, ReadEnd) + Refs(s.fd, WriteEnd) + |Lone(s)|
  {
    var ends := set x | x in s.fd && IsEnd(s.fd[x]);
    var both := set x | x in s.fd && IsEnd(s.fd[x]) && PageAt(s.data, x) == Pipe;
    Parts(ends, Naming(s.fd, ReadEnd), Naming(s.fd, WriteEnd));
    Parts(ends, both, Half(s));
    Parts(Naming(s.data, Pipe), both, Lone(s));
  }

  /** No child is half way through being forked. */
  ghost predicate NoFork(s: State) {
    forall e: nat :: e < |s.stages| ==> !s.stages[e].Growing?
  }

  /** After every system call outside a fork: the pipe page is mapped at least as often as both its ends together. */
  lemma PipeOutnumbersEnds(s: State)
    requires Inv(s) && NoFork(s)
    ensures Half(s) == {} && Refs(s.data, Pipe) >= Refs(s.fd, ReadEnd) + Refs(s.fd, WriteEnd)
  {
    hide StageOk, CheckOk, Refs;
    PipeBalance(s);
    forall x
      ensures x !in Half(s)
    {
      assert SlotOk(s, x);
    }
  }

  /** Nobody is in the middle of close, dup or fork. */
  ghost predicate Quiescent(s: State) {
    NoFork(s) && forall e: nat, i: nat :: e < |s.stages| ==> !Exempt(s.stages[e], i)
  }

  /** Then the counts are equal. */
  lemma QuiescentCounts(s: State)
    requires Inv(s) && Quiescent(s)
    ensures Lone(s) == {} && Refs(s.data, Pipe) == Refs(s.fd, ReadEnd) + Refs(s.fd, WriteEnd)
  {
    hide StageOk, CheckOk, Refs;
    PipeBalance(s);
    PipeOutnumbersEnds(s);
    forall x
      ensures x !in Lone(s)
    {
      assert SlotOk(s, x);
    }
  }

  function OtherEnd(p: Page): Page {
    if p == ReadEnd then WriteEnd else ReadEnd
  }

  function RunOf(s: State, steps: seq<Step>): State
    requires Fits(s)
    decreases |steps|
  {
    if steps == [] then s else RunOf(After(s, steps[0]), steps[1..])
  }

  predicate PatientRun(s: State, steps: seq<Step>)
    requires Fits(s)
    decreases |steps|
  {
    steps != [] ==> Patient(s, steps[0]) && PatientRun(After(s, steps[0]), steps[1..])
  }

  lemma {:induction false} RunKeepsInv(s: State, steps: seq<Step>)
    requires Inv(s) && PatientRun(s, steps)
    ensures Inv(RunOf(s, steps))
    decreases |steps|
  {
    hide SlotOk, StageOk, CheckOk, Patient, After;
    if steps != [] {
      StepKeepsInv(s, steps[0]);
      RunKeepsInv(After(s, steps[0]), steps[1..]);
    }
  }

  /** _pipeisclosed is about to return ret to the current environment for its descriptor num. */
  predicate Returns(s: State, num: nat, ret: bool) {
    && Fits(s)
    && var stage := s.stages[s.cur];
       stage.LoadAgain? && stage.num == num && s.runs[s.cur] == stage.runs && ret == (stage.a == stage.b)
  }

  ghost predicate Exists(s: State, p: Page) {
    exists x :: x in s.fd && s.fd[x] == p
  }

  lemma ExistsIff(s: State, p: Page)
    ensures Exists(s, p) <==> Refs(s.fd, p) > 0
  {
    if Refs(s.fd, p) > 0 {
      var x :| x in Naming(s.fd, p);
    } else {
      assert Naming(s.fd, p) == {};
      forall x | x in s.fd
        ensures s.fd[x] != p
      {
        assert x !in Naming(s.fd, p);
      }
    }
  }

  /** Over every run of dup, close, exit and fork in any number of environments, what _pipeisclosed
      returns, exactly. */
  lemma ClosedExactly(s: State, steps: seq<Step>, num: nat, ret: bool)
    requires Inv(s) && PatientRun(s, steps) && Returns(RunOf(s, steps), num, ret)
    ensures var t := RunOf(s, steps);
            var mine := PageAt(t.fd, Slot(t.cur, num));
            IsEnd(mine) && Inv(t) && (ret <==> Refs(t.fd, OtherEnd(mine)) + |Lone(t)| == |Half(t)|)
  {
    hide Refs, After, ForkOk;
    var t := RunOf(s, steps);
    RunKeepsInv(s, steps);
    var e := t.cur;
    var x := Slot(e, num);
    assert StageOk(t, e) && CheckOk(t, e) && SlotOk(t, x);
    NoWrap(t.stages[e].runs, t.stages[e].since);
    PipeBalance(t);
  }

  /** A true answer is wrong if and only if the descriptor pages of the other end are made up for by
      half-mapped slots of children being forked; so it is right whenever no fork is half way, and in
      quiescent states a false answer is right too. */
  lemma ClosedIsRight(s: State, steps: seq<Step>, num: nat, ret: bool)
    requires Inv(s) && PatientRun(s, steps) && Returns(RunOf(s, steps), num, ret)
    ensures var t := RunOf(s, steps);
            var other := OtherEnd(PageAt(t.fd, Slot(t.cur, num)));
            && (ret && Exists(t, other) <==> Refs(t.fd, other) > 0 && Refs(t.fd, other) + |Lone(t)| == |Half(t)|)
            && (ret && NoFork(t) ==> !Exists(t, other))
            && (!ret && Quiescent(t) ==> Exists(t, other))
  {
    hide SlotOk, StageOk, CheckOk, Refs, After, PatientRun, RunOf, Half, Lone, NoFork, Exists;
    ClosedExactly(s, steps, num, ret);
    var t := RunOf(s, steps);
    ExistsIff(t, OtherEnd(PageAt(t.fd, Slot(t.cur, num))));
    if NoFork(t) {
      PipeOutnumbersEnds(t);
    }
    if Quiescent(t) {
      QuiescentCounts(t);
    }
  }

  lemma NoWrap(n: nat, since: nat)
    requires n < WORD && since < WORD && (n + since) % WORD == n
    ensures since == 0
  {
  }

  // A run in which it is wrong

  /** Environment 0 holds both ends and environment 2 the read end, twice over; environment 1 is to be forked. */
  function Start(stage0: Stage, stage1: Stage, stage2: Stage, cur: nat, run2: nat, grown: bool): State {
    var fd := map[Slot(0, 0) := ReadEnd, Slot(0, 1) := WriteEnd, Slot(2, 0) := ReadEnd];
    State(if grown then fd[Slot(1, 0) := ReadEnd] else fd,
          map[Slot(0, 0) := Pipe, Slot(0, 1) := Pipe, Slot(2, 0) := Pipe], [stage0, stage1, stage2], cur, [0, 0, run2])
  }

  lemma StartPaired()
    ensures Inv(Start(Rest, Unborn, Rest, 0, 0, false))
  {
    hide Refs;
  }

  lemma RunStep(s: State, step: Step, u: State, rest: seq<Step>, steps: seq<Step>)
    requires Fits(s) && After(s, step) == u && steps == [step] + rest && Patient(s, step) && PatientRun(u, rest)
    ensures RunOf(s, steps) == RunOf(u, rest) && PatientRun(s, steps)
  {
    hide After, Patient;
    assert steps[1..] == rest;
  }

  /** One descriptor page mapped into the child, and a reader elsewhere finds as many read ends as pipe
      pages, although the write end is open. */
  lemma ForkMisleads()
    ensures var s := Start(Rest, Unborn, Rest, 0, 0, false);
            var steps := [StartFork(1), Go(true), Switch(2), StartCheck(0), Go(true), Go(true), Go(true)];
            Inv(s) && PatientRun(s, steps) && Returns(RunOf(s, steps), 0, true) && Exists(RunOf(s, steps), WriteEnd)
  {
    hide Refs, After, Inv, Patient;
    StartPaired();
    var f0, f1 := ForkFd(1, 0), ForkFd(1, 1);
    var s := Start(Rest, Unborn, Rest, 0, 0, false);
    var s1 := Start(f0, Growing(0), Rest, 0, 0, false);
    var s2 := Start(f1, Growing(0), Rest, 0, 0, true);
    var s3 := Start(f1, Growing(0), Rest, 2, 1, true);
    var s4 := Start(f1, Growing(0), LoadRuns(0), 2, 1, true);
    var s5 := Start(f1, Growing(0), RefFd(0, 1, 0), 2, 1, true);
    var s6 := Start(f1, Growing(0), RefPipe(0, 1, 0, 3), 2, 1, true);
    var s7 := Start(f1, Growing(0), LoadAgain(0, 1, 0, 3, 3), 2, 1, true);
    ForkBegins();
    ForkMapsOne();
    NoSwitchPatient(s, StartFork(1));
    NoSwitchPatient(s1, Go(true));
    NoSwitchPatient(s2, Switch(2));
    CheckBegins();
    CheckRun(s3, s4, s5, s6, s7);
    RunStep(s2, Switch(2), s3, [StartCheck(0), Go(true), Go(true), Go(true)],
            [Switch(2), StartCheck(0), Go(true), Go(true), Go(true)]);
    RunStep(s1, Go(true), s2, [Switch(2), StartCheck(0), Go(true), Go(true), Go(true)],
            [Go(true), Switch(2), StartCheck(0), Go(true), Go(true), Go(true)]);
    RunStep(s, StartFork(1), s1, [Go(true), Switch(2), StartCheck(0), Go(true), Go(true), Go(true)],
            [StartFork(1), Go(true), Switch(2), StartCheck(0), Go(true), Go(true), Go(true)]);
    assert RunOf(s7, []) == s7 && s7.fd[Slot(0, 1)] == WriteEnd;
  }

  /** The check, all of it in one turn. */
  lemma CheckRun(s3: State, s4: State, s5: State, s6: State, s7: State)
    requires s3 == Start(ForkFd(1, 1), Growing(0), Rest, 2, 1, true)
    requires s4 == Start(ForkFd(1, 1), Growing(0), LoadRuns(0), 2, 1, true)
    requires s5 == Start(ForkFd(1, 1), Growing(0), RefFd(0, 1, 0), 2, 1, true)
    requires s6 == Start(ForkFd(1, 1), Growing(0), RefPipe(0, 1, 0, 3), 2, 1, true)
    requires s7 == Start(ForkFd(1, 1), Growing(0), LoadAgain(0, 1, 0, 3, 3), 2, 1, true)
    ensures var steps := [StartCheck(0), Go(true), Go(true), Go(true)];
            Fits(s3) && PatientRun(s3, steps) && RunOf(s3, steps) == s7
  {
    hide Refs, After, Patient;
    CheckBegins();
    CheckReads();
    NoSwitchPatient(s3, StartCheck(0));
    NoSwitchPatient(s4, Go(true));
    NoSwitchPatient(s5, Go(true));
    NoSwitchPatient(s6, Go(true));
    RunStep(s6, Go(true), s7, [], [Go(true)]);
    RunStep(s5, Go(true), s6, [Go(true)], [Go(true), Go(true)]);
    RunStep(s4, Go(true), s5, [Go(true), Go(true)], [Go(true), Go(true), Go(true)]);
    RunStep(s3, StartCheck(0), s4, [Go(true), Go(true), Go(true)], [StartCheck(0), Go(true), Go(true), Go(true)]);
  }

  lemma ForkBegins()
    ensures After(Start(Rest, Unborn, Rest, 0, 0, false), StartFork(1)) == Start(ForkFd(1, 0), Growing(0), Rest, 0, 0, false)
  {
  }

  lemma ForkMapsOne()
    ensures After(Start(ForkFd(1, 0), Growing(0), Rest, 0, 0, false), Go(true)) == Start(ForkFd(1, 1), Growing(0), Rest, 0, 0, true)
  {
  }

  lemma CheckBegins()
    ensures After(Start(ForkFd(1, 1), Growing(0), Rest, 0, 0, true), Switch(2)) == Start(ForkFd(1, 1), Growing(0), Rest, 2, 1, true)
    ensures After(Start(ForkFd(1, 1), Growing(0), Rest, 2, 1, true), StartCheck(0))
            == Start(ForkFd(1, 1), Growing(0), LoadRuns(0), 2, 1, true)
    ensures After(Start(ForkFd(1, 1), Growing(0), LoadRuns(0), 2, 1, true), Go(true))
            == Start(ForkFd(1, 1), Growing(0), RefFd(0, 1, 0), 2, 1, true)
  {
    hide Refs;
  }

  lemma CheckCounts(s: State)
    requires s.fd == Start(Rest, Rest, Rest, 0, 0, true).fd && s.data == Start(Rest, Rest, Rest, 0, 0, true).data
    ensures Refs(s.fd, ReadEnd) == 3 && Refs(s.data, Pipe) == 3
  {
    assert Naming(s.fd, ReadEnd) == {Slot(0, 0), Slot(1, 0), Slot(2, 0)};
    assert Naming(s.data, Pipe) == {Slot(0, 0), Slot(0, 1), Slot(2, 0)};
  }

  lemma CheckReads()
    ensures After(Start(ForkFd(1, 1), Growing(0), RefFd(0, 1, 0), 2, 1, true), Go(true))
            == Start(ForkFd(1, 1), Growing(0), RefPipe(0, 1, 0, 3), 2, 1, true)
    ensures After(Start(ForkFd(1, 1), Growing(0), RefPipe(0, 1, 0, 3), 2, 1, true), Go(true))
            == Start(ForkFd(1, 1), Growing(0), LoadAgain(0, 1, 0, 3, 3), 2, 1, true)
  {
    hide Refs;
    CheckCounts(Start(ForkFd(1, 1), Growing(0), RefFd(0, 1, 0), 2, 1, true));
    CheckCounts(Start(ForkFd(1, 1), Growing(0), RefPipe(0, 1, 0, 3), 2, 1, true));
  }

  lemma NoSwitchPatient(s: State, step: Step)
    requires step.Switch? ==> Fits(s) && |s.stages| == 3 && s.stages[2] == Rest && step.e == 2
    ensures Patient(s, step)
  {
  }

  // What the calls achieve when nothing comes between

  /** After k more system calls of the current environment, each successful. */
  function Gone(s: State, k: nat): (t: State)
    requires Fits(s)
    ensures Fits(t) && |t.stages| == |s.stages|
  {
    if k == 0 then s else After(Gone(s, k - 1), Go(true))
  }

  /** Between two states of cur's pages nothing differs but slot i. */
  ghost predicate OnlySlot(s: State, t: State, i: nat) {
    && t.cur == s.cur && (forall x :: x != Slot(s.cur, i) ==> (x in t.fd <==> x in s.fd) && (x in t.data <==> x in s.data))
    && (forall x :: x != Slot(s.cur, i) ==> PageAt(t.fd, x) == PageAt(s.fd, x) && PageAt(t.data, x) == PageAt(s.data, x))
  }

  /** close: the descriptor page goes, and with a pipe its data page. */
  lemma CloseUnmaps(s: State, i: nat)
    requires Fits(s) && s.stages[s.cur] == Rest && Slot(s.cur, i) in s.fd
    ensures var t := Gone(After(s, StartClose(i)), if IsEnd(s.fd[Slot(s.cur, i)]) then 3 else 1);
            && t.stages[t.cur] == Rest && OnlySlot(s, t, i) && Slot(s.cur, i) !in t.fd
            && (IsEnd(s.fd[Slot(s.cur, i)]) ==> Slot(s.cur, i) !in t.data)
  {
    var a := After(s, StartClose(i));
    var b := After(a, Go(true));
    assert Gone(a, 1) == b;
    if IsEnd(s.fd[Slot(s.cur, i)]) {
      var c := After(b, Go(true));
      assert Gone(a, 2) == c;
      assert Gone(a, 3) == After(c, Go(true));
    }
  }

  /** dup onto a closed number: the same descriptor page and, if there is one, the same data page. */
  lemma DupMaps(s: State, src: nat, dst: nat)
    requires Fits(s) && s.stages[s.cur] == Rest && Slot(s.cur, src) in s.fd && Slot(s.cur, dst) !in s.fd && src != dst
    ensures var t := Gone(After(s, StartDup(src, dst)), 2);
            && t.stages[t.cur] == Rest && OnlySlot(s, t, dst)
            && Slot(s.cur, dst) in t.fd && t.fd[Slot(s.cur, dst)] == s.fd[Slot(s.cur, src)]
            && (Slot(s.cur, src) in s.data ==> Slot(s.cur, dst) in t.data && t.data[Slot(s.cur, dst)] == s.data[Slot(s.cur, src)])
  {
    var a := After(s, StartDup(src, dst));
    var b := After(a, Go(true));
    assert Gone(a, 1) == b;
    assert Gone(a, 2) == After(b, Go(true));
  }

  /** _pipeisclosed answers at once, by the counts as they are. */
  lemma CheckReturns(s: State, num: nat)
    requires Fits(s) && s.stages[s.cur] == Rest && IsEnd(PageAt(s.fd, Slot(s.cur, num)))
    ensures var t := Gone(After(s, StartCheck(num)), 3);
            && Returns(t, num, Refs(s.fd, PageAt(s.fd, Slot(s.cur, num))) == Refs(s.data, PageAt(s.data, Slot(s.cur, num))))
            && t.fd == s.fd && t.data == s.data
  {
    hide Refs;
    var a := After(s, StartCheck(num));
    var b := After(a, Go(true));
    assert Gone(a, 1) == b;
    var c := After(b, Go(true));
    assert Gone(a, 2) == c;
    assert Gone(a, 3) == After(c, Go(true));
  }

  lemma InvStands(s: State)
    requires Inv(s)
    ensures Fits(s) && SameSlots(s, s, s.cur)
  {
  }

  lemma SameThrough(s: State, t: State, u: State, e: nat)
    requires SameSlots(s, t, e) && SameSlots(t, u, e)
    ensures SameSlots(s, u, e)
  {
  }

  /** One page further in fork's loop. */
  lemma ForkMoves(s: State, c: nat)
    requires Inv(s) && Forks(s.stages[s.cur]) && s.stages[s.cur].child == c && s.stages[s.cur].num < MAXFD
    ensures var t := After(s, Go(true));
            && t.cur == s.cur && |t.stages| == |s.stages| && SameSlots(s, t, s.cur) && Patient(s, Go(true))
            && t.stages[t.cur] == (var n := s.stages[s.cur].num + 1; if s.stages[s.cur].ForkFd? then ForkFd(c, n) else ForkData(c, n))
  {
    ForkChildApart(s, c);
    hide Inv, Refs;
  }

  lemma {:induction false} ForkFds(s: State, c: nat, k: nat)
    requires Inv(s) && s.stages[s.cur] == ForkFd(c, 0) && k <= MAXFD
    ensures var t := Gone(s, k);
            Inv(t) && t.cur == s.cur && t.stages[t.cur] == ForkFd(c, k) && SameSlots(s, t, s.cur) && |t.stages| == |s.stages|
    decreases k
  {
    hide Inv, After, SameSlots;
    InvStands(s);
    if k > 0 {
      ForkFds(s, c, k - 1);
      var t := Gone(s, k - 1);
      ForkMoves(t, c);
      StepKeepsInv(t, Go(true));
      SameThrough(s, t, Gone(s, k), s.cur);
    }
  }

  lemma ForkChildApart(s: State, c: nat)
    requires Inv(s) && Forks(s.stages[s.cur]) && s.stages[s.cur].child == c
    ensures c < |s.stages| && c != s.cur
  {
    hide SlotOk, CheckOk;
    assert StageOk(s, s.cur);
  }

  lemma {:induction false} ForkPages(s: State, c: nat, k: nat)
    requires Inv(s) && s.stages[s.cur] == ForkData(c, 0) && k <= MAXFD
    ensures var t := Gone(s, k);
            Inv(t) && t.cur == s.cur && t.stages[t.cur] == ForkData(c, k) && SameSlots(s, t, s.cur) && |t.stages| == |s.stages|
    decreases k
  {
    hide Inv, After, SameSlots;
    InvStands(s);
    if k > 0 {
      ForkPages(s, c, k - 1);
      var t := Gone(s, k - 1);
      ForkMoves(t, c);
      StepKeepsInv(t, Go(true));
      SameThrough(s, t, Gone(s, k), s.cur);
    }
  }

  /** fork: when it is through, the child has all the parent's descriptors, and the parent still has them. */
  lemma ForkCopies(s: State, c: nat)
    requires Inv(s) && s.stages[s.cur] == ForkFd(c, 0)
    ensures var a := After(Gone(s, MAXFD), Go(true));
            var t := After(Gone(a, MAXFD), Go(true));
            && t.cur == s.cur && c < |t.stages| && t.stages[t.cur] == Rest && t.stages[c] == Rest && SameSlots(s, t, s.cur)
            && forall i: nat :: i < MAXFD ==> Alike(t.fd, Slot(c, i), Slot(s.cur, i)) && Alike(t.data, Slot(c, i), Slot(s.cur, i))
  {
    hide SlotOk, CheckOk, Refs, Gone, Alike;
    ForkFds(s, c, MAXFD);
    var b := Gone(s, MAXFD);
    StepKeepsInv(b, Go(true));
    var a := After(b, Go(true));
    ForkPages(a, c, MAXFD);
    var d := Gone(a, MAXFD);
    assert StageOk(d, d.cur);
    assert ForkOk(d, d.cur, c, MAXFD, MAXFD);
  }

  /** exit: nothing of the environment's is mapped any more, and nothing else has changed. */
  lemma ExitUnmaps(s: State, e: nat)
    requires Fits(s) && e < |s.stages| && (s.stages[s.cur] == Rest || e == s.cur) && !Dormant(s.stages[e])
    ensures var t := After(s, Destroy(e));
            && t.stages[e] == Rest && (forall x: Slot :: x.env == e ==> x !in t.fd && x !in t.data)
            && forall x: Slot :: x.env != e ==> SameAt(s, t, x)
  {
  }

  predicate SameAt(s: State, t: State, x: Slot) {
    && (x in t.fd <==> x in s.fd) && PageAt(t.fd, x) == PageAt(s.fd, x)
    && (x in t.data <==> x in s.data) && PageAt(t.data, x) == PageAt(s.data, x)
  }
}
