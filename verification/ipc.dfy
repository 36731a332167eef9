/** Message passing over whole runs: sys_ipc_recv, sys_ipc_try_send and ipc_recv's reading of the result. */
module Ipc {
  import opened Environments
  import K = Kernel

  datatype Message = Message(value: nat, from: int, perm: bv12)

  /** What one environment's life has seen so far: the messages a sender was told were sent, the
      messages ipc_recv returned, and whether it is inside sys_ipc_recv. */
  datatype Log = Log(sent: seq<Message>, got: seq<Message>, inRecv: bool)

  datatype State = State(envs: seq<K.Env>, logs: seq<Log>)

  datatype Step =
    | Recv(e: nat, dstva: nat)
    | TrySend(s: nat, e: nat, value: nat, perm: bv12)
    | Return(e: nat)
    | Schedule(e: nat, status: Status)
    | SetStatus(e: nat, status: Status)
    | Create(e: nat, id: int, parent: int)
    | Destroy(e: nat)

  function Held(env: K.Env): Message {
    Message(env.value, env.from, env.perm)
  }

  function With(s: State, e: nat, env: K.Env, log: Log): State
    requires e < |s.envs| == |s.logs|
  {
    State(s.envs[e := env], s.logs[e := log])
  }

  /** The environments a step works for. */
  predicate Inside(s: State, step: Step) {
    && |s.envs| == |s.logs| && step.e < |s.envs|
    && (step.TrySend? ==> step.s < |s.envs|)
  }

  function After(s: State, step: Step): State
    requires Inside(s, step)
  {
    var env, log := s.envs[step.e], s.logs[step.e];
    match step
    case Recv(e, dstva) =>
      if dstva < K.UTOP && dstva % K.PGSIZE != 0 then s
      else With(s, e, K.Waiting(env, dstva), log.(inRecv := true))
    case TrySend(sender, e, value, perm) =>
      if !env.recving then s
      else
        var from := s.envs[sender].envId;
        With(s, e, K.Delivered(env, value, from, perm), log.(sent := log.sent + [Message(value, from, perm)]))
    case Return(e) => With(s, e, env, log.(got := log.got + [Held(env)], inRecv := false))
    case Schedule(e, status) => With(s, e, env.(status := status), log)
    case SetStatus(e, status) => With(s, e, env.(status := status), log)
    case Create(e, id, parent) =>
      With(s, e, env.(envId := id, parentId := parent, status := NOT_RUNNABLE, recving := false), Log([], [], false))
    case Destroy(e) => With(s, e, env.(status := FREE), log)
  }

  predicate Takes(s: State, step: Step) {
    && Inside(s, step)
    && var env := s.envs[step.e];
       match step
       case Recv(e, _) => env.status == RUNNING && !s.logs[e].inRecv
       case TrySend(sender, _, _, _) => s.envs[sender].status == RUNNING && !s.logs[sender].inRecv && env.status != FREE
       case Return(e) => env.status == RUNNING && s.logs[e].inRecv
       case Schedule(_, status) => (env.status == RUNNABLE && status == RUNNING) || (env.status == RUNNING && status == RUNNABLE)
       case SetStatus(_, status) => env.status != FREE && (status == RUNNABLE || status == NOT_RUNNABLE)
       case Create(_, _, _) => env.status == FREE
       case Destroy(_) => env.status != FREE
  }

  /** One environment: outside sys_ipc_recv everything sent has been received; inside, either it still
      waits, or its fields hold the one message that has been sent and not yet received. */
  predicate EnvOk(env: K.Env, log: Log) {
    if env.status == FREE then true
    else if !log.inRecv then !env.recving && log.got == log.sent
    else if env.recving then env.status == NOT_RUNNABLE && log.got == log.sent
    else log.sent == log.got + [Held(env)]
  }

  ghost predicate Inv(s: State) {
    && |s.envs| == |s.logs|
    && forall e: nat :: e < |s.envs| ==> EnvOk(s.envs[e], s.logs[e])
  }

  /** The one step the kernel allows that can break delivery: waking a waiting receiver by status. */
  predicate Wakes(s: State, step: Step)
    requires Inside(s, step)
  {
    step.SetStatus? && step.status == RUNNABLE && s.envs[step.e].recving
  }

  lemma StepKeepsInvIff(s: State, step: Step)
    requires Inv(s) && Takes(s, step)
    ensures Inv(After(s, step)) <==> !Wakes(s, step)
  {
    var t, e := After(s, step), step.e;
    assert EnvOk(s.envs[e], s.logs[e]);
    forall f: nat | f < |s.envs| && f != e
      ensures EnvOk(t.envs[f], t.logs[f])
    {
      assert EnvOk(s.envs[f], s.logs[f]);
    }
    if Wakes(s, step) {
      assert !EnvOk(t.envs[e], t.logs[e]);
    } else {
      assert EnvOk(t.envs[e], t.logs[e]);
    }
  }

  function RunOf(s: State, steps: seq<Step>): State
    requires LegalRun(s, steps)
    decreases |steps|
  {
    if steps == [] then s else RunOf(After(s, steps[0]), steps[1..])
  }

  predicate LegalRun(s: State, steps: seq<Step>)
    decreases |steps|
  {
    steps != [] ==> Takes(s, steps[0]) && !Wakes(s, steps[0]) && LegalRun(After(s, steps[0]), steps[1..])
  }

  lemma {:induction false} RunKeepsInv(s: State, steps: seq<Step>)
    requires Inv(s) && LegalRun(s, steps)
    ensures Inv(RunOf(s, steps))
    decreases |steps|
  {
    hide Inv;
    if steps != [] {
      StepKeepsInvIff(s, steps[0]);
      RunKeepsInv(After(s, steps[0]), steps[1..]);
    }
  }

  /** What environment e received is, in order and without loss, repetition or overwriting, what was
      sent to it, at most one message behind; and the next ipc_recv to return does so with exactly that
      message. */
  ghost predicate Delivered(t: State, e: nat) {
    e < |t.envs| == |t.logs| && t.envs[e].status != FREE ==>
      var log := t.logs[e];
      && log.got <= log.sent && |log.sent| <= |log.got| + 1
      && (Takes(t, Return(e)) ==> After(t, Return(e)).logs[e].got == log.sent)
      && (|log.sent| == |log.got| + 1 ==> forall x, v, p :: Takes(t, TrySend(x, e, v, p)) ==> After(t, TrySend(x, e, v, p)) == t)
  }

  lemma InvDelivered(t: State, e: nat)
    requires Inv(t)
    ensures Delivered(t, e)
  {
    if e < |t.envs| {
      assert EnvOk(t.envs[e], t.logs[e]);
    }
  }

  /** Every run from a table without live environments in which nobody wakes a waiting receiver. */
  lemma DeliveredExactlyOnce(s: State, steps: seq<Step>, e: nat)
    requires |s.envs| == |s.logs| && (forall f: nat :: f < |s.envs| ==> s.envs[f].status == FREE)
    requires LegalRun(s, steps)
    ensures Delivered(RunOf(s, steps), e)
  {
    hide LegalRun, Delivered;
    RunKeepsInv(s, steps);
    InvDelivered(RunOf(s, steps), e);
  }

  /** The two steps a woken receiver takes next. */
  function Onwards(e: nat): seq<Step> { [Schedule(e, RUNNING), Return(e)] }

  /** Woken by a status change, every receiver returns what its fields happen to hold, a message nobody
      has sent since it last received one. */
  lemma WokenReceiverMisreads(s: State, e: nat)
    requires Inv(s) && Takes(s, SetStatus(e, RUNNABLE)) && Wakes(s, SetStatus(e, RUNNABLE))
    ensures var s1 := After(s, SetStatus(e, RUNNABLE));
            && LegalRun(s1, Onwards(e))
            && var t := RunOf(s1, Onwards(e));
            && |t.envs| == |t.logs| == |s.envs| && t.envs[e].status != FREE
            && t.logs[e].sent == s.logs[e].sent && t.logs[e].got == s.logs[e].sent + [Held(s.envs[e])]
            && !Delivered(t, e)
  {
    assert EnvOk(s.envs[e], s.logs[e]);
    var s1 := After(s, SetStatus(e, RUNNABLE));
    var s2 := After(s1, Schedule(e, RUNNING));
    var s3 := After(s2, Return(e));
    assert Onwards(e)[1..] == [Return(e)] && [Return(e)][1..] == [];
    assert LegalRun(s3, []) && LegalRun(s2, [Return(e)]);
    assert RunOf(s2, [Return(e)]) == s3;
  }

  /** A receiver woken right after it started to wait returns its previous message a second time. */
  lemma WokenReceiverRepeats(s: State, e: nat, dstva: nat)
    requires Inv(s) && Takes(s, Recv(e, dstva)) && (dstva >= K.UTOP || dstva % K.PGSIZE == 0)
    requires s.logs[e].sent != [] && s.logs[e].sent[|s.logs[e].sent| - 1] == Held(s.envs[e])
    ensures var s1 := After(s, Recv(e, dstva));
            && Takes(s1, SetStatus(e, RUNNABLE))
            && var s2 := After(s1, SetStatus(e, RUNNABLE));
            && LegalRun(s2, Onwards(e))
            && var t := RunOf(s2, Onwards(e));
            && |t.logs| == |s.logs| && t.logs[e].sent == s.logs[e].sent
            && t.logs[e].got == s.logs[e].sent + [s.logs[e].sent[|s.logs[e].sent| - 1]]
  {
    hide RunOf, LegalRun, Delivered;
    var s1 := After(s, Recv(e, dstva));
    StepKeepsInvIff(s, Recv(e, dstva));
    WokenReceiverMisreads(s1, e);
  }

  /** The exact condition: a step the kernel takes wakes no waiting receiver if and only if delivery is
      exactly once in every run after it. */
  lemma DeliveryIff(s: State, step: Step)
    requires Inv(s) && Takes(s, step)
    ensures !Wakes(s, step) <==>
              forall steps, e: nat :: LegalRun(After(s, step), steps) ==> Delivered(RunOf(After(s, step), steps), e)
  {
    hide Inv, RunOf, LegalRun, Delivered;
    var t := After(s, step);
    StepKeepsInvIff(s, step);
    if Wakes(s, step) {
      WokenReceiverMisreads(s, step.e);
    } else {
      forall steps, e: nat | LegalRun(t, steps)
        ensures Delivered(RunOf(t, steps), e)
      {
        RunKeepsInv(t, steps);
        InvDelivered(RunOf(t, steps), e);
      }
    }
  }

  /** A send that finds its receiver waiting: the receiver can run next, and returns exactly that message. */
  lemma SentIsReturned(s: State, x: nat, e: nat, value: nat, perm: bv12)
    requires Inv(s) && Takes(s, TrySend(x, e, value, perm)) && s.envs[e].recving
    ensures var s1 := After(s, TrySend(x, e, value, perm));
            && LegalRun(s1, Onwards(e))
            && var t := RunOf(s1, Onwards(e));
            && |t.logs| == |s.logs| && !t.logs[e].inRecv
            && t.logs[e].got == s.logs[e].got + [Message(value, s.envs[x].envId, perm)]
  {
    assert EnvOk(s.envs[e], s.logs[e]);
    var s1 := After(s, TrySend(x, e, value, perm));
    var s2 := After(s1, Schedule(e, RUNNING));
    var s3 := After(s2, Return(e));
    assert Onwards(e)[1..] == [Return(e)] && [Return(e)][1..] == [];
    assert LegalRun(s3, []) && LegalRun(s2, [Return(e)]);
    assert RunOf(s2, [Return(e)]) == s3;
  }

  /** A receive and then a send by any other running environment: the message arrives, and only then
      does the receiver go on. */
  lemma Exchange(s: State, x: nat, e: nat, dstva: nat, value: nat, perm: bv12)
    requires Inv(s) && Takes(s, Recv(e, dstva)) && (dstva >= K.UTOP || dstva % K.PGSIZE == 0)
    requires Takes(s, TrySend(x, e, value, perm)) && x != e
    ensures var s1 := After(s, Recv(e, dstva));
            && (forall status :: !Takes(s1, Schedule(e, status))) && !Takes(s1, Return(e))
            && Takes(s1, TrySend(x, e, value, perm))
            && var s2 := After(s1, TrySend(x, e, value, perm));
            && LegalRun(s2, Onwards(e))
            && var t := RunOf(s2, Onwards(e));
            |t.logs| == |s.logs| && t.logs[e].got == s.logs[e].got + [Message(value, s.envs[x].envId, perm)]
  {
    hide RunOf, LegalRun;
    StepKeepsInvIff(s, Recv(e, dstva));
    SentIsReturned(After(s, Recv(e, dstva)), x, e, value, perm);
  }
}
