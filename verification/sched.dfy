/** Round-robin scheduling on one processor: kern/sched.c and env_run in kern/env.c. */
module Scheduler {
  import opened Environments

  const NULL: int := -1
  const WORD: nat := 0x1_0000_0000

  /** How many slots a scan that starts just after cur looks at until it reaches e; NULL scans from 0. */
  function Distance(cur: int, e: int): int {
    if e > cur then e - cur else e - cur + NENV
  }

  /** The slot the scan examines in round i; the masking comes after the first round. */
  function ScanSlot(start: nat, i: nat): nat {
    if i == 0 then start else (start + i) % NENV
  }

  lemma ScanSlotForm(start: nat, i: nat)
    requires start < NENV && i < NENV
    ensures ScanSlot(start, i) == if start + i < NENV then start + i else start + i - NENV
  {
  }

  ghost predicate Examined(start: nat, k: nat) {
    exists i: nat :: i < NENV && ScanSlot(start, i) == k
  }

  /** One scan examines every slot exactly once if and only if it starts inside the table. */
  lemma ScanOnceIff(start: nat)
    requires start <= NENV
    ensures start < NENV <==> forall k: nat :: k < NENV ==> Examined(start, k)
    ensures start < NENV ==> forall i: nat, j: nat :: i < j < NENV ==> ScanSlot(start, i) != ScanSlot(start, j)
  {
    if start < NENV {
      forall k: nat | k < NENV
        ensures Examined(start, k)
      {
        var i := if k >= start then k - start else k + NENV - start;
        ScanSlotForm(start, i);
      }
      forall i: nat, j: nat | i < j < NENV
        ensures ScanSlot(start, i) != ScanSlot(start, j)
      {
        ScanSlotForm(start, i);
        ScanSlotForm(start, j);
      }
    } else {
      forall i: nat | i < NENV
        ensures ScanSlot(start, i) != 0
      {
        assert i > 0 ==> (NENV + i) % NENV == i;
      }
      assert !Examined(start, 0);
    }
  }

  /** The environment a scan finds is the RUNNABLE one nearest after cur in circular order. */
  ghost predicate Nearest(status: seq<Status>, cur: int, e: int) {
    && 0 <= e < |status| && status[e] == RUNNABLE
    && forall k: nat :: k < |status| && status[k] == RUNNABLE ==> Distance(cur, e) <= Distance(cur, k)
  }

  /** The first i rounds of a scan met nothing RUNNABLE. */
  ghost predicate Missed(status: seq<Status>, start: nat, i: nat)
    requires |status| == NENV
  {
    forall k: nat :: k < i ==> status[ScanSlot(start, k) % NENV] != RUNNABLE
  }

  lemma NextScan(start: nat, i: nat)
    requires start < NENV && i < NENV
    ensures ScanSlot(start, i) < NENV && ScanSlot(start, i + 1) % NENV == (ScanSlot(start, i) + 1) % NENV
  {
    ScanSlotForm(start, i);
    var next := start + i + 1;
    assert next < 2 * NENV;
    assert next % NENV == if next < NENV then next else next - NENV;
  }

  /** One more round without finding anything. */
  lemma MissedStep(status: seq<Status>, start: nat, i: nat)
    requires |status| == NENV && start < NENV && i < NENV && Missed(status, start, i) && status[ScanSlot(start, i) % NENV] != RUNNABLE
    ensures Missed(status, start, i + 1) && ScanSlot(start, i + 1) % NENV == (ScanSlot(start, i) + 1) % NENV
    ensures ScanSlot(start, i) < NENV
  {
    hide ScanSlot;
    NextScan(start, i);
  }

  lemma MissedStart(status: seq<Status>, start: nat)
    requires |status| == NENV && start < NENV
    ensures Missed(status, start, 0) && start == ScanSlot(start, 0) % NENV
  {
  }

  lemma NearestFound(status: seq<Status>, cur: int, start: nat, i: nat)
    requires |status| == NENV && NULL <= cur < NENV - 1 && start == cur + 1 && i < NENV
    requires status[ScanSlot(start, i) % NENV] == RUNNABLE
    requires Missed(status, start, i)
    ensures Nearest(status, cur, ScanSlot(start, i) % NENV)
  {
    ScanSlotForm(start, i);
    forall k: nat | k < NENV && status[k] == RUNNABLE
      ensures Distance(cur, ScanSlot(start, i) % NENV) <= Distance(cur, k)
    {
      ScanSlotForm(start, Distance(cur, k) - 1);
      assert ScanSlot(start, Distance(cur, k) - 1) == k;
    }
  }

  lemma NoneFound(status: seq<Status>, start: nat)
    requires |status| == NENV && start < NENV
    requires Missed(status, start, NENV)
    ensures RUNNABLE !in status
  {
    forall k: nat | k < NENV
      ensures status[k] != RUNNABLE
    {
      var i := if k >= start then k - start else k + NENV - start;
      ScanSlotForm(start, i);
    }
  }

  class Processor {
    var status: seq<Status>
    var runs: seq<nat>              // env_runs, 32 bits
    var cur: int
    var halted: bool

    ghost predicate Ok()
      reads this
    {
      && |status| == |runs| == NENV && NULL <= cur < NENV
      && (forall i: nat :: i < NENV ==> runs[i] < WORD)
      && (cur != NULL ==> status[cur] != FREE)
    }

    /** env_run: only a change of environment touches statuses and counts a run. */
    method EnvRun(e: nat)
      requires Ok() && e < NENV && status[e] != FREE
      modifies this`status, this`runs, this`cur
      ensures Ok() && cur == e
      ensures e == old(cur) ==> status == old(status) && runs == old(runs)
      ensures e != old(cur) ==> status[e] == RUNNING && runs[e] == (old(runs)[e] + 1) % WORD
      ensures forall i: nat :: i < NENV && i != e ==>
                && runs[i] == old(runs)[i]
                && status[i] == if i == old(cur) && old(status)[i] == RUNNING then RUNNABLE else old(status)[i]
    {
      if cur != e {
        if cur != NULL {
          if status[cur] == RUNNING {
            status := status[cur := RUNNABLE];
          }
        }
        cur := e;
        status := status[cur := RUNNING];
        runs := runs[cur := (runs[cur] + 1) % WORD];
      }
    }

    /** sched_yield: the nearest RUNNABLE environment, else the current one if it still runs, else halt. */
    method SchedYield()
      requires Ok() && !halted && cur != NENV - 1
      modifies this
      ensures Ok() && (halted <==> cur == NULL)
      ensures RUNNABLE in old(status) ==> Nearest(old(status), old(cur), cur)
      ensures RUNNABLE in old(status) && cur != old(cur) ==>
                && status[cur] == RUNNING && runs == old(runs)[cur := (old(runs)[cur] + 1) % WORD]
                && (old(cur) != NULL ==> status[old(cur)] == if old(status)[old(cur)] == RUNNING then RUNNABLE else old(status)[old(cur)])
      ensures cur == old(cur) ==> status == old(status) && runs == old(runs)
      ensures RUNNABLE !in old(status) ==>
                && status == old(status) && runs == old(runs)
                && cur == if old(cur) != NULL && old(status)[old(cur)] == RUNNING then old(cur) else NULL
      ensures forall i: nat :: i < NENV && i != cur && i != old(cur) ==> status[i] == old(status)[i]
      ensures OnlyRuns(old(status), old(cur)) ==> OnlyRuns(status, cur)
      ensures old(cur) != NULL && old(status)[old(cur)] == RUNNING ==> Ready(status) == Ready(old(status))
    {
      hide ScanSlot, Missed, Nearest;
      var start, j := 0, 0;
      if cur != NULL {
        start := cur + 1;
        j := start;
      }
      MissedStart(status, start);
      for i := 0 to NENV
        invariant j == ScanSlot(start, i) % NENV
        invariant status == old(status) && runs == old(runs) && cur == old(cur) && !halted
        invariant Missed(status, start, i)
      {
        if status[j] == RUNNABLE {
          NearestFound(status, cur, start, i);
          EnvRun(j);
          return;
        }
        MissedStep(status, start, i);
        j := (j + 1) % NENV;
      }
      NoneFound(status, start);
      if cur != NULL && status[cur] == RUNNING {
        EnvRun(cur);
      } else {
        cur := NULL;
        halted := true;
      }
    }

    /** Two ready environments alternate: after two yields everything is as it was, but each has run
        once more. */
    method Alternate(a: nat, b: nat)
      requires Ok() && !halted && cur == a && a < NENV - 1 && b < NENV - 1 && a != b && status[a] == RUNNING
      requires forall i: nat :: i < NENV && i != a ==> (status[i] == RUNNABLE <==> i == b) && status[i] != RUNNING
      modifies this
      ensures Ok() && !halted && cur == a && status == old(status)
      ensures runs == old(runs)[b := (old(runs)[b] + 1) % WORD][a := (old(runs)[a] + 1) % WORD]
    {
      assert status[b] == RUNNABLE;
      SchedYield();
      assert cur == b && status[b] == RUNNING && status[a] == RUNNABLE;
      SchedYield();
      assert cur == a;
      assert forall i: nat :: i < NENV ==> status[i] == old(status)[i];
    }

    /** Whatever environments are ready: while each yields in its turn, none of them is ever lost, one at
        a time is RUNNING, and a waiting one runs after at most as many yields as its distance. */
    method YieldUntil(e: nat) returns (n: nat)
      requires Ok() && !halted && cur != NULL && status[cur] == RUNNING && OnlyRuns(status, cur)
      requires e < NENV && status[e] == RUNNABLE && status[NENV - 1] != RUNNABLE && cur != NENV - 1
      modifies this
      ensures Ok() && !halted && cur == e && status[e] == RUNNING && OnlyRuns(status, e)
      ensures Ready(status) == Ready(old(status)) && 1 <= n <= Distance(old(cur), e)
    {
      hide Nearest;
      n := 0;
      while cur != e
        invariant Ok() && !halted && 0 <= cur < NENV - 1 && status[cur] == RUNNING && OnlyRuns(status, cur)
        invariant Ready(status) == Ready(old(status)) && e in Ready(status) && NENV - 1 !in Ready(status)
        invariant n + (if cur == e then 0 else Distance(cur, e)) <= Distance(old(cur), e) && (cur == e ==> n >= 1)
        decreases if cur == e then 0 else Distance(cur, e)
      {
        ghost var was, from := status, cur;
        assert status[e] == RUNNABLE;
        SchedYield();
        NearestReady(was, from, cur);
        if cur != e {
          DistanceFalls(was, from, cur, e);
        }
        n := n + 1;
      }
    }
  }

  /** No environment but cur is RUNNING. */
  ghost predicate OnlyRuns(status: seq<Status>, cur: int) {
    forall i: nat :: i < |status| && status[i] == RUNNING ==> i == cur
  }

  /** The environments that run or could. */
  ghost function Ready(status: seq<Status>): set<nat> {
    set i: nat | i < |status| && (status[i] == RUNNABLE || status[i] == RUNNING)
  }

  lemma NearestReady(status: seq<Status>, cur: int, e: int)
    requires Nearest(status, cur, e) && |status| == NENV && 0 <= cur < NENV && status[cur] == RUNNING
    ensures 0 <= e < NENV && e in Ready(status) && e != cur
  {
  }

  // Bounded wait

  /** Yields one after the other: statuses[i] is what yield i finds, after anything at all happened to
      the environments since the one before; currents[i] is current then and currents[i + 1] after it. */
  ghost predicate Yields(statuses: seq<seq<Status>>, currents: seq<int>) {
    && |currents| == |statuses| + 1 && 0 <= currents[0] < NENV
    && (forall i: nat :: i < |statuses| ==> |statuses[i]| == NENV)
    && (forall i: nat :: i < |statuses| && RUNNABLE in statuses[i] ==> Nearest(statuses[i], currents[i], currents[i + 1]))
  }

  /** At yield i the environment e is RUNNABLE and some live environment other than the last slot is
      current, unless e has been chosen before. */
  ghost predicate WaitsOrRan(statuses: seq<seq<Status>>, currents: seq<int>, e: nat, i: nat)
    requires Yields(statuses, currents) && e < NENV && i < |statuses|
  {
    (statuses[i][e] == RUNNABLE && 0 <= currents[i] < NENV - 1) || e in currents[1..i + 1]
  }

  /** Each yield that does not run a RUNNABLE environment brings the scan strictly closer to it. */
  lemma DistanceFalls(status: seq<Status>, cur: int, next: int, e: nat)
    requires |status| == NENV && 0 <= cur < NENV && e < NENV && status[e] == RUNNABLE && Nearest(status, cur, next) && next != e
    ensures Distance(next, e) < Distance(cur, e)
  {
    assert Distance(cur, next) <= Distance(cur, e);
  }

  /** An environment that stays RUNNABLE until it is chosen runs after at most as many yields as its
      distance, so within NENV. */
  lemma {:induction false} RunsWithin(statuses: seq<seq<Status>>, currents: seq<int>, e: nat)
    requires Yields(statuses, currents) && e < NENV
    requires |statuses| >= Distance(currents[0], e)
    requires forall i: nat :: i < |statuses| ==> WaitsOrRan(statuses, currents, e, i)
    ensures exists n: nat :: 1 <= n <= Distance(currents[0], e) <= NENV && n < |currents| && currents[n] == e
    decreases |statuses|
  {
    assert WaitsOrRan(statuses, currents, e, 0);
    assert statuses[0][e] == RUNNABLE;
    if currents[1] != e {
      DistanceFalls(statuses[0], currents[0], currents[1], e);
      var rest, later := statuses[1..], currents[1..];
      forall i: nat | i < |rest| && RUNNABLE in rest[i]
        ensures Nearest(rest[i], later[i], later[i + 1])
      {
        assert Nearest(statuses[i + 1], currents[i + 1], currents[i + 1 + 1]);
      }
      forall i: nat | i < |rest|
        ensures WaitsOrRan(rest, later, e, i)
      {
        assert WaitsOrRan(statuses, currents, e, i + 1);
        if e in currents[1..i + 2] {
          var k :| 0 <= k < |currents[1..i + 2]| && currents[1..i + 2][k] == e;
          assert currents[k + 1] == e && k > 0;
          assert later[1..i + 1][k - 1] == e;
        }
      }
      RunsWithin(rest, later, e);
      var n: nat :| 1 <= n <= Distance(later[0], e) && n < |later| && later[n] == e;
      assert currents[n + 1] == e;
    }
  }
}
