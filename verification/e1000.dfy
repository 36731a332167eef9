/** The descriptor rings of kern/e1000.c against the device of the Intel 8254x manual, sections 3.2.6
    and 3.4: the device works on its own between any two accesses of the driver, and advances a head
    only while it differs from the tail. */
module Packets {
  type Packet = seq<bv8>

  const PKT_BUF_SIZE: nat := 2048

  function Prefix(buf: Packet, n: nat): Packet {
    if n <= |buf| then buf[..n] else buf
  }

  /** A packet copied to the start of a buffer. */
  function Over(buf: Packet, data: Packet): Packet {
    if |data| <= |buf| then data + buf[|data|..] else buf
  }
}

module TransmitRing {
  import opened Packets

  const NTXDESC: nat := 40

  /** nic_transmit after its checks: before each write to the slot it has chosen, and before the tail. */
  datatype Pc = Ready | Copy(pkt: Packet) | ClearDone(pkt: Packet) | SetLength(pkt: Packet) | Advance(pkt: Packet)

  /** A slot: the DD bit, the length field and the buffer. */
  datatype Desc = Desc(done: bool, length: nat, buf: Packet)

  datatype State = State(head: nat, tail: nat, ring: seq<Desc>, pc: Pc, accepted: seq<Packet>, sent: seq<Packet>)

  datatype Step =
    | Call(pkt: Packet)       // nic_transmit up to its first write, or its return with an error
    | Driver                  // the driver's next write
    | Device                  // the device takes the packet at the head

  function WithSlot(s: State, i: nat, d: Desc): State {
    if i < |s.ring| then s.(ring := s.ring[i := d]) else s
  }

  function At(s: State, i: nat): Desc {
    if i < |s.ring| then s.ring[i] else Desc(true, 0, [])
  }

  function After(s: State, step: Step): State {
    match step
    case Call(pkt) => if s.pc.Ready? && |pkt| <= PKT_BUF_SIZE && At(s, s.tail).done then s.(pc := Copy(pkt)) else s
    case Device =>
      if s.head == s.tail then s else
      var d := At(s, s.head);
      WithSlot(s, s.head, d.(done := true)).(head := (s.head + 1) % NTXDESC,
        sent := s.sent + [Prefix(d.buf, d.length)])
    case Driver =>
      var d := At(s, s.tail);
      match s.pc
      case Ready => s
      case Copy(pkt) => WithSlot(s, s.tail, d.(buf := Over(d.buf, pkt))).(pc := ClearDone(pkt))
      case ClearDone(pkt) => WithSlot(s, s.tail, d.(done := false)).(pc := SetLength(pkt))
      case SetLength(pkt) => WithSlot(s, s.tail, d.(length := |pkt|)).(pc := Advance(pkt))
      case Advance(pkt) => s.(tail := (s.tail + 1) % NTXDESC, pc := Ready, accepted := s.accepted + [pkt])
  }

  /** How the driver's own slot looks while it fills it. */
  ghost predicate PcOk(s: State)
    requires |s.ring| == NTXDESC && s.tail < NTXDESC
  {
    var d := s.ring[s.tail];
    match s.pc
    case Ready => true
    case Copy(pkt) => |pkt| <= PKT_BUF_SIZE && Pending(s) < NTXDESC
    case ClearDone(pkt) => |pkt| <= PKT_BUF_SIZE && Pending(s) < NTXDESC && Prefix(d.buf, |pkt|) == pkt
    case SetLength(pkt) => |pkt| <= PKT_BUF_SIZE && Pending(s) < NTXDESC && Prefix(d.buf, |pkt|) == pkt && !d.done
    case Advance(pkt) => |pkt| <= PKT_BUF_SIZE && Pending(s) < NTXDESC && Prefix(d.buf, |pkt|) == pkt && !d.done && d.length == |pkt|
  }

  function Pending(s: State): int { |s.accepted| - |s.sent| }

  /** Slot of the k-th packet ever accepted. */
  function SlotOf(k: nat): (i: nat)
    ensures i < NTXDESC
  {
    k % NTXDESC
  }

  ghost predicate Waiting(s: State, k: nat)
    requires |s.ring| == NTXDESC && k < |s.accepted|
  {
    var d := s.ring[SlotOf(k)];
    !d.done && d.length == |s.accepted[k]| <= PKT_BUF_SIZE && Prefix(d.buf, d.length) == s.accepted[k]
  }

  ghost predicate Inv(s: State) {
    && |s.ring| == NTXDESC && (forall i: nat :: i < NTXDESC ==> |s.ring[i].buf| == PKT_BUF_SIZE)
    && |s.sent| <= |s.accepted| <= |s.sent| + NTXDESC
    && s.sent == s.accepted[..|s.sent|]
    && s.head == SlotOf(|s.sent|) && s.tail == SlotOf(|s.accepted|)
    && (forall k: nat :: |s.sent| <= k < |s.accepted| ==> Waiting(s, k))
    && (forall k: nat :: Claimed(s) <= k < |s.sent| + NTXDESC ==> s.ring[SlotOf(k)].done)
    && PcOk(s)
  }

  /** The packets that have a slot, with the one whose slot is being filled and no longer done. */
  function Claimed(s: State): nat {
    |s.accepted| + if s.pc.SetLength? || s.pc.Advance? then 1 else 0
  }

  lemma SlotsApart(j: nat, k: nat)
    requires j < k < j + NTXDESC
    ensures SlotOf(j) != SlotOf(k)
  {
  }

  lemma NextSlot(k: nat)
    ensures SlotOf(k + 1) == (SlotOf(k) + 1) % NTXDESC && SlotOf(k) < NTXDESC && SlotOf(k + NTXDESC) == SlotOf(k)
  {
    var q, r := k / NTXDESC, k % NTXDESC;
    assert k == NTXDESC * q + r && k + NTXDESC == NTXDESC * (q + 1) + r;
  }

  lemma DeviceKeeps(s: State)
    requires Inv(s)
    ensures Inv(After(s, Device))
  {
    hide SlotOf;
    var t := After(s, Device);
    if s.head != s.tail {
      var n := |s.sent|;
      NextSlot(n);
      assert n < |s.accepted|;
      assert Waiting(s, n);
      assert t.sent == s.accepted[..n + 1];
      forall k: nat | n + 1 <= k < |s.accepted|
        ensures Waiting(t, k)
      {
        assert Waiting(s, k);
        if k < n + NTXDESC {
          SlotsApart(n, k);
        }
      }
      NextSlot(|s.accepted|);
      forall k: nat | Claimed(t) <= k < n + 1 + NTXDESC
        ensures t.ring[SlotOf(k)].done
      {
        if k < n + NTXDESC {
          assert s.ring[SlotOf(k)].done;
        }
      }
    }
  }

  lemma DriverKeeps(s: State)
    requires Inv(s)
    ensures Inv(After(s, Driver))
  {
    hide SlotOf;
    var t, n := After(s, Driver), |s.accepted|;
    NextSlot(n);
    forall k: nat | Claimed(t) <= k < |s.sent| + NTXDESC
      ensures t.ring[SlotOf(k)].done
    {
      if k > n {
        SlotsApart(n, k);
        assert s.ring[SlotOf(k)].done;
      }
    }
    forall k: nat | |s.sent| <= k < n && !s.pc.Ready?
      ensures Waiting(t, k)
    {
      assert Waiting(s, k);
      SlotsApart(k, n);
    }
    if s.pc.Copy? {
      assert Prefix(t.ring[s.tail].buf, |s.pc.pkt|) == s.pc.pkt;
    }
    if s.pc.Advance? {
      assert Waiting(t, n);
      assert t.accepted[..|s.sent|] == s.accepted[..|s.sent|];
    }
  }

  /** A slot whose DD bit is set holds no packet the device still has to send, and every other slot has
      it set: a call is accepted exactly if the packet fits and fewer than 40 are under way. */
  lemma CallKeeps(s: State, pkt: Packet)
    requires Inv(s)
    ensures Inv(After(s, Call(pkt)))
    ensures s.pc == Ready ==> (After(s, Call(pkt)) != s <==> |pkt| <= PKT_BUF_SIZE && Pending(s) < NTXDESC)
  {
    hide SlotOf;
    NextSlot(|s.accepted|);
    if s.pc == Ready && Pending(s) < NTXDESC {
      assert s.ring[SlotOf(|s.accepted|)].done;
    }
    if Pending(s) == NTXDESC {
      NextSlot(|s.sent|);
      assert Waiting(s, |s.sent|);
    }
    forall k: nat | |s.sent| <= k < |s.accepted|
      ensures Waiting(After(s, Call(pkt)), k)
    {
      assert Waiting(s, k);
    }
  }

  function RunOf(s: State, steps: seq<Step>): State
    decreases |steps|
  {
    if steps == [] then s else RunOf(After(s, steps[0]), steps[1..])
  }

  lemma {:induction false} RunKeepsInv(s: State, steps: seq<Step>)
    requires Inv(s)
    ensures Inv(RunOf(s, steps))
    decreases |steps|
  {
    hide Inv, After;
    if steps != [] {
      StepKeepsInv(s, steps[0]);
      RunKeepsInv(After(s, steps[0]), steps[1..]);
    }
  }

  /** What pci_nic_attach leaves: an empty ring with every DD bit set. */
  ghost predicate Attached(s: State) {
    && s.head == 0 && s.tail == 0 && s.pc == Ready && s.accepted == [] && s.sent == []
    && |s.ring| == NTXDESC && forall i: nat :: i < NTXDESC ==> s.ring[i].done && |s.ring[i].buf| == PKT_BUF_SIZE
  }

  /** Over every interleaving of driver and device: what the device has sent is, in order and unchanged,
      the beginning of what nic_transmit has accepted, and at most 40 packets are under way; a call is
      accepted exactly if the packet fits and there are fewer. */
  lemma SentIsPrefix(s: State, steps: seq<Step>, pkt: Packet)
    requires Attached(s)
    ensures var t := RunOf(s, steps);
            && t.sent <= t.accepted && |t.accepted| <= |t.sent| + NTXDESC
            && (t.pc == Ready ==> (After(t, Call(pkt)) != t <==> |pkt| <= PKT_BUF_SIZE && Pending(t) < NTXDESC))
  {
    AttachedInv(s);
    RunKeepsInv(s, steps);
    CallKeeps(RunOf(s, steps), pkt);
  }

  lemma AttachedInv(s: State)
    requires Attached(s)
    ensures Inv(s)
  {
  }

  function Devices(n: nat): seq<Step> { seq(n, _ => Device) }

  /** While the driver rests, the device sends all that wait, unless there are 40. */
  lemma {:induction false} AllSent(s: State)
    requires Inv(s) && s.pc == Ready && Pending(s) < NTXDESC
    ensures var t := RunOf(s, Devices(Pending(s))); t.sent == t.accepted == s.accepted && t.pc == Ready
    decreases Pending(s)
  {
    hide SlotOf;
    if Pending(s) > 0 {
      SlotsApart(|s.sent|, |s.accepted|);
      var t := After(s, Device);
      DeviceKeeps(s);
      assert Devices(Pending(s))[1..] == Devices(Pending(t));
      AllSent(t);
    }
  }

  /** Nothing can ever move again. */
  ghost predicate Stuck(s: State) { forall step :: After(s, step) == s }

  /** When all 40 slots fill, head and tail are equal again: the device stops and every later call
      fails, for good.  That is the only state in which nothing can move but packets remain. */
  lemma FullRingStopsIff(s: State)
    requires Inv(s) && s.pc == Ready && Pending(s) > 0
    ensures Pending(s) == NTXDESC <==> Stuck(s)
  {
    hide SlotOf;
    NextSlot(|s.sent|);
    if Pending(s) == NTXDESC {
      assert Waiting(s, |s.sent|);
      assert s.head == s.tail;
      forall step
        ensures After(s, step) == s
      {
      }
    } else {
      SlotsApart(|s.sent|, |s.accepted|);
      assert After(s, Device).sent != s.sent;
    }
  }

  /** The call that stops the ring, seen at its write of the tail: the slot it has filled is the one
      just before the head. */
  predicate Fills(s: State, step: Step) {
    step == Driver && s.pc.Advance? && (s.tail + 1) % NTXDESC == s.head
  }

  predicate SomeFills(s: State, steps: seq<Step>)
    decreases |steps|
  {
    steps != [] && (Fills(s, steps[0]) || SomeFills(After(s, steps[0]), steps[1..]))
  }

  lemma StepFillsIff(s: State, step: Step)
    requires Inv(s) && Pending(s) < NTXDESC
    ensures Pending(After(s, step)) == NTXDESC <==> Fills(s, step)
  {
    hide SlotOf;
    var n := |s.accepted|;
    NextSlot(n);
    NextSlot(|s.sent|);
    if step == Driver && s.pc.Advance? && n + 1 < |s.sent| + NTXDESC {
      SlotsApart(|s.sent|, n + 1);
    }
  }

  lemma StepKeepsInv(s: State, step: Step)
    requires Inv(s)
    ensures Inv(After(s, step))
  {
    match step {
      case Call(pkt) => CallKeeps(s, pkt);
      case Driver => DriverKeeps(s);
      case Device => DeviceKeeps(s);
    }
  }

  lemma {:induction false} StuckStays(s: State, steps: seq<Step>)
    requires Stuck(s)
    ensures RunOf(s, steps) == s
    decreases |steps|
  {
    hide After;
    if steps != [] {
      assert After(s, steps[0]) == s;
      StuckStays(s, steps[1..]);
    }
  }

  /** A ring with all 40 slots waiting is stuck. */
  lemma FullStuck(s: State)
    requires Inv(s) && Pending(s) == NTXDESC
    ensures Stuck(s)
  {
    FullRingStopsIff(s);
  }

  /** Over every interleaving that starts from a ring not yet full: it ends stuck, with 40 packets that
      will never be sent, if and only if at some moment the driver moved the tail onto the head. */
  lemma {:induction false} RunStopsIff(s: State, steps: seq<Step>)
    requires Inv(s) && Pending(s) < NTXDESC
    ensures SomeFills(s, steps) <==> Pending(RunOf(s, steps)) == NTXDESC
    ensures SomeFills(s, steps) ==> Stuck(RunOf(s, steps))
    decreases |steps|
  {
    hide Inv, After, Fills, Stuck, Pending;
    if steps != [] {
      var t := After(s, steps[0]);
      StepKeepsInv(s, steps[0]);
      StepFillsIff(s, steps[0]);
      if Fills(s, steps[0]) {
        FullStuck(t);
        StuckStays(t, steps[1..]);
      } else {
        AtMostFull(t);
        RunStopsIff(t, steps[1..]);
      }
    }
  }

  lemma AtMostFull(s: State)
    requires Inv(s)
    ensures Pending(s) <= NTXDESC
  {
  }

  function Sending(pkt: Packet): seq<Step> { [Call(pkt), Driver, Driver, Driver, Driver] }

  function SendingAll(pkts: seq<Packet>): seq<Step> {
    if pkts == [] then [] else SendingAll(pkts[..|pkts| - 1]) + Sending(pkts[|pkts| - 1])
  }

  lemma {:induction false} RunThen(s: State, a: seq<Step>, b: seq<Step>)
    ensures RunOf(s, a + b) == RunOf(RunOf(s, a), b)
    decreases |a|
  {
    hide After;
    if a == [] {
      assert a + b == b;
    } else {
      assert (a + b)[1..] == a[1..] + b;
      RunThen(After(s, a[0]), a[1..], b);
    }
  }

  /** The ring after pkts were accepted and nothing sent: the rest of the slots still have their DD bit. */
  ghost predicate Filled(s: State, pkts: seq<Packet>) {
    && Inv(s) && s.pc == Ready && s.accepted == pkts && s.sent == []
    && forall i: nat :: |pkts| <= i < NTXDESC ==> s.ring[i].done
  }

  lemma SendOne(s: State, pkts: seq<Packet>, pkt: Packet)
    requires Filled(s, pkts) && |pkts| < NTXDESC && |pkt| <= PKT_BUF_SIZE
    ensures Filled(RunOf(s, Sending(pkt)), pkts + [pkt])
  {
    hide Inv;
    var a := After(s, Call(pkt));
    var b := After(a, Driver);
    var c := After(b, Driver);
    var d := After(c, Driver);
    var e := After(d, Driver);
    FilledTail(s, pkts);
    StepKeepsInv(s, Call(pkt));
    StepKeepsInv(a, Driver);
    StepKeepsInv(b, Driver);
    StepKeepsInv(c, Driver);
    StepKeepsInv(d, Driver);
    FiveSteps(s, Sending(pkt));
  }

  lemma FilledTail(s: State, pkts: seq<Packet>)
    requires Filled(s, pkts) && |pkts| < NTXDESC
    ensures |s.ring| == NTXDESC && s.tail == |pkts| && s.ring[s.tail].done
  {
  }

  lemma FiveSteps(s: State, steps: seq<Step>)
    requires |steps| == 5
    ensures RunOf(s, steps) == After(After(After(After(After(s, steps[0]), steps[1]), steps[2]), steps[3]), steps[4])
  {
    hide After;
    var a := After(s, steps[0]);
    assert RunOf(s, steps) == RunOf(a, steps[1..]);
    var b := After(a, steps[1]);
    assert RunOf(a, steps[1..]) == RunOf(b, steps[2..]);
    var c := After(b, steps[2]);
    assert RunOf(b, steps[2..]) == RunOf(c, steps[3..]);
    var d := After(c, steps[3]);
    assert RunOf(c, steps[3..]) == RunOf(d, steps[4..]);
    assert RunOf(d, steps[4..]) == RunOf(After(d, steps[4]), steps[5..]);
  }

  lemma {:induction false} SendAll(s: State, pkts: seq<Packet>)
    requires Attached(s) && |pkts| <= NTXDESC && forall i: nat :: i < |pkts| ==> |pkts[i]| <= PKT_BUF_SIZE
    ensures Filled(RunOf(s, SendingAll(pkts)), pkts)
    decreases |pkts|
  {
    if pkts != [] {
      var rest, pkt := pkts[..|pkts| - 1], pkts[|pkts| - 1];
      SendAll(s, rest);
      RunThen(s, SendingAll(rest), Sending(pkt));
      SendOne(RunOf(s, SendingAll(rest)), rest, pkt);
      assert rest + [pkt] == pkts;
    }
  }

  /** Any 40 calls before the device takes its first packet stop it: all are accepted, none is ever
      sent, whatever happens next. */
  lemma FortyCallsStop(s: State, pkts: seq<Packet>, later: seq<Step>)
    requires Attached(s) && |pkts| == NTXDESC && forall i: nat :: i < |pkts| ==> |pkts[i]| <= PKT_BUF_SIZE
    ensures var t := RunOf(s, SendingAll(pkts) + later);
            t.accepted == pkts && t.sent == [] && Stuck(t)
  {
    hide Inv, After, Attached;
    SendAll(s, pkts);
    var t := RunOf(s, SendingAll(pkts));
    FullStuck(t);
    StuckStays(t, later);
    RunThen(s, SendingAll(pkts), later);
  }
}

module ReceiveRing {
  import opened Packets

  const NRXDESC: nat := 128

  /** e1000_receive: after it saw both status bits, after the copy, and before the tail. */
  datatype Pc = Ready | Read(slot: nat) | ClearStatus(slot: nat, pkt: Packet) | Advance(slot: nat, pkt: Packet)

  datatype Desc = Desc(done: bool, eop: bool, length: nat, buf: Packet)

  /** stored and dropped packets came from the network; returned is what e1000_receive handed out. */
  datatype State = State(head: nat, tail: nat, ring: seq<Desc>, pc: Pc, stored: seq<Packet>, returned: seq<Packet>)

  datatype Step =
    | Call                    // e1000_receive up to its checks
    | Driver
    | Device(pkt: Packet)     // a packet arrives

  function WithSlot(s: State, i: nat, d: Desc): State {
    if i < |s.ring| then s.(ring := s.ring[i := d]) else s
  }

  function At(s: State, i: nat): Desc {
    if i < |s.ring| then s.ring[i] else Desc(false, false, 0, [])
  }

  function After(s: State, step: Step): State {
    match step
    case Call =>
      var i := (s.tail + 1) % NRXDESC;
      if s.pc.Ready? && At(s, i).done && At(s, i).eop then s.(pc := Read(i)) else s
    case Device(pkt) =>
      if s.head == s.tail || |pkt| > PKT_BUF_SIZE then s else
      WithSlot(s, s.head, Desc(true, true, |pkt|, Over(At(s, s.head).buf, pkt))).(head := (s.head + 1) % NRXDESC, stored := s.stored + [pkt])
    case Driver =>
      match s.pc
      case Ready => s
      case Read(i) =>
        var d := At(s, i);
        s.(pc := ClearStatus(i, Prefix(d.buf, d.length)))
      case ClearStatus(i, pkt) => WithSlot(s, i, At(s, i).(done := false, eop := false)).(pc := Advance(i, pkt))
      case Advance(i, pkt) => s.(tail := i, pc := Ready, returned := s.returned + [pkt])
  }

  function SlotOf(k: nat): (i: nat)
    ensures i < NRXDESC
  {
    k % NRXDESC
  }

  ghost predicate Holding(s: State, k: nat)
    requires |s.ring| == NRXDESC && k < |s.stored|
  {
    var d := s.ring[SlotOf(k)];
    d.done && d.eop && d.length == |s.stored[k]| <= PKT_BUF_SIZE && Prefix(d.buf, d.length) == s.stored[k]
  }

  ghost predicate PcOk(s: State) {
    match s.pc
    case Ready => true
    case Read(i) => i == SlotOf(|s.returned|) && |s.returned| < |s.stored|
    case ClearStatus(i, pkt) => i == SlotOf(|s.returned|) && |s.returned| < |s.stored| && pkt == s.stored[|s.returned|]
    case Advance(i, pkt) => i == SlotOf(|s.returned|) && |s.returned| < |s.stored| && pkt == s.stored[|s.returned|]
  }

  /** The packets the ring still holds; the one being returned has lost its status bits already. */
  function Oldest(s: State): nat {
    |s.returned| + if s.pc.Advance? then 1 else 0
  }

  ghost predicate Inv(s: State) {
    && |s.ring| == NRXDESC && (forall i: nat :: i < NRXDESC ==> |s.ring[i].buf| == PKT_BUF_SIZE)
    && |s.returned| <= |s.stored| < |s.returned| + NRXDESC
    && s.returned == s.stored[..|s.returned|]
    && s.head == SlotOf(|s.stored|) && s.tail == SlotOf(|s.returned| + NRXDESC - 1)
    && PcOk(s)
    && (forall k: nat :: Oldest(s) <= k < |s.stored| ==> Holding(s, k))
    && (forall k: nat :: |s.stored| <= k < Oldest(s) + NRXDESC ==> !s.ring[SlotOf(k)].done)
  }

  lemma SlotsApart(j: nat, k: nat)
    requires j < k < j + NRXDESC
    ensures SlotOf(j) != SlotOf(k)
  {
  }

  lemma NextSlot(k: nat)
    ensures SlotOf(k + 1) == (SlotOf(k) + 1) % NRXDESC && SlotOf(k) < NRXDESC && SlotOf(k + NRXDESC) == SlotOf(k)
  {
    var q, r := k / NRXDESC, k % NRXDESC;
    assert k == NRXDESC * q + r && k + NRXDESC == NRXDESC * (q + 1) + r;
  }

  lemma DeviceKeeps(s: State, pkt: Packet)
    requires Inv(s)
    ensures Inv(After(s, Device(pkt)))
  {
    hide SlotOf;
    var t, n := After(s, Device(pkt)), |s.stored|;
    NextSlot(n);
    if t != s {
      assert n != |s.returned| + NRXDESC - 1;
      assert t.stored[..|s.returned|] == s.stored[..|s.returned|];
      forall k: nat | Oldest(s) <= k < n + 1
        ensures Holding(t, k)
      {
        if k < n {
          assert Holding(s, k);
          SlotsApart(k, n);
        } else {
          assert Prefix(t.ring[SlotOf(n)].buf, |pkt|) == pkt;
        }
      }
      forall k: nat | n + 1 <= k < Oldest(s) + NRXDESC
        ensures !t.ring[SlotOf(k)].done
      {
        NextSlot(k);
        assert !s.ring[SlotOf(k)].done;
        SlotsApart(n, k);
      }
    }
  }

  /** The slot after the tail has its status bits exactly when an unreturned packet is stored. */
  lemma CallKeeps(s: State)
    requires Inv(s)
    ensures Inv(After(s, Call))
    ensures s.pc == Ready ==> (After(s, Call) != s <==> |s.returned| < |s.stored|)
  {
    hide SlotOf;
    var n := |s.returned|;
    NextSlot(n + NRXDESC - 1);
    NextSlot(n);
    forall k: nat | Oldest(s) <= k < |s.stored|
      ensures Holding(After(s, Call), k)
    {
      assert Holding(s, k);
    }
    if s.pc == Ready {
      if n < |s.stored| {
        assert Holding(s, n);
      } else {
        assert !s.ring[SlotOf(n)].done;
      }
    }
  }

  lemma DriverKeeps(s: State)
    requires Inv(s)
    ensures Inv(After(s, Driver))
  {
    hide SlotOf;
    var t, n := After(s, Driver), |s.returned|;
    NextSlot(n);
    match s.pc {
      case Read(_) =>
        assert Holding(s, n);
        forall k: nat | n <= k < |s.stored|
          ensures Holding(t, k)
        {
          assert Holding(s, k);
        }
      case ClearStatus(_, _) =>
        forall k: nat | n + 1 <= k < |s.stored|
          ensures Holding(t, k)
        {
          assert Holding(s, k);
          SlotsApart(n, k);
        }
        forall k: nat | |s.stored| <= k < n + 1 + NRXDESC
          ensures !t.ring[SlotOf(k)].done
        {
          NextSlot(k);
          if k < n + NRXDESC {
            SlotsApart(n, k);
          }
        }
      case Advance(_, pkt) =>
        assert s.stored[..n + 1] == s.stored[..n] + [pkt];
        forall k: nat | n + 1 <= k < |s.stored|
          ensures Holding(t, k)
        {
          assert Holding(s, k);
        }
      case Ready =>
    }
  }

  function RunOf(s: State, steps: seq<Step>): State
    decreases |steps|
  {
    if steps == [] then s else RunOf(After(s, steps[0]), steps[1..])
  }

  lemma {:induction false} RunKeepsInv(s: State, steps: seq<Step>)
    requires Inv(s)
    ensures Inv(RunOf(s, steps))
    decreases |steps|
  {
    hide Inv, After;
    if steps != [] {
      match steps[0] {
        case Call => CallKeeps(s);
        case Driver => DriverKeeps(s);
        case Device(pkt) => DeviceKeeps(s, pkt);
      }
      RunKeepsInv(After(s, steps[0]), steps[1..]);
    }
  }

  ghost predicate Attached(s: State) {
    && s.head == 0 && s.tail == NRXDESC - 1 && s.pc == Ready && s.stored == [] && s.returned == []
    && |s.ring| == NRXDESC && forall i: nat :: i < NRXDESC ==> !s.ring[i].done && |s.ring[i].buf| == PKT_BUF_SIZE
  }

  /** Over every interleaving: e1000_receive returns the stored packets in order, none lost, none twice,
      none altered; an arriving packet is dropped only while 127 wait; and a call finds a packet exactly
      when one waits. */
  lemma ReturnsStored(s: State, steps: seq<Step>, pkt: Packet)
    requires Attached(s) && |pkt| <= PKT_BUF_SIZE
    ensures var t := RunOf(s, steps);
            && t.returned <= t.stored && |t.stored| <= |t.returned| + 127
            && (After(t, Device(pkt)) == t <==> |t.stored| == |t.returned| + 127)
            && (t.pc == Ready ==> (After(t, Call) != t <==> |t.returned| < |t.stored|))
  {
    hide SlotOf;
    AttachedInv(s);
    RunKeepsInv(s, steps);
    var t := RunOf(s, steps);
    CallKeeps(t);
    if |t.stored| < |t.returned| + 127 {
      SlotsApart(|t.stored|, |t.returned| + NRXDESC - 1);
      assert After(t, Device(pkt)).stored != t.stored;
    }
  }

  lemma AttachedInv(s: State)
    requires Attached(s)
    ensures Inv(s)
  {
  }
}
