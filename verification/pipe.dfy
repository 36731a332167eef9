/** The ring buffer of lib/pipe.c: one reader and one writer, interleaved at every load and store of
    the shared page. */
module PipeBuffer {
  type Byte = bv8

  const PIPEBUFSIZ: nat := 32
  const LIMIT: nat := 0x8000_0000      // off_t holds no larger position

  /** Where devpipe_read is; Decide carries the p_wpos it loaded, Advance the byte it took. */
  datatype ReaderPc = Resting | Test | Decide(wpos: nat) | Take | Advance(b: Byte)

  /** Where devpipe_write is; Judge carries the p_rpos it loaded. */
  datatype WriterPc = Quiet | Probe | Judge(rpos: nat) | Store | Publish

  datatype State = State(
    rpos: nat, wpos: nat, buf: seq<Byte>,
    reader: ReaderPc, n: nat, out: seq<Byte>,           // the read in progress
    writer: WriterPc, data: seq<Byte>, i: nat,          // the write in progress
    returned: seq<Byte>,                                // what finished reads returned
    accepted: seq<Byte>)                                // what finished writes stored

  /** Steps; closed is what _pipeisclosed answers when it is asked. */
  datatype Step =
    | StartRead(n: nat)
    | StartWrite(data: seq<Byte>)
    | Reader(closed: bool)
    | Writer(closed: bool)

  function Received(s: State): seq<Byte> { s.returned + s.out }

  function Written(s: State): seq<Byte>
    requires s.i <= |s.data|
  {
    s.accepted + s.data[..s.i]
  }

  /** The head of devpipe_read's for loop: return when enough bytes have been read. */
  function NextByte(s: State): State {
    if |s.out| < s.n then s.(reader := Test) else EndRead(s)
  }

  function EndRead(s: State): State {
    s.(reader := Resting, returned := s.returned + s.out, out := [], n := 0)
  }

  function NextStore(s: State): State {
    if s.i < |s.data| then s.(writer := Probe) else EndWrite(s)
  }

  function EndWrite(s: State): State {
    if s.i <= |s.data| then s.(writer := Quiet, accepted := s.accepted + s.data[..s.i], data := [], i := 0) else s
  }

  function At(buf: seq<Byte>, k: nat): Byte {
    if k % PIPEBUFSIZ < |buf| then buf[k % PIPEBUFSIZ] else 0
  }

  function Put(buf: seq<Byte>, k: nat, b: Byte): seq<Byte> {
    if k % PIPEBUFSIZ < |buf| then buf[k % PIPEBUFSIZ := b] else buf
  }

  function ReaderStep(s: State, closed: bool): State {
    match s.reader
    case Resting => s
    case Test => s.(reader := Decide(s.wpos))
    case Decide(w) =>
      if s.rpos != w then s.(reader := Take)
      else if |s.out| > 0 || closed then EndRead(s)
      else s.(reader := Test)
    case Take => s.(reader := Advance(At(s.buf, s.rpos)))
    case Advance(b) => NextByte(s.(rpos := s.rpos + 1, out := s.out + [b]))
  }

  function WriterStep(s: State, closed: bool): State {
    match s.writer
    case Quiet => s
    case Probe => s.(writer := Judge(s.rpos))
    case Judge(r) =>
      if s.wpos < r + PIPEBUFSIZ then s.(writer := Store)
      else if closed then EndWrite(s)
      else s.(writer := Probe)
    case Store => s.(writer := Publish, buf := if s.i < |s.data| then Put(s.buf, s.wpos, s.data[s.i]) else s.buf)
    case Publish => NextStore(s.(wpos := s.wpos + 1, i := s.i + 1))
  }

  function After(s: State, step: Step): State {
    match step
    case StartRead(n) => if s.reader.Resting? then NextByte(s.(n := n, out := [])) else s
    case StartWrite(data) => if s.writer.Quiet? then NextStore(s.(data := data, i := 0)) else s
    case Reader(closed) => ReaderStep(s, closed)
    case Writer(closed) => WriterStep(s, closed)
  }

  /** A position past the range of off_t is never reached. */
  predicate Legal(s: State, step: Step) {
    step.Writer? && s.writer.Publish? ==> s.wpos + 1 < LIMIT
  }

  /** Only a read that wants more bytes goes on. */
  ghost predicate ReaderOk(s: State) {
    (!s.reader.Resting? ==> |s.out| < s.n) &&
    match s.reader
    case Resting => s.out == []
    case Test => true
    case Decide(w) => s.rpos <= w <= s.wpos
    case Take => s.rpos < s.wpos
    case Advance(b) => s.rpos < s.wpos && s.i <= |s.data| && s.rpos < |Written(s)| && b == Written(s)[s.rpos]
  }

  ghost predicate WriterOk(s: State) {
    match s.writer
    case Quiet => s.data == []
    case Probe => s.i < |s.data|
    case Judge(r) => s.i < |s.data| && r <= s.rpos
    case Store => s.i < |s.data| && s.wpos < s.rpos + PIPEBUFSIZ
    case Publish => s.i < |s.data| && s.wpos < s.rpos + PIPEBUFSIZ && At(s.buf, s.wpos) == s.data[s.i]
  }

  ghost predicate Inv(s: State) {
    && |s.buf| == PIPEBUFSIZ && s.i <= |s.data| && s.wpos < LIMIT
    && s.rpos <= s.wpos <= s.rpos + PIPEBUFSIZ
    && |Written(s)| == s.wpos && |Received(s)| == s.rpos && Received(s) == Written(s)[..s.rpos]
    && (forall k: nat :: s.rpos <= k < s.wpos ==> At(s.buf, k) == Written(s)[k])
    && ReaderOk(s) && WriterOk(s)
  }

  /** Positions less than a buffer apart use different cells. */
  lemma CellsApart(k: nat, w: nat)
    requires k < w < k + PIPEBUFSIZ
    ensures k % PIPEBUFSIZ != w % PIPEBUFSIZ
  {
  }

  lemma EndReadKeeps(s: State)
    requires Inv(s)
    ensures Inv(EndRead(s))
  {
    assert Received(EndRead(s)) == Received(s);
  }

  /** The byte taken is the next one written. */
  lemma AdvanceKeeps(s: State)
    requires Inv(s) && s.reader.Advance?
    ensures var t := ReaderStep(s, false); Inv(t) && Received(t) == Received(s) + [Written(s)[s.rpos]]
  {
    var t := ReaderStep(s, false);
    assert Received(t) == Received(s) + [s.reader.b];
    assert Written(s)[..s.rpos + 1] == Written(s)[..s.rpos] + [Written(s)[s.rpos]];
  }

  /** The reader's position in its own code, when it has moved nothing yet. */
  lemma ReaderMoves(s: State, pc: ReaderPc)
    requires Inv(s) && ReaderOk(s.(reader := pc))
    ensures Inv(s.(reader := pc))
  {
    hide ReaderOk;
    var t := s.(reader := pc);
    assert Written(t) == Written(s) && Received(t) == Received(s);
  }

  lemma ReaderKeeps(s: State, closed: bool)
    requires Inv(s)
    ensures Inv(ReaderStep(s, closed))
  {
    match s.reader
    case Resting =>
    case Test => ReaderMoves(s, Decide(s.wpos));
    case Decide(w) =>
      if s.rpos != w {
        ReaderMoves(s, Take);
      } else if |s.out| > 0 || closed {
        EndReadKeeps(s);
      } else {
        ReaderMoves(s, Test);
      }
    case Take => ReaderMoves(s, Advance(At(s.buf, s.rpos)));
    case Advance(b) =>
      AdvanceKeeps(s);
  }

  lemma StoreKeeps(s: State)
    requires Inv(s) && s.writer.Store?
    ensures Inv(WriterStep(s, false))
  {
    var t := WriterStep(s, false);
    forall k: nat | s.rpos <= k < s.wpos
      ensures At(t.buf, k) == Written(s)[k]
    {
      CellsApart(k, s.wpos);
      assert At(s.buf, k) == Written(s)[k];
    }
  }

  lemma PublishKeeps(s: State)
    requires Inv(s) && s.writer.Publish? && s.wpos + 1 < LIMIT
    ensures Inv(WriterStep(s, false))
  {
    var t := WriterStep(s, false);
    assert s.data[..s.i + 1] == s.data[..s.i] + [s.data[s.i]];
    assert Written(t) == Written(s) + [s.data[s.i]];
    assert Received(t) == Received(s);
    assert Written(t)[..s.rpos] == Written(s)[..s.rpos];
    assert forall k: nat :: s.rpos <= k < s.wpos ==> At(t.buf, k) == Written(s)[k];
  }

  lemma EndWriteKeeps(s: State)
    requires Inv(s)
    ensures Inv(EndWrite(s))
  {
    assert Written(EndWrite(s)) == Written(s);
  }

  lemma StepKeepsInv(s: State, step: Step)
    requires Inv(s) && Legal(s, step)
    ensures Inv(After(s, step))
  {
    hide Inv, Legal;
    match step
    case StartRead(n) => StartReadKeeps(s, n);
    case StartWrite(data) => StartWriteKeeps(s, data);
    case Reader(closed) => ReaderKeeps(s, closed);
    case Writer(closed) => WriterKeeps(s, closed);
  }

  lemma StartReadKeeps(s: State, n: nat)
    requires Inv(s)
    ensures Inv(After(s, StartRead(n)))
  {
    if s.reader.Resting? {
      assert Received(After(s, StartRead(n))) == Received(s);
    }
  }

  lemma StartWriteKeeps(s: State, data: seq<Byte>)
    requires Inv(s)
    ensures Inv(After(s, StartWrite(data)))
  {
    if s.writer.Quiet? {
      assert Written(After(s, StartWrite(data))) == Written(s);
      assert Received(After(s, StartWrite(data))) == Received(s);
    }
  }

  lemma WriterMoves(s: State, pc: WriterPc)
    requires Inv(s) && WriterOk(s.(writer := pc))
    ensures Inv(s.(writer := pc))
  {
    hide WriterOk;
    var t := s.(writer := pc);
    assert Written(t) == Written(s) && Received(t) == Received(s);
  }

  lemma WriterKeeps(s: State, closed: bool)
    requires Inv(s) && Legal(s, Writer(closed))
    ensures Inv(After(s, Writer(closed)))
  {
    match s.writer
    case Quiet =>
    case Probe => WriterMoves(s, Judge(s.rpos));
    case Judge(r) =>
      if s.wpos < r + PIPEBUFSIZ {
        WriterMoves(s, Store);
      } else if closed {
        EndWriteKeeps(s);
      } else {
        WriterMoves(s, Probe);
      }
    case Store => StoreKeeps(s);
    case Publish => PublishKeeps(s);
  }

  function RunOf(s: State, steps: seq<Step>): State
    decreases |steps|
  {
    if steps == [] then s else RunOf(After(s, steps[0]), steps[1..])
  }

  predicate LegalRun(s: State, steps: seq<Step>)
    decreases |steps|
  {
    steps != [] ==> Legal(s, steps[0]) && LegalRun(After(s, steps[0]), steps[1..])
  }

  lemma {:induction false} RunKeepsInv(s: State, steps: seq<Step>)
    requires Inv(s) && LegalRun(s, steps)
    ensures Inv(RunOf(s, steps))
    decreases |steps|
  {
    hide Inv, Legal, After;
    if steps != [] {
      StepKeepsInv(s, steps[0]);
      RunKeepsInv(After(s, steps[0]), steps[1..]);
    }
  }

  /** Whatever the interleaving and however the bytes are split into calls: the buffer never over- or
      underflows, and what the reads return is, in order, a prefix of what the writes were given. */
  lemma PipeFifo(buf: seq<Byte>, steps: seq<Step>)
    requires |buf| == PIPEBUFSIZ
    requires LegalRun(State(0, 0, buf, Resting, 0, [], Quiet, [], 0, [], []), steps)
    ensures var t := RunOf(State(0, 0, buf, Resting, 0, [], Quiet, [], 0, [], []), steps);
            && 0 <= t.wpos - t.rpos <= PIPEBUFSIZ && t.i <= |t.data|
            && t.returned + t.out <= t.accepted + t.data[..t.i]
            && |t.returned + t.out| == t.rpos && |t.accepted + t.data[..t.i]| == t.wpos
  {
    hide LegalRun;
    var s := State(0, 0, buf, Resting, 0, [], Quiet, [], 0, [], []);
    assert Written(s) == [] && Received(s) == [];
    RunKeepsInv(s, steps);
  }

  // When a call may return

  /** What finished reads have returned since s. */
  function Got(s: State, t: State): seq<Byte> {
    if |s.returned| <= |t.returned| then t.returned[|s.returned|..] else []
  }

  /** What finished writes have stored since s. */
  function Stored(s: State, t: State): seq<Byte> {
    if |s.accepted| <= |t.accepted| then t.accepted[|s.accepted|..] else []
  }

  /** A read in progress ends only by a step of the reader, and never with more than was asked for.  It
      ends with fewer only where the writer's position it loaded was its own: the pipe was empty.  It ends
      with none only if in addition the pipe is closed.  And there it does end. */
  lemma ReadEnds(s: State, step: Step)
    requires Inv(s) && !s.reader.Resting?
    ensures var t := After(s, step);
            && (t.reader.Resting? ==> step.Reader? && t.returned == s.returned + Got(s, t) && |Got(s, t)| <= s.n)
            && (t.reader.Resting? && |Got(s, t)| < s.n ==> s.reader == Decide(s.rpos) && Got(s, t) == s.out)
            && (t.reader.Resting? && |Got(s, t)| == 0 ==> step == Reader(true))
            && (!t.reader.Resting? ==> t.returned == s.returned)
            && (step.Reader? && s.reader == Decide(s.rpos) && (step.closed || s.out != []) ==> t.reader.Resting?)
  {
  }

  /** A write in progress ends only by a step of the writer.  It ends short only if the pipe is closed and
      was full by the reader's position it loaded; and there it does end. */
  lemma WriteEnds(s: State, step: Step)
    requires Inv(s) && !s.writer.Quiet?
    ensures var t := After(s, step);
            && (!t.writer.Quiet? ==> t.accepted == s.accepted)
            && (t.writer.Quiet? ==> step.Writer? && Stored(s, t) <= s.data && t.accepted == s.accepted + Stored(s, t))
            && (t.writer.Quiet? && |Stored(s, t)| < |s.data| ==>
                  step == Writer(true) && s.writer.Judge? && s.wpos >= s.writer.rpos + PIPEBUFSIZ)
            && (step == Writer(true) && s.writer.Judge? && s.wpos >= s.writer.rpos + PIPEBUFSIZ ==> t.writer.Quiet?)
  {
    if step.Writer? && s.writer.Publish? {
      assert s.data[..s.i + 1] <= s.data;
    }
  }

  // What a call achieves on its own

  function Readers(k: nat, closed: bool): seq<Step> { seq(k, _ => Reader(closed)) }
  function Writers(k: nat, closed: bool): seq<Step> { seq(k, _ => Writer(closed)) }

  lemma {:induction false} RunThen(s: State, a: seq<Step>, b: seq<Step>)
    ensures RunOf(s, a + b) == RunOf(RunOf(s, a), b)
    decreases |a|
  {
    hide After;
    if a == [] {
      assert a + b == b;
    } else {
      assert (a + b)[1..] == a[1..] + b;
      RunThen(After(s, a[0]), a[1..], b);
    }
  }

  lemma TwoSteps(s: State, a: Step, b: Step)
    ensures RunOf(s, [a, b]) == After(After(s, a), b)
  {
    hide After;
    assert [a, b][1..] == [b] && [b][1..] == [];
    assert RunOf(After(s, a), [b]) == RunOf(After(After(s, a), b), []);
  }

  lemma FourSteps(s: State, a: Step, steps: seq<Step>)
    requires steps == [a, a, a, a]
    ensures RunOf(s, steps) == After(After(After(After(s, a), a), a), a)
  {
    hide After;
    TwoSteps(s, a, a);
    TwoSteps(After(After(s, a), a), a, a);
    assert steps == [a, a] + [a, a];
    RunThen(s, [a, a], [a, a]);
  }

  /** The read in progress with k more bytes. */
  function Further(s: State, k: nat): State
    requires s.i <= |s.data| && s.rpos + k <= |Written(s)|
  {
    s.(rpos := s.rpos + k, out := s.out + Written(s)[s.rpos..s.rpos + k])
  }

  lemma ReadByte(s: State)
    requires Inv(s) && s.reader == Test && s.rpos < s.wpos
    ensures RunOf(s, Readers(4, false)) == NextByte(Further(s, 1))
  {
    var b := At(s.buf, s.rpos);
    assert b == Written(s)[s.rpos];
    assert Written(s)[s.rpos..s.rpos + 1] == [b];
    ReaderMarch(s, b);
  }

  lemma ReaderMarch(s: State, b: Byte)
    requires s.reader == Test && s.rpos != s.wpos && b == At(s.buf, s.rpos)
    ensures RunOf(s, Readers(4, false)) == NextByte(s.(rpos := s.rpos + 1, out := s.out + [b]))
  {
    hide At, RunOf;
    var z := Reader(false);
    var s1, s2, s3 := s.(reader := Decide(s.wpos)), s.(reader := Take), s.(reader := Advance(b));
    assert After(s, z) == s1;
    assert After(s1, z) == s2;
    assert After(s2, z) == s3;
    assert After(s3, z) == NextByte(s.(rpos := s.rpos + 1, out := s.out + [b]));
    FourSteps(s, z, Readers(4, false));
  }

  lemma {:induction false} ReadBytes(s: State, k: nat)
    requires Inv(s) && s.reader == Test && s.rpos + k <= s.wpos && |s.out| + k <= s.n
    ensures RunOf(s, Readers(4 * k, false)) == if k == 0 then s else NextByte(Further(s, k))
    decreases k
  {
    hide Inv;
    if k > 0 {
      var j: nat := k - 1;
      ReadBytes(s, j);
      var t := RunOf(s, Readers(4 * j, false));
      Between(s, t, j);
      assert Readers(4 * k, false) == Readers(4 * j, false) + Readers(4, false);
      RunThen(s, Readers(4 * j, false), Readers(4, false));
      ReadByte(t);
    }
  }

  /** In the middle of it. */
  lemma Between(s: State, t: State, j: nat)
    requires Inv(s) && s.reader == Test && s.rpos + j < s.wpos && |s.out| + j < s.n
    requires t == if j == 0 then s else NextByte(Further(s, j))
    ensures Inv(t) && t.reader == Test && t.rpos < t.wpos && |Written(s)| == s.wpos
    ensures Further(t, 1) == Further(s, j + 1)
  {
    hide Inv, Further, Written, NextByte;
    RestingFits(s);
    if j > 0 {
      BetweenKeeps(s, j);
      MoreAfter(s, j);
    }
  }

  lemma MoreAfter(s: State, j: nat)
    requires s.i <= |s.data| && s.rpos + j < |Written(s)| && s.reader == Test && |s.out| + j < s.n
    ensures var t := NextByte(Further(s, j));
            && t.reader == Test && t.rpos == s.rpos + j && t.wpos == s.wpos && t.i == s.i && t.data == s.data && t.accepted == s.accepted
            && t.rpos + 1 <= |Written(t)| && Further(t, 1) == Further(s, j + 1)
  {
    Slices(Written(s), s.rpos, j);
    var t := NextByte(Further(s, j));
    assert Written(t)[t.rpos..t.rpos + 1] == [Written(s)[s.rpos + j]];
    assert (s.out + Written(s)[s.rpos..s.rpos + j]) + [Written(s)[s.rpos + j]] == s.out + Written(s)[s.rpos..s.rpos + j + 1];
  }

  lemma Slices(w: seq<Byte>, r: nat, j: nat)
    requires r + j < |w|
    ensures w[r..r + j + 1] == w[r..r + j] + [w[r + j]] && w[..r + j] == w[..r] + w[r..r + j]
  {
  }

  lemma BetweenKeeps(s: State, j: nat)
    requires Inv(s) && s.reader == Test && s.rpos + j < s.wpos && |s.out| + j < s.n
    ensures Inv(NextByte(Further(s, j)))
  {
    var t := NextByte(Further(s, j));
    assert Written(t) == Written(s);
    Slices(Written(s), s.rpos, j);
    assert Received(t) == Received(s) + Written(s)[s.rpos..s.rpos + j];
  }

  function Min(a: int, b: int): int { if a < b then a else b }

  /** The steps of a read of n bytes while k wait: four a byte, and two more to find the pipe empty. */
  function ReadCall(n: nat, k: nat, closed: bool): seq<Step> {
    [StartRead(n)] + Readers(4 * k, false) + if k < n then Readers(2, closed) else []
  }

  /** Left alone, a read returns the next bytes written, as many as it asked for or as there are; with
      none there it returns none exactly if the pipe is closed, and looks again otherwise. */
  lemma ReadReturns(s: State, n: nat, closed: bool)
    requires Inv(s) && s.reader == Resting
    ensures var k: nat := Min(n, s.wpos - s.rpos);
            var t := RunOf(s, ReadCall(n, k, closed));
            && |Written(s)| == s.wpos
            && (k > 0 || n == 0 || closed ==>
                  t == s.(rpos := s.rpos + k, n := 0, returned := s.returned + Written(s)[s.rpos..s.rpos + k]))
            && (k == 0 < n && !closed ==> t.reader == Test && t.rpos == s.rpos)
  {
    hide Inv, RunOf, Readers;
    RestingFits(s);
    var k: nat := Min(n, s.wpos - s.rpos);
    var a := After(s, StartRead(n));
    StartReadKeeps(s, n);
    var last := if k < n then Readers(2, closed) else [];
    var rest := Readers(4 * k, false) + last;
    assert ReadCall(n, k, closed) == [StartRead(n)] + rest;
    OneStep(s, StartRead(n));
    RunThen(s, [StartRead(n)], rest);
    if n > 0 {
      ReadBytes(a, k);
      RunThen(a, Readers(4 * k, false), last);
      var b := if k == 0 then a else NextByte(Further(a, k));
      if k < n {
        FindsEmpty(b, closed);
      } else {
        NoStep(b);
      }
    } else {
      NoReaders();
      NoStep(a);
    }
  }

  lemma RestingFits(s: State)
    requires Inv(s)
    ensures s.i <= |s.data| && s.rpos <= s.wpos == |Written(s)| && (s.reader == Resting ==> s.out == [])
  {
  }

  lemma OneStep(s: State, step: Step)
    ensures RunOf(s, [step]) == After(s, step)
  {
    hide After;
    assert [step][1..] == [];
  }

  lemma NoStep(s: State)
    ensures RunOf(s, []) == s
  {
  }

  lemma NoReaders()
    ensures Readers(0, false) == []
  {
  }

  /** Two steps of a reader that finds the pipe empty. */
  lemma FindsEmpty(s: State, closed: bool)
    requires s.reader == Test && s.rpos == s.wpos
    ensures RunOf(s, Readers(2, closed)) == if |s.out| > 0 || closed then EndRead(s) else s
  {
    hide RunOf;
    assert Readers(2, closed) == [Reader(closed), Reader(closed)];
    TwoSteps(s, Reader(closed), Reader(closed));
    assert s.(reader := Decide(s.wpos)).(reader := Test) == s;
  }

  lemma WriteByte(s: State)
    requires Inv(s) && s.writer == Probe && s.wpos < s.rpos + PIPEBUFSIZ && s.wpos + 1 < LIMIT
    ensures var t := RunOf(s, Writers(4, false)); Inv(t) && t == NextStore(s.(wpos := s.wpos + 1, i := s.i + 1, buf := t.buf))
  {
    hide Inv, Put, RunOf;
    InvFits(s);
    var z := Writer(false);
    var s1, s2 := s.(writer := Judge(s.rpos)), s.(writer := Store);
    var s3 := s.(writer := Publish, buf := Put(s.buf, s.wpos, s.data[s.i]));
    assert After(s, z) == s1;
    StepKeepsInv(s, z);
    assert After(s1, z) == s2;
    StepKeepsInv(s1, z);
    assert After(s2, z) == s3;
    StepKeepsInv(s2, z);
    assert After(s3, z) == NextStore(s.(wpos := s.wpos + 1, i := s.i + 1, buf := s3.buf));
    StepKeepsInv(s3, z);
    FourSteps(s, z, Writers(4, false));
  }

  lemma InvFits(s: State)
    requires Inv(s)
    ensures s.writer == Probe ==> s.i < |s.data|
  {
  }

  lemma {:induction false} WriteBytes(s: State, k: nat)
    requires Inv(s) && s.writer == Probe && s.wpos + k <= s.rpos + PIPEBUFSIZ && s.i + k <= |s.data| && s.wpos + k < LIMIT
    ensures var t := RunOf(s, Writers(4 * k, false));
            Inv(t) && t == if k == 0 then s else NextStore(s.(wpos := s.wpos + k, i := s.i + k, buf := t.buf))
    decreases k
  {
    hide Inv;
    if k > 0 {
      var j: nat := k - 1;
      WriteBytes(s, j);
      assert Writers(4 * k, false) == Writers(4 * j, false) + Writers(4, false);
      RunThen(s, Writers(4 * j, false), Writers(4, false));
      WriteByte(RunOf(s, Writers(4 * j, false)));
    }
  }

  /** The steps of a write of n bytes while there is room for k: four a byte, and two more to find the
      pipe full. */
  function WriteCall(data: seq<Byte>, k: nat, closed: bool): seq<Step> {
    [StartWrite(data)] + Writers(4 * k, false) + if k < |data| then Writers(2, closed) else []
  }

  /** Left alone, a write stores its bytes, all of them or as many as there is room for; in a full pipe it
      gives up exactly if the pipe is closed, and looks again otherwise. */
  lemma WriteReturns(s: State, data: seq<Byte>, closed: bool)
    requires Inv(s) && s.writer == Quiet && s.wpos + |data| < LIMIT
    ensures var k: nat := Min(|data|, s.rpos + PIPEBUFSIZ - s.wpos);
            var t := RunOf(s, WriteCall(data, k, closed));
            && Inv(t)
            && (k == |data| || closed ==>
                  t == s.(wpos := s.wpos + k, buf := t.buf, accepted := s.accepted + data[..k], i := 0))
            && (k < |data| && !closed ==> t.writer == Probe && t.wpos == s.wpos + k && t.i == k)
  {
    hide Inv;
    QuietFits(s);
    var k: nat := Min(|data|, s.rpos + PIPEBUFSIZ - s.wpos);
    var a := After(s, StartWrite(data));
    StartWriteKeeps(s, data);
    var last := if k < |data| then Writers(2, closed) else [];
    var rest := Writers(4 * k, false) + last;
    assert WriteCall(data, k, closed) == [StartWrite(data)] + rest;
    assert RunOf(s, [StartWrite(data)]) == a by {
      assert [StartWrite(data)][1..] == [];
    }
    RunThen(s, [StartWrite(data)], rest);
    if data != [] {
      WriteBytes(a, k);
      RunThen(a, Writers(4 * k, false), last);
      var b := RunOf(a, Writers(4 * k, false));
      if k < |data| {
        assert last == [Writer(closed), Writer(closed)];
        TwoSteps(b, Writer(closed), Writer(closed));
        StepKeepsInv(b, Writer(closed));
        StepKeepsInv(After(b, Writer(closed)), Writer(closed));
      } else {
        assert data[..k] == data;
      }
    } else {
      assert rest == [] && s.accepted + data[..0] == s.accepted;
    }
  }

  lemma QuietFits(s: State)
    requires Inv(s)
    ensures s.rpos <= s.wpos <= s.rpos + PIPEBUFSIZ && (s.writer == Quiet ==> s.data == [] && s.i == 0)
  {
  }

  /** What is written into an empty pipe is read from it. */
  lemma WriteThenRead(s: State, data: seq<Byte>, n: nat)
    requires Inv(s) && s.writer == Quiet && s.reader == Resting && s.rpos == s.wpos
    requires 0 < |data| <= PIPEBUFSIZ && |data| <= n && s.wpos + |data| < LIMIT
    ensures var t := RunOf(s, WriteCall(data, |data|, false) + ReadCall(n, |data|, false));
            t.reader == Resting && t.writer == Quiet && t.rpos == t.wpos && t.returned == s.returned + data
  {
    hide RunOf, WriteCall, ReadCall;
    WriteReturns(s, data, false);
    var a := RunOf(s, WriteCall(data, |data|, false));
    assert data[..|data|] == data;
    assert Written(a)[a.rpos..a.rpos + |data|] == data by {
      assert Written(s) == s.accepted && Written(a) == s.accepted + data;
    }
    RunThen(s, WriteCall(data, |data|, false), ReadCall(n, |data|, false));
    ReadReturns(a, n, false);
  }
}
