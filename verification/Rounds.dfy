/** The guests' own programs on top of the protocol: the writer announces and sends its messages and
    waits for the final count, the readers ask for a size, fetch that many bytes and acknowledge.
    A program runs any number of rounds; the interrupt handler of the default guest runs one. */
module Rounds {
  import opened Options
  import opened Protocol
  import opened Broadcast

  type Message = m: seq<Byte> | |m| < 0x1_0000_0000 witness []

  datatype WriterPhase = Announce | Sending(sent: nat)
  datatype ReaderPhase = Ask | Fetching(count: nat, got: nat)

  datatype Program =
    | WriterProgram(sent: seq<Message>, todo: seq<Message>, wphase: WriterPhase)
    | ReaderProgram(done: nat, left: nat, rphase: ReaderPhase)

  /** The next port operation of a program; None when all its rounds are over. */
  function NextOp(p: Program): Option<Op> {
    match p
    case WriterProgram(_, todo, phase) =>
      if todo == [] then None
      else if phase.Announce? then Some(BeginWrite(|todo[0]|))
      else if phase.sent < |todo[0]| then Some(PutByte(todo[0][phase.sent]))
      else Some(EndWrite)
    case ReaderProgram(_, left, phase) =>
      if left == 0 then None
      else if phase.Ask? then Some(BeginRead)
      else if phase.count > BUFFER_SIZE then Some(EndRead(0))
      else if phase.got < phase.count then Some(GetByte)
      else Some(EndRead(phase.count))
  }

  /** How a program goes on when its operation is accepted and returns `value`. */
  function Advance(p: Program, value: nat): Program
    requires NextOp(p).Some?
  {
    match p
    case WriterProgram(sent, todo, phase) =>
      if phase.Announce? then p.(wphase := Sending(0))
      else if phase.sent < |todo[0]| then p.(wphase := Sending(phase.sent + 1))
      else WriterProgram(sent + [todo[0]], todo[1..], Announce)
    case ReaderProgram(done, left, phase) =>
      if phase.Ask? then p.(rphase := Fetching(value, 0))
      else if phase.count <= BUFFER_SIZE && phase.got < phase.count then
        p.(rphase := Fetching(phase.count, phase.got + 1))
      else ReaderProgram(done + 1, left - 1, Ask)
  }

  function TruncateAll(ms: seq<Message>): (r: seq<Payload>)
    ensures |r| == |ms|
  {
    if ms == [] then [] else TruncateAll(ms[..|ms| - 1]) + [Truncate(ms[|ms| - 1])]
  }

  /** The VMs of `sys`, each running its program. */
  datatype Clients = Clients(sys: System, programs: seq<Program>)

  ghost predicate Fits(c: Clients) {
    Shape(c.sys) && |c.programs| == |c.sys.vms|
  }

  /** VM `i` can take a step: it is about to enter its next operation, or it sleeps in it. */
  ghost predicate Unfinished(c: Clients, i: nat)
    requires Fits(c)
  {
    i < |c.programs| && NextOp(c.programs[i]).Some?
  }

  /** A step of VM `i` that is not a spurious wake-up. */
  ghost predicate Ready(c: Clients, i: nat)
    requires Fits(c)
  {
    Unfinished(c, i) && (c.sys.threads[i].Awake? || c.sys.threads[i].notified)
  }

  function OutcomeOf(c: Clients, i: nat): Outcome
    requires Fits(c) && Unfinished(c, i)
  {
    Critical(NextOp(c.programs[i]).value, c.sys.shared, c.sys.vms[i]).outcome
  }

  function Move(c: Clients, i: nat): (c': Clients)
    requires Fits(c) && Unfinished(c, i)
    ensures Fits(c')
  {
    var outcome := OutcomeOf(c, i);
    Clients(Run(c.sys, i, NextOp(c.programs[i]).value),
            if outcome.Done? then c.programs[i := Advance(c.programs[i], outcome.value)] else c.programs)
  }

  // ----- how programs and protocol state stay tied together

  ghost predicate WriterTied(s: Shared, v: Vm, w: WriterLog, p: Program) {
    && p.WriterProgram?
    && (v.transferCompleted <==> p.sent != [])
    && match p.wphase
       case Announce =>
         !s.roundInProgress && w.published == TruncateAll(p.sent)
       case Sending(k) =>
         && p.todo != [] && k <= |p.todo[0]| && s.roundInProgress
         && (s.dataReady <==> k == |p.todo[0]|)
         && s.expectedBytes == |p.todo[0]|
         && (k < |p.todo[0]| ==> s.receivedBytes == k && w.sent == p.todo[0][..k])
         && w.published == TruncateAll(p.sent) + (if s.dataReady then [Truncate(p.todo[0])] else [])
  }

  ghost predicate ReaderTied(s: Shared, v: Vm, p: Program) {
    && p.ReaderProgram?
    && v.lastReadGeneration == p.done
    && match p.rphase
       case Ask => !InFlight(v)
       case Fetching(count, got) => InFlight(v) && p.left > 0 && count == s.size && got == v.readOffset
  }

  ghost predicate ThreadTied(v: Vm, t: Thread, p: Program) {
    && (NextOp(p).Some? ==> v.modeDelivered)
    && (t.Asleep? ==> NextOp(p) == Some(t.op))
  }

  ghost predicate Tied(c: Clients) {
    && Fits(c)
    && Inv(c.sys)
    && NoLostWakeup(c.sys)
    && WriterTied(c.sys.shared, c.sys.vms[0], c.sys.writerLog, c.programs[0])
    && (forall i :: 1 <= i < |c.programs| ==> ReaderTied(c.sys.shared, c.sys.vms[i], c.programs[i]))
    && (forall i :: 0 <= i < |c.programs| ==> ThreadTied(c.sys.vms[i], c.sys.threads[i], c.programs[i]))
  }

  lemma WriterTieAnnounce(s: Shared, v: Vm, w: WriterLog, p: Program)
    requires RoundOk(s) && WriterOk(s, v, w) && WriterTied(s, v, w, p) && NextOp(p).Some? && p.wphase.Announce?
    requires Critical(NextOp(p).value, s, v).outcome.Done?
    ensures var op := NextOp(p).value;
            var e := Critical(op, s, v);
            WriterTied(e.shared, e.vm, ObserveWriter(w, op, e.outcome), Advance(p, e.outcome.value))
  {
    assert p.todo[0][..0] == [];
  }

  lemma WriterTieByte(s: Shared, v: Vm, w: WriterLog, p: Program)
    requires RoundOk(s) && WriterOk(s, v, w) && WriterTied(s, v, w, p) && NextOp(p).Some?
    requires p.wphase.Sending? && p.wphase.sent < |p.todo[0]|
    requires Critical(NextOp(p).value, s, v).outcome.Done?
    ensures var op := NextOp(p).value;
            var e := Critical(op, s, v);
            WriterTied(e.shared, e.vm, ObserveWriter(w, op, e.outcome), Advance(p, e.outcome.value))
  {
    var m, k := p.todo[0], p.wphase.sent;
    assert m[..k] + [m[k]] == m[..k + 1];
    assert m[..|m|] == m;
  }

  /** A writer operation, for the writer's program. */
  lemma WriterTie(s: Shared, v: Vm, w: WriterLog, p: Program)
    requires RoundOk(s) && WriterOk(s, v, w) && WriterTied(s, v, w, p) && NextOp(p).Some?
    requires Critical(NextOp(p).value, s, v).outcome.Done?
    ensures var op := NextOp(p).value;
            var e := Critical(op, s, v);
            WriterTied(e.shared, e.vm, ObserveWriter(w, op, e.outcome), Advance(p, e.outcome.value))
  {
    if p.wphase.Announce? {
      WriterTieAnnounce(s, v, w, p);
    } else if p.wphase.sent < |p.todo[0]| {
      WriterTieByte(s, v, w, p);
    } else {
      assert (p.sent + [p.todo[0]])[..|p.sent|] == p.sent;
    }
  }

  lemma ReaderTie(s: Shared, v: Vm, r: ReaderLog, published: seq<Payload>, p: Program)
    requires RoundOk(s) && ReaderOk(s, v, r, published) && ReaderTied(s, v, p) && NextOp(p).Some?
    requires Critical(NextOp(p).value, s, v).outcome.Done?
    ensures var e := Critical(NextOp(p).value, s, v);
            ReaderTied(e.shared, e.vm, Advance(p, e.outcome.value))
  {
  }

  /** An operation of a program is dispatched and disciplined. */
  lemma MoveAllowed(c: Clients, i: nat)
    requires Tied(c) && Unfinished(c, i)
    ensures var op := NextOp(c.programs[i]).value;
            && Dispatched(c.sys.vms[i], op)
            && (i > 0 && (op.GetByte? || op.EndRead?) ==> c.sys.readerLogs[i].begun)
  {
    assert ThreadTied(c.sys.vms[i], c.sys.threads[i], c.programs[i]);
    if i > 0 {
      assert ReaderTied(c.sys.shared, c.sys.vms[i], c.programs[i]);
      assert ReaderOk(c.sys.shared, c.sys.vms[i], c.sys.readerLogs[i], c.sys.writerLog.published);
    }
  }

  /** A move of a program is an action of the protocol. */
  function ActionOf(c: Clients, i: nat): Action
    requires Fits(c) && Unfinished(c, i)
  {
    if c.sys.threads[i].Awake? then Enter(i, NextOp(c.programs[i]).value) else Wake(i)
  }

  lemma MoveIsAction(c: Clients, i: nat)
    requires Tied(c) && Unfinished(c, i)
    ensures Enabled(c.sys, ActionOf(c, i)) && Disciplined(c.sys, ActionOf(c, i))
    ensures Move(c, i).sys == Next(c.sys, ActionOf(c, i))
    ensures Inv(Move(c, i).sys) && NoLostWakeup(Move(c, i).sys)
  {
    MoveAllowed(c, i);
    assert ThreadTied(c.sys.vms[i], c.sys.threads[i], c.programs[i]);
    StepInv(c.sys, ActionOf(c, i));
    WakeupStep(c.sys, ActionOf(c, i));
  }

  /** The size a reader in flight was told stays the size. */
  lemma OthersStayTied(c: Clients, i: nat, j: nat)
    requires Tied(c) && Unfinished(c, i) && 1 <= j < |c.programs| && j != i
    ensures ReaderTied(Move(c, i).sys.shared, c.sys.vms[j], c.programs[j])
  {
    MoveIsAction(c, i);
    assert ReaderTied(c.sys.shared, c.sys.vms[j], c.programs[j]);
    if InFlight(c.sys.vms[j]) {
      SnapshotStep(c.sys, ActionOf(c, i), j);
    }
  }

  lemma CriticalFrame(op: Op, s: Shared, v: Vm)
    ensures var e := Critical(op, s, v);
            && e.vm.mode == v.mode && (v.modeDelivered ==> e.vm.modeDelivered)
            && e.shared.stopped == s.stopped && e.shared.readerCount == s.readerCount
            && (!e.outcome.Done? ==> e.shared == s && e.vm == v && !e.notify)
  {
  }

  lemma InstallThreadTied(s: System, i: nat, op: Op, e: Effect, j: nat, p: Program, p': Program)
    requires Shape(s) && i < |s.vms| && j < |s.vms|
    requires ThreadTied(s.vms[j], s.threads[j], p)
    requires s.vms[i].modeDelivered ==> e.vm.modeDelivered
    requires if i == j then NextOp(p) == Some(op) && (e.outcome.Blocked? ==> p' == p) else p' == p
    ensures ThreadTied(Install(s, i, op, e).vms[j], Install(s, i, op, e).threads[j], p')
  {
  }

  lemma MoveThreads(c: Clients, i: nat)
    requires Tied(c) && Unfinished(c, i)
    ensures var c' := Move(c, i);
            forall j :: 0 <= j < |c'.programs| ==> ThreadTied(c'.sys.vms[j], c'.sys.threads[j], c'.programs[j])
  {
    var c' := Move(c, i);
    var op := NextOp(c.programs[i]).value;
    var e := Critical(op, c.sys.shared, c.sys.vms[i]);
    CriticalFrame(op, c.sys.shared, c.sys.vms[i]);
    forall j | 0 <= j < |c'.programs|
      ensures ThreadTied(c'.sys.vms[j], c'.sys.threads[j], c'.programs[j])
    {
      assert ThreadTied(c.sys.vms[j], c.sys.threads[j], c.programs[j]);
      InstallThreadTied(c.sys, i, op, e, j, c.programs[j], c'.programs[j]);
    }
  }

  lemma WriterMove(c: Clients)
    requires Tied(c) && Unfinished(c, 0) && OutcomeOf(c, 0).Done?
    ensures WriterTied(Move(c, 0).sys.shared, Move(c, 0).sys.vms[0], Move(c, 0).sys.writerLog, Move(c, 0).programs[0])
  {
    WriterTie(c.sys.shared, c.sys.vms[0], c.sys.writerLog, c.programs[0]);
  }

  lemma ReaderMove(c: Clients, i: nat)
    requires Tied(c) && 1 <= i && Unfinished(c, i) && OutcomeOf(c, i).Done?
    ensures WriterTied(Move(c, i).sys.shared, Move(c, i).sys.vms[0], Move(c, i).sys.writerLog, Move(c, i).programs[0])
    ensures ReaderTied(Move(c, i).sys.shared, Move(c, i).sys.vms[i], Move(c, i).programs[i])
  {
    var sys := c.sys;
    MoveAllowed(c, i);
    assert ReaderTied(sys.shared, sys.vms[i], c.programs[i]);
    assert ReaderOk(sys.shared, sys.vms[i], sys.readerLogs[i], sys.writerLog.published);
    ReaderTie(sys.shared, sys.vms[i], sys.readerLogs[i], sys.writerLog.published, c.programs[i]);
    ReaderSide(sys.shared, sys.vms[i], sys.readerLogs[i], sys.writerLog.published, NextOp(c.programs[i]).value);
  }

  /** Every move keeps programs and protocol tied, whether the buffer is stopped or not. */
  lemma MoveTied(c: Clients, i: nat)
    requires Tied(c) && Unfinished(c, i)
    ensures Tied(Move(c, i))
  {
    var c' := Move(c, i);
    MoveIsAction(c, i);
    MoveThreads(c, i);
    if OutcomeOf(c, i).Done? {
      forall j | 1 <= j < |c.programs| && j != i
        ensures ReaderTied(c'.sys.shared, c'.sys.vms[j], c'.programs[j])
      {
        OthersStayTied(c, i, j);
      }
      if i == 0 {
        WriterMove(c);
      } else {
        ReaderMove(c, i);
      }
    } else {
      FruitlessStep(c.sys, i, NextOp(c.programs[i]).value);
    }
  }

  // ----- no move is refused

  lemma WriterNeverRefused(s: Shared, v: Vm, w: WriterLog, p: Program)
    requires RoundOk(s) && WriterOk(s, v, w) && WriterTied(s, v, w, p) && !s.stopped && NextOp(p).Some?
    ensures !Critical(NextOp(p).value, s, v).outcome.Rejected?
  {
  }

  lemma ReaderNeverRefused(s: Shared, v: Vm, r: ReaderLog, published: seq<Payload>, p: Program)
    requires RoundOk(s) && ReaderOk(s, v, r, published) && ReaderTied(s, v, p) && !s.stopped && NextOp(p).Some?
    requires InFlight(v) ==> s.completedReaders < s.readerCount
    ensures !Critical(NextOp(p).value, s, v).outcome.Rejected?
    ensures s.dataReady && v.lastReadGeneration < s.generation ==> Critical(NextOp(p).value, s, v).outcome.Done?
  {
  }

  /** Unless the buffer is stopped, the host never refuses an operation of these programs. */
  lemma NeverRefused(c: Clients, i: nat)
    requires Tied(c) && Unfinished(c, i) && !c.sys.shared.stopped
    ensures !OutcomeOf(c, i).Rejected?
  {
    var sys := c.sys;
    if i == 0 {
      WriterNeverRefused(sys.shared, sys.vms[0], sys.writerLog, c.programs[0]);
    } else {
      assert ReaderTied(sys.shared, sys.vms[i], c.programs[i]);
      assert ReaderOk(sys.shared, sys.vms[i], sys.readerLogs[i], sys.writerLog.published);
      AckCountBounds(sys.vms, sys.shared.generation);
      ReaderNeverRefused(sys.shared, sys.vms[i], sys.readerLogs[i], sys.writerLog.published, c.programs[i]);
    }
  }

  // ----- deadlock freedom

  ghost function Total(p: Program): nat {
    match p
    case WriterProgram(sent, todo, _) => |sent| + |todo|
    case ReaderProgram(done, left, _) => done + left
  }

  /** All programs run `rounds` rounds, and nobody has stopped the buffer. */
  ghost predicate Balanced(c: Clients, rounds: nat) {
    && Tied(c)
    && !c.sys.shared.stopped
    && forall i :: 0 <= i < |c.programs| ==> Total(c.programs[i]) == rounds
  }

  ghost predicate AllFinished(c: Clients)
    requires Fits(c)
  {
    forall i :: 0 <= i < |c.programs| ==> !Unfinished(c, i)
  }

  lemma LaggingReader(s: Shared, v: Vm, r: ReaderLog, published: seq<Payload>, p: Program, rounds: nat)
    requires RoundOk(s) && ReaderOk(s, v, r, published) && ReaderTied(s, v, p) && !s.stopped
    requires Total(p) == rounds && s.dataReady && v.lastReadGeneration < s.generation <= rounds
    requires s.completedReaders < s.readerCount
    ensures NextOp(p).Some? && Critical(NextOp(p).value, s, v).outcome.Done?
  {
    ReaderNeverRefused(s, v, r, published, p);
  }

  /** A reader that is behind the published generation is not blocked. */
  lemma LaggingReaderRuns(c: Clients, rounds: nat, i: nat)
    requires Balanced(c, rounds) && 1 <= i < |c.programs|
    requires c.sys.shared.dataReady && c.sys.vms[i].lastReadGeneration < c.sys.shared.generation <= rounds
    ensures Unfinished(c, i) && OutcomeOf(c, i).Done?
  {
    var sys := c.sys;
    assert ReaderOk(sys.shared, sys.vms[i], sys.readerLogs[i], sys.writerLog.published);
    AckCountBounds(sys.vms, sys.shared.generation);
    LaggingReader(sys.shared, sys.vms[i], sys.readerLogs[i], sys.writerLog.published, c.programs[i], rounds);
  }

  lemma SomeoneRuns(c: Clients, rounds: nat) returns (i: nat)
    requires Balanced(c, rounds) && !AllFinished(c)
    ensures Unfinished(c, i) && OutcomeOf(c, i).Done?
  {
    var s, p := c.sys.shared, c.programs[0];
    assert Total(p) == rounds;
    AckCountBounds(c.sys.vms, s.generation);
    if p.todo != [] && (p.wphase.Announce? || p.wphase.sent < |p.todo[0]| || s.completedReaders == s.readerCount) {
      i := 0;
    } else if p.todo == [] {
      FinishedWriterMeansFinishedReaders(c, rounds);
    } else {
      i :| 1 <= i < |c.sys.vms| && c.sys.vms[i].lastReadGeneration != s.generation;
      assert ReaderOk(s, c.sys.vms[i], c.sys.readerLogs[i], c.sys.writerLog.published);
      LaggingReaderRuns(c, rounds, i);
    }
  }

  /** One reader, when the writer has finished all rounds and every acknowledgement is counted. */
  lemma FinishedReader(s: Shared, v: Vm, r: ReaderLog, published: seq<Payload>, p: Program, rounds: nat)
    requires ReaderOk(s, v, r, published) && ReaderTied(s, v, p) && Total(p) == rounds
    requires s.generation == rounds == v.lastReadGeneration
    ensures NextOp(p).None?
  {
  }

  lemma FinishedWriter(s: Shared, v: Vm, w: WriterLog, p: Program, rounds: nat)
    requires RoundOk(s) && WriterOk(s, v, w) && WriterTied(s, v, w, p) && Total(p) == rounds && NextOp(p).None?
    ensures s.generation == rounds && !s.roundInProgress
    ensures s.dataReady ==> s.completedReaders == s.readerCount
    ensures !s.dataReady ==> s.generation == 0
  {
  }

  lemma FinishedWriterMeansAllRead(c: Clients, rounds: nat, i: nat)
    requires Balanced(c, rounds) && !Unfinished(c, 0) && 1 <= i < |c.programs|
    ensures c.sys.vms[i].lastReadGeneration == c.sys.shared.generation == rounds
  {
    assert Total(c.programs[0]) == rounds;
    FinishedWriter(c.sys.shared, c.sys.vms[0], c.sys.writerLog, c.programs[0], rounds);
    AckCountBounds(c.sys.vms, c.sys.shared.generation);
    assert ReaderOk(c.sys.shared, c.sys.vms[i], c.sys.readerLogs[i], c.sys.writerLog.published);
  }

  lemma FinishedWriterMeansFinishedReaders(c: Clients, rounds: nat)
    requires Balanced(c, rounds) && !Unfinished(c, 0)
    ensures AllFinished(c)
    ensures c.sys.shared.generation == rounds
    ensures forall i :: 1 <= i < |c.sys.vms| ==> c.sys.vms[i].lastReadGeneration == rounds
  {
    var s := c.sys.shared;
    assert Total(c.programs[0]) == rounds;
    FinishedWriter(s, c.sys.vms[0], c.sys.writerLog, c.programs[0], rounds);
    forall i | 1 <= i < |c.programs|
      ensures !Unfinished(c, i) && c.sys.vms[i].lastReadGeneration == rounds
    {
      FinishedWriterMeansAllRead(c, rounds, i);
      assert ReaderOk(s, c.sys.vms[i], c.sys.readerLogs[i], c.sys.writerLog.published);
      FinishedReader(s, c.sys.vms[i], c.sys.readerLogs[i], c.sys.writerLog.published, c.programs[i], rounds);
    }
  }

  /** Deadlock freedom: until all programs are finished, some VM has a step that is not a spurious
      wake-up. */
  lemma DeadlockFree(c: Clients, rounds: nat) returns (i: nat)
    requires Balanced(c, rounds) && !AllFinished(c)
    ensures Ready(c, i)
  {
    i := SomeoneRuns(c, rounds);
    assert ThreadTied(c.sys.vms[i], c.sys.threads[i], c.programs[i]);
  }

  /** A spurious wake-up changes nothing at all. */
  lemma SpuriousWakeupIsStutter(c: Clients, i: nat)
    requires Tied(c) && Unfinished(c, i) && !Ready(c, i)
    ensures Move(c, i) == c
  {
    assert ThreadTied(c.sys.vms[i], c.sys.threads[i], c.programs[i]);
    FruitlessStep(c.sys, i, NextOp(c.programs[i]).value);
  }

  lemma AdvanceTotal(p: Program, value: nat)
    requires NextOp(p).Some?
    ensures Total(Advance(p, value)) == Total(p)
  {
  }

  lemma BalancedMove(c: Clients, rounds: nat, i: nat)
    requires Balanced(c, rounds) && Unfinished(c, i)
    ensures Balanced(Move(c, i), rounds)
  {
    MoveTied(c, i);
    var c' := Move(c, i);
    CriticalFrame(NextOp(c.programs[i]).value, c.sys.shared, c.sys.vms[i]);
    AdvanceTotal(c.programs[i], if OutcomeOf(c, i).Done? then OutcomeOf(c, i).value else 0);
    forall j | 0 <= j < |c'.programs|
      ensures Total(c'.programs[j]) == rounds
    {
      assert Total(c.programs[j]) == rounds;
    }
  }

  // ----- termination

  /** Operations a program may still have to perform: a message costs its bytes and two more, and
      a reader's round costs at most 256 and two more. */
  ghost function Work(ms: seq<Message>): nat {
    if ms == [] then 0 else |ms[0]| + 2 + Work(ms[1..])
  }

  ghost function Remaining(p: Program): int {
    match p
    case WriterProgram(_, todo, phase) =>
      Work(todo) - (if phase.Announce? then 0 else phase.sent + 1)
    case ReaderProgram(_, left, phase) =>
      left * (BUFFER_SIZE + 2) - (if phase.Ask? then 0 else BUFFER_SIZE + 1 - (phase.count - phase.got))
  }

  ghost function RemainingAll(ps: seq<Program>): int {
    if ps == [] then 0 else RemainingAll(ps[..|ps| - 1]) + Remaining(ps[|ps| - 1])
  }

  /** Threads not settled in a wait. */
  ghost function Restless(ts: seq<Thread>): nat {
    if ts == [] then 0
    else Restless(ts[..|ts| - 1]) + (if ts[|ts| - 1].Awake? || ts[|ts| - 1].notified then 1 else 0)
  }

  lemma {:induction false} RemainingUpdate(ps: seq<Program>, i: nat, p: Program)
    requires i < |ps|
    ensures RemainingAll(ps[i := p]) == RemainingAll(ps) - Remaining(ps[i]) + Remaining(p)
  {
    var n := |ps| - 1;
    if i < n {
      assert ps[i := p][..n] == ps[..n][i := p];
      RemainingUpdate(ps[..n], i, p);
    } else {
      assert ps[i := p][..n] == ps[..n];
    }
  }

  lemma {:induction false} RestlessUpdate(ts: seq<Thread>, i: nat, op: Op)
    requires i < |ts| && (ts[i].Awake? || ts[i].notified)
    ensures Restless(ts[i := Asleep(op, false)]) == Restless(ts) - 1
  {
    var n := |ts| - 1;
    if i < n {
      assert ts[i := Asleep(op, false)][..n] == ts[..n][i := Asleep(op, false)];
      RestlessUpdate(ts[..n], i, op);
    } else {
      assert ts[i := Asleep(op, false)][..n] == ts[..n];
    }
  }

  lemma {:induction false} RestlessBound(ts: seq<Thread>)
    ensures Restless(ts) <= |ts|
  {
    if ts != [] { RestlessBound(ts[..|ts| - 1]); }
  }

  lemma RemainingPositive(c: Clients, i: nat)
    requires Tied(c) && i < |c.programs|
    ensures Remaining(c.programs[i]) >= 0
  {
    if i > 0 {
      assert ReaderTied(c.sys.shared, c.sys.vms[i], c.programs[i]);
      assert ReaderOk(c.sys.shared, c.sys.vms[i], c.sys.readerLogs[i], c.sys.writerLog.published);
    }
  }

  lemma {:induction false} RemainingAllPositive(c: Clients, n: nat)
    requires Tied(c) && n <= |c.programs|
    ensures RemainingAll(c.programs[..n]) >= 0
  {
    if n > 0 {
      RemainingAllPositive(c, n - 1);
      RemainingPositive(c, n - 1);
      assert c.programs[..n][..n - 1] == c.programs[..n - 1];
    }
  }

  ghost function Measure(c: Clients): int
    requires Fits(c)
  {
    RemainingAll(c.programs) * (|c.programs| + 1) + Restless(c.sys.threads)
  }

  lemma MeasurePositive(c: Clients)
    requires Tied(c)
    ensures Measure(c) >= 0
  {
    RemainingAllPositive(c, |c.programs|);
    assert c.programs[..|c.programs|] == c.programs;
  }

  /** An accepted operation is one operation less to perform. */
  lemma AdvanceIsProgress(c: Clients, i: nat)
    requires Tied(c) && Unfinished(c, i) && OutcomeOf(c, i).Done?
    ensures Remaining(Advance(c.programs[i], OutcomeOf(c, i).value)) < Remaining(c.programs[i])
  {
    if i > 0 {
      assert ReaderTied(c.sys.shared, c.sys.vms[i], c.programs[i]);
      assert ReaderOk(c.sys.shared, c.sys.vms[i], c.sys.readerLogs[i], c.sys.writerLog.published);
    }
  }

  lemma LexicographicDecrease(r: int, r': int, n: nat, a: nat, a': nat)
    requires r' < r && a' <= n
    ensures r' * (n + 1) + a' < r * (n + 1) + a
  {
    assert r' * (n + 1) <= (r - 1) * (n + 1) == r * (n + 1) - (n + 1);
  }

  lemma MeasureDecrease(ps: seq<Program>, i: nat, p: Program, ts: seq<Thread>, ts': seq<Thread>)
    requires i < |ps| == |ts| == |ts'| && Remaining(p) < Remaining(ps[i])
    ensures RemainingAll(ps[i := p]) * (|ps| + 1) + Restless(ts') < RemainingAll(ps) * (|ps| + 1) + Restless(ts)
  {
    RemainingUpdate(ps, i, p);
    RestlessBound(ts');
    LexicographicDecrease(RemainingAll(ps), RemainingAll(ps[i := p]), |ps|, Restless(ts), Restless(ts'));
  }

  lemma AcceptedMoveDecreases(c: Clients, i: nat)
    requires Tied(c) && Unfinished(c, i) && OutcomeOf(c, i).Done?
    ensures Measure(Move(c, i)) < Measure(c)
  {
    AdvanceIsProgress(c, i);
    var p := Advance(c.programs[i], OutcomeOf(c, i).value);
    MeasureDecrease(c.programs, i, p, c.sys.threads, Move(c, i).sys.threads);
  }

  lemma FewerRestless(c: Clients, c': Clients)
    requires Fits(c) && Fits(c') && c'.programs == c.programs
    requires Restless(c'.sys.threads) < Restless(c.sys.threads)
    ensures Measure(c') < Measure(c)
  {
  }

  lemma BlockedMoveDecreases(c: Clients, i: nat)
    requires Fits(c) && Ready(c, i) && OutcomeOf(c, i).Blocked?
    ensures Measure(Move(c, i)) < Measure(c)
  {
    var op := NextOp(c.programs[i]).value;
    FruitlessStep(c.sys, i, op);
    RestlessUpdate(c.sys.threads, i, op);
    FewerRestless(c, Move(c, i));
  }

  lemma MoveDecreases(c: Clients, rounds: nat, i: nat)
    requires Balanced(c, rounds) && Ready(c, i)
    ensures Measure(Move(c, i)) < Measure(c)
  {
    NeverRefused(c, i);
    if OutcomeOf(c, i).Done? {
      AcceptedMoveDecreases(c, i);
    } else {
      BlockedMoveDecreases(c, i);
    }
  }

  // ----- runs of the programs

  /** All modes delivered, nothing sent yet; the writer has one message per round. */
  ghost predicate Start(c: Clients, messages: seq<Message>) {
    && Fits(c)
    && c.sys.shared == InitShared(|c.sys.vms| - 1)
    && c.sys.writerLog == WriterLog(0, [], [])
    && c.programs[0] == WriterProgram([], messages, Announce)
    && (forall i :: 1 <= i < |c.programs| ==> c.programs[i] == ReaderProgram(0, |messages|, Ask))
    && (forall i :: 0 <= i < |c.programs| ==>
          && c.sys.vms[i] == InitVm(if i == 0 then Writer else Reader).(modeDelivered := true)
          && c.sys.threads[i] == Awake
          && c.sys.readerLogs[i] == ReaderLog(false, [], []))
  }

  ghost predicate MoveAt(states: seq<Clients>, movers: seq<nat>, k: nat)
    requires |states| == |movers| + 1 && k < |movers|
  {
    Fits(states[k]) && Ready(states[k], movers[k]) && states[k + 1] == Move(states[k], movers[k])
  }

  /** A run in any schedule, spurious wake-ups (which are stutters) left out. */
  ghost predicate IsClientRun(states: seq<Clients>, movers: seq<nat>, messages: seq<Message>) {
    && |states| == |movers| + 1
    && Start(states[0], messages)
    && forall k :: 0 <= k < |movers| ==> MoveAt(states, movers, k)
  }

  lemma StartBalanced(c: Clients, messages: seq<Message>)
    requires Start(c, messages)
    ensures Balanced(c, |messages|)
  {
    AckCountBounds(c.sys.vms, 0);
    forall i | 0 <= i < |c.programs|
      ensures Total(c.programs[i]) == |messages|
      ensures ThreadOk(c.sys.vms[i], c.sys.threads[i])
      ensures ThreadTied(c.sys.vms[i], c.sys.threads[i], c.programs[i])
    {
      assert c.sys.vms[i] == InitVm(if i == 0 then Writer else Reader).(modeDelivered := true);
    }
  }

  lemma {:induction false} ClientRunBalanced(states: seq<Clients>, movers: seq<nat>, messages: seq<Message>, k: nat)
    requires IsClientRun(states, movers, messages) && k < |states|
    ensures Balanced(states[k], |messages|)
    ensures Measure(states[k]) + k <= Measure(states[0])
    ensures WholeProgram(states[k].programs[0]) == messages
  {
    if k == 0 {
      StartBalanced(states[0], messages);
      assert [] + messages == messages;
    } else {
      ClientRunBalanced(states, movers, messages, k - 1);
      assert MoveAt(states, movers, k - 1);
      MoveDecreases(states[k - 1], |messages|, movers[k - 1]);
      BalancedMove(states[k - 1], |messages|, movers[k - 1]);
      WriterKeepsMessages(states[k - 1], movers[k - 1]);
    }
  }

  ghost function WholeProgram(p: Program): seq<Message> {
    if p.WriterProgram? then p.sent + p.todo else []
  }

  lemma WriterKeepsMessages(c: Clients, i: nat)
    requires Tied(c) && Unfinished(c, i)
    ensures WholeProgram(Move(c, i).programs[0]) == WholeProgram(c.programs[0])
  {
    var p := c.programs[0];
    if i == 0 && OutcomeOf(c, 0).Done? && !p.wphase.Announce? && p.wphase.sent >= |p.todo[0]| {
      assert p.sent + [p.todo[0]] + p.todo[1..] == p.sent + p.todo;
    }
  }

  /** When all programs are over, every transfer is completed and every reader holds every message. */
  lemma FinishedHoldsAll(c: Clients, messages: seq<Message>)
    requires Balanced(c, |messages|) && AllFinished(c) && WholeProgram(c.programs[0]) == messages
    ensures forall i :: 1 <= i < |c.sys.vms| ==> c.sys.readerLogs[i].acked == TruncateAll(messages)
    ensures messages != [] ==> forall i :: 0 <= i < |c.sys.vms| ==> c.sys.vms[i].transferCompleted
  {
    FinishedWriterMeansFinishedReaders(c, |messages|);
    assert !Unfinished(c, 0);
    assert c.programs[0].sent == messages;
    forall i | 1 <= i < |c.sys.vms|
      ensures c.sys.readerLogs[i].acked == TruncateAll(messages)
      ensures messages != [] ==> c.sys.vms[i].transferCompleted
    {
      assert ReaderOk(c.sys.shared, c.sys.vms[i], c.sys.readerLogs[i], c.sys.writerLog.published);
    }
  }

  /** Termination and total correctness: any schedule takes at most Measure(start) steps; as long
      as somebody is unfinished somebody is ready; and once nobody is ready every VM has completed
      its transfers and every reader holds every message, each cut to 256 bytes, in order. */
  lemma RoundsComplete(states: seq<Clients>, movers: seq<nat>, messages: seq<Message>)
    requires IsClientRun(states, movers, messages)
    ensures |movers| <= Measure(states[0])
    ensures var end := states[|movers|];
            && Fits(end)
            && ((forall i :: !Ready(end, i)) ==>
                  && AllFinished(end)
                  && (forall i :: 1 <= i < |end.sys.vms| ==>
                        end.sys.readerLogs[i].acked == TruncateAll(messages))
                  && (messages != [] ==>
                        forall i :: 0 <= i < |end.sys.vms| ==> end.sys.vms[i].transferCompleted))
  {
    var end := states[|movers|];
    ClientRunBalanced(states, movers, messages, |movers|);
    MeasurePositive(end);
    if forall i :: !Ready(end, i) {
      if !AllFinished(end) {
        var i := DeadlockFree(end, |messages|);
      }
      FinishedHoldsAll(end, messages);
    }
  }
}
