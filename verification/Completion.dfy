/** What whole runs of the hypervisor come to: how the shared port is understood, what a reader's file
    holds, how a failure spreads, that every run ends, and what its exit status says. */
module Completion {
  import opened Options
  import opened Protocol
  import opened Broadcast
  import opened Rounds
  import opened PrivateFiles
  import opened GuestPrograms
  import opened Hypervisor

  // ----- interrupts, modes and the shared port

  /** Interrupts injected into VM `i` by the first `k` events. */
  ghost function Injections(events: seq<Event>, i: nat, k: nat): nat
    requires k <= |events|
  {
    if k == 0 then 0
    else Injections(events, i, k - 1) + (if events[k - 1].Interrupt? && events[k - 1].vm == i then 1 else 0)
  }

  lemma EventFrame(m: Machine, e: Event, i: nat)
    requires Sized(m) && Possible(m, e) && i < |m.lives|
    ensures Sized(After(m, e)) && |After(m, e).lives| == |m.lives|
    ensures After(m, e).lives[i].interruptCount ==
              m.lives[i].interruptCount - (if e.Interrupt? && e.vm == i then 1 else 0)
  {
    if e.TransferStep? {
      TransferTouchesOne(m, e.vm);
    }
  }

  /** Every VM is interrupted at most twice and attempts at most one transfer; a VM whose guest returns
      to its main program has been interrupted exactly twice and has attempted exactly one; host and
      guest always agree on whether the mode is known, and on which mode it is. */
  lemma {:induction false} TwoInterruptsOneTransfer(states: seq<Machine>, events: seq<Event>, k: nat, i: nat)
    requires IsMachineRun(states, events) && k < |states| && i < |states[0].lives|
    ensures Sized(states[k]) && |states[k].lives| == |states[0].lives|
    ensures var m := states[k];
            && Injections(events, i, k) + m.lives[i].interruptCount == 2
            && m.lives[i].transfers <= 1
            && (m.lives[i].stage.Returned? || m.lives[i].stage.Succeeded? ==>
                  Injections(events, i, k) == 2 && m.lives[i].transfers == 1)
            && (m.lives[i].modeInitialized <==> m.clients.sys.vms[i].modeDelivered)
            && (m.lives[i].modeInitialized ==> (m.lives[i].writer <==> m.clients.sys.vms[i].mode == Writer))
  {
    MachineRunInv(states, events, k);
    if k > 0 {
      TwoInterruptsOneTransfer(states, events, k - 1, i);
      assert EventAt(states, events, k - 1);
      EventFrame(states[k - 1], events[k - 1], i);
    }
    assert LifeAt(states[k], i);
    ModesAssigned(states[k], i);
  }

  lemma ModesAssigned(m: Machine, i: nat)
    requires MachineInv(m) && i < |m.lives|
    ensures m.clients.sys.vms[i].mode == (if i == 0 then Writer else Reader)
  {
    var sys := m.clients.sys;
    assert i > 0 ==> ReaderOk(sys.shared, sys.vms[i], sys.readerLogs[i], sys.writerLog.published);
  }

  /** The one-byte IN on port 0x510 is never mistaken: the host answers each port access of the handler
      with the operation the guest means by it. */
  lemma PortNeverMistaken(states: seq<Machine>, events: seq<Event>, k: nat)
    requires IsMachineRun(states, events) && k < |events|
    ensures Sized(states[k]) && Possible(states[k], events[k])
    ensures var m, e := states[k], events[k];
            && (e.ModeRead? ==> Decode(m.clients.sys.vms[e.vm], Encode(GetMode)) == Some(GetMode))
            && (e.TransferStep? && m.clients.sys.threads[e.vm].Awake? ==>
                  Decode(m.clients.sys.vms[e.vm], Encode(NextOp(m.clients.programs[e.vm]).value))
                  == NextOp(m.clients.programs[e.vm]))
  {
    MachineRunInv(states, events, k);
    assert EventAt(states, events, k);
    if events[k].ModeRead? {
      ModeReadIsMode(states[k], events[k].vm);
    } else if events[k].TransferStep? {
      TransferIsMove(states[k], events[k].vm);
    }
  }

  // ----- what a reader's file holds

  /** The message a writer has sent completely. */
  ghost function Sent(m: Machine): Payload
    requires Sized(m)
  {
    var p := m.clients.programs[0];
    if !p.WriterProgram? then []
    else if p.sent != [] then p.sent[0]
    else if p.todo != [] then p.todo[0]
    else []
  }

  /** A reader holds what the writer sent, as soon as the reader has acknowledged it. */
  lemma AcknowledgedIsSent(m: Machine, i: nat)
    requires MachineInv(m) && 1 <= i < |m.lives| && |m.clients.sys.readerLogs[i].acked| == 1
    ensures m.clients.sys.shared.generation == 1 && m.clients.sys.shared.dataReady
    ensures m.clients.sys.vms[i].lastReadGeneration == 1
    ensures m.clients.sys.readerLogs[i].acked == [Truncate(Sent(m))]
    ensures Truncate(Sent(m)) == m.clients.sys.shared.data[..m.clients.sys.shared.size]
  {
    var sys, p := m.clients.sys, m.clients.programs[0];
    assert LifeAt(m, 0);
    assert ReaderOk(sys.shared, sys.vms[i], sys.readerLogs[i], sys.writerLog.published);
    WriterHasSent(sys.shared, sys.vms[0], sys.writerLog, p);
  }

  lemma WriterHasSent(s: Shared, v: Vm, w: WriterLog, p: Program)
    requires RoundOk(s) && WriterOk(s, v, w) && WriterTied(s, v, w, p)
    requires Total(p) <= 1 && s.generation >= 1
    ensures s.generation == 1 && s.dataReady
    ensures p.sent == [] ==> p.todo != []
    ensures w.published == [Truncate(if p.sent != [] then p.sent[0] else p.todo[0])]
  {
  }

  ghost predicate Reported(stage: Stage) {
    stage == Returned(true) || stage.Succeeded?
  }

  lemma ReportedReader(m: Machine, i: nat)
    requires MachineInv(m) && 1 <= i < |m.lives| && Reported(m.lives[i].stage)
    ensures SavedIn(m.files[i], Truncate(Sent(m)))
    ensures m.clients.sys.vms[i].lastReadGeneration == 1
  {
    assert LifeAt(m, i);
    assert ReaderTied(m.clients.sys.shared, m.clients.sys.vms[i], m.clients.programs[i]);
    AcknowledgedIsSent(m, i);
  }

  lemma ReportedWriter(m: Machine)
    requires MachineInv(m) && |m.lives| >= 1 && Reported(m.lives[0].stage)
    ensures LoadedFrom(m.files[0], Sent(m))
  {
    assert LifeAt(m, 0);
  }

  /** Main result on data: as soon as the guest of a reader reports success, its reader.txt begins with
      the first 256 bytes at most of what the writer sent; if the writer's guest reports success, what
      it sent is the beginning of its guest.txt. */
  lemma ReaderFileHoldsMessage(states: seq<Machine>, events: seq<Event>, k: nat, i: nat)
    requires IsMachineRun(states, events) && k < |states| && Sized(states[k]) && 1 <= i < |states[k].lives|
    requires Reported(states[k].lives[i].stage)
    ensures SavedIn(states[k].files[i], Truncate(Sent(states[k])))
    ensures Reported(states[k].lives[0].stage) ==> LoadedFrom(states[k].files[0], Sent(states[k]))
  {
    MachineRunInv(states, events, k);
    ReportedReader(states[k], i);
    if Reported(states[k].lives[0].stage) {
      ReportedWriter(states[k]);
    }
  }

  /** The process exits with success: every thread was created and joined, every VM completed. */
  ghost predicate ExitSuccess(m: Machine) {
    m.started && forall i :: 0 <= i < |m.lives| ==> m.lives[i].stage.Succeeded?
  }

  /** The first bytes of a file, at most 256. */
  ghost function Head(fs: Private, name: Name): Bytes {
    var content := Content(fs, name);
    if |content| <= 256 then content else content[..256]
  }

  lemma TruncatedHead(fs: Private, payload: Payload)
    requires LoadedFrom(fs, payload)
    ensures Truncate(payload) == Head(fs, GUEST_TXT)
  {
  }

  /** Every VM has completed its transfer, generation 1 is the only one and every reader has acknowledged it,
      and each reader's reader.txt begins with the first 256 bytes (all of them, if fewer) of the writer's
      guest.txt, each VM seeing its own files. */
  ghost predicate AllDelivered(m: Machine) {
    && Sized(m) && |m.lives| >= 1
    && var sys := m.clients.sys;
       && (forall i :: 0 <= i < |sys.vms| ==> sys.vms[i].transferCompleted)
       && sys.shared.generation == 1 && !sys.shared.roundInProgress
       && (forall i :: 1 <= i < |sys.vms| ==> sys.vms[i].lastReadGeneration == 1)
       && (forall i :: 1 <= i < |m.files| ==>
             && READER_TXT in m.files[i].files && GUEST_TXT in m.files[0].files
             && Head(m.files[0], GUEST_TXT) <= m.files[i].files[READER_TXT])
  }

  /** A successful exit means that everything has been delivered. */
  lemma SuccessMeansDelivered(states: seq<Machine>, events: seq<Event>, k: nat)
    requires IsMachineRun(states, events) && k < |states| && ExitSuccess(states[k])
    ensures AllDelivered(states[k])
  {
    var m := states[k];
    MachineRunInv(states, events, k);
    var sys := m.clients.sys;
    assert LifeAt(m, 0);
    assert m.clients.programs[0].sent != [] && !sys.shared.roundInProgress;
    ReportedWriter(m);
    TruncatedHead(m.files[0], Sent(m));
    WriterHasSent(sys.shared, sys.vms[0], sys.writerLog, m.clients.programs[0]);
    forall i | 1 <= i < |m.lives|
      ensures sys.vms[i].lastReadGeneration == 1 && SavedIn(m.files[i], Truncate(Sent(m)))
    {
      ReportedReader(m, i);
    }
    forall i | 0 <= i < |m.lives|
      ensures sys.vms[i].transferCompleted
    {
      assert LifeAt(m, i);
    }
  }

  // ----- how a failure spreads

  /** Once the buffer is stopped, the next operation of any VM still transferring is refused and ends
      the VM; nobody sleeps without having been notified. */
  lemma StoppedReachesAll(m: Machine, i: nat)
    requires MachineInv(m) && m.clients.sys.shared.stopped && i < |m.lives| && m.lives[i].stage.Transferring?
    ensures Possible(m, TransferStep(i)) && After(m, TransferStep(i)).lives[i].stage.Failing?
    ensures m.clients.sys.threads[i].Asleep? ==> m.clients.sys.threads[i].notified
  {
    assert LifeAt(m, i);
    TransferIsMove(m, i);
    StoppedRefuses(NextOp(m.clients.programs[i]).value, m.clients.sys.shared, m.clients.sys.vms[i]);
    assert ThreadTied(m.clients.sys.vms[i], m.clients.sys.threads[i], m.clients.programs[i]);
  }

  lemma StoppedRefuses(op: Op, s: Shared, v: Vm)
    requires s.stopped && !op.GetMode?
    ensures Critical(op, s, v).outcome.Rejected?
  {
  }

  lemma StoppedTransfer(m: Machine, i: nat)
    requires MachineInv(m) && Possible(m, TransferStep(i)) && m.clients.sys.shared.stopped
    ensures Sized(Transfer(m, i)) && |Transfer(m, i).lives| == |m.lives|
    ensures Transfer(m, i).clients.sys.shared == m.clients.sys.shared
    ensures Transfer(m, i).clients.sys.vms == m.clients.sys.vms
  {
    var op := NextOp(m.clients.programs[i]).value;
    TransferTouchesOne(m, i);
    TransferIsMove(m, i);
    StoppedRefuses(op, m.clients.sys.shared, m.clients.sys.vms[i]);
    FruitlessStep(m.clients.sys, i, op);
  }

  /** The protocol's state is left alone but for the mutex's own flags. */
  ghost predicate SameProgress(m: Machine, m': Machine, i: nat) {
    && Sized(m) && Sized(m') && i < |m.lives| == |m'.lives|
    && m'.clients.sys.shared == m.clients.sys.shared
    && m'.clients.sys.vms[i].transferCompleted == m.clients.sys.vms[i].transferCompleted
  }

  lemma StoppedInterrupt(m: Machine, i: nat, run: FileRun, j: nat)
    requires MachineInv(m) && Possible(m, Interrupt(i, run)) && j < |m.lives|
    ensures SameProgress(m, Inject(m, i, run), j)
  {
  }

  lemma StoppedModeRead(m: Machine, i: nat, j: nat)
    requires MachineInv(m) && Possible(m, ModeRead(i)) && j < |m.lives|
    ensures SameProgress(m, ReadMode(m, i), j)
  {
    ModeReadIsMode(m, i);
  }

  lemma StoppedStep(m: Machine, e: Event, i: nat)
    requires MachineInv(m) && Possible(m, e) && i < |m.lives| && m.clients.sys.shared.stopped
    ensures SameProgress(m, After(m, e), i)
  {
    match e {
      case Interrupt(j, run) => StoppedInterrupt(m, j, run, i);
      case TransferStep(j) => StoppedTransfer(m, j);
      case ModeRead(j) => StoppedModeRead(m, j, i);
      case _ =>
    }
  }

  lemma StoppedEvent(states: seq<Machine>, events: seq<Event>, k: nat, i: nat)
    requires IsMachineRun(states, events) && k < |events|
    requires Sized(states[k]) && states[k].clients.sys.shared.stopped && i < |states[k].lives|
    ensures Sized(states[k + 1]) && |states[k + 1].lives| == |states[k].lives|
    ensures states[k + 1].clients.sys.shared == states[k].clients.sys.shared
    ensures states[k + 1].clients.sys.vms[i].transferCompleted == states[k].clients.sys.vms[i].transferCompleted
  {
    MachineRunInv(states, events, k);
    assert EventAt(states, events, k);
    StoppedStep(states[k], events[k], i);
  }

  lemma IncompleteNotSucceeded(m: Machine, i: nat)
    requires MachineInv(m) && i < |m.lives| && !m.clients.sys.vms[i].transferCompleted
    ensures !m.lives[i].stage.Succeeded?
  {
    assert LifeAt(m, i);
  }

  /** After a stop the buffer never changes again, and a VM that had not completed its transfer never
      does, and never succeeds. */
  lemma {:induction false} StoppedIsFinalForAll(states: seq<Machine>, events: seq<Event>, j: nat, k: nat, i: nat)
    requires IsMachineRun(states, events) && j <= k < |states|
    requires Sized(states[j]) && states[j].clients.sys.shared.stopped && i < |states[j].lives|
    ensures Sized(states[k]) && |states[k].lives| == |states[j].lives|
    ensures states[k].clients.sys.shared == states[j].clients.sys.shared
    ensures states[k].clients.sys.vms[i].transferCompleted == states[j].clients.sys.vms[i].transferCompleted
    ensures !states[j].clients.sys.vms[i].transferCompleted ==> !states[k].lives[i].stage.Succeeded?
  {
    if j < k {
      StoppedIsFinalForAll(states, events, j, k - 1, i);
      StoppedEvent(states, events, k - 1, i);
    }
    MachineRunInv(states, events, k);
    if !states[k].clients.sys.vms[i].transferCompleted {
      IncompleteNotSucceeded(states[k], i);
    }
  }

  // ----- what decides the exit status

  /** The events in which something goes wrong outside the protocol: an unexpected exit of a guest, a
      thread that cannot be created or joined, a file request of the handler that fails. */
  ghost predicate Failure(m: Machine, e: Event)
    requires Sized(m) && Possible(m, e)
  {
    match e
    case Crash(_) => true
    case JoinFails => true
    case CreateFails(_) => true
    case Interrupt(i, run) =>
      m.lives[i].modeInitialized && m.lives[i].writer && !LoadGuestFile(m.files[i], run).loaded
    case Save(i, run) => !SaveReaderFile(m.files[i], run, |m.lives[i].stage.payload|).ok
    case _ => false
  }

  ghost predicate Sound(stage: Stage) {
    !stage.Failing? && !Quit(stage) && stage != Returned(false) && stage != Transferring(false)
  }

  ghost predicate Healthy(m: Machine)
    requires Sized(m)
  {
    m.started && !m.clients.sys.shared.stopped && forall i :: 0 <= i < |m.lives| ==> Sound(m.lives[i].stage)
  }

  /** Main has failed, or some VM can no longer succeed. */
  ghost predicate Doomed(m: Machine) {
    !m.started || exists i :: 0 <= i < |m.lives| && !Sound(m.lives[i].stage)
  }

  lemma SoundStage(s: Shared, v: Vm, w: WriterLog, p: Program, value: nat, received: Payload)
    requires NextOp(p).Some? && RoundOk(s)
    requires if p.WriterProgram? then WriterTied(s, v, w, p) else ReaderTied(s, v, p)
    requires Critical(NextOp(p).value, s, v).outcome == Done(value)
    ensures Sound(StageAfter(p, true, value, received))
  {
  }

  lemma HealthyTransfer(m: Machine, i: nat)
    requires MachineInv(m) && Possible(m, TransferStep(i)) && Healthy(m)
    ensures Sound(Transfer(m, i).lives[i].stage)
    ensures Transfer(m, i).lives == m.lives[i := Transfer(m, i).lives[i]]
    ensures Transfer(m, i).started && !Transfer(m, i).clients.sys.shared.stopped
  {
    var sys, p := m.clients.sys, m.clients.programs[i];
    TransferIsMove(m, i);
    NeverRefused(m.clients, i);
    CriticalFrame(NextOp(p).value, sys.shared, sys.vms[i]);
    assert m.lives[i := m.lives[i]] == m.lives;
    var outcome := OutcomeOf(m.clients, i);
    if outcome.Done? {
      assert i > 0 ==> ReaderTied(sys.shared, sys.vms[i], p);
      assert Sound(m.lives[i].stage);
      SoundStage(sys.shared, sys.vms[i], sys.writerLog, p, outcome.value, sys.readerLogs[i].bytes);
    }
  }

  lemma ReportedCompleted(m: Machine, i: nat)
    requires MachineInv(m) && i < |m.lives| && m.lives[i].stage == Returned(true)
    ensures m.clients.sys.vms[i].transferCompleted
  {
    var sys := m.clients.sys;
    assert LifeAt(m, i);
    if i > 0 {
      ReportedReader(m, i);
      assert ReaderOk(sys.shared, sys.vms[i], sys.readerLogs[i], sys.writerLog.published);
    }
  }

  lemma HealthyHalt(m: Machine, i: nat)
    requires MachineInv(m) && Possible(m, Halt(i)) && Healthy(m)
    ensures After(m, Halt(i)) == AtStage(m, i, Succeeded)
  {
    assert Sound(m.lives[i].stage);
    ReportedCompleted(m, i);
  }

  lemma HealthyModeRead(m: Machine, i: nat)
    requires MachineInv(m) && Possible(m, ModeRead(i)) && Healthy(m)
    ensures Sized(ReadMode(m, i)) && Healthy(ReadMode(m, i))
  {
    ModeReadIsMode(m, i);
  }

  lemma HealthyInterrupt(m: Machine, i: nat, run: FileRun)
    requires MachineInv(m) && Possible(m, Interrupt(i, run)) && Healthy(m) && !Failure(m, Interrupt(i, run))
    ensures Sized(Inject(m, i, run)) && Healthy(Inject(m, i, run))
  {
  }

  lemma HealthySave(m: Machine, i: nat, run: FileRun)
    requires MachineInv(m) && Possible(m, Save(i, run)) && Healthy(m) && !Failure(m, Save(i, run))
    ensures Sized(SaveFile(m, i, run)) && Healthy(SaveFile(m, i, run))
  {
  }

  lemma HealthyStep(m: Machine, e: Event)
    requires MachineInv(m) && Possible(m, e) && Healthy(m) && !Failure(m, e)
    ensures Sized(After(m, e)) && Healthy(After(m, e))
  {
    match e {
      case BootEnds(_, _) =>
      case Interrupt(i, run) => HealthyInterrupt(m, i, run);
      case ModeRead(i) => HealthyModeRead(m, i);
      case TransferStep(i) =>
        TransferTouchesOne(m, i);
        HealthyTransfer(m, i);
      case Save(i, run) => HealthySave(m, i, run);
      case Halt(i) => HealthyHalt(m, i);
      case _ =>
    }
  }

  lemma UnsoundTransfer(m: Machine, i: nat)
    requires MachineInv(m) && Possible(m, TransferStep(i)) && !Sound(m.lives[i].stage)
    ensures !Sound(Transfer(m, i).lives[i].stage)
  {
    assert LifeAt(m, i);
  }

  lemma TransferTouchesOne(m: Machine, i: nat)
    requires Sized(m) && Possible(m, TransferStep(i))
    ensures Transfer(m, i).lives == m.lives[i := Transfer(m, i).lives[i]]
    ensures Transfer(m, i).lives[i] == m.lives[i].(stage := Transfer(m, i).lives[i].stage)
    ensures Transfer(m, i).started == m.started
    ensures Sized(Transfer(m, i))
  {
    assert m.lives[i := m.lives[i]] == m.lives;
  }

  /** An unsound VM that acts and is not in a transfer can only fail, or end by its abort. */
  lemma UnsoundEnds(m: Machine, e: Event)
    requires MachineInv(m) && Possible(m, e) && !OfMain(e) && !e.TransferStep? && !Sound(m.lives[e.vm].stage)
    ensures e.Halt? || e.Crash? || e.AbortBy?
  {
    assert LifeAt(m, e.vm);
  }

  lemma UnsoundActor(m: Machine, e: Event)
    requires MachineInv(m) && Possible(m, e) && !OfMain(e) && !Sound(m.lives[e.vm].stage)
    ensures |After(m, e).lives| == |m.lives| && !Sound(After(m, e).lives[e.vm].stage)
  {
    if e.TransferStep? {
      TransferTouchesOne(m, e.vm);
      UnsoundTransfer(m, e.vm);
    } else {
      UnsoundEnds(m, e);
    }
  }

  lemma OtherStages(m: Machine, e: Event, i: nat)
    requires Sized(m) && Possible(m, e) && i < |m.lives| && (OfMain(e) || e.vm != i)
    ensures |After(m, e).lives| == |m.lives|
    ensures After(m, e).lives[i] == m.lives[i] || After(m, e).lives[i].stage.Missing?
  {
    if e.TransferStep? {
      TransferTouchesOne(m, e.vm);
    }
  }

  lemma UnsoundStays(m: Machine, e: Event, i: nat)
    requires MachineInv(m) && Possible(m, e) && i < |m.lives| && !Sound(m.lives[i].stage)
    ensures |After(m, e).lives| == |m.lives| && !Sound(After(m, e).lives[i].stage)
  {
    if !OfMain(e) && e.vm == i {
      UnsoundActor(m, e);
    } else {
      OtherStages(m, e, i);
    }
  }

  lemma DoomedStep(m: Machine, e: Event)
    requires MachineInv(m) && Possible(m, e) && (Doomed(m) || Failure(m, e))
    ensures Doomed(After(m, e))
  {
    if Doomed(m) && m.started {
      var i :| 0 <= i < |m.lives| && !Sound(m.lives[i].stage);
      UnsoundStays(m, e, i);
    } else if m.started && !OfMain(e) {
      assert !Sound(After(m, e).lives[e.vm].stage);
    }
  }

  ghost predicate FailureAt(states: seq<Machine>, events: seq<Event>, k: nat)
    requires |states| == |events| + 1 && k < |events|
  {
    EventAt(states, events, k) && Failure(states[k], events[k])
  }

  lemma HealthyEvent(states: seq<Machine>, events: seq<Event>, k: nat)
    requires IsMachineRun(states, events) && k < |events| && !FailureAt(states, events, k)
    requires Sized(states[k]) && Healthy(states[k])
    ensures Sized(states[k + 1]) && Healthy(states[k + 1])
  {
    MachineRunInv(states, events, k);
    assert EventAt(states, events, k);
    HealthyStep(states[k], events[k]);
  }

  lemma {:induction false} HealthyRun(states: seq<Machine>, events: seq<Event>, k: nat)
    requires IsMachineRun(states, events) && k < |states|
    requires forall j :: 0 <= j < k ==> !FailureAt(states, events, j)
    ensures Sized(states[k]) && Healthy(states[k])
  {
    if k > 0 {
      HealthyRun(states, events, k - 1);
      HealthyEvent(states, events, k - 1);
    }
  }

  lemma DoomedEvent(states: seq<Machine>, events: seq<Event>, k: nat)
    requires IsMachineRun(states, events) && k < |events|
    requires Doomed(states[k]) || FailureAt(states, events, k)
    ensures Doomed(states[k + 1])
  {
    MachineRunInv(states, events, k);
    assert EventAt(states, events, k);
    DoomedStep(states[k], events[k]);
  }

  lemma {:induction false} DoomedRun(states: seq<Machine>, events: seq<Event>, j: nat, k: nat)
    requires IsMachineRun(states, events) && j < k < |states| && FailureAt(states, events, j)
    ensures Doomed(states[k])
  {
    if j < k - 1 {
      DoomedRun(states, events, j, k - 1);
    }
    DoomedEvent(states, events, k - 1);
  }

  /** Every thread has ended. */
  ghost predicate Ended(m: Machine) {
    forall i :: 0 <= i < |m.lives| ==> Over(m.lives[i].stage)
  }

  /** A run that has ended exits with success iff nothing went wrong in it: no guest crashed, every
      thread was created and joined, and the handlers' file requests succeeded. In particular the
      protocol itself never makes a VM fail. */
  lemma ExitStatus(states: seq<Machine>, events: seq<Event>)
    requires IsMachineRun(states, events) && Ended(states[|events|])
    ensures ExitSuccess(states[|events|]) <==>
            forall j :: 0 <= j < |events| ==> !FailureAt(states, events, j)
  {
    var m := states[|events|];
    if j :| 0 <= j < |events| && FailureAt(states, events, j) {
      DoomedRun(states, events, j, |events|);
    } else {
      HealthyRun(states, events, |events|);
      forall i | 0 <= i < |m.lives|
        ensures m.lives[i].stage.Succeeded?
      {
        assert Sound(m.lives[i].stage);
      }
    }
  }
}
