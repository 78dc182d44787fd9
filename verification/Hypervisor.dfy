/** Whole runs of the hypervisor with the default guest on every VM: the host's run loop with its two
    interrupts, the guest's interrupt handler, the shared buffer, the files the guests load from and
    save to, and failures at any point. */
module Hypervisor {
  import opened Options
  import opened Protocol
  import opened Broadcast
  import opened Rounds
  import opened PrivateFiles
  import opened GuestPrograms

  const IRQ_COUNT: nat := 2

  /** Where a VM is: the guest's boot code, its waiting loop, the handler asking for the mode, the
      handler transferring, the handler saving what it received, back in the main program, and the
      ends of the VM's thread. A thread is Failing between its failure and its call of abort; a VM whose
      thread could not be created is Missing. */
  datatype Stage =
    | Booting
    | Spinning
    | AskingMode
    | Transferring(loaded: bool)
    | Saving(payload: Payload)
    | Returned(ok: bool)
    | Succeeded
    | Failing
    | Aborted
    | Missing

  /** interruptCount belongs to the host's run loop; modeInitialized and writer are the guest's
      variables; transfers counts how often the guest has started a transfer. */
  datatype Life = Life(interruptCount: nat, modeInitialized: bool, writer: bool, transfers: nat, stage: Stage)

  /** `started` is main's: every thread so far could be created and joined. */
  datatype Machine = Machine(clients: Clients, lives: seq<Life>, files: seq<Private>, started: bool)

  datatype Event =
    | BootEnds(vm: nat, boot: seq<Submitted>)
    | Interrupt(vm: nat, run: FileRun)
    | ModeRead(vm: nat)
    | TransferStep(vm: nat)
    | Save(vm: nat, run: FileRun)
    | Halt(vm: nat)
    | Crash(vm: nat)
    | AbortBy(vm: nat)
    | JoinFails
    | CreateFails(first: nat)

  ghost predicate Sized(m: Machine) {
    Fits(m.clients) && |m.lives| == |m.files| == |m.clients.programs|
  }

  function Idle(i: nat): Program {
    if i == 0 then WriterProgram([], [], Announce) else ReaderProgram(0, 0, Ask)
  }

  ghost predicate PoweredOn(m: Machine) {
    && Sized(m) && m.started && Init(m.clients.sys)
    && forall i :: 0 <= i < |m.lives| ==>
         && m.clients.programs[i] == Idle(i)
         && m.lives[i] == Life(IRQ_COUNT, false, false, 0, Booting)
         && WellFormed(m.files[i])
  }

  // ----- the steps

  function AtStage(m: Machine, i: nat, stage: Stage): Machine
    requires i < |m.lives|
  {
    m.(lives := m.lives[i := m.lives[i].(stage := stage)])
  }

  /** The program the handler starts, for the role in the guest's vm_mode. */
  function NewTransfer(p: Program, writer: bool, message: Message): Program {
    if writer then WriterProgram(if p.WriterProgram? then p.sent else [], [message], Announce)
    else ReaderProgram(if p.ReaderProgram? then p.done else 0, 1, Ask)
  }

  /** The host injects an interrupt; the guest's handler asks for the mode the first time it runs,
      and starts a transfer every other time. */
  ghost function Inject(m: Machine, i: nat, run: FileRun): Machine
    requires Sized(m) && i < |m.lives| && m.lives[i].interruptCount > 0
  {
    var life := m.lives[i].(interruptCount := m.lives[i].interruptCount - 1);
    if !life.modeInitialized then m.(lives := m.lives[i := life.(stage := AskingMode)])
    else
      var load := if life.writer then LoadGuestFile(m.files[i], run) else LoadResult(m.files[i], [], true);
      var program := NewTransfer(m.clients.programs[i], life.writer, load.payload);
      Machine(m.clients.(programs := m.clients.programs[i := program]),
              m.lives[i := life.(transfers := life.transfers + 1, stage := Transferring(load.loaded))],
              m.files[i := load.fs], m.started)
  }

  /** The handler's one-byte IN for the mode, through the host's dispatch. */
  function ReadMode(m: Machine, i: nat): Machine
    requires Sized(m) && i < |m.lives|
  {
    var sys := m.clients.sys;
    match Decode(sys.vms[i], Encode(GetMode))
    case None => AtStage(m, i, Failing)
    case Some(op) =>
      var outcome := Critical(op, sys.shared, sys.vms[i]).outcome;
      if !outcome.Done? then AtStage(m, i, Failing)
      else m.(clients := m.clients.(sys := Run(sys, i, op)),
              lives := m.lives[i :=
                m.lives[i].(modeInitialized := true, writer := outcome.value == 1, stage := Spinning)])
  }

  /** What the host makes of the VM's next port access, or what the VM sleeps in. */
  function Dispatch(m: Machine, i: nat): Option<Op>
    requires Sized(m) && i < |m.lives|
  {
    if m.clients.sys.threads[i].Asleep? then Some(m.clients.sys.threads[i].op)
    else if NextOp(m.clients.programs[i]).None? then None
    else Decode(m.clients.sys.vms[i], Encode(NextOp(m.clients.programs[i]).value))
  }

  /** The handler after an accepted operation of program `p`, with the bytes received so far. */
  function StageAfter(p: Program, loaded: bool, value: nat, received: Payload): Stage
    requires NextOp(p).Some?
  {
    if NextOp(Advance(p, value)).Some? then Transferring(loaded)
    else match p
      case WriterProgram(_, todo, _) => Returned(loaded && value == Min(|todo[0]|, BUFFER_SIZE))
      case ReaderProgram(_, _, phase) =>
        if phase.Fetching? && phase.count > BUFFER_SIZE then Returned(false) else Saving(received)
  }

  /** One critical section of VM `i`'s transfer, or its return from the wait. */
  function Transfer(m: Machine, i: nat): Machine
    requires Sized(m) && i < |m.lives| && m.lives[i].stage.Transferring?
    requires NextOp(m.clients.programs[i]).Some?
  {
    var sys, p := m.clients.sys, m.clients.programs[i];
    match Dispatch(m, i)
    case None => AtStage(m, i, Failing)
    case Some(op) =>
      var m' := m.(clients := m.clients.(sys := Run(sys, i, op)));
      match Critical(op, sys.shared, sys.vms[i]).outcome
      case Blocked => m'
      case Rejected => AtStage(m', i, Failing)
      case Done(value) =>
        AtStage(m'.(clients := m'.clients.(programs := m.clients.programs[i := Advance(p, value)])), i,
                StageAfter(p, m.lives[i].stage.loaded, value, sys.readerLogs[i].bytes))
  }

  ghost function SaveFile(m: Machine, i: nat, run: FileRun): Machine
    requires i < |m.lives| == |m.files| && m.lives[i].stage.Saving?
  {
    var save := SaveReaderFile(m.files[i], run, |m.lives[i].stage.payload|);
    AtStage(m, i, Returned(save.ok)).(files := m.files[i := save.fs])
  }

  function AbortMachine(m: Machine): Machine
    requires Sized(m)
  {
    m.(clients := m.clients.(sys := AbortAll(m.clients.sys)))
  }

  /** The VM has no thread any more, or never had one. */
  predicate Over(stage: Stage) {
    stage.Succeeded? || stage.Aborted? || stage.Missing?
  }

  /** An event of the main thread. */
  predicate OfMain(e: Event) {
    e.JoinFails? || e.CreateFails?
  }

  function WithoutThreads(lives: seq<Life>, first: nat): (r: seq<Life>)
    ensures |r| == |lives|
    ensures forall j :: 0 <= j < |lives| ==> r[j] == if j < first then lives[j] else lives[j].(stage := Missing)
  {
    if lives == [] then []
    else
      var n := |lives| - 1;
      WithoutThreads(lives[..n], first) + [if n < first then lives[n] else lives[n].(stage := Missing)]
  }

  ghost predicate Running(m: Machine, i: nat)
    requires Sized(m)
  {
    && i < |m.lives| && m.clients.sys.threads[i].Awake?
    && !m.lives[i].stage.Failing? && !Over(m.lives[i].stage)
  }

  /** Which events can happen. Main creates the threads in order and stops at the first it cannot create. An
      interrupt needs interrupts enabled in the guest, which they are once it waits and outside its handler. */
  ghost predicate Possible(m: Machine, e: Event)
    requires Sized(m)
  {
    if e.JoinFails? then true
    else if e.CreateFails? then
      m.started && e.first < |m.lives| && forall j :: e.first <= j < |m.lives| ==> m.lives[j].stage.Booting?
    else
      && e.vm < |m.lives|
      && var stage := m.lives[e.vm].stage;
         match e
         case BootEnds(_, _) => stage.Booting?
         case Interrupt(i, run) =>
           (stage.Spinning? || stage.Returned?) && m.lives[i].interruptCount > 0 && LoadReady(run)
         case ModeRead(_) => stage.AskingMode?
         case TransferStep(i) => stage.Transferring? && NextOp(m.clients.programs[i]).Some?
         case Save(_, run) => stage.Saving? && SaveReady(run, stage.payload)
         case Halt(_) => stage.Returned?
         case Crash(i) => Running(m, i)
         case AbortBy(_) => stage.Failing?
         case _ => true
  }

  /** A guest halts only if its handler reported success; the host accepts the halt only if the
      transfer is complete. */
  ghost function After(m: Machine, e: Event): Machine
    requires Sized(m) && Possible(m, e)
  {
    match e
    case BootEnds(i, boot) => AtStage(m, i, Spinning).(files := m.files[i := FilesAfter(m.files[i], boot)])
    case Interrupt(i, run) => Inject(m, i, run)
    case ModeRead(i) => ReadMode(m, i)
    case TransferStep(i) => Transfer(m, i)
    case Save(i, run) => SaveFile(m, i, run)
    case Halt(i) =>
      AtStage(m, i, if m.lives[i].stage.ok && m.clients.sys.vms[i].transferCompleted then Succeeded else Failing)
    case Crash(i) => AtStage(m, i, Failing)
    case AbortBy(i) => AtStage(AbortMachine(m), i, Aborted)
    case JoinFails => AbortMachine(m).(started := false)
    case CreateFails(first) => AbortMachine(m).(started := false, lives := WithoutThreads(m.lives, first))
  }

  ghost predicate EventAt(states: seq<Machine>, events: seq<Event>, k: nat)
    requires |states| == |events| + 1 && k < |events|
  {
    && Sized(states[k])
    && Possible(states[k], events[k])
    && states[k + 1] == After(states[k], events[k])
  }

  ghost predicate IsMachineRun(states: seq<Machine>, events: seq<Event>) {
    && |states| == |events| + 1
    && PoweredOn(states[0])
    && forall k :: 0 <= k < |events| ==> EventAt(states, events, k)
  }

  // ----- the invariant

  /** Interrupts left and transfers started, stage by stage. */
  ghost predicate CountsOk(life: Life) {
    match life.stage
    case Booting => life.interruptCount == IRQ_COUNT && !life.modeInitialized && life.transfers == 0
    case Missing => life.interruptCount == IRQ_COUNT && !life.modeInitialized && life.transfers == 0
    case Spinning => life.interruptCount == (if life.modeInitialized then 1 else IRQ_COUNT) && life.transfers == 0
    case AskingMode => life.interruptCount == 1 && !life.modeInitialized && life.transfers == 0
    case Failing => life.interruptCount + life.transfers <= IRQ_COUNT && life.transfers <= 1
    case Aborted => life.interruptCount + life.transfers <= IRQ_COUNT && life.transfers <= 1
    case _ => life.interruptCount == 0 && life.modeInitialized && life.transfers == 1
  }

  /** What the writer has sent begins its guest.txt; what a reader has acknowledged begins its
      reader.txt. */
  ghost predicate Delivered(p: Program, acked: seq<Payload>, fs: Private) {
    if p.WriterProgram? then |p.sent| == 1 && LoadedFrom(fs, p.sent[0])
    else |acked| == 1 && SavedIn(fs, acked[0])
  }

  ghost predicate StageOk(stage: Stage, v: Vm, p: Program, acked: seq<Payload>, fs: Private) {
    match stage
    case Transferring(loaded) =>
      NextOp(p).Some? && (if p.WriterProgram? then loaded ==> LoadedFrom(fs, p.todo[0]) else loaded)
    case Saving(payload) => NextOp(p).None? && p.ReaderProgram? && acked == [payload]
    case Returned(ok) => NextOp(p).None? && (ok ==> Delivered(p, acked, fs))
    case Succeeded => NextOp(p).None? && Delivered(p, acked, fs) && v.transferCompleted
    case _ => true
  }

  ghost predicate LifeOk(i: nat, life: Life, v: Vm, t: Thread, p: Program, acked: seq<Payload>, fs: Private) {
    && (life.modeInitialized <==> v.modeDelivered)
    && (life.modeInitialized ==> (life.writer <==> i == 0))
    && (t.Asleep? ==> life.stage.Transferring?)
    && (if life.transfers == 0 then p == Idle(i) else Total(p) == 1)
    && (p.WriterProgram? && p.todo != [] ==> |p.todo[0]| <= BUFFER_SIZE + 1)
    && WellFormed(fs)
    && CountsOk(life)
    && StageOk(life.stage, v, p, acked, fs)
  }

  ghost predicate LifeAt(m: Machine, i: nat)
    requires Sized(m) && i < |m.lives|
  {
    var sys := m.clients.sys;
    LifeOk(i, m.lives[i], sys.vms[i], sys.threads[i], m.clients.programs[i], sys.readerLogs[i].acked, m.files[i])
  }

  /** The ends of a thread that main or the thread itself has reported by stopping the buffer. */
  predicate Quit(stage: Stage) {
    stage.Aborted? || stage.Missing?
  }

  ghost predicate MachineInv(m: Machine) {
    && Sized(m)
    && Tied(m.clients)
    && (forall i :: 0 <= i < |m.lives| ==> LifeAt(m, i))
    && (m.started || m.clients.sys.shared.stopped)
    && (forall i :: 0 <= i < |m.lives| ==> (Quit(m.lives[i].stage) ==> m.clients.sys.shared.stopped))
  }

  lemma PoweredOnInv(m: Machine)
    requires PoweredOn(m)
    ensures MachineInv(m)
  {
    InitInv(m.clients.sys);
    forall i | 0 <= i < |m.lives|
      ensures LifeAt(m, i)
      ensures ThreadTied(m.clients.sys.vms[i], m.clients.sys.threads[i], m.clients.programs[i])
      ensures i > 0 ==> ReaderTied(m.clients.sys.shared, m.clients.sys.vms[i], m.clients.programs[i])
    {
    }
  }

  /** What a step leaves alone of a VM that does not act. */
  ghost predicate Untouched(m: Machine, m': Machine, j: nat)
    requires Sized(m) && Sized(m') && j < |m.lives| == |m'.lives|
  {
    var sys, sys' := m.clients.sys, m'.clients.sys;
    && m'.lives[j] == m.lives[j] && m'.files[j] == m.files[j] && m'.clients.programs[j] == m.clients.programs[j]
    && sys'.vms[j] == sys.vms[j] && sys'.readerLogs[j] == sys.readerLogs[j]
    && (sys'.threads[j].Asleep? <==> sys.threads[j].Asleep?)
  }

  /** A step keeps the invariant if it keeps programs and protocol tied, the acting VM's own part, and
      leaves the other VMs alone. */
  lemma StepBy(m: Machine, m': Machine, i: nat)
    requires MachineInv(m) && Sized(m') && i < |m.lives| == |m'.lives|
    requires Tied(m'.clients) && LifeAt(m', i)
    requires forall j :: 0 <= j < |m.lives| && j != i ==> Untouched(m, m', j)
    requires m.clients.sys.shared.stopped ==> m'.clients.sys.shared.stopped
    requires m'.started == m.started
    requires Quit(m'.lives[i].stage) ==> m'.clients.sys.shared.stopped
    ensures MachineInv(m')
  {
    forall j | 0 <= j < |m'.lives|
      ensures LifeAt(m', j)
      ensures Quit(m'.lives[j].stage) ==> m'.clients.sys.shared.stopped
    {
      assert j != i ==> Untouched(m, m', j) && LifeAt(m, j);
    }
  }

  // ----- programs and protocol stay tied

  lemma ReplacedProgramTied(c: Clients, i: nat, p: Program)
    requires Tied(c) && i < |c.programs| && c.sys.threads[i].Awake? && c.sys.vms[i].modeDelivered
    requires c.programs[i] == Idle(i)
    requires if i == 0 then p.WriterProgram? && p.sent == [] && p.wphase.Announce?
             else p.ReaderProgram? && p.done == 0 && p.rphase.Ask?
    ensures Tied(c.(programs := c.programs[i := p]))
  {
    var c' := c.(programs := c.programs[i := p]);
    forall j | 0 <= j < |c'.programs|
      ensures ThreadTied(c.sys.vms[j], c.sys.threads[j], c'.programs[j])
      ensures j > 0 ==> ReaderTied(c.sys.shared, c.sys.vms[j], c'.programs[j])
    {
      assert ThreadTied(c.sys.vms[j], c.sys.threads[j], c.programs[j]);
      assert j > 0 ==> ReaderTied(c.sys.shared, c.sys.vms[j], c.programs[j]);
    }
  }

  lemma AbortTied(c: Clients)
    requires Tied(c)
    ensures Tied(c.(sys := AbortAll(c.sys)))
  {
    AbortInv(c.sys);
    WakeupStep(c.sys, Abort);
    var s := AbortAll(c.sys);
    forall j | 0 <= j < |c.programs|
      ensures ThreadTied(s.vms[j], s.threads[j], c.programs[j])
      ensures j > 0 ==> ReaderTied(s.shared, s.vms[j], c.programs[j])
    {
      assert ThreadTied(c.sys.vms[j], c.sys.threads[j], c.programs[j]);
      assert j > 0 ==> ReaderTied(c.sys.shared, c.sys.vms[j], c.programs[j]);
    }
  }

  lemma ModeTied(c: Clients, i: nat)
    requires Tied(c) && i < |c.programs| && c.sys.threads[i].Awake? && !c.sys.vms[i].modeDelivered
    ensures Tied(c.(sys := Run(c.sys, i, GetMode)))
    ensures Run(c.sys, i, GetMode) == c.sys.(vms := c.sys.vms[i := c.sys.vms[i].(modeDelivered := true)])
  {
    var s := Run(c.sys, i, GetMode);
    RunStepInv(c.sys, i, GetMode);
    WakeupStep(c.sys, Enter(i, GetMode));
    assert c.sys.readerLogs[i := c.sys.readerLogs[i]] == c.sys.readerLogs;
    assert c.sys.threads[i := Awake] == c.sys.threads;
    forall j | 0 <= j < |c.programs|
      ensures ThreadTied(s.vms[j], s.threads[j], c.programs[j])
      ensures j > 0 ==> ReaderTied(s.shared, s.vms[j], c.programs[j])
    {
      assert ThreadTied(c.sys.vms[j], c.sys.threads[j], c.programs[j]);
      assert j > 0 ==> ReaderTied(c.sys.shared, c.sys.vms[j], c.programs[j]);
    }
  }

  // ----- the invariant, event by event

  lemma BootKeeps(m: Machine, i: nat, boot: seq<Submitted>)
    requires MachineInv(m) && Possible(m, BootEnds(i, boot))
    ensures MachineInv(After(m, BootEnds(i, boot)))
  {
    assert LifeAt(m, i);
    FilesAfterWellFormed(m.files[i], boot);
    StepBy(m, After(m, BootEnds(i, boot)), i);
  }

  lemma InterruptLife(m: Machine, i: nat, run: FileRun)
    requires MachineInv(m) && Possible(m, Interrupt(i, run))
    ensures LifeAt(Inject(m, i, run), i) && Tied(Inject(m, i, run).clients)
    ensures !Quit(Inject(m, i, run).lives[i].stage)
  {
    assert LifeAt(m, i);
    if m.lives[i].modeInitialized {
      LoadIsPrefix(m.files[i], run);
      ReplacedProgramTied(m.clients, i, Inject(m, i, run).clients.programs[i]);
    }
  }

  lemma InterruptKeeps(m: Machine, i: nat, run: FileRun)
    requires MachineInv(m) && Possible(m, Interrupt(i, run))
    ensures MachineInv(Inject(m, i, run))
  {
    InterruptLife(m, i, run);
    StepBy(m, Inject(m, i, run), i);
  }

  /** The handler's first port access is the mode: it is answered with the VM's role and with nothing
      else, because the host has not delivered the mode either. */
  lemma ModeReadIsMode(m: Machine, i: nat)
    requires MachineInv(m) && i < |m.lives| && m.lives[i].stage.AskingMode?
    ensures Decode(m.clients.sys.vms[i], Encode(GetMode)) == Some(GetMode)
    ensures ReadMode(m, i) == m.(clients := m.clients.(sys := Run(m.clients.sys, i, GetMode)),
                                 lives := m.lives[i :=
                                   m.lives[i].(modeInitialized := true, writer := i == 0, stage := Spinning)])
  {
    assert LifeAt(m, i);
    DecodeExact(m.clients.sys.vms[i], GetMode);
    var sys := m.clients.sys;
    assert i > 0 ==> ReaderOk(sys.shared, sys.vms[i], sys.readerLogs[i], sys.writerLog.published);
  }

  lemma ModeReadKeeps(m: Machine, i: nat)
    requires MachineInv(m) && Possible(m, ModeRead(i))
    ensures MachineInv(ReadMode(m, i))
  {
    assert LifeAt(m, i);
    ModeReadIsMode(m, i);
    ModeTied(m.clients, i);
    StepBy(m, ReadMode(m, i), i);
  }

  /** During the transfer, the host resolves each port access to the operation the guest means; in
      particular a reader's one-byte IN is data, never the mode. */
  lemma TransferIsMove(m: Machine, i: nat)
    requires MachineInv(m) && Possible(m, TransferStep(i))
    ensures Dispatch(m, i) == NextOp(m.clients.programs[i])
    ensures Unfinished(m.clients, i)
    ensures Transfer(m, i).clients == Move(m.clients, i)
  {
    assert LifeAt(m, i);
    MoveAllowed(m.clients, i);
    assert ThreadTied(m.clients.sys.vms[i], m.clients.sys.threads[i], m.clients.programs[i]);
    DecodeExact(m.clients.sys.vms[i], NextOp(m.clients.programs[i]).value);
  }

  lemma AdvanceTotals(p: Program, value: nat)
    requires NextOp(p).Some? && Total(p) == 1
    ensures Total(Advance(p, value)) == 1
    ensures Advance(p, value).WriterProgram? <==> p.WriterProgram?
    ensures p.WriterProgram? && NextOp(Advance(p, value)).Some? ==> Advance(p, value).todo == p.todo
    ensures p.WriterProgram? && NextOp(Advance(p, value)).None? ==> Advance(p, value).sent == [p.todo[0]]
  {
  }

  lemma WriterStageOk(v: Vm, r: ReaderLog, p: Program, loaded: bool, fs: Private, value: nat, acked: seq<Payload>)
    requires NextOp(p).Some? && Total(p) == 1 && p.WriterProgram?
    requires loaded ==> LoadedFrom(fs, p.todo[0])
    ensures StageOk(StageAfter(p, loaded, value, r.bytes), v, Advance(p, value), acked, fs)
  {
    AdvanceTotals(p, value);
  }

  lemma ReaderEnds(p: Program, value: nat)
    requires NextOp(p).Some? && Total(p) == 1 && p.ReaderProgram? && NextOp(Advance(p, value)).None?
    ensures p.done == 0 && p.rphase.Fetching? && NextOp(p).value.EndRead?
  {
  }

  lemma ReaderStageOk(s: Shared, v: Vm, v': Vm, r: ReaderLog, p: Program, fs: Private, value: nat)
    requires NextOp(p).Some? && Total(p) == 1 && p.ReaderProgram?
    requires ReaderTied(s, v, p) && |r.acked| == v.lastReadGeneration
    ensures StageOk(StageAfter(p, true, value, r.bytes), v', Advance(p, value),
                    ObserveReader(r, NextOp(p).value, Done(value)).acked, fs)
  {
    AdvanceTotals(p, value);
    if NextOp(Advance(p, value)).None? {
      ReaderEnds(p, value);
      assert r.acked == [];
    }
  }

  /** An accepted operation, for the VM's own stage. */
  lemma StageAfterOk(s: Shared, v: Vm, r: ReaderLog, p: Program, loaded: bool, fs: Private, value: nat)
    requires NextOp(p).Some? && Total(p) == 1
    requires if p.WriterProgram? then loaded ==> LoadedFrom(fs, p.todo[0]) else loaded
    requires p.ReaderProgram? ==> ReaderTied(s, v, p) && |r.acked| == v.lastReadGeneration
    requires Critical(NextOp(p).value, s, v).outcome == Done(value)
    ensures var e := Critical(NextOp(p).value, s, v);
            StageOk(StageAfter(p, loaded, value, r.bytes), e.vm, Advance(p, value),
                    ObserveReader(r, NextOp(p).value, e.outcome).acked, fs)
    ensures Total(Advance(p, value)) == 1
  {
    var e := Critical(NextOp(p).value, s, v);
    AdvanceTotals(p, value);
    if p.WriterProgram? {
      WriterStageOk(e.vm, r, p, loaded, fs, value, ObserveReader(r, NextOp(p).value, e.outcome).acked);
    } else {
      ReaderStageOk(s, v, e.vm, r, p, fs, value);
    }
  }

  lemma MoveTouchesOne(c: Clients, i: nat, j: nat)
    requires Tied(c) && Unfinished(c, i) && j < |c.programs| && j != i
    ensures var c' := Move(c, i);
            && c'.programs[j] == c.programs[j] && c'.sys.vms[j] == c.sys.vms[j]
            && c'.sys.readerLogs[j] == c.sys.readerLogs[j]
            && (c'.sys.threads[j].Asleep? <==> c.sys.threads[j].Asleep?)
            && c'.sys.shared.stopped == c.sys.shared.stopped
  {
    CriticalFrame(NextOp(c.programs[i]).value, c.sys.shared, c.sys.vms[i]);
  }

  lemma AcceptedLifeOk(s: Shared, i: nat, life: Life, v: Vm, t: Thread, r: ReaderLog, p: Program, fs: Private,
                       value: nat)
    requires life.stage.Transferring? && LifeOk(i, life, v, t, p, r.acked, fs)
    requires p.ReaderProgram? ==> ReaderTied(s, v, p) && |r.acked| == v.lastReadGeneration
    requires Critical(NextOp(p).value, s, v).outcome == Done(value)
    ensures var e := Critical(NextOp(p).value, s, v);
            var stage := StageAfter(p, life.stage.loaded, value, r.bytes);
            LifeOk(i, life.(stage := stage), e.vm, Awake, Advance(p, value),
                   ObserveReader(r, NextOp(p).value, e.outcome).acked, fs)
  {
    var op := NextOp(p).value;
    StageAfterOk(s, v, r, p, life.stage.loaded, fs, value);
    CriticalFrame(op, s, v);
    AcceptedDelivered(s, v, p);
  }

  lemma AcceptedDelivered(s: Shared, v: Vm, p: Program)
    requires NextOp(p).Some?
    ensures Critical(NextOp(p).value, s, v).vm.modeDelivered == v.modeDelivered
  {
  }

  /** What an accepted operation makes of the machine, at the acting VM. */
  lemma AcceptedAt(m: Machine, i: nat)
    requires MachineInv(m) && Possible(m, TransferStep(i))
    requires Dispatch(m, i) == NextOp(m.clients.programs[i])
    requires Unfinished(m.clients, i) && OutcomeOf(m.clients, i).Done?
    ensures var sys, p := m.clients.sys, m.clients.programs[i];
            var op, value := NextOp(p).value, OutcomeOf(m.clients, i).value;
            var m' := Transfer(m, i);
            && m'.lives[i] ==
               m.lives[i].(stage := StageAfter(p, m.lives[i].stage.loaded, value, sys.readerLogs[i].bytes))
            && m'.clients.sys.vms[i] == Critical(op, sys.shared, sys.vms[i]).vm
            && m'.clients.sys.threads[i] == Awake
            && m'.clients.programs[i] == Advance(p, value)
            && m'.files == m.files
            && m'.clients.sys.readerLogs[i] == ObserveReader(sys.readerLogs[i], op, Done(value))
  {
    if i == 0 {
      assert m.clients.programs[0].WriterProgram?;
    }
  }

  lemma AcceptedLife(m: Machine, i: nat)
    requires MachineInv(m) && Possible(m, TransferStep(i))
    requires Dispatch(m, i) == NextOp(m.clients.programs[i])
    requires Unfinished(m.clients, i) && OutcomeOf(m.clients, i).Done?
    ensures LifeAt(Transfer(m, i), i)
  {
    var sys, p := m.clients.sys, m.clients.programs[i];
    assert LifeAt(m, i);
    AcceptedAt(m, i);
    assert i > 0 ==> ReaderTied(sys.shared, sys.vms[i], p);
    assert i > 0 ==> ReaderOk(sys.shared, sys.vms[i], sys.readerLogs[i], sys.writerLog.published);
    AcceptedLifeOk(sys.shared, i, m.lives[i], sys.vms[i], sys.threads[i], sys.readerLogs[i], p, m.files[i],
                   OutcomeOf(m.clients, i).value);
  }

  lemma TransferLife(m: Machine, i: nat)
    requires MachineInv(m) && Possible(m, TransferStep(i))
    ensures LifeAt(Transfer(m, i), i)
  {
    TransferIsMove(m, i);
    if OutcomeOf(m.clients, i).Done? {
      AcceptedLife(m, i);
    } else {
      assert LifeAt(m, i);
      FruitlessStep(m.clients.sys, i, NextOp(m.clients.programs[i]).value);
    }
  }

  lemma TransferOthers(m: Machine, i: nat, j: nat)
    requires MachineInv(m) && Possible(m, TransferStep(i)) && j < |m.lives| && j != i
    requires Transfer(m, i).clients == Move(m.clients, i)
    ensures Untouched(m, Transfer(m, i), j)
  {
    MoveTouchesOne(m.clients, i, j);
  }

  lemma TransferTied(m: Machine, i: nat)
    requires MachineInv(m) && Possible(m, TransferStep(i))
    ensures Transfer(m, i).clients == Move(m.clients, i)
    ensures Tied(Transfer(m, i).clients)
    ensures Transfer(m, i).clients.sys.shared.stopped == m.clients.sys.shared.stopped
  {
    TransferIsMove(m, i);
    MoveTied(m.clients, i);
    CriticalFrame(NextOp(m.clients.programs[i]).value, m.clients.sys.shared, m.clients.sys.vms[i]);
  }

  lemma TransferDoesNotAbort(m: Machine, i: nat)
    requires Sized(m) && Possible(m, TransferStep(i))
    ensures !Quit(Transfer(m, i).lives[i].stage)
    ensures Transfer(m, i).started == m.started
  {
  }

  lemma TransferKeeps(m: Machine, i: nat)
    requires MachineInv(m) && Possible(m, TransferStep(i))
    ensures MachineInv(Transfer(m, i))
  {
    TransferTied(m, i);
    TransferLife(m, i);
    TransferDoesNotAbort(m, i);
    forall j | 0 <= j < |m.lives| && j != i
      ensures Untouched(m, Transfer(m, i), j)
    {
      TransferOthers(m, i, j);
    }
    StepBy(m, Transfer(m, i), i);
  }

  lemma SaveLife(m: Machine, i: nat, run: FileRun)
    requires MachineInv(m) && Possible(m, Save(i, run))
    ensures LifeAt(SaveFile(m, i, run), i)
  {
    assert LifeAt(m, i);
    SaveHoldsPayload(m.files[i], run, m.lives[i].stage.payload);
  }

  lemma SaveKeeps(m: Machine, i: nat, run: FileRun)
    requires MachineInv(m) && Possible(m, Save(i, run))
    ensures MachineInv(SaveFile(m, i, run))
  {
    SaveLife(m, i, run);
    StepBy(m, SaveFile(m, i, run), i);
  }

  lemma AbortKeeps(m: Machine)
    requires MachineInv(m)
    ensures MachineInv(AbortMachine(m)) && MachineInv(AbortMachine(m).(started := false))
  {
    AbortTied(m.clients);
    var m' := AbortMachine(m);
    forall j | 0 <= j < |m.lives|
      ensures LifeAt(m', j) && LifeAt(m'.(started := false), j)
    {
      assert LifeAt(m, j);
    }
  }

  lemma CreateFailsKeeps(m: Machine, first: nat)
    requires MachineInv(m) && Possible(m, CreateFails(first))
    ensures MachineInv(After(m, CreateFails(first)))
  {
    AbortKeeps(m);
    var a, m' := AbortMachine(m).(started := false), After(m, CreateFails(first));
    forall j | 0 <= j < |m'.lives|
      ensures LifeAt(m', j)
    {
      assert LifeAt(a, j);
    }
  }

  lemma EndKeeps(m: Machine, i: nat, stage: Stage)
    requires MachineInv(m) && i < |m.lives| && m.clients.sys.threads[i].Awake?
    requires stage.Failing? || (stage.Aborted? && m.clients.sys.shared.stopped) ||
             (stage.Succeeded? && m.lives[i].stage == Returned(true) && m.clients.sys.vms[i].transferCompleted)
    ensures MachineInv(AtStage(m, i, stage))
  {
    assert LifeAt(m, i);
    StepBy(m, AtStage(m, i, stage), i);
  }

  /** Every event keeps the invariant. */
  lemma EventKeeps(m: Machine, e: Event)
    requires MachineInv(m) && Possible(m, e)
    ensures MachineInv(After(m, e))
  {
    match e {
      case BootEnds(i, boot) => BootKeeps(m, i, boot);
      case Interrupt(i, run) => InterruptKeeps(m, i, run);
      case ModeRead(i) => ModeReadKeeps(m, i);
      case TransferStep(i) => TransferKeeps(m, i);
      case Save(i, run) => SaveKeeps(m, i, run);
      case Halt(i) =>
        assert LifeAt(m, i);
        EndKeeps(m, i, After(m, e).lives[i].stage);
      case Crash(i) => EndKeeps(m, i, Failing);
      case AbortBy(i) =>
        assert LifeAt(m, i);
        AbortKeeps(m);
        EndKeeps(AbortMachine(m), i, Aborted);
      case JoinFails => AbortKeeps(m);
      case CreateFails(first) => CreateFailsKeeps(m, first);
    }
  }

  lemma {:induction false} MachineRunInv(states: seq<Machine>, events: seq<Event>, k: nat)
    requires IsMachineRun(states, events) && k < |states|
    ensures MachineInv(states[k])
  {
    if k == 0 {
      PoweredOnInv(states[0]);
    } else {
      MachineRunInv(states, events, k - 1);
      assert EventAt(states, events, k - 1);
      EventKeeps(states[k - 1], events[k - 1]);
    }
  }
}
