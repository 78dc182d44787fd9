/** Every run of the hypervisor comes to an end: until every thread has ended some VM has a step, and
    no run has more steps than a bound that depends on the number of VMs alone. */
module Termination {
  import opened Protocol
  import opened Broadcast
  import opened Rounds
  import opened PrivateFiles
  import opened GuestPrograms
  import opened Hypervisor
  import opened Completion

  // ----- no deadlock

  /** A guest's memory while it does file requests: the name, and behind it a buffer. */
  function MemoryWith(name: Name, buffer: Bytes): FileRun {
    FileRun(name + [0] + buffer, 0, |name| + 1, [])
  }

  lemma MemoryHolds(name: Name, buffer: Bytes)
    requires ValidName(name) && |name| <= FILE_NAME_MAX
    ensures var run := MemoryWith(name, buffer);
            && IsNameAt(run.mem, run.name, name)
            && run.buffer + |buffer| == |run.mem|
            && run.mem[run.buffer..run.buffer + |buffer|] == buffer
  {
    var run := MemoryWith(name, buffer);
    assert run.mem[0..0 + |name|] == name;
  }

  /** Somebody other than a failing part of the system can do something that is not a spurious wake-up. */
  ghost predicate CanGoOn(m: Machine, e: Event)
    requires Sized(m)
  {
    && Possible(m, e) && !e.Crash? && !OfMain(e)
    && (e.TransferStep? ==> Unfinished(m.clients, e.vm) && Ready(m.clients, e.vm))
  }

  /** The host performs the file requests of the event. */
  predicate Smooth(e: Event) {
    (e.Interrupt? || e.Save?) ==> e.run.faults == []
  }

  lemma SavingHoldsBytes(m: Machine, i: nat) returns (payload: Bytes)
    requires MachineInv(m) && i < |m.lives| && m.lives[i].stage.Saving?
    ensures payload == m.lives[i].stage.payload
  {
    assert LifeAt(m, i);
    AcknowledgedIsSent(m, i);
    payload := m.clients.sys.shared.data[..m.clients.sys.shared.size];
  }

  lemma SpinningIsInterrupted(m: Machine, i: nat) returns (e: Event)
    requires MachineInv(m) && i < |m.lives| && m.lives[i].stage.Spinning?
    ensures CanGoOn(m, e) && Smooth(e)
  {
    assert LifeAt(m, i);
    var room := Zeros(BUFFER_SIZE + 1);
    MemoryHolds(GUEST_TXT, room);
    e := Interrupt(i, MemoryWith(GUEST_TXT, room));
  }

  lemma SavingIsSaved(m: Machine, i: nat) returns (e: Event)
    requires MachineInv(m) && i < |m.lives| && m.lives[i].stage.Saving?
    ensures CanGoOn(m, e) && Smooth(e)
  {
    var payload := SavingHoldsBytes(m, i);
    MemoryHolds(READER_TXT, payload);
    e := Save(i, MemoryWith(READER_TXT, payload));
  }

  lemma AwakeGoesOn(m: Machine, i: nat) returns (e: Event)
    requires MachineInv(m) && i < |m.lives|
    requires !Over(m.lives[i].stage)
    requires m.clients.sys.threads[i].Awake? || m.clients.sys.threads[i].notified
    ensures CanGoOn(m, e) && Smooth(e)
  {
    assert LifeAt(m, i);
    match m.lives[i].stage {
      case Booting => e := BootEnds(i, []);
      case Spinning => e := SpinningIsInterrupted(m, i);
      case AskingMode => e := ModeRead(i);
      case Transferring(_) => e := TransferStep(i);
      case Saving(_) => e := SavingIsSaved(m, i);
      case Returned(_) => e := Halt(i);
      case Failing => e := AbortBy(i);
    }
  }

  lemma SleeperNotStopped(m: Machine, k: nat)
    requires MachineInv(m) && k < |m.lives|
    requires m.clients.sys.threads[k].Asleep? && !m.clients.sys.threads[k].notified
    ensures !m.clients.sys.shared.stopped
  {
    var t := m.clients.sys.threads[k];
    assert ThreadOk(m.clients.sys.vms[k], t);
    assert Critical(t.op, m.clients.sys.shared, m.clients.sys.vms[k]).outcome.Blocked?;
  }

  lemma StartedLife(i: nat, life: Life, v: Vm, t: Thread, p: Program, acked: seq<Payload>, fs: Private)
    requires LifeOk(i, life, v, t, p, acked, fs)
    requires life.stage.Succeeded? || t.Asleep?
    ensures Total(p) == 1
    ensures life.stage.Transferring? || life.stage.Succeeded?
    ensures NextOp(p).Some? <==> !life.stage.Succeeded?
  {
    assert life.stage.Transferring? || life.stage.Succeeded?;
    assert CountsOk(life) && life.transfers == 1;
  }

  lemma StartedTransfer(m: Machine, i: nat)
    requires MachineInv(m) && !m.clients.sys.shared.stopped && i < |m.lives|
    requires Over(m.lives[i].stage) || m.clients.sys.threads[i].Asleep?
    ensures Total(m.clients.programs[i]) == 1
    ensures !Over(m.lives[i].stage) <==> Unfinished(m.clients, i)
  {
    var sys := m.clients.sys;
    assert LifeAt(m, i);
    StartedLife(i, m.lives[i], sys.vms[i], sys.threads[i], m.clients.programs[i], sys.readerLogs[i].acked, m.files[i]);
  }

  /** If nobody who has not ended is awake, the transfers of all VMs are under way or over, and one of
      the sleepers has been notified. */
  lemma NotifiedSleeper(m: Machine, k: nat) returns (i: nat)
    requires MachineInv(m) && !m.clients.sys.shared.stopped
    requires forall j :: 0 <= j < |m.lives| ==> Over(m.lives[j].stage) || m.clients.sys.threads[j].Asleep?
    requires k < |m.lives| && !Over(m.lives[k].stage)
    ensures i < |m.lives| && !Over(m.lives[i].stage)
    ensures m.clients.sys.threads[i].Asleep? && m.clients.sys.threads[i].notified
  {
    forall j | 0 <= j < |m.lives|
      ensures Total(m.clients.programs[j]) == 1
    {
      StartedTransfer(m, j);
    }
    StartedTransfer(m, k);
    i := DeadlockFree(m.clients, 1);
    StartedTransfer(m, i);
  }

  lemma SomebodyAwake(m: Machine, k: nat) returns (i: nat)
    requires MachineInv(m) && k < |m.lives| && !Over(m.lives[k].stage)
    ensures i < |m.lives| && !Over(m.lives[i].stage)
    ensures m.clients.sys.threads[i].Awake? || m.clients.sys.threads[i].notified
  {
    var ts := m.clients.sys.threads;
    if m.clients.sys.shared.stopped {
      i := k;
      if ts[k].Asleep? && !ts[k].notified {
        SleeperNotStopped(m, k);
      }
    } else if j :| 0 <= j < |m.lives| && !Over(m.lives[j].stage) && ts[j].Awake? {
      i := j;
    } else {
      i := NotifiedSleeper(m, k);
    }
  }

  /** Deadlock freedom of the whole system, after any failures: until every thread has ended, somebody
      can go on. */
  lemma SomebodyGoesOn(m: Machine) returns (e: Event)
    requires MachineInv(m) && !Ended(m)
    ensures CanGoOn(m, e) && Smooth(e)
  {
    var k :| 0 <= k < |m.lives| && !Over(m.lives[k].stage);
    var i := SomebodyAwake(m, k);
    e := AwakeGoesOn(m, i);
  }

  // ----- no endless run

  ghost function Rank(life: Life): nat {
    match life.stage
    case Booting => 8
    case Spinning => if life.modeInitialized then 5 else 7
    case AskingMode => 6
    case Transferring(_) => 4
    case Saving(_) => 3
    case Returned(_) => 2
    case Failing => 1
    case _ => 0
  }

  ghost function Ranks(lives: seq<Life>): nat {
    if lives == [] then 0 else Ranks(lives[..|lives| - 1]) + Rank(lives[|lives| - 1])
  }

  lemma {:induction false} RanksUpdate(lives: seq<Life>, i: nat, life: Life)
    requires i < |lives|
    ensures Ranks(lives[i := life]) == Ranks(lives) - Rank(lives[i]) + Rank(life)
  {
    var n := |lives| - 1;
    if i < n {
      assert lives[i := life][..n] == lives[..n][i := life];
      RanksUpdate(lives[..n], i, life);
    } else {
      assert lives[i := life][..n] == lives[..n];
    }
  }

  /** The most steps `n` VMs can take in their transfers while no VM changes its stage. */
  ghost function TransferBound(n: nat): nat {
    n * (BUFFER_SIZE + 3) * (n + 1) + n
  }

  ghost function Fuel(m: Machine): int
    requires Sized(m)
  {
    RankOf(m) * (TransferBound(|m.lives|) + 1) + Measure(m.clients)
  }

  lemma ProgramBound(m: Machine, i: nat)
    requires MachineInv(m) && i < |m.lives|
    ensures 0 <= Remaining(m.clients.programs[i]) <= BUFFER_SIZE + 3
  {
    assert LifeAt(m, i);
    RemainingPositive(m.clients, i);
    var p := m.clients.programs[i];
    if i == 0 {
      if p.todo != [] {
        assert p.todo[1..] == [];
        assert Work(p.todo) == |p.todo[0]| + 2 + Work([]);
      }
    } else {
      var sys := m.clients.sys;
      assert ReaderTied(sys.shared, sys.vms[i], p);
      assert ReaderOk(sys.shared, sys.vms[i], sys.readerLogs[i], sys.writerLog.published);
    }
  }

  lemma {:induction false} ProgramsBound(m: Machine, n: nat)
    requires MachineInv(m) && n <= |m.lives|
    ensures 0 <= RemainingAll(m.clients.programs[..n]) <= n * (BUFFER_SIZE + 3)
  {
    if n > 0 {
      ProgramsBound(m, n - 1);
      ProgramBound(m, n - 1);
      assert m.clients.programs[..n][..n - 1] == m.clients.programs[..n - 1];
    }
  }

  lemma MeasureBound(m: Machine)
    requires MachineInv(m)
    ensures 0 <= Measure(m.clients) <= TransferBound(|m.lives|)
  {
    var n := |m.lives|;
    ProgramsBound(m, n);
    assert m.clients.programs[..n] == m.clients.programs;
    RestlessBound(m.clients.sys.threads);
    MultiplyMonotone(RemainingAll(m.clients.programs), n * (BUFFER_SIZE + 3), n + 1);
  }

  lemma MultiplyMonotone(a: nat, b: nat, c: nat)
    requires a <= b
    ensures 0 <= a * c <= b * c
  {
  }

  lemma FuelPositive(m: Machine)
    requires MachineInv(m)
    ensures Fuel(m) >= 0
  {
    MeasureBound(m);
    MultiplyMonotone(0, RankOf(m), TransferBound(|m.lives|) + 1);
  }

  ghost function RankOf(m: Machine): nat {
    Ranks(m.lives) + (if m.started then 1 else 0)
  }

  lemma FuelSplit(m: Machine)
    requires MachineInv(m)
    ensures Fuel(m) == RankOf(m) * (TransferBound(|m.lives|) + 1) + Measure(m.clients)
    ensures 0 <= Measure(m.clients) <= TransferBound(|m.lives|)
  {
    MeasureBound(m);
  }

  /** A change of some stage, or of main, pays for any rise of the transfers' measure. */
  lemma RankPays(m: Machine, m': Machine)
    requires MachineInv(m) && MachineInv(m') && |m.lives| == |m'.lives|
    requires RankOf(m') < RankOf(m)
    ensures Fuel(m') < Fuel(m)
  {
    FuelSplit(m);
    FuelSplit(m');
    LexicographicDecrease(RankOf(m), RankOf(m'), TransferBound(|m.lives|), Measure(m.clients), Measure(m'.clients));
  }

  lemma StageFalls(m: Machine, m': Machine, i: nat)
    requires MachineInv(m) && MachineInv(m') && |m.lives| == |m'.lives| && i < |m.lives|
    requires m'.lives == m.lives[i := m'.lives[i]] && Rank(m'.lives[i]) < Rank(m.lives[i])
    requires m'.started == m.started
    ensures Fuel(m') < Fuel(m)
  {
    RanksUpdate(m.lives, i, m'.lives[i]);
    RankPays(m, m');
  }

  /** A transfer's step keeps the VM's stage or moves it forward. */
  lemma TransferKeepsRest(m: Machine, i: nat)
    requires Sized(m) && Possible(m, TransferStep(i))
    ensures var life := Transfer(m, i).lives[i];
            life == m.lives[i] || Rank(life) < Rank(m.lives[i])
  {
  }

  lemma TransfersFall(m: Machine, m': Machine)
    requires MachineInv(m) && MachineInv(m') && m'.lives == m.lives && m'.started == m.started
    requires Measure(m'.clients) < Measure(m.clients)
    ensures Fuel(m') < Fuel(m)
  {
  }

  lemma TransferFalls(m: Machine, i: nat)
    requires MachineInv(m) && Possible(m, TransferStep(i)) && Transfer(m, i) != m
    requires MachineInv(Transfer(m, i))
    ensures Fuel(Transfer(m, i)) < Fuel(m)
  {
    TransferTouchesOne(m, i);
    TransferKeepsRest(m, i);
    if Transfer(m, i).lives[i] != m.lives[i] {
      StageFalls(m, Transfer(m, i), i);
    } else {
      assert m.lives[i := m.lives[i]] == m.lives;
      SameStageFalls(m, i);
      TransfersFall(m, Transfer(m, i));
    }
  }

  lemma SameStageFalls(m: Machine, i: nat)
    requires MachineInv(m) && Possible(m, TransferStep(i)) && Transfer(m, i) != m
    requires Transfer(m, i).lives == m.lives
    ensures Measure(Transfer(m, i).clients) < Measure(m.clients)
  {
    TransferIsMove(m, i);
    if OutcomeOf(m.clients, i).Done? {
      AcceptedMoveDecreases(m.clients, i);
    } else {
      assert OutcomeOf(m.clients, i).Blocked?;
      if !Ready(m.clients, i) {
        SpuriousWakeupIsStutter(m.clients, i);
      }
      BlockedMoveDecreases(m.clients, i);
    }
  }

  lemma SecondAbortIsStutter(m: Machine)
    requires MachineInv(m) && !m.started
    ensures AbortMachine(m).(started := false) == m
  {
    var ts := m.clients.sys.threads;
    forall k | 0 <= k < |ts|
      ensures NotifyAll(ts)[k] == ts[k]
    {
      if ts[k].Asleep? && !ts[k].notified {
        SleeperNotStopped(m, k);
      }
    }
    assert NotifyAll(ts) == ts;
  }

  /** One VM alone moves, and to a later stage. */
  ghost predicate MovesOn(m: Machine, m': Machine, i: nat) {
    && i < |m.lives| == |m'.lives| && m'.started == m.started
    && m'.lives == m.lives[i := m'.lives[i]]
    && Rank(m'.lives[i]) < Rank(m.lives[i])
  }

  lemma InterruptMovesOn(m: Machine, i: nat, run: FileRun)
    requires MachineInv(m) && Possible(m, Interrupt(i, run))
    ensures MovesOn(m, Inject(m, i, run), i)
  {
    assert LifeAt(m, i);
  }

  lemma ModeReadMovesOn(m: Machine, i: nat)
    requires MachineInv(m) && Possible(m, ModeRead(i))
    ensures MovesOn(m, ReadMode(m, i), i)
  {
    ModeReadIsMode(m, i);
  }

  lemma EventMovesOn(m: Machine, e: Event)
    requires MachineInv(m) && Possible(m, e) && !OfMain(e) && !e.TransferStep?
    ensures MovesOn(m, After(m, e), e.vm)
  {
    match e {
      case Interrupt(i, run) => InterruptMovesOn(m, i, run);
      case ModeRead(i) => ModeReadMovesOn(m, i);
      case BootEnds(i, _) => assert LifeAt(m, i);
      case _ =>
    }
  }

  lemma {:induction false} RanksDrop(lives: seq<Life>, first: nat)
    ensures Ranks(WithoutThreads(lives, first)) <= Ranks(lives)
  {
    if lives != [] {
      var n := |lives| - 1;
      RanksDrop(lives[..n], first);
      assert WithoutThreads(lives, first)[..n] == WithoutThreads(lives[..n], first);
    }
  }

  lemma MainFailureFalls(m: Machine, e: Event)
    requires MachineInv(m) && Possible(m, e) && OfMain(e)
    requires MachineInv(After(m, e)) && After(m, e) != m
    ensures Fuel(After(m, e)) < Fuel(m)
  {
    if e.CreateFails? {
      RanksDrop(m.lives, e.first);
      RankPays(m, After(m, e));
    } else if m.started {
      RankPays(m, After(m, e));
    } else {
      SecondAbortIsStutter(m);
    }
  }

  /** Every event that changes anything at all uses up fuel. */
  lemma EventUsesFuel(m: Machine, e: Event)
    requires MachineInv(m) && Possible(m, e) && After(m, e) != m
    ensures MachineInv(After(m, e)) && Fuel(After(m, e)) < Fuel(m)
  {
    EventKeeps(m, e);
    if OfMain(e) {
      MainFailureFalls(m, e);
    } else if e.TransferStep? {
      TransferFalls(m, e.vm);
    } else {
      EventMovesOn(m, e);
      StageFalls(m, After(m, e), e.vm);
    }
  }

  lemma {:induction false} FuelFalls(states: seq<Machine>, events: seq<Event>, k: nat)
    requires IsMachineRun(states, events) && k < |states|
    requires forall j :: 0 <= j < |events| ==> states[j + 1] != states[j]
    ensures MachineInv(states[0]) && MachineInv(states[k]) && Fuel(states[k]) + k <= Fuel(states[0])
  {
    MachineRunInv(states, events, 0);
    if k > 0 {
      FuelFalls(states, events, k - 1);
      assert EventAt(states, events, k - 1);
      assert states[k - 1 + 1] != states[k - 1];
      EventUsesFuel(states[k - 1], events[k - 1]);
    }
  }

  lemma {:induction false} RanksOf(lives: seq<Life>)
    requires forall k :: 0 <= k < |lives| ==> lives[k].stage.Booting?
    ensures Ranks(lives) == 8 * |lives|
  {
    if lives != [] { RanksOf(lives[..|lives| - 1]); }
  }

  /** A bound for whole runs of `n` VMs. */
  ghost function StepBound(n: nat): nat {
    (8 * n + 2) * (TransferBound(n) + 1)
  }

  lemma FuelAtStart(m: Machine)
    requires PoweredOn(m)
    ensures Fuel(m) <= StepBound(|m.lives|)
  {
    PoweredOnInv(m);
    MeasureBound(m);
    RanksOf(m.lives);
    var b, n := TransferBound(|m.lives|), |m.lives|;
    assert (8 * n + 2) * (b + 1) == (8 * n + 1) * (b + 1) + (b + 1);
  }

  lemma StuckIsEnded(m: Machine)
    requires MachineInv(m) && forall e :: !CanGoOn(m, e)
    ensures Ended(m)
  {
    if !Ended(m) {
      var e := SomebodyGoesOn(m);
    }
  }

  lemma RunLength(states: seq<Machine>, events: seq<Event>)
    requires IsMachineRun(states, events)
    requires forall j :: 0 <= j < |events| ==> states[j + 1] != states[j]
    ensures |events| <= StepBound(|states[0].lives|)
  {
    FuelFalls(states, events, |events|);
    FuelPositive(states[|events|]);
    FuelAtStart(states[0]);
  }

  lemma StuckRun(states: seq<Machine>, events: seq<Event>)
    requires IsMachineRun(states, events)
    ensures Sized(states[|events|])
    ensures (forall e :: !CanGoOn(states[|events|], e)) ==> Ended(states[|events|])
  {
    MachineRunInv(states, events, |events|);
    if forall e :: !CanGoOn(states[|events|], e) {
      StuckIsEnded(states[|events|]);
    }
  }

  /** Termination and deadlock freedom of whole runs, failures included: a run without idle wake-ups
      has a number of steps bounded in terms of the number of VMs alone, and where it cannot be
      continued every thread has ended. */
  lemma EveryRunEnds(states: seq<Machine>, events: seq<Event>)
    requires IsMachineRun(states, events)
    requires forall j :: 0 <= j < |events| ==> states[j + 1] != states[j]
    ensures |events| <= StepBound(|states[0].lives|)
    ensures Sized(states[|events|])
    ensures (forall e :: !CanGoOn(states[|events|], e)) ==> Ended(states[|events|])
  {
    RunLength(states, events);
    StuckRun(states, events);
  }
}
