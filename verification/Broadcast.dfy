/** Any number of VM threads working on the shared buffer, in any interleaving. Each action is one
    critical section, a return from the wait (spurious ones included), or an abort. What the guests
    send and receive is logged from the operations and their outcomes alone, never from the host's
    state, so that the theorems relate what one guest said to what the others heard. */
module Broadcast {
  import opened Protocol

  type Payload = seq<int>

  /** A VM thread sleeping on the condition variable remembers whether a notify_all has reached it. */
  datatype Thread = Awake | Asleep(op: Op, notified: bool)

  datatype WriterLog = WriterLog(announced: nat, sent: Payload, published: seq<Payload>)
  datatype ReaderLog = ReaderLog(begun: bool, bytes: Payload, acked: seq<Payload>)

  /** VM 0 is the writer, every other VM a reader. */
  datatype System = System(
    shared: Shared,
    vms: seq<Vm>,
    threads: seq<Thread>,
    writerLog: WriterLog,
    readerLogs: seq<ReaderLog>)

  datatype Action = Enter(vm: nat, op: Op) | Wake(vm: nat) | Abort

  // ----- logs of what the guests observe

  /** The part of a transfer that fits the buffer. */
  function Truncate(p: Payload): Payload {
    if |p| <= 256 then p else p[..256]
  }

  function PublishIfComplete(w: WriterLog): WriterLog {
    if |w.sent| == w.announced then w.(published := w.published + [Truncate(w.sent)]) else w
  }

  function ObserveWriter(w: WriterLog, op: Op, outcome: Outcome): WriterLog {
    if !outcome.Done? then w
    else match op
      case BeginWrite(count) => PublishIfComplete(WriterLog(count, [], w.published))
      case PutByte(value) => PublishIfComplete(w.(sent := w.sent + [value]))
      case _ => w
  }

  function ObserveReader(r: ReaderLog, op: Op, outcome: Outcome): ReaderLog {
    if !outcome.Done? then r
    else match op
      case BeginRead => ReaderLog(true, [], r.acked)
      case GetByte => r.(bytes := r.bytes + [outcome.value])
      case EndRead(_) => r.(acked := r.acked + [r.bytes])
      case _ => r
  }

  // ----- the transition system

  ghost predicate Shape(s: System) {
    |s.vms| == |s.threads| == |s.readerLogs| >= 1
  }

  ghost predicate Init(s: System) {
    && Shape(s)
    && s.shared == InitShared(|s.vms| - 1)
    && (forall i :: 0 <= i < |s.vms| ==> s.vms[i] == InitVm(if i == 0 then Writer else Reader))
    && (forall i :: 0 <= i < |s.vms| ==> s.threads[i] == Awake)
    && s.writerLog == WriterLog(0, [], [])
    && (forall i :: 0 <= i < |s.vms| ==> s.readerLogs[i] == ReaderLog(false, [], []))
  }

  ghost predicate Enabled(s: System, a: Action)
    requires Shape(s)
  {
    match a
    case Enter(i, op) => i < |s.vms| && s.threads[i].Awake? && Dispatched(s.vms[i], op)
    case Wake(i) => i < |s.vms| && s.threads[i].Asleep?
    case Abort => true
  }

  function NotifyAll(ts: seq<Thread>): (r: seq<Thread>)
    ensures |r| == |ts|
    ensures forall i :: 0 <= i < |ts| ==> r[i] == (if ts[i].Asleep? then ts[i].(notified := true) else Awake)
  {
    if ts == [] then []
    else NotifyAll(ts[..|ts| - 1]) +
         [if ts[|ts| - 1].Asleep? then ts[|ts| - 1].(notified := true) else Awake]
  }

  /** VM `i` leaves the critical section of `op` with effect `e`. */
  function Install(s: System, i: nat, op: Op, e: Effect): (s': System)
    requires Shape(s) && i < |s.vms|
    ensures Shape(s')
  {
    var threads := if e.notify then NotifyAll(s.threads) else s.threads;
    System(e.shared,
           s.vms[i := e.vm],
           threads[i := if e.outcome.Blocked? then Asleep(op, false) else Awake],
           if i == 0 then ObserveWriter(s.writerLog, op, e.outcome) else s.writerLog,
           if i == 0 then s.readerLogs
           else s.readerLogs[i := ObserveReader(s.readerLogs[i], op, e.outcome)])
  }

  /** VM `i` holds the mutex and runs the critical section of `op`. */
  function Run(s: System, i: nat, op: Op): (s': System)
    requires Shape(s) && i < |s.vms|
    ensures Shape(s')
  {
    Install(s, i, op, Critical(op, s.shared, s.vms[i]))
  }

  /** The operation whose critical section an action runs. */
  function OpOf(s: System, a: Action): Op
    requires Shape(s) && Enabled(s, a) && !a.Abort?
  {
    if a.Enter? then a.op else s.threads[a.vm].op
  }

  function AbortAll(s: System): (s': System)
    requires Shape(s)
    ensures Shape(s')
  {
    s.(shared := s.shared.(stopped := true), threads := NotifyAll(s.threads))
  }

  function Next(s: System, a: Action): (s': System)
    requires Shape(s) && Enabled(s, a)
    ensures Shape(s')
  {
    if a.Abort? then AbortAll(s) else Run(s, a.vm, OpOf(s, a))
  }

  /** The hypothesis on reader guests: no byte read and no acknowledgement before the first
      successful request for a size. */
  ghost predicate Disciplined(s: System, a: Action)
    requires Shape(s) && Enabled(s, a)
  {
    a.Enter? && a.vm > 0 && (a.op.GetByte? || a.op.EndRead?) ==> s.readerLogs[a.vm].begun
  }

  ghost predicate StepAt(states: seq<System>, actions: seq<Action>, k: nat)
    requires |states| == |actions| + 1 && k < |actions|
  {
    && Shape(states[k])
    && Enabled(states[k], actions[k])
    && states[k + 1] == Next(states[k], actions[k])
  }

  ghost predicate DisciplinedAt(states: seq<System>, actions: seq<Action>, k: nat)
    requires |states| == |actions| + 1 && k < |actions|
  {
    StepAt(states, actions, k) && Disciplined(states[k], actions[k])
  }

  ghost predicate IsRun(states: seq<System>, actions: seq<Action>) {
    && |states| == |actions| + 1
    && Init(states[0])
    && forall k :: 0 <= k < |actions| ==> StepAt(states, actions, k)
  }

  ghost predicate IsDisciplinedRun(states: seq<System>, actions: seq<Action>) {
    && IsRun(states, actions)
    && forall k :: 0 <= k < |actions| ==> DisciplinedAt(states, actions, k)
  }

  // ----- the invariant

  ghost predicate RoundOk(s: Shared) {
    && s.receivedBytes <= s.expectedBytes
    && s.size == Min(s.expectedBytes, BUFFER_SIZE)
    && (s.dataReady ==> s.receivedBytes == s.expectedBytes && s.generation > 0)
    && (!s.dataReady ==> s.completedReaders == 0)
    && (s.roundInProgress && !s.dataReady ==> s.receivedBytes < s.expectedBytes)
    && (!s.roundInProgress && !s.dataReady ==> s.generation == 0)
    && (!s.roundInProgress && s.dataReady ==> s.completedReaders == s.readerCount)
  }

  ghost predicate WriterOk(s: Shared, v: Vm, w: WriterLog) {
    && v.mode == Writer
    && v.writeGeneration == (if s.roundInProgress && s.dataReady then s.generation else 0)
    && |w.published| == s.generation
    && (s.roundInProgress && !s.dataReady ==>
          && w.announced == s.expectedBytes
          && |w.sent| == s.receivedBytes
          && forall k :: 0 <= k < Min(s.receivedBytes, BUFFER_SIZE) ==> s.data[k] == w.sent[k])
    && (s.dataReady ==> s.generation > 0 && w.published[s.generation - 1] == s.data[..s.size])
    && (v.transferCompleted ==> s.generation > 0)
    && (v.transferCompleted && s.generation == 1 && s.dataReady ==> !s.roundInProgress)
  }

  /** A reader that has been told the size and has not acknowledged yet. */
  ghost predicate InFlight(v: Vm) {
    v.activeReadGeneration > v.lastReadGeneration
  }

  ghost predicate ReaderOk(s: Shared, v: Vm, r: ReaderLog, published: seq<Payload>) {
    && v.mode == Reader
    && v.lastReadGeneration <= s.generation <= v.lastReadGeneration + 1
    && (!s.dataReady ==> v.lastReadGeneration == s.generation)
    && |published| == s.generation
    && r.acked == published[..v.lastReadGeneration]
    && (r.begun <==> v.activeReadGeneration > 0)
    && (v.transferCompleted <==> v.lastReadGeneration > 0)
    && (if InFlight(v) then
          && v.activeReadGeneration == s.generation && s.dataReady && !v.readCompleted
          && v.readOffset <= s.size && r.bytes == s.data[..v.readOffset]
        else
          && v.activeReadGeneration == v.lastReadGeneration
          && (v.activeReadGeneration > 0 ==> v.readCompleted))
  }

  ghost predicate ThreadOk(v: Vm, t: Thread) {
    t.Asleep? ==> Dispatched(v, t.op) && (t.op.BeginWrite? || t.op.EndWrite? || t.op.BeginRead?)
  }

  /** How many readers have acknowledged generation `g`. */
  ghost function AckCount(vms: seq<Vm>, g: nat): nat {
    if |vms| <= 1 then 0
    else AckCount(vms[..|vms| - 1], g) + (if vms[|vms| - 1].lastReadGeneration == g then 1 else 0)
  }

  ghost predicate Inv(s: System) {
    && Shape(s)
    && s.shared.readerCount == |s.vms| - 1
    && RoundOk(s.shared)
    && WriterOk(s.shared, s.vms[0], s.writerLog)
    && (forall i :: 1 <= i < |s.vms| ==>
          ReaderOk(s.shared, s.vms[i], s.readerLogs[i], s.writerLog.published))
    && (s.shared.dataReady ==> s.shared.completedReaders == AckCount(s.vms, s.shared.generation))
    && (forall i :: 0 <= i < |s.vms| ==> ThreadOk(s.vms[i], s.threads[i]))
  }

  lemma {:induction false} AckCountBounds(vms: seq<Vm>, g: nat)
    requires |vms| >= 1
    ensures AckCount(vms, g) <= |vms| - 1
    ensures AckCount(vms, g) == |vms| - 1 <==>
            forall i :: 1 <= i < |vms| ==> vms[i].lastReadGeneration == g
    ensures (forall i :: 1 <= i < |vms| ==> vms[i].lastReadGeneration != g) ==> AckCount(vms, g) == 0
  {
    if |vms| > 1 {
      var front := vms[..|vms| - 1];
      AckCountBounds(front, g);
      assert forall i :: 1 <= i < |front| ==> front[i] == vms[i];
    }
  }

  lemma {:induction false} AckCountUpdate(vms: seq<Vm>, g: nat, i: nat, v: Vm)
    requires i < |vms|
    ensures i == 0 ==> AckCount(vms[i := v], g) == AckCount(vms, g)
    ensures i > 0 ==>
              (AckCount(vms[i := v], g) == AckCount(vms, g)
               - (if vms[i].lastReadGeneration == g then 1 else 0)
               + (if v.lastReadGeneration == g then 1 else 0))
  {
    if |vms| > 1 {
      var n := |vms| - 1;
      var front := vms[..n];
      if i < n {
        assert vms[i := v][..n] == front[i := v];
        AckCountUpdate(front, g, i, v);
      } else {
        assert vms[i := v][..n] == front;
      }
    }
  }

  lemma InitInv(s: System)
    requires Init(s)
    ensures Inv(s) && NoLostWakeup(s)
  {
  }

  /** One writer critical section, seen by the shared state and the writer's log. */
  lemma WriterSide(s: Shared, v: Vm, w: WriterLog, op: Op)
    requires RoundOk(s) && WriterOk(s, v, w) && Dispatched(v, op)
    requires Critical(op, s, v).outcome.Done?
    requires s.dataReady ==> s.completedReaders <= s.readerCount
    ensures var e := Critical(op, s, v);
            RoundOk(e.shared) && WriterOk(e.shared, e.vm, ObserveWriter(w, op, e.outcome))
  {
    var e := Critical(op, s, v);
    var w' := ObserveWriter(w, op, e.outcome);
    match op {
      case GetMode =>
      case EndWrite =>
      case BeginWrite(count) =>
        if count == 0 { assert e.shared.data[..0] == []; }
      case PutByte(value) =>
        if e.shared.dataReady {
          assert w'.published[s.generation] == Truncate(w'.sent);
          assert e.shared.data[..s.size] == Truncate(w'.sent);
        }
    }
  }

  /** The same critical section, seen by one reader: it may start a round or publish one, and it
      does neither while the reader is between its size and its acknowledgement. */
  lemma WriterSideForReader(s: Shared, v: Vm, w: WriterLog, op: Op, rv: Vm, r: ReaderLog)
    requires RoundOk(s) && WriterOk(s, v, w) && Dispatched(v, op)
    requires Critical(op, s, v).outcome.Done?
    requires ReaderOk(s, rv, r, w.published)
    requires s.dataReady && s.completedReaders == s.readerCount ==> rv.lastReadGeneration == s.generation
    ensures var e := Critical(op, s, v);
            ReaderOk(e.shared, rv, r, ObserveWriter(w, op, e.outcome).published)
  {
    var e := Critical(op, s, v);
    var p' := ObserveWriter(w, op, e.outcome).published;
    assert p'[..rv.lastReadGeneration] == w.published[..rv.lastReadGeneration];
  }

  lemma ReaderSide(s: Shared, v: Vm, r: ReaderLog, published: seq<Payload>, op: Op)
    requires RoundOk(s) && ReaderOk(s, v, r, published) && Dispatched(v, op)
    requires Critical(op, s, v).outcome.Done?
    requires op.GetByte? || op.EndRead? ==> r.begun
    requires s.dataReady ==> s.generation > 0 && published[s.generation - 1] == s.data[..s.size]
    ensures var e := Critical(op, s, v);
            && RoundOk(e.shared)
            && ReaderOk(e.shared, e.vm, ObserveReader(r, op, e.outcome), published)
            && e.shared == s.(completedReaders := e.shared.completedReaders)
            && e.vm.lastReadGeneration == (if op.EndRead? then s.generation else v.lastReadGeneration)
            && e.shared.completedReaders == s.completedReaders + (if op.EndRead? then 1 else 0)
            && (op.EndRead? ==> v.lastReadGeneration == s.generation - 1 && s.dataReady)
  {
    if op.EndRead? {
      var g := s.generation;
      assert published[..g] == published[..g - 1] + [published[g - 1]];
    }
  }

  /** A round is published with no acknowledgements counted and none given. */
  lemma WriterSideAccounting(s: Shared, v: Vm, op: Op, vms: seq<Vm>)
    requires RoundOk(s) && |vms| >= 1 && Dispatched(v, op) && v.mode == Writer
    requires Critical(op, s, v).outcome.Done?
    requires s.dataReady ==> s.completedReaders == AckCount(vms, s.generation)
    requires forall i :: 1 <= i < |vms| ==> vms[i].lastReadGeneration <= s.generation
    ensures var e := Critical(op, s, v);
            e.shared.dataReady ==> e.shared.completedReaders == AckCount(vms[0 := e.vm], e.shared.generation)
  {
    var e := Critical(op, s, v);
    AckCountBounds(vms, e.shared.generation);
    AckCountUpdate(vms, e.shared.generation, 0, e.vm);
  }

  /** The invariant follows from what the effect does to the shared state, to the acting VM and to
      each reader. */
  lemma InstallInv(s: System, i: nat, op: Op, e: Effect)
    requires Inv(s) && i < |s.vms|
    requires e.shared.readerCount == s.shared.readerCount && RoundOk(e.shared)
    requires e.vm.mode == s.vms[i].mode && (s.vms[i].modeDelivered ==> e.vm.modeDelivered)
    requires e.outcome.Done?
    requires var s' := Install(s, i, op, e);
             && WriterOk(e.shared, s'.vms[0], s'.writerLog)
             && (forall j :: 1 <= j < |s.vms| ==>
                   ReaderOk(e.shared, s'.vms[j], s'.readerLogs[j], s'.writerLog.published))
             && (e.shared.dataReady ==> e.shared.completedReaders == AckCount(s'.vms, e.shared.generation))
    ensures Inv(Install(s, i, op, e))
  {
    var s' := Install(s, i, op, e);
    forall j | 0 <= j < |s'.vms|
      ensures ThreadOk(s'.vms[j], s'.threads[j])
    {
      assert ThreadOk(s.vms[j], s.threads[j]);
    }
  }

  lemma WriterStepForReader(s: System, op: Op, i: nat)
    requires Inv(s) && Dispatched(s.vms[0], op) && Critical(op, s.shared, s.vms[0]).outcome.Done?
    requires 1 <= i < |s.vms|
    ensures var e := Critical(op, s.shared, s.vms[0]);
            ReaderOk(e.shared, s.vms[i], s.readerLogs[i], ObserveWriter(s.writerLog, op, e.outcome).published)
    ensures s.vms[i].lastReadGeneration <= s.shared.generation
  {
    AckCountBounds(s.vms, s.shared.generation);
    assert ReaderOk(s.shared, s.vms[i], s.readerLogs[i], s.writerLog.published);
    WriterSideForReader(s.shared, s.vms[0], s.writerLog, op, s.vms[i], s.readerLogs[i]);
  }

  lemma WriterStep(s: System, op: Op)
    requires Inv(s) && Dispatched(s.vms[0], op) && Critical(op, s.shared, s.vms[0]).outcome.Done?
    ensures Inv(Run(s, 0, op))
  {
    var e := Critical(op, s.shared, s.vms[0]);
    var p' := ObserveWriter(s.writerLog, op, e.outcome).published;
    AckCountBounds(s.vms, s.shared.generation);
    forall i | 1 <= i < |s.vms|
      ensures ReaderOk(e.shared, s.vms[i], s.readerLogs[i], p')
      ensures s.vms[i].lastReadGeneration <= s.shared.generation
    {
      WriterStepForReader(s, op, i);
    }
    WriterSide(s.shared, s.vms[0], s.writerLog, op);
    WriterSideAccounting(s.shared, s.vms[0], op, s.vms);
    InstallInv(s, 0, op, e);
  }

  /** An acknowledgement is counted for the reader that gives it. */
  lemma ReaderSideAccounting(s: System, i: nat, op: Op)
    requires Inv(s) && 1 <= i < |s.vms| && Dispatched(s.vms[i], op)
    requires Critical(op, s.shared, s.vms[i]).outcome.Done?
    requires op.GetByte? || op.EndRead? ==> s.readerLogs[i].begun
    ensures var e := Critical(op, s.shared, s.vms[i]);
            e.shared.dataReady ==> e.shared.completedReaders == AckCount(s.vms[i := e.vm], e.shared.generation)
  {
    assert ReaderOk(s.shared, s.vms[i], s.readerLogs[i], s.writerLog.published);
    ReaderSide(s.shared, s.vms[i], s.readerLogs[i], s.writerLog.published, op);
    AckCountUpdate(s.vms, s.shared.generation, i, Critical(op, s.shared, s.vms[i]).vm);
  }

  lemma WriterUndisturbed(s: Shared, n: nat, v: Vm, w: WriterLog)
    requires WriterOk(s, v, w)
    ensures WriterOk(s.(completedReaders := n), v, w)
  {
  }

  lemma ReaderUndisturbed(s: Shared, n: nat, v: Vm, r: ReaderLog, published: seq<Payload>)
    requires ReaderOk(s, v, r, published)
    ensures ReaderOk(s.(completedReaders := n), v, r, published)
  {
  }

  lemma ReaderStep(s: System, i: nat, op: Op)
    requires Inv(s) && 1 <= i < |s.vms| && Dispatched(s.vms[i], op)
    requires Critical(op, s.shared, s.vms[i]).outcome.Done?
    requires op.GetByte? || op.EndRead? ==> s.readerLogs[i].begun
    ensures Inv(Run(s, i, op))
  {
    var e := Critical(op, s.shared, s.vms[i]);
    var p := s.writerLog.published;
    assert ReaderOk(s.shared, s.vms[i], s.readerLogs[i], p);
    ReaderSide(s.shared, s.vms[i], s.readerLogs[i], p, op);
    ReaderSideAccounting(s, i, op);
    WriterUndisturbed(s.shared, e.shared.completedReaders, s.vms[0], s.writerLog);
    forall j | 1 <= j < |s.vms| && j != i
      ensures ReaderOk(e.shared, s.vms[j], s.readerLogs[j], p)
    {
      ReaderUndisturbed(s.shared, e.shared.completedReaders, s.vms[j], s.readerLogs[j], p);
    }
    InstallInv(s, i, op, e);
  }

  /** A critical section that sleeps or refuses changes nothing but the thread's own status. */
  lemma FruitlessStep(s: System, i: nat, op: Op)
    requires Shape(s) && i < |s.vms| && !Critical(op, s.shared, s.vms[i]).outcome.Done?
    ensures Run(s, i, op) == s.(threads :=
              s.threads[i := if Critical(op, s.shared, s.vms[i]).outcome.Blocked? then Asleep(op, false) else Awake])
  {
    assert s.vms[i := s.vms[i]] == s.vms;
    assert s.readerLogs[i := s.readerLogs[i]] == s.readerLogs;
  }

  lemma FruitlessInv(s: System, i: nat, op: Op)
    requires Inv(s) && i < |s.vms| && Dispatched(s.vms[i], op)
    requires !Critical(op, s.shared, s.vms[i]).outcome.Done?
    ensures Inv(Run(s, i, op))
  {
    FruitlessStep(s, i, op);
    var s' := Run(s, i, op);
    forall j | 0 <= j < |s'.vms|
      ensures ThreadOk(s'.vms[j], s'.threads[j])
    {
      assert ThreadOk(s.vms[j], s.threads[j]);
    }
  }

  lemma AbortInv(s: System)
    requires Inv(s)
    ensures Inv(AbortAll(s))
  {
    var s' := AbortAll(s);
    forall j | 0 <= j < |s'.vms|
      ensures ThreadOk(s'.vms[j], s'.threads[j])
    {
      assert ThreadOk(s.vms[j], s.threads[j]);
    }
    forall i | 1 <= i < |s'.vms|
      ensures ReaderOk(s'.shared, s'.vms[i], s'.readerLogs[i], s'.writerLog.published)
    {
      assert ReaderOk(s.shared, s.vms[i], s.readerLogs[i], s.writerLog.published);
    }
  }

  lemma RunStepInv(s: System, i: nat, op: Op)
    requires Inv(s) && i < |s.vms| && Dispatched(s.vms[i], op)
    requires i > 0 && (op.GetByte? || op.EndRead?) ==> s.readerLogs[i].begun
    ensures Inv(Run(s, i, op))
  {
    if !Critical(op, s.shared, s.vms[i]).outcome.Done? {
      FruitlessInv(s, i, op);
    } else if i == 0 {
      WriterStep(s, op);
    } else {
      ReaderStep(s, i, op);
    }
  }

  lemma ActsDispatched(s: System, a: Action)
    requires Inv(s) && Enabled(s, a) && Disciplined(s, a) && !a.Abort?
    ensures var op := OpOf(s, a);
            Dispatched(s.vms[a.vm], op) &&
            (a.vm > 0 && (op.GetByte? || op.EndRead?) ==> s.readerLogs[a.vm].begun)
  {
    assert ThreadOk(s.vms[a.vm], s.threads[a.vm]);
  }

  /** Every disciplined action keeps the invariant. */
  lemma StepInv(s: System, a: Action)
    requires Inv(s) && Enabled(s, a) && Disciplined(s, a)
    ensures Inv(Next(s, a))
  {
    if a.Abort? {
      AbortInv(s);
    } else {
      ActsDispatched(s, a);
      RunStepInv(s, a.vm, OpOf(s, a));
    }
  }

  lemma {:induction false} RunInv(states: seq<System>, actions: seq<Action>, k: nat)
    requires IsDisciplinedRun(states, actions) && k < |states|
    ensures Inv(states[k])
  {
    if k == 0 {
      InitInv(states[0]);
    } else {
      RunInv(states, actions, k - 1);
      assert DisciplinedAt(states, actions, k - 1);
      StepInv(states[k - 1], actions[k - 1]);
    }
  }

  // ----- wake-ups

  /** A sleeper no notify_all has reached would go straight back to sleep. */
  ghost predicate NoLostWakeup(s: System)
    requires Shape(s)
  {
    forall i :: 0 <= i < |s.vms| && s.threads[i].Asleep? && !s.threads[i].notified ==>
      Critical(s.threads[i].op, s.shared, s.vms[i]).outcome.Blocked?
  }

  /** Every critical section that can make some other VM's wait predicate true calls notify_all. */
  lemma SilentStepsKeepWaitersBlocked(op: Op, s: Shared, v: Vm, op': Op, v': Vm)
    requires !Critical(op, s, v).notify
    requires Critical(op', s, v').outcome.Blocked?
    ensures Critical(op', Critical(op, s, v).shared, v').outcome.Blocked?
  {
  }

  lemma WakeupStep(s: System, a: Action)
    requires Shape(s) && NoLostWakeup(s) && Enabled(s, a)
    ensures NoLostWakeup(Next(s, a))
  {
    if !a.Abort? {
      var op := OpOf(s, a);
      var e := Critical(op, s.shared, s.vms[a.vm]);
      var s' := Next(s, a);
      forall i | 0 <= i < |s'.vms| && s'.threads[i].Asleep? && !s'.threads[i].notified
        ensures Critical(s'.threads[i].op, s'.shared, s'.vms[i]).outcome.Blocked?
      {
        if i != a.vm {
          SilentStepsKeepWaitersBlocked(op, s.shared, s.vms[a.vm], s.threads[i].op, s.vms[i]);
        }
      }
    }
  }

  /** No lost wake-ups, in every run of any VMs, disciplined or not. */
  lemma {:induction false} NoLostWakeups(states: seq<System>, actions: seq<Action>, k: nat)
    requires IsRun(states, actions) && k < |states|
    ensures Shape(states[k]) && NoLostWakeup(states[k])
  {
    if k > 0 {
      NoLostWakeups(states, actions, k - 1);
      assert StepAt(states, actions, k - 1);
      WakeupStep(states[k - 1], actions[k - 1]);
    }
  }

  // ----- broadcast

  /** The VM that acts, and the operation whose critical section it runs. */
  ghost predicate Completes(s: System, a: Action, i: nat, op: Op)
    requires Shape(s) && Enabled(s, a)
  {
    && !a.Abort? && a.vm == i
    && op == OpOf(s, a)
    && Critical(op, s.shared, s.vms[i]).outcome.Done?
  }

  /** Every reader has acknowledged exactly what the writer published, in order, up to at most the
      payload in transit: acknowledgement number g is the payload of generation g, none is skipped
      and none repeated, and the host's reader count is the number of readers level with it. */
  lemma BroadcastDelivery(states: seq<System>, actions: seq<Action>, k: nat)
    requires IsDisciplinedRun(states, actions) && k < |states|
    ensures var s := states[k];
            && Shape(s)
            && |s.writerLog.published| == s.shared.generation
            && (forall i :: 1 <= i < |s.vms| ==>
                  && |s.readerLogs[i].acked| == s.vms[i].lastReadGeneration
                  && s.readerLogs[i].acked <= s.writerLog.published
                  && s.shared.generation <= |s.readerLogs[i].acked| + 1
                  && (s.vms[i].transferCompleted <==> s.readerLogs[i].acked != []))
            && (s.shared.dataReady ==> s.shared.completedReaders == AckCount(s.vms, s.shared.generation))
  {
    RunInv(states, actions, k);
    var s := states[k];
    forall i | 1 <= i < |s.vms|
      ensures |s.readerLogs[i].acked| == s.vms[i].lastReadGeneration
      ensures s.readerLogs[i].acked <= s.writerLog.published
      ensures s.shared.generation <= |s.readerLogs[i].acked| + 1
      ensures s.vms[i].transferCompleted <==> s.readerLogs[i].acked != []
    {
      assert ReaderOk(s.shared, s.vms[i], s.readerLogs[i], s.writerLog.published);
    }
  }

  /** When the writer's round finishes, all logs are equal, and the count it is given is the
      number of bytes that were kept of its last transfer. */
  lemma WriterFinishesLast(states: seq<System>, actions: seq<Action>, k: nat)
    requires IsDisciplinedRun(states, actions) && k < |actions| && StepAt(states, actions, k)
    requires Completes(states[k], actions[k], 0, EndWrite)
    ensures var s := states[k + 1];
            && Shape(s)
            && s.writerLog.published != []
            && (forall i :: 1 <= i < |s.vms| ==> s.readerLogs[i].acked == s.writerLog.published)
            && Critical(EndWrite, states[k].shared, states[k].vms[0]).outcome.value
               == |s.writerLog.published[|s.writerLog.published| - 1]|
  {
    var s := states[k];
    RunStep(states, actions, k);
    AckCountBounds(s.vms, s.shared.generation);
    var s' := states[k + 1];
    forall i | 1 <= i < |s.vms|
      ensures s'.readerLogs[i].acked == s'.writerLog.published
    {
      assert ReaderOk(s.shared, s.vms[i], s.readerLogs[i], s.writerLog.published);
    }
  }

  // ----- refinement to an atomic broadcast channel

  /** A channel with one log of payloads and one cursor per reader. A payload can be published
      only when every reader has taken all earlier ones. */
  datatype Channel = Channel(log: seq<Payload>, cursors: seq<nat>)
  datatype Label = Silent | Publish(payload: Payload) | Deliver(reader: nat, payload: Payload)

  ghost predicate ChannelNext(c: Channel, l: Label, c': Channel) {
    match l
    case Silent => c' == c
    case Publish(p) =>
      && (forall i :: 1 <= i < |c.cursors| ==> c.cursors[i] == |c.log|)
      && c' == c.(log := c.log + [p])
    case Deliver(i, p) =>
      && 1 <= i < |c.cursors| && c.cursors[i] < |c.log|
      && p == c.log[c.cursors[i]]
      && c' == c.(cursors := c.cursors[i := c.cursors[i] + 1])
  }

  ghost function Cursors(logs: seq<ReaderLog>): (c: seq<nat>)
    ensures |c| == |logs| && forall i :: 0 <= i < |logs| ==> c[i] == |logs[i].acked|
  {
    if logs == [] then [] else Cursors(logs[..|logs| - 1]) + [|logs[|logs| - 1].acked|]
  }

  ghost function ChannelOf(s: System): Channel {
    Channel(s.writerLog.published, Cursors(s.readerLogs))
  }

  ghost function WriterLabel(w: WriterLog, op: Op): Label {
    match op
    case BeginWrite(count) => if count == 0 then Publish([]) else Silent
    case PutByte(value) =>
      var sent := w.sent + [value];
      if |sent| == w.announced then Publish(Truncate(sent)) else Silent
    case _ => Silent
  }

  /** What an action does as seen by the guests: the writer completes a transfer, or a reader has
      its bytes acknowledged. */
  ghost function LabelOf(s: System, a: Action): Label
    requires Shape(s) && Enabled(s, a)
  {
    if a.Abort? then Silent
    else
      var op := OpOf(s, a);
      if !Critical(op, s.shared, s.vms[a.vm]).outcome.Done? then Silent
      else if a.vm == 0 then WriterLabel(s.writerLog, op)
      else if op.EndRead? then Deliver(a.vm, s.readerLogs[a.vm].bytes)
      else Silent
  }

  /** Refinement: each disciplined action is a step of the channel, with the payload the writer
      sent (cut to 256 bytes) or the bytes the reader was handed. */
  lemma RefinesChannel(s: System, a: Action)
    requires Inv(s) && Enabled(s, a) && Disciplined(s, a)
    ensures ChannelNext(ChannelOf(s), LabelOf(s, a), ChannelOf(Next(s, a)))
  {
    if !a.Abort? {
      ActsDispatched(s, a);
      var op := OpOf(s, a);
      if !Critical(op, s.shared, s.vms[a.vm]).outcome.Done? {
        FruitlessStep(s, a.vm, op);
      } else if a.vm == 0 {
        WriterRefinesChannel(s, op);
      } else {
        ReaderRefinesChannel(s, a.vm, op);
      }
    }
  }

  /** The label says what the writer's log gains, and when it is a publication no reader is behind. */
  lemma WriterLabelIsExact(s: Shared, v: Vm, w: WriterLog, op: Op)
    requires RoundOk(s) && WriterOk(s, v, w) && Dispatched(v, op) && Critical(op, s, v).outcome.Done?
    ensures ObserveWriter(w, op, Critical(op, s, v).outcome).published ==
              w.published + (if WriterLabel(w, op).Publish? then [WriterLabel(w, op).payload] else [])
    ensures WriterLabel(w, op).Publish? ==> !s.dataReady || s.completedReaders == s.readerCount
  {
  }

  lemma NobodyBehind(s: System, i: nat)
    requires Inv(s) && 1 <= i < |s.vms|
    requires !s.shared.dataReady || s.shared.completedReaders == s.shared.readerCount
    ensures |s.readerLogs[i].acked| == |s.writerLog.published|
  {
    AckCountBounds(s.vms, s.shared.generation);
    assert ReaderOk(s.shared, s.vms[i], s.readerLogs[i], s.writerLog.published);
  }

  lemma WriterRefinesChannel(s: System, op: Op)
    requires Inv(s) && Dispatched(s.vms[0], op) && Critical(op, s.shared, s.vms[0]).outcome.Done?
    ensures ChannelNext(ChannelOf(s), WriterLabel(s.writerLog, op), ChannelOf(Run(s, 0, op)))
  {
    WriterLabelIsExact(s.shared, s.vms[0], s.writerLog, op);
    if WriterLabel(s.writerLog, op).Publish? {
      forall i | 1 <= i < |s.vms|
        ensures |s.readerLogs[i].acked| == |s.writerLog.published|
      {
        NobodyBehind(s, i);
      }
    }
  }

  lemma CursorsUpdate(logs: seq<ReaderLog>, i: nat, r: ReaderLog)
    requires i < |logs|
    ensures Cursors(logs[i := r]) == Cursors(logs)[i := |r.acked|]
  {
  }

  lemma ReaderRefinesChannel(s: System, i: nat, op: Op)
    requires Inv(s) && 1 <= i < |s.vms| && Dispatched(s.vms[i], op)
    requires Critical(op, s.shared, s.vms[i]).outcome.Done?
    requires op.GetByte? || op.EndRead? ==> s.readerLogs[i].begun
    ensures ChannelNext(ChannelOf(s), if op.EndRead? then Deliver(i, s.readerLogs[i].bytes) else Silent,
                        ChannelOf(Run(s, i, op)))
  {
    var r, p := s.readerLogs[i], s.writerLog.published;
    var r' := ObserveReader(r, op, Critical(op, s.shared, s.vms[i]).outcome);
    assert ReaderOk(s.shared, s.vms[i], r, p);
    CursorsUpdate(s.readerLogs, i, r');
    DeliveryIsNext(s.shared, s.vms[i], r, p, op);
    assert Cursors(s.readerLogs)[i := |r.acked|] == Cursors(s.readerLogs);
  }

  /** An acknowledgement delivers the payload after those acknowledged before; nothing else delivers any. */
  lemma DeliveryIsNext(s: Shared, v: Vm, r: ReaderLog, published: seq<Payload>, op: Op)
    requires RoundOk(s) && ReaderOk(s, v, r, published) && Dispatched(v, op) && Critical(op, s, v).outcome.Done?
    requires op.GetByte? || op.EndRead? ==> r.begun
    requires s.dataReady ==> s.generation > 0 && published[s.generation - 1] == s.data[..s.size]
    ensures var r' := ObserveReader(r, op, Critical(op, s, v).outcome);
            if op.EndRead? then
              |r.acked| < |published| && r.bytes == published[|r.acked|] && |r'.acked| == |r.acked| + 1
            else r'.acked == r.acked
  {
  }

  // ----- snapshot stability

  ghost predicate SameSnapshot(s: Shared, t: Shared) {
    s.data == t.data && s.size == t.size && s.generation == t.generation
  }

  lemma SnapshotStep(s: System, a: Action, i: nat)
    requires Inv(s) && Enabled(s, a) && Disciplined(s, a)
    requires 1 <= i < |s.vms| && InFlight(s.vms[i])
    ensures SameSnapshot(s.shared, Next(s, a).shared)
  {
    assert ReaderOk(s.shared, s.vms[i], s.readerLogs[i], s.writerLog.published);
    AckCountBounds(s.vms, s.shared.generation);
    if !a.Abort? {
      ActsDispatched(s, a);
      if a.vm > 0 {
        assert ReaderOk(s.shared, s.vms[a.vm], s.readerLogs[a.vm], s.writerLog.published);
      }
    }
  }

  /** The bytes a reader holds between size and acknowledgement are the first of the payload in transit. */
  lemma BytesSoFar(s: System, i: nat)
    requires Inv(s) && 1 <= i < |s.vms| && InFlight(s.vms[i])
    ensures var p := s.writerLog.published;
            && p != [] && s.readerLogs[i].bytes <= p[|p| - 1]
            && |s.readerLogs[i].bytes| == s.vms[i].readOffset
            && |p[|p| - 1]| == s.shared.size
  {
    assert ReaderOk(s.shared, s.vms[i], s.readerLogs[i], s.writerLog.published);
  }

  /** One step of a disciplined run. */
  lemma RunStep(states: seq<System>, actions: seq<Action>, k: nat)
    requires IsDisciplinedRun(states, actions) && k < |actions|
    ensures Inv(states[k]) && Enabled(states[k], actions[k]) && Disciplined(states[k], actions[k])
    ensures states[k + 1] == Next(states[k], actions[k]) && Inv(states[k + 1])
  {
    RunInv(states, actions, k);
    RunInv(states, actions, k + 1);
    assert DisciplinedAt(states, actions, k);
  }

  /** From the step that tells a reader the size up to and including its acknowledgement, no step of
      any VM and no abort changes the data, the size or the generation. */
  lemma {:induction false} SnapshotStable(states: seq<System>, actions: seq<Action>, i: nat, j: nat, k: nat)
    requires IsDisciplinedRun(states, actions)
    requires 1 <= i && j <= k < |states|
    requires forall m :: j <= m < k ==> i < |states[m].vms| && InFlight(states[m].vms[i])
    ensures SameSnapshot(states[j].shared, states[k].shared)
  {
    if j < k {
      SnapshotStable(states, actions, i, j, k - 1);
      RunStep(states, actions, k - 1);
      SnapshotStep(states[k - 1], actions[k - 1], i);
    }
  }

  /** So a reader gets every byte of the payload once and in order: what it holds between size and
      acknowledgement is a prefix of the payload in transit, what it acknowledges is all of it. */
  lemma BytesInOrder(states: seq<System>, actions: seq<Action>, i: nat, k: nat)
    requires IsDisciplinedRun(states, actions) && k < |actions| && StepAt(states, actions, k)
    requires 1 <= i < |states[k].vms| && InFlight(states[k].vms[i])
    ensures var p, r := states[k].writerLog.published, states[k].readerLogs[i];
            && p != [] && r.bytes <= p[|p| - 1]
            && forall n :: Completes(states[k], actions[k], i, EndRead(n)) ==> r.bytes == p[|p| - 1] && n == |r.bytes|
  {
    RunStep(states, actions, k);
    BytesSoFar(states[k], i);
  }

  // ----- what the guests are answered, in terms of what has been sent and acknowledged

  /** A reader's operations: a size is refused while one is unacknowledged, waits while everything published is
      acknowledged, and else is that of the oldest payload not acknowledged; bytes come in order and not beyond
      the payload; an acknowledgement counts only with all bytes read and their number. */
  lemma ReaderOutcomes(s: System, i: nat, reported: Word)
    requires Inv(s) && 1 <= i < |s.vms| && s.readerLogs[i].begun
    ensures var v, r, p := s.vms[i], s.readerLogs[i], s.writerLog.published;
            var o := Critical(BeginRead, s.shared, v).outcome;
            && (o.Rejected? <==> s.shared.stopped || InFlight(v))
            && (o.Blocked? <==> !s.shared.stopped && !InFlight(v) && r.acked == p)
            && (o.Done? ==> |r.acked| < |p| && o.value == |p[|r.acked|]|)
    ensures var v, r, p := s.vms[i], s.readerLogs[i], s.writerLog.published;
            var byte, ack := Critical(GetByte, s.shared, v).outcome, Critical(EndRead(reported), s.shared, v).outcome;
            && !byte.Blocked? && !ack.Blocked?
            && (InFlight(v) ==>
                  && |r.acked| == |p| - 1
                  && (byte.Done? <==> !s.shared.stopped && |r.bytes| < |p[|p| - 1]|)
                  && (byte.Done? ==> byte.value == p[|p| - 1][|r.bytes|])
                  && (ack.Done? <==> !s.shared.stopped && r.bytes == p[|p| - 1] && reported == |r.bytes|))
            && (!InFlight(v) ==> ack.Rejected?)
  {
    assert ReaderOk(s.shared, s.vms[i], s.readerLogs[i], s.writerLog.published);
    AckCountBounds(s.vms, s.shared.generation);
  }

  /** The writer's operations: an announcement is refused only after a stop and waits for the round before;
      bytes are taken as long as the message is incomplete; the end of a round waits for its readers and
      returns how many bytes were kept. */
  lemma WriterOutcomes(s: System, count: Word, value: Byte)
    requires Inv(s)
    ensures var begin := Critical(BeginWrite(count), s.shared, s.vms[0]).outcome;
            && (begin.Rejected? <==> s.shared.stopped)
            && (begin.Blocked? <==> !s.shared.stopped && s.shared.roundInProgress)
    ensures var put, w := Critical(PutByte(value), s.shared, s.vms[0]).outcome, s.writerLog;
            && !put.Blocked?
            && (put.Done? <==> !s.shared.stopped && s.shared.roundInProgress && !s.shared.dataReady)
            && (put.Done? ==> |w.sent| < w.announced)
    ensures var end, p := Critical(EndWrite, s.shared, s.vms[0]).outcome, s.writerLog.published;
            var sent := s.shared.roundInProgress && s.shared.dataReady;
            var read := forall i :: 1 <= i < |s.vms| ==> s.readerLogs[i].acked == p;
            && (end.Rejected? <==> s.shared.stopped || !sent)
            && (end.Blocked? <==> !s.shared.stopped && sent && !read)
            && (end.Done? ==> p != [] && end.value == |p[|p| - 1]|)
  {
    AckCountBounds(s.vms, s.shared.generation);
    forall i | 1 <= i < |s.vms|
      ensures s.readerLogs[i].acked == s.writerLog.published <==> s.vms[i].lastReadGeneration == s.shared.generation
    {
      assert ReaderOk(s.shared, s.vms[i], s.readerLogs[i], s.writerLog.published);
    }
  }

  // ----- abort

  /** Once stopped, nothing of the buffer and of any VM's progress changes again; only a mode that
      had not been delivered yet can still be. */
  lemma {:induction false} StoppedIsFinal(states: seq<System>, actions: seq<Action>, j: nat, k: nat)
    requires IsRun(states, actions) && j <= k < |states| && states[j].shared.stopped
    ensures states[k].shared == states[j].shared
    ensures |states[k].vms| == |states[j].vms|
    ensures forall i :: 0 <= i < |states[j].vms| ==>
              states[k].vms[i] == states[j].vms[i].(modeDelivered := states[k].vms[i].modeDelivered)
  {
    if j < k {
      StoppedIsFinal(states, actions, j, k - 1);
      assert StepAt(states, actions, k - 1);
    }
  }

  /** Once stopped, no VM can fall asleep and every sleeper has been notified and will be refused. */
  lemma StoppedWakesAll(states: seq<System>, actions: seq<Action>, k: nat)
    requires IsRun(states, actions) && k < |states| && states[k].shared.stopped
    ensures Shape(states[k])
    ensures forall i, op :: 0 <= i < |states[k].vms| ==>
              !Critical(op, states[k].shared, states[k].vms[i]).outcome.Blocked?
    ensures forall i :: 0 <= i < |states[k].vms| && states[k].threads[i].Asleep? ==> states[k].threads[i].notified
  {
    NoLostWakeups(states, actions, k);
  }

  // ----- the discipline is needed, and exactly so

  /** A run of one action more. */
  lemma Extend(states: seq<System>, actions: seq<Action>, a: Action)
    returns (states': seq<System>, actions': seq<Action>)
    requires IsRun(states, actions) && Shape(states[|states| - 1]) && Enabled(states[|states| - 1], a)
    ensures IsRun(states', actions') && states'[0] == states[0]
    ensures states'[|states'| - 1] == Next(states[|states| - 1], a)
  {
    states', actions' := states + [Next(states[|states| - 1], a)], actions + [a];
    forall k | 0 <= k < |actions'|
      ensures StepAt(states', actions', k)
    {
      assert k < |actions| ==> StepAt(states, actions, k);
    }
  }

  /** Without the discipline the broadcast property fails: the reader below reads a byte of the
      first round before the writer has sent it, acknowledges it, and the writer's round completes
      although the only reader got a zero instead of the seven that was sent. */
  lemma UndisciplinedReaderBreaksBroadcast(s: System) returns (states: seq<System>, actions: seq<Action>)
    requires Init(s) && |s.vms| == 2
    ensures IsRun(states, actions) && states[0] == s
    ensures var end := states[|states| - 1];
            && Shape(end) && |end.vms| == 2 && end.vms[0].transferCompleted && end.vms[1].transferCompleted
            && !end.shared.roundInProgress
            && end.writerLog.published == [[7]]
            && end.readerLogs[1].acked == [[0]]
  {
    states, actions := EarlyAcknowledgement(s);
    var s5 := states[|states| - 1];
    states, actions := Extend(states, actions, Enter(0, PutByte(7)));
    var s6 := states[|states| - 1];
    assert s6.shared.generation == 1 && s6.vms[0].writeGeneration == 1 && s6.shared.completedReaders == 1;
    assert s6.writerLog.sent == [7] && Truncate([7]) == [7];
    states, actions := Extend(states, actions, Enter(0, EndWrite));
  }

  lemma EarlyAcknowledgement(s: System) returns (states: seq<System>, actions: seq<Action>)
    requires Init(s) && |s.vms| == 2
    ensures IsRun(states, actions) && states[0] == s
    ensures var t := states[|states| - 1];
            && Shape(t) && |t.vms| == 2 && t.threads == [Awake, Awake]
            && t.shared == InitShared(1).(size := 1, expectedBytes := 1, completedReaders := 1, roundInProgress := true)
            && t.vms[0] == InitVm(Writer).(modeDelivered := true)
            && t.vms[1].transferCompleted
            && t.writerLog == WriterLog(1, [], [])
            && t.readerLogs[1].acked == [[0]]
  {
    states, actions := Extend([s], [], Enter(0, GetMode));
    states, actions := Extend(states, actions, Enter(1, GetMode));
    states, actions := Extend(states, actions, Enter(0, BeginWrite(1)));
    var s3 := states[|states| - 1];
    assert s3.shared == InitShared(1).(size := 1, expectedBytes := 1, roundInProgress := true);
    states, actions := Extend(states, actions, Enter(1, GetByte));
    var s4 := states[|states| - 1];
    assert s4.readerLogs[1].bytes == [0];
    states, actions := Extend(states, actions, Enter(1, EndRead(1)));
  }

  /** The host's own guards refuse an undisciplined operation exactly from generation 1 on. */
  lemma EarlyOperationAccepted(s: System, i: nat, reported: Word)
    requires Inv(s) && 1 <= i < |s.vms| && !s.readerLogs[i].begun
    ensures Critical(GetByte, s.shared, s.vms[i]).outcome.Done? <==>
              !s.shared.stopped && s.shared.generation == 0 && s.vms[i].readOffset < s.shared.size
    ensures Critical(EndRead(reported), s.shared, s.vms[i]).outcome.Done? <==>
              && !s.shared.stopped && s.shared.generation == 0 && !s.vms[i].readCompleted
              && s.vms[i].readOffset == s.shared.size == reported
  {
    assert ReaderOk(s.shared, s.vms[i], s.readerLogs[i], s.writerLog.published);
  }

  /** After its acknowledgement a reader may hold more bytes than it has acknowledged, never fewer. */
  ghost predicate LateOk(v: Vm, r: ReaderLog) {
    r.begun && !InFlight(v) && r.acked != [] ==> |r.bytes| >= |r.acked[|r.acked| - 1]|
  }

  ghost predicate AllLateOk(s: System)
    requires Shape(s)
  {
    forall i :: 1 <= i < |s.vms| ==> LateOk(s.vms[i], s.readerLogs[i])
  }

  lemma LateSide(s: Shared, v: Vm, r: ReaderLog, published: seq<Payload>, op: Op)
    requires RoundOk(s) && ReaderOk(s, v, r, published) && Dispatched(v, op) && LateOk(v, r)
    requires op.GetByte? || op.EndRead? ==> r.begun
    ensures LateOk(Critical(op, s, v).vm, ObserveReader(r, op, Critical(op, s, v).outcome))
  {
  }

  lemma LateStep(s: System, a: Action)
    requires Inv(s) && AllLateOk(s) && Enabled(s, a) && Disciplined(s, a)
    ensures AllLateOk(Next(s, a))
  {
    if !a.Abort? {
      ActsDispatched(s, a);
      var s' := Next(s, a);
      forall i | 1 <= i < |s.vms|
        ensures LateOk(s'.vms[i], s'.readerLogs[i])
      {
        assert ReaderOk(s.shared, s.vms[i], s.readerLogs[i], s.writerLog.published);
        if i == a.vm {
          LateSide(s.shared, s.vms[i], s.readerLogs[i], s.writerLog.published, OpOf(s, a));
        }
      }
    }
  }

  lemma {:induction false} LateRun(states: seq<System>, actions: seq<Action>, k: nat)
    requires IsDisciplinedRun(states, actions) && k < |states|
    ensures Inv(states[k]) && AllLateOk(states[k])
  {
    RunInv(states, actions, k);
    if k > 0 {
      LateRun(states, actions, k - 1);
      RunStep(states, actions, k - 1);
      LateStep(states[k - 1], actions[k - 1]);
    }
  }

  /** The byte continues what the reader holds of the payload published last. */
  ghost predicate Continues(s: System, i: nat, value: nat)
    requires Shape(s) && i < |s.vms|
  {
    var p := s.writerLog.published;
    p != [] && s.readerLogs[i].bytes + [value] <= p[|p| - 1]
  }

  /** Among accepted byte reads, exactly those between a size and its acknowledgement hand over the next byte
      of a published payload. */
  lemma AcceptedByteIsExact(s: System, i: nat)
    requires Inv(s) && AllLateOk(s) && 1 <= i < |s.vms|
    requires Critical(GetByte, s.shared, s.vms[i]).outcome.Done?
    ensures Continues(s, i, Critical(GetByte, s.shared, s.vms[i]).outcome.value) <==> InFlight(s.vms[i])
  {
    var v, r, p := s.vms[i], s.readerLogs[i], s.writerLog.published;
    assert ReaderOk(s.shared, v, r, p) && LateOk(v, r);
  }

  /** Among accepted acknowledgements, exactly the disciplined ones keep the invariant. */
  lemma AcceptedAckIsExact(s: System, i: nat, reported: Word)
    requires Inv(s) && 1 <= i < |s.vms| && Dispatched(s.vms[i], EndRead(reported))
    requires Critical(EndRead(reported), s.shared, s.vms[i]).outcome.Done?
    ensures Inv(Run(s, i, EndRead(reported))) <==> s.readerLogs[i].begun
  {
    assert ReaderOk(s.shared, s.vms[i], s.readerLogs[i], s.writerLog.published);
    if s.readerLogs[i].begun {
      ReaderStep(s, i, EndRead(reported));
    }
  }

  /** The discipline is exactly what the guards leave open: an accepted acknowledgement keeps the invariant iff
      the reader has asked for a size before; an accepted byte is the next of a published payload iff the
      reader is between a size and its acknowledgement, which before the acknowledgement is to say that it
      has asked for a size. */
  lemma DisciplineIsExact(s: System, i: nat, op: Op)
    requires Inv(s) && AllLateOk(s) && 1 <= i < |s.vms| && Dispatched(s.vms[i], op)
    requires op.GetByte? || op.EndRead?
    requires Critical(op, s.shared, s.vms[i]).outcome.Done?
    ensures op.EndRead? ==> (Inv(Run(s, i, op)) <==> s.readerLogs[i].begun)
    ensures op.GetByte? ==>
              (Continues(s, i, Critical(op, s.shared, s.vms[i]).outcome.value) <==> InFlight(s.vms[i]))
    ensures !s.vms[i].readCompleted ==> (InFlight(s.vms[i]) <==> s.readerLogs[i].begun)
  {
    assert ReaderOk(s.shared, s.vms[i], s.readerLogs[i], s.writerLog.published);
    if op.EndRead? {
      AcceptedAckIsExact(s, i, op.reported);
    } else {
      AcceptedByteIsExact(s, i);
    }
  }

  /** In every disciplined run. */
  lemma BytesAreExact(states: seq<System>, actions: seq<Action>, i: nat, k: nat)
    requires IsDisciplinedRun(states, actions) && k < |actions| && StepAt(states, actions, k)
    requires i >= 1 && Completes(states[k], actions[k], i, GetByte)
    ensures i < |states[k].vms|
    ensures Continues(states[k], i, Critical(GetByte, states[k].shared, states[k].vms[i]).outcome.value)
            <==> InFlight(states[k].vms[i])
  {
    LateRun(states, actions, k);
    AcceptedByteIsExact(states[k], i);
  }

  /** A disciplined run with such a late byte: after a round of [7] the writer announces two bytes, and the
      reader, which has acknowledged, is handed a byte that belongs to no published payload. */
  lemma LateByte(s: System) returns (states: seq<System>, actions: seq<Action>)
    requires Init(s) && |s.vms| == 2
    ensures IsDisciplinedRun(states, actions) && states[0] == s
    ensures var end := states[|states| - 1];
            && Shape(end) && |end.vms| == 2 && end.writerLog.published == [[7]]
            && end.readerLogs[1].acked == [[7]] && end.readerLogs[1].bytes == [7, 0]
  {
    states, actions := FirstRound(s);
    states, actions := ExtendDisciplined(states, actions, Enter(0, EndWrite));
    var s8 := states[|states| - 1];
    assert !s8.shared.roundInProgress && s8.threads == [Awake, Awake];
    states, actions := ExtendDisciplined(states, actions, Enter(0, BeginWrite(2)));
    var s9 := states[|states| - 1];
    assert s9.shared.size == 2 && s9.shared.data[1] == 0 && s9.vms[1].readOffset == 1;
    states, actions := ExtendDisciplined(states, actions, Enter(1, GetByte));
  }

  /** A run of one disciplined action more. */
  lemma ExtendDisciplined(states: seq<System>, actions: seq<Action>, a: Action)
    returns (states': seq<System>, actions': seq<Action>)
    requires IsDisciplinedRun(states, actions)
    requires var s := states[|states| - 1]; Shape(s) && Enabled(s, a) && Disciplined(s, a)
    ensures IsDisciplinedRun(states', actions') && states'[0] == states[0]
    ensures states'[|states'| - 1] == Next(states[|states| - 1], a)
  {
    states', actions' := states + [Next(states[|states| - 1], a)], actions + [a];
    forall k | 0 <= k < |actions'|
      ensures StepAt(states', actions', k) && DisciplinedAt(states', actions', k)
    {
      assert k < |actions| ==> StepAt(states, actions, k) && DisciplinedAt(states, actions, k);
    }
  }

  /** One round in which the byte 7 is sent, read and acknowledged. */
  lemma FirstRound(s: System) returns (states: seq<System>, actions: seq<Action>)
    requires Init(s) && |s.vms| == 2
    ensures IsDisciplinedRun(states, actions) && states[0] == s
    ensures var t := states[|states| - 1];
            && Shape(t) && |t.vms| == 2 && t.threads == [Awake, Awake]
            && t.shared == InitShared(1).(data := Zeros(BUFFER_SIZE)[0 := 7], size := 1, expectedBytes := 1,
                                          receivedBytes := 1, completedReaders := 1, generation := 1,
                                          dataReady := true, roundInProgress := true)
            && t.vms[0] == InitVm(Writer).(modeDelivered := true, writeGeneration := 1)
            && t.vms[1] == InitVm(Reader).(modeDelivered := true, readOffset := 1, lastReadGeneration := 1,
                                           activeReadGeneration := 1, readCompleted := true, transferCompleted := true)
            && t.writerLog == WriterLog(1, [7], [[7]])
            && t.readerLogs[1] == ReaderLog(true, [7], [[7]])
  {
    states, actions := Sent7(s);
    states, actions := ExtendDisciplined(states, actions, Enter(1, GetMode));
    states, actions := ExtendDisciplined(states, actions, Enter(1, BeginRead));
    var s5 := states[|states| - 1];
    assert s5.readerLogs[1] == ReaderLog(true, [], []) && s5.vms[1].activeReadGeneration == 1;
    states, actions := ExtendDisciplined(states, actions, Enter(1, GetByte));
    var s6 := states[|states| - 1];
    assert s6.readerLogs[1] == ReaderLog(true, [7], []) && s6.vms[1].readOffset == 1;
    states, actions := ExtendDisciplined(states, actions, Enter(1, EndRead(1)));
  }

  lemma Sent7(s: System) returns (states: seq<System>, actions: seq<Action>)
    requires Init(s) && |s.vms| == 2
    ensures IsDisciplinedRun(states, actions) && states[0] == s
    ensures var t := states[|states| - 1];
            && Shape(t) && |t.vms| == 2 && t.threads == [Awake, Awake]
            && t.shared == InitShared(1).(data := Zeros(BUFFER_SIZE)[0 := 7], size := 1, expectedBytes := 1,
                                          receivedBytes := 1, generation := 1, dataReady := true,
                                          roundInProgress := true)
            && t.vms[0] == InitVm(Writer).(modeDelivered := true, writeGeneration := 1)
            && t.vms[1] == InitVm(Reader)
            && t.writerLog == WriterLog(1, [7], [[7]])
            && t.readerLogs[1] == ReaderLog(false, [], [])
  {
    states, actions := AnnouncedOne(s);
    states, actions := ExtendDisciplined(states, actions, Enter(0, PutByte(7)));
    assert [] + [7] == [7] && Truncate([7]) == [7];
  }

  lemma AnnouncedOne(s: System) returns (states: seq<System>, actions: seq<Action>)
    requires Init(s) && |s.vms| == 2
    ensures IsDisciplinedRun(states, actions) && states[0] == s
    ensures var t := states[|states| - 1];
            && Shape(t) && |t.vms| == 2 && t.threads == [Awake, Awake]
            && t.shared == InitShared(1).(size := 1, expectedBytes := 1, roundInProgress := true)
            && t.vms[0] == InitVm(Writer).(modeDelivered := true) && t.vms[1] == InitVm(Reader)
            && t.writerLog == WriterLog(1, [], []) && t.readerLogs[1] == ReaderLog(false, [], [])
  {
    states, actions := ExtendDisciplined([s], [], Enter(0, GetMode));
    states, actions := ExtendDisciplined(states, actions, Enter(0, BeginWrite(1)));
  }
}
