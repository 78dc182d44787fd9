/** The shared buffer as the host keeps it: one object with a fixed array, updated in place by the
    operation handlers. Each handler is the body of one critical section; where the host waits on
    the condition variable, a handler returns Blocked if the wait predicate is false. Every handler
    is shown to have exactly the effect the protocol functions describe, so all that is proved
    about those holds of these bodies. */
module SharedBuffer {
  import opened Options
  import opened Protocol

  class SharedBufferVmState {
    var mode: Mode
    var readOffset: nat
    var lastReadGeneration: nat
    var activeReadGeneration: nat
    var writeGeneration: nat
    var modeDelivered: bool
    var readCompleted: bool
    var transferCompleted: bool

    constructor (mode: Mode)
      ensures View() == InitVm(mode)
    {
      this.mode := mode;
      readOffset, lastReadGeneration, activeReadGeneration, writeGeneration := 0, 0, 0, 0;
      modeDelivered, readCompleted, transferCompleted := false, false, false;
    }

    ghost function View(): Vm
      reads this
    {
      Vm(mode, readOffset, lastReadGeneration, activeReadGeneration, writeGeneration,
         modeDelivered, readCompleted, transferCompleted)
    }
  }

  class SharedBufferState {
    const data: array<Byte>
    var size: nat
    var expectedBytes: nat
    var receivedBytes: nat
    const readerCount: nat
    var completedReaders: nat
    var generation: nat
    var dataReady: bool
    var roundInProgress: bool
    var stopped: bool

    ghost predicate Valid()
      reads this
    {
      data.Length == BUFFER_SIZE && size <= BUFFER_SIZE
    }

    ghost function View(): Shared
      reads this, data
      requires Valid()
    {
      Shared(data[..], size, expectedBytes, receivedBytes, readerCount, completedReaders, generation,
             dataReady, roundInProgress, stopped)
    }

    constructor (readerCount: nat)
      ensures Valid() && fresh(data) && View() == InitShared(readerCount)
    {
      data := new Byte[BUFFER_SIZE](_ => 0);
      this.readerCount := readerCount;
      size, expectedBytes, receivedBytes, completedReaders, generation := 0, 0, 0, 0, 0;
      dataReady, roundInProgress, stopped := false, false, false;
      new;
      assert data[..] == Zeros(BUFFER_SIZE);
    }

    method FinishWriterData(vm: SharedBufferVmState) returns (notified: bool)
      requires Valid()
      modifies this, vm
      ensures Valid()
      ensures View() == old(View()).(dataReady := true, generation := old(generation) + 1)
      ensures vm.View() == old(vm.View()).(writeGeneration := old(generation) + 1)
      ensures notified
    {
      dataReady := true;
      generation := generation + 1;
      vm.writeGeneration := generation;
      notified := true;
    }

    method BeginWriterRound(vm: SharedBufferVmState, requestedBytes: Word)
      returns (outcome: Outcome, notified: bool)
      requires Valid()
      modifies this, vm
      ensures Valid()
      ensures Effect(outcome, View(), vm.View(), notified) ==
              Critical(BeginWrite(requestedBytes), old(View()), old(vm.View()))
    {
      if !(stopped || !roundInProgress) {
        return Blocked, false;
      }
      if stopped {
        return Rejected, false;
      }
      expectedBytes := requestedBytes;
      receivedBytes := 0;
      size := Min(requestedBytes, BUFFER_SIZE);
      completedReaders := 0;
      dataReady := false;
      roundInProgress := true;
      vm.writeGeneration := 0;
      notified := false;
      if requestedBytes == 0 {
        notified := FinishWriterData(vm);
      }
      outcome := Done(0);
    }

    method WriteSharedByte(vm: SharedBufferVmState, value: Byte)
      returns (outcome: Outcome, notified: bool)
      requires Valid()
      modifies this, data, vm
      ensures Valid()
      ensures Effect(outcome, View(), vm.View(), notified) ==
              Critical(PutByte(value), old(View()), old(vm.View()))
    {
      if stopped || !roundInProgress || dataReady || receivedBytes >= expectedBytes {
        return Rejected, false;
      }
      if receivedBytes < BUFFER_SIZE {
        data[receivedBytes] := value;
      }
      receivedBytes := receivedBytes + 1;
      notified := false;
      if receivedBytes == expectedBytes {
        notified := FinishWriterData(vm);
      }
      outcome := Done(0);
    }

    method FinishWriterRound(vm: SharedBufferVmState) returns (outcome: Outcome, notified: bool)
      requires Valid()
      modifies this, vm
      ensures Valid()
      ensures Effect(outcome, View(), vm.View(), notified) ==
              Critical(EndWrite, old(View()), old(vm.View()))
    {
      var awaited := vm.writeGeneration;
      if awaited == 0 {
        return Rejected, false;
      }
      if !(stopped || (dataReady && generation == awaited && completedReaders == readerCount)) {
        return Blocked, false;
      }
      if stopped {
        return Rejected, false;
      }
      outcome := Done(size);
      roundInProgress := false;
      vm.writeGeneration := 0;
      vm.transferCompleted := true;
      notified := true;
    }

    method BeginReaderRound(vm: SharedBufferVmState) returns (outcome: Outcome, notified: bool)
      requires Valid()
      modifies vm
      ensures Valid()
      ensures Effect(outcome, View(), vm.View(), notified) ==
              Critical(BeginRead, old(View()), old(vm.View()))
    {
      if vm.activeReadGeneration > vm.lastReadGeneration && !vm.readCompleted {
        return Rejected, false;
      }
      if !(stopped || (dataReady && generation > vm.lastReadGeneration)) {
        return Blocked, false;
      }
      if stopped {
        return Rejected, false;
      }
      vm.readOffset := 0;
      vm.activeReadGeneration := generation;
      vm.readCompleted := false;
      outcome, notified := Done(size), false;
    }

    method ReadSharedByte(vm: SharedBufferVmState) returns (outcome: Outcome, notified: bool)
      requires Valid()
      modifies vm
      ensures Valid()
      ensures Effect(outcome, View(), vm.View(), notified) ==
              Critical(GetByte, old(View()), old(vm.View()))
    {
      if stopped || vm.activeReadGeneration != generation || vm.readOffset >= size {
        return Rejected, false;
      }
      outcome, notified := Done(data[vm.readOffset]), false;
      vm.readOffset := vm.readOffset + 1;
    }

    method FinishReaderRound(vm: SharedBufferVmState, reportedBytes: Word)
      returns (outcome: Outcome, notified: bool)
      requires Valid()
      modifies this, vm
      ensures Valid()
      ensures Effect(outcome, View(), vm.View(), notified) ==
              Critical(EndRead(reportedBytes), old(View()), old(vm.View()))
    {
      if stopped || vm.readCompleted || vm.activeReadGeneration != generation ||
         vm.readOffset != size || reportedBytes != size || completedReaders >= readerCount {
        return Rejected, false;
      }
      vm.readCompleted := true;
      vm.lastReadGeneration := vm.activeReadGeneration;
      vm.transferCompleted := true;
      completedReaders := completedReaders + 1;
      outcome, notified := Done(0), true;
    }

    /** The dispatch on port, direction and size. */
    method HandleSharedBufferIo(vm: SharedBufferVmState, io: Io) returns (outcome: Outcome, notified: bool)
      requires Valid()
      modifies this, data, vm
      ensures Valid()
      ensures var op := Decode(old(vm.View()), io);
              Effect(outcome, View(), vm.View(), notified) ==
              if op.None? then Effect(Rejected, old(View()), old(vm.View()), false)
              else Critical(op.value, old(View()), old(vm.View()))
    {
      if (io.port != SHARED_BUFFER_PORT && io.port != SHARED_BUFFER_STATUS_PORT) ||
         io.count != 1 || (io.size != 1 && io.size != 4) {
        return Rejected, false;
      }
      if !vm.modeDelivered {
        if io.port != SHARED_BUFFER_PORT || io.direction != In || io.size != 1 {
          return Rejected, false;
        }
        vm.modeDelivered := true;
        return Done(if vm.mode == Writer then 1 else 0), false;
      }
      if io.port == SHARED_BUFFER_PORT && vm.mode == Writer {
        if io.direction == Out && io.size == 4 {
          outcome, notified := BeginWriterRound(vm, io.payload);
          return;
        }
        if io.direction == Out && io.size == 1 {
          outcome, notified := WriteSharedByte(vm, io.payload % 256);
          return;
        }
        return Rejected, false;
      }
      if io.port == SHARED_BUFFER_PORT && vm.mode == Reader {
        if io.direction == In && io.size == 4 {
          outcome, notified := BeginReaderRound(vm);
          return;
        }
        if io.direction == In && io.size == 1 {
          outcome, notified := ReadSharedByte(vm);
          return;
        }
        return Rejected, false;
      }
      if io.port == SHARED_BUFFER_STATUS_PORT && vm.mode == Writer && io.direction == In && io.size == 4 {
        outcome, notified := FinishWriterRound(vm);
        return;
      }
      if io.port == SHARED_BUFFER_STATUS_PORT && vm.mode == Reader && io.direction == Out && io.size == 4 {
        outcome, notified := FinishReaderRound(vm, io.payload);
        return;
      }
      return Rejected, false;
    }

    method AbortSharedBuffer() returns (notified: bool)
      requires Valid()
      modifies this
      ensures Valid() && View() == old(View()).(stopped := true) && notified
    {
      stopped := true;
      notified := true;
    }
  }
}
