/** The shared-buffer protocol of the hypervisor: the state guarded by the buffer mutex,
    the per-VM state, and every critical section as a function from the state found when the
    mutex is taken to the state left when it is released. */
module Protocol {
  import opened Options

  const BUFFER_SIZE: nat := 256
  const SHARED_BUFFER_PORT: nat := 0x510
  const SHARED_BUFFER_STATUS_PORT: nat := 0x520

  type Byte = b: int | 0 <= b < 256
  type Word = w: int | 0 <= w < 0x1_0000_0000
  type Buffer = d: seq<Byte> | |d| == BUFFER_SIZE witness seq(BUFFER_SIZE, i => 0)
  type BufferLength = n: nat | n <= BUFFER_SIZE

  /** The fields of SharedBufferState that the mutex guards. */
  datatype Shared = Shared(
    data: Buffer,
    size: BufferLength,
    expectedBytes: nat,
    receivedBytes: nat,
    readerCount: nat,
    completedReaders: nat,
    generation: nat,
    dataReady: bool,
    roundInProgress: bool,
    stopped: bool)

  datatype Mode = Writer | Reader

  /** SharedBufferVmState: touched by the thread of its own VM only. */
  datatype Vm = Vm(
    mode: Mode,
    readOffset: nat,
    lastReadGeneration: nat,
    activeReadGeneration: nat,
    writeGeneration: nat,
    modeDelivered: bool,
    readCompleted: bool,
    transferCompleted: bool)

  function Zeros(n: nat): (z: seq<Byte>)
    ensures |z| == n && forall k :: 0 <= k < n ==> z[k] == 0
  {
    if n == 0 then [] else Zeros(n - 1) + [0]
  }

  function InitShared(readerCount: nat): Shared {
    Shared(Zeros(BUFFER_SIZE), 0, 0, 0, readerCount, 0, 0, false, false, false)
  }

  function InitVm(mode: Mode): Vm {
    Vm(mode, 0, 0, 0, 0, false, false, false)
  }

  /** A guest operation on the two buffer ports, after decoding. */
  datatype Op =
    | GetMode
    | BeginWrite(count: Word)
    | PutByte(value: Byte)
    | EndWrite
    | BeginRead
    | GetByte
    | EndRead(reported: Word)

  /** What the critical section did: it went to sleep on the condition variable, it refused
      the operation (the handler returns false), or it finished and handed a value to the guest. */
  datatype Outcome = Blocked | Rejected | Done(value: nat)

  /** `notify` records whether the critical section called notify_all. */
  datatype Effect = Effect(outcome: Outcome, shared: Shared, vm: Vm, notify: bool)

  function Min(a: nat, b: nat): nat {
    if a < b then a else b
  }

  function DeliverMode(s: Shared, v: Vm): Effect {
    Effect(Done(if v.mode == Writer then 1 else 0), s, v.(modeDelivered := true), false)
  }

  function FinishWriterData(s: Shared, v: Vm): Effect {
    var s' := s.(dataReady := true, generation := s.generation + 1);
    Effect(Done(0), s', v.(writeGeneration := s'.generation), true)
  }

  function BeginWriterRound(s: Shared, v: Vm, count: Word): Effect {
    if s.stopped then Effect(Rejected, s, v, false)
    else if s.roundInProgress then Effect(Blocked, s, v, false)
    else
      var s' := s.(expectedBytes := count, receivedBytes := 0, size := Min(count, BUFFER_SIZE),
                   completedReaders := 0, dataReady := false, roundInProgress := true);
      var v' := v.(writeGeneration := 0);
      if count == 0 then FinishWriterData(s', v') else Effect(Done(0), s', v', false)
  }

  function WriteSharedByte(s: Shared, v: Vm, value: Byte): Effect {
    if s.stopped || !s.roundInProgress || s.dataReady || s.receivedBytes >= s.expectedBytes then
      Effect(Rejected, s, v, false)
    else
      var data' := if s.receivedBytes < BUFFER_SIZE then s.data[s.receivedBytes := value] else s.data;
      var s' := s.(data := data', receivedBytes := s.receivedBytes + 1);
      if s'.receivedBytes == s'.expectedBytes then FinishWriterData(s', v) else Effect(Done(0), s', v, false)
  }

  function FinishWriterRound(s: Shared, v: Vm): Effect {
    if v.writeGeneration == 0 || s.stopped then Effect(Rejected, s, v, false)
    else if s.dataReady && s.generation == v.writeGeneration && s.completedReaders == s.readerCount then
      Effect(Done(s.size), s.(roundInProgress := false), v.(writeGeneration := 0, transferCompleted := true), true)
    else Effect(Blocked, s, v, false)
  }

  function BeginReaderRound(s: Shared, v: Vm): Effect {
    if v.activeReadGeneration > v.lastReadGeneration && !v.readCompleted then Effect(Rejected, s, v, false)
    else if s.stopped then Effect(Rejected, s, v, false)
    else if s.dataReady && s.generation > v.lastReadGeneration then
      Effect(Done(s.size), s,
             v.(readOffset := 0, activeReadGeneration := s.generation, readCompleted := false), false)
    else Effect(Blocked, s, v, false)
  }

  function ReadSharedByte(s: Shared, v: Vm): Effect {
    if s.stopped || v.activeReadGeneration != s.generation || v.readOffset >= s.size then
      Effect(Rejected, s, v, false)
    else
      Effect(Done(s.data[v.readOffset]), s, v.(readOffset := v.readOffset + 1), false)
  }

  function FinishReaderRound(s: Shared, v: Vm, reported: Word): Effect {
    if s.stopped || v.readCompleted || v.activeReadGeneration != s.generation ||
       v.readOffset != s.size || reported != s.size || s.completedReaders >= s.readerCount then
      Effect(Rejected, s, v, false)
    else
      Effect(Done(0), s.(completedReaders := s.completedReaders + 1),
             v.(readCompleted := true, lastReadGeneration := v.activeReadGeneration, transferCompleted := true),
             true)
  }

  /** One critical section: from taking the mutex (first entry, or return from the wait) to
      releasing it. The tests made before a wait read only fields of the VM's own thread, which
      nobody changes while it sleeps, so a wake-up may repeat them. */
  function Critical(op: Op, s: Shared, v: Vm): Effect {
    match op
    case GetMode => DeliverMode(s, v)
    case BeginWrite(count) => BeginWriterRound(s, v, count)
    case PutByte(value) => WriteSharedByte(s, v, value)
    case EndWrite => FinishWriterRound(s, v)
    case BeginRead => BeginReaderRound(s, v)
    case GetByte => ReadSharedByte(s, v)
    case EndRead(reported) => FinishReaderRound(s, v, reported)
  }

  // ----- the port interface

  datatype Direction = In | Out

  /** A port access of the guest; `payload` is what an OUT carries. */
  datatype Io = Io(port: nat, direction: Direction, size: nat, count: nat, payload: Word)

  /** The dispatch of handleSharedBufferIo: None where it returns false without entering a
      critical section. */
  function Decode(v: Vm, io: Io): Option<Op> {
    if (io.port != SHARED_BUFFER_PORT && io.port != SHARED_BUFFER_STATUS_PORT) ||
       io.count != 1 || (io.size != 1 && io.size != 4) then None
    else if !v.modeDelivered then
      if io.port == SHARED_BUFFER_PORT && io.direction == In && io.size == 1 then Some(GetMode) else None
    else if io.port == SHARED_BUFFER_PORT && v.mode == Writer then
      if io.direction == Out && io.size == 4 then Some(BeginWrite(io.payload))
      else if io.direction == Out && io.size == 1 then Some(PutByte(io.payload % 256))
      else None
    else if io.port == SHARED_BUFFER_PORT then
      if io.direction == In && io.size == 4 then Some(BeginRead)
      else if io.direction == In && io.size == 1 then Some(GetByte)
      else None
    else if v.mode == Writer && io.direction == In && io.size == 4 then Some(EndWrite)
    else if v.mode == Reader && io.direction == Out && io.size == 4 then Some(EndRead(io.payload))
    else None
  }

  /** The operations a VM can get past the dispatch. */
  predicate Dispatched(v: Vm, op: Op) {
    match op
    case GetMode => !v.modeDelivered
    case BeginWrite(_) => v.modeDelivered && v.mode == Writer
    case PutByte(_) => v.modeDelivered && v.mode == Writer
    case EndWrite => v.modeDelivered && v.mode == Writer
    case BeginRead => v.modeDelivered && v.mode == Reader
    case GetByte => v.modeDelivered && v.mode == Reader
    case EndRead(_) => v.modeDelivered && v.mode == Reader
  }

  /** The port access by which guest code asks for an operation. */
  function Encode(op: Op): Io {
    match op
    case GetMode => Io(SHARED_BUFFER_PORT, In, 1, 1, 0)
    case BeginWrite(count) => Io(SHARED_BUFFER_PORT, Out, 4, 1, count)
    case PutByte(value) => Io(SHARED_BUFFER_PORT, Out, 1, 1, value)
    case EndWrite => Io(SHARED_BUFFER_STATUS_PORT, In, 4, 1, 0)
    case BeginRead => Io(SHARED_BUFFER_PORT, In, 4, 1, 0)
    case GetByte => Io(SHARED_BUFFER_PORT, In, 1, 1, 0)
    case EndRead(reported) => Io(SHARED_BUFFER_STATUS_PORT, Out, 4, 1, reported)
  }

  /** Dispatch is exact: an operation reaches its critical section through its own port access
      iff the VM's mode state admits it, and no port access reaches any other operation. In
      particular the one-byte IN on port 0x510, shared by GetMode and GetByte, is resolved by
      modeDelivered alone. */
  lemma DecodeExact(v: Vm, op: Op)
    ensures Decode(v, Encode(op)) == Some(op) <==> Dispatched(v, op)
    ensures forall io: Io :: Decode(v, io).Some? ==> Dispatched(v, Decode(v, io).value)
  {
    forall io: Io | Decode(v, io).Some?
      ensures Dispatched(v, Decode(v, io).value)
    {
    }
  }

  /** The port table: by which access of which VM each operation is reached. */
  lemma PortTable(v: Vm, io: Io)
    ensures Decode(v, io) == Some(GetMode) <==>
              !v.modeDelivered && io.port == 0x510 && io.direction == In && io.size == 1 && io.count == 1
    ensures forall n :: Decode(v, io) == Some(BeginWrite(n)) <==>
              v.modeDelivered && v.mode == Writer && io.port == 0x510 && io.direction == Out && io.size == 4 &&
              io.count == 1 && io.payload == n
    ensures forall b :: Decode(v, io) == Some(PutByte(b)) <==>
              v.modeDelivered && v.mode == Writer && io.port == 0x510 && io.direction == Out && io.size == 1 &&
              io.count == 1 && io.payload % 0x100 == b
    ensures Decode(v, io) == Some(EndWrite) <==>
              v.modeDelivered && v.mode == Writer && io.port == 0x520 && io.direction == In && io.size == 4 &&
              io.count == 1
    ensures Decode(v, io) == Some(BeginRead) <==>
              v.modeDelivered && v.mode == Reader && io.port == 0x510 && io.direction == In && io.size == 4 &&
              io.count == 1
    ensures Decode(v, io) == Some(GetByte) <==>
              v.modeDelivered && v.mode == Reader && io.port == 0x510 && io.direction == In && io.size == 1 &&
              io.count == 1
    ensures forall n :: Decode(v, io) == Some(EndRead(n)) <==>
              v.modeDelivered && v.mode == Reader && io.port == 0x520 && io.direction == Out && io.size == 4 &&
              io.count == 1 && io.payload == n
  {
  }
}
