/** The interrupt handler of the default guest as it is written: loops over a byte buffer, port accesses
    and file requests. It makes exactly the accesses of the programs in module Rounds, and its file
    requests do to the VM's files what module GuestPrograms says. */
module InterruptHandler {
  import opened Options
  import opened Protocol
  import opened Broadcast
  import opened Rounds
  import opened PrivateFiles
  import opened FileIo
  import opened GuestPrograms
  import opened Hypervisor

  /** What the guest finds in its register after an access that the host has answered with these 32 bits. */
  function Answered(io: Io, raw: Word): nat {
    if io.direction == Out then 0
    else if io.size == 1 then raw % 0x100
    else raw
  }

  /** A port access, and the 32 bits the host answers it with. */
  datatype Access = Access(io: Io, raw: Word)

  /** The two buffer ports as the guest sees them: its accesses so far. The host's answers are arbitrary. */
  class Ports {
    var trace: seq<Access>

    constructor ()
      ensures trace == []
    {
      trace := [];
    }

    method Use(io: Io) returns (value: nat)
      modifies this
      ensures Did(old(trace), trace, [io])
      ensures value == Answered(io, trace[|old(trace)|].raw)
    {
      var raw: Word := *;
      trace := trace + [Access(io, raw)];
      value := Answered(io, raw);
    }
  }

  /** Exactly these accesses have been added. */
  ghost predicate Did(before: seq<Access>, after: seq<Access>, ios: seq<Io>) {
    && before <= after && |after| == |before| + |ios|
    && forall k :: 0 <= k < |ios| ==> after[|before| + k].io == ios[k]
  }

  // ----- the programs these accesses follow

  /** How far a program has come, and what its VM has observed. */
  datatype Position = Position(program: Program, log: ReaderLog)

  /** One operation further, with this value. */
  ghost function Onward(at: Position, value: nat): Position
    requires NextOp(at.program).Some?
  {
    Position(Advance(at.program, value), ObserveReader(at.log, NextOp(at.program).value, Done(value)))
  }

  /** Where the accesses from number `from` on lead, if they are those of the program. */
  ghost function Reached(start: Position, trace: seq<Access>, from: nat): Option<Position> {
    if |trace| <= from then Some(start)
    else
      var k := |trace| - 1;
      match Reached(start, trace[..k], from)
      case None => None
      case Some(at) =>
        if NextOp(at.program).None? || trace[k].io != Encode(NextOp(at.program).value) then None
        else Some(Onward(at, Answered(trace[k].io, trace[k].raw)))
  }

  /** The program's next access. */
  method Make(port: Ports, io: Io, ghost start: Position, ghost from: nat, ghost at: Position) returns (value: nat)
    requires from <= |port.trace| && Reached(start, port.trace, from) == Some(at)
    requires NextOp(at.program).Some? && io == Encode(NextOp(at.program).value)
    modifies port
    ensures Did(old(port.trace), port.trace, [io])
    ensures value == Answered(io, port.trace[|old(port.trace)|].raw)
    ensures Reached(start, port.trace, from) == Some(Onward(at, value))
  {
    ghost var before := port.trace;
    value := port.Use(io);
    assert port.trace[..|before|] == before;
    assert port.trace[|before|].io == [io][0];
  }

  // ----- the writer

  /** Where a writer is that has sent `sent` bytes. */
  ghost function SendingAt(start: Position, sent: nat): Position
    requires start.program.WriterProgram?
  {
    start.(program := start.program.(wphase := Sending(sent)))
  }

  /** The loop of write_shared_buffer. */
  method SendBytes(port: Ports, mem: array<Byte>, buffer: nat, count: nat, ghost start: Position, ghost from: nat)
    requires buffer + count <= mem.Length && from <= |port.trace|
    requires start.program.WriterProgram? && start.program.todo != []
    requires start.program.todo[0] == mem[buffer..buffer + count]
    requires Reached(start, port.trace, from) == Some(SendingAt(start, 0))
    modifies port
    ensures old(port.trace) <= port.trace
    ensures Reached(start, port.trace, from) == Some(SendingAt(start, count))
  {
    ghost var message := start.program.todo[0];
    for i := 0 to count
      invariant old(port.trace) <= port.trace
      invariant Reached(start, port.trace, from) == Some(SendingAt(start, i))
    {
      assert message[i] == mem[buffer + i];
      var _ := Make(port, Io(SHARED_BUFFER_PORT, Out, 1, 1, mem[buffer + i]), start, from, SendingAt(start, i));
    }
  }

  /** write_shared_buffer after its file requests: announces and sends the message, asks for the final
      count. */
  method SendMessage(port: Ports, mem: array<Byte>, buffer: nat, count: nat, ghost start: Position)
    returns (written: nat)
    requires buffer + count <= mem.Length && count <= BUFFER_SIZE + 1
    requires start.program.WriterProgram? && start.program.wphase.Announce?
    requires start.program.todo == [mem[buffer..buffer + count]]
    modifies port
    ensures old(port.trace) <= port.trace && |port.trace| > |old(port.trace)|
    ensures Reached(start, port.trace, |old(port.trace)|) ==
            Some(start.(program := WriterProgram(start.program.sent + start.program.todo, [], Announce)))
    ensures written == port.trace[|port.trace| - 1].raw
  {
    ghost var from := |port.trace|;
    ghost var message := start.program.todo[0];
    var _ := Make(port, Io(SHARED_BUFFER_PORT, Out, 4, 1, count), start, from, start);
    SendBytes(port, mem, buffer, count, start, from);
    written := AskForCount(port, start, from);
  }

  /** The last access of write_shared_buffer. */
  method AskForCount(port: Ports, ghost start: Position, ghost from: nat) returns (written: nat)
    requires from <= |port.trace| && start.program.WriterProgram? && |start.program.todo| == 1
    requires Reached(start, port.trace, from) == Some(SendingAt(start, |start.program.todo[0]|))
    modifies port
    ensures Did(old(port.trace), port.trace, [Io(0x520, In, 4, 1, 0)])
    ensures Reached(start, port.trace, from) ==
            Some(start.(program := WriterProgram(start.program.sent + start.program.todo, [], Announce)))
    ensures written == port.trace[|port.trace| - 1].raw
  {
    var message := start.program.todo[0];
    assert start.program.todo == [message] && start.program.todo[1..] == [];
    written := Make(port, Io(SHARED_BUFFER_STATUS_PORT, In, 4, 1, 0), start, from, SendingAt(start, |message|));
  }

  lemma LoadUnopened(fs: Private, run: FileRun, o: Reply, f0: Fault)
    requires run.faults == [f0]
    requires o == Step(fs, run.mem, Request(OPERATION_OPEN, 0, run.name, 0, 0, 1), f0) && o.result < 0
    ensures LoadGuestFile(fs, run) == LoadResult(o.fs, [], false)
  {
  }

  lemma LoadOpened(fs: Private, run: FileRun, o: Reply, r: Reply, c: Reply, f0: Fault, f1: Fault, f2: Fault)
    requires run.faults == [f0, f1, f2]
    requires o == Step(fs, run.mem, Request(OPERATION_OPEN, 0, run.name, 0, 0, 1), f0) && o.result >= 0
    requires r == Step(o.fs, o.mem, Request(OPERATION_READ, o.result, run.buffer, BUFFER_SIZE + 1, 0, 0), f1)
    requires c == Step(r.fs, r.mem, Request(OPERATION_CLOSE, o.result, 0, 0, 0, 0), f2)
    requires run.buffer + r.result <= |r.mem|
    ensures LoadGuestFile(fs, run) == LoadResult(c.fs, Got(r.mem, run.buffer, r.result), r.result >= 0 && c.result == 0)
  {
    assert FaultOf(run, 0) == f0 && FaultOf(run, 1) == f1 && FaultOf(run, 2) == f2;
  }

  /** What a read that returned `result` has left in the buffer. */
  function Got(mem: Bytes, buffer: nat, result: int): Bytes {
    if 0 <= result <= |mem| - buffer then mem[buffer..buffer + result] else []
  }

  lemma ReadAtMost(fs: Private, mem: Bytes, read: Request, fault: Fault)
    requires read.operation == OPERATION_READ && read.count >= 0
    ensures Step(fs, mem, read, fault).result <= read.count
  {
  }

  lemma CloseKeepsMemory(fs: Private, mem: Bytes, close: Request, fault: Fault)
    requires close.operation == OPERATION_CLOSE
    ensures Step(fs, mem, close, fault).mem == mem
  {
  }

  /** One file request of the guest, with what the private system replies to it. */
  method Submit(files: GuestFiles, mem: array<Byte>, req: Request, testFails: bool)
    returns (result: int, ghost reply: Reply, ghost fault: Fault)
    requires files.Valid() && files.SoleUser() && !files.Misled(mem[..], req, testFails)
    modifies files, files.host, mem
    ensures files.Valid() && files.SoleUser()
    ensures reply == Step(old(files.View()), old(mem[..]), req, fault)
    ensures files.View() == reply.fs && mem[..] == reply.mem && result == reply.result
  {
    result, fault := files.ProcessFileRequest(mem, req, testFails);
    reply := Reply(files.View(), mem[..], result);
  }

  /** The read and the close, once the file is open. */
  method ReadAndClose(files: GuestFiles, mem: array<Byte>, fd: int, buffer: nat)
    returns (bytesRead: int, closeResult: int, ghost r: Reply, ghost c: Reply, ghost f1: Fault, ghost f2: Fault)
    requires files.Valid() && files.SoleUser() && buffer + BUFFER_SIZE + 1 <= mem.Length
    modifies files, files.host, mem
    ensures files.Valid() && files.SoleUser()
    ensures r == Step(old(files.View()), old(mem[..]), Request(OPERATION_READ, fd, buffer, BUFFER_SIZE + 1, 0, 0), f1)
    ensures c == Step(r.fs, r.mem, Request(OPERATION_CLOSE, fd, 0, 0, 0, 0), f2)
    ensures files.View() == c.fs && mem[..] == r.mem && bytesRead == r.result && closeResult == c.result
    ensures bytesRead <= BUFFER_SIZE + 1
  {
    ghost var fs, memory := files.View(), mem[..];
    bytesRead, r, f1 := Submit(files, mem, Request(OPERATION_READ, fd, buffer, BUFFER_SIZE + 1, 0, 0), false);
    ReadAtMost(fs, memory, Request(OPERATION_READ, fd, buffer, BUFFER_SIZE + 1, 0, 0), f1);
    closeResult, c, f2 := Submit(files, mem, Request(OPERATION_CLOSE, fd, 0, 0, 0, 0), false);
    CloseKeepsMemory(r.fs, r.mem, Request(OPERATION_CLOSE, fd, 0, 0, 0, 0), f2);
  }

  /** The open, read and close of write_shared_buffer, on the VM's file layer. */
  method LoadMessage(files: GuestFiles, mem: array<Byte>, name: nat, buffer: nat, testFails: bool)
    returns (bytesRead: int, closeResult: int, ghost run: FileRun)
    requires files.Valid() && files.SoleUser() && files.Trusts(testFails)
    requires buffer + BUFFER_SIZE + 1 <= mem.Length
    modifies files, files.host, mem
    ensures files.Valid() && files.SoleUser()
    ensures run.mem == old(mem[..]) && run.name == name && run.buffer == buffer
    ensures bytesRead <= BUFFER_SIZE + 1
    ensures LoadGuestFile(old(files.View()), run) ==
            LoadResult(files.View(), Got(mem[..], buffer, bytesRead), bytesRead >= 0 && closeResult == 0)
  {
    ghost var fs, memory := files.View(), mem[..];
    var fd;
    ghost var o, r, c, f0, f1, f2;
    fd, o, f0 := Submit(files, mem, Request(OPERATION_OPEN, 0, name, 0, 0, 1), testFails);
    if fd < 0 {
      bytesRead, closeResult, run := -1, -1, FileRun(memory, name, buffer, [f0]);
      LoadUnopened(fs, run, o, f0);
    } else {
      bytesRead, closeResult, r, c, f1, f2 := ReadAndClose(files, mem, fd, buffer);
      run := FileRun(memory, name, buffer, [f0, f1, f2]);
      LoadOpened(fs, run, o, r, c, f0, f1, f2);
    }
  }

  /** write_shared_buffer sent what LoadGuestFile loaded, by the accesses of the writer's program, and
      reports what the machine of module Hypervisor makes of the final count. */
  ghost predicate Wrote(before: Private, run: FileRun, after: Private, trace: seq<Access>, from: nat,
                        sent: seq<Message>, log: ReaderLog, ok: bool)
  {
    var load := LoadGuestFile(before, run);
    && load.fs == after
    && |trace| > from
    && Reached(Position(WriterProgram(sent, [load.payload], Announce), log), trace, from) ==
       Some(Position(WriterProgram(sent + [load.payload], [], Announce), log))
    && Returned(ok) == StageAfter(WriterProgram(sent, [load.payload], Sending(|load.payload|)), load.loaded,
                                  trace[|trace| - 1].raw, log.bytes)
  }

  /** Success is reported iff the file requests succeeded and the host's final answer is the number of bytes
      sent, or 256 if there were more. */
  ghost predicate ReportsWriting(before: Private, run: FileRun, trace: seq<Access>, ok: bool) {
    var load := LoadGuestFile(before, run);
    && trace != []
    && (ok <==> load.loaded && trace[|trace| - 1].raw == if |load.payload| <= 256 then |load.payload| else 256)
  }

  lemma WroteSo(before: Private, run: FileRun, after: Private, trace: seq<Access>, from: nat,
                start: Position, loaded: bool, written: nat, ok: bool)
    requires start.program.WriterProgram? && start.program.wphase.Announce? && |start.program.todo| == 1
    requires LoadGuestFile(before, run) == LoadResult(after, start.program.todo[0], loaded)
    requires |trace| > from && written == trace[|trace| - 1].raw
    requires Reached(start, trace, from) ==
             Some(start.(program := WriterProgram(start.program.sent + start.program.todo, [], Announce)))
    requires ok <==> loaded && written == Min(|start.program.todo[0]|, 256)
    ensures Wrote(before, run, after, trace, from, start.program.sent, start.log, ok)
    ensures ReportsWriting(before, run, trace, ok)
  {
    var program := start.program;
    assert program.todo == [program.todo[0]];
    assert start == Position(WriterProgram(program.sent, [program.todo[0]], Announce), start.log);
  }

  /** The rest of write_shared_buffer, after its file requests. */
  method SendAndReport(port: Ports, mem: array<Byte>, buffer: nat, count: nat, loaded: bool, ghost before: Private,
                       ghost run: FileRun, ghost after: Private, ghost sent: seq<Message>, ghost log: ReaderLog)
    returns (ok: bool)
    requires buffer + count <= mem.Length && count <= BUFFER_SIZE + 1
    requires LoadGuestFile(before, run) == LoadResult(after, mem[buffer..buffer + count], loaded)
    modifies port
    ensures old(port.trace) <= port.trace
    ensures Wrote(before, run, after, port.trace, |old(port.trace)|, sent, log, ok)
    ensures ReportsWriting(before, run, port.trace, ok)
  {
    ghost var start := Position(WriterProgram(sent, [mem[buffer..buffer + count]], Announce), log);
    var written := SendMessage(port, mem, buffer, count, start);
    var expected := if count > BUFFER_SIZE then BUFFER_SIZE else count;
    ok := loaded && written == expected;
    WroteSo(before, run, after, port.trace, |old(port.trace)|, start, loaded, written, ok);
  }

  method WriteSharedBuffer(port: Ports, files: GuestFiles, mem: array<Byte>, name: nat, buffer: nat, testFails: bool,
                           ghost sent: seq<Message>, ghost log: ReaderLog)
    returns (ok: bool, ghost run: FileRun)
    requires files.Valid() && files.SoleUser() && files.Trusts(testFails) && buffer + BUFFER_SIZE + 1 <= mem.Length
    modifies port, files, files.host, mem
    ensures files.Valid() && files.SoleUser()
    ensures run.mem == old(mem[..]) && run.name == name && run.buffer == buffer
    ensures old(port.trace) <= port.trace
    ensures Wrote(old(files.View()), run, files.View(), port.trace, |old(port.trace)|, sent, log, ok)
    ensures ReportsWriting(old(files.View()), run, port.trace, ok)
  {
    ghost var before := files.View();
    var bytesRead, closeResult;
    bytesRead, closeResult, run := LoadMessage(files, mem, name, buffer, testFails);
    var count: nat := if bytesRead >= 0 then bytesRead else 0;
    assert Got(mem[..], buffer, bytesRead) == mem[buffer..buffer + count];
    ok := SendAndReport(port, mem, buffer, count, bytesRead >= 0 && closeResult == 0, before, run, files.View(), sent,
                        log);
  }

  // ----- the reader

  /** Where a reader is that has fetched `received` of `count` bytes. */
  ghost function FetchingAt(done: nat, count: nat, received: Bytes, log: ReaderLog): Position {
    Position(ReaderProgram(done, 1, Fetching(count, |received|)), ReaderLog(true, received, log.acked))
  }

  /** One byte of the payload. */
  method FetchByte(port: Ports, count: nat, ghost start: Position, ghost from: nat, ghost done: nat,
                   ghost log: ReaderLog, ghost received: Bytes)
    returns (value: Byte)
    requires |received| < count <= BUFFER_SIZE && from <= |port.trace|
    requires Reached(start, port.trace, from) == Some(FetchingAt(done, count, received, log))
    modifies port
    ensures old(port.trace) <= port.trace
    ensures Reached(start, port.trace, from) == Some(FetchingAt(done, count, received + [value], log))
  {
    value := Make(port, Io(SHARED_BUFFER_PORT, In, 1, 1, 0), start, from, FetchingAt(done, count, received, log));
  }

  /** The first bytes of the buffer are these, and memory outside the buffer is as it was. */
  ghost predicate Filled(mem: Bytes, was: Bytes, buffer: nat, count: nat, received: Bytes) {
    && |mem| == |was| && buffer + |received| <= buffer + count <= |mem|
    && mem[..buffer] == was[..buffer]
    && mem[buffer..buffer + |received|] == received
    && mem[buffer + count..] == was[buffer + count..]
  }

  /** Memory outside the guest's buffer is as it was. */
  ghost predicate OutsideKept(mem: Bytes, was: Bytes, buffer: nat) {
    && |mem| == |was| && buffer + BUFFER_SIZE <= |mem|
    && mem[..buffer] == was[..buffer] && mem[buffer + BUFFER_SIZE..] == was[buffer + BUFFER_SIZE..]
  }

  lemma FilledInside(mem: Bytes, was: Bytes, buffer: nat, count: nat, received: Bytes)
    requires Filled(mem, was, buffer, count, received) && count <= BUFFER_SIZE && buffer + BUFFER_SIZE <= |mem|
    ensures OutsideKept(mem, was, buffer)
  {
    var rest := BUFFER_SIZE - count;
    assert mem[buffer + count..][rest..] == mem[buffer + BUFFER_SIZE..];
    assert was[buffer + count..][rest..] == was[buffer + BUFFER_SIZE..];
  }

  lemma FilledMore(mem: Bytes, was: Bytes, buffer: nat, count: nat, received: Bytes, value: Byte)
    requires Filled(mem, was, buffer, count, received) && |received| < count
    ensures Filled(mem[buffer + |received| := value], was, buffer, count, received + [value])
  {
    var mem' := mem[buffer + |received| := value];
    assert mem'[..buffer] == mem[..buffer];
    assert mem'[buffer..buffer + |received| + 1] == received + [value];
    assert mem'[buffer + count..] == mem[buffer + count..];
  }

  /** The loop of read_shared_buffer. */
  method FetchBytes(port: Ports, mem: array<Byte>, buffer: nat, count: nat,
                    ghost start: Position, ghost from: nat, ghost done: nat, ghost log: ReaderLog)
    returns (ghost received: Bytes)
    requires buffer + count <= mem.Length && count <= BUFFER_SIZE && from <= |port.trace|
    requires Reached(start, port.trace, from) == Some(FetchingAt(done, count, [], log))
    modifies port, mem
    ensures old(port.trace) <= port.trace
    ensures |received| == count && Filled(mem[..], old(mem[..]), buffer, count, received)
    ensures Reached(start, port.trace, from) == Some(FetchingAt(done, count, received, log))
  {
    received := [];
    for i := 0 to count
      invariant old(port.trace) <= port.trace
      invariant |received| == i && Filled(mem[..], old(mem[..]), buffer, count, received)
      invariant Reached(start, port.trace, from) == Some(FetchingAt(done, count, received, log))
    {
      var value := FetchByte(port, count, start, from, done, log, received);
      ghost var before := mem[..];
      FilledMore(before, old(mem[..]), buffer, count, received, value);
      mem[buffer + i] := value;
      assert mem[..] == before[buffer + i := value];
      received := received + [value];
    }
  }

  /** The last access of read_shared_buffer: the count, or zero for a count that does not fit. */
  method Acknowledge(port: Ports, count: nat, ghost start: Position, ghost from: nat, ghost done: nat,
                     ghost log: ReaderLog, ghost received: Bytes)
    requires count < 0x1_0000_0000 && from <= |port.trace| && (count <= BUFFER_SIZE ==> |received| == count)
    requires Reached(start, port.trace, from) == Some(FetchingAt(done, count, received, log))
    modifies port
    ensures Did(old(port.trace), port.trace, [Io(0x520, Out, 4, 1, if count <= 256 then count else 0)])
    ensures Reached(start, port.trace, from) ==
            Some(Position(ReaderProgram(done + 1, 0, Ask), ReaderLog(true, received, log.acked + [received])))
  {
    var _ := Make(port, Io(SHARED_BUFFER_STATUS_PORT, Out, 4, 1, if count <= BUFFER_SIZE then count else 0),
                  start, from, FetchingAt(done, count, received, log));
  }

  /** read_shared_buffer up to its file requests: asks for the size, fetches that many bytes into the
      buffer and acknowledges; a size that does not fit is acknowledged as zero. */
  method ReceiveMessage(port: Ports, mem: array<Byte>, buffer: nat, ghost done: nat, ghost log: ReaderLog)
    returns (count: nat, ghost received: Bytes)
    requires buffer + BUFFER_SIZE <= mem.Length
    modifies port, mem
    ensures old(port.trace) <= port.trace
    ensures |port.trace| > |old(port.trace)| && count == port.trace[|old(port.trace)|].raw
    ensures count > 256 ==>
              Did(old(port.trace), port.trace, [Io(0x510, In, 4, 1, 0), Io(0x520, Out, 4, 1, 0)])
    ensures OutsideKept(mem[..], old(mem[..]), buffer)
    ensures if count <= BUFFER_SIZE then |received| == count && mem[..][buffer..buffer + count] == received
            else received == []
    ensures Reached(Position(ReaderProgram(done, 1, Ask), log), port.trace, |old(port.trace)|) ==
            Some(Position(ReaderProgram(done + 1, 0, Ask), ReaderLog(true, received, log.acked + [received])))
  {
    ghost var from, start := |port.trace|, Position(ReaderProgram(done, 1, Ask), log);
    count := Make(port, Io(SHARED_BUFFER_PORT, In, 4, 1, 0), start, from, start);
    received := [];
    if count <= BUFFER_SIZE {
      received := FetchBytes(port, mem, buffer, count, start, from, done, log);
      FilledInside(mem[..], old(mem[..]), buffer, count, received);
    }
    Acknowledge(port, count, start, from, done, log, received);
  }

  // ----- saving

  lemma SaveUnopened(fs: Private, run: FileRun, count: nat, o: Reply, f0: Fault)
    requires run.faults == [f0]
    requires o == Step(fs, run.mem, Request(OPERATION_OPEN, 0, run.name, 0, 0, 10), f0) && o.result < 0
    ensures SaveReaderFile(fs, run, count) == SaveResult(o.fs, false)
  {
  }

  lemma SaveOpened(fs: Private, run: FileRun, count: nat, o: Reply, s: Reply, w: Reply, c: Reply,
                   f0: Fault, f1: Fault, f2: Fault, f3: Fault)
    requires run.faults == [f0, f1, f2, f3]
    requires o == Step(fs, run.mem, Request(OPERATION_OPEN, 0, run.name, 0, 0, 10), f0) && o.result >= 0
    requires s == Step(o.fs, o.mem, Request(OPERATION_LSEEK, o.result, 0, 0, 0, SEEK_SET), f1)
    requires w == if s.result == 0
                  then Step(s.fs, s.mem, Request(OPERATION_WRITE, o.result, run.buffer, count, 0, 0), f2)
                  else Reply(s.fs, s.mem, -1)
    requires c == Step(w.fs, w.mem, Request(OPERATION_CLOSE, o.result, 0, 0, 0, 0), f3)
    ensures SaveReaderFile(fs, run, count) == SaveResult(c.fs, w.result == count && c.result == 0)
  {
    assert FaultOf(run, 0) == f0 && FaultOf(run, 1) == f1 && FaultOf(run, 2) == f2 && FaultOf(run, 3) == f3;
  }

  /** The seek and the write. */
  method RewindAndWrite(files: GuestFiles, mem: array<Byte>, fd: int, buffer: nat, count: nat)
    returns (bytesWritten: int, ghost s: Reply, ghost w: Reply, ghost f1: Fault, ghost f2: Fault)
    requires files.Valid() && files.SoleUser()
    modifies files, files.host, mem
    ensures files.Valid() && files.SoleUser()
    ensures s == Step(old(files.View()), old(mem[..]), Request(OPERATION_LSEEK, fd, 0, 0, 0, SEEK_SET), f1)
    ensures w == if s.result == 0 then Step(s.fs, s.mem, Request(OPERATION_WRITE, fd, buffer, count, 0, 0), f2)
                 else Reply(s.fs, s.mem, -1)
    ensures files.View() == w.fs && mem[..] == w.mem && bytesWritten == w.result
  {
    var seekResult;
    seekResult, s, f1 := Submit(files, mem, Request(OPERATION_LSEEK, fd, 0, 0, 0, SEEK_SET), false);
    if seekResult == 0 {
      bytesWritten, w, f2 := Submit(files, mem, Request(OPERATION_WRITE, fd, buffer, count, 0, 0), false);
    } else {
      bytesWritten, w, f2 := -1, Reply(s.fs, s.mem, -1), NoFault;
    }
  }

  /** The same with the close, once the file is open. */
  method SaveAndClose(files: GuestFiles, mem: array<Byte>, fd: int, buffer: nat, count: nat)
    returns (ok: bool, ghost s: Reply, ghost w: Reply, ghost c: Reply,
             ghost f1: Fault, ghost f2: Fault, ghost f3: Fault)
    requires files.Valid() && files.SoleUser()
    modifies files, files.host, mem
    ensures files.Valid() && files.SoleUser()
    ensures s == Step(old(files.View()), old(mem[..]), Request(OPERATION_LSEEK, fd, 0, 0, 0, SEEK_SET), f1)
    ensures w == if s.result == 0 then Step(s.fs, s.mem, Request(OPERATION_WRITE, fd, buffer, count, 0, 0), f2)
                 else Reply(s.fs, s.mem, -1)
    ensures c == Step(w.fs, w.mem, Request(OPERATION_CLOSE, fd, 0, 0, 0, 0), f3)
    ensures files.View() == c.fs && (ok <==> w.result == count && c.result == 0)
  {
    var bytesWritten, closeResult;
    bytesWritten, s, w, f1, f2 := RewindAndWrite(files, mem, fd, buffer, count);
    closeResult, c, f3 := Submit(files, mem, Request(OPERATION_CLOSE, fd, 0, 0, 0, 0), false);
    ok := bytesWritten == count && closeResult == 0;
  }

  /** The file requests of read_shared_buffer, on the VM's file layer. */
  method SaveMessage(files: GuestFiles, mem: array<Byte>, name: nat, buffer: nat, count: nat, testFails: bool)
    returns (ok: bool, ghost run: FileRun)
    requires files.Valid() && files.SoleUser() && files.Trusts(testFails)
    modifies files, files.host, mem
    ensures files.Valid() && files.SoleUser()
    ensures run.mem == old(mem[..]) && run.name == name && run.buffer == buffer
    ensures SaveReaderFile(old(files.View()), run, count) == SaveResult(files.View(), ok)
  {
    ghost var fs, memory := files.View(), mem[..];
    var fd;
    ghost var o, s, w, c, f0, f1, f2, f3;
    fd, o, f0 := Submit(files, mem, Request(OPERATION_OPEN, 0, name, 0, 0, 10), testFails);
    if fd < 0 {
      ok, run := false, FileRun(memory, name, buffer, [f0]);
      SaveUnopened(fs, run, count, o, f0);
    } else {
      ok, s, w, c, f1, f2, f3 := SaveAndClose(files, mem, fd, buffer, count);
      run := FileRun(memory, name, buffer, [f0, f1, f2, f3]);
      SaveOpened(fs, run, count, o, s, w, c, f0, f1, f2, f3);
    }
  }

  /** read_shared_buffer followed the reader's program, and saved what it acknowledged iff the machine
      of module Hypervisor goes on to save; only then can it report success. */
  ghost predicate ReadIn(before: Private, run: FileRun, after: Private, trace: seq<Access>,
                         from: nat, done: nat, log: ReaderLog, received: Bytes, ok: bool)
  {
    && from < |trace|
    && var count := trace[from].raw;
    && Reached(Position(ReaderProgram(done, 1, Ask), log), trace, from) ==
       Some(Position(ReaderProgram(done + 1, 0, Ask), ReaderLog(true, received, log.acked + [received])))
    && (match StageAfter(ReaderProgram(done, 1, Fetching(count, |received|)), true, 0, received)
        case Saving(payload) =>
          && payload == received && |received| == count
          && run.buffer + count <= |run.mem| && run.mem[run.buffer..run.buffer + count] == received
          && SaveReaderFile(before, run, count) == SaveResult(after, ok)
        case Returned(result) => ok == result && after == before
        case _ => false)
    && (count > 256 ==>
          && !ok && after == before
          && Did(trace[..from], trace, [Io(0x510, In, 4, 1, 0), Io(0x520, Out, 4, 1, 0)]))
    && (count <= 256 ==> |received| == count && SaveReaderFile(before, run, count) == SaveResult(after, ok))
  }

  method ReadSharedBuffer(port: Ports, files: GuestFiles, mem: array<Byte>, name: nat, buffer: nat, testFails: bool,
                          ghost done: nat, ghost log: ReaderLog)
    returns (ok: bool, ghost received: Bytes, ghost run: FileRun)
    requires files.Valid() && files.SoleUser() && files.Trusts(testFails) && buffer + BUFFER_SIZE <= mem.Length
    modifies port, files, files.host, mem
    ensures files.Valid() && files.SoleUser()
    ensures old(port.trace) <= port.trace
    ensures run.name == name && run.buffer == buffer && OutsideKept(run.mem, old(mem[..]), buffer)
    ensures ReadIn(old(files.View()), run, files.View(), port.trace, |old(port.trace)|, done, log,
                   received, ok)
  {
    var count;
    count, received := ReceiveMessage(port, mem, buffer, done, log);
    if count > BUFFER_SIZE {
      ok, run := false, FileRun(mem[..], name, buffer, []);
    } else {
      ok, run := SaveMessage(files, mem, name, buffer, count, testFails);
    }
  }

  // ----- the handler

  /** The static variables of the guest's interrupt code. */
  class Guest {
    var modeInitialized: bool
    var vmMode: nat
    var transferFinished: bool
    var transferSucceeded: bool

    constructor ()
      ensures !modeInitialized && !transferFinished && !transferSucceeded && vmMode == 0
    {
      modeInitialized, vmMode, transferFinished, transferSucceeded := false, 0, false, false;
    }

    /** irq0_handler: the first time it takes the mode, with a single access and no file request; every
        other time it makes the transfer of its role. The positions of the two names and of the buffer
        in guest memory are the compiler's. */
    method Irq0Handler(port: Ports, files: GuestFiles, mem: array<Byte>, guestTxt: nat, readerTxt: nat, buffer: nat,
                       testFails: bool, ghost sent: seq<Message>, ghost done: nat, ghost log: ReaderLog)
      returns (ghost received: Bytes, ghost run: FileRun)
      requires files.Valid() && files.SoleUser() && files.Trusts(testFails)
      requires buffer + BUFFER_SIZE + 1 <= mem.Length
      modifies this, port, files, files.host, mem
      ensures files.Valid() && files.SoleUser()
      ensures modeInitialized
      ensures !old(modeInitialized) ==>
                && Did(old(port.trace), port.trace, [Io(0x510, In, 1, 1, 0)])
                && vmMode == port.trace[|old(port.trace)|].raw % 0x100
                && transferFinished == old(transferFinished) && transferSucceeded == old(transferSucceeded)
                && files.View() == old(files.View())
      ensures old(modeInitialized) ==>
                && vmMode == old(vmMode) && transferFinished
                && old(port.trace) <= port.trace
                && run.name == (if vmMode == 1 then guestTxt else readerTxt) && run.buffer == buffer
                && if vmMode == 1
                   then
                     && Wrote(old(files.View()), run, files.View(), port.trace, |old(port.trace)|,
                              sent, log, transferSucceeded)
                     && ReportsWriting(old(files.View()), run, port.trace, transferSucceeded)
                   else ReadIn(old(files.View()), run, files.View(), port.trace, |old(port.trace)|,
                               done, log, received, transferSucceeded)
    {
      received, run := [], FileRun([], 0, 0, []);
      if !modeInitialized {
        vmMode := port.Use(Io(SHARED_BUFFER_PORT, In, 1, 1, 0));
        modeInitialized := true;
        return;
      }
      if vmMode == 1 {
        transferSucceeded, run := WriteSharedBuffer(port, files, mem, guestTxt, buffer, testFails, sent, log);
      } else {
        transferSucceeded, received, run := ReadSharedBuffer(port, files, mem, readerTxt, buffer, testFails, done, log);
      }
      transferFinished := true;
    }
  }
}
