/** What the interrupt handler of the default guest does with files: the writer loads its message from
    guest.txt, a reader saves what it received to reader.txt. Every request may fail on the host. */
module GuestPrograms {
  import opened Options
  import opened Protocol
  import opened Broadcast
  import opened PrivateFiles

  const GUEST_TXT: Name := [103, 117, 101, 115, 116, 46, 116, 120, 116]
  const READER_TXT: Name := [114, 101, 97, 100, 101, 114, 46, 116, 120, 116]

  /** Memory of a guest doing file requests: where the name and the buffer are, and what the host does
      to each of the requests. */
  datatype FileRun = FileRun(mem: Bytes, name: nat, buffer: nat, faults: seq<Fault>)

  /** A request a guest has made, with its memory at that moment and what the host did to it. */
  datatype Submitted = Submitted(mem: Bytes, req: Request, fault: Fault)

  ghost function FilesAfter(fs: Private, requests: seq<Submitted>): Private {
    if requests == [] then fs
    else
      var n := |requests| - 1;
      Step(FilesAfter(fs, requests[..n]), requests[n].mem, requests[n].req, requests[n].fault).fs
  }

  lemma {:induction false} FilesAfterWellFormed(fs: Private, requests: seq<Submitted>)
    requires WellFormed(fs)
    ensures WellFormed(FilesAfter(fs, requests))
    ensures forall n :: n in fs.files ==> n in FilesAfter(fs, requests).files
  {
    if requests != [] {
      var n := |requests| - 1;
      FilesAfterWellFormed(fs, requests[..n]);
      StepWellFormed(FilesAfter(fs, requests[..n]), requests[n].mem, requests[n].req, requests[n].fault);
    }
  }

  lemma OneRequestMore(fs: Private, requests: seq<Submitted>, mem: Bytes, req: Request, fault: Fault)
    ensures FilesAfter(fs, requests + [Submitted(mem, req, fault)]) ==
            Step(FilesAfter(fs, requests), mem, req, fault).fs
  {
    assert (requests + [Submitted(mem, req, fault)])[..|requests|] == requests;
  }

  function FaultOf(run: FileRun, k: nat): Fault {
    if k < |run.faults| then run.faults[k] else NoFault
  }

  /** What open, read and close make of guest.txt: bytes_read, close_result, the buffer. */
  datatype LoadResult = LoadResult(fs: Private, payload: Bytes, loaded: bool)

  ghost function LoadGuestFile(fs: Private, run: FileRun): (load: LoadResult)
    ensures |load.payload| <= BUFFER_SIZE + 1
  {
    var o := Step(fs, run.mem, Request(OPERATION_OPEN, 0, run.name, 0, 0, 1), FaultOf(run, 0));
    if o.result < 0 then LoadResult(o.fs, [], false)
    else
      var r := Step(o.fs, o.mem, Request(OPERATION_READ, o.result, run.buffer, BUFFER_SIZE + 1, 0, 0), FaultOf(run, 1));
      var c := Step(r.fs, r.mem, Request(OPERATION_CLOSE, o.result, 0, 0, 0, 0), FaultOf(run, 2));
      if r.result < 0 || run.buffer + r.result > |r.mem| then LoadResult(c.fs, [], false)
      else LoadResult(c.fs, r.mem[run.buffer..run.buffer + r.result], c.result == 0)
  }

  datatype SaveResult = SaveResult(fs: Private, ok: bool)

  ghost function SaveReaderFile(fs: Private, run: FileRun, count: nat): SaveResult {
    var o := Step(fs, run.mem, Request(OPERATION_OPEN, 0, run.name, 0, 0, 10), FaultOf(run, 0));
    if o.result < 0 then SaveResult(o.fs, false)
    else
      var s := Step(o.fs, o.mem, Request(OPERATION_LSEEK, o.result, 0, 0, 0, SEEK_SET), FaultOf(run, 1));
      var w := if s.result == 0
               then Step(s.fs, s.mem, Request(OPERATION_WRITE, o.result, run.buffer, count, 0, 0), FaultOf(run, 2))
               else Reply(s.fs, s.mem, -1);
      var c := Step(w.fs, w.mem, Request(OPERATION_CLOSE, o.result, 0, 0, 0, 0), FaultOf(run, 3));
      SaveResult(c.fs, w.result == count && c.result == 0)
  }

  /** The message is the beginning of the VM's guest.txt, one byte more than the buffer holds at most. */
  ghost predicate LoadedFrom(fs: Private, payload: Payload) {
    GUEST_TXT in fs.files &&
    payload == fs.files[GUEST_TXT][..Min(|fs.files[GUEST_TXT]|, BUFFER_SIZE + 1)]
  }

  /** reader.txt begins with the payload. */
  ghost predicate SavedIn(fs: Private, payload: Payload) {
    READER_TXT in fs.files && payload <= fs.files[READER_TXT]
  }

  /** The guest's stack holds the name and has room for the buffer. */
  ghost predicate LoadReady(run: FileRun) {
    IsNameAt(run.mem, run.name, GUEST_TXT) && run.buffer + BUFFER_SIZE + 1 <= |run.mem|
  }

  ghost predicate SaveReady(run: FileRun, payload: Payload) {
    && IsNameAt(run.mem, run.name, READER_TXT)
    && run.buffer + |payload| <= |run.mem|
    && run.mem[run.buffer..run.buffer + |payload|] == payload
  }

  /** If the loading program reports success, the message is the beginning of guest.txt. */
  lemma LoadIsPrefix(fs: Private, run: FileRun)
    requires WellFormed(fs) && LoadReady(run)
    ensures var r := LoadGuestFile(fs, run);
            && WellFormed(r.fs) && |r.payload| <= BUFFER_SIZE + 1
            && (r.loaded ==> LoadedFrom(r.fs, r.payload))
  {
    var open := Request(OPERATION_OPEN, 0, run.name, 0, 0, 1);
    NameAtIs(run.mem, run.name, GUEST_TXT);
    StepWellFormed(fs, run.mem, open, FaultOf(run, 0));
    var o := Step(fs, run.mem, open, FaultOf(run, 0));
    if o.result >= 0 {
      assert GUEST_TXT in fs.files;
      assert o == Reply(fs.(open := fs.open[fs.next := Handle(GUEST_TXT, 1, 0)], next := fs.next + 1),
                        run.mem, fs.next);
      var read := Request(OPERATION_READ, o.result, run.buffer, BUFFER_SIZE + 1, 0, 0);
      StepWellFormed(o.fs, o.mem, read, FaultOf(run, 1));
      var r := Step(o.fs, o.mem, read, FaultOf(run, 1));
      var close := Request(OPERATION_CLOSE, o.result, 0, 0, 0, 0);
      StepWellFormed(r.fs, r.mem, close, FaultOf(run, 2));
    }
  }

  /** If guest.txt exists and no request fails, the loading program reports success. */
  lemma LoadSucceeds(fs: Private, run: FileRun)
    requires WellFormed(fs) && LoadReady(run) && run.faults == [] && GUEST_TXT in fs.files
    ensures LoadGuestFile(fs, run).loaded
  {
    var open := Request(OPERATION_OPEN, 0, run.name, 0, 0, 1);
    NameAtIs(run.mem, run.name, GUEST_TXT);
    var o := Step(fs, run.mem, open, NoFault);
    LoadOpens(fs, run.mem, open);
    var read := Request(OPERATION_READ, o.result, run.buffer, BUFFER_SIZE + 1, 0, 0);
    var r := Step(o.fs, o.mem, read, NoFault);
    assert 0 <= r.result <= BUFFER_SIZE + 1 && o.result in r.fs.open && |r.mem| == |run.mem|;
  }

  lemma LoadOpens(fs: Private, mem: Bytes, open: Request)
    requires open == Request(OPERATION_OPEN, 0, open.buffer, 0, 0, 1)
    requires NameAt(mem, open.buffer) == Some(GUEST_TXT) && GUEST_TXT in fs.files
    ensures var o := Step(fs, mem, open, NoFault);
            o.mem == mem && o.result == fs.next && fs.next in o.fs.open && o.fs.open[fs.next] == Handle(GUEST_TXT, 1, 0)
  {
  }

  /** If no request fails, the saving program reports success. */
  lemma SaveSucceeds(fs: Private, run: FileRun, payload: Payload)
    requires WellFormed(fs) && SaveReady(run, payload) && run.faults == []
    ensures SaveReaderFile(fs, run, |payload|).ok
  {
    var count := |payload|;
    var open := Request(OPERATION_OPEN, 0, run.name, 0, 0, 10);
    NameAtIs(run.mem, run.name, READER_TXT);
    var o := Step(fs, run.mem, open, NoFault);
    SaveOpens(fs, run.mem, open);
    RewindForSaving(o.fs, o.mem, o.result, NoFault);
    var s := Step(o.fs, o.mem, Request(OPERATION_LSEEK, o.result, 0, 0, 0, SEEK_SET), NoFault);
    SaveWrites(s.fs, s.mem, Request(OPERATION_WRITE, o.result, run.buffer, count, 0, 0));
    assert s.result == 0;
  }

  lemma SaveOpens(fs: Private, mem: Bytes, open: Request)
    requires WellFormed(fs) && open == Request(OPERATION_OPEN, 0, open.buffer, 0, 0, 10)
    requires NameAt(mem, open.buffer) == Some(READER_TXT)
    ensures var o := Step(fs, mem, open, NoFault);
            && WellFormed(o.fs) && o.mem == mem && o.result == fs.next
            && fs.next in o.fs.open && o.fs.open[fs.next] == Handle(READER_TXT, 10, 0)
  {
  }

  lemma SaveWrites(fs: Private, mem: Bytes, write: Request)
    requires write.operation == OPERATION_WRITE && write.count >= 0 && InMemory(write.buffer, write.count, |mem|)
    requires write.descriptor in fs.open && fs.open[write.descriptor].flags == 10
    ensures var w := Step(fs, mem, write, NoFault);
            w.result == write.count && write.descriptor in w.fs.open
  {
  }

  lemma OpenForSaving(fs: Private, mem: Bytes, name: nat, fault: Fault)
    requires WellFormed(fs) && IsNameAt(mem, name, READER_TXT)
    ensures var o := Step(fs, mem, Request(OPERATION_OPEN, 0, name, 0, 0, 10), fault);
            && WellFormed(o.fs) && o.mem == mem
            && (o.result >= 0 ==> READER_TXT in o.fs.files && o.result in o.fs.open
                                  && o.fs.open[o.result] == Handle(READER_TXT, 10, 0))
  {
    var open := Request(OPERATION_OPEN, 0, name, 0, 0, 10);
    NameAtIs(mem, name, READER_TXT);
    StepWellFormed(fs, mem, open, fault);
  }

  lemma RewindForSaving(fs: Private, mem: Bytes, d: int, fault: Fault)
    requires WellFormed(fs) && d in fs.open && fs.open[d] == Handle(READER_TXT, 10, 0)
    ensures var s := Step(fs, mem, Request(OPERATION_LSEEK, d, 0, 0, 0, SEEK_SET), fault);
            && s.fs == fs && s.mem == mem
  {
    assert fs.open[d := fs.open[d]] == fs.open;
  }

  lemma WriteForSaving(fs: Private, mem: Bytes, d: int, buffer: nat, count: nat, fault: Fault)
    requires WellFormed(fs) && d in fs.open && fs.open[d] == Handle(READER_TXT, 10, 0)
    requires buffer + count <= |mem|
    ensures var w := Step(fs, mem, Request(OPERATION_WRITE, d, buffer, count, 0, 0), fault);
            && WellFormed(w.fs)
            && (w.result == count ==> SavedIn(w.fs, mem[buffer..buffer + count]))
  {
    var write := Request(OPERATION_WRITE, d, buffer, count, 0, 0);
    StepWellFormed(fs, mem, write, fault);
    if Step(fs, mem, write, fault).result == count {
      FullWrite(fs, mem, write, fault);
    }
    if count > 0 && Step(fs, mem, write, fault).result == count {
      WriteOf(fs, mem, write, count);
      WriteBytesSaves(fs, mem, d, mem[buffer..buffer + count]);
    }
  }

  /** A write that returns the whole count has written it all. */
  lemma FullWrite(fs: Private, mem: Bytes, write: Request, fault: Fault)
    requires WellFormed(fs) && write.operation == OPERATION_WRITE && write.count >= 0
    requires InMemory(write.buffer, write.count, |mem|)
    requires Step(fs, mem, write, fault).result == write.count
    ensures Step(fs, mem, write, fault) == Write(fs, mem, write)
  {
  }

  lemma WriteBytesSaves(fs: Private, mem: Bytes, d: int, data: Bytes)
    requires d in fs.open && fs.open[d] == Handle(READER_TXT, 10, 0)
    ensures SavedIn(WriteBytes(fs, mem, d, data).fs, data)
  {
    OverwriteReadsBack(Content(fs, READER_TXT), 0, data);
  }

  /** If the saving program reports success, reader.txt begins with the payload, whatever it held
      before. */
  lemma SaveHoldsPayload(fs: Private, run: FileRun, payload: Payload)
    requires WellFormed(fs) && SaveReady(run, payload)
    ensures var r := SaveReaderFile(fs, run, |payload|);
            WellFormed(r.fs) && (r.ok ==> SavedIn(r.fs, payload))
  {
    var count := |payload|;
    OpenForSaving(fs, run.mem, run.name, FaultOf(run, 0));
    var o := Step(fs, run.mem, Request(OPERATION_OPEN, 0, run.name, 0, 0, 10), FaultOf(run, 0));
    if o.result >= 0 {
      RewindForSaving(o.fs, o.mem, o.result, FaultOf(run, 1));
      var s := Step(o.fs, o.mem, Request(OPERATION_LSEEK, o.result, 0, 0, 0, SEEK_SET), FaultOf(run, 1));
      WriteForSaving(s.fs, s.mem, o.result, run.buffer, count, FaultOf(run, 2));
      var w := if s.result == 0
               then Step(s.fs, s.mem, Request(OPERATION_WRITE, o.result, run.buffer, count, 0, 0), FaultOf(run, 2))
               else Reply(s.fs, s.mem, -1);
      CloseKeepsFiles(w.fs, w.mem, o.result, FaultOf(run, 3));
    }
  }

  lemma CloseKeepsFiles(fs: Private, mem: Bytes, d: int, fault: Fault)
    requires WellFormed(fs)
    ensures var c := Step(fs, mem, Request(OPERATION_CLOSE, d, 0, 0, 0, 0), fault);
            WellFormed(c.fs) && c.fs.files == fs.files
  {
  }

  /** A request that the host refuses makes the loading program report failure, and so does a guest.txt that
      cannot be opened. */
  lemma LoadReportsFailures(fs: Private, run: FileRun, k: nat)
    requires WellFormed(fs) && LoadReady(run) && k < 3 && FaultOf(run, k) == Refused
    ensures !LoadGuestFile(fs, run).loaded
  {
  }

  lemma RefusedFails(fs: Private, mem: Bytes, req: Request, fault: Fault)
    requires fault == Refused
    ensures Step(fs, mem, req, fault).result == -1
  {
  }

  /** Success of the saving program is success of its four requests. */
  lemma SaveNeedsAll(fs: Private, run: FileRun, count: nat, o: Reply, s: Reply, w: Reply, c: Reply)
    requires o == Step(fs, run.mem, Request(OPERATION_OPEN, 0, run.name, 0, 0, 10), FaultOf(run, 0))
    requires s == Step(o.fs, o.mem, Request(OPERATION_LSEEK, o.result, 0, 0, 0, SEEK_SET), FaultOf(run, 1))
    requires w == if s.result == 0
                  then Step(s.fs, s.mem, Request(OPERATION_WRITE, o.result, run.buffer, count, 0, 0), FaultOf(run, 2))
                  else Reply(s.fs, s.mem, -1)
    requires c == Step(w.fs, w.mem, Request(OPERATION_CLOSE, o.result, 0, 0, 0, 0), FaultOf(run, 3))
    ensures SaveReaderFile(fs, run, count).ok <==> o.result >= 0 && w.result == count && c.result == 0
  {
  }

  /** The same for the saving program: open, lseek, write and close must all succeed. */
  lemma SaveReportsFailures(fs: Private, run: FileRun, count: nat, k: nat)
    requires k < 4 && FaultOf(run, k) == Refused
    ensures !SaveReaderFile(fs, run, count).ok
  {
    var open := Request(OPERATION_OPEN, 0, run.name, 0, 0, 10);
    var o := Step(fs, run.mem, open, FaultOf(run, 0));
    var seek := Request(OPERATION_LSEEK, o.result, 0, 0, 0, SEEK_SET);
    var s := Step(o.fs, o.mem, seek, FaultOf(run, 1));
    var write := Request(OPERATION_WRITE, o.result, run.buffer, count, 0, 0);
    var w := if s.result == 0 then Step(s.fs, s.mem, write, FaultOf(run, 2)) else Reply(s.fs, s.mem, -1);
    var close := Request(OPERATION_CLOSE, o.result, 0, 0, 0, 0);
    SaveNeedsAll(fs, run, count, o, s, w, Step(w.fs, w.mem, close, FaultOf(run, 3)));
    match k {
      case 0 => RefusedFails(fs, run.mem, open, FaultOf(run, 0));
      case 1 => RefusedFails(o.fs, o.mem, seek, FaultOf(run, 1));
      case 2 => RefusedFails(s.fs, s.mem, write, FaultOf(run, 2));
      case _ => RefusedFails(w.fs, w.mem, close, FaultOf(run, 3));
    }
  }

  // ----- the same as sequences of requests

  ghost function LoadRequests(fs: Private, run: FileRun): seq<Submitted> {
    var open := Submitted(run.mem, Request(OPERATION_OPEN, 0, run.name, 0, 0, 1), FaultOf(run, 0));
    var o := Step(fs, open.mem, open.req, open.fault);
    if o.result < 0 then [open]
    else
      var read := Submitted(o.mem, Request(OPERATION_READ, o.result, run.buffer, BUFFER_SIZE + 1, 0, 0),
                            FaultOf(run, 1));
      var r := Step(o.fs, read.mem, read.req, read.fault);
      [open] + [read] + [Submitted(r.mem, Request(OPERATION_CLOSE, o.result, 0, 0, 0, 0), FaultOf(run, 2))]
  }

  lemma LoadIsRequests(fs: Private, run: FileRun)
    ensures FilesAfter(fs, LoadRequests(fs, run)) == LoadGuestFile(fs, run).fs
  {
    var open := Submitted(run.mem, Request(OPERATION_OPEN, 0, run.name, 0, 0, 1), FaultOf(run, 0));
    var o := Step(fs, open.mem, open.req, open.fault);
    OneRequestMore(fs, [], open.mem, open.req, open.fault);
    assert [] + [open] == [open];
    if o.result >= 0 {
      var read := Submitted(o.mem, Request(OPERATION_READ, o.result, run.buffer, BUFFER_SIZE + 1, 0, 0),
                            FaultOf(run, 1));
      var r := Step(o.fs, read.mem, read.req, read.fault);
      OneRequestMore(fs, [open], read.mem, read.req, read.fault);
      OneRequestMore(fs, [open] + [read], r.mem, Request(OPERATION_CLOSE, o.result, 0, 0, 0, 0), FaultOf(run, 2));
    }
  }

  ghost function SaveRequests(fs: Private, run: FileRun, count: nat): seq<Submitted> {
    var open := Submitted(run.mem, Request(OPERATION_OPEN, 0, run.name, 0, 0, 10), FaultOf(run, 0));
    var o := Step(fs, open.mem, open.req, open.fault);
    if o.result < 0 then [open]
    else
      var seek := Submitted(o.mem, Request(OPERATION_LSEEK, o.result, 0, 0, 0, SEEK_SET), FaultOf(run, 1));
      var s := Step(o.fs, seek.mem, seek.req, seek.fault);
      var write := Submitted(s.mem, Request(OPERATION_WRITE, o.result, run.buffer, count, 0, 0), FaultOf(run, 2));
      var w := if s.result == 0 then Step(s.fs, write.mem, write.req, write.fault) else Reply(s.fs, s.mem, -1);
      [open] + [seek] + (if s.result == 0 then [write] else [])
      + [Submitted(w.mem, Request(OPERATION_CLOSE, o.result, 0, 0, 0, 0), FaultOf(run, 3))]
  }

  lemma SaveIsRequests(fs: Private, run: FileRun, count: nat)
    ensures FilesAfter(fs, SaveRequests(fs, run, count)) == SaveReaderFile(fs, run, count).fs
  {
    var open := Submitted(run.mem, Request(OPERATION_OPEN, 0, run.name, 0, 0, 10), FaultOf(run, 0));
    var o := Step(fs, open.mem, open.req, open.fault);
    OneRequestMore(fs, [], open.mem, open.req, open.fault);
    assert [] + [open] == [open];
    if o.result >= 0 {
      var seek := Submitted(o.mem, Request(OPERATION_LSEEK, o.result, 0, 0, 0, SEEK_SET), FaultOf(run, 1));
      var s := Step(o.fs, seek.mem, seek.req, seek.fault);
      OneRequestMore(fs, [open], seek.mem, seek.req, seek.fault);
      var write := Submitted(s.mem, Request(OPERATION_WRITE, o.result, run.buffer, count, 0, 0), FaultOf(run, 2));
      var w := if s.result == 0 then Step(s.fs, write.mem, write.req, write.fault) else Reply(s.fs, s.mem, -1);
      OneRequestMore(fs, [open] + [seek], write.mem, write.req, write.fault);
      var before := [open] + [seek] + (if s.result == 0 then [write] else []);
      assert s.result != 0 ==> before == [open] + [seek];
      OneRequestMore(fs, before, w.mem, Request(OPERATION_CLOSE, o.result, 0, 0, 0, 0), FaultOf(run, 3));
    }
  }
}
