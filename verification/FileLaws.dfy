/** What the file requests mean, told without the functions that compute them: by the numbers the guest
    passes and the files, offsets and memory it finds before and after. */
module FileLaws {
  import opened Options
  import opened Protocol
  import opened PrivateFiles
  import opened HostFiles
  import opened FileTable
  import opened FileIo
  import opened GuestPrograms

  predicate Readable(flags: int) {
    flags in {1, 4, 9, 12}
  }

  predicate Writable(flags: int) {
    flags in {2, 4, 10, 12}
  }

  /** Nothing but the offset of one descriptor has changed. */
  ghost predicate Moved(p: Private, p': Private, d: int, offset: int) {
    && d in p.open && d in p'.open && p'.files == p.files && p'.next == p.next
    && p'.open.Keys == p.open.Keys
    && (forall e :: e in p.open && e != d ==> p'.open[e] == p.open[e])
    && p'.open[d].name == p.open[d].name && p'.open[d].flags == p.open[d].flags && p'.open[d].offset == offset
  }

  // ----- one request

  /** open: with flags 1, 2 or 4, and 8 or not, and the name of an existing file or 8 among the flags, the
      next number is opened at offset 0, and a missing file is there and empty; anything else is refused. */
  lemma OpenLaw(p: Private, mem: Bytes, req: Request, name: Name)
    requires WellFormed(p) && req.operation == 1 && SpelledAt(mem, req.buffer, name)
    ensures var r := Step(p, mem, req, NoFault);
            if req.flags in {1, 2, 4, 9, 10, 12} && (name in p.files || req.flags in {9, 10, 12}) then
              && r.mem == mem && r.result == p.next >= 3 && r.result !in p.open && r.fs.next == p.next + 1
              && r.fs.open == p.open[r.result := Handle(name, req.flags, 0)]
              && r.fs.files.Keys == p.files.Keys + {name}
              && (forall n :: n in p.files ==> r.fs.files[n] == p.files[n])
              && (name !in p.files ==> r.fs.files[name] == [])
            else r == Reply(p, mem, -1)
  {
    NamesAreSpelled(mem, req.buffer, name);
    NameAtIs(mem, req.buffer, name);
  }

  lemma NoNameLaw(p: Private, mem: Bytes, req: Request)
    requires req.operation == 1 && forall name :: !SpelledAt(mem, req.buffer, name)
    ensures Step(p, mem, req, NoFault) == Reply(p, mem, -1)
  {
    forall name
      ensures !IsNameAt(mem, req.buffer, name)
    {
      NamesAreSpelled(mem, req.buffer, name);
    }
  }

  /** close: the descriptor is gone, whether the host refuses or not, and nothing else has changed. */
  lemma CloseLaw(p: Private, mem: Bytes, req: Request, fault: Fault)
    requires req.operation == 2
    ensures var r := Step(p, mem, req, fault);
            && r.mem == mem && r.fs.files == p.files && r.fs.next == p.next
            && r.fs.open.Keys == p.open.Keys - {req.descriptor}
            && (forall e :: e in r.fs.open ==> r.fs.open[e] == p.open[e])
            && r.result == if req.descriptor in p.open && !fault.Refused? then 0 else -1
  {
  }

  /** read: what there is from the offset on, at most the count, is put at the buffer, and the offset moves
      behind it; at or past the end of the file there is nothing. */
  lemma ReadLaw(p: Private, mem: Bytes, req: Request)
    requires WellFormed(p) && req.operation == 3 && req.descriptor in p.open
    requires Readable(p.open[req.descriptor].flags) && req.count > 0 && req.buffer + req.count <= |mem|
    ensures var h := p.open[req.descriptor];
            var content := p.files[h.name];
            var r := Step(p, mem, req, NoFault);
            if h.offset >= |content| then r == Reply(p, mem, 0)
            else
              && 0 < r.result <= req.count && h.offset + r.result <= |content|
              && (r.result == req.count || h.offset + r.result == |content|)
              && |r.mem| == |mem|
              && r.mem[req.buffer..req.buffer + r.result] == content[h.offset..h.offset + r.result]
              && r.mem[..req.buffer] == mem[..req.buffer]
              && r.mem[req.buffer + r.result..] == mem[req.buffer + r.result..]
              && Moved(p, r.fs, req.descriptor, h.offset + r.result)
  {
  }

  ghost predicate OpenedProperly(p: Private) {
    forall d :: d in p.open ==> p.open[d].flags in {1, 2, 4, 9, 10, 12}
  }

  lemma FlagsStayProper(p: Private, mem: Bytes, req: Request, fault: Fault)
    requires WellFormed(p) && OpenedProperly(p)
    ensures OpenedProperly(Step(p, mem, req, fault).fs)
  {
    var r := Step(p, mem, req, fault);
    if d :| d in r.fs.open && d !in p.open {
      assert r.fs.open[d].flags == req.flags;
    }
  }

  /** read and write: an unknown descriptor, the wrong access, a negative count and, unless the count is zero,
      a buffer that is not in memory are refused; a count of zero does nothing. */
  lemma TransferRefused(p: Private, mem: Bytes, req: Request)
    requires WellFormed(p) && (req.operation == 3 || req.operation == 4)
    requires OpenedProperly(p)
    ensures var usable := req.descriptor in p.open &&
                          (if req.operation == 3 then Readable(p.open[req.descriptor].flags)
                           else Writable(p.open[req.descriptor].flags));
            && (!usable || req.count < 0 || (req.count > 0 && req.buffer + req.count > |mem|) ==>
                  Step(p, mem, req, NoFault) == Reply(p, mem, -1))
            && (usable && req.count == 0 ==> Step(p, mem, req, NoFault) == Reply(p, mem, 0))
  {
  }

  /** write: the bytes at the buffer are in the file at the offset, a gap is filled with zeros, all other bytes
      are as they were, and the offset is behind them. */
  lemma WriteLaw(p: Private, mem: Bytes, req: Request)
    requires WellFormed(p) && req.operation == 4 && req.descriptor in p.open
    requires Writable(p.open[req.descriptor].flags) && req.count > 0 && req.buffer + req.count <= |mem|
    ensures var h := p.open[req.descriptor];
            var r := Step(p, mem, req, NoFault);
            && r.result == req.count && r.mem == mem
            && r.fs.files.Keys == p.files.Keys
            && (forall n :: n in p.files && n != h.name ==> r.fs.files[n] == p.files[n])
            && Moved(p.(files := r.fs.files), r.fs, req.descriptor, h.offset + req.count)
            && Written(p.files[h.name], h.offset, mem[req.buffer..req.buffer + req.count], r.fs.files[h.name])
  {
    var h, data := p.open[req.descriptor], mem[req.buffer..req.buffer + req.count];
    WriteOf(p, mem, req, req.count);
    assert Step(p, mem, req, NoFault) == WriteBytes(p, mem, req.descriptor, data);
    OverwriteWrites(p.files[h.name], h.offset, data);
  }

  lemma OverwriteWrites(content: Bytes, offset: nat, data: Bytes)
    ensures Written(content, offset, data, Overwrite(content, offset, data))
  {
    OverwriteReadsBack(content, offset, data);
  }

  ghost predicate Written(before: Bytes, offset: nat, data: Bytes, after: Bytes) {
    && |after| == (if |before| > offset + |data| then |before| else offset + |data|)
    && after[offset..offset + |data|] == data
    && (forall k :: 0 <= k < |before| && (k < offset || offset + |data| <= k) ==> after[k] == before[k])
    && (forall k :: |before| <= k < offset ==> after[k] == 0)
  }

  /** lseek: 1 goes to the given offset, 2 to the end of the file; the result is the position unless it does not
      fit a signed 32-bit integer. Anything else is refused. */
  lemma SeekLaw(p: Private, mem: Bytes, req: Request)
    requires WellFormed(p) && req.operation == 5
    ensures var d := req.descriptor;
            var r := Step(p, mem, req, NoFault);
            if d in p.open && (req.flags == 2 || (req.flags == 1 && req.offset >= 0)) then
              var position := if req.flags == 1 then req.offset else |p.files[p.open[d].name]|;
              && r.mem == mem && Moved(p, r.fs, d, position)
              && r.result == if position <= 0x7fff_ffff then position else -1
            else r == Reply(p, mem, -1)
  {
  }

  lemma UnknownOperation(p: Private, mem: Bytes, req: Request, fault: Fault)
    requires req.operation == 0 || req.operation > 5
    ensures Step(p, mem, req, fault) == Reply(p, mem, -1)
  {
  }

  /** What the host refuses has no effect, but for a close; a write that runs out of space is a write of the
      bytes there was space for. */
  lemma FaultLaw(p: Private, mem: Bytes, req: Request, written: nat)
    ensures req.operation != 2 ==> Step(p, mem, req, Refused) == Reply(p, mem, -1)
    ensures req.operation == 4 && 0 < written < req.count && req.buffer + req.count <= |mem| ==>
              Step(p, mem, req, ShortWrite(written)) == Step(p, mem, req.(count := written), NoFault)
    ensures req.operation != 4 ==> Step(p, mem, req, ShortWrite(written)) == Step(p, mem, req, NoFault)
  {
  }

  // ----- several requests

  /** A seek to a position and a read give the bytes that are there. */
  lemma SeekThenRead(p: Private, mem: Bytes, d: int, start: nat, to: nat, data: Bytes)
    requires WellFormed(p) && d in p.open && Readable(p.open[d].flags) && data != [] && to + |data| <= |mem|
    requires var content := p.files[p.open[d].name];
             start + |data| <= |content| && content[start..start + |data|] == data
    ensures var s := Step(p, mem, Request(5, d, 0, 0, start, 1), NoFault);
            var r := Step(s.fs, s.mem, Request(3, d, to, |data|, 0, 0), NoFault);
            r.result == |data| && |r.mem| == |mem| && r.mem[to..to + |data|] == data
  {
    var seek := Request(5, d, 0, 0, start, 1);
    SeekLaw(p, mem, seek);
    StepWellFormed(p, mem, seek, NoFault);
    var s := Step(p, mem, seek, NoFault);
    ReadLaw(s.fs, s.mem, Request(3, d, to, |data|, 0, 0));
  }

  /** What is written is read back: a write, a seek to where it began and a read of as many bytes, whatever
      buffers they use and wherever in the file. */
  lemma WriteThenReadBack(p: Private, mem: Bytes, d: int, from: nat, to: nat, count: nat)
    requires WellFormed(p) && d in p.open && p.open[d].flags in {4, 12} && count > 0
    requires from + count <= |mem| && to + count <= |mem|
    ensures var start := p.open[d].offset;
            var w := Step(p, mem, Request(4, d, from, count, 0, 0), NoFault);
            var s := Step(w.fs, w.mem, Request(5, d, 0, 0, start, 1), NoFault);
            var r := Step(s.fs, s.mem, Request(3, d, to, count, 0, 0), NoFault);
            && w.result == count && r.result == count
            && |r.mem| == |mem| && r.mem[to..to + count] == mem[from..from + count]
  {
    var write := Request(4, d, from, count, 0, 0);
    WriteLaw(p, mem, write);
    StepWellFormed(p, mem, write, NoFault);
    var w := Step(p, mem, write, NoFault);
    SeekThenRead(w.fs, w.mem, d, p.open[d].offset, to, mem[from..from + count]);
  }

  /** A seek to the end and a write append. */
  lemma SeekThenAppend(p: Private, mem: Bytes, d: int, from: nat, count: nat)
    requires WellFormed(p) && d in p.open && Writable(p.open[d].flags) && count > 0 && from + count <= |mem|
    ensures var name := p.open[d].name;
            var s := Step(p, mem, Request(5, d, 0, 0, 0, 2), NoFault);
            var w := Step(s.fs, s.mem, Request(4, d, from, count, 0, 0), NoFault);
            && w.result == count && name in w.fs.files
            && w.fs.files[name] == p.files[name] + mem[from..from + count]
  {
    var name, seek, write := p.open[d].name, Request(5, d, 0, 0, 0, 2), Request(4, d, from, count, 0, 0);
    SeekLaw(p, mem, seek);
    StepWellFormed(p, mem, seek, NoFault);
    var s := Step(p, mem, seek, NoFault);
    WriteLaw(s.fs, s.mem, write);
    WrittenAtEnd(p.files[name], mem[from..from + count], Step(s.fs, s.mem, write, NoFault).fs.files[name]);
  }

  lemma WrittenAtEnd(before: Bytes, data: Bytes, after: Bytes)
    requires Written(before, |before|, data, after)
    ensures after == before + data
  {
    assert after == after[..|before|] + after[|before|..|before| + |data|];
    assert after[..|before|] == before;
  }

  /** A number that has been given out and is not open is never opened again, whatever requests follow. */
  lemma {:induction false} NeverOpenedAgain(p: Private, d: int, requests: seq<Submitted>)
    requires WellFormed(p) && d < p.next && d !in p.open
    ensures WellFormed(FilesAfter(p, requests)) && d < FilesAfter(p, requests).next
    ensures d !in FilesAfter(p, requests).open
  {
    if requests != [] {
      var n := |requests| - 1;
      NeverOpenedAgain(p, d, requests[..n]);
      StepWellFormed(FilesAfter(p, requests[..n]), requests[n].mem, requests[n].req, requests[n].fault);
    }
  }

  /** A closed descriptor stays closed: after the close, refused or not, and any further requests, every close,
      read, write and seek with its number is refused, and no open gives the number out. */
  lemma ClosedForGood(p: Private, mem: Bytes, close: Request, fault: Fault, requests: seq<Submitted>,
                      mem': Bytes, req: Request, fault': Fault)
    requires WellFormed(p) && close.operation == 2 && close.descriptor in p.open
    ensures var q := FilesAfter(Step(p, mem, close, fault).fs, requests);
            && (req.descriptor == close.descriptor && 2 <= req.operation <= 5 ==>
                  Step(q, mem', req, fault') == Reply(q, mem', -1))
            && (req.operation == 1 ==> Step(q, mem', req, fault').result != close.descriptor)
  {
    var closed := Step(p, mem, close, fault).fs;
    StepWellFormed(p, mem, close, fault);
    CloseLaw(p, mem, close, fault);
    NeverOpenedAgain(closed, close.descriptor, requests);
    var q := FilesAfter(closed, requests);
    assert close.descriptor !in q.open;
  }

  // ----- on the file layer

  /** On the copy-on-write layer, too, what a guest writes it reads back, be the file shared or its own. */
  method WriteAndReadBack(files: GuestFiles, mem: array<Byte>, d: int, start: nat, from: nat, to: nat, count: nat)
    requires files.Valid() && files.SoleUser() && d in files.openFiles && files.openFiles[d].flags in {4, 12}
    requires count > 0 && from + count <= mem.Length && to + count <= mem.Length
    requires files.View().open[d].offset == start
    modifies files, files.host, mem
    ensures files.Valid() && files.SoleUser()
    ensures files.host.failures >= old(files.host.failures)
    ensures files.host.failures == old(files.host.failures) ==>
              mem[..][to..to + count] == old(mem[..])[from..from + count]
  {
    ghost var p, m := files.View(), mem[..];
    ViewContent(files.id, files.shared, files.host.files, files.host.open, files.openFiles, files.nextDescriptor, d);
    WriteThenReadBack(p, m, d, from, to, count);
    var written, _ := files.ProcessFileRequest(mem, Request(4, d, from, count, 0, 0), false);
    var position, _ := files.ProcessFileRequest(mem, Request(5, d, 0, 0, start, 1), false);
    var read, _ := files.ProcessFileRequest(mem, Request(3, d, to, count, 0, 0), false);
  }
}
