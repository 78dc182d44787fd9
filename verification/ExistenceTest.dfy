/** The one host call whose failure the file layer does not recover from: the test whether the VM has a
    file of its own. When it fails for such a file of a shared name, the file is opened as shared, and the
    next write through that descriptor removes it. */
module ExistenceTest {
  import opened Options
  import opened Protocol
  import opened PrivateFiles
  import opened HostFiles
  import opened FileTable
  import opened FileIo

  /** The open names a file for writing; the write is one that the private system does in full. */
  ghost predicate WritesBack(mem: Bytes, open: Request, write: Request) {
    && open.operation == OPERATION_OPEN && ValidFlags(open.flags) && CanWrite(open.flags)
    && write.operation == OPERATION_WRITE && write.count >= 0
    && (write.count == 0 || InMemory(write.buffer, write.count, |mem|))
  }

  /** What the guest sees and gets is what the private system shows and gives. */
  ghost predicate Agrees(files: GuestFiles, mem: Bytes, result: int, reply: Reply)
    reads files, files.host
  {
    files.Valid() && Reply(files.View(), mem, result) == reply
  }

  /** An open for writing that succeeds, and a write through its descriptor during which no host call fails.
      The two agree with the private system iff the existence test has not misled the open. If it has, the
      write is refused and all it does is to remove the VM's own file. */
  method OpenThenWrite(files: GuestFiles, mem: array<Byte>, open: Request, write: Request, testFails: bool)
    returns (descriptor: int, result: int, ghost between: nat)
    requires files.Valid() && files.SoleUser() && WritesBack(mem[..], open, write)
    modifies files, files.host
    ensures var o := Open(old(files.View()), mem[..], open);
            descriptor >= 0 && files.host.failures == between ==>
              (Agrees(files, mem[..], result, Write(o.fs, mem[..], write.(descriptor := descriptor)))
               <==> !old(files.Misled(mem[..], open, testFails)))
    ensures descriptor >= 0 && files.host.failures == between && old(files.Misled(mem[..], open, testFails)) ==>
              var name := NameAt(mem[..], open.buffer).value;
              && result == -1
              && Local(files.id, name) in old(files.host.files)
              && files.host.files == old(files.host.files) - {Local(files.id, name)}
  {
    ghost var p := files.View();
    ghost var fault;
    descriptor, fault := files.OpenFile(mem, open, testFails);
    between, result := files.host.failures, -1;
    if descriptor >= 0 {
      ghost var misled := old(files.Misled(mem[..], open, testFails));
      ghost var o := Open(p, mem[..], open);
      if !misled {
        assert files.SoleUser() by {
          OwnDirectoryKept(files.id, old(files.host.files), old(files.host.open), Owned(old(files.openFiles)),
                           files.host.files, files.host.open, Owned(files.openFiles));
        }
      }
      result, fault := files.WriteFile(mem, write.(descriptor := descriptor));
    }
  }

  /** A guest memory with the name "s" at address 0 and one byte to write at address 2. */
  method SmallMemory() returns (mem: array<Byte>)
    ensures fresh(mem) && mem[..] == [115, 0, 7] && NameAt(mem[..], 0) == Some([115])
  {
    mem := new Byte[3];
    mem[0], mem[1], mem[2] := 115, 0, 7;
    assert mem[..] == [115, 0, 7] && mem[..][0..0 + 1] == [115];
    assert IsNameAt(mem[..], 0, [115]);
    NameAtIs(mem[..], 0, [115]);
  }

  /** An input on which this happens: VM 0 has written to the shared file "s" before, so it has a file "s" of
      its own, and opens it again while the test fails. The write loses what the VM had written. */
  method OwnFileLost() returns (host: Host, descriptor: int, result: int, ghost between: nat)
    ensures descriptor >= 0 && host.failures == between ==> result == -1 && host.files == map[Elsewhere([115]) := [1]]
  {
    host := new Host(map[Elsewhere([115]) := [1], Local(0, [115]) := [2]]);
    var files := new GuestFiles(0, host, map[[115] := Elsewhere([115])]);
    var mem := SmallMemory();
    descriptor, result, between := OpenThenWrite(files, mem, Request(OPERATION_OPEN, 0, 0, 0, 0, 4),
                                                 Request(OPERATION_WRITE, 0, 2, 1, 0, 0), true);
  }
}
