/** The guest file layer of one VM, with copy-on-write of shared files. Every request is shown to do
    to the guest's view exactly what the private system of module PrivateFiles does, result
    included, whatever the host's calls do; `fault` is NoFault unless some host call failed. */
module FileIo {
  import FilePort
  import opened Options
  import opened Protocol
  import opened PrivateFiles
  import opened HostFiles
  import opened FileTable

  const REQUEST_SIZE: nat := 24
  const FILE_IO_PORT: nat := 0x278

  /** Little-endian words of guest memory. */
  function Word32(mem: Bytes, address: nat): nat
    requires address + 4 <= |mem|
  {
    var b0: nat, b1: nat, b2: nat, b3: nat := mem[address], mem[address + 1], mem[address + 2], mem[address + 3];
    b0 + 0x100 * b1 + 0x1_0000 * b2 + 0x100_0000 * b3
  }

  function Signed32(w: nat): int {
    if w >= 0x8000_0000 then w - 0x1_0000_0000 else w
  }

  function RequestAt(mem: Bytes, address: nat): Request
    requires address + REQUEST_SIZE <= |mem|
  {
    Request(Word32(mem, address), Signed32(Word32(mem, address + 4)), Word32(mem, address + 8),
            Signed32(Word32(mem, address + 12)), Signed32(Word32(mem, address + 16)),
            Signed32(Word32(mem, address + 20)))
  }

  /** Memory holds this 32-bit value, signed or unsigned, lowest byte first, in two's complement. */
  ghost predicate HoldsWord(mem: Bytes, address: nat, value: int) {
    && address + 4 <= |mem| && -0x8000_0000 <= value < 0x1_0000_0000
    && mem[address] == value % 0x100
    && mem[address + 1] == value / 0x100 % 0x100
    && mem[address + 2] == value / 0x1_0000 % 0x100
    && mem[address + 3] == value / 0x100_0000 % 0x100
  }

  /** Memory holds the request record at this address: six 32-bit fields, of which the operation and the
      buffer are unsigned and the others signed. */
  ghost predicate HoldsRecord(mem: Bytes, address: nat, req: Request) {
    && address + 24 <= |mem|
    && req.operation < 0x1_0000_0000 && req.buffer < 0x1_0000_0000
    && -0x8000_0000 <= req.descriptor < 0x8000_0000 && -0x8000_0000 <= req.count < 0x8000_0000
    && -0x8000_0000 <= req.offset < 0x8000_0000 && -0x8000_0000 <= req.flags < 0x8000_0000
    && HoldsWord(mem, address, req.operation)
    && HoldsWord(mem, address + 4, req.descriptor)
    && HoldsWord(mem, address + 8, req.buffer)
    && HoldsWord(mem, address + 12, req.count)
    && HoldsWord(mem, address + 16, req.offset)
    && HoldsWord(mem, address + 20, req.flags)
  }

  lemma DivideTwice(value: int)
    ensures value / 0x1_0000 == value / 0x100 / 0x100
    ensures value / 0x100_0000 == value / 0x100 / 0x100 / 0x100
  {
  }

  lemma OneDigit(low: int, rest: int)
    requires 0 <= low < 0x100
    ensures (low + 0x100 * rest) % 0x100 == low && (low + 0x100 * rest) / 0x100 == rest
  {
  }

  /** The bytes of a value are its digits to base 256. */
  lemma Digits(value: int)
    ensures value == value % 0x100 + 0x100 * (value / 0x100 % 0x100) + 0x1_0000 * (value / 0x1_0000 % 0x100) +
                     0x100_0000 * (value / 0x100_0000)
  {
    DivideTwice(value);
  }

  lemma HighByte(value: int)
    requires -0x8000_0000 <= value < 0x1_0000_0000
    ensures var high := value / 0x100_0000;
            -128 <= high < 256 && high % 0x100 == if value < 0 then high + 0x100 else high
  {
  }

  lemma WordDecoded(mem: Bytes, address: nat, value: int)
    requires HoldsWord(mem, address, value)
    ensures value >= 0 ==> Word32(mem, address) == value
    ensures -0x8000_0000 <= value < 0x8000_0000 ==> Signed32(Word32(mem, address)) == value
  {
    Digits(value);
    HighByte(value);
  }

  lemma DigitsOf(b0: int, b1: int, b2: int, b3: int)
    requires 0 <= b0 < 0x100 && 0 <= b1 < 0x100 && 0 <= b2 < 0x100
    ensures var v := b0 + 0x100 * b1 + 0x1_0000 * b2 + 0x100_0000 * b3;
            && v % 0x100 == b0 && v / 0x100 % 0x100 == b1 && v / 0x1_0000 % 0x100 == b2
            && v / 0x100_0000 == b3
  {
    var v := b0 + 0x100 * b1 + 0x1_0000 * b2 + 0x100_0000 * b3;
    var q := b1 + 0x100 * (b2 + 0x100 * b3);
    assert v == b0 + 0x100 * q;
    OneDigit(b0, q);
    OneDigit(b1, b2 + 0x100 * b3);
    OneDigit(b2, b3);
    DivideTwice(v);
  }

  lemma WordEncoded(mem: Bytes, address: nat)
    requires address + 4 <= |mem|
    ensures HoldsWord(mem, address, Word32(mem, address))
    ensures HoldsWord(mem, address, Signed32(Word32(mem, address)))
  {
    var b0: int, b1: int, b2: int, b3: int := mem[address], mem[address + 1], mem[address + 2], mem[address + 3];
    DigitsOf(b0, b1, b2, b3);
    DigitsOf(b0, b1, b2, b3 - 0x100);
  }

  /** Decoding is exact: what is decoded is the one request whose record memory holds. */
  lemma RecordDecoded(mem: Bytes, address: nat, req: Request)
    requires address + 24 <= |mem|
    ensures HoldsRecord(mem, address, req) <==> RequestAt(mem, address) == req
  {
    if HoldsRecord(mem, address, req) {
      WordDecoded(mem, address, req.operation);
      WordDecoded(mem, address + 4, req.descriptor);
      WordDecoded(mem, address + 8, req.buffer);
      WordDecoded(mem, address + 12, req.count);
      WordDecoded(mem, address + 16, req.offset);
      WordDecoded(mem, address + 20, req.flags);
    }
    WordEncoded(mem, address);
    WordEncoded(mem, address + 4);
    WordEncoded(mem, address + 8);
    WordEncoded(mem, address + 12);
    WordEncoded(mem, address + 16);
    WordEncoded(mem, address + 20);
  }

  /** The bytes a name may hold: A to Z or a to z first, then these, 0 to 9 and the dot. */
  ghost predicate Spelled(name: Name) {
    && |name| >= 1 && (65 <= name[0] <= 90 || 97 <= name[0] <= 122)
    && forall k :: 0 <= k < |name| ==>
         65 <= name[k] <= 90 || 97 <= name[k] <= 122 || 48 <= name[k] <= 57 || name[k] == 46
  }

  /** Memory holds this name at this address: at most 255 bytes, and a zero behind them. */
  ghost predicate SpelledAt(mem: Bytes, address: nat, name: Name) {
    && |name| <= 255 && address + |name| < |mem| && Spelled(name)
    && (forall k :: 0 <= k < |name| ==> mem[address + k] == name[k])
    && mem[address + |name|] == 0
  }

  lemma NamesAreSpelled(mem: Bytes, address: nat, name: Name)
    ensures IsNameAt(mem, address, name) <==> SpelledAt(mem, address, name)
  {
    if SpelledAt(mem, address, name) {
      assert mem[address..address + |name|] == name;
    }
    if IsNameAt(mem, address, name) {
      assert forall k :: 0 <= k < |name| ==> mem[address..address + |name|][k] == name[k];
    }
  }

  method IsValidGuestFileName(name: Name) returns (valid: bool)
    ensures valid <==> ValidName(name)
    ensures valid <==> Spelled(name)
  {
    if name == [] || !IsLetter(name[0]) {
      return false;
    }
    for k := 0 to |name|
      invariant forall j :: 0 <= j < k ==> IsLetter(name[j]) || IsDigit(name[j]) || name[j] == 46
    {
      if !IsLetter(name[k]) && !IsDigit(name[k]) && name[k] != 46 {
        return false;
      }
    }
    valid := true;
  }

  method ReadGuestFileName(mem: array<Byte>, address: nat) returns (name: Option<Name>)
    ensures name == NameAt(mem[..], address)
    ensures forall n: Name :: name == Some(n) <==> SpelledAt(mem[..], address, n)
  {
    forall n: Name
      ensures NameAt(mem[..], address) == Some(n) <==> SpelledAt(mem[..], address, n)
    {
      NamesAreSpelled(mem[..], address, n);
      if IsNameAt(mem[..], address, n) {
        NameAtIs(mem[..], address, n);
      }
    }
    if !InMemory(address, 1, mem.Length) {
      return None;
    }
    var available := mem.Length - address;
    var length := 0;
    while length <= FILE_NAME_MAX && length < available
      invariant 0 <= length <= available && length <= FILE_NAME_MAX + 1
      invariant forall k :: address <= k < address + length ==> mem[k] != 0
    {
      if mem[address + length] == 0 {
        var candidate := mem[address..address + length];
        var valid := IsValidGuestFileName(candidate);
        if valid {
          assert IsNameAt(mem[..], address, candidate);
          NameAtIs(mem[..], address, candidate);
          return Some(candidate);
        }
        forall n | IsNameAt(mem[..], address, n)
          ensures false
        {
          NameLength(mem[..], address, n, length);
        }
        return None;
      }
      length := length + 1;
    }
    name := None;
  }

  /** The name at an address ends at the first zero. */
  lemma NameLength(mem: Bytes, address: nat, name: Name, length: nat)
    requires IsNameAt(mem, address, name)
    requires address + length < |mem| && mem[address + length] == 0
    requires forall k :: address <= k < address + length ==> mem[k] != 0
    ensures name == mem[address..address + length]
  {
    assert mem[address + |name|] == 0;
    assert forall k :: 0 <= k < |name| ==> name[k] == mem[address + k];
  }

  class GuestFiles {
    const id: nat
    const host: Host
    const shared: SharedFiles
    var openFiles: Table
    var pendingResults: seq<int>
    var nextDescriptor: int

    constructor (id: nat, host: Host, shared: SharedFiles)
      requires SharedOk(shared, host.files)
      ensures this.id == id && this.host == host && this.shared == shared
      ensures Valid() && openFiles == map[] && pendingResults == [] && nextDescriptor == 3
    {
      this.id, this.host, this.shared := id, host, shared;
      openFiles, pendingResults, nextDescriptor := map[], [], 3;
    }

    ghost predicate Valid()
      reads this, host
    {
      TableOk(id, shared, host.files, host.open, openFiles, nextDescriptor)
    }

    /** The private file system the guest sees. */
    ghost function View(): Private
      reads this, host
      requires Valid()
    {
      ViewOf(id, shared, host.files, host.open, openFiles, nextDescriptor)
    }

    /** No descriptor but this VM's own is on a file of this VM. */
    ghost predicate SoleUser()
      reads this, host
    {
      OwnDirectory(id, host.open, Owned(openFiles))
    }

    /** The change of the host since an earlier state stays within this VM. */
    ghost predicate ConfinedSince(files: Files, open: Descriptors, table: Table)
      reads this, host
    {
      Confined(id, files, open, Owned(table), host.files, host.open, Owned(openFiles))
    }

    /** The existence test fails for the VM's own file of a shared name: the one failure of a host call
        that the code does not recover from. */
    ghost predicate MisledBy(name: Name, testFails: bool)
      reads this, host
    {
      testFails && name in shared && Local(id, name) in host.files
    }

    /** The same for a whole request; it can be told before the request is made. */
    ghost predicate Misled(mem: Bytes, req: Request, testFails: bool)
      reads this, host
    {
      && req.operation == OPERATION_OPEN && ValidFlags(req.flags)
      && NameAt(mem, req.buffer).Some? && MisledBy(NameAt(mem, req.buffer).value, testFails)
    }

    /** No open can be misled: the test works, or the VM has no file of its own of any shared name. */
    ghost predicate Trusts(testFails: bool)
      reads this, host
    {
      testFails ==> forall n :: n in shared ==> Local(id, n) !in host.files
    }

    /** What a misled open leaves: a descriptor on a shared original beside the VM's own file of that name. */
    ghost predicate Crossed(d: int)
      reads this, host
    {
      && d in openFiles && openFiles[d].shared && openFiles[d].hostPath in host.files
      && Local(id, openFiles[d].name) in host.files
    }

    /** `testFails` says whether the host's existence test fails; a failing test counts as "no". */
    method ResolveFile(name: Name, testFails: bool) returns (path: Path, isShared: bool)
      ensures isShared <==> name in shared && (Local(id, name) !in host.files || MisledBy(name, testFails))
      ensures path == if isShared then shared[name] else Local(id, name)
    {
      path := Local(id, name);
      if !testFails && path in host.files {
        return path, false;
      }
      if name in shared {
        return shared[name], true;
      }
      isShared := false;
    }

    /** The host calls of openFile: resolve the name, make the directory, open. */
    method OpenHostFile(name: Name, flags: int, testFails: bool)
      returns (fd: int, path: Path, isShared: bool, ghost fault: Fault)
      modifies host
      ensures isShared <==> name in shared && (Local(id, name) !in old(host.files) || old(MisledBy(name, testFails)))
      ensures path == if isShared then shared[name] else Local(id, name)
      ensures host.failures >= old(host.failures)
      ensures fault == NoFault || (fault == Refused && host.failures > old(host.failures))
      ensures fd < 0 ==> host.files == old(host.files) && host.open == old(host.open)
      ensures fd < 0 && fault == NoFault ==> path !in host.files && (isShared || !Creates(flags))
      ensures fd >= 0 ==>
                && fault == NoFault
                && (path in old(host.files) || (!isShared && Creates(flags)))
                && host.files == (if path in old(host.files) then old(host.files) else old(host.files)[path := []])
                && fd !in old(host.open)
                && host.open == old(host.open)[fd :=
                     HostFile(path, 0, isShared || CanRead(flags), !isShared && CanWrite(flags))]
    {
      path, isShared := ResolveFile(name, testFails);
      if !isShared && Creates(flags) {
        var failed := host.Fails();
        if failed {
          return -1, path, isShared, Refused;
        }
      }
      label beforeOpen:
      fd := host.Open(path,
        isShared || CanRead(flags), !isShared && CanWrite(flags), !isShared && Creates(flags));
      fault := if fd < 0 && host.failures > old@beforeOpen(host.failures) then Refused else NoFault;
    }

    /** The new host descriptor gets the next guest descriptor. */
    method AddDescriptor(file: FileTable.OpenFile) returns (descriptor: int)
      modifies this`openFiles, this`nextDescriptor
      ensures descriptor == old(nextDescriptor) && nextDescriptor == descriptor + 1
      ensures openFiles == old(openFiles)[descriptor := file]
    {
      descriptor := nextDescriptor;
      openFiles, nextDescriptor := openFiles[descriptor := file], nextDescriptor + 1;
    }

    /** After the open, for this VM. */
    lemma OpenedHere(files: Files, open: Descriptors, table: Table, next: int, name: Name, flags: int, fd: int,
                     path: Path, isShared: bool, mem: Bytes)
      requires TableOk(id, shared, files, open, table, next) && ValidFlags(flags) && fd !in open
      requires isShared <==> name in shared && Local(id, name) !in files
      requires path == if isShared then shared[name] else Local(id, name)
      requires path in files || (!isShared && Creates(flags))
      requires host.files == if path in files then files else files[path := []]
      requires host.open == open[fd := HostFile(path, 0, isShared || CanRead(flags), !isShared && CanWrite(flags))]
      requires openFiles == table[next := FileTable.OpenFile(fd, flags, name, path, isShared)]
      requires nextDescriptor == next + 1
      ensures Valid() && ConfinedSince(files, open, table)
      ensures Reply(View(), mem, next) == OpenNamed(ViewOf(id, shared, files, open, table, next), mem, name, flags)
    {
      OpenedView(id, shared, files, open, table, next, name, flags, fd, openFiles[next], host.open[fd], host.files,
                 mem);
    }

    /** A name that is neither the VM's own nor shared does not exist in the guest's view. */
    lemma UnresolvedName(name: Name, flags: int, mem: Bytes)
      requires Valid() && ResolvedPath(id, shared, host.files, name) !in host.files
      requires !Creates(flags)
      ensures OpenNamed(View(), mem, name, flags) == Reply(View(), mem, -1)
    {
    }

    /** The part of openFile after the flags and the name have been accepted. */
    method OpenName(name: Name, flags: int, testFails: bool, ghost mem: Bytes)
      returns (result: int, ghost fault: Fault)
      requires Valid() && ValidFlags(flags)
      modifies this`openFiles, this`nextDescriptor, host
      ensures fault == NoFault || (fault == Refused && host.failures > old(host.failures))
      ensures host.failures >= old(host.failures)
      ensures !old(MisledBy(name, testFails)) || result < 0 ==>
                && Valid() && ConfinedSince(old(host.files), old(host.open), old(openFiles))
                && Reply(View(), mem, result) ==
                   if fault.Refused? then Reply(old(View()), mem, -1) else OpenNamed(old(View()), mem, name, flags)
      ensures old(MisledBy(name, testFails)) && result >= 0 ==>
                && host.files == old(host.files) && result == old(nextDescriptor)
                && Crossed(result) && openFiles[result].name == name && openFiles[result].flags == flags
    {
      var fd, path, isShared;
      fd, path, isShared, fault := OpenHostFile(name, flags, testFails);
      if fd >= 0 {
        ghost var next, table := nextDescriptor, openFiles;
        result := AddDescriptor(FileTable.OpenFile(fd, flags, name, path, isShared));
        if !old(MisledBy(name, testFails)) {
          OpenedHere(old(host.files), old(host.open), table, next, name, flags, fd, path, isShared, mem);
        }
      } else {
        result := -1;
        if fault.NoFault? {
          UnresolvedName(name, flags, mem);
        }
      }
    }

    /** Opening a file is opening it in the private system, unless the existence test misleads it. */
    method OpenFile(mem: array<Byte>, req: Request, testFails: bool) returns (result: int, ghost fault: Fault)
      requires Valid() && req.operation == OPERATION_OPEN
      modifies this`openFiles, this`nextDescriptor, host
      ensures fault == NoFault || (fault == Refused && host.failures > old(host.failures))
      ensures host.failures >= old(host.failures)
      ensures !old(Misled(mem[..], req, testFails)) || result < 0 ==>
                && Valid() && ConfinedSince(old(host.files), old(host.open), old(openFiles))
                && Reply(View(), mem[..], result) ==
                   if fault.Refused? then Reply(old(View()), mem[..], -1) else Open(old(View()), mem[..], req)
      ensures old(Misled(mem[..], req, testFails)) && result >= 0 ==>
                && host.files == old(host.files) && result == old(nextDescriptor)
                && Crossed(result) && openFiles[result].flags == req.flags
                && NameAt(mem[..], req.buffer) == Some(openFiles[result].name)
    {
      if !ValidFlags(req.flags) {
        return -1, NoFault;
      }
      var name := ReadGuestFileName(mem, req.buffer);
      if name.None? {
        return -1, NoFault;
      }
      result, fault := OpenName(name.value, req.flags, testFails, mem[..]);
    }

    method CloseFile(mem: array<Byte>, descriptor: int) returns (result: int, ghost fault: Fault)
      requires Valid()
      modifies this`openFiles, host
      ensures Valid() && ConfinedSince(old(host.files), old(host.open), old(openFiles))
      ensures fault == NoFault || (fault == Refused && host.failures > old(host.failures))
      ensures host.failures >= old(host.failures)
      ensures var r := Close(old(View()), mem[..], descriptor);
              Reply(View(), mem[..], result) == if fault.Refused? then r.(result := -1) else r
      ensures host.files == old(host.files)
      ensures if descriptor in old(openFiles) then
                && openFiles == old(openFiles) - {descriptor}
                && host.open == old(host.open) - {old(openFiles)[descriptor].hostDescriptor}
                && (result == 0 <==> fault.NoFault?)
              else
                openFiles == old(openFiles) && host.open == old(host.open) && result == -1
    {
      fault := NoFault;
      if descriptor !in openFiles {
        return -1, fault;
      }
      ClosedView(id, shared, host.files, host.open, openFiles, nextDescriptor, descriptor);
      var closed := host.Close(openFiles[descriptor].hostDescriptor);
      openFiles := openFiles - {descriptor};
      if closed == 0 {
        result := 0;
      } else {
        result, fault := -1, Refused;
      }
    }

    method ReadFile(mem: array<Byte>, req: Request) returns (result: int, ghost fault: Fault)
      requires Valid()
      modifies host, mem
      ensures Valid() && ConfinedSince(old(host.files), old(host.open), old(openFiles))
      ensures fault == NoFault || (fault == Refused && host.failures > old(host.failures))
      ensures host.failures >= old(host.failures)
      ensures Reply(View(), mem[..], result) ==
              if fault.Refused? then Reply(old(View()), old(mem[..]), -1) else Read(old(View()), old(mem[..]), req)
    {
      fault := NoFault;
      if req.descriptor !in openFiles || !CanRead(openFiles[req.descriptor].flags) || req.count < 0 {
        return -1, fault;
      }
      if req.count == 0 {
        return 0, fault;
      }
      if !InMemory(req.buffer, req.count, mem.Length) {
        return -1, fault;
      }
      result, fault := ReadBytes(mem, req);
    }

    /** The host read of readFile. */
    method ReadBytes(mem: array<Byte>, req: Request) returns (result: int, ghost fault: Fault)
      requires Valid() && req.descriptor in openFiles && CanRead(openFiles[req.descriptor].flags)
      requires req.count > 0 && InMemory(req.buffer, req.count, mem.Length)
      modifies host, mem
      ensures Valid() && ConfinedSince(old(host.files), old(host.open), openFiles)
      ensures fault == NoFault || (fault == Refused && host.failures > old(host.failures))
      ensures host.failures >= old(host.failures)
      ensures Reply(View(), mem[..], result) ==
              if fault.Refused? then Reply(old(View()), old(mem[..]), -1) else Read(old(View()), old(mem[..]), req)
    {
      var file := openFiles[req.descriptor];
      assert FileOk(id, shared, host.files, host.open, file);
      result := host.Read(file.hostDescriptor, mem, req.buffer, req.count);
      if result < 0 {
        return -1, Refused;
      }
      fault := NoFault;
      ReadView(id, shared, old(host.files), old(host.open), openFiles, nextDescriptor, old(mem[..]), req,
               file.hostDescriptor, old(host.open)[file.hostDescriptor], result, host.open, mem[..]);
    }

    method SeekFile(mem: array<Byte>, req: Request) returns (result: int, ghost fault: Fault)
      requires Valid()
      modifies host
      ensures Valid() && ConfinedSince(old(host.files), old(host.open), old(openFiles))
      ensures fault == NoFault || (fault == Refused && host.failures > old(host.failures))
      ensures host.failures >= old(host.failures)
      ensures Reply(View(), mem[..], result) ==
              if fault.Refused? then Reply(old(View()), mem[..], -1) else Seek(old(View()), mem[..], req)
    {
      fault := NoFault;
      if req.descriptor !in openFiles {
        return -1, fault;
      }
      var fd := openFiles[req.descriptor].hostDescriptor;
      assert FileOk(id, shared, host.files, host.open, openFiles[req.descriptor]);
      ViewContent(id, shared, host.files, host.open, openFiles, nextDescriptor, req.descriptor);
      var position: int;
      if req.flags == SEEK_SET {
        position := host.SeekTo(fd, req.offset);
      } else if req.flags == SEEK_END {
        position := host.SeekToEnd(fd);
      } else {
        return -1, fault;
      }
      if position < 0 {
        return -1, if req.flags == SEEK_SET && req.offset < 0 then NoFault else Refused;
      }
      MovedView(id, shared, old(host.files), old(host.open), openFiles, nextDescriptor, req.descriptor, position);
      result := if position > INT_MAX then -1 else position;
    }

    // ----- copy-on-write

    method CloseReopenedFiles(reopened: set<int>)
      requires reopened <= host.open.Keys
      modifies host`open, host`failures
      ensures host.open == old(host.open) - reopened
      ensures host.failures >= old(host.failures)
    {
      var todo := reopened;
      while todo != {}
        invariant todo <= reopened && todo <= host.open.Keys
        invariant host.open == old(host.open) - (reopened - todo)
        invariant host.failures >= old(host.failures)
        decreases |todo|
      {
        HasElement(todo);
        var fd :| fd in todo;
        var _ := host.Close(fd);
        todo := todo - {fd};
      }
    }

    /** First half of reopenSharedFiles: every shared descriptor of the name is opened once more on the
        local copy, at the offset it has; on a failure all these are closed again. */
    method ReopenEach(name: Name) returns (ok: bool, moved: map<int, int>)
      requires Local(id, name) in host.files
      requires forall d :: d in openFiles ==> openFiles[d].hostDescriptor in host.open
      modifies host
      ensures host.files == old(host.files) && host.failures >= old(host.failures)
      ensures ok ==> Reopened(id, old(host.open), host.open, openFiles, name, moved)
      ensures ok ==> forall d :: d in openFiles ==> (d in moved <==> Matches(openFiles[d], name))
      ensures !ok ==> host.open == old(host.open) && host.failures > old(host.failures)
    {
      moved := map[];
      var todo := openFiles.Keys;
      while todo != {}
        invariant todo <= openFiles.Keys
        invariant host.files == old(host.files) && host.failures >= old(host.failures)
        invariant Reopened(id, old(host.open), host.open, openFiles, name, moved)
        invariant forall d :: d in openFiles ==> (d in moved <==> d !in todo && Matches(openFiles[d], name))
        decreases |todo|
      {
        HasElement(todo);
        var d :| d in todo;
        todo := todo - {d};
        var file := openFiles[d];
        if file.shared && file.name == name {
          ok, moved := ReopenNext(d, name, moved, old(host.open));
          if !ok {
            return;
          }
        }
      }
      ok := true;
    }

    /** One matching descriptor more, or all of them closed again. */
    method ReopenNext(d: int, name: Name, moved: map<int, int>, ghost open: Descriptors)
      returns (ok: bool, more: map<int, int>)
      requires Local(id, name) in host.files
      requires d in openFiles && d !in moved && Matches(openFiles[d], name) && openFiles[d].hostDescriptor in open
      requires Reopened(id, open, host.open, openFiles, name, moved)
      modifies host
      ensures host.files == old(host.files) && host.failures >= old(host.failures)
      ensures ok ==> Reopened(id, open, host.open, openFiles, name, more) && more.Keys == moved.Keys + {d}
      ensures !ok ==> host.open == open && host.failures > old(host.failures)
    {
      ghost var before := host.open;
      var fd := ReopenOne(openFiles[d], Local(id, name));
      if fd < 0 {
        RolledBack(id, open, host.open, openFiles, name, moved);
        assert Targets(moved) <= host.open.Keys;
        CloseReopenedFiles(set e | e in moved :: moved[e]);
        return false, moved;
      }
      ReopenedOneMore(id, open, before, openFiles, name, moved, d, fd);
      ok, more := true, moved[d := fd];
    }

    /** Opens one file again at the position the given descriptor has; -1 leaves nothing open. */
    method ReopenOne(file: OpenFile, localPath: Path) returns (fd: int)
      requires localPath in host.files && file.hostDescriptor in host.open
      modifies host
      ensures host.files == old(host.files) && host.failures >= old(host.failures)
      ensures fd < 0 ==> host.open == old(host.open) && host.failures > old(host.failures)
      ensures fd >= 0 ==>
                && fd !in old(host.open)
                && host.open == old(host.open)[fd := HostFile(localPath, old(host.open)[file.hostDescriptor].offset,
                                                              CanRead(file.flags), CanWrite(file.flags))]
    {
      var offset := host.Tell(file.hostDescriptor);
      if offset < 0 {
        return -1;
      }
      fd := host.Open(localPath, CanRead(file.flags), CanWrite(file.flags), Creates(file.flags));
      if fd < 0 {
        return -1;
      }
      var position := host.SeekTo(fd, offset);
      if position < 0 {
        var _ := host.Close(fd);
        assert host.open == old(host.open);
        return -1;
      }
    }

    /** Second half: the old host descriptors are closed and the table points at the copies. */
    method CommitReopened(name: Name, moved: map<int, int>)
      requires moved.Keys <= openFiles.Keys && Distinct(openFiles)
      requires forall d :: d in moved ==> openFiles[d].hostDescriptor in host.open
      modifies this`openFiles, host`open, host`failures
      ensures openFiles == MovedTable(id, old(openFiles), name, moved)
      ensures OldClosed(old(openFiles), moved, old(host.open), host.open)
      ensures host.failures >= old(host.failures)
    {
      var todo := moved.Keys;
      while todo != {}
        invariant todo <= moved.Keys
        invariant openFiles == MovedTable(id, old(openFiles), name, Except(moved, todo))
        invariant OldClosed(old(openFiles), Except(moved, todo), old(host.open), host.open)
        invariant host.failures >= old(host.failures)
        decreases |todo|
      {
        HasElement(todo);
        var d :| d in todo;
        CommittedOneMore(id, old(openFiles), name, moved, todo, d, old(host.open), host.open, openFiles);
        var _ := host.Close(openFiles[d].hostDescriptor);
        openFiles := openFiles[d :=
          openFiles[d].(hostDescriptor := moved[d], hostPath := Local(id, name), shared := false)];
        todo := todo - {d};
      }
      assert Except(moved, {}) == moved;
    }

    /** Both halves: `reopened` is what was open in between. */
    method MoveDescriptors(name: Name) returns (ok: bool, moved: map<int, int>, ghost reopened: Descriptors)
      requires Local(id, name) in host.files && Distinct(openFiles)
      requires forall d :: d in openFiles ==> openFiles[d].hostDescriptor in host.open
      modifies this`openFiles, host
      ensures host.files == old(host.files) && host.failures >= old(host.failures)
      ensures ok ==> Reopened(id, old(host.open), reopened, old(openFiles), name, moved)
      ensures ok ==> forall d :: d in old(openFiles) ==> (d in moved <==> Matches(old(openFiles)[d], name))
      ensures ok ==> OldClosed(old(openFiles), moved, reopened, host.open)
      ensures ok ==> openFiles == MovedTable(id, old(openFiles), name, moved)
      ensures !ok ==> openFiles == old(openFiles) && host.open == old(host.open) && host.failures > old(host.failures)
    {
      ok, moved := ReopenEach(name);
      reopened := host.open;
      if ok {
        forall d | d in moved.Keys
          ensures d in openFiles.Keys
        {
          assert d in moved;
        }
        CommitReopened(name, moved);
      }
    }

    /** All shared descriptors of a name move to the local copy, or none does. */
    method ReopenSharedFiles(name: Name, ghost files: Files) returns (ok: bool)
      requires TableOk(id, shared, files, host.open, openFiles, nextDescriptor)
      requires name in shared && Local(id, name) !in files
      requires host.files == files[Local(id, name) := files[shared[name]]]
      modifies this`openFiles, host
      ensures host.files == old(host.files) && host.failures >= old(host.failures)
      ensures ok ==> Valid() && View() == ViewOf(id, shared, files, old(host.open), old(openFiles), nextDescriptor)
      ensures ok ==> ConfinedSince(files, old(host.open), old(openFiles))
      ensures ok ==> AllMoved(id, old(openFiles), openFiles, name)
      ensures !ok ==> openFiles == old(openFiles) && host.open == old(host.open)
      ensures !ok ==> host.failures > old(host.failures) || forall d :: d in openFiles ==> !Matches(openFiles[d], name)
    {
      forall d | d in openFiles
        ensures openFiles[d].hostDescriptor in host.open
      {
        assert FileOk(id, shared, files, host.open, openFiles[d]);
      }
      var moved; ghost var reopened;
      ok, moved, reopened := MoveDescriptors(name);
      if ok {
        PrivatisedView(id, shared, files, old(host.open), old(openFiles), nextDescriptor, name, moved, reopened,
                       host.open);
        PrivatisedConfined(id, shared, files, old(host.open), old(openFiles), nextDescriptor, name, moved, reopened,
                           host.open);
        if moved == map[] {
          NothingReopened(id, old(host.open), reopened, host.open, old(openFiles), name);
          ok := false;
        }
      }
    }

    /** Makes the VM's directory and copies the original there. What is in the copy's place when the copying
        fails is removed: a part of the copy, or a file that was there before. */
    method CopyOriginal(original: Path, copy: Path) returns (ok: bool)
      requires original in host.files
      requires copy in host.files || forall fd :: fd in host.open ==> host.open[fd].path != copy
      modifies host`files, host`failures
      ensures host.failures >= old(host.failures)
      ensures copy !in old(host.files) ==>
                if ok then host.files == old(host.files)[copy := old(host.files)[original]]
                else host.files == old(host.files) && host.failures > old(host.failures)
      ensures copy in old(host.files) ==>
                !ok && (host.failures == old(host.failures) ==> host.files == old(host.files) - {copy})
    {
      var failed := host.Fails();
      if failed {
        return false;
      }
      ok := host.CopyFile(original, copy);
      if !ok {
        host.Remove(copy);
        assert copy !in old(host.files) ==> host.files == old(host.files);
      }
    }

    /** The fresh copy is made writable and takes the original's place, or is removed again. */
    method AdoptCopy(d: int, ghost files: Files) returns (ok: bool)
      requires TableOk(id, shared, files, host.open, openFiles, nextDescriptor)
      requires d in openFiles && openFiles[d].shared
      requires host.files == files[Local(id, openFiles[d].name) := files[openFiles[d].hostPath]]
      requires forall fd :: fd in host.open ==> host.open[fd].path != Local(id, openFiles[d].name)
      modifies this`openFiles, host
      ensures host.failures >= old(host.failures)
      ensures Valid() && View() == ViewOf(id, shared, files, old(host.open), old(openFiles), nextDescriptor)
      ensures ok ==> ConfinedSince(files, old(host.open), old(openFiles))
      ensures ok ==> AllMoved(id, old(openFiles), openFiles, old(openFiles)[d].name)
      ensures !ok ==> openFiles == old(openFiles) && host.open == old(host.open) && host.files == files
      ensures !ok ==> host.failures > old(host.failures)
    {
      var name := openFiles[d].name;
      assert FileOk(id, shared, files, host.open, openFiles[d]);
      var failed := host.Fails();
      if !failed {
        ok := ReopenSharedFiles(name, files);
      }
      if failed || !ok {
        assert forall fd :: fd in host.open ==> host.open[fd].path != Local(id, name);
        host.Remove(Local(id, name));
        assert host.files == files;
        assert Matches(openFiles[d], name);
        return false;
      }
    }

    /** Before a write the file is made private to the VM. The guest's view never changes; when it
        fails, neither does anything else. Only after a misled open this is false: the copy finds the
        VM's own file in its place, fails, and the code removes that file. */
    method PrepareFileForWrite(d: int) returns (ok: bool)
      requires (Valid() && SoleUser() && d in openFiles) || Crossed(d)
      modifies this`openFiles, host
      ensures host.failures >= old(host.failures)
      ensures old(Valid()) ==>
                && Valid() && View() == old(View())
                && ConfinedSince(old(host.files), old(host.open), old(openFiles))
      ensures old(Valid()) && ok ==>
                && d in openFiles && !openFiles[d].shared
                && if old(openFiles)[d].shared then AllMoved(id, old(openFiles), openFiles, old(openFiles)[d].name)
                   else openFiles == old(openFiles)
      ensures !ok ==> openFiles == old(openFiles) && host.open == old(host.open)
      ensures old(Valid()) && !ok ==> host.failures > old(host.failures) && host.files == old(host.files)
      ensures old(Crossed(d)) ==> !ok
      ensures old(Crossed(d)) && host.failures == old(host.failures) ==>
                host.files == old(host.files) - {Local(id, old(openFiles)[d].name)}
    {
      if !openFiles[d].shared {
        return true;
      }
      var name := openFiles[d].name;
      if !Crossed(d) {
        assert FileOk(id, shared, host.files, host.open, openFiles[d]);
        NobodyOn(id, shared, host.files, host.open, openFiles, nextDescriptor, name);
      }
      ok := CopyOriginal(openFiles[d].hostPath, Local(id, name));
      if ok {
        ok := AdoptCopy(d, old(host.files));
      }
    }

    method WriteFile(mem: array<Byte>, req: Request) returns (result: int, ghost fault: Fault)
      requires (Valid() && SoleUser()) || (Crossed(req.descriptor) && CanWrite(openFiles[req.descriptor].flags))
      modifies this`openFiles, host
      ensures host.failures >= old(host.failures)
      ensures old(Valid()) ==>
                && Valid() && ConfinedSince(old(host.files), old(host.open), old(openFiles))
                && (fault == NoFault || host.failures > old(host.failures))
                && match fault
                   case NoFault => Reply(View(), mem[..], result) == Write(old(View()), mem[..], req)
                   case Refused => Reply(View(), mem[..], result) == Reply(old(View()), mem[..], -1)
                   case ShortWrite(n) =>
                     && 0 < n < req.count && InMemory(req.buffer, req.count, mem.Length)
                     && Reply(View(), mem[..], result) == Write(old(View()), mem[..], req.(count := n))
      ensures old(Crossed(req.descriptor)) && req.count >= 0 ==>
                && result == -1
                && (host.failures == old(host.failures) ==>
                      host.files == old(host.files) - {Local(id, old(openFiles)[req.descriptor].name)})
    {
      var d := req.descriptor;
      if d !in openFiles || !CanWrite(openFiles[d].flags) || req.count < 0 {
        return -1, NoFault;
      }
      var prepared := PrepareFileForWrite(d);
      if !prepared {
        return -1, Refused;
      }
      if req.count == 0 {
        return 0, NoFault;
      }
      if !InMemory(req.buffer, req.count, mem.Length) {
        return -1, NoFault;
      }
      ghost var files, open, table := host.files, host.open, openFiles;
      result, fault := WritePrivate(mem, req);
      ConfinedTransitive(id, old(host.files), old(host.open), Owned(old(openFiles)), files, open, Owned(table),
                         host.files, host.open, Owned(openFiles));
    }

    /** The host write of writeFile, once the descriptor is on the VM's own file. */
    method WritePrivate(mem: array<Byte>, req: Request) returns (result: int, ghost fault: Fault)
      requires Valid() && req.descriptor in openFiles && !openFiles[req.descriptor].shared
      requires CanWrite(openFiles[req.descriptor].flags)
      requires req.count > 0 && InMemory(req.buffer, req.count, mem.Length)
      modifies host
      ensures Valid() && ConfinedSince(old(host.files), old(host.open), openFiles)
      ensures fault == NoFault || host.failures > old(host.failures)
      ensures host.failures >= old(host.failures)
      ensures match fault
              case NoFault => Reply(View(), mem[..], result) == Write(old(View()), mem[..], req)
              case Refused => Reply(View(), mem[..], result) == Reply(old(View()), mem[..], -1)
              case ShortWrite(n) =>
                0 < n < req.count && Reply(View(), mem[..], result) == Write(old(View()), mem[..], req.(count := n))
    {
      var d := req.descriptor;
      assert FileOk(id, shared, host.files, host.open, openFiles[d]);
      result := host.Write(openFiles[d].hostDescriptor, mem, req.buffer, req.count);
      if result < 0 {
        return -1, Refused;
      }
      ghost var data := mem[..][req.buffer..req.buffer + result];
      assert data == mem[req.buffer..req.buffer + result];
      WrittenView(id, shared, old(host.files), old(host.open), openFiles, nextDescriptor, d, data, mem[..],
                  host.files, host.open);
      WriteOf(old(View()), mem[..], req, result);
      fault := if result < req.count then ShortWrite(result) else NoFault;
    }

    /** Every request, whatever it asks for, unless the existence test misleads it: the guest's view, its
        memory and its result are those of the private system under the same fault, and there is no
        fault unless a host call failed. */
    method ProcessFileRequest(mem: array<Byte>, req: Request, testFails: bool)
      returns (result: int, ghost fault: Fault)
      requires Valid() && SoleUser()
      modifies this`openFiles, this`nextDescriptor, host, mem
      ensures fault == NoFault || host.failures > old(host.failures)
      ensures host.failures >= old(host.failures)
      ensures !old(Misled(mem[..], req, testFails)) ==>
                && Valid() && SoleUser() && ConfinedSince(old(host.files), old(host.open), old(openFiles))
                && Reply(View(), mem[..], result) == Step(old(View()), old(mem[..]), req, fault)
    {
      if req.operation == OPERATION_OPEN {
        result, fault := OpenFile(mem, req, testFails);
      } else {
        result, fault := ProcessOther(mem, req);
      }
      if !old(Misled(mem[..], req, testFails)) {
        OwnDirectoryKept(id, old(host.files), old(host.open), Owned(old(openFiles)),
                         host.files, host.open, Owned(openFiles));
      }
    }

    /** The requests that do not resolve a name. */
    method ProcessOther(mem: array<Byte>, req: Request) returns (result: int, ghost fault: Fault)
      requires Valid() && SoleUser() && req.operation != OPERATION_OPEN
      modifies this`openFiles, host, mem
      ensures fault == NoFault || host.failures > old(host.failures)
      ensures host.failures >= old(host.failures)
      ensures Valid() && ConfinedSince(old(host.files), old(host.open), old(openFiles))
      ensures Reply(View(), mem[..], result) == Step(old(View()), old(mem[..]), req, fault)
    {
      result, fault := -1, NoFault;
      if req.operation == OPERATION_CLOSE {
        result, fault := CloseFile(mem, req.descriptor);
      } else if req.operation == OPERATION_READ {
        result, fault := ReadFile(mem, req);
      } else if req.operation == OPERATION_WRITE {
        result, fault := WriteFile(mem, req);
      } else if req.operation == OPERATION_LSEEK {
        result, fault := SeekFile(mem, req);
      }
    }

    /** The request an OUT asks for is misled. */
    ghost predicate MisledOut(mem: Bytes, io: Io, testFails: bool)
      reads this, host
    {
      && io.direction == Out && InMemory(io.payload, REQUEST_SIZE, |mem|)
      && Misled(mem, RequestAt(mem, io.payload), testFails)
    }

    /** The guest sees and gets this reply. */
    ghost predicate Replied(mem: Bytes, result: int, reply: Reply)
      reads this, host
    {
      Valid() && Reply(View(), mem, result) == reply
    }

    /** The file port: an OUT performs the request whose record is at the address it carries and stacks
        its result, an IN takes the latest result off the stack. */
    method HandleFileIo(mem: array<Byte>, io: Io, testFails: bool)
      returns (handled: bool, value: int, ghost fault: Fault)
      requires Valid() && SoleUser()
      modifies this, host, mem
      ensures fault == NoFault || host.failures > old(host.failures)
      ensures handled <==> io.port == 0x278 && io.size == 4 && io.count == 1
      ensures !old(MisledOut(mem[..], io, testFails)) ==>
                Valid() && SoleUser() && ConfinedSince(old(host.files), old(host.open), old(openFiles))
      ensures handled && io.direction == Out ==>
                && |pendingResults| == |old(pendingResults)| + 1
                && pendingResults == FilePort.StackAfter(old(pendingResults),
                                       [FilePort.Out(pendingResults[|old(pendingResults)|])])
                && (forall req: Request ::
                      HoldsRecord(old(mem[..]), io.payload, req) && !old(Misled(mem[..], req, testFails)) ==>
                        Replied(mem[..], pendingResults[|old(pendingResults)|],
                                Step(old(View()), old(mem[..]), req, fault)))
                && (io.payload + 24 > mem.Length ==>
                      Replied(mem[..], pendingResults[|old(pendingResults)|], Reply(old(View()), old(mem[..]), -1)))
      ensures !handled || io.direction == In ==> Valid() && View() == old(View()) && mem[..] == old(mem[..])
      ensures handled && io.direction == In ==>
                && value == FilePort.ValueIn(old(pendingResults), [FilePort.In], 0)
                && pendingResults == FilePort.StackAfter(old(pendingResults), [FilePort.In])
    {
      fault, value := NoFault, 0;
      if io.port != FILE_IO_PORT || io.size != 4 || io.count != 1 {
        return false, value, fault;
      }
      handled := true;
      if io.direction == Out {
        forall req: Request | HoldsRecord(mem[..], io.payload, req)
          ensures RequestAt(mem[..], io.payload) == req
        {
          RecordDecoded(mem[..], io.payload, req);
        }
        var result := -1;
        if InMemory(io.payload, REQUEST_SIZE, mem.Length) {
          result, fault := ProcessFileRequest(mem, RequestAt(mem[..], io.payload), testFails);
        }
        FilePort.OneOperation(pendingResults, FilePort.Out(result));
        pendingResults := pendingResults + [result];
      } else {
        value := -1;
        FilePort.OneOperation(pendingResults, FilePort.In);
        if pendingResults != [] {
          value := pendingResults[|pendingResults| - 1];
          pendingResults := pendingResults[..|pendingResults| - 1];
        }
      }
    }

    /** When the VM is done: each of its host descriptors is closed once and no other. */
    method CloseGuestFiles()
      requires Valid()
      modifies this`openFiles, host`open, host`failures
      ensures Valid() && openFiles == map[] && host.open == old(host.open) - Owned(old(openFiles))
      ensures forall fd :: fd in host.open <==>
                fd in old(host.open) && forall d :: d in old(openFiles) ==> old(openFiles)[d].hostDescriptor != fd
    {
      var todo := openFiles.Keys;
      while todo != {}
        invariant todo <= openFiles.Keys && openFiles == old(openFiles)
        invariant host.open == old(host.open) - Owned(openFiles - todo)
        decreases |todo|
      {
        HasElement(todo);
        var d :| d in todo;
        assert FileOk(id, shared, host.files, old(host.open), openFiles[d]);
        ClosedOneMore(openFiles, todo, d, old(host.open), host.open);
        var _ := host.Close(openFiles[d].hostDescriptor);
        todo := todo - {d};
      }
      assert openFiles - {} == openFiles;
      openFiles := map[];
    }
  }
}
