/** The simple system the guest file layer stands for: one VM with a private file system of its own,
    holding from the start a private copy of every shared file, and a table of descriptors with one
    offset each. Requests read and write guest memory directly. */
module PrivateFiles {
  import opened Options
  import opened Protocol

  type Bytes = seq<Byte>
  type Name = seq<Byte>

  const FILE_NAME_MAX: nat := 255
  const INT_MAX: int := 0x7fff_ffff

  const OPERATION_OPEN: nat := 1
  const OPERATION_CLOSE: nat := 2
  const OPERATION_READ: nat := 3
  const OPERATION_WRITE: nat := 4
  const OPERATION_LSEEK: nat := 5

  const SEEK_SET: int := 1
  const SEEK_END: int := 2

  datatype Request = Request(operation: nat, descriptor: int, buffer: nat, count: int, offset: int, flags: int)

  // ----- names

  predicate IsLetter(c: Byte) {
    97 <= c <= 122 || 65 <= c <= 90
  }

  predicate IsDigit(c: Byte) {
    48 <= c <= 57
  }

  /** Letters, digits and dots, starting with a letter. */
  predicate ValidName(name: Name) {
    && name != [] && IsLetter(name[0])
    && forall k :: 0 <= k < |name| ==> IsLetter(name[k]) || IsDigit(name[k]) || name[k] == 46
  }

  predicate InMemory(address: nat, size: nat, memorySize: nat) {
    address <= memorySize && size <= memorySize - address
  }

  /** Guest memory holds this name, terminated, at this address. */
  predicate IsNameAt(mem: Bytes, address: nat, name: Name) {
    && |name| <= FILE_NAME_MAX && address + |name| < |mem|
    && mem[address..address + |name|] == name && mem[address + |name|] == 0
    && ValidName(name)
  }

  ghost function NameAt(mem: Bytes, address: nat): Option<Name> {
    if exists name :: IsNameAt(mem, address, name) then
      var name :| IsNameAt(mem, address, name); Some(name)
    else None
  }

  /** A valid name contains no terminator, so at most one name is found at an address. */
  lemma NameAtIs(mem: Bytes, address: nat, name: Name)
    requires IsNameAt(mem, address, name)
    ensures NameAt(mem, address) == Some(name)
  {
    var name' := NameAt(mem, address).value;
    assert forall k :: 0 <= k < |name| ==> name[k] == mem[address + k];
    assert forall k :: 0 <= k < |name'| ==> name'[k] == mem[address + k];
    assert |name| == |name'|;
  }

  // ----- open flags: READ 1, WRITE 2 or READ_WRITE 4, with CREATE 8 or without

  predicate ValidFlags(flags: int) {
    flags == 1 || flags == 2 || flags == 4 || flags == 9 || flags == 10 || flags == 12
  }

  predicate CanRead(flags: int) {
    flags == 1 || flags == 4 || flags == 9 || flags == 12
  }

  predicate CanWrite(flags: int) {
    flags == 2 || flags == 4 || flags == 10 || flags == 12
  }

  predicate Creates(flags: int) {
    flags == 9 || flags == 10 || flags == 12
  }

  /** The same, by masking: the low three bits of a two's complement integer are its remainder
      modulo 8, and no bit outside the low four is set iff it lies in 0..15. */
  lemma FlagsAreBitFields(flags: int)
    ensures ValidFlags(flags) <==> 0 <= flags < 16 && flags % 8 in {1, 2, 4}
    ensures ValidFlags(flags) ==>
              && (CanRead(flags) <==> flags % 8 in {1, 4})
              && (CanWrite(flags) <==> flags % 8 in {2, 4})
              && (Creates(flags) <==> flags / 8 % 2 == 1)
  {
  }

  // ----- file contents

  /** POSIX write at an offset: overwrites, extends, and fills a gap with zeros. */
  function Overwrite(content: Bytes, offset: nat, data: Bytes): Bytes {
    if offset > |content| then content + Zeros(offset - |content|) + data
    else if offset + |data| < |content| then content[..offset] + data + content[offset + |data|..]
    else content[..offset] + data
  }

  /** How many bytes a read of `count` bytes at `offset` returns. */
  function Available(content: Bytes, offset: nat, count: nat): nat {
    if offset >= |content| then 0 else Min(count, |content| - offset)
  }

  function Store(mem: Bytes, address: nat, data: Bytes): (r: Bytes)
    requires address + |data| <= |mem|
    ensures |r| == |mem|
  {
    mem[..address] + data + mem[address + |data|..]
  }

  // ----- the private system

  datatype Handle = Handle(name: Name, flags: int, offset: nat)
  datatype Private = Private(files: map<Name, Bytes>, open: map<int, Handle>, next: int)

  /** What a request leaves behind and returns. */
  datatype Reply = Reply(fs: Private, mem: Bytes, result: int)

  function Content(p: Private, name: Name): Bytes {
    if name in p.files then p.files[name] else []
  }

  function OpenNamed(p: Private, mem: Bytes, name: Name, flags: int): Reply {
    if name !in p.files && !Creates(flags) then Reply(p, mem, -1)
    else
      Reply(Private(if name in p.files then p.files else p.files[name := []],
                    p.open[p.next := Handle(name, flags, 0)], p.next + 1), mem, p.next)
  }

  ghost function Open(p: Private, mem: Bytes, req: Request): Reply {
    if !ValidFlags(req.flags) then Reply(p, mem, -1)
    else match NameAt(mem, req.buffer)
      case None => Reply(p, mem, -1)
      case Some(name) => OpenNamed(p, mem, name, req.flags)
  }

  function Close(p: Private, mem: Bytes, d: int): Reply {
    if d !in p.open then Reply(p, mem, -1) else Reply(p.(open := p.open - {d}), mem, 0)
  }

  function Read(p: Private, mem: Bytes, req: Request): Reply {
    var d := req.descriptor;
    if d !in p.open || !CanRead(p.open[d].flags) || req.count < 0 then Reply(p, mem, -1)
    else if req.count == 0 then Reply(p, mem, 0)
    else if !InMemory(req.buffer, req.count, |mem|) then Reply(p, mem, -1)
    else
      var h := p.open[d];
      var content := Content(p, h.name);
      var n := Available(content, h.offset, req.count);
      if n == 0 then Reply(p, mem, 0)
      else Reply(p.(open := p.open[d := h.(offset := h.offset + n)]),
                 Store(mem, req.buffer, content[h.offset..h.offset + n]), n)
  }

  function Write(p: Private, mem: Bytes, req: Request): Reply {
    var d := req.descriptor;
    if d !in p.open || !CanWrite(p.open[d].flags) || req.count < 0 then Reply(p, mem, -1)
    else if req.count == 0 then Reply(p, mem, 0)
    else if !InMemory(req.buffer, req.count, |mem|) then Reply(p, mem, -1)
    else WriteBytes(p, mem, d, mem[req.buffer..req.buffer + req.count])
  }

  function WriteBytes(p: Private, mem: Bytes, d: int, data: Bytes): Reply
    requires d in p.open
  {
    var h := p.open[d];
    Reply(Private(p.files[h.name := Overwrite(Content(p, h.name), h.offset, data)],
                  p.open[d := h.(offset := h.offset + |data|)], p.next), mem, |data|)
  }

  /** A write of the first `n` bytes asked for. */
  lemma WriteOf(p: Private, mem: Bytes, req: Request, n: nat)
    requires req.descriptor in p.open && CanWrite(p.open[req.descriptor].flags)
    requires req.count >= 0 && InMemory(req.buffer, req.count, |mem|) && 0 < n <= req.count
    ensures Write(p, mem, req.(count := n)) == WriteBytes(p, mem, req.descriptor, mem[req.buffer..req.buffer + n])
    ensures req.(count := req.count) == req
  {
  }

  function Seek(p: Private, mem: Bytes, req: Request): Reply {
    var d := req.descriptor;
    if d !in p.open || (req.flags != SEEK_SET && req.flags != SEEK_END) then Reply(p, mem, -1)
    else if req.flags == SEEK_SET && req.offset < 0 then Reply(p, mem, -1)
    else
      var h := p.open[d];
      var position := if req.flags == SEEK_SET then req.offset else |Content(p, h.name)|;
      Reply(p.(open := p.open[d := h.(offset := position)]), mem,
            if position > INT_MAX then -1 else position)
  }

  /** A request when the host does all it is asked. */
  ghost function Process(p: Private, mem: Bytes, req: Request): Reply {
    if req.operation == OPERATION_OPEN then Open(p, mem, req)
    else if req.operation == OPERATION_CLOSE then Close(p, mem, req.descriptor)
    else if req.operation == OPERATION_READ then Read(p, mem, req)
    else if req.operation == OPERATION_WRITE then Write(p, mem, req)
    else if req.operation == OPERATION_LSEEK then Seek(p, mem, req)
    else Reply(p, mem, -1)
  }

  /** How the host can fail a request: not at all, by refusing it (only a close takes effect all the
      same), or by running out of space `written` bytes into a write. */
  datatype Fault = NoFault | Refused | ShortWrite(written: nat)

  ghost function Step(p: Private, mem: Bytes, req: Request, fault: Fault): Reply {
    match fault
    case NoFault => Process(p, mem, req)
    case Refused =>
      if req.operation == OPERATION_CLOSE then Close(p, mem, req.descriptor).(result := -1) else Reply(p, mem, -1)
    case ShortWrite(written) =>
      if req.operation == OPERATION_WRITE && 0 < written < req.count && InMemory(req.buffer, req.count, |mem|) then
        Process(p, mem, req.(count := written))
      else Process(p, mem, req)
  }

  /** Every open descriptor names an existing file; descriptors start at 3 and lie below the next one. */
  ghost predicate WellFormed(p: Private) {
    p.next >= 3 && forall d :: d in p.open ==> 3 <= d < p.next && p.open[d].name in p.files
  }

  lemma StepWellFormed(p: Private, mem: Bytes, req: Request, fault: Fault)
    requires WellFormed(p)
    ensures WellFormed(Step(p, mem, req, fault).fs)
    ensures |Step(p, mem, req, fault).mem| == |mem|
    ensures forall n :: n in p.files ==> n in Step(p, mem, req, fault).fs.files
  {
  }

  /** A file changes only by a successful write through a descriptor of that name; in particular
      opening, reading, seeking and closing leave every file's content as it was. */
  lemma OnlyWritesChangeFiles(p: Private, mem: Bytes, req: Request, fault: Fault, name: Name)
    requires WellFormed(p) && name in p.files
    requires Step(p, mem, req, fault).fs.files[name] != p.files[name]
    ensures req.operation == OPERATION_WRITE && req.descriptor in p.open
    ensures p.open[req.descriptor].name == name && CanWrite(p.open[req.descriptor].flags)
    ensures Step(p, mem, req, fault).result > 0
  {
  }

  /** Reading back: what was written at a position is found there, and nothing else moved. */
  lemma OverwriteReadsBack(content: Bytes, offset: nat, data: Bytes)
    ensures var r := Overwrite(content, offset, data);
            && offset + |data| <= |r| && r[offset..offset + |data|] == data
            && |r| == (if |content| > offset + |data| then |content| else offset + |data|)
            && (forall k :: 0 <= k < Min(offset, |content|) ==> r[k] == content[k])
            && (forall k :: |content| <= k < offset ==> r[k] == 0)
            && (forall k :: offset + |data| <= k < |content| ==> r[k] == content[k])
  {
  }
}
