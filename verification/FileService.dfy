/** Several VMs on one host file system, serving any sequence of file requests in any interleaving.
    The whole run is indistinguishable from one where every VM works on a private copy. */
module FileService {
  import opened Protocol
  import opened PrivateFiles
  import opened HostFiles
  import opened FileTable
  import opened FileIo

  /** A request of VM number `vm`, with the contents of its memory at that moment. */
  datatype Call = Call(vm: nat, mem: Bytes, req: Request)

  /** What the guest gets back: its memory and the result. */
  datatype Output = Output(mem: Bytes, result: int)

  // ----- the reference: private systems that share nothing

  ghost predicate Addressed(views: seq<Private>, calls: seq<Call>) {
    forall k :: 0 <= k < |calls| ==> calls[k].vm < |views|
  }

  ghost function ViewsAfter(views: seq<Private>, calls: seq<Call>, faults: seq<Fault>): (r: seq<Private>)
    requires Addressed(views, calls) && |faults| == |calls|
    ensures |r| == |views|
  {
    if calls == [] then views
    else
      var n := |calls| - 1;
      var before := ViewsAfter(views, calls[..n], faults[..n]);
      var c := calls[n];
      before[c.vm := Step(before[c.vm], c.mem, c.req, faults[n]).fs]
  }

  ghost function OutputsOf(views: seq<Private>, calls: seq<Call>, faults: seq<Fault>): (r: seq<Output>)
    requires Addressed(views, calls) && |faults| == |calls|
    ensures |r| == |calls|
  {
    if calls == [] then []
    else
      var n := |calls| - 1;
      var c := calls[n];
      var reply := Step(ViewsAfter(views, calls[..n], faults[..n])[c.vm], c.mem, c.req, faults[n]);
      OutputsOf(views, calls[..n], faults[..n]) + [Output(reply.mem, reply.result)]
  }

  /** In the reference a VM's files depend on its own requests only. */
  lemma {:induction false} PrivateMeansPrivate(views: seq<Private>, calls: seq<Call>, faults: seq<Fault>, i: nat)
    requires Addressed(views, calls) && |faults| == |calls| && i < |views|
    requires forall k :: 0 <= k < |calls| ==> calls[k].vm != i
    ensures ViewsAfter(views, calls, faults)[i] == views[i]
  {
    if calls != [] {
      var n := |calls| - 1;
      PrivateMeansPrivate(views, calls[..n], faults[..n], i);
    }
  }

  lemma OneCallMore(views: seq<Private>, calls: seq<Call>, faults: seq<Fault>, n: nat, fault: Fault)
    requires Addressed(views, calls) && |faults| == n < |calls|
    ensures Addressed(views, calls[..n]) && Addressed(views, calls[..n + 1])
    ensures var before, c := ViewsAfter(views, calls[..n], faults), calls[n];
            var reply := Step(before[c.vm], c.mem, c.req, fault);
            && ViewsAfter(views, calls[..n + 1], faults + [fault]) == before[c.vm := reply.fs]
            && OutputsOf(views, calls[..n + 1], faults + [fault])
               == OutputsOf(views, calls[..n], faults) + [Output(reply.mem, reply.result)]
  {
    assert calls[..n + 1][..n] == calls[..n] && (faults + [fault])[..n] == faults;
  }

  // ----- the hypervisor's VMs on one host

  /** The fields of one VM's file layer. */
  datatype FileVm = FileVm(id: nat, shared: SharedFiles, table: Table, next: int)

  ghost predicate InOrder(files: Files, open: Descriptors, v: FileVm) {
    TableOk(v.id, v.shared, files, open, v.table, v.next) && OwnDirectory(v.id, open, Owned(v.table))
  }

  /** The VM's guest sees this private system. */
  ghost predicate Shows(files: Files, open: Descriptors, v: FileVm, view: Private) {
    SharedOk(v.shared, files) && ViewOf(v.id, v.shared, files, open, v.table, v.next) == view
  }

  ghost predicate Apart(v: FileVm, w: FileVm) {
    v.id != w.id && Owned(v.table) !! Owned(w.table)
  }

  /** All VMs are in order, no host descriptor is used by two of them, and none is open that does not
      belong to one of them. */
  ghost predicate Together(files: Files, open: Descriptors, vms: seq<FileVm>) {
    && (forall i :: 0 <= i < |vms| ==> InOrder(files, open, vms[i]))
    && (forall i, j :: 0 <= i < |vms| && 0 <= j < |vms| && i != j ==> Apart(vms[i], vms[j]))
    && (forall fd :: fd in open ==> HasOwner(vms, fd))
  }

  ghost predicate HasOwner(vms: seq<FileVm>, fd: int) {
    exists i :: 0 <= i < |vms| && fd in Owned(vms[i].table)
  }

  ghost predicate AllShow(files: Files, open: Descriptors, vms: seq<FileVm>, views: seq<Private>) {
    |vms| == |views| && forall i :: 0 <= i < |vms| ==> Shows(files, open, vms[i], views[i])
  }

  /** A change confined to VM i leaves another VM in order and its view as it was. */
  lemma OtherKept(files: Files, open: Descriptors, w: FileVm, files': Files, open': Descriptors, v: FileVm, v': FileVm,
                  view: Private)
    requires Apart(w, v) && InOrder(files, open, w) && v'.id == v.id
    requires Confined(v.id, files, open, Owned(v.table), files', open', Owned(v'.table))
    requires Shows(files, open, w, view)
    ensures InOrder(files', open', w) && Apart(w, v') && Shows(files', open', w, view)
  {
    var own, own' := Owned(v.table), Owned(v'.table);
    OtherVmUnaffected(v.id, files, open, own, files', open', own', w.id, w.shared, w.table, w.next);
    OtherDirectoryKept(v.id, files, open, own, files', open', own', w.id, Owned(w.table));
  }

  lemma StillOwned(files: Files, open: Descriptors, vms: seq<FileVm>, i: nat,
                   files': Files, open': Descriptors, v: FileVm, fd: int)
    requires Together(files, open, vms) && i < |vms| && v.id == vms[i].id && fd in open'
    requires Confined(v.id, files, open, Owned(vms[i].table), files', open', Owned(v.table))
    ensures HasOwner(vms[i := v], fd)
  {
    var vms' := vms[i := v];
    if fd in Owned(v.table) {
      assert fd in Owned(vms'[i].table);
    } else {
      assert fd in open.Keys - Owned(vms[i].table);
      assert HasOwner(vms, fd);
      var j :| 0 <= j < |vms| && fd in Owned(vms[j].table);
      assert vms'[j] == vms[j];
    }
  }

  lemma OthersKept(files: Files, open: Descriptors, vms: seq<FileVm>, views: seq<Private>, i: nat,
                   files': Files, open': Descriptors, v: FileVm, view: Private)
    requires Together(files, open, vms) && AllShow(files, open, vms, views) && i < |vms|
    requires v.id == vms[i].id && InOrder(files', open', v) && Shows(files', open', v, view)
    requires Confined(v.id, files, open, Owned(vms[i].table), files', open', Owned(v.table))
    ensures Together(files', open', vms[i := v]) && AllShow(files', open', vms[i := v], views[i := view])
  {
    var vms' := vms[i := v];
    forall j | 0 <= j < |vms| && j != i
      ensures InOrder(files', open', vms[j]) && Apart(v, vms[j]) && Apart(vms[j], v)
      ensures Shows(files', open', vms[j], views[j])
    {
      assert Apart(vms[j], vms[i]) && InOrder(files, open, vms[j]) && Shows(files, open, vms[j], views[j]);
      OtherKept(files, open, vms[j], files', open', vms[i], v, views[j]);
    }
    forall j, k | 0 <= j < |vms'| && 0 <= k < |vms'| && j != k
      ensures Apart(vms'[j], vms'[k])
    {
      assert Apart(vms[j], vms[k]);
    }
    forall fd | fd in open'
      ensures HasOwner(vms', fd)
    {
      StillOwned(files, open, vms, i, files', open', v, fd);
    }
  }

  ghost function VmOf(g: GuestFiles): FileVm
    reads g
  {
    FileVm(g.id, g.shared, g.openFiles, g.nextDescriptor)
  }

  ghost function VmsOf(guests: seq<GuestFiles>): (r: seq<FileVm>)
    reads guests
    ensures |r| == |guests| && forall i :: 0 <= i < |guests| ==> r[i] == VmOf(guests[i])
  {
    if guests == [] then [] else VmsOf(guests[..|guests| - 1]) + [VmOf(guests[|guests| - 1])]
  }

  /** The VMs share the host and nothing else, and their guests see these private systems. */
  ghost predicate Serves(host: Host, guests: seq<GuestFiles>, views: seq<Private>)
    reads host, guests
  {
    && (forall i :: 0 <= i < |guests| ==> guests[i].host == host)
    && Together(host.files, host.open, VmsOf(guests))
    && AllShow(host.files, host.open, VmsOf(guests), views)
  }

  /** Nothing outside the directory of VM `id` has changed. */
  ghost predicate SameElsewhere(id: nat, files: Files, files': Files) {
    forall p: Path :: !(p.Local? && p.vm == id) ==>
      (p in files <==> p in files') && (p in files ==> files'[p] == files[p])
  }

  ghost predicate SameOriginals(files: Files, files': Files) {
    forall p: Path :: p.Elsewhere? ==> (p in files <==> p in files') && (p in files ==> files'[p] == files[p])
  }

  // ----- the start

  /** No host descriptor is open and every VM is as constructed, with a number of its own. */
  ghost predicate Fresh(host: Host, guests: seq<GuestFiles>)
    reads host, guests
  {
    && host.open == map[]
    && (forall i :: 0 <= i < |guests| ==>
          && guests[i].host == host && SharedOk(guests[i].shared, host.files)
          && guests[i].openFiles == map[] && guests[i].nextDescriptor == 3)
    && (forall i, j :: 0 <= i < |guests| && 0 <= j < |guests| && i != j ==> guests[i].id != guests[j].id)
  }

  /** A private system at its start: a copy of every original the VM has no file of its own for, its own
      files, and nothing open. */
  ghost function EagerCopies(id: nat, shared: SharedFiles, files: Files): (p: Private)
    requires SharedOk(shared, files)
    ensures WellFormed(p) && p.open == map[] && p.next == 3
    ensures forall n :: n in p.files <==> n in shared || Local(id, n) in files
    ensures forall n :: n in p.files ==>
              p.files[n] == if Local(id, n) in files then files[Local(id, n)] else files[shared[n]]
  {
    Private(ViewFiles(id, shared, files), map[], 3)
  }

  /** At the start every guest sees eager copies. */
  lemma FreshServes(host: Host, guests: seq<GuestFiles>, views: seq<Private>)
    requires Fresh(host, guests) && |views| == |guests|
    requires forall i :: 0 <= i < |guests| ==> views[i] == EagerCopies(guests[i].id, guests[i].shared, host.files)
    ensures Serves(host, guests, views)
  {
    var vms := VmsOf(guests);
    forall i | 0 <= i < |guests|
      ensures InOrder(host.files, host.open, vms[i]) && Shows(host.files, host.open, vms[i], views[i])
    {
      assert vms[i] == VmOf(guests[i]) && ViewOpen(host.open, map[]) == map[];
    }
    forall i, j | 0 <= i < |guests| && 0 <= j < |guests| && i != j
      ensures Apart(vms[i], vms[j])
    {
      assert vms[i] == VmOf(guests[i]) && vms[j] == VmOf(guests[j]);
    }
  }

  /** Eager copies for VMs 0 to n - 1. */
  ghost function EagerViews(n: nat, shared: SharedFiles, files: Files): (views: seq<Private>)
    requires SharedOk(shared, files)
    ensures |views| == n && forall i :: 0 <= i < n ==> views[i] == EagerCopies(i, shared, files)
  {
    if n == 0 then [] else EagerViews(n - 1, shared, files) + [EagerCopies(n - 1, shared, files)]
  }

  /** The file layers of VMs 0 to n - 1 over the same shared files: each guest sees its eager copies. */
  method StartFiles(host: Host, n: nat, shared: SharedFiles) returns (guests: seq<GuestFiles>)
    requires host.open == map[] && SharedOk(shared, host.files)
    ensures |guests| == n && fresh(guests)
    ensures forall i :: 0 <= i < n ==> guests[i].id == i && guests[i].shared == shared
    ensures Serves(host, guests, EagerViews(n, shared, host.files))
  {
    guests := [];
    for i := 0 to n
      invariant |guests| == i && fresh(guests) && host.open == map[] && SharedOk(shared, host.files)
      invariant forall j :: 0 <= j < i ==>
                  && guests[j].id == j && guests[j].shared == shared && guests[j].host == host
                  && guests[j].openFiles == map[] && guests[j].nextDescriptor == 3
    {
      var guest := new GuestFiles(i, host, shared);
      guests := guests + [guest];
    }
    FreshServes(host, guests, EagerViews(n, shared, host.files));
  }

  // ----- one request

  method ServeOne(host: Host, guests: seq<GuestFiles>, call: Call, testFails: bool,
                  ghost views: seq<Private>, ghost initial: Files)
    returns (output: Output, ghost fault: Fault)
    requires Serves(host, guests, views) && call.vm < |guests| && SameOriginals(initial, host.files)
    requires !guests[call.vm].Misled(call.mem, call.req, testFails)
    modifies host, guests
    ensures fault == NoFault || host.failures > old(host.failures)
    ensures host.failures >= old(host.failures)
    ensures call.vm < |views|
    ensures var reply := Step(views[call.vm], call.mem, call.req, fault);
            && output == Output(reply.mem, reply.result)
            && Serves(host, guests, views[call.vm := reply.fs])
    ensures SameElsewhere(guests[call.vm].id, old(host.files), host.files)
    ensures SameOriginals(initial, host.files)
  {
    ghost var vms := VmsOf(guests);
    var guest := guests[call.vm];
    assert InOrder(host.files, host.open, vms[call.vm]) && Shows(host.files, host.open, vms[call.vm], views[call.vm]);
    forall j | 0 <= j < |guests| && j != call.vm
      ensures guests[j] != guest
    {
      assert Apart(vms[call.vm], vms[j]);
    }
    output, fault := ProcessOn(guest, call.mem, call.req, testFails);
    ghost var reply := Step(views[call.vm], call.mem, call.req, fault);
    OthersKept(old(host.files), old(host.open), vms, views, call.vm, host.files, host.open, VmOf(guest), reply.fs);
    assert VmsOf(guests) == vms[call.vm := VmOf(guest)];
    OriginalsKept(guest.id, initial, old(host.files), host.files);
  }

  method MemoryOf(memory: Bytes) returns (mem: array<Byte>)
    ensures fresh(mem) && mem[..] == memory
  {
    mem := new Byte[|memory|];
    forall k | 0 <= k < |memory| {
      mem[k] := memory[k];
    }
    assert mem[..] == memory;
  }

  /** One request against a copy of the guest's memory. */
  method ProcessOn(guest: GuestFiles, memory: Bytes, req: Request, testFails: bool)
    returns (output: Output, ghost fault: Fault)
    requires guest.Valid() && guest.SoleUser() && !guest.Misled(memory, req, testFails)
    modifies guest, guest.host
    ensures guest.Valid() && guest.SoleUser()
    ensures guest.ConfinedSince(old(guest.host.files), old(guest.host.open), old(guest.openFiles))
    ensures fault == NoFault || guest.host.failures > old(guest.host.failures)
    ensures guest.host.failures >= old(guest.host.failures)
    ensures Reply(guest.View(), output.mem, output.result) == Step(old(guest.View()), memory, req, fault)
  {
    var mem := MemoryOf(memory);
    var result;
    result, fault := guest.ProcessFileRequest(mem, req, testFails);
    output := Output(mem[..], result);
  }

  /** Whether the host's existence test would mislead this request. */
  method IsMisled(guest: GuestFiles, memory: Bytes, req: Request, testFails: bool) returns (misled: bool)
    ensures misled <==> guest.Misled(memory, req, testFails)
  {
    if !testFails || req.operation != OPERATION_OPEN || !ValidFlags(req.flags) {
      return false;
    }
    var mem := MemoryOf(memory);
    var name := ReadGuestFileName(mem, req.buffer);
    misled := name.Some? && name.value in guest.shared && Local(guest.id, name.value) in guest.host.files;
  }

  // ----- any sequence of requests

  ghost predicate Faultless(faults: seq<Fault>) {
    forall f :: f in faults ==> f == NoFault
  }

  lemma FaultlessMore(faults: seq<Fault>, fault: Fault)
    ensures Faultless(faults + [fault]) <==> Faultless(faults) && fault == NoFault
  {
    assert fault in faults + [fault];
    assert forall f :: f in faults ==> f in faults + [fault];
  }

  /** One request more than the first n. */
  method ServeNext(host: Host, guests: seq<GuestFiles>, calls: seq<Call>, testFails: bool, n: nat,
                   ghost views: seq<Private>, ghost initial: Files, ghost faults: seq<Fault>, before: seq<Output>)
    returns (outputs: seq<Output>, ghost fault: Fault)
    requires Addressed(views, calls) && |views| == |guests| && |faults| == n < |calls|
    requires !guests[calls[n].vm].Misled(calls[n].mem, calls[n].req, testFails)
    requires Serves(host, guests, ViewsAfter(views, calls[..n], faults))
    requires before == OutputsOf(views, calls[..n], faults)
    requires SameOriginals(initial, host.files)
    modifies host, guests
    ensures fault == NoFault || host.failures > old(host.failures)
    ensures host.failures >= old(host.failures)
    ensures Addressed(views, calls[..n + 1])
    ensures outputs == OutputsOf(views, calls[..n + 1], faults + [fault])
    ensures Serves(host, guests, ViewsAfter(views, calls[..n + 1], faults + [fault]))
    ensures SameOriginals(initial, host.files)
  {
    var output;
    output, fault := ServeOne(host, guests, calls[n], testFails, ViewsAfter(views, calls[..n], faults), initial);
    OneCallMore(views, calls, faults, n, fault);
    outputs := before + [output];
  }

  /** Every sequence of requests of all VMs, up to the first that the existence test misleads: the results
      and the memory each guest sees are those of the private systems, with no fault at all if no host
      call failed; no shared original changes; and afterwards the open host descriptors are again exactly
      those of the VMs' tables. `testFails` says for each request whether its existence test fails. */
  method Serve(host: Host, guests: seq<GuestFiles>, calls: seq<Call>, testFails: seq<bool>,
               ghost views: seq<Private>)
    returns (outputs: seq<Output>, ghost faults: seq<Fault>)
    requires Serves(host, guests, views)
    requires Addressed(views, calls) && |testFails| == |calls|
    modifies host, guests
    ensures |faults| <= |calls| && Addressed(views, calls[..|faults|])
    ensures |faults| < |calls| ==>
              var call := calls[|faults|];
              call.vm < |guests| && guests[call.vm].Misled(call.mem, call.req, testFails[|faults|])
    ensures outputs == OutputsOf(views, calls[..|faults|], faults)
    ensures Serves(host, guests, ViewsAfter(views, calls[..|faults|], faults))
    ensures host.failures >= old(host.failures)
    ensures host.failures == old(host.failures) ==> Faultless(faults)
    ensures SameOriginals(old(host.files), host.files)
  {
    outputs, faults := [], [];
    for n := 0 to |calls|
      invariant |faults| == n && Addressed(views, calls[..n])
      invariant outputs == OutputsOf(views, calls[..n], faults)
      invariant Serves(host, guests, ViewsAfter(views, calls[..n], faults))
      invariant host.failures >= old(host.failures)
      invariant host.failures == old(host.failures) ==> Faultless(faults)
      invariant SameOriginals(old(host.files), host.files)
    {
      var misled := IsMisled(guests[calls[n].vm], calls[n].mem, calls[n].req, testFails[n]);
      if misled {
        return;
      }
      ghost var fault;
      outputs, fault := ServeNext(host, guests, calls, testFails[n], n, views, old(host.files), faults, outputs);
      FaultlessMore(faults, fault);
      faults := faults + [fault];
    }
  }

  lemma OriginalsKept(id: nat, files: Files, files': Files, files'': Files)
    requires SameOriginals(files, files') && SameElsewhere(id, files', files'')
    ensures SameOriginals(files, files'')
  {
  }
}
