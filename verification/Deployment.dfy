/** Whole runs on one host. The machine of module Hypervisor gives every VM a file system of its own; here its
    runs are requests to the file layers of all VMs on a shared host, and what these layers then show their
    guests is what the machine says. */
module Deployment {
  import opened Options
  import opened Protocol
  import opened PrivateFiles
  import opened HostFiles
  import opened FileTable
  import opened FileIo
  import opened FileService
  import opened GuestPrograms
  import opened Hypervisor
  import opened Completion

  // ----- the file requests of a run

  /** The file requests that belong to an event of VM `e.vm`. */
  ghost function RequestsOf(m: Machine, e: Event): seq<Submitted>
    requires Sized(m) && Possible(m, e)
  {
    match e
    case BootEnds(_, boot) => boot
    case Interrupt(i, run) =>
      if m.lives[i].modeInitialized && m.lives[i].writer then LoadRequests(m.files[i], run) else []
    case Save(i, run) => SaveRequests(m.files[i], run, |m.lives[i].stage.payload|)
    case _ => []
  }

  lemma EventFiles(m: Machine, e: Event)
    requires Sized(m) && Possible(m, e)
    ensures After(m, e).files ==
            if OfMain(e) then m.files else m.files[e.vm := FilesAfter(m.files[e.vm], RequestsOf(m, e))]
  {
    match e {
      case Interrupt(i, run) => LoadIsRequests(m.files[i], run);
      case Save(i, run) => SaveIsRequests(m.files[i], run, |m.lives[i].stage.payload|);
      case TransferStep(i) => TransferFiles(m, i);
      case _ =>
    }
  }

  lemma TransferFiles(m: Machine, i: nat)
    requires Sized(m) && Possible(m, TransferStep(i))
    ensures Transfer(m, i).files == m.files == m.files[i := FilesAfter(m.files[i], [])]
  {
  }

  ghost function CallsOf(i: nat, requests: seq<Submitted>): (calls: seq<Call>)
    ensures |calls| == |requests| && forall k :: 0 <= k < |calls| ==> calls[k].vm == i
  {
    if requests == [] then []
    else
      var n := |requests| - 1;
      CallsOf(i, requests[..n]) + [Call(i, requests[n].mem, requests[n].req)]
  }

  ghost function FaultsIn(requests: seq<Submitted>): (faults: seq<Fault>)
    ensures |faults| == |requests|
  {
    if requests == [] then [] else FaultsIn(requests[..|requests| - 1]) + [requests[|requests| - 1].fault]
  }

  /** The same as calls on the host, and what the host does to them. */
  ghost function EventCalls(m: Machine, e: Event): (calls: seq<Call>)
    requires Sized(m) && Possible(m, e)
    ensures forall k :: 0 <= k < |calls| ==> calls[k].vm < |m.files|
  {
    if OfMain(e) then [] else CallsOf(e.vm, RequestsOf(m, e))
  }

  ghost function EventFaults(m: Machine, e: Event): (faults: seq<Fault>)
    requires Sized(m) && Possible(m, e)
    ensures |faults| == |EventCalls(m, e)|
  {
    if OfMain(e) then [] else FaultsIn(RequestsOf(m, e))
  }

  /** The calls of every event of a run, and what the host does to them. */
  datatype Entry = Entry(calls: seq<Call>, faults: seq<Fault>)

  ghost function EntryOf(m: Machine, e: Event): Entry
    requires Sized(m) && Possible(m, e)
  {
    Entry(EventCalls(m, e), EventFaults(m, e))
  }

  ghost predicate LoggedAt(states: seq<Machine>, events: seq<Event>, log: seq<Entry>, k: nat)
    requires |states| == |events| + 1 && |log| == |events| && k < |events|
  {
    EventAt(states, events, k) && log[k] == EntryOf(states[k], events[k])
  }

  ghost predicate IsLog(states: seq<Machine>, events: seq<Event>, log: seq<Entry>) {
    && |states| == |events| + 1 && |log| == |events|
    && forall k :: 0 <= k < |events| ==> LoggedAt(states, events, log, k)
  }

  lemma {:induction false} MakeLog(states: seq<Machine>, events: seq<Event>, k: nat) returns (log: seq<Entry>)
    requires IsMachineRun(states, events) && k <= |events|
    ensures |log| == k
    ensures forall j :: 0 <= j < k ==> EventAt(states, events, j) && log[j] == EntryOf(states[j], events[j])
  {
    log := [];
    if k > 0 {
      log := MakeLog(states, events, k - 1);
      assert EventAt(states, events, k - 1);
      log := log + [EntryOf(states[k - 1], events[k - 1])];
    }
  }

  /** Every run has a log. */
  lemma LogExists(states: seq<Machine>, events: seq<Event>) returns (log: seq<Entry>)
    requires IsMachineRun(states, events)
    ensures IsLog(states, events, log)
  {
    log := MakeLog(states, events, |events|);
  }

  ghost function AllCalls(log: seq<Entry>): seq<Call> {
    if log == [] then [] else AllCalls(log[..|log| - 1]) + log[|log| - 1].calls
  }

  ghost function AllFaults(log: seq<Entry>): seq<Fault> {
    if log == [] then [] else AllFaults(log[..|log| - 1]) + log[|log| - 1].faults
  }

  lemma OneEntryMore(log: seq<Entry>, k: nat)
    requires k < |log|
    ensures AllCalls(log[..k + 1]) == AllCalls(log[..k]) + log[k].calls
    ensures AllFaults(log[..k + 1]) == AllFaults(log[..k]) + log[k].faults
  {
    assert log[..k + 1][..k] == log[..k];
  }

  // ----- the machine's files are those of the reference

  lemma {:induction false} RequestsAppended(views: seq<Private>, calls: seq<Call>, faults: seq<Fault>, i: nat,
                                            requests: seq<Submitted>)
    requires Addressed(views, calls) && |faults| == |calls| && i < |views|
    ensures Addressed(views, calls + CallsOf(i, requests))
    ensures var before := ViewsAfter(views, calls, faults);
            ViewsAfter(views, calls + CallsOf(i, requests), faults + FaultsIn(requests)) ==
            before[i := FilesAfter(before[i], requests)]
  {
    var before := ViewsAfter(views, calls, faults);
    if requests == [] {
      assert calls + [] == calls && faults + [] == faults && before[i := before[i]] == before;
    } else {
      var n := |requests| - 1;
      RequestsAppended(views, calls, faults, i, requests[..n]);
      var calls', faults' := calls + CallsOf(i, requests[..n]), faults + FaultsIn(requests[..n]);
      var call, fault := Call(i, requests[n].mem, requests[n].req), requests[n].fault;
      assert calls + CallsOf(i, requests) == calls' + [call];
      assert faults + FaultsIn(requests) == faults' + [fault];
      assert (calls' + [call])[..|calls'|] == calls' && (faults' + [fault])[..|faults'|] == faults';
    }
  }

  lemma EventAppended(views: seq<Private>, calls: seq<Call>, faults: seq<Fault>, m: Machine, e: Event)
    requires Sized(m) && Possible(m, e)
    requires Addressed(views, calls) && |faults| == |calls| && ViewsAfter(views, calls, faults) == m.files
    ensures Addressed(views, calls + EventCalls(m, e))
    ensures ViewsAfter(views, calls + EventCalls(m, e), faults + EventFaults(m, e)) == After(m, e).files
  {
    EventFiles(m, e);
    if OfMain(e) {
      assert calls + [] == calls && faults + [] == faults;
    } else {
      RequestsAppended(views, calls, faults, e.vm, RequestsOf(m, e));
    }
  }

  ghost predicate FilesAreViews(views: seq<Private>, log: seq<Entry>, files: seq<Private>) {
    && Addressed(views, AllCalls(log)) && |AllFaults(log)| == |AllCalls(log)|
    && ViewsAfter(views, AllCalls(log), AllFaults(log)) == files
  }

  lemma FilesStep(views: seq<Private>, states: seq<Machine>, events: seq<Event>, log: seq<Entry>, k: nat)
    requires IsLog(states, events, log) && k < |events| && FilesAreViews(views, log[..k], states[k].files)
    ensures FilesAreViews(views, log[..k + 1], states[k + 1].files)
  {
    assert LoggedAt(states, events, log, k) && EventAt(states, events, k);
    OneEntryMore(log, k);
    EventAppended(views, AllCalls(log[..k]), AllFaults(log[..k]), states[k], events[k]);
  }

  /** Whatever a run does, the machine's files are what private systems make of the run's requests. */
  lemma {:induction false} RunFiles(states: seq<Machine>, events: seq<Event>, log: seq<Entry>, k: nat)
    requires IsLog(states, events, log) && k <= |events|
    ensures FilesAreViews(states[0].files, log[..k], states[k].files)
  {
    if k > 0 {
      RunFiles(states, events, log, k - 1);
      FilesStep(states[0].files, states, events, log, k - 1);
    }
  }

  // ----- on the shared host

  /** What the VM's guest finds under a name. */
  ghost function Found(g: GuestFiles, name: Name): Option<Bytes>
    reads g, g.host
  {
    if Local(g.id, name) in g.host.files then Some(g.host.files[Local(g.id, name)])
    else if name in g.shared && g.shared[name] in g.host.files then Some(g.host.files[g.shared[name]])
    else None
  }

  /** Each reader's reader.txt begins with the first 256 bytes of the writer's guest.txt, on the host. */
  ghost predicate DeliveredOnHost(guests: seq<GuestFiles>)
    reads guests, set g <- guests :: g.host
  {
    forall i :: 1 <= i < |guests| ==>
      && Found(guests[0], GUEST_TXT).Some? && Found(guests[i], READER_TXT).Some?
      && var content := Found(guests[0], GUEST_TXT).value;
         (if |content| <= 256 then content else content[..256]) <= Found(guests[i], READER_TXT).value
  }

  lemma FoundIsShown(host: Host, guests: seq<GuestFiles>, views: seq<Private>, i: nat, name: Name)
    requires Serves(host, guests, views) && i < |guests|
    ensures i < |views|
    ensures Found(guests[i], name) == if name in views[i].files then Some(views[i].files[name]) else None
  {
    assert VmsOf(guests)[i] == VmOf(guests[i]);
    assert Shows(host.files, host.open, VmsOf(guests)[i], views[i]);
  }

  lemma DeliveredShows(host: Host, guests: seq<GuestFiles>, m: Machine)
    requires Serves(host, guests, m.files) && AllDelivered(m)
    ensures DeliveredOnHost(guests)
  {
    forall i | 1 <= i < |guests|
      ensures Found(guests[0], GUEST_TXT).Some? && Found(guests[i], READER_TXT).Some?
      ensures var content := Found(guests[0], GUEST_TXT).value;
              (if |content| <= 256 then content else content[..256]) <= Found(guests[i], READER_TXT).value
    {
      FoundIsShown(host, guests, m.files, 0, GUEST_TXT);
      FoundIsShown(host, guests, m.files, i, READER_TXT);
    }
  }

  /** The requests of a run, served by the file layers of all VMs on one host, none of them misled: if the host
      fails where the run says and nowhere else, every guest sees the files the machine gives it; so after a
      successful exit the data is in the files of the host. */
  method ServeRun(host: Host, guests: seq<GuestFiles>, calls: seq<Call>, testFails: seq<bool>,
                  ghost states: seq<Machine>, ghost events: seq<Event>, ghost log: seq<Entry>)
    returns (outputs: seq<Output>, ghost faults: seq<Fault>)
    requires IsMachineRun(states, events) && IsLog(states, events, log) && calls == AllCalls(log)
    requires Serves(host, guests, states[0].files) && |testFails| == |calls|
    modifies host, guests
    ensures faults == AllFaults(log) ==> Serves(host, guests, states[|events|].files)
    ensures faults == AllFaults(log) && ExitSuccess(states[|events|]) ==> DeliveredOnHost(guests)
    ensures SameOriginals(old(host.files), host.files)
  {
    RunFiles(states, events, log, |events|);
    assert log[..|events|] == log;
    outputs, faults := Serve(host, guests, calls, testFails, states[0].files);
    if faults == AllFaults(log) {
      assert calls[..|calls|] == calls;
      if ExitSuccess(states[|events|]) {
        SuccessMeansDelivered(states, events, |events|);
        DeliveredShows(host, guests, states[|events|]);
      }
    }
  }
}
