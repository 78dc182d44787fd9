/** Around the runs: what main sets up before the threads start, how it derives its exit status, and the
    exit loop of each thread. */
module Launch {
  import opened Protocol
  import opened Broadcast
  import opened PrivateFiles
  import opened HostFiles
  import opened FileTable
  import opened FileIo
  import opened FileService
  import opened Names
  import opened Hypervisor

  // ----- shared files

  /** The part of a path behind its last slash. */
  function BaseName(path: Bytes): Name {
    if path == [] || path[|path| - 1] == SLASH then []
    else BaseName(path[..|path| - 1]) + [path[|path| - 1]]
  }

  lemma {:induction false} BaseNameIsLastPart(dir: Bytes, name: Name)
    requires SLASH !in name && (dir == [] || dir[|dir| - 1] == SLASH)
    ensures BaseName(dir + name) == name
  {
    var path := dir + name;
    if name != [] {
      assert path[..|path| - 1] == dir + name[..|name| - 1];
      BaseNameIsLastPart(dir, name[..|name| - 1]);
    } else {
      assert path == dir;
    }
  }

  /** Every path is that of a regular file under a name guests may use, and no two of them have the
      same base name. `regular` gives the absolute paths of those that are regular files. */
  ghost predicate Configurable(paths: seq<Bytes>, regular: map<Bytes, Bytes>) {
    && (forall k :: 0 <= k < |paths| ==> paths[k] in regular && ValidName(BaseName(paths[k])))
    && (forall j, k :: 0 <= j < k < |paths| ==> BaseName(paths[j]) != BaseName(paths[k]))
  }

  ghost predicate Registers(shared: SharedFiles, paths: seq<Bytes>, regular: map<Bytes, Bytes>) {
    && (forall k :: 0 <= k < |paths| && paths[k] in regular ==>
          BaseName(paths[k]) in shared && shared[BaseName(paths[k])] == Elsewhere(regular[paths[k]]))
    && (forall n :: n in shared ==> exists k :: 0 <= k < |paths| && n == BaseName(paths[k]))
  }

  /** One path more: what decides about it, and what it adds. */
  lemma OneMorePath(paths: seq<Bytes>, k: nat, regular: map<Bytes, Bytes>, shared: SharedFiles)
    requires k < |paths| && Configurable(paths[..k], regular) && Registers(shared, paths[..k], regular)
    ensures var path := paths[k];
            && (Configurable(paths[..k + 1], regular) <==>
                  path in regular && ValidName(BaseName(path)) && BaseName(path) !in shared)
            && (Configurable(paths, regular) ==> Configurable(paths[..k + 1], regular))
            && (path in regular && BaseName(path) !in shared ==>
                  Registers(shared[BaseName(path) := Elsewhere(regular[path])], paths[..k + 1], regular))
  {
    var front, more := paths[..k], paths[..k + 1];
    assert more == front + [paths[k]];
    forall j | 0 <= j < k
      ensures BaseName(front[j]) in shared && more[j] == front[j] == paths[j]
    {
      assert front[j] in regular;
    }
    assert more[k] == paths[k];
    if BaseName(paths[k]) in shared {
      var j :| 0 <= j < |front| && BaseName(paths[k]) == BaseName(front[j]);
      assert BaseName(more[j]) == BaseName(more[k]);
    }
  }

  /** Accepts exactly the configurable lists, and maps each base name to its original and nothing else. */
  method ConfigureSharedFiles(paths: seq<Bytes>, regular: map<Bytes, Bytes>) returns (ok: bool, shared: SharedFiles)
    ensures ok <==> Configurable(paths, regular)
    ensures ok ==> Registers(shared, paths, regular)
  {
    ok, shared := true, map[];
    for k := 0 to |paths|
      invariant ok && Configurable(paths[..k], regular)
      invariant Registers(shared, paths[..k], regular)
    {
      OneMorePath(paths, k, regular, shared);
      var path := paths[k];
      if path !in regular {
        return false, shared;
      }
      var name := BaseName(path);
      var valid := IsValidGuestFileName(name);
      if !valid {
        return false, shared;
      }
      if name in shared {
        return false, shared;
      }
      shared := shared[name := Elsewhere(regular[path])];
    }
    assert paths[..|paths|] == paths;
  }

  /** What is accepted is what the file layer assumes of its shared originals. */
  lemma ConfiguredIsShared(shared: SharedFiles, paths: seq<Bytes>, regular: map<Bytes, Bytes>, files: Files)
    requires Configurable(paths, regular) && Registers(shared, paths, regular)
    requires forall p :: p in regular ==> Elsewhere(regular[p]) in files
    ensures SharedOk(shared, files)
  {
    forall n | n in shared
      ensures ValidName(n) && shared[n].Elsewhere? && shared[n] in files
    {
      var k :| 0 <= k < |paths| && n == BaseName(paths[k]);
      assert paths[k] in regular;
    }
  }

  /** With an accepted list and no file open yet, every VM's file layer starts out as eager copies of the
      originals: the start that the theorems about sequences of requests need. */
  method StartFileLayers(host: Host, paths: seq<Bytes>, regular: map<Bytes, Bytes>, guestCount: nat)
    returns (ok: bool, shared: SharedFiles, guests: seq<GuestFiles>)
    requires host.open == map[] && forall p :: p in regular ==> Elsewhere(regular[p]) in host.files
    ensures ok <==> Configurable(paths, regular)
    ensures ok ==> Registers(shared, paths, regular) && SharedOk(shared, host.files)
    ensures ok ==> |guests| == guestCount && Serves(host, guests, EagerViews(guestCount, shared, host.files))
  {
    guests := [];
    ok, shared := ConfigureSharedFiles(paths, regular);
    if ok {
      ConfiguredIsShared(shared, paths, regular, host.files);
      guests := StartFiles(host, guestCount, shared);
    }
  }

  // ----- roles

  function AllAwake(n: nat): (r: seq<Thread>)
    ensures |r| == n && forall k :: 0 <= k < n ==> r[k] == Awake
  {
    if n == 0 then [] else AllAwake(n - 1) + [Awake]
  }

  function NoLogs(n: nat): (r: seq<ReaderLog>)
    ensures |r| == n && forall k :: 0 <= k < n ==> r[k] == ReaderLog(false, [], [])
  {
    if n == 0 then [] else NoLogs(n - 1) + [ReaderLog(false, [], [])]
  }

  /** The first guest is the writer, all others are readers and are counted as such: the initial state
      of the protocol. */
  method AssignRoles(guestCount: nat) returns (shared: Shared, vms: seq<Vm>)
    requires guestCount >= 1
    ensures |vms| == guestCount
    ensures Init(System(shared, vms, AllAwake(guestCount), WriterLog(0, [], []), NoLogs(guestCount)))
  {
    shared := InitShared(guestCount - 1);
    vms := [];
    for i := 0 to guestCount
      invariant |vms| == i
      invariant forall k :: 0 <= k < i ==> vms[k] == InitVm(if k == 0 then Writer else Reader)
    {
      vms := vms + [InitVm(if i == 0 then Writer else Reader)];
    }
  }

  // ----- the exit loop of a VM's thread

  /** Why KVM_RUN returned, and what the host's handling of it came to. */
  datatype Exit =
    | Interrupted
    | RunFailed
    | PortAccess(handled: bool)
    | WindowOpen(injectable: bool)
    | Halted(transferCompleted: bool)
    | Unexpected

  datatype Status = StillRunning | ThreadSucceeded | ThreadFailed

  ghost function Windows(exits: seq<Exit>, k: nat): nat
    requires k <= |exits|
  {
    if k == 0 then 0 else Windows(exits, k - 1) + (if exits[k - 1].WindowOpen? then 1 else 0)
  }

  /** The exits that end the loop: a window only if an interrupt was still due and could not be injected. */
  ghost predicate EndsLoop(exits: seq<Exit>, k: nat)
    requires k < |exits|
  {
    match exits[k]
    case Interrupted => false
    case PortAccess(handled) => !handled
    case WindowOpen(injectable) => !injectable && Windows(exits, k) < IRQ_COUNT
    case _ => true
  }

  /** The thread stops at the first ending exit and succeeds iff that is a halt after a completed
      transfer; the first two windows, and no others, are used for an interrupt. */
  method RunVirtualMachine(exits: seq<Exit>)
    returns (status: Status, handled: nat, injected: nat, requestWindow: bool)
    ensures handled <= |exits|
    ensures forall k :: 0 <= k < handled ==> !EndsLoop(exits, k)
    ensures status.StillRunning? <==> handled == |exits|
    ensures handled < |exits| ==> EndsLoop(exits, handled)
    ensures status.ThreadSucceeded? <==> handled < |exits| && exits[handled] == Halted(true)
    ensures forall k :: 0 <= k < handled ==>
              exits[k].Interrupted? || exits[k] == PortAccess(true) || exits[k].WindowOpen?
    ensures handled < |exits| ==>
              && !exits[handled].Interrupted? && exits[handled] != PortAccess(true)
              && (exits[handled].WindowOpen? ==> exits[handled] == WindowOpen(false) && injected < 2)
    ensures injected == if Windows(exits, handled) < 2 then Windows(exits, handled) else 2
    ensures injected == Min(IRQ_COUNT, Windows(exits, handled))
    ensures requestWindow <==> injected < IRQ_COUNT
  {
    var interruptCount := IRQ_COUNT;
    handled, injected, requestWindow := 0, 0, interruptCount > 0;
    while handled < |exits|
      invariant handled <= |exits|
      invariant forall k :: 0 <= k < handled ==> !EndsLoop(exits, k)
      invariant forall k :: 0 <= k < handled ==>
                  exits[k].Interrupted? || exits[k] == PortAccess(true) || exits[k].WindowOpen?
      invariant injected + interruptCount == IRQ_COUNT
      invariant injected == Min(IRQ_COUNT, Windows(exits, handled))
      invariant requestWindow <==> interruptCount > 0
    {
      match exits[handled] {
        case Interrupted =>
        case RunFailed => return ThreadFailed, handled, injected, requestWindow;
        case PortAccess(ok) =>
          if !ok {
            return ThreadFailed, handled, injected, requestWindow;
          }
        case WindowOpen(injectable) =>
          if interruptCount > 0 {
            if !injectable {
              return ThreadFailed, handled, injected, requestWindow;
            }
            interruptCount, injected := interruptCount - 1, injected + 1;
          }
          requestWindow := interruptCount > 0;
        case Halted(transferCompleted) =>
          status := if transferCompleted then ThreadSucceeded else ThreadFailed;
          return status, handled, injected, requestWindow;
        case Unexpected => return ThreadFailed, handled, injected, requestWindow;
      }
      handled := handled + 1;
    }
    status := StillRunning;
  }

  // ----- threads and exit status

  /** Main starts threads up to the first that cannot be created and joins those it started. It reports
      success iff every thread could be created and joined and completed, and stops the buffer iff some
      thread could not be created or, having been started, could not be joined. */
  method StartAndJoin(created: seq<bool>, joined: seq<bool>, completed: seq<bool>)
    returns (success: bool, aborted: bool, started: nat)
    requires |created| == |joined| == |completed|
    ensures started <= |created| && (forall k :: 0 <= k < started ==> created[k])
    ensures started < |created| ==> !created[started]
    ensures success <==> forall k :: 0 <= k < |created| ==> created[k] && joined[k] && completed[k]
    ensures aborted <==> started < |created| || exists k :: 0 <= k < started && !joined[k]
  {
    success, aborted, started := true, false, 0;
    while started < |created|
      invariant started <= |created| && success && !aborted
      invariant forall k :: 0 <= k < started ==> created[k]
    {
      if !created[started] {
        success, aborted := false, true;
        break;
      }
      started := started + 1;
    }
    for i := 0 to started
      invariant success <==> started == |created| && forall k :: 0 <= k < i ==> joined[k] && completed[k]
      invariant aborted <==> started < |created| || exists k :: 0 <= k < i && !joined[k]
    {
      if !joined[i] {
        success, aborted := false, true;
      } else if !completed[i] {
        success := false;
      }
    }
  }
}
