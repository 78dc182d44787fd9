/** Success is what happens when nothing goes wrong: a run without failures that cannot be continued has
    delivered the data, and if the writer has a file guest.txt there is such a run. */
module Success {
  import opened Protocol
  import opened Broadcast
  import opened Rounds
  import opened PrivateFiles
  import opened GuestPrograms
  import opened Hypervisor
  import opened Completion
  import opened Termination
  import opened Deployment

  /** A run without failures that cannot go on ends in success, with everything delivered. */
  lemma FailureFreeRunSucceeds(states: seq<Machine>, events: seq<Event>)
    requires IsMachineRun(states, events)
    requires forall j :: 0 <= j < |events| ==> !FailureAt(states, events, j)
    ensures Sized(states[|events|])
    ensures (forall e :: !CanGoOn(states[|events|], e)) ==>
              ExitSuccess(states[|events|]) && AllDelivered(states[|events|])
  {
    StuckRun(states, events);
    if forall e :: !CanGoOn(states[|events|], e) {
      ExitStatus(states, events);
      SuccessMeansDelivered(states, events, |events|);
    }
  }

  // ----- there is such a run

  lemma TransferChanges(m: Machine, i: nat)
    requires MachineInv(m) && CanGoOn(m, TransferStep(i))
    ensures Transfer(m, i) != m
  {
    var op := NextOp(m.clients.programs[i]).value;
    TransferIsMove(m, i);
    if OutcomeOf(m.clients, i).Done? {
      AcceptedMoveDecreases(m.clients, i);
    } else {
      FruitlessStep(m.clients.sys, i, op);
    }
  }

  /** Who can go on changes something. */
  lemma GoingOnChanges(m: Machine, e: Event)
    requires MachineInv(m) && CanGoOn(m, e)
    ensures After(m, e) != m
  {
    if e.TransferStep? {
      TransferChanges(m, e.vm);
    } else {
      EventMovesOn(m, e);
    }
  }

  /** No event of a VM removes a file. */
  lemma FilesKept(m: Machine, e: Event, name: Name)
    requires MachineInv(m) && Possible(m, e) && |m.files| >= 1 && name in m.files[0].files
    ensures |After(m, e).files| >= 1 && name in After(m, e).files[0].files
  {
    assert LifeAt(m, 0);
    EventFiles(m, e);
    if !OfMain(e) && e.vm == 0 {
      FilesAfterWellFormed(m.files[0], RequestsOf(m, e));
    }
  }

  lemma SmoothDoesNotFail(m: Machine, e: Event)
    requires MachineInv(m) && CanGoOn(m, e) && Smooth(e)
    requires |m.files| >= 1 && GUEST_TXT in m.files[0].files
    ensures !Failure(m, e)
  {
    match e {
      case Interrupt(i, run) =>
        assert LifeAt(m, i);
        if m.lives[i].modeInitialized && m.lives[i].writer {
          LoadSucceeds(m.files[0], run);
        }
      case Save(i, run) =>
        assert LifeAt(m, i);
        SaveSucceeds(m.files[i], run, m.lives[i].stage.payload);
      case _ =>
    }
  }

  /** One step more of a run without failures. */
  lemma GoOn(states: seq<Machine>, events: seq<Event>) returns (states': seq<Machine>, events': seq<Event>)
    requires IsMachineRun(states, events) && !Ended(states[|events|])
    requires |states[|events|].files| >= 1 && GUEST_TXT in states[|events|].files[0].files
    requires forall j :: 0 <= j < |events| ==> !FailureAt(states, events, j)
    ensures IsMachineRun(states', events') && |events'| == |events| + 1 && states'[0] == states[0]
    ensures |states'[|events'|].files| >= 1 && GUEST_TXT in states'[|events'|].files[0].files
    ensures forall j :: 0 <= j < |events'| ==> !FailureAt(states', events', j)
    ensures MachineInv(states[|events|]) && MachineInv(states'[|events'|])
    ensures Fuel(states'[|events'|]) < Fuel(states[|events|])
  {
    var m := states[|events|];
    MachineRunInv(states, events, |events|);
    var e := SomebodyGoesOn(m);
    GoingOnChanges(m, e);
    EventUsesFuel(m, e);
    FilesKept(m, e, GUEST_TXT);
    SmoothDoesNotFail(m, e);
    states', events' := Extended(states, events, e);
  }

  lemma Extended(states: seq<Machine>, events: seq<Event>, e: Event)
    returns (states': seq<Machine>, events': seq<Event>)
    requires IsMachineRun(states, events) && Sized(states[|events|]) && Possible(states[|events|], e)
    requires !Failure(states[|events|], e)
    requires forall j :: 0 <= j < |events| ==> !FailureAt(states, events, j)
    ensures IsMachineRun(states', events') && |events'| == |events| + 1 && states'[0] == states[0]
    ensures states'[|events'|] == After(states[|events|], e)
    ensures forall j :: 0 <= j < |events'| ==> !FailureAt(states', events', j)
  {
    states', events' := states + [After(states[|events|], e)], events + [e];
    forall j | 0 <= j < |events'|
      ensures EventAt(states', events', j) && !FailureAt(states', events', j)
    {
      assert j < |events| ==> EventAt(states, events, j) && !FailureAt(states, events, j);
    }
  }

  lemma {:induction false} RunToTheEnd(states: seq<Machine>, events: seq<Event>)
    returns (states': seq<Machine>, events': seq<Event>)
    requires IsMachineRun(states, events) && MachineInv(states[|events|])
    requires |states[|events|].files| >= 1 && GUEST_TXT in states[|events|].files[0].files
    requires forall j :: 0 <= j < |events| ==> !FailureAt(states, events, j)
    ensures IsMachineRun(states', events') && states'[0] == states[0] && Ended(states'[|events'|])
    ensures forall j :: 0 <= j < |events'| ==> !FailureAt(states', events', j)
    decreases Fuel(states[|events|])
  {
    if Ended(states[|events|]) {
      states', events' := states, events;
    } else {
      FuelPositive(states[|events|]);
      states', events' := GoOn(states, events);
      states', events' := RunToTheEnd(states', events');
    }
  }

  /** From power-on, if the writer has a file guest.txt, there is a run that ends in success with everything
      delivered. */
  lemma SuccessIsPossible(m: Machine) returns (states: seq<Machine>, events: seq<Event>)
    requires PoweredOn(m) && GUEST_TXT in m.files[0].files
    ensures IsMachineRun(states, events) && states[0] == m
    ensures ExitSuccess(states[|events|]) && AllDelivered(states[|events|])
  {
    PoweredOnInv(m);
    states, events := RunToTheEnd([m], []);
    ExitStatus(states, events);
    SuccessMeansDelivered(states, events, |events|);
  }
}
