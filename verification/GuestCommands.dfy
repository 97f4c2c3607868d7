/** From the command ring to the guest: the commands that the VMM executes, among faults, are what starts and stops runs. */
module GuestCommands {
  import opened TraceTypes
  import opened GuestLifecycle
  import opened GuestTrace
  import R = CommandRing

  const VERB_GUEST_START: u64 := 4
  const VERB_GUEST_STOP: u64 := 5

  /** What `run_command` makes of an entry. */
  predicate Runs(e: Event, cell: R.Cell) {
    cell.Whole? &&
    match e
    case Start(select, _) => cell.entry.verb == VERB_GUEST_START && select == cell.entry.arg
    case Stop => cell.entry.verb == VERB_GUEST_STOP
    case Query => cell.entry.verb != VERB_GUEST_START && cell.entry.verb != VERB_GUEST_STOP
    case Fault(_) => false
  }

  /** The commands among the events, in order. */
  function Commands(events: seq<Event>): seq<Event> {
    if events == [] then []
    else Commands(events[..|events| - 1]) + if events[|events| - 1].Fault? then [] else [events[|events| - 1]]
  }

  /** The commands among the events are those that the VMM took out of the ring. */
  ghost predicate FromRing(events: seq<Event>, executed: seq<R.Cell>) {
    && |Commands(events)| == |executed|
    && forall i :: 0 <= i < |executed| ==> Runs(Commands(events)[i], executed[i])
  }

  function StartEvents(events: seq<Event>): nat {
    if events == [] then 0
    else StartEvents(events[..|events| - 1]) + if events[|events| - 1].Start? then 1 else 0
  }

  function StartLines(entries: seq<R.Entry>): nat {
    if entries == [] then 0
    else StartLines(entries[..|entries| - 1]) + if entries[|entries| - 1].verb == VERB_GUEST_START then 1 else 0
  }

  lemma {:induction false} StartsAreEvents(vcpus: nat, events: seq<Event>)
    requires EventsOk(vcpus, events)
    ensures Starts(ApplyAll(vcpus, events).trace) <= StartEvents(events)
    decreases |events|
  {
    if events != [] {
      var n := |events| - 1;
      var before := events[..n];
      assert forall i :: 0 <= i < n ==> before[..i] == events[..i];
      StartsAreEvents(vcpus, before);
      var v := ApplyAll(vcpus, before);
      TraceGrows(vcpus, v, events[n]);
      StartsAdded(vcpus, v, events[n]);
    }
  }

  lemma {:induction false} StartsOfCommands(events: seq<Event>)
    ensures StartEvents(Commands(events)) == StartEvents(events)
    decreases |events|
  {
    if events != [] {
      var n := |events| - 1;
      StartsOfCommands(events[..n]);
      if !events[n].Fault? {
        assert Commands(events)[..|Commands(events)| - 1] == Commands(events[..n]);
      } else {
        assert Commands(events) == Commands(events[..n]);
      }
    }
  }

  lemma {:induction false} StartsOfEntries(commands: seq<Event>, entries: seq<R.Entry>)
    requires |commands| == |entries|
    requires forall i :: 0 <= i < |entries| ==> Runs(commands[i], R.Whole(entries[i]))
    ensures StartEvents(commands) == StartLines(entries)
    decreases |commands|
  {
    if commands != [] {
      var n := |commands| - 1;
      StartsOfEntries(commands[..n], entries[..n]);
      assert Runs(commands[n], R.Whole(entries[n]));
    }
  }

  /**
   In every run of the ring, and however faults come between the commands: the VMM's trace is runs 1, 2, 3, ..., and
   there are at most as many as `guest-start` lines among those executed, which are the first lines enqueued.
   */
  lemma {:induction false} EveryRunIsCommanded(steps: seq<R.Step>, vcpus: nat, events: seq<Event>) returns (runs: Runs)
    requires EventsOk(vcpus, events) && FromRing(events, R.Run(R.Init(), steps).executed)
    ensures IsRuns(ApplyAll(vcpus, events), runs)
    ensures var s := R.Run(R.Init(), steps);
            && |s.executed| <= |s.enqueued|
            && Starts(TraceText(runs)) <= StartLines(s.enqueued[..|s.executed|])
  {
    var s := R.Run(R.Init(), steps);
    R.EveryRunExecutesInOrder(steps);
    runs := EveryTraceIsRuns(vcpus, events);
    StartsAreEvents(vcpus, events);
    StartsOfCommands(events);
    StartsOfEntries(Commands(events), s.enqueued[..|s.executed|]);
  }
}
