/**
 The grammar of the VMM's records, seen from the other end: in whatever order the producers' calls interleave,
 and whenever the tracer dumps, the records of producer 0 that the decoder reads follow the grammar.
 */
module VmmProjection {
  import opened TraceTypes
  import P = TracePipeline
  import G = TraceGroups
  import RT = TraceRoundTrip
  import opened TraceDump
  import D = TraceDecode
  import TraceCodec
  import opened GuestLifecycle
  import opened GuestTrace

  const VMM: nat := 0

  lemma {:induction false} PublishedPrefix(log: seq<Record>, k: nat, p: nat)
    requires k <= |log|
    ensures P.Published(log[..k], p) <= P.Published(log, p)
    decreases |log|
  {
    if k == |log| {
      assert log[..k] == log;
    } else {
      var front := log[..|log| - 1];
      assert front[..k] == log[..k];
      PublishedPrefix(front, k, p);
    }
  }

  /**
   The VMM calls `trace_emit` for the records of its events, one after the other. The ones it has published,
   followed by the one it may be publishing, are runs 1, 2, 3, ... of the grammar, cut off where the VMM is now.
   Records of other producers may stand between them, even inside the group of one SMC.
   */
  lemma {:induction false} ProjectionIsRuns(vcpus: nat, events: seq<Event>, n: nat, steps: seq<P.Step>) returns (runs: Runs)
    requires EventsOk(vcpus, events) && VMM < n <= 0x100
    requires |P.Run(P.Init(n), steps).log| < TWO64
    requires |P.Run(P.Init(n), steps).calls| == n && P.Run(P.Init(n), steps).calls[VMM] <= ApplyAll(vcpus, events).trace
    ensures var s := P.Run(P.Init(n), steps);
            && VMM < |s.producers| && IsRuns(ApplyAll(vcpus, events), runs)
            && P.Published(s.log, VMM) + P.InFlight(s.producers[VMM]) <= TraceText(runs)
            && |P.InFlight(s.producers[VMM])| <= 1
  {
    runs := EveryTraceIsRuns(vcpus, events);
    P.EveryRunKeepsCalls(n, steps, VMM);
  }

  /** From the guest's faults to the host: what a dump tells about producer 0 is a prefix of runs 1, 2, 3, ... */
  lemma {:induction false} DecodedProjectionIsRuns(
    vcpus: nat, events: seq<Event>, n: nat, steps: seq<P.Step>, torn: Record, stamp: Stamp, log: seq<string>)
    returns (runs: Runs)
    requires EventsOk(vcpus, events) && VMM < n <= 0x100 && RT.StepsOk(steps)
    requires |P.Run(P.Init(n), steps).log| < TWO64 && P.Run(P.Init(n), steps).archive != []
    requires |P.Run(P.Init(n), steps).calls| == n && P.Run(P.Init(n), steps).calls[VMM] <= ApplyAll(vcpus, events).trace
    requires TraceCodec.StampOk(stamp.fields)
    requires var records := RT.Printed(P.Run(P.Init(n), steps).archive, torn);
             RT.Noisy(DumpLines(stamp, records, |records|), log)
    ensures IsRuns(ApplyAll(vcpus, events), runs)
    ensures D.Errors(D.FeedAll(D.Items(log))) == 0
    ensures P.Published(D.FeedAll(D.Items(log)).tally.decoded, VMM) <= TraceText(runs)
  {
    var s := P.Run(P.Init(n), steps);
    runs := ProjectionIsRuns(vcpus, events, n, steps);
    RT.EveryDumpDecodesToAPrefix(n, steps, torn, stamp, log);
    PublishedPrefix(s.log, |s.archive|, VMM);
  }

  // ---------------------------------------------------------------- the records of one SMC

  /** An SMC that reads its registers makes five, eight or nine records. */
  lemma {:induction false} SmcSizes(vcpu: u8, f: Fault)
    requires f.Smc? && f.regs.Some?
    ensures |SmcOutcome(vcpu, f).0| in {5, 8, 9}
  {
  }

  lemma {:induction false} NumbersOfPublished(log: seq<Record>, p: nat)
    ensures |G.Numbers(log, p)| == |P.Published(log, p)|
    decreases |log|
  {
    if log != [] {
      NumbersOfPublished(log[..|log| - 1], p);
    }
  }

  /**
   The VMM publishes the records of one SMC, from the first to the last, while others do what they do. The
   records have consecutive numbers if and only if nobody else publishes in the meantime.
   */
  lemma {:induction false} SmcConsecutiveExactly(n: nat, before: seq<P.Step>, during: seq<P.Step>, vcpu: u8, f: Fault)
    requires n <= 0x100 && |P.Run(P.Run(P.Init(n), before), during).log| < TWO64 && f.Smc? && f.regs.Some?
    requires G.OwnEnds(P.Run(P.Init(n), before), during, VMM)
    requires var s := P.Run(P.Init(n), before); var log := P.Run(s, during).log;
             |s.log| <= |log| && P.Published(log[|s.log|..], VMM) == SmcOutcome(vcpu, f).0
    ensures var s := P.Run(P.Init(n), before); var nums := G.Numbers(P.Run(s, during).log[|s.log|..], VMM);
            |nums| in {5, 8, 9} && (G.Consecutive(nums) <==> G.NoIntruder(s, during, VMM))
  {
    var s := P.Run(P.Init(n), before);
    SmcSizes(vcpu, f);
    NumbersOfPublished(P.Run(s, during).log[|s.log|..], VMM);
    G.ConsecutiveExactly(n, before, during, VMM);
  }

  /** If everybody else stays outside `trace_emit` meanwhile, the records of an SMC are the next ones of the trace. */
  lemma {:induction false} SmcUndisturbed(n: nat, before: seq<P.Step>, during: seq<P.Step>, vcpu: u8, f: Fault)
    requires n <= 0x100 && |P.Run(P.Run(P.Init(n), before), during).log| < TWO64 && f.Smc?
    requires G.Undisturbed(P.Run(P.Init(n), before), during, VMM, SmcOutcome(vcpu, f).0)
    ensures var s := P.Run(P.Init(n), before);
            G.NextRecords(s.log, P.Run(s, during).log, VMM, SmcOutcome(vcpu, f).0)
  {
    G.UndisturbedGroup(n, before, during, VMM, SmcOutcome(vcpu, f).0);
  }
}
