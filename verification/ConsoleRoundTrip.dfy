/**
 The guest's console, from end to end: the bytes that the guest writes are printed by the VMM and traced; the trace
 goes through the ring, the archive, a dump and the decoder; and the host rebuilds lines from what it decoded.
 */
module ConsoleRoundTrip {
  import opened TraceTypes
  import opened GuestConsole
  import opened TraceDump
  import P = TracePipeline
  import D = TraceDecode
  import G = TraceGroups
  import V = VmmProjection
  import RT = TraceRoundTrip
  import TraceCodec

  /** Producers other than the VMM trace commands only. */
  predicate OthersTraceCommands(steps: seq<P.Step>) {
    forall i :: 0 <= i < |steps| && steps[i].Emit? && steps[i].p != V.VMM ==> steps[i].body.kind == KIND_CMD
  }

  ghost predicate LogForeign(log: seq<Record>) {
    forall i :: 0 <= i < |log| && log[i].producer != V.VMM ==> log[i].body.kind == KIND_CMD
  }

  ghost predicate FlightForeign(producers: seq<P.Phase>) {
    forall p, i :: 0 <= p < |producers| && p != V.VMM && 0 <= i < |P.InFlight(producers[p])| ==>
      P.InFlight(producers[p])[i].kind == KIND_CMD
  }

  lemma {:induction false} StepKeepsLog(s: P.State, step: P.Step)
    requires P.Shape(s) && P.PhasesOk(s) && LogForeign(s.log) && FlightForeign(s.producers)
    ensures LogForeign(P.Next(s, step).log)
  {
    G.StepAdds(s, step);
    if G.Publishing(s, step) {
      assert P.PhaseOk(s, step.p, s.producers[step.p]);
      assert P.InFlight(s.producers[step.p])[0] == s.producers[step.p].rec.body;
    }
  }

  lemma {:induction false} StepKeepsFlight(s: P.State, step: P.Step)
    requires P.Shape(s) && FlightForeign(s.producers)
    requires step.Emit? && step.p != V.VMM ==> step.body.kind == KIND_CMD
    ensures FlightForeign(P.Next(s, step).producers)
  {
    if step.Produce? && step.p < |s.producers| {
      P.MoverInFlight(s, step.p);
      P.ProducerFrame(s, step.p);
    } else if step.Trace? {
      P.TracerFrame(s);
    }
  }

  lemma {:induction false} RunKeepsForeign(s: P.State, steps: seq<P.Step>)
    requires P.Inv(s) && LogForeign(s.log) && FlightForeign(s.producers)
    requires OthersTraceCommands(steps) && |P.Run(s, steps).log| < TWO64
    ensures LogForeign(P.Run(s, steps).log)
    decreases |steps|
  {
    if steps != [] {
      var s' := P.Next(s, steps[0]);
      P.LogGrows(s', steps[1..]);
      P.StepKeepsInv(s, steps[0]);
      StepKeepsLog(s, steps[0]);
      StepKeepsFlight(s, steps[0]);
      assert OthersTraceCommands(steps[1..]);
      RunKeepsForeign(s', steps[1..]);
    }
  }

  /** Commands are no console bytes: the host rebuilds the same lines from the whole log as from the VMM's records. */
  lemma {:induction false} FeedProjection(log: seq<Record>, tx: u64)
    requires LogForeign(log)
    ensures FeedAll(G.Bodies(log), tx) == FeedAll(P.Published(log, V.VMM), tx)
    decreases |log|
  {
    if log != [] {
      var front, last := log[..|log| - 1], log[|log| - 1];
      FeedProjection(front, tx);
      assert G.Bodies(log) == G.Bodies(front) + [last.body];
      FeedOneMore(G.Bodies(front), last.body, tx);
      FeedOneMore(P.Published(front, V.VMM), last.body, tx);
      if last.producer != V.VMM {
        assert P.Published(front, V.VMM) + [] == P.Published(front, V.VMM);
      }
    }
  }

  /** Printed lines are never taken back. */
  lemma {:induction false} PrintedGrows(l: Lines, c: char)
    ensures Printed(l) <= Printed(AddByte(l, c))
  {
    if c == '\n' {
      FlushAtNewline(l);
    } else {
      StepOfByte(l, c);
    }
  }

  lemma {:induction false} PrintedOfPrefix(a: seq<Body>, b: seq<Body>, tx: u64)
    requires a <= b
    ensures Printed(FeedAll(a, tx)) <= Printed(FeedAll(b, tx))
    decreases |b|
  {
    if |a| < |b| {
      var front, last := b[..|b| - 1], b[|b| - 1];
      assert a <= front && b == front + [last];
      PrintedOfPrefix(a, front, tx);
      FeedOneMore(front, last, tx);
      if IsConsoleByte(last, tx) {
        PrintedGrows(FeedAll(front, tx), ByteOf(last.value));
      }
    } else {
      assert a == b;
    }
  }

  /** The lines that the host rebuilds from a log. */
  function Rebuilt(log: seq<string>, tx: u64): Lines {
    FeedAll(G.Bodies(D.FeedAll(D.Items(log)).tally.decoded), tx)
  }

  /** A dump of this state, printed into a log with other output. */
  ghost predicate IsDumpOf(s: P.State, torn: Record, stamp: Stamp, log: seq<string>) {
    && TraceCodec.StampOk(stamp.fields) && s.archive != []
    && var records := RT.Printed(s.archive, torn);
       RT.Noisy(DumpLines(stamp, records, |records|), log)
  }

  /**
   In every interleaving, whenever the tracer dumps: what the host rebuilds from the decoded dump, without CRs and
   in pieces of 255, is a prefix of the lines that the VMM printed, without error; and it is all of them when the
   dump has all of the VMM's records.
   */
  lemma {:induction false} RebuiltConsoleIsPrinted(n: nat, steps: seq<P.Step>, torn: Record, stamp: Stamp, log: seq<string>, uart: GuestUart)
    requires V.VMM < n <= 0x100 && RT.StepsOk(steps) && OthersTraceCommands(steps)
    requires |P.Run(P.Init(n), steps).log| < TWO64 && IsDumpOf(P.Run(P.Init(n), steps), torn, stamp, log)
    requires uart.Valid() && |P.Run(P.Init(n), steps).calls| == n && P.Run(P.Init(n), steps).calls[V.VMM] <= uart.trace
    ensures D.Errors(D.FeedAll(D.Items(log))) == 0
    ensures var tx := uart.gpa + UTXH;
            && Printed(Rebuilt(log, tx)) <= uart.printed
            && (P.Published(D.FeedAll(D.Items(log)).tally.decoded, V.VMM) == uart.trace ==> Printed(Rebuilt(log, tx)) == uart.printed)
  {
    var s, tx := P.Run(P.Init(n), steps), uart.gpa + UTXH;
    RT.EveryDumpDecodesToAPrefix(n, steps, torn, stamp, log);
    P.EveryRunKeepsCalls(n, steps, V.VMM);
    P.InitInv(n);
    RunKeepsForeign(P.Init(n), steps);
    var decoded := s.log[..|s.archive|];
    FeedProjection(decoded, tx);
    V.PublishedPrefix(s.log, |s.archive|, V.VMM);
    PrintedOfPrefix(P.Published(decoded, V.VMM), uart.trace, tx);
  }

  /** When the rebuilt lines are short and hold no CR and no NUL, they are lines that the VMM printed, as they are. */
  lemma {:induction false} PlainRebuiltIsPrinted(l: Lines, printed: seq<string>)
    requires Printed(l) <= printed && forall i :: 0 <= i < |l.done| ==> Plain(l.done[i])
    ensures l.done <= printed
  {
    PlainLinesPrinted(l.done);
  }
}
