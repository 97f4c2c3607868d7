/** Which records of one producer have consecutive numbers: it depends on who publishes in between. */
module TraceGroups {
  import opened TraceTypes
  import opened TracePipeline

  // ---------------------------------------------------------------- records of different producers interleave

  /** Producer `p` calls `trace_emit` and nobody else moves until it has returned. */
  function WholeCall(p: nat, body: Body): seq<Step> {
    [Emit(p, body)] + seq(10, _ => Produce(p))
  }

  function Moves(s: State, p: nat, k: nat): (r: State)
    requires Shape(s)
    ensures Shape(r)
    decreases k
  {
    if k == 0 then s else Moves(Next(s, Produce(p)), p, k - 1)
  }

  lemma {:induction false} RunMoves(s: State, p: nat, k: nat)
    requires Shape(s)
    ensures Run(s, seq(k, _ => Produce(p))) == Moves(s, p, k)
    decreases k
  {
    if k > 0 {
      var steps := seq(k, _ => Produce(p));
      assert steps[0] == Produce(p) && steps[1..] == seq(k - 1, _ => Produce(p));
      RunMoves(Next(s, Produce(p)), p, k - 1);
    }
  }

  /** Nobody is in `trace_emit`, and the ring is nearly empty. */
  ghost predicate Quiescent(s: State) {
    && Shape(s) && !s.lock && s.tail == 0 && s.head == s.nextSeq == |s.log| < RING_CAPACITY
    && forall q :: 0 <= q < |s.producers| ==> s.producers[q] == Idle
  }

  /** The state after a call that nobody disturbs. */
  ghost predicate CallDone(s: State, s': State, p: nat, body: Body)
    requires p < |s.calls| && p < 0x100 && |s.log| < RING_CAPACITY
  {
    && Shape(s') && !s'.lock && s'.tail == 0 && s'.now == s.now && |s'.producers| == |s.producers|
    && s'.head == s'.nextSeq == |s'.log|
    && s'.log == s.log + [Record(|s.log|, s.now, p, body)] && s'.calls == s.calls[p := s.calls[p] + [body]]
    && forall q :: 0 <= q < |s'.producers| ==> s'.producers[q] == Idle
  }

  lemma {:induction false} TakesLock(s: State, p: nat, body: Body) returns (s': State)
    requires Quiescent(s) && p < |s.producers| <= 0x100
    ensures Shape(s') && s' == Moves(Next(s, Emit(p, body)), p, 4)
    ensures s'.producers == s.producers[p := ReadTime(body, s.head, s.nextSeq)]
    ensures s'.lock && s'.tail == 0 && s'.head == s.head && s'.nextSeq == s.nextSeq + 1
    ensures s'.log == s.log && s'.now == s.now && s'.calls == s.calls[p := s.calls[p] + [body]]
  {
    var s1 := Next(s, Emit(p, body));
    var s2 := Next(s1, Produce(p));
    var s3 := Next(s2, Produce(p));
    var s4 := Next(s3, Produce(p));
    s' := Next(s4, Produce(p));
    assert Moves(s4, p, 1) == Moves(s', p, 0);
    assert Moves(s2, p, 3) == Moves(s3, p, 2);
    assert s'.producers == s.producers[p := ReadTime(body, s.head, s.nextSeq)];
  }

  lemma {:induction false} Stores(s: State, p: nat, body: Body) returns (s': State)
    requires Shape(s) && p < |s.producers| <= 0x100 && s.head < RING_CAPACITY
    requires s.producers[p] == ReadTime(body, s.head, s.head)
    ensures Shape(s') && s' == Moves(s, p, 3)
    ensures s' == s.(producers := s.producers[p := StoreHead(s.head, Record(s.head, s.now, p, body))], slots := s'.slots)
  {
    var s1 := Next(s, Produce(p));
    var s2 := Next(s1, Produce(p));
    s' := Next(s2, Produce(p));
    assert Moves(s1, p, 2) == Moves(s2, p, 1) == Moves(s', p, 0);
  }

  lemma {:induction false} Publishes(s: State, p: nat, body: Body) returns (s': State)
    requires Shape(s) && p < |s.producers| <= 0x100 && s.tail == 0 && s.head == |s.log| < RING_CAPACITY
    requires s.producers[p] == ReadTime(body, s.head, s.head)
    ensures Shape(s') && s' == Moves(s, p, 6)
    ensures s'.producers == s.producers[p := Idle] && !s'.lock && s'.tail == 0
    ensures s'.head == s.head + 1 && s'.nextSeq == s.nextSeq && s'.calls == s.calls && s'.now == s.now
    ensures s'.log == s.log + [Record(|s.log|, s.now, p, body)]
  {
    var s1 := Stores(s, p, body);
    var s2 := Next(s1, Produce(p));
    var s3 := Next(s2, Produce(p));
    s' := Next(s3, Produce(p));
    assert Moves(s2, p, 2) == Moves(s3, p, 1) == Moves(s', p, 0);
    MovesAdd(s, p, 3, 3);
    assert s'.producers == s.producers[p := Idle];
  }

  lemma {:induction false} MovesAdd(s: State, p: nat, a: nat, b: nat)
    requires Shape(s)
    ensures Moves(s, p, a + b) == Moves(Moves(s, p, a), p, b)
    decreases a
  {
    if a > 0 {
      MovesAdd(Next(s, Produce(p)), p, a - 1, b);
    }
  }

  lemma {:induction false} WholeCallPublishes(s: State, p: nat, body: Body)
    requires Quiescent(s) && p < |s.producers| <= 0x100
    ensures CallDone(s, Run(s, WholeCall(p, body)), p, body)
  {
    var begun := Next(s, Emit(p, body));
    var locked := TakesLock(s, p, body);
    var done := Publishes(locked, p, body);
    MovesAdd(begun, p, 4, 6);
    RunMoves(begun, p, 10);
    assert WholeCall(p, body)[0] == Emit(p, body) && WholeCall(p, body)[1..] == seq(10, _ => Produce(p));
  }

  /**
   Each `trace_emit` takes the lock anew, so a record of another producer can fall between any two records of
   one SMC: their sequence numbers are then not consecutive. Only the projection to one producer is whole.
   */
  lemma {:induction false} GroupCanBeSplit(a: Body, other: Body, b: Body) returns (steps: seq<Step>)
    ensures var s := Run(Init(2), steps);
            && s.calls == [[a, b], [other]]
            && s.log == [Record(0, 0, 0, a), Record(1, 0, 1, other), Record(2, 0, 0, b)]
  {
    var s0 := Init(2);
    var s1 := Run(s0, WholeCall(0, a));
    WholeCallPublishes(s0, 0, a);
    var s2 := Run(s1, WholeCall(1, other));
    WholeCallPublishes(s1, 1, other);
    WholeCallPublishes(s2, 0, b);
    steps := WholeCall(0, a) + WholeCall(1, other) + WholeCall(0, b);
    RunAppend(s0, WholeCall(0, a), WholeCall(1, other));
    RunAppend(s0, WholeCall(0, a) + WholeCall(1, other), WholeCall(0, b));
    assert s0.calls == [[], []];
    assert s1.calls == [[a], []] by { assert [] + [a] == [a]; }
    assert s2.calls == [[a], [other]] by { assert [] + [other] == [other]; }
    assert [a] + [b] == [a, b];
  }

  // ---------------------------------------------------------------- exactly when numbers are consecutive

  /** The step makes a record visible: its producer stores the head. */
  predicate Publishing(s: State, step: Step) {
    step.Produce? && step.p < |s.producers| && s.producers[step.p].StoreHead?
  }

  /** No step of the schedule publishes for another producer than `p`. */
  ghost predicate NoIntruder(s: State, steps: seq<Step>, p: nat)
    requires Shape(s)
    decreases |steps|
  {
    steps != [] ==>
      && (Publishing(s, steps[0]) ==> steps[0].p == p)
      && NoIntruder(Next(s, steps[0]), steps[1..], p)
  }

  /** The schedule begins and ends with `p` publishing a record. */
  ghost predicate OwnEnds(s: State, steps: seq<Step>, p: nat)
    requires Shape(s)
  {
    && steps != [] && steps[0] == steps[|steps| - 1] == Produce(p)
    && Publishing(s, steps[0]) && Publishing(Run(s, steps[..|steps| - 1]), steps[|steps| - 1])
  }

  /** The numbers of the records of `p`, in order. */
  function Numbers(log: seq<Record>, p: nat): seq<u64> {
    if log == [] then []
    else
      var last := log[|log| - 1];
      Numbers(log[..|log| - 1], p) + if last.producer == p then [last.num] else []
  }

  ghost predicate Consecutive(nums: seq<u64>) {
    forall k :: 0 <= k < |nums| ==> nums[k] == nums[0] + k
  }

  predicate AllOf(log: seq<Record>, p: nat) {
    forall k :: 0 <= k < |log| ==> log[k].producer == p
  }

  /** What one step adds to the log. */
  function Fresh(s: State, step: Step): seq<Record> {
    if Publishing(s, step) then [s.producers[step.p].rec] else []
  }

  lemma {:induction false} StepAdds(s: State, step: Step)
    requires Shape(s)
    ensures Next(s, step).log == s.log + Fresh(s, step)
  {
    if step.Produce? && step.p < |s.producers| {
      ProducerFrame(s, step.p);
    } else if step.Trace? {
      TracerFrame(s);
    }
  }

  /** The records that a schedule adds to the log. */
  function Added(s: State, steps: seq<Step>): seq<Record>
    requires Shape(s)
    decreases |steps|
  {
    if steps == [] then [] else Fresh(s, steps[0]) + Added(Next(s, steps[0]), steps[1..])
  }

  lemma {:induction false} RunAdds(s: State, steps: seq<Step>)
    requires Shape(s)
    ensures Run(s, steps).log == s.log + Added(s, steps)
    decreases |steps|
  {
    if steps != [] {
      StepAdds(s, steps[0]);
      RunAdds(Next(s, steps[0]), steps[1..]);
    }
  }

  lemma {:induction false} AllOfFirst(r: Record, rest: seq<Record>, p: nat)
    ensures AllOf([r] + rest, p) <==> r.producer == p && AllOf(rest, p)
  {
    var all := [r] + rest;
    if AllOf(all, p) {
      assert all[0] == r;
      forall k | 0 <= k < |rest|
        ensures rest[k].producer == p
      {
        assert rest[k] == all[k + 1];
      }
    }
  }

  /** A schedule adds records of `p` alone exactly when nobody intrudes. */
  lemma {:induction false} IntrudersLeaveRecords(s: State, steps: seq<Step>, p: nat)
    requires Inv(s) && |Run(s, steps).log| < TWO64
    ensures AllOf(Added(s, steps), p) <==> NoIntruder(s, steps, p)
    decreases |steps|
  {
    if steps != [] {
      var s', rest := Next(s, steps[0]), Added(Next(s, steps[0]), steps[1..]);
      LogGrows(s', steps[1..]);
      StepKeepsInv(s, steps[0]);
      IntrudersLeaveRecords(s', steps[1..], p);
      var added := Added(s, steps);
      if Publishing(s, steps[0]) {
        var q := steps[0].p;
        assert PhaseOk(s, q, s.producers[q]);
        assert s.producers[q].rec.producer == q;
        AllOfFirst(s.producers[q].rec, rest, p);
      } else {
        assert added == rest;
      }
    }
  }

  /** In records numbered by position, those of `p` have positions as numbers; there are as many as records only if all are of `p`. */
  lemma {:induction false} NumbersOf(log: seq<Record>, base: nat, p: nat)
    requires forall k :: 0 <= k < |log| ==> log[k].num == base + k
    ensures |Numbers(log, p)| <= |log| && (|Numbers(log, p)| == |log| <==> AllOf(log, p))
    ensures AllOf(log, p) ==> forall k :: 0 <= k < |log| ==> Numbers(log, p)[k] == base + k
    ensures log != [] && log[0].producer == p ==> |Numbers(log, p)| > 0 && Numbers(log, p)[0] == base
    ensures log != [] && log[|log| - 1].producer == p ==>
              |Numbers(log, p)| > 0 && Numbers(log, p)[|Numbers(log, p)| - 1] == base + |log| - 1
    decreases |log|
  {
    if log != [] {
      var front := log[..|log| - 1];
      NumbersOf(front, base, p);
      assert AllOf(log, p) <==> AllOf(front, p) && log[|log| - 1].producer == p;
    }
  }

  lemma {:induction false} ConsecutiveIsAllOf(log: seq<Record>, base: nat, p: nat)
    requires forall k :: 0 <= k < |log| ==> log[k].num == base + k
    requires log != [] && log[0].producer == p == log[|log| - 1].producer
    ensures Consecutive(Numbers(log, p)) <==> AllOf(log, p)
  {
    NumbersOf(log, base, p);
    var nums := Numbers(log, p);
    if Consecutive(nums) {
      assert nums[|nums| - 1] == nums[0] + (|nums| - 1);
    }
  }

  lemma {:induction false} EndsAreOwn(s: State, steps: seq<Step>, p: nat)
    requires Inv(s) && |Run(s, steps).log| < TWO64 && OwnEnds(s, steps, p)
    ensures var added := Added(s, steps); added != [] && added[0].producer == p == added[|added| - 1].producer
  {
    var n := |steps| - 1;
    var front, t := steps[..n], Run(s, steps[..n]);
    assert PhaseOk(s, p, s.producers[p]);
    assert Added(s, steps)[0] == s.producers[p].rec;
    assert steps == front + [steps[n]];
    RunAppend(s, front, [steps[n]]);
    assert Run(t, [steps[n]]) == Next(t, steps[n]);
    LogGrows(t, [steps[n]]);
    RunKeepsInv(s, front);
    assert PhaseOk(t, p, t.producers[p]);
    StepAdds(t, steps[n]);
    RunAdds(s, steps);
    var log := Run(s, steps).log;
    assert log[|log| - 1] == t.producers[p].rec;
  }

  /**
   Between two publications of `p`, in every run: the records of `p`, however many, have consecutive numbers if
   and only if no step in between publishes for another producer.
   */
  lemma {:induction false} ConsecutiveExactly(n: nat, before: seq<Step>, during: seq<Step>, p: nat)
    requires n <= 0x100 && |Run(Run(Init(n), before), during).log| < TWO64
    requires OwnEnds(Run(Init(n), before), during, p)
    ensures var s := Run(Init(n), before); var s' := Run(s, during);
            && |s.log| <= |s'.log|
            && (Consecutive(Numbers(s'.log[|s.log|..], p)) <==> NoIntruder(s, during, p))
  {
    var s := Run(Init(n), before);
    InitInv(n);
    LogGrows(s, during);
    RunKeepsInv(Init(n), before);
    ScheduleConsecutive(s, during, p);
  }

  lemma {:induction false} ScheduleConsecutive(s: State, steps: seq<Step>, p: nat)
    requires Inv(s) && |Run(s, steps).log| < TWO64 && OwnEnds(s, steps, p)
    ensures var s' := Run(s, steps);
            |s.log| <= |s'.log| && (Consecutive(Numbers(s'.log[|s.log|..], p)) <==> NoIntruder(s, steps, p))
  {
    var s', added := Run(s, steps), Added(s, steps);
    RunAdds(s, steps);
    RunKeepsInv(s, steps);
    assert s'.log[|s.log|..] == added;
    EndsAreOwn(s, steps, p);
    assert forall k :: 0 <= k < |added| ==> added[k] == s'.log[|s.log| + k];
    ConsecutiveIsAllOf(added, |s.log|, p);
    IntrudersLeaveRecords(s, steps, p);
  }

  // ---------------------------------------------------------------- a condition known beforehand

  /** Every other producer is outside `trace_emit`, or has already published. */
  ghost predicate OthersOutside(s: State, p: nat) {
    forall q :: 0 <= q < |s.producers| && q != p ==> InFlight(s.producers[q]) == []
  }

  /** Nobody but `p` calls `trace_emit`. */
  predicate OnlyCalls(steps: seq<Step>, p: nat) {
    forall i :: 0 <= i < |steps| && steps[i].Emit? ==> steps[i].p == p
  }

  lemma {:induction false} OutsideStep(s: State, step: Step, p: nat)
    requires Shape(s) && OthersOutside(s, p) && (step.Emit? ==> step.p == p)
    ensures OthersOutside(Next(s, step), p) && (Publishing(s, step) ==> step.p == p)
  {
    if step.Produce? && step.p < |s.producers| {
      MoverInFlight(s, step.p);
      ProducerFrame(s, step.p);
    } else if step.Trace? {
      TracerFrame(s);
    }
  }

  lemma {:induction false} OutsideMeansNoIntruder(s: State, steps: seq<Step>, p: nat)
    requires Shape(s) && OthersOutside(s, p) && OnlyCalls(steps, p)
    ensures NoIntruder(s, steps, p)
    decreases |steps|
  {
    if steps != [] {
      OutsideStep(s, steps[0], p);
      assert OnlyCalls(steps[1..], p);
      OutsideMeansNoIntruder(Next(s, steps[0]), steps[1..], p);
    }
  }

  function Bodies(log: seq<Record>): (bs: seq<Body>)
    ensures |bs| == |log|
  {
    seq(|log|, k requires 0 <= k < |log| => log[k].body)
  }

  lemma {:induction false} PublishedOfAdded(log: seq<Record>, added: seq<Record>, p: nat)
    requires AllOf(added, p)
    ensures Published(log + added, p) == Published(log, p) + Bodies(added)
    decreases |added|
  {
    if added == [] {
      assert log + added == log;
    } else {
      var front, last := added[..|added| - 1], added[|added| - 1];
      PublishedOfAdded(log, front, p);
      PublishedAppend(log + front, last, p);
      assert log + added == (log + front) + [last];
      assert Bodies(added) == Bodies(front) + [last.body];
    }
  }

  /**
   From before its first call until after its last, `p` records `group`; every other producer is outside
   `trace_emit` when it begins, and none calls it until `p` has finished.
   */
  ghost predicate Undisturbed(s: State, steps: seq<Step>, p: nat, group: seq<Body>)
    requires Shape(s)
  {
    var s' := Run(s, steps);
    && p < |s.producers| == |s'.producers|
    && s.producers[p].Idle? && s'.producers[p].Idle? && s'.calls[p] == s.calls[p] + group
    && OthersOutside(s, p) && OnlyCalls(steps, p)
  }

  /** `log` continues `first` with the records of `group`, by `p`, under the next numbers. */
  ghost predicate NextRecords(first: seq<Record>, log: seq<Record>, p: nat, group: seq<Body>) {
    && |log| == |first| + |group|
    && forall k :: |first| <= k < |log| ==> log[k].body == group[k - |first|] && log[k].num == k && log[k].producer == p
  }

  /** Then the records of `p` are the next records of the trace, under the next numbers. */
  lemma {:induction false} UndisturbedGroup(n: nat, before: seq<Step>, during: seq<Step>, p: nat, group: seq<Body>)
    requires n <= 0x100 && |Run(Run(Init(n), before), during).log| < TWO64
    requires Undisturbed(Run(Init(n), before), during, p, group)
    ensures NextRecords(Run(Init(n), before).log, Run(Run(Init(n), before), during).log, p, group)
  {
    var s := Run(Init(n), before);
    InitInv(n);
    LogGrows(s, during);
    RunKeepsInv(Init(n), before);
    UndisturbedSchedule(s, during, p, group);
  }

  lemma {:induction false} UndisturbedSchedule(s: State, steps: seq<Step>, p: nat, group: seq<Body>)
    requires Inv(s) && |Run(s, steps).log| < TWO64 && Undisturbed(s, steps, p, group)
    ensures NextRecords(s.log, Run(s, steps).log, p, group)
  {
    RunAdds(s, steps);
    RunKeepsInv(s, steps);
    OutsideMeansNoIntruder(s, steps, p);
    IntrudersLeaveRecords(s, steps, p);
    AddedAreCalls(s, Run(s, steps), Added(s, steps), p, group);
    AddedAreNext(s.log, Added(s, steps), p);
  }

  lemma {:induction false} AddedAreCalls(s: State, s': State, added: seq<Record>, p: nat, group: seq<Body>)
    requires CallsOk(s) && CallsOk(s') && s'.log == s.log + added && AllOf(added, p)
    requires p < |s.producers| == |s'.producers| && s.producers[p].Idle? && s'.producers[p].Idle?
    requires s'.calls[p] == s.calls[p] + group
    ensures Bodies(added) == group
  {
    PublishedOfAdded(s.log, added, p);
    assert s.calls[p] == Published(s.log, p) && s'.calls[p] == Published(s'.log, p);
    SameRest(s.calls[p], group, Bodies(added));
  }

  lemma {:induction false} AddedAreNext(log: seq<Record>, added: seq<Record>, p: nat)
    requires AllOf(added, p) && forall k :: 0 <= k < |log + added| ==> (log + added)[k].num == k
    ensures NextRecords(log, log + added, p, Bodies(added))
  {
  }

  lemma {:induction false} SameRest<T>(a: seq<T>, b: seq<T>, c: seq<T>)
    requires a + b == a + c
    ensures b == c
  {
    assert b == (a + b)[|a|..] && c == (a + c)[|a|..];
  }

  // ---------------------------------------------------------------- time stamps

  /** Records from number `base` on, published or about to be, were stamped at `start` or later. */
  ghost predicate StampedSince(s: State, base: nat, start: u64) {
    && start <= s.now
    && (forall k :: base <= k < |s.log| ==> start <= s.log[k].time)
    && (forall q :: 0 <= q < |s.producers| && HasRecord(s.producers[q]) ==> start <= s.producers[q].rec.time)
  }

  lemma {:induction false} StampStep(s: State, step: Step, base: nat, start: u64)
    requires Shape(s) && base <= |s.log| && StampedSince(s, base, start)
    ensures StampedSince(Next(s, step), base, start)
  {
    StepAdds(s, step);
    if step.Trace? {
      TracerFrame(s);
    } else if step.Produce? && step.p < |s.producers| {
      ProducerFrame(s, step.p);
      MoverStamp(s, step.p, start);
    }
  }

  lemma {:induction false} MoverStamp(s: State, p: nat, start: u64)
    requires |s.slots| == RING_CAPACITY && p < |s.producers| && start <= s.now
    requires HasRecord(s.producers[p]) ==> start <= s.producers[p].rec.time
    ensures var s' := ProducerStep(s, p);
            s'.now == s.now && (HasRecord(s'.producers[p]) ==> start <= s'.producers[p].rec.time)
  {
    match s.producers[p]
    case Idle =>
    case Exchange(_) =>
    case Spin(_) =>
    case LoadHead(_) =>
    case CheckSpace(_, _) =>
    case NotifyFull(_, _) =>
    case TakeSeq(_, _) =>
    case ReadTime(_, _, _) =>
    case WriteBegin(_, _) =>
    case WriteEnd(_, _) =>
    case StoreHead(_, _) =>
    case Unlock =>
    case NotifyDone =>
  }

  lemma {:induction false} StampRun(s: State, steps: seq<Step>, base: nat, start: u64)
    requires Shape(s) && base <= |s.log| && StampedSince(s, base, start)
    ensures StampedSince(Run(s, steps), base, start)
    decreases |steps|
  {
    if steps != [] {
      StampStep(s, steps[0], base, start);
      StepAdds(s, steps[0]);
      StampRun(Next(s, steps[0]), steps[1..], base, start);
    }
  }

  /**
   A time stamp is of the time of its call: when nobody has stamped a record that is still unpublished, every record
   published in the steps that follow is stamped not before they begin and not after they end.
   */
  lemma {:induction false} EveryStampIsOfItsTime(n: nat, before: seq<Step>, during: seq<Step>, k: nat)
    requires n <= 0x100 && |Run(Run(Init(n), before), during).log| < TWO64
    requires var s := Run(Init(n), before);
             (forall q :: 0 <= q < |s.producers| ==> !HasRecord(s.producers[q])) && |s.log| <= k < |Run(s, during).log|
    ensures var s := Run(Init(n), before); s.now <= Run(s, during).log[k].time <= Run(s, during).now
  {
    var s := Run(Init(n), before);
    InitInv(n);
    LogGrows(s, during);
    RunKeepsInv(Init(n), before);
    RunKeepsInv(s, during);
    StampRun(s, during, |s.log|, s.now);
  }
}
