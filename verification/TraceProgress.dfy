/** The tracer and the holder of the lock never block each other: what they need, and that every schedule gives it. */
module TraceProgress {
  import opened TraceTypes
  import opened TracePipeline

  predicate TracerOnly(steps: seq<Step>) {
    forall i :: 0 <= i < |steps| ==> steps[i].Trace? || steps[i].TakeChannel?
  }

  /** How many operations of the tracer remain before it next stores the tail, when it has records to drain. */
  function Distance(s: State): nat {
    match s.tracer
    case StoreTail(_) => 1
    case ReadEnd(_, _) => 2
    case ReadBegin(_) => 3
    case LoadHeadAt(_) => 4
    case LoadTail => 5
    case Dispatch => if s.badge != {} then 6 else 8
    case Blocked => 7
    case OtherWork => 9
  }

  /** With work announced, the tracer alone has a step that brings it closer to storing the tail. */
  lemma {:induction false} TracerAdvances(s: State) returns (step: Step)
    requires |s.slots| == RING_CAPACITY && |s.calls| == |s.producers|
    requires TracerOk(s) && BadgeOk(s) && s.tail < s.head
    requires Draining(s.tracer) || s.badge != {} || s.pending != {}
    ensures step.Trace? || step.TakeChannel?
    ensures var s' := Next(s, step);
            && s'.head == s.head && s'.log == s.log && s'.producers == s.producers && s'.owner == s.owner
            && (s.tracer.StoreTail? ==> s'.tail == s.tail + 1)
            && (!s.tracer.StoreTail? ==>
                  && s'.tail == s.tail && Distance(s') < Distance(s)
                  && (Draining(s'.tracer) || s'.badge != {} || s'.pending != {}))
  {
    if s.tracer.Dispatch? && s.badge != {} {
      var ch :| ch in s.badge;
      step := TakeChannel(ch);
    } else {
      step := Trace;
      match s.tracer
      case Blocked =>
      case Dispatch =>
      case LoadTail =>
      case LoadHeadAt(_) =>
      case ReadBegin(_) =>
      case ReadEnd(_, _) =>
      case StoreTail(_) =>
      case OtherWork =>
    }
  }

  /** The tracer, running alone, drains a record within nine operations: it never takes the lock and never waits. */
  lemma {:induction false} TracerDrains(s: State) returns (steps: seq<Step>)
    requires Inv(s) && |s.log| < TWO64 && s.tail < s.head
    requires Draining(s.tracer) || s.badge != {} || s.pending != {}
    ensures TracerOnly(steps) && |steps| <= Distance(s) <= 9
    ensures var s' := Run(s, steps);
            s'.tail == s.tail + 1 && s'.producers == s.producers && s'.owner == s.owner && s'.log == s.log && Inv(s')
    decreases Distance(s)
  {
    var step := TracerAdvances(s);
    StepKeepsInv(s, step);
    var s' := Next(s, step);
    assert Run(s, [step]) == Run(s', []);
    if s.tracer.StoreTail? {
      steps := [step];
    } else {
      var rest := TracerDrains(s');
      steps := [step] + rest;
      RunAppend(s, [step], rest);
    }
  }

  predicate HolderAndTracer(p: nat, steps: seq<Step>) {
    forall i :: 0 <= i < |steps| ==> steps[i].Trace? || steps[i].TakeChannel? || steps[i] == Produce(p)
  }

  /** Operations the lock holder itself still has to perform before it has released the lock. */
  function Remaining(phase: Phase): nat {
    match phase
    case LoadHead(_) => 8
    case NotifyFull(_, _) => 8
    case CheckSpace(_, _) => 7
    case TakeSeq(_, _) => 6
    case ReadTime(_, _, _) => 5
    case WriteBegin(_, _) => 4
    case WriteEnd(_, _) => 3
    case StoreHead(_, _) => 2
    case Unlock => 1
    case _ => 0
  }

  /** One more operation of a holder that is not stopped by a full ring. */
  lemma {:induction false} HolderStep(s: State, p: nat)
    requires |s.slots| == RING_CAPACITY && |s.calls| == |s.producers| && WindowOk(s)
    requires p < |s.producers| && Holds(s.producers[p]) && PhaseOk(s, p, s.producers[p])
    requires s.producers[p].CheckSpace? ==> s.head - s.tail < RING_CAPACITY
    ensures var s' := ProducerStep(s, p);
            && Remaining(s'.producers[p]) < Remaining(s.producers[p])
            && |s'.log| == |s.log| + (if s.producers[p].StoreHead? then 1 else 0)
            && (s'.producers[p].CheckSpace? ==> s.producers[p].LoadHead? || s.producers[p].NotifyFull?)
            && (s'.producers[p].Unlock? <==> s.producers[p].StoreHead?)
            && (s.producers[p].Unlock? ==> s'.owner == None)
            && (!s.producers[p].Unlock? ==> s'.owner == s.owner)
  {
    match s.producers[p]
    case LoadHead(_) =>
    case CheckSpace(_, _) =>
    case NotifyFull(_, _) =>
    case TakeSeq(_, _) =>
    case ReadTime(_, _, _) =>
    case WriteBegin(_, _) =>
    case WriteEnd(_, _) =>
    case StoreHead(_, _) =>
    case Unlock =>
  }

  lemma {:induction false} HolderAdvances(s: State, p: nat)
    requires Inv(s) && s.owner == Some(p) && p < |s.producers|
    requires |s.log| + (if s.producers[p].Unlock? then 0 else 1) < TWO64
    requires s.producers[p].CheckSpace? ==> s.head - s.tail < RING_CAPACITY
    ensures var s' := Next(s, Produce(p));
            && Inv(s') && (s'.owner == Some(p) || s'.owner == None)
            && Remaining(s'.producers[p]) < Remaining(s.producers[p])
            && |s'.log| == |s.log| + (if s.producers[p].StoreHead? then 1 else 0)
            && (s'.producers[p].CheckSpace? ==> s.producers[p].LoadHead? || s.producers[p].NotifyFull?)
            && (s'.producers[p].Unlock? <==> s.producers[p].StoreHead?)
            && (s'.owner == None <==> s.producers[p].Unlock?)
  {
    assert Holds(s.producers[p]) && PhaseOk(s, p, s.producers[p]);
    HolderStep(s, p);
    StepKeepsInv(s, Produce(p));
  }

  /** A full ring: the holder notifies, the tracer drains one record, and the holder is back with room. */
  lemma {:induction false} HolderGetsRoom(s: State, p: nat) returns (steps: seq<Step>)
    requires Inv(s) && s.owner == Some(p) && p < |s.producers| && |s.log| < TWO64
    requires s.producers[p].CheckSpace? && s.head - s.tail >= RING_CAPACITY
    ensures HolderAndTracer(p, steps) && |steps| <= 11
    ensures var s' := Run(s, steps);
            && Inv(s') && s'.owner == Some(p) && s'.producers == s.producers && s'.log == s.log
            && s'.head - s'.tail < RING_CAPACITY
  {
    assert PhaseOk(s, p, s.producers[p]);
    var s1 := Next(s, Produce(p));
    StepKeepsInv(s, Produce(p));
    var s2 := Next(s1, Produce(p));
    StepKeepsInv(s1, Produce(p));
    assert p in s2.pending;
    var drain := TracerDrains(s2);
    assert Run(s, [Produce(p), Produce(p)]) == Run(s1, [Produce(p)]) == s2;
    steps := [Produce(p), Produce(p)] + drain;
    RunAppend(s, [Produce(p), Produce(p)], drain);
    assert s2.producers == s.producers;
  }

  /** A holder that has found room publishes and releases with its own operations alone. */
  lemma {:induction false} RoomyHolderReleases(s: State, p: nat) returns (steps: seq<Step>)
    requires Inv(s) && s.owner == Some(p) && p < |s.producers|
    requires |s.log| + (if s.producers[p].Unlock? then 0 else 1) < TWO64
    requires Remaining(s.producers[p]) <= 7
    requires s.producers[p].CheckSpace? ==> s.head - s.tail < RING_CAPACITY
    ensures HolderAndTracer(p, steps) && |steps| <= Remaining(s.producers[p])
    ensures Released(s, Run(s, steps), p)
    decreases Remaining(s.producers[p])
  {
    HolderAdvances(s, p);
    var s' := Next(s, Produce(p));
    assert Run(s, [Produce(p)]) == Run(s', []);
    if s'.owner == None {
      steps := [Produce(p)];
    } else {
      var rest := RoomyHolderReleases(s', p);
      steps := [Produce(p)] + rest;
      RunAppend(s, [Produce(p)], rest);
    }
  }

  /** The record that `p` was about to publish in `s` is published in `s'`, and the lock is free. */
  ghost predicate Released(s: State, s': State, p: nat)
    requires p < |s.producers|
  {
    && s'.owner == None && !s'.lock
    && |s'.log| == |s.log| + if s.producers[p].Unlock? then 0 else 1
  }

  /** As above, from the space check on, whether or not there is room. */
  lemma {:induction false} WaitingHolderReleases(s: State, p: nat) returns (steps: seq<Step>)
    requires Inv(s) && s.owner == Some(p) && p < |s.producers|
    requires |s.log| + (if s.producers[p].Unlock? then 0 else 1) < TWO64
    requires Remaining(s.producers[p]) <= 7
    ensures HolderAndTracer(p, steps) && |steps| <= 18
    ensures Released(s, Run(s, steps), p)
  {
    if s.producers[p].CheckSpace? && s.head - s.tail >= RING_CAPACITY {
      var room := HolderGetsRoom(s, p);
      var rest := RoomyHolderReleases(Run(s, room), p);
      steps := room + rest;
      RunAppend(s, room, rest);
    } else {
      steps := RoomyHolderReleases(s, p);
    }
  }

  lemma {:induction false} HolderReleases(s: State, p: nat) returns (steps: seq<Step>)
    requires Inv(s) && s.owner == Some(p) && p < |s.producers|
    requires |s.log| + (if s.producers[p].Unlock? then 0 else 1) < TWO64
    ensures HolderAndTracer(p, steps) && |steps| <= 19
    ensures Released(s, Run(s, steps), p)
  {
    if Remaining(s.producers[p]) <= 7 {
      steps := WaitingHolderReleases(s, p);
    } else {
      HolderAdvances(s, p);
      var s' := Next(s, Produce(p));
      assert Run(s, [Produce(p)]) == Run(s', []);
      var rest := WaitingHolderReleases(s', p);
      steps := [Produce(p)] + rest;
      RunAppend(s, [Produce(p)], rest);
    }
  }

  // ---------------------------------------------------------------- whatever the others do

  function HolderMoves(steps: seq<Step>, p: nat): nat {
    if steps == [] then 0 else (if steps[0] == Produce(p) then 1 else 0) + HolderMoves(steps[1..], p)
  }

  /** The step is one of the tracer's, and it is enabled. */
  predicate IsTracerMove(s: State, step: Step)
    requires Shape(s)
  {
    (step.Trace? || step.TakeChannel?) && Next(s, step).tracer != s.tracer
  }

  function TracerMoves(s: State, steps: seq<Step>): nat
    requires Shape(s)
    decreases |steps|
  {
    if steps == [] then 0 else (if IsTracerMove(s, steps[0]) then 1 else 0) + TracerMoves(Next(s, steps[0]), steps[1..])
  }

  /** In the course of these steps, `p` gives up the lock. */
  ghost predicate Frees(s: State, steps: seq<Step>, p: nat)
    requires Shape(s)
    decreases |steps|
  {
    steps != [] && (Next(s, steps[0]).owner != Some(p) || Frees(Next(s, steps[0]), steps[1..], p))
  }

  predicate Early(phase: Phase) {
    phase.LoadHead? || phase.CheckSpace? || phase.NotifyFull?
  }

  /** The holder will not be held up by a full ring. */
  predicate HasRoom(s: State, p: nat)
    requires p < |s.producers|
  {
    Early(s.producers[p]) ==> s.head - s.tail < RING_CAPACITY
  }

  predicate Awake(s: State) {
    Draining(s.tracer) || s.badge != {} || s.pending != {}
  }

  /** How many records there will be when `p`, the holder of the lock, frees it. */
  function Target(s: State, p: nat): nat
    requires p < |s.producers|
  {
    |s.log| + if s.producers[p].Unlock? then 0 else 1
  }

  ghost predicate Holding(s: State, p: nat) {
    Inv(s) && s.owner == Some(p) && p < |s.producers| && Target(s, p) < TWO64
  }

  /** Steps of anybody else do not disturb the holder: nobody publishes, and the room only grows. */
  lemma {:induction false} OthersKeep(s: State, step: Step, p: nat)
    requires Holding(s, p) && step != Produce(p)
    ensures var s' := Next(s, step);
            && Holding(s', p) && Target(s', p) == Target(s, p) && s'.producers[p] == s.producers[p]
            && s'.head == s.head && s'.log == s.log && s.tail <= s'.tail
  {
    assert Holds(s.producers[p]);
    if step.Produce? && step.p < |s.producers| {
      OtherProducerKeeps(s, step.p, p);
    } else if step.Trace? {
      TracerFrame(s);
    }
    assert |Next(s, step).log| == |s.log|;
    StepKeepsInv(s, step);
  }

  /** A producer without the lock only spins or notifies. */
  lemma {:induction false} OtherProducerKeeps(s: State, q: nat, p: nat)
    requires Shape(s) && LockOk(s) && s.owner == Some(p) && q < |s.producers| && q != p && p < |s.producers|
    ensures var s' := Next(s, Produce(q));
            && s'.owner == s.owner && s'.producers[p] == s.producers[p]
            && s'.head == s.head && s'.log == s.log && s'.tail == s.tail
  {
    assert !Holds(s.producers[q]);
  }

  /** A holder with room frees the lock in every schedule in which it moves often enough. */
  lemma {:induction false} RoomFrees(s: State, steps: seq<Step>, p: nat)
    requires Holding(s, p) && HasRoom(s, p) && HolderMoves(steps, p) >= Remaining(s.producers[p])
    ensures Frees(s, steps, p)
    decreases |steps|
  {
    assert Holds(s.producers[p]);
    var s' := Next(s, steps[0]);
    if steps[0] == Produce(p) {
      HolderAdvances(s, p);
      if s'.owner == Some(p) {
        RoomFrees(s', steps[1..], p);
      }
    } else {
      OthersKeep(s, steps[0], p);
      RoomFrees(s', steps[1..], p);
    }
  }

  /** While the ring is full and work is announced, an enabled move of the tracer brings it closer to draining a record. */
  lemma {:induction false} TracerCloser(s: State, step: Step)
    requires Shape(s) && TracerOk(s) && WindowOk(s) && s.tail < s.head && Awake(s) && (step.Trace? || step.TakeChannel?)
    ensures var s' := Next(s, step);
            if IsTracerMove(s, step)
            then s'.tail == s.tail + 1 || (s'.tail == s.tail && Awake(s') && Distance(s') < Distance(s))
            else s' == s
  {
    if step.Trace? {
      match s.tracer
      case Blocked =>
      case Dispatch =>
      case LoadTail =>
      case LoadHeadAt(_) =>
      case ReadBegin(_) =>
      case ReadEnd(_, _) =>
      case StoreTail(_) =>
      case OtherWork =>
    }
  }

  /** A step that is not the tracer's leaves the tracer where it is, and announced work stays announced. */
  lemma {:induction false} TracerKept(s: State, step: Step)
    requires Shape(s) && !step.Trace? && !step.TakeChannel?
    ensures var s' := Next(s, step);
            s'.tracer == s.tracer && s'.badge == s.badge && s.pending <= s'.pending && s'.tail == s.tail
  {
    if step.Produce? && step.p < |s.producers| {
      ProducerFrame(s, step.p);
    }
  }

  /** One step of a holder that is stuck at a full ring. */
  lemma {:induction false} StuckStep(s: State, p: nat)
    requires Holding(s, p) && !HasRoom(s, p)
    ensures var s' := Next(s, Produce(p));
            && Holding(s', p) && !HasRoom(s', p) && Target(s', p) == Target(s, p) && s'.log == s.log && s'.tail == s.tail && s'.head == s.head
            && (s.producers[p].NotifyFull? ==> Awake(s'))
            && (s.producers[p].CheckSpace? ==> s'.producers[p].NotifyFull?)
            && (s.producers[p].LoadHead? ==> s'.producers[p].CheckSpace?)
  {
    assert PhaseOk(s, p, s.producers[p]);
    StepKeepsInv(s, Produce(p));
    if s.producers[p].NotifyFull? {
      assert p in Next(s, Produce(p)).pending;
    }
  }

  /** At the end of the steps `p` has freed the lock at some time, or holds it with room, or holds it and work is announced. */
  ghost predicate Progressed(s: State, steps: seq<Step>, p: nat, awake: bool)
    requires Shape(s)
  {
    || Frees(s, steps, p)
    || (Holding(Run(s, steps), p) && (HasRoom(Run(s, steps), p) || (awake && Awake(Run(s, steps)))))
  }

  /** Room, once there, stays until the lock is free. */
  lemma {:induction false} RoomStays(s: State, steps: seq<Step>, p: nat)
    requires Holding(s, p) && HasRoom(s, p)
    ensures Progressed(s, steps, p, false)
    decreases |steps|
  {
    if steps != [] {
      var s' := Next(s, steps[0]);
      if steps[0] == Produce(p) {
        assert Holds(s.producers[p]);
        HolderAdvances(s, p);
        if s'.owner == Some(p) {
          RoomStays(s', steps[1..], p);
        }
      } else {
        OthersKeep(s, steps[0], p);
        RoomStays(s', steps[1..], p);
      }
    }
  }

  function ToNotify(phase: Phase): nat {
    if phase.NotifyFull? then 1 else if phase.CheckSpace? then 2 else 3
  }

  /** A stuck holder that moves three times has woken the tracer, unless it is stuck no more. */
  lemma {:induction false} StuckWakes(s: State, steps: seq<Step>, p: nat)
    requires Holding(s, p) && !HasRoom(s, p)
    requires Awake(s) || HolderMoves(steps, p) >= ToNotify(s.producers[p])
    ensures Progressed(s, steps, p, true)
    decreases |steps|
  {
    if steps != [] {
      var s', rest := Next(s, steps[0]), steps[1..];
      if steps[0] == Produce(p) {
        StuckStep(s, p);
        if Awake(s) {
          TracerKept(s, steps[0]);
        }
        StuckWakes(s', rest, p);
      } else {
        OthersKeep(s, steps[0], p);
        if HasRoom(s', p) {
          RoomStays(s', rest, p);
        } else {
          if Awake(s) {
            AwakeStays(s, steps[0], p);
          }
          StuckWakes(s', rest, p);
        }
      }
    }
  }

  lemma {:induction false} AwakeStays(s: State, step: Step, p: nat)
    requires Holding(s, p) && !HasRoom(s, p) && Awake(s) && step != Produce(p)
    ensures HasRoom(Next(s, step), p) || Awake(Next(s, step))
  {
    if step.Trace? || step.TakeChannel? {
      TracerCloser(s, step);
      OthersKeep(s, step, p);
    } else {
      TracerKept(s, step);
    }
  }

  /** With work announced, nine enabled moves of the tracer make room. */
  lemma {:induction false} TracerMakesRoom(s: State, steps: seq<Step>, p: nat)
    requires Holding(s, p)
    requires HasRoom(s, p) || (Awake(s) && TracerMoves(s, steps) >= Distance(s))
    ensures Progressed(s, steps, p, false)
    decreases |steps|
  {
    if HasRoom(s, p) {
      RoomStays(s, steps, p);
    } else {
      var s', rest := Next(s, steps[0]), steps[1..];
      if steps[0] == Produce(p) {
        StuckStep(s, p);
        TracerKept(s, steps[0]);
      } else {
        OthersKeep(s, steps[0], p);
        if steps[0].Trace? || steps[0].TakeChannel? {
          TracerCloser(s, steps[0]);
        } else {
          TracerKept(s, steps[0]);
        }
      }
      TracerMakesRoom(s', rest, p);
    }
  }

  lemma {:induction false} FreesAppend(s: State, a: seq<Step>, b: seq<Step>, p: nat)
    requires Shape(s) && (Frees(s, a, p) || Frees(Run(s, a), b, p))
    ensures Frees(s, a + b, p)
    decreases |a|
  {
    if a == [] {
      assert a + b == b;
    } else {
      assert (a + b)[1..] == a[1..] + b;
      if Frees(s, a, p) && Next(s, a[0]).owner != Some(p) {
      } else {
        FreesAppend(Next(s, a[0]), a[1..], b, p);
      }
    }
  }

  /** With room, or with announced work that the tracer gets to, the holder frees the lock. */
  lemma {:induction false} AwakeFrees(s: State, b: seq<Step>, c: seq<Step>, p: nat)
    requires Holding(s, p) && (HasRoom(s, p) || Awake(s))
    requires TracerMoves(s, b) >= 9 && HolderMoves(c, p) >= 8
    ensures Frees(s, b + c, p)
  {
    TracerMakesRoom(s, b, p);
    if !Frees(s, b, p) {
      RoomFrees(Run(s, b), c, p);
    }
    FreesAppend(s, b, c, p);
  }

  lemma {:induction false} ScheduleFrees(s: State, a: seq<Step>, b: seq<Step>, c: seq<Step>, p: nat)
    requires Holding(s, p)
    requires HolderMoves(a, p) >= 3 && TracerMoves(Run(s, a), b) >= 9 && HolderMoves(c, p) >= 8
    ensures Frees(s, a + (b + c), p)
  {
    if HasRoom(s, p) {
      RoomStays(s, a, p);
    } else {
      StuckWakes(s, a, p);
    }
    if !Frees(s, a, p) {
      AwakeFrees(Run(s, a), b, c, p);
    }
    FreesAppend(s, a, b + c, p);
  }

  /** When the lock is freed, the record has just been published. */
  lemma {:induction false} FreedAfterPublishing(s: State, steps: seq<Step>, p: nat) returns (k: nat)
    requires Holding(s, p) && Frees(s, steps, p)
    ensures k <= |steps| && Released(s, Run(s, steps[..k]), p)
    decreases |steps|
  {
    var s' := Next(s, steps[0]);
    assert steps[..1] == [steps[0]];
    assert Run(s, [steps[0]]) == s';
    if s'.owner != Some(p) {
      k := 1;
      UnlockReleases(s, steps[0], p);
    } else {
      HoldingGoesOn(s, steps[0], p);
      var j := FreedAfterPublishing(s', steps[1..], p);
      k := j + 1;
      assert steps[..k] == [steps[0]] + steps[1..][..j];
      RunAppend(s, [steps[0]], steps[1..][..j]);
    }
  }

  lemma {:induction false} UnlockReleases(s: State, step: Step, p: nat)
    requires Holding(s, p) && Next(s, step).owner != Some(p)
    ensures Released(s, Next(s, step), p)
  {
    if step != Produce(p) {
      OthersKeep(s, step, p);
    } else {
      assert Holds(s.producers[p]);
      StepKeepsInv(s, step);
    }
  }

  lemma {:induction false} HoldingGoesOn(s: State, step: Step, p: nat)
    requires Holding(s, p) && Next(s, step).owner == Some(p)
    ensures Holding(Next(s, step), p) && Target(Next(s, step), p) == Target(s, p)
  {
    if step != Produce(p) {
      OthersKeep(s, step, p);
    } else if HasRoom(s, p) {
      assert Holds(s.producers[p]);
      HolderAdvances(s, p);
    } else {
      StuckStep(s, p);
    }
  }

  /**
   No deadlock, and no schedule that starves the holder: after every run in which `p` holds the lock, whatever the
   others do, once `p` has moved three times, the tracer nine times where it could, and `p` eight times more, `p`
   has published its record and freed the lock on the way.
   */
  lemma {:induction false} EveryRunReleases(n: nat, steps: seq<Step>, a: seq<Step>, b: seq<Step>, c: seq<Step>, p: nat) returns (k: nat)
    requires n <= 0x100 && Run(Init(n), steps).owner == Some(p) && |Run(Init(n), steps).log| + 1 < TWO64
    requires var s := Run(Init(n), steps);
             HolderMoves(a, p) >= 3 && TracerMoves(Run(s, a), b) >= 9 && HolderMoves(c, p) >= 8
    ensures var s := Run(Init(n), steps);
            && k <= |a + (b + c)| && p < |s.producers| && Released(s, Run(s, (a + (b + c))[..k]), p)
  {
    InitInv(n);
    RunKeepsInv(Init(n), steps);
    var s := Run(Init(n), steps);
    ScheduleFrees(s, a, b, c, p);
    k := FreedAfterPublishing(s, a + (b + c), p);
  }
}
