/**
 The trace ring: any number of producers share a spin-locked ring, and one tracer drains it into a
 bounded archive. One step is one atomic operation of one thread, read as sequentially consistent.
 Copying a record into or out of a slot is not atomic: it has a begin and an end step.
 */
module TracePipeline {
  import opened TraceTypes
  import RingIndex

  /** A slot is `Torn` while a producer is half way through storing a record in it. */
  datatype Slot = Empty | Torn | Full(rec: Record)

  /** Where a producer is inside `trace_emit`; each phase names the operation it performs next. */
  datatype Phase =
    | Idle
    | Exchange(body: Body)                                    // try to take the lock
    | Spin(body: Body)                                        // wait until the lock reads free
    | LoadHead(body: Body)
    | CheckSpace(body: Body, head: u64)
    | NotifyFull(body: Body, head: u64)                       // the ring is full: wake the tracer, yield
    | TakeSeq(body: Body, head: u64)
    | ReadTime(body: Body, head: u64, num: u64)
    | WriteBegin(head: u64, rec: Record)
    | WriteEnd(head: u64, rec: Record)
    | StoreHead(head: u64, rec: Record)
    | Unlock
    | NotifyDone

  /** Where the tracer is inside its event loop and `drain_trace`. */
  datatype Drain =
    | Blocked
    | Dispatch
    | LoadTail
    | LoadHeadAt(t: u64)
    | ReadBegin(t: u64)
    | ReadEnd(t: u64, seen: Slot)
    | StoreTail(t: u64)
    | OtherWork                                               // consoles, dump request, mirror

  datatype State = State(
    head: u64, tail: u64, nextSeq: u64, lock: bool, slots: seq<Slot>,
    archive: seq<Slot>, notArchived: nat,
    pending: set<nat>, badge: set<nat>, now: u64,
    producers: seq<Phase>, tracer: Drain,
    // History only: who holds the lock, the order of publication, and every call each producer made.
    owner: Option<nat>, log: seq<Record>, calls: seq<seq<Body>>)

  datatype Step =
    | Tick(ticks: nat)                    // the system counter advances
    | Emit(p: nat, body: Body)            // an idle producer calls trace_emit
    | Produce(p: nat)                     // a producer's next atomic operation
    | Trace                               // the tracer's next atomic operation
    | TakeChannel(ch: nat)                // the tracer dispatches one of the channels it was woken for

  function Init(n: nat): State {
    State(0, 0, 0, false, seq(RING_CAPACITY, _ => Empty), [], 0, {}, {}, 0,
          seq(n, _ => Idle), Blocked, None, [], seq(n, _ => []))
  }

  function SlotOf(i: u64): nat {
    i % RING_CAPACITY
  }

  function At(s: State, p: nat, phase: Phase): State
    requires p < |s.producers|
  {
    s.(producers := s.producers[p := phase])
  }

  /** One atomic operation of producer `p`. */
  function ProducerStep(s: State, p: nat): (r: State)
    requires p < |s.producers| && |s.slots| == RING_CAPACITY
    ensures |r.slots| == |s.slots| && |r.calls| == |s.calls| && |r.producers| == |s.producers| && |s.log| <= |r.log|
  {
    match s.producers[p]
    case Idle => s
    case Exchange(body) =>
      if s.lock then At(s, p, Spin(body)) else At(s, p, LoadHead(body)).(lock := true, owner := Some(p))
    case Spin(body) => if s.lock then s else At(s, p, Exchange(body))
    case LoadHead(body) => At(s, p, CheckSpace(body, s.head))
    case CheckSpace(body, head) =>
      At(s, p, if Sub64(head, s.tail) >= RING_CAPACITY then NotifyFull(body, head) else TakeSeq(body, head))
    case NotifyFull(body, head) => At(s, p, CheckSpace(body, head)).(pending := s.pending + {p})
    case TakeSeq(body, head) => At(s, p, ReadTime(body, head, s.nextSeq)).(nextSeq := Inc64(s.nextSeq))
    case ReadTime(body, head, q) => At(s, p, WriteBegin(head, Record(q, s.now, p % 0x100, body)))
    case WriteBegin(head, rec) => At(s, p, WriteEnd(head, rec)).(slots := s.slots[SlotOf(head) := Torn])
    case WriteEnd(head, rec) => At(s, p, StoreHead(head, rec)).(slots := s.slots[SlotOf(head) := Full(rec)])
    case StoreHead(head, rec) => At(s, p, Unlock).(head := Inc64(head), log := s.log + [rec])
    case Unlock => At(s, p, NotifyDone).(lock := false, owner := None)
    case NotifyDone => At(s, p, Idle).(pending := s.pending + {p})
  }

  /** One atomic operation of the tracer. A record that changes while it is copied is archived torn. */
  function TracerStep(s: State): (r: State)
    requires |s.slots| == RING_CAPACITY
    ensures r.slots == s.slots && r.producers == s.producers && r.calls == s.calls && r.log == s.log
  {
    match s.tracer
    case Blocked => if s.pending == {} then s else s.(badge := s.pending, pending := {}, tracer := Dispatch)
    case Dispatch => if s.badge == {} then s.(tracer := Blocked) else s
    case LoadTail => s.(tracer := LoadHeadAt(s.tail))
    case LoadHeadAt(t) => s.(tracer := if t == s.head then OtherWork else ReadBegin(t))
    case ReadBegin(t) =>
      if |s.archive| == ARCHIVE_CAPACITY then s.(notArchived := s.notArchived + 1, tracer := StoreTail(t))
      else s.(tracer := ReadEnd(t, s.slots[SlotOf(t)]))
    case ReadEnd(t, seen) =>
      s.(archive := s.archive + [if seen == s.slots[SlotOf(t)] then seen else Torn], tracer := StoreTail(t))
    case StoreTail(t) => s.(tail := Inc64(t), tracer := LoadHeadAt(Inc64(t)))
    case OtherWork => s.(tracer := Dispatch)
  }

  /** A step that is not enabled leaves the state alone, so every list of steps is a run. */
  function Next(s: State, step: Step): (r: State)
    requires |s.slots| == RING_CAPACITY && |s.calls| == |s.producers|
    ensures |r.slots| == |s.slots| && |r.calls| == |s.calls| && |r.producers| == |s.producers| && |s.log| <= |r.log|
  {
    match step
    case Tick(d) => if s.now + d < TWO64 then s.(now := s.now + d) else s
    case Emit(p, body) =>
      if p < |s.producers| && s.producers[p].Idle?
      then At(s, p, Exchange(body)).(calls := s.calls[p := s.calls[p] + [body]])
      else s
    case Produce(p) => if p < |s.producers| then ProducerStep(s, p) else s
    case Trace => TracerStep(s)
    case TakeChannel(ch) =>
      if s.tracer.Dispatch? && ch in s.badge then s.(badge := s.badge - {ch}, tracer := LoadTail) else s
  }

  ghost predicate Shape(s: State) {
    |s.slots| == RING_CAPACITY && |s.calls| == |s.producers|
  }

  function Run(s: State, steps: seq<Step>): State
    requires Shape(s)
    ensures Shape(Run(s, steps))
    decreases |steps|
  {
    if steps == [] then s else Run(Next(s, steps[0]), steps[1..])
  }

  // ---------------------------------------------------------------- what every step keeps

  predicate Holds(phase: Phase) {
    !phase.Idle? && !phase.Exchange? && !phase.Spin? && !phase.NotifyDone?
  }

  predicate HasSeq(phase: Phase) {
    phase.ReadTime? || phase.WriteBegin? || phase.WriteEnd? || phase.StoreHead?
  }

  predicate HasRecord(phase: Phase) {
    phase.WriteBegin? || phase.WriteEnd? || phase.StoreHead?
  }

  /** The call a producer has made and not yet published. */
  function InFlight(phase: Phase): seq<Body> {
    if phase.Idle? || phase.Unlock? || phase.NotifyDone? then []
    else if HasRecord(phase) then [phase.rec.body]
    else [phase.body]
  }

  /** The bodies of the records in `log` that producer `p` published, in order. */
  function Published(log: seq<Record>, p: nat): seq<Body> {
    if log == [] then []
    else
      var last := log[|log| - 1];
      Published(log[..|log| - 1], p) + if last.producer == p then [last.body] else []
  }

  /** The lock has one holder: the producer inside the critical section. */
  ghost predicate LockOk(s: State) {
    && s.lock == s.owner.Some?
    && (forall p :: 0 <= p < |s.producers| ==> (Holds(s.producers[p]) <==> s.owner == Some(p)))
    && (s.owner.Some? ==> s.owner.value < |s.producers|)
  }

  ghost predicate RecordOk(s: State, p: nat, rec: Record) {
    && rec.num == |s.log|
    && rec.producer == p
    && rec.time <= s.now
    && (s.log != [] ==> s.log[|s.log| - 1].time <= rec.time)
  }

  /** What the holder of the lock knows. */
  ghost predicate PhaseOk(s: State, p: nat, phase: Phase) {
    match phase
    case CheckSpace(_, head) => head == s.head
    case NotifyFull(_, head) => head == s.head
    case TakeSeq(_, head) => head == s.head && s.head - s.tail < RING_CAPACITY
    case ReadTime(_, head, q) => head == s.head && s.head - s.tail < RING_CAPACITY && q == |s.log|
    case WriteBegin(head, rec) => head == s.head && s.head - s.tail < RING_CAPACITY && RecordOk(s, p, rec)
    case WriteEnd(head, rec) =>
      head == s.head && s.head - s.tail < RING_CAPACITY && RecordOk(s, p, rec)
    case StoreHead(head, rec) =>
      && head == s.head && s.head - s.tail < RING_CAPACITY && RecordOk(s, p, rec)
      && |s.slots| == RING_CAPACITY && s.slots[SlotOf(head)] == Full(rec)
    case _ => true
  }

  ghost predicate PhasesOk(s: State) {
    forall p :: 0 <= p < |s.producers| ==> PhaseOk(s, p, s.producers[p])
  }

  ghost predicate SeqOk(s: State) {
    s.nextSeq ==
    (|s.log| + if s.owner.Some? && s.owner.value < |s.producers| && HasSeq(s.producers[s.owner.value])
               then 1 else 0) % TWO64
  }

  /** Every published record that is not yet drained is whole, in its own slot. */
  ghost predicate WindowOk(s: State) {
    && |s.slots| == RING_CAPACITY
    && s.head == |s.log| && s.tail <= s.head && s.head - s.tail <= RING_CAPACITY
    && forall i: nat :: s.tail <= i < |s.log| ==> s.slots[i % RING_CAPACITY] == Full(s.log[i])
  }

  /** The published records are numbered 0, 1, 2, ... and their times never decrease. */
  ghost predicate LogOk(log: seq<Record>, now: u64) {
    && (forall i :: 0 <= i < |log| ==> log[i].num == i && log[i].time <= now)
    && (forall i, j :: 0 <= i <= j < |log| ==> log[i].time <= log[j].time)
  }

  function Drained(s: State): nat {
    s.tail + if s.tracer.StoreTail? then 1 else 0
  }

  /** The archive is a gapless prefix of the log, and what is missing from it is counted. */
  ghost predicate ArchiveOk(s: State) {
    && |s.archive| <= ARCHIVE_CAPACITY
    && |s.archive| <= |s.log|
    && (forall i :: 0 <= i < |s.archive| ==> s.archive[i] == Full(s.log[i]))
    && |s.archive| + s.notArchived == Drained(s)
    && (s.notArchived > 0 ==> |s.archive| == ARCHIVE_CAPACITY)
  }

  /** What the tracer knows about the slot it is draining. */
  ghost predicate TracerOk(s: State) {
    match s.tracer
    case LoadHeadAt(t) => t == s.tail
    case ReadBegin(t) => t == s.tail < s.head
    case ReadEnd(t, seen) =>
      && t == s.tail < s.head && |s.archive| < ARCHIVE_CAPACITY
      && |s.slots| == RING_CAPACITY && seen == s.slots[SlotOf(t)]
    case StoreTail(t) => t == s.tail < s.head
    case _ => true
  }

  /** Nothing is dropped or reordered: each producer's records are exactly its calls, in call order. */
  ghost predicate CallsOk(s: State) {
    && |s.calls| == |s.producers| <= 0x100
    && forall p :: 0 <= p < |s.producers| ==> s.calls[p] == Published(s.log, p) + InFlight(s.producers[p])
  }

  predicate Draining(d: Drain) {
    d.LoadTail? || d.LoadHeadAt? || d.ReadBegin? || d.ReadEnd? || d.StoreTail?
  }

  predicate Notifying(phase: Phase) {
    phase.Unlock? || phase.NotifyDone?
  }

  /** A non-empty ring is always about to be looked at. */
  ghost predicate WakeOk(s: State) {
    s.tail != s.head ==>
      || Draining(s.tracer) || s.badge != {} || s.pending != {}
      || exists p :: 0 <= p < |s.producers| && Notifying(s.producers[p])
  }

  ghost predicate BadgeOk(s: State) {
    s.badge != {} ==> !s.tracer.Blocked?
  }

  ghost predicate Inv(s: State) {
    LockOk(s) && PhasesOk(s) && SeqOk(s) && WindowOk(s) && LogOk(s.log, s.now)
    && ArchiveOk(s) && TracerOk(s) && CallsOk(s) && WakeOk(s) && BadgeOk(s)
  }

  /** The slot the lock holder stores into is none of the undrained ones. */
  lemma {:induction false} FreeSlot(s: State)
    requires WindowOk(s) && s.head - s.tail < RING_CAPACITY
    ensures forall i: nat :: s.tail <= i < |s.log| ==> i % RING_CAPACITY != SlotOf(s.head)
  {
    forall i: nat | s.tail <= i < |s.log| ensures i % RING_CAPACITY != SlotOf(s.head) {
      RingIndex.DifferentSlots(i, s.head, RING_CAPACITY);
    }
  }

  lemma {:induction false} PublishedAppend(log: seq<Record>, rec: Record, p: nat)
    ensures Published(log + [rec], p) == Published(log, p) + if rec.producer == p then [rec.body] else []
  {
    assert (log + [rec])[..|log|] == log;
  }

  lemma {:induction false} InitInv(n: nat)
    requires n <= 0x100
    ensures Inv(Init(n))
  {
  }

  /** Wakeups survive a step that only moves a producer which is not on its way to notify. */
  lemma {:induction false} WakeFrame(s: State, s': State, p: nat)
    requires WakeOk(s) && p < |s.producers| && !Notifying(s.producers[p])
    requires s'.head == s.head && s'.tail == s.tail && s'.tracer == s.tracer && s'.badge == s.badge
    requires s.pending <= s'.pending
    requires |s'.producers| == |s.producers|
    requires forall q :: 0 <= q < |s.producers| && q != p ==> s'.producers[q] == s.producers[q]
    ensures WakeOk(s')
  {
    if s'.tail != s'.head && !(Draining(s'.tracer) || s'.badge != {} || s'.pending != {}) {
      var q :| 0 <= q < |s.producers| && Notifying(s.producers[q]);
      assert Notifying(s'.producers[q]);
    }
  }

  lemma {:induction false} EmitKeepsCalls(s: State, p: nat, body: Body)
    requires |s.slots| == RING_CAPACITY && CallsOk(s) && p < |s.producers| && s.producers[p].Idle?
    ensures CallsOk(Next(s, Emit(p, body)))
  {
    assert s.calls[p] == Published(s.log, p);
  }

  lemma {:induction false} EmitKeepsPhases(s: State, p: nat, body: Body)
    requires |s.slots| == RING_CAPACITY && |s.calls| == |s.producers| && p < |s.producers|
    requires s.producers[p].Idle? && PhasesOk(s) && LockOk(s) && SeqOk(s)
    ensures var s' := Next(s, Emit(p, body)); PhasesOk(s') && LockOk(s') && SeqOk(s')
  {
    var s' := Next(s, Emit(p, body));
    forall q | 0 <= q < |s'.producers| ensures PhaseOk(s', q, s'.producers[q]) {
      assert PhaseOk(s, q, s.producers[q]);
    }
  }

  lemma {:induction false} EmitKeepsInv(s: State, p: nat, body: Body)
    requires Inv(s)
    ensures Inv(Next(s, Emit(p, body)))
  {
    if p < |s.producers| && s.producers[p].Idle? {
      EmitKeepsCalls(s, p, body);
      EmitKeepsPhases(s, p, body);
      WakeFrame(s, Next(s, Emit(p, body)), p);
    }
  }

  lemma {:induction false} TickKeepsInv(s: State, d: nat)
    requires Inv(s)
    ensures Inv(Next(s, Tick(d)))
  {
    var s' := Next(s, Tick(d));
    forall q | 0 <= q < |s'.producers| ensures PhaseOk(s', q, s'.producers[q]) {
      assert PhaseOk(s, q, s.producers[q]);
    }
  }

  lemma {:induction false} ProducerKeepsLock(s: State, p: nat)
    requires LockOk(s) && p < |s.producers| && |s.slots| == RING_CAPACITY
    ensures LockOk(ProducerStep(s, p))
  {
    match s.producers[p]
    case Idle =>
    case Exchange(_) =>
    case Spin(_) =>
    case LoadHead(_) =>
    case CheckSpace(_, _) =>
    case NotifyFull(_, _) =>
    case TakeSeq(_, _) =>
    case ReadTime(_, _, _) =>
    case WriteBegin(_, _) =>
    case WriteEnd(_, _) =>
    case StoreHead(_, _) =>
    case Unlock =>
    case NotifyDone =>
  }

  /** The producer that moves knows what it must; here the window and the log are still as before. */
  lemma {:induction false} MoverPhase(s: State, p: nat)
    requires p < |s.producers| && WindowOk(s) && |s.log| < TWO64
    requires PhaseOk(s, p, s.producers[p]) && SeqOk(s) && LockOk(s) && LogOk(s.log, s.now)
    requires |s.producers| <= 0x100
    ensures var s' := ProducerStep(s, p); PhaseOk(s', p, s'.producers[p])
  {
  }

  /** A producer outside the critical section, and one that is not moved, knows nothing that can change. */
  lemma {:induction false} OtherPhase(s: State, p: nat, q: nat)
    requires p < |s.producers| && q < |s.producers| && p != q && |s.slots| == RING_CAPACITY
    requires LockOk(s) && PhaseOk(s, q, s.producers[q])
    ensures var s' := ProducerStep(s, p); PhaseOk(s', q, s'.producers[q])
  {
  }

  lemma {:induction false} ProducerKeepsPhases(s: State, p: nat)
    requires p < |s.producers| && WindowOk(s) && |s.log| < TWO64
    requires PhasesOk(s) && SeqOk(s) && LockOk(s) && LogOk(s.log, s.now) && |s.producers| <= 0x100
    ensures PhasesOk(ProducerStep(s, p))
  {
    var s' := ProducerStep(s, p);
    forall q | 0 <= q < |s'.producers| ensures PhaseOk(s', q, s'.producers[q]) {
      if q == p { MoverPhase(s, p); } else { OtherPhase(s, p, q); }
    }
  }

  lemma {:induction false} ProducerKeepsSeq(s: State, p: nat)
    requires p < |s.producers| && |s.slots| == RING_CAPACITY
    requires LockOk(s) && PhaseOk(s, p, s.producers[p]) && SeqOk(s)
    ensures SeqOk(ProducerStep(s, p))
  {
  }

  lemma {:induction false} ProducerKeepsWindow(s: State, p: nat)
    requires p < |s.producers| && WindowOk(s) && PhaseOk(s, p, s.producers[p])
    requires |ProducerStep(s, p).log| < TWO64
    ensures WindowOk(ProducerStep(s, p))
  {
    if s.producers[p].WriteBegin? || s.producers[p].WriteEnd? {
      FreeSlot(s);
    }
  }

  lemma {:induction false} ProducerKeepsLog(s: State, p: nat)
    requires p < |s.producers| && WindowOk(s) && PhaseOk(s, p, s.producers[p]) && LogOk(s.log, s.now)
    ensures LogOk(ProducerStep(s, p).log, ProducerStep(s, p).now)
  {
  }

  lemma {:induction false} ProducerFrame(s: State, p: nat)
    requires p < |s.producers| && |s.slots| == RING_CAPACITY
    ensures var s' := ProducerStep(s, p);
            && s'.archive == s.archive && s'.notArchived == s.notArchived && s'.tail == s.tail
            && s'.tracer == s.tracer && s'.badge == s.badge && s'.calls == s.calls && s.log <= s'.log
            && s'.producers == s.producers[p := s'.producers[p]]
            && s'.log == s.log + if s.producers[p].StoreHead? then [s.producers[p].rec] else []
  {
    match s.producers[p]
    case Idle =>
    case Exchange(_) =>
    case Spin(_) =>
    case LoadHead(_) =>
    case CheckSpace(_, _) =>
    case NotifyFull(_, _) =>
    case TakeSeq(_, _) =>
    case ReadTime(_, _, _) =>
    case WriteBegin(_, _) =>
    case WriteEnd(_, _) =>
    case StoreHead(_, _) =>
    case Unlock =>
    case NotifyDone =>
  }

  lemma {:induction false} ProducerKeepsArchive(s: State, p: nat)
    requires p < |s.producers| && |s.slots| == RING_CAPACITY && ArchiveOk(s)
    ensures ArchiveOk(ProducerStep(s, p))
  {
    ProducerFrame(s, p);
  }

  /** No producer stores into the slot that the tracer is reading. */
  lemma {:induction false} ReaderUndisturbed(s: State, p: nat)
    requires p < |s.producers| && WindowOk(s) && PhaseOk(s, p, s.producers[p])
    requires s.tail < s.head
    ensures ProducerStep(s, p).slots[SlotOf(s.tail)] == s.slots[SlotOf(s.tail)]
  {
    if s.producers[p].WriteBegin? || s.producers[p].WriteEnd? {
      RingIndex.DifferentSlots(s.tail, s.head, RING_CAPACITY);
    }
  }

  lemma {:induction false} ProducerKeepsTracer(s: State, p: nat)
    requires p < |s.producers| && WindowOk(s) && PhaseOk(s, p, s.producers[p])
    requires TracerOk(s) && WindowOk(ProducerStep(s, p))
    ensures TracerOk(ProducerStep(s, p))
  {
    ProducerFrame(s, p);
    if s.tracer.ReadEnd? {
      ReaderUndisturbed(s, p);
    }
  }

  lemma {:induction false} MoverInFlight(s: State, p: nat)
    requires p < |s.producers| && |s.slots| == RING_CAPACITY
    ensures var s' := ProducerStep(s, p);
            InFlight(s.producers[p]) ==
            (if s.producers[p].StoreHead? then [s.producers[p].rec.body] else []) + InFlight(s'.producers[p])
  {
    match s.producers[p]
    case Idle =>
    case Exchange(_) =>
    case Spin(_) =>
    case LoadHead(_) =>
    case CheckSpace(_, _) =>
    case NotifyFull(_, _) =>
    case TakeSeq(_, _) =>
    case ReadTime(_, _, _) =>
    case WriteBegin(_, _) =>
    case WriteEnd(_, _) =>
    case StoreHead(_, _) =>
    case Unlock =>
    case NotifyDone =>
  }

  lemma {:induction false} ProducerKeepsCalls(s: State, p: nat)
    requires p < |s.producers| && |s.slots| == RING_CAPACITY && PhaseOk(s, p, s.producers[p]) && CallsOk(s)
    ensures CallsOk(ProducerStep(s, p))
  {
    var s' := ProducerStep(s, p);
    MoverInFlight(s, p);
    ProducerFrame(s, p);
    if s.producers[p].StoreHead? {
      forall q | 0 <= q < |s'.producers|
        ensures s'.calls[q] == Published(s'.log, q) + InFlight(s'.producers[q])
      {
        PublishedAppend(s.log, s.producers[p].rec, q);
      }
    } else {
      assert s'.log == s.log && s'.calls == s.calls;
    }
  }

  lemma {:induction false} ProducerKeepsWake(s: State, p: nat)
    requires p < |s.producers| && |s.slots| == RING_CAPACITY && WakeOk(s)
    ensures WakeOk(ProducerStep(s, p))
  {
    var s' := ProducerStep(s, p);
    match s.producers[p]
    case StoreHead(_, _) => assert Notifying(s'.producers[p]);
    case Unlock => assert Notifying(s'.producers[p]);
    case NotifyDone => assert p in s'.pending;
    case _ => WakeFrame(s, s', p);
  }

  lemma {:induction false} ProducerKeepsInv(s: State, p: nat)
    requires Inv(s) && p < |s.producers| && |ProducerStep(s, p).log| < TWO64
    ensures Inv(ProducerStep(s, p))
  {
    assert PhaseOk(s, p, s.producers[p]);
    ProducerKeepsLock(s, p);
    ProducerKeepsPhases(s, p);
    ProducerKeepsSeq(s, p);
    ProducerKeepsWindow(s, p);
    ProducerKeepsLog(s, p);
    ProducerKeepsArchive(s, p);
    ProducerKeepsTracer(s, p);
    ProducerKeepsCalls(s, p);
    ProducerKeepsWake(s, p);
  }

  lemma {:induction false} TracerKeepsWindow(s: State)
    requires WindowOk(s) && TracerOk(s) && |s.log| < TWO64
    ensures WindowOk(TracerStep(s))
  {
  }

  lemma {:induction false} TracerKeepsArchive(s: State)
    requires WindowOk(s) && ArchiveOk(s) && TracerOk(s) && |s.log| < TWO64
    ensures ArchiveOk(TracerStep(s))
  {
    if s.tracer.ReadEnd? {
      assert s.slots[SlotOf(s.tail)] == Full(s.log[s.tail]);
      assert s.notArchived == 0;
    }
  }

  lemma {:induction false} TracerKeepsTracer(s: State)
    requires WindowOk(s) && ArchiveOk(s) && TracerOk(s) && |s.log| < TWO64
    ensures TracerOk(TracerStep(s))
  {
  }

  lemma {:induction false} TracerKeepsWake(s: State)
    requires WindowOk(s) && TracerOk(s) && WakeOk(s) && BadgeOk(s)
    ensures WakeOk(TracerStep(s)) && BadgeOk(TracerStep(s))
  {
    var s' := TracerStep(s);
    if s.tail != s.head && !(Draining(s.tracer) || s.badge != {} || s.pending != {}) {
      var q :| 0 <= q < |s.producers| && Notifying(s.producers[q]);
      assert Notifying(s'.producers[q]);
    }
  }

  lemma {:induction false} TracerKeepsPhases(s: State)
    requires PhasesOk(s) && WindowOk(s) && TracerOk(s) && |s.log| < TWO64
    ensures PhasesOk(TracerStep(s))
  {
    var s' := TracerStep(s);
    forall q | 0 <= q < |s'.producers| ensures PhaseOk(s', q, s'.producers[q]) {
      assert PhaseOk(s, q, s.producers[q]);
    }
  }

  lemma {:induction false} TracerFrame(s: State)
    requires |s.slots| == RING_CAPACITY
    ensures var s' := TracerStep(s);
            && s'.lock == s.lock && s'.owner == s.owner && s'.producers == s.producers
            && s'.nextSeq == s.nextSeq && s'.log == s.log && s'.calls == s.calls && s'.now == s.now
  {
    match s.tracer
    case Blocked =>
    case Dispatch =>
    case LoadTail =>
    case LoadHeadAt(_) =>
    case ReadBegin(_) =>
    case ReadEnd(_, _) =>
    case StoreTail(_) =>
    case OtherWork =>
  }

  lemma {:induction false} TracerKeepsInv(s: State)
    requires Inv(s) && |s.log| < TWO64
    ensures Inv(TracerStep(s))
  {
    TracerFrame(s);
    TracerKeepsPhases(s);
    TracerKeepsWindow(s);
    TracerKeepsArchive(s);
    TracerKeepsTracer(s);
    TracerKeepsWake(s);
  }

  lemma {:induction false} TakeKeepsInv(s: State, ch: nat)
    requires Inv(s)
    ensures Inv(Next(s, TakeChannel(ch)))
  {
    var s' := Next(s, TakeChannel(ch));
    forall q | 0 <= q < |s'.producers| ensures PhaseOk(s', q, s'.producers[q]) {
      assert PhaseOk(s, q, s.producers[q]);
    }
  }

  lemma {:induction false} StepKeepsInv(s: State, step: Step)
    requires Inv(s) && |Next(s, step).log| < TWO64
    ensures Inv(Next(s, step))
  {
    match step
    case Tick(d) => TickKeepsInv(s, d);
    case Emit(p, body) => EmitKeepsInv(s, p, body);
    case Trace => TracerKeepsInv(s);
    case TakeChannel(ch) => TakeKeepsInv(s, ch);
    case Produce(p) =>
      if p < |s.producers| {
        ProducerKeepsInv(s, p);
      }
  }

  lemma {:induction false} LogGrows(s: State, steps: seq<Step>)
    requires Shape(s)
    ensures |s.log| <= |Run(s, steps).log|
    decreases |steps|
  {
    if steps != [] {
      LogGrows(Next(s, steps[0]), steps[1..]);
    }
  }

  lemma {:induction false} RunKeepsInv(s: State, steps: seq<Step>)
    requires Inv(s) && |Run(s, steps).log| < TWO64
    ensures Inv(Run(s, steps))
    decreases |steps|
  {
    if steps != [] {
      LogGrows(Next(s, steps[0]), steps[1..]);
      StepKeepsInv(s, steps[0]);
      RunKeepsInv(Next(s, steps[0]), steps[1..]);
    }
  }

  // ---------------------------------------------------------------- what holds in every run

  /** Published and drained, in every reachable state, as the tracer's memory shows it. */
  ghost predicate Accounted(s: State) {
    && |s.archive| <= |s.log|
    && (forall i :: 0 <= i < |s.archive| ==> s.archive[i] == Full(s.log[i]))
    && (!s.tracer.StoreTail? ==> |s.archive| + s.notArchived == s.tail)
    && (s.notArchived > 0 ==> |s.archive| == ARCHIVE_CAPACITY)
    && |s.slots| == RING_CAPACITY && s.tail <= s.head == |s.log|
    && (forall i: nat :: s.tail <= i < |s.log| ==> s.slots[i % RING_CAPACITY] == Full(s.log[i]))
    && (forall i :: 0 <= i < |s.log| ==> s.log[i].num == i)
    && (forall i, j :: 0 <= i <= j < |s.log| ==> s.log[i].time <= s.log[j].time)
  }

  /**
   In every run of fewer than 2^64 records: the archive, the count of records that did not fit and the
   ring window are together the publication order; records are numbered without a gap, never torn, and
   time never decreases.
   */
  lemma {:induction false} EveryRunAccounted(n: nat, steps: seq<Step>)
    requires n <= 0x100 && |Run(Init(n), steps).log| < TWO64
    ensures Accounted(Run(Init(n), steps))
  {
    InitInv(n);
    RunKeepsInv(Init(n), steps);
  }

  /** In every run, records are left out of the archive only when it holds 131071 of them, and the ring never holds more than 1023. */
  lemma {:induction false} EveryRunFillsArchive(n: nat, steps: seq<Step>)
    requires n <= 0x100 && |Run(Init(n), steps).log| < TWO64
    ensures var s := Run(Init(n), steps);
            && (s.notArchived > 0 ==> |s.archive| == 131071) && |s.archive| <= 131071
            && s.head - s.tail <= 1023
  {
    InitInv(n);
    RunKeepsInv(Init(n), steps);
  }

  /** In every run, a producer's published records are its calls, in order, except the one call still in flight. */
  lemma {:induction false} EveryRunKeepsCalls(n: nat, steps: seq<Step>, p: nat)
    requires p < n <= 0x100 && |Run(Init(n), steps).log| < TWO64
    ensures var s := Run(Init(n), steps);
            && |s.producers| == |s.calls| == n
            && s.calls[p] == Published(s.log, p) + InFlight(s.producers[p])
            && |InFlight(s.producers[p])| <= 1
  {
    InitInv(n);
    RunKeepsInv(Init(n), steps);
    RunKeepsCount(Init(n), steps);
  }

  lemma {:induction false} RunKeepsCount(s: State, steps: seq<Step>)
    requires Shape(s)
    ensures |Run(s, steps).producers| == |s.producers|
    decreases |steps|
  {
    if steps != [] {
      RunKeepsCount(Next(s, steps[0]), steps[1..]);
    }
  }

  /** While the tracer copies a record out, no producer is storing into that slot. */
  lemma {:induction false} EveryRunReadsWhole(n: nat, steps: seq<Step>, p: nat)
    requires n <= 0x100 && |Run(Init(n), steps).log| < TWO64
    requires var s := Run(Init(n), steps); p < |s.producers| && s.tracer.ReadEnd? && s.producers[p].WriteEnd?
    ensures var s := Run(Init(n), steps); SlotOf(s.tracer.t) != SlotOf(s.producers[p].head)
  {
    InitInv(n);
    RunKeepsInv(Init(n), steps);
    var s := Run(Init(n), steps);
    assert PhaseOk(s, p, s.producers[p]);
    FreeSlot(s);
  }

  /** No lost wakeup: a blocked tracer with records to drain has a notification coming. */
  lemma {:induction false} EveryRunWakes(n: nat, steps: seq<Step>)
    requires n <= 0x100 && |Run(Init(n), steps).log| < TWO64
    requires var s := Run(Init(n), steps); s.tracer.Blocked? && s.tail != s.head
    ensures var s := Run(Init(n), steps);
            s.pending != {} || exists p :: 0 <= p < |s.producers| && Notifying(s.producers[p])
  {
    InitInv(n);
    RunKeepsInv(Init(n), steps);
  }

  lemma {:induction false} RunAppend(s: State, a: seq<Step>, b: seq<Step>)
    requires Shape(s)
    ensures Run(s, a + b) == Run(Run(s, a), b)
    decreases |a|
  {
    if a == [] {
      assert a + b == b;
    } else {
      assert (a + b)[1..] == a[1..] + b;
      RunAppend(Next(s, a[0]), a[1..], b);
    }
  }
}
