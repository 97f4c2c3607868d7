/**
 The command ring from `uartrx` to the VMM: one sender, one executor, and a completion counter that the
 sender polls. One step is one atomic operation, read as sequentially consistent; storing an entry has a
 begin and an end. Head, tail and the command ids are 64-bit numbers that wrap.
 */
module CommandRing {
  import opened TraceTypes
  import RI = RingIndex

  /** What the sender stores in the ring. The unbounded number of the line is history only: the code has just the id. */
  datatype Entry = Entry(id: u64, verb: u64, arg: u64, line: nat)

  datatype Cell = Empty | Torn | Whole(entry: Entry)

  /** Where `uartrx` is inside `cmd_to_vmm` and `wait_for_vmm`. */
  datatype Sender =
    | Ready
    | LoadHead(entry: Entry)
    | CheckRoom(entry: Entry, head: u64)
    | WriteBegin(entry: Entry, head: u64)
    | WriteEnd(entry: Entry, head: u64)
    | StoreHead(entry: Entry, head: u64)
    | Notify(entry: Entry)
    | Wait(entry: Entry)

  /** Where the VMM is inside `run_commands`. */
  datatype Executor =
    | Blocked
    | LoadTail
    | LoadHeadAt(t: u64)
    | RunEntry(t: u64)
    | StoreCompleted(t: u64)
    | StoreTail(t: u64)

  datatype State = State(
    head: u64, tail: u64, completed: u64, received: u64, cells: seq<Cell>, notified: bool,
    sender: Sender, executor: Executor,
    // History only. Lines are named by their number.
    lines: nat, submitted: seq<Entry>, dropped: set<nat>, enqueued: seq<Entry>, drained: nat,
    executed: seq<Cell>, answered: set<nat>)

  datatype Step =
    | Submit(gap: nat, verb: u64, arg: u64)     // the next line for the VMM; lines in between were for others
    | Send                                      // the sender's next atomic operation
    | TimeOut                                   // the sender stops waiting
    | Execute                                   // the VMM's next atomic operation

  function Init(): State {
    State(0, 0, 0, 0, seq(CMD_CAPACITY, _ => Empty), false, Ready, Blocked, 0, [], {}, [], 0, [], {})
  }

  function CellOf(i: u64): nat {
    i % CMD_CAPACITY
  }

  function SendStep(s: State): (r: State)
    requires |s.cells| == CMD_CAPACITY
    ensures |r.cells| == CMD_CAPACITY
  {
    match s.sender
    case Ready => s
    case LoadHead(e) => s.(sender := CheckRoom(e, s.head))
    case CheckRoom(e, head) =>
      if Sub64(head, s.tail) >= CMD_CAPACITY then s.(sender := Ready, dropped := s.dropped + {e.line})
      else s.(sender := WriteBegin(e, head))
    case WriteBegin(e, head) => s.(sender := WriteEnd(e, head), cells := s.cells[CellOf(head) := Torn])
    case WriteEnd(e, head) => s.(sender := StoreHead(e, head), cells := s.cells[CellOf(head) := Whole(e)])
    case StoreHead(e, head) => s.(sender := Notify(e), head := Inc64(head), enqueued := s.enqueued + [e])
    case Notify(e) => s.(sender := Wait(e), notified := true)
    case Wait(e) =>
      if s.completed < e.id then s else s.(sender := Ready, answered := s.answered + {e.line})
  }

  /** The entry is read in place: once to run the command and again to take its id. */
  function ExecuteStep(s: State): (r: State)
    requires |s.cells| == CMD_CAPACITY
    ensures r.cells == s.cells
  {
    match s.executor
    case Blocked => if s.notified then s.(executor := LoadTail, notified := false) else s
    case LoadTail => s.(executor := LoadHeadAt(s.tail))
    case LoadHeadAt(t) => s.(executor := if t == s.head then Blocked else RunEntry(t))
    case RunEntry(t) => s.(executor := StoreCompleted(t), executed := s.executed + [s.cells[CellOf(t)]])
    case StoreCompleted(t) =>
      var cell := s.cells[CellOf(t)];
      s.(executor := StoreTail(t), completed := if cell.Whole? then cell.entry.id else 0)
    case StoreTail(t) => s.(executor := LoadHeadAt(Inc64(t)), tail := Inc64(t), drained := s.drained + 1)
  }

  /** A step that is not enabled leaves the state alone, so every list of steps is a run. */
  function Next(s: State, step: Step): (r: State)
    requires |s.cells| == CMD_CAPACITY
    ensures |r.cells| == CMD_CAPACITY
  {
    match step
    case Submit(gap, verb, arg) =>
      if s.sender.Ready? then
        var e := Entry((s.received + gap + 1) % TWO64, verb, arg, s.lines + gap + 1);
        s.(sender := LoadHead(e), received := e.id, lines := e.line, submitted := s.submitted + [e])
      else s
    case Send => SendStep(s)
    case TimeOut => if s.sender.Wait? then s.(sender := Ready) else s
    case Execute => ExecuteStep(s)
  }

  function Run(s: State, steps: seq<Step>): (r: State)
    requires |s.cells| == CMD_CAPACITY
    ensures |r.cells| == CMD_CAPACITY
    decreases |steps|
  {
    if steps == [] then s else Run(Next(s, steps[0]), steps[1..])
  }

  // ---------------------------------------------------------------- what every step keeps

  lemma {:induction false} WrapAdd(n: nat, k: nat)
    ensures (n % TWO64 + k) % TWO64 == (n + k) % TWO64
  {
  }

  /** Two counters at most a ring apart: their wrapped difference is the true one, and they wrap alike. */
  lemma {:induction false} WrapDifference(a: nat, b: nat)
    requires b <= a <= b + CMD_CAPACITY
    ensures Sub64(a % TWO64, b % TWO64) == a - b
    ensures a % TWO64 == b % TWO64 <==> a == b
  {
  }

  predicate HasEntry(f: Sender) {
    f.LoadHead? || f.CheckRoom? || f.WriteBegin? || f.WriteEnd? || f.StoreHead?
  }

  /** The commands that were not dropped, in order. */
  function Kept(submitted: seq<Entry>, dropped: set<nat>): seq<Entry> {
    if submitted == [] then []
    else
      var last := submitted[|submitted| - 1];
      Kept(submitted[..|submitted| - 1], dropped) + if last.line in dropped then [] else [last]
  }

  /** How many entries the VMM has marked complete. */
  function Completions(s: State): nat {
    s.drained + if s.executor.StoreTail? then 1 else 0
  }

  ghost predicate CountersOk(s: State) {
    && s.head == |s.enqueued| % TWO64 && s.tail == s.drained % TWO64
    && s.drained <= |s.enqueued| <= s.drained + CMD_CAPACITY
  }

  ghost predicate CellsOk(s: State) {
    && |s.cells| == CMD_CAPACITY
    && forall i: nat :: s.drained <= i < |s.enqueued| ==> s.cells[i % CMD_CAPACITY] == Whole(s.enqueued[i])
  }

  ghost predicate SenderOk(s: State) {
    && (s.sender.CheckRoom? ==> s.sender.head == s.head)
    && (s.sender.WriteBegin? || s.sender.WriteEnd? || s.sender.StoreHead? ==>
          s.sender.head == s.head && |s.enqueued| < s.drained + CMD_CAPACITY)
    && (s.sender.StoreHead? ==>
          |s.cells| == CMD_CAPACITY && s.cells[|s.enqueued| % CMD_CAPACITY] == Whole(s.sender.entry))
    && (s.sender.Notify? || s.sender.Wait? ==>
          s.enqueued != [] && s.enqueued[|s.enqueued| - 1] == s.sender.entry)
  }

  /** The id of a command is the number of its line, wrapped. */
  predicate IdOk(e: Entry) {
    e.id == e.line % TWO64
  }

  /** The command that the sender has taken up and neither dropped nor enqueued. */
  function InHand(f: Sender): seq<Entry> {
    if HasEntry(f) then [f.entry] else []
  }

  /** Commands are enqueued in the order of their lines. */
  ghost predicate LinesOk(s: State) {
    s.received == s.lines % TWO64 && InOrder(s.lines, s.enqueued, s.answered, InHand(s.sender))
  }

  ghost predicate InOrder(lines: nat, enqueued: seq<Entry>, answered: set<nat>, hand: seq<Entry>) {
    && (forall i, j :: 0 <= i < j < |enqueued| ==> enqueued[i].line < enqueued[j].line)
    && (forall i :: 0 <= i < |enqueued| ==> IdOk(enqueued[i]) && 0 < enqueued[i].line <= lines)
    && (forall line :: line in answered ==> line <= lines)
    && (hand != [] ==>
          && |hand| == 1 && IdOk(hand[0]) && hand[0].line == lines > 0 && lines !in answered
          && forall i :: 0 <= i < |enqueued| ==> enqueued[i].line < lines)
  }

  ghost predicate ExecutorOk(s: State) {
    && (s.executor.LoadHeadAt? ==> s.executor.t == s.tail)
    && (s.executor.RunEntry? || s.executor.StoreCompleted? || s.executor.StoreTail? ==>
          s.executor.t == s.tail && s.drained < |s.enqueued|)
  }

  /** Every command runs once, in the order it was enqueued, whole. */
  ghost predicate ExecutedOk(s: State) {
    && |s.executed| == s.drained + (if s.executor.StoreCompleted? || s.executor.StoreTail? then 1 else 0)
    && |s.executed| <= |s.enqueued|
    && (forall i :: 0 <= i < |s.executed| ==> s.executed[i] == Whole(s.enqueued[i]))
  }

  ghost predicate CompletedOk(s: State) {
    && Completions(s) <= |s.enqueued|
    && s.completed == if Completions(s) == 0 then 0 else s.enqueued[Completions(s) - 1].id
  }

  /** The command of this line has run. */
  ghost predicate HasRun(s: State, line: nat) {
    exists i :: 0 <= i < |s.executed| && s.executed[i].Whole? && s.executed[i].entry.line == line
  }

  ghost predicate SubmittedOk(s: State) {
    AllPlaced(s.submitted, s.dropped, s.enqueued, s.lines, InHand(s.sender))
  }

  /** Every command taken up was dropped, was enqueued, or is the last one and still in hand. */
  ghost predicate AllPlaced(submitted: seq<Entry>, dropped: set<nat>, enqueued: seq<Entry>, lines: nat, hand: seq<Entry>) {
    && Kept(submitted, dropped) == enqueued + hand
    && (forall i :: 0 <= i < |submitted| ==> submitted[i].line <= lines)
    && (forall line :: line in dropped ==> line <= lines)
    && (hand != [] ==>
          && submitted != [] && hand == [submitted[|submitted| - 1]]
          && hand[0].line !in dropped
          && forall i :: 0 <= i < |submitted| - 1 ==> submitted[i].line < hand[0].line)
  }

  ghost predicate WakeOk(s: State) {
    s.drained < |s.enqueued| ==> !s.executor.Blocked? || s.notified || s.sender.Notify?
  }

  ghost predicate Inv(s: State) {
    CountersOk(s) && CellsOk(s) && SenderOk(s) && LinesOk(s) && ExecutorOk(s) && ExecutedOk(s)
    && CompletedOk(s) && SubmittedOk(s) && WakeOk(s)
  }

  lemma {:induction false} KeptAppend(submitted: seq<Entry>, e: Entry, dropped: set<nat>)
    ensures Kept(submitted + [e], dropped) == Kept(submitted, dropped) + if e.line in dropped then [] else [e]
  {
    assert (submitted + [e])[..|submitted|] == submitted;
  }

  /** Dropping a line that none of the commands has changes nothing. */
  lemma {:induction false} KeptFrame(submitted: seq<Entry>, dropped: set<nat>, line: nat)
    requires forall i :: 0 <= i < |submitted| ==> submitted[i].line != line
    ensures Kept(submitted, dropped + {line}) == Kept(submitted, dropped)
  {
    if submitted != [] {
      KeptFrame(submitted[..|submitted| - 1], dropped, line);
    }
  }

  lemma {:induction false} SubmitKeepsInv(s: State, gap: nat, verb: u64, arg: u64)
    requires Inv(s) && s.sender.Ready?
    ensures Inv(Next(s, Submit(gap, verb, arg)))
  {
    var s' := Next(s, Submit(gap, verb, arg));
    KeptAppend(s.submitted, s'.sender.entry, s.dropped);
    WrapAdd(s.lines, gap + 1);
  }

  lemma {:induction false} SendKeepsCounters(s: State)
    requires CountersOk(s) && CellsOk(s) && SenderOk(s)
    ensures CountersOk(SendStep(s))
  {
    if s.sender.StoreHead? {
      RI.WrapIncrement(|s.enqueued|);
    }
  }

  lemma {:induction false} FreeCell(s: State)
    requires |s.enqueued| < s.drained + CMD_CAPACITY
    ensures forall i: nat :: s.drained <= i < |s.enqueued| ==> i % CMD_CAPACITY != |s.enqueued| % CMD_CAPACITY
  {
    forall i: nat | s.drained <= i < |s.enqueued| ensures i % CMD_CAPACITY != |s.enqueued| % CMD_CAPACITY {
      RI.DifferentSlots(i, |s.enqueued|, CMD_CAPACITY);
    }
  }

  /** The cell the sender stores into holds no command that has yet to complete. */
  lemma {:induction false} SendKeepsCells(s: State)
    requires CountersOk(s) && CellsOk(s) && SenderOk(s)
    ensures CellsOk(SendStep(s))
  {
    RI.CommandSlotExact(|s.enqueued|);
    if s.sender.WriteBegin? || s.sender.WriteEnd? {
      FreeCell(s);
    }
  }

  lemma {:induction false} SendKeepsSender(s: State)
    requires CountersOk(s) && CellsOk(s) && SenderOk(s)
    ensures SenderOk(SendStep(s))
  {
    RI.CommandSlotExact(|s.enqueued|);
    WrapDifference(|s.enqueued|, s.drained);
  }

  lemma {:induction false} SendKeepsLines(s: State)
    requires |s.cells| == CMD_CAPACITY && LinesOk(s) && SenderOk(s)
    ensures LinesOk(SendStep(s))
  {
    match s.sender
    case Ready =>
    case LoadHead(_) =>
    case CheckRoom(_, _) =>
    case WriteBegin(_, _) =>
    case WriteEnd(_, _) =>
    case StoreHead(_, _) =>
    case Notify(_) =>
    case Wait(e) =>
      assert e == s.enqueued[|s.enqueued| - 1];
  }

  lemma {:induction false} SendKeepsExecution(s: State)
    requires CellsOk(s) && ExecutorOk(s) && ExecutedOk(s) && CompletedOk(s)
    ensures var s' := SendStep(s); ExecutorOk(s') && ExecutedOk(s') && CompletedOk(s')
  {
  }

  lemma {:induction false} DropKeepsSubmitted(submitted: seq<Entry>, dropped: set<nat>, enqueued: seq<Entry>, e: Entry)
    requires submitted != [] && submitted[|submitted| - 1] == e && e.line !in dropped
    requires forall i :: 0 <= i < |submitted| - 1 ==> submitted[i].line < e.line
    requires Kept(submitted, dropped) == enqueued + [e]
    ensures Kept(submitted, dropped + {e.line}) == enqueued
  {
    var earlier := submitted[..|submitted| - 1];
    assert submitted == earlier + [e];
    KeptAppend(earlier, e, dropped);
    KeptAppend(earlier, e, dropped + {e.line});
    KeptFrame(earlier, dropped, e.line);
    assert enqueued == (enqueued + [e])[..|enqueued|] == (Kept(earlier, dropped) + [e])[..|enqueued|];
  }

  lemma {:induction false} SendKeepsSubmitted(s: State)
    requires |s.cells| == CMD_CAPACITY && SubmittedOk(s)
    ensures SubmittedOk(SendStep(s))
  {
    match s.sender
    case CheckRoom(e, head) =>
      if Sub64(head, s.tail) >= CMD_CAPACITY {
        DropKeepsPlaced(s.submitted, s.dropped, s.enqueued, s.lines, e);
      }
    case StoreHead(e, _) =>
      SendKeepsPlaced(s.submitted, s.dropped, s.enqueued, s.lines, e);
    case Ready =>
    case LoadHead(_) =>
    case WriteBegin(_, _) =>
    case WriteEnd(_, _) =>
    case Notify(_) =>
    case Wait(_) =>
  }

  lemma {:induction false} DropKeepsPlaced(submitted: seq<Entry>, dropped: set<nat>, enqueued: seq<Entry>, lines: nat, e: Entry)
    requires AllPlaced(submitted, dropped, enqueued, lines, [e])
    ensures AllPlaced(submitted, dropped + {e.line}, enqueued, lines, [])
  {
    assert submitted[|submitted| - 1] == [e][0] == e;
    DropKeepsSubmitted(submitted, dropped, enqueued, e);
    assert enqueued + [] == enqueued;
  }

  lemma {:induction false} SendKeepsPlaced(submitted: seq<Entry>, dropped: set<nat>, enqueued: seq<Entry>, lines: nat, e: Entry)
    requires AllPlaced(submitted, dropped, enqueued, lines, [e])
    ensures AllPlaced(submitted, dropped, enqueued + [e], lines, [])
  {
    assert (enqueued + [e]) + [] == enqueued + [e];
  }

  lemma {:induction false} SendKeepsInv(s: State)
    requires Inv(s)
    ensures Inv(SendStep(s))
  {
    SendKeepsCounters(s);
    SendKeepsCells(s);
    SendKeepsSender(s);
    SendKeepsLines(s);
    SendKeepsExecution(s);
    SendKeepsSubmitted(s);
    assert WakeOk(SendStep(s));
  }

  lemma {:induction false} ExecuteKeepsRing(s: State)
    requires CountersOk(s) && CellsOk(s) && SenderOk(s) && ExecutorOk(s)
    ensures var s' := ExecuteStep(s); CountersOk(s') && CellsOk(s') && SenderOk(s') && ExecutorOk(s')
  {
    RI.WrapIncrement(s.drained);
    WrapDifference(|s.enqueued|, s.drained);
  }

  lemma {:induction false} ExecuteKeepsExecuted(s: State)
    requires CountersOk(s) && CellsOk(s) && ExecutorOk(s) && ExecutedOk(s) && CompletedOk(s)
    ensures var s' := ExecuteStep(s); ExecutedOk(s') && CompletedOk(s') && s.executed <= s'.executed
  {
    RI.CommandSlotExact(s.drained);
  }

  lemma {:induction false} ExecuteKeepsWake(s: State)
    requires CountersOk(s) && CellsOk(s) && ExecutorOk(s) && WakeOk(s)
    ensures WakeOk(ExecuteStep(s))
  {
    WrapDifference(|s.enqueued|, s.drained);
  }

  lemma {:induction false} ExecuteFrame(s: State)
    requires |s.cells| == CMD_CAPACITY
    ensures var s' := ExecuteStep(s);
            && s'.sender == s.sender && s'.submitted == s.submitted && s'.dropped == s.dropped
            && s'.enqueued == s.enqueued && s'.lines == s.lines && s'.received == s.received && s'.answered == s.answered
  {
  }

  lemma {:induction false} ExecuteKeepsInv(s: State)
    requires Inv(s)
    ensures Inv(ExecuteStep(s))
  {
    ExecuteFrame(s);
    ExecuteKeepsRing(s);
    ExecuteKeepsExecuted(s);
    ExecuteKeepsWake(s);
  }

  lemma {:induction false} StepKeepsInv(s: State, step: Step)
    requires Inv(s)
    ensures Inv(Next(s, step))
  {
    match step
    case Submit(gap, verb, arg) => if s.sender.Ready? { SubmitKeepsInv(s, gap, verb, arg); }
    case Send => SendKeepsInv(s);
    case TimeOut =>
    case Execute => ExecuteKeepsInv(s);
  }

  lemma {:induction false} RunKeepsInv(s: State, steps: seq<Step>)
    requires Inv(s)
    ensures Inv(Run(s, steps))
    decreases |steps|
  {
    if steps != [] {
      StepKeepsInv(s, steps[0]);
      RunKeepsInv(Next(s, steps[0]), steps[1..]);
    }
  }

  // ---------------------------------------------------------------- what holds in every run

  /**
   In every run, with any timeouts and drops and however often counters and ids wrap: the commands executed
   are the first ones enqueued, each once and whole, in the order of their lines; every command taken up
   is enqueued, was dropped, or is still in the sender's hand.
   */
  lemma {:induction false} EveryRunExecutesInOrder(steps: seq<Step>)
    ensures var s := Run(Init(), steps);
            && |s.executed| <= |s.enqueued|
            && (forall i :: 0 <= i < |s.executed| ==> s.executed[i] == Whole(s.enqueued[i]))
            && (forall i, j :: 0 <= i < j < |s.enqueued| ==> s.enqueued[i].line < s.enqueued[j].line)
            && Kept(s.submitted, s.dropped) == s.enqueued + InHand(s.sender)
  {
    RunKeepsInv(Init(), steps);
  }

  /** In every run, an entry that has not completed is still in its cell. */
  lemma {:induction false} EveryRunKeepsEntries(steps: seq<Step>, i: nat)
    requires var s := Run(Init(), steps); s.drained <= i < |s.enqueued|
    ensures var s := Run(Init(), steps);
            && |s.enqueued| - s.drained <= CMD_CAPACITY
            && s.cells[CellOf(i % TWO64)] == Whole(s.enqueued[i])
  {
    RunKeepsInv(Init(), steps);
    RI.CommandSlotExact(i);
  }

  /** In every run, a blocked VMM with commands queued has a notification coming. */
  lemma {:induction false} EveryRunWakesVmm(steps: seq<Step>)
    requires var s := Run(Init(), steps); s.executor.Blocked? && |s.executed| < |s.enqueued|
    ensures var s := Run(Init(), steps); s.notified || s.sender.Notify?
  {
    RunKeepsInv(Init(), steps);
  }

  // ---------------------------------------------------------------- when a command is dropped

  /** In every run, a step that drops a command finds all 64 cells taken by commands that have not completed. */
  lemma {:induction false} EveryDropIsNeeded(steps: seq<Step>, step: Step)
    requires Next(Run(Init(), steps), step).dropped != Run(Init(), steps).dropped
    ensures var s := Run(Init(), steps);
            step.Send? && |s.enqueued| == s.drained + 64 && s.sender.CheckRoom? && s.sender.entry.line in Next(s, step).dropped
  {
    RunKeepsInv(Init(), steps);
    DropIsNeeded(Run(Init(), steps), step);
  }

  lemma {:induction false} DropIsNeeded(s: State, step: Step)
    requires CountersOk(s) && CellsOk(s) && SenderOk(s) && Next(s, step).dropped != s.dropped
    ensures step.Send? && |s.enqueued| == s.drained + 64 && s.sender.CheckRoom? && s.sender.entry.line in Next(s, step).dropped
  {
    WrapDifference(|s.enqueued|, s.drained);
    if step.Execute? {
      ExecuteFrame(s);
    }
  }

  function Sends(steps: seq<Step>): nat {
    if steps == [] then 0 else (if steps[0].Send? then 1 else 0) + Sends(steps[1..])
  }

  /** How many operations the sender needs to enqueue the command in its hand. */
  function ToEnqueue(f: Sender): nat
    requires HasEntry(f)
  {
    match f
    case LoadHead(_) => 5
    case CheckRoom(_, _) => 4
    case WriteBegin(_, _) => 3
    case WriteEnd(_, _) => 2
    case StoreHead(_, _) => 1
  }

  /** With room, the sender's next operation brings the command closer to the ring, or puts it there. */
  lemma {:induction false} RoomStep(s: State)
    requires Inv(s) && HasEntry(s.sender) && |s.enqueued| < s.drained + 64
    ensures var s' := SendStep(s);
            if s.sender.StoreHead? then s'.enqueued == s.enqueued + [s.sender.entry]
            else && HasEntry(s'.sender) && s'.sender.entry == s.sender.entry && ToEnqueue(s'.sender) < ToEnqueue(s.sender)
                 && s'.enqueued == s.enqueued && s'.drained == s.drained
  {
    WrapDifference(|s.enqueued|, s.drained);
  }

  lemma {:induction false} RoomStays(s: State, step: Step)
    requires Inv(s) && HasEntry(s.sender) && !step.Send?
    ensures var s' := Next(s, step); s'.sender == s.sender && s'.enqueued == s.enqueued && s.drained <= s'.drained
  {
    if step.Execute? {
      ExecuteFrame(s);
    }
  }

  lemma {:induction false} EnqueuedStay(s: State, steps: seq<Step>)
    requires Inv(s)
    ensures s.enqueued <= Run(s, steps).enqueued
    decreases |steps|
  {
    if steps != [] {
      StepKeepsInv(s, steps[0]);
      CompletionsStay(s, steps[0]);
      EnqueuedStay(Next(s, steps[0]), steps[1..]);
    }
  }

  lemma {:induction false} RoomIsUsed(s: State, steps: seq<Step>)
    requires Inv(s) && HasEntry(s.sender) && |s.enqueued| < s.drained + 64 && Sends(steps) >= ToEnqueue(s.sender)
    ensures s.enqueued + [s.sender.entry] <= Run(s, steps).enqueued
    decreases |steps|
  {
    var s' := Next(s, steps[0]);
    StepKeepsInv(s, steps[0]);
    if !steps[0].Send? {
      RoomStays(s, steps[0]);
      RoomIsUsed(s', steps[1..]);
    } else {
      RoomStep(s);
      if s.sender.StoreHead? {
        EnqueuedStay(s', steps[1..]);
      } else {
        RoomIsUsed(s', steps[1..]);
      }
    }
  }

  /**
   After every run, when the sender looks for room and one of the 64 cells is free: every schedule in which it
   moves four times enqueues its command, right behind those already there.
   */
  lemma {:induction false} EveryRoomIsUsed(steps: seq<Step>, more: seq<Step>)
    requires var s := Run(Init(), steps); s.sender.CheckRoom? && |s.enqueued| < s.drained + 64
    requires Sends(more) >= 4
    ensures var s := Run(Init(), steps); s.enqueued + [s.sender.entry] <= Run(s, more).enqueued
  {
    RunKeepsInv(Init(), steps);
    RoomIsUsed(Run(Init(), steps), more);
  }

  // ---------------------------------------------------------------- every queued command runs

  /** The VMM is at work, or about to be woken. */
  predicate Awake(s: State) {
    !s.executor.Blocked? || s.notified
  }

  /** How many operations the VMM needs to complete its next command, when there is one. */
  function ToCompletion(x: Executor): nat {
    match x
    case StoreCompleted(_) => 1
    case RunEntry(_) => 2
    case LoadHeadAt(_) => 3
    case LoadTail => 4
    case StoreTail(_) => 4
    case Blocked => 5
  }

  /** How many it needs to complete the command enqueued as number `i`. */
  function Needed(s: State, i: nat): nat
    requires Completions(s) <= i
  {
    ToCompletion(s.executor) + 4 * (i - Completions(s))
  }

  function Executes(steps: seq<Step>): nat {
    if steps == [] then 0 else (if steps[0].Execute? then 1 else 0) + Executes(steps[1..])
  }

  lemma {:induction false} ExecuteAdvances(s: State, i: nat)
    requires Inv(s) && Awake(s) && Completions(s) <= i < |s.enqueued|
    ensures var s' := ExecuteStep(s);
            && Awake(s') && Completions(s) <= Completions(s') <= Completions(s) + 1
            && (Completions(s') > Completions(s) ==> s'.executor.StoreTail?)
            && (Completions(s') <= i ==> Needed(s', i) < Needed(s, i))
  {
    WrapDifference(|s.enqueued|, s.drained);
  }

  lemma {:induction false} CompletionsStay(s: State, step: Step)
    requires Inv(s)
    ensures Completions(s) <= Completions(Next(s, step)) && s.enqueued <= Next(s, step).enqueued
    ensures !step.Execute? ==> Next(s, step).executor == s.executor && Completions(Next(s, step)) == Completions(s)
    ensures !step.Execute? && Awake(s) ==> Awake(Next(s, step))
  {
    if step.Execute? {
      ExecuteFrame(s);
    }
  }

  /**
   Whatever the sender does in the meantime, timeouts included: any schedule in which the VMM performs enough
   operations completes the command enqueued as number `i`.
   */
  lemma {:induction false} EveryScheduleCompletes(s: State, steps: seq<Step>, i: nat)
    requires Inv(s) && i < |s.enqueued|
    requires Completions(s) <= i ==> Awake(s) && Executes(steps) >= Needed(s, i)
    ensures var s' := Run(s, steps); Inv(s') && Completions(s') > i && s.enqueued <= s'.enqueued
    decreases |steps|
  {
    if steps != [] {
      var s' := Next(s, steps[0]);
      StepKeepsInv(s, steps[0]);
      CompletionsStay(s, steps[0]);
      if steps[0].Execute? && Completions(s) <= i {
        ExecuteAdvances(s, i);
      }
      EveryScheduleCompletes(s', steps[1..], i);
    }
  }

  lemma {:induction false} NeededBound(s: State)
    requires Inv(s) && !s.sender.Notify? && Completions(s) < |s.enqueued|
    ensures Awake(s) && Needed(s, |s.enqueued| - 1) <= 257
  {
  }

  /** A completed command has been executed, whole. */
  lemma {:induction false} CompletedIsExecuted(s: State, enqueued: seq<Entry>)
    requires ExecutedOk(s) && enqueued <= s.enqueued && Completions(s) >= |enqueued|
    ensures |s.executed| >= |enqueued| && forall i :: 0 <= i < |enqueued| ==> s.executed[i] == Whole(enqueued[i])
  {
  }

  lemma {:induction false} QueuedRun(s: State, more: seq<Step>)
    requires Inv(s) && !s.sender.Notify? && Executes(more) >= 257
    ensures var s' := Run(s, more); Inv(s') && s.enqueued <= s'.enqueued && Completions(s') >= |s.enqueued|
  {
    var n := |s.enqueued|;
    if n == 0 {
      RunKeepsInv(s, more);
    } else {
      if Completions(s) < n {
        NeededBound(s);
      }
      EveryScheduleCompletes(s, more, n - 1);
    }
  }

  /**
   After every run, unless the sender is just about to notify: every schedule with 257 operations of the VMM runs
   and completes every command in the ring, whole and in order.
   */
  lemma {:induction false} EveryQueuedCommandRuns(steps: seq<Step>, more: seq<Step>)
    requires !Run(Init(), steps).sender.Notify? && Executes(more) >= 257
    ensures var s, s' := Run(Init(), steps), Run(Run(Init(), steps), more);
            && Completions(s') >= |s.enqueued| && |s'.executed| >= |s.enqueued|
            && forall i :: 0 <= i < |s.enqueued| ==> s'.executed[i] == Whole(s.enqueued[i])
  {
    var s := Run(Init(), steps);
    RunKeepsInv(Init(), steps);
    QueuedRun(s, more);
    CompletedIsExecuted(Run(s, more), s.enqueued);
  }

  predicate NoTimeOut(steps: seq<Step>) {
    forall i :: 0 <= i < |steps| ==> !steps[i].TimeOut?
  }

  /** While the sender waits, only an answer or a timeout ends the wait. */
  lemma {:induction false} WaitStep(s: State, step: Step)
    requires |s.cells| == CMD_CAPACITY && s.sender.Wait? && !step.TimeOut?
    ensures var s' := Next(s, step);
            s.sender.entry.line in s'.answered || (s'.sender == s.sender && s'.enqueued == s.enqueued)
  {
    if step.Execute? {
      ExecuteFrame(s);
    }
  }

  lemma {:induction false} WaitGoesOn(s: State, steps: seq<Step>)
    requires |s.cells| == CMD_CAPACITY && s.sender.Wait? && NoTimeOut(steps)
    ensures var s' := Run(s, steps); s.sender.entry.line in s'.answered || (s'.sender == s.sender && s'.enqueued == s.enqueued)
    decreases |steps|
  {
    if steps != [] {
      var s' := Next(s, steps[0]);
      WaitStep(s, steps[0]);
      assert NoTimeOut(steps[1..]);
      if s.sender.entry.line in s'.answered {
        AnswersStay(s', steps[1..]);
      } else {
        WaitGoesOn(s', steps[1..]);
      }
    }
  }

  lemma {:induction false} AnswersStay(s: State, steps: seq<Step>)
    requires |s.cells| == CMD_CAPACITY
    ensures s.answered <= Run(s, steps).answered
    decreases |steps|
  {
    if steps != [] {
      AnswersStay(Next(s, steps[0]), steps[1..]);
    }
  }

  lemma {:induction false} RunAppend(s: State, a: seq<Step>, b: seq<Step>)
    requires |s.cells| == CMD_CAPACITY
    ensures Run(s, a + b) == Run(Run(s, a), b)
    decreases |a|
  {
    if a == [] {
      assert a + b == b;
    } else {
      assert (a + b)[1..] == a[1..] + b;
      RunAppend(Next(s, a[0]), a[1..], b);
    }
  }

  /** When everything in the ring has completed, the next look of the sender finds its answer. */
  lemma {:induction false} LookAnswers(s: State)
    requires |s.cells| == CMD_CAPACITY && SenderOk(s) && CompletedOk(s)
    requires s.sender.Wait? && Completions(s) >= |s.enqueued|
    ensures s.sender.entry.line in Next(s, Send).answered
  {
  }

  lemma {:induction false} WaitIsAnswered(s: State, more: seq<Step>)
    requires Inv(s) && s.sender.Wait? && NoTimeOut(more) && Executes(more) >= 257
    ensures s.sender.entry.line in Run(s, more + [Send]).answered
  {
    var s' := Run(s, more);
    QueuedRun(s, more);
    WaitGoesOn(s, more);
    RunAppend(s, more, [Send]);
    assert Run(s', [Send]) == Next(s', Send);
    if s.sender.entry.line in s'.answered {
      AnswersStay(s', [Send]);
    } else {
      LookAnswers(s');
    }
  }

  /** A wait that does not time out is answered once the VMM has performed 257 operations and the sender looks again. */
  lemma {:induction false} EveryWaitIsAnswered(steps: seq<Step>, more: seq<Step>)
    requires Run(Init(), steps).sender.Wait? && NoTimeOut(more) && Executes(more) >= 257
    ensures var s := Run(Init(), steps); s.sender.entry.line in Run(s, more + [Send]).answered
  {
    RunKeepsInv(Init(), steps);
    WaitIsAnswered(Run(Init(), steps), more);
  }

  // ---------------------------------------------------------------- what an answer means

  /** Whoever is told that the command of this line has finished is told the truth. */
  ghost predicate Truthful(s: State, line: nat) {
    line in s.answered ==> HasRun(s, line)
  }

  /** However the run goes on, an answer about this line comes only after its command has run. */
  ghost predicate NeverEarly(s: State, line: nat)
    requires |s.cells| == CMD_CAPACITY
  {
    forall more: seq<Step> :: Truthful(Run(s, more), line)
  }

  /** The id is above the completed id and above the ids of all commands in the ring: 64-bit numbers the sender can read. */
  ghost predicate Ahead(s: State, id: u64)
    requires |s.cells| == CMD_CAPACITY
  {
    && s.completed < id
    && forall i: nat :: s.drained <= i < |s.enqueued| ==>
         s.cells[i % CMD_CAPACITY].Whole? && s.cells[i % CMD_CAPACITY].entry.id < id
  }

  /** The same, in terms of the order of enqueueing: no command up to number `n` still to complete has a higher id. */
  ghost predicate AheadOf(s: State, id: u64, n: nat) {
    && s.completed < id && n <= |s.enqueued|
    && forall i :: Completions(s) <= i < n ==> s.enqueued[i].id < id
  }

  lemma {:induction false} AheadIsAheadOf(s: State, id: u64)
    requires Inv(s)
    ensures Ahead(s, id) <==> AheadOf(s, id, |s.enqueued|)
  {
    if AheadOf(s, id, |s.enqueued|) {
      forall i: nat | s.drained <= i < |s.enqueued|
        ensures s.cells[i % CMD_CAPACITY].Whole? && s.cells[i % CMD_CAPACITY].entry.id < id
      {
        assert s.cells[i % CMD_CAPACITY] == Whole(s.enqueued[i]);
        assert i < Completions(s) ==> s.enqueued[i].id == s.completed;
      }
    }
    if Ahead(s, id) {
      forall i | Completions(s) <= i < |s.enqueued|
        ensures s.enqueued[i].id < id
      {
        assert s.cells[i % CMD_CAPACITY] == Whole(s.enqueued[i]);
      }
    }
  }

  /** The command `e`, number `n` of the ring, is about to be enqueued, is queued with no answer in sight, or has completed. */
  ghost predicate Guarded(s: State, n: nat, e: Entry) {
    if |s.enqueued| <= n then
      |s.enqueued| == n && s.sender.StoreHead? && s.sender.entry == e && AheadOf(s, e.id, n)
    else
      s.enqueued[n] == e && (Completions(s) > n || (e.line !in s.answered && AheadOf(s, e.id, n)))
  }

  lemma {:induction false} SendKeepsGuarded(s: State, n: nat, e: Entry)
    requires Inv(s) && Guarded(s, n, e)
    ensures Guarded(SendStep(s), n, e)
  {
    match s.sender
    case StoreHead(_, _) =>
    case Wait(w) =>
      assert w == s.enqueued[|s.enqueued| - 1];
    case Ready =>
    case LoadHead(_) =>
    case CheckRoom(_, _) =>
    case WriteBegin(_, _) =>
    case WriteEnd(_, _) =>
    case Notify(_) =>
  }

  lemma {:induction false} ExecuteKeepsGuarded(s: State, n: nat, e: Entry)
    requires Inv(s) && Guarded(s, n, e)
    ensures Guarded(ExecuteStep(s), n, e)
  {
    ExecuteFrame(s);
    ExecuteKeepsExecuted(s);
    RI.CommandSlotExact(s.drained);
  }

  lemma {:induction false} RunKeepsGuarded(s: State, steps: seq<Step>, n: nat, e: Entry)
    requires Inv(s) && Guarded(s, n, e)
    ensures Truthful(Run(s, steps), e.line)
    decreases |steps|
  {
    if steps == [] {
      GuardedIsTruthful(s, n, e);
    } else {
      StepKeepsInv(s, steps[0]);
      StepKeepsGuarded(s, steps[0], n, e);
      RunKeepsGuarded(Next(s, steps[0]), steps[1..], n, e);
    }
  }

  lemma {:induction false} StepKeepsGuarded(s: State, step: Step, n: nat, e: Entry)
    requires Inv(s) && Guarded(s, n, e)
    ensures Guarded(Next(s, step), n, e)
  {
    match step
    case Submit(_, _, _) =>
    case Send => SendKeepsGuarded(s, n, e);
    case TimeOut =>
    case Execute => ExecuteKeepsGuarded(s, n, e);
  }

  lemma {:induction false} GuardedIsTruthful(s: State, n: nat, e: Entry)
    requires LinesOk(s) && ExecutedOk(s) && Guarded(s, n, e)
    ensures Truthful(s, e.line)
  {
    if |s.enqueued| > n && Completions(s) > n {
      assert s.executed[n] == Whole(s.enqueued[n]);
    }
  }

  /** The VMM alone, up to the moment when it has completed command number `i` and not looked further. */
  lemma {:induction false} ExecutesUpTo(s: State, i: nat) returns (steps: seq<Step>)
    requires Inv(s) && Awake(s) && Completions(s) <= i < |s.enqueued|
    ensures var s' := Run(s, steps);
            && Inv(s') && Completions(s') == i + 1 && s'.executor.StoreTail?
            && s'.sender == s.sender && s'.enqueued == s.enqueued && s'.answered == s.answered
    decreases Needed(s, i)
  {
    var s' := Next(s, Execute);
    StepKeepsInv(s, Execute);
    ExecuteAdvances(s, i);
    ExecuteFrame(s);
    assert Run(s, [Execute]) == Run(s', []);
    if Completions(s') > i {
      steps := [Execute];
    } else {
      var rest := ExecutesUpTo(s', i);
      steps := [Execute] + rest;
      RunAppend(s, [Execute], rest);
    }
  }

  /** A waiting sender whose id is not above the completed id is answered at once. */
  lemma {:induction false} EarlyAnswer(s: State)
    requires Inv(s) && s.sender.Wait? && s.completed >= s.sender.entry.id && Completions(s) < |s.enqueued|
    requires |s.executed| < |s.enqueued|
    ensures var s' := Run(s, [Send]); s.sender.entry.line in s'.answered && !HasRun(s', s.sender.entry.line)
  {
    var s', e := Next(s, Send), s.sender.entry;
    assert Run(s, [Send]) == Run(s', []);
    assert e == s.enqueued[|s.enqueued| - 1];
    forall i | 0 <= i < |s'.executed|
      ensures s'.executed[i].Whole? ==> s'.executed[i].entry.line != e.line
    {
      assert s'.executed[i] == Whole(s.enqueued[i]);
    }
  }

  /** The sender enqueues its command and notifies the VMM. */
  lemma {:induction false} TwoSends(s: State) returns (s': State)
    requires Inv(s) && s.sender.StoreHead?
    ensures s' == Run(s, [Send, Send]) && Inv(s') && Awake(s') && s'.sender == Wait(s.sender.entry)
    ensures s'.enqueued == s.enqueued + [s.sender.entry] && s'.completed == s.completed
    ensures Completions(s') == Completions(s) && s'.executed == s.executed
  {
    var s1 := Next(s, Send);
    s' := Next(s1, Send);
    StepKeepsInv(s, Send);
    StepKeepsInv(s1, Send);
    assert s1.sender == Notify(s.sender.entry) && Completions(s1) == Completions(s);
    RunTwo(s, Send, Send);
  }

  lemma {:induction false} RunTwo(s: State, a: Step, b: Step)
    requires |s.cells| == CMD_CAPACITY
    ensures Run(s, [a, b]) == Next(Next(s, a), b)
  {
    assert [a, b][1..] == [b];
    assert Run(Next(s, a), [b]) == Next(Next(s, a), b);
  }

  /** An id that is not ahead: there is a way for the run to go on in which the answer comes before the command has run. */
  lemma {:induction false} NotAheadFails(s: State) returns (more: seq<Step>)
    requires Inv(s) && s.sender.StoreHead? && !Ahead(s, s.sender.entry.id)
    ensures !Truthful(Run(s, more), s.sender.entry.line)
  {
    var e := s.sender.entry;
    var s2 := TwoSends(s);
    AheadIsAheadOf(s, e.id);
    if s.completed >= e.id {
      EarlyAnswer(s2);
      more := [Send, Send] + [Send];
      RunAppend(s, [Send, Send], [Send]);
    } else {
      var i :| Completions(s) <= i < |s.enqueued| && s.enqueued[i].id >= e.id;
      var work := AnswerBehind(s2, i);
      more := [Send, Send] + work;
      RunAppend(s, [Send, Send], work);
    }
  }

  /** The sender waits with an id that is not above that of command `i` before it: it is answered when `i` completes. */
  lemma {:induction false} AnswerBehind(s: State, i: nat) returns (steps: seq<Step>)
    requires Inv(s) && Awake(s) && s.sender.Wait? && Completions(s) <= i < |s.enqueued| - 1
    requires s.enqueued[i].id >= s.sender.entry.id
    ensures !Truthful(Run(s, steps), s.sender.entry.line)
  {
    var work := ExecutesUpTo(s, i);
    var s' := Run(s, work);
    assert s'.completed == s'.enqueued[i].id;
    EarlyAnswer(s');
    steps := work + [Send];
    RunAppend(s, work, [Send]);
  }

  lemma {:induction false} AnswerExactly(s: State)
    requires Inv(s) && s.sender.StoreHead?
    ensures NeverEarly(s, s.sender.entry.line) <==> Ahead(s, s.sender.entry.id)
  {
    var e := s.sender.entry;
    if Ahead(s, e.id) {
      AheadIsAheadOf(s, e.id);
      forall more: seq<Step>
        ensures Truthful(Run(s, more), e.line)
      {
        RunKeepsGuarded(s, more, |s.enqueued|, e);
      }
    } else {
      var more := NotAheadFails(s);
    }
  }

  /**
   After every run, when the sender is about to enqueue a command: the answer about it can never come before it
   has run if and only if its id is ahead of the completed id and of the ids in the ring. With an empty ring, as
   without timeouts, that is `completed < id`.
   */
  lemma {:induction false} EveryAnswerExactly(steps: seq<Step>)
    requires Run(Init(), steps).sender.StoreHead?
    ensures var s := Run(Init(), steps); var e := s.sender.entry;
            && (NeverEarly(s, e.line) <==> Ahead(s, e.id))
            && (s.head == s.tail ==> (Ahead(s, e.id) <==> s.completed < e.id))
  {
    RunKeepsInv(Init(), steps);
    var s := Run(Init(), steps);
    AnswerExactly(s);
    WrapDifference(|s.enqueued|, s.drained);
  }

  /** Line 2^64 has id 0. The sender is told at once that its command has finished, and the VMM has not moved. */
  lemma {:induction false} WrappedLineFails(verb: u64, arg: u64)
    ensures var s := Run(Init(), [Submit(TWO64 - 1, verb, arg), Send, Send, Send, Send, Send, Send, Send]);
            s.answered == {TWO64} && s.executed == [] && s.enqueued == [Entry(0, verb, arg, TWO64)]
  {
    var e := Entry(0, verb, arg, TWO64);
    var s0 := Init();
    var s1 := Next(s0, Submit(TWO64 - 1, verb, arg));
    assert s1.sender == LoadHead(e);
    var s2 := Next(Next(Next(s1, Send), Send), Send);
    assert s2.sender == WriteEnd(e, 0);
    var s3 := Next(Next(s2, Send), Send);
    assert s3.sender == Notify(e) && s3.enqueued == [e];
    var s4 := Next(Next(s3, Send), Send);
    assert Run(s3, [Send, Send]) == s4;
    assert Run(s2, [Send, Send, Send, Send]) == Run(s3, [Send, Send]);
    assert Run(s1, [Send, Send, Send, Send, Send, Send, Send]) == Run(s2, [Send, Send, Send, Send]);
  }

  // ---------------------------------------------------------------- fewer than 2^64 lines

  ghost predicate AllTruthful(s: State) {
    forall line :: line in s.answered ==> HasRun(s, line)
  }

  /** With ids that have not wrapped, a completed id that is not below the sender's is the sender's own. */
  lemma {:induction false} FewLinesAnswer(s: State)
    requires SenderOk(s) && LinesOk(s) && ExecutedOk(s) && CompletedOk(s)
    requires s.lines < TWO64 && s.sender.Wait? && s.completed >= s.sender.entry.id
    ensures HasRun(s, s.sender.entry.line)
  {
    var n := Completions(s);
    assert n > 0 && s.enqueued[n - 1].id == s.completed;
    assert n == |s.enqueued|;
    assert s.executed[n - 1] == Whole(s.enqueued[n - 1]);
  }

  lemma {:induction false} FewLinesStep(s: State, step: Step)
    requires Inv(s) && AllTruthful(s) && Next(s, step).lines < TWO64
    ensures AllTruthful(Next(s, step))
  {
    var s' := Next(s, step);
    if step.Execute? {
      ExecuteKeepsExecuted(s);
    }
    forall line | line in s'.answered
      ensures HasRun(s', line)
    {
      if line in s.answered {
        var i :| 0 <= i < |s.executed| && s.executed[i].Whole? && s.executed[i].entry.line == line;
        assert s'.executed[i] == s.executed[i];
      } else {
        assert s.sender.Wait? && line == s.sender.entry.line;
        FewLinesAnswer(s);
        assert s'.executed == s.executed;
      }
    }
  }

  lemma {:induction false} LinesGrow(s: State, steps: seq<Step>)
    requires |s.cells| == CMD_CAPACITY
    ensures s.lines <= Run(s, steps).lines
    decreases |steps|
  {
    if steps != [] {
      LinesGrow(Next(s, steps[0]), steps[1..]);
    }
  }

  lemma {:induction false} FewLinesRun(s: State, steps: seq<Step>)
    requires Inv(s) && AllTruthful(s) && Run(s, steps).lines < TWO64
    ensures AllTruthful(Run(s, steps))
    decreases |steps|
  {
    if steps != [] {
      LinesGrow(Next(s, steps[0]), steps[1..]);
      FewLinesStep(s, steps[0]);
      StepKeepsInv(s, steps[0]);
      FewLinesRun(Next(s, steps[0]), steps[1..]);
    }
  }

  /** In every run of fewer than 2^64 lines, commands run in the order of their ids, and every answer is true. */
  lemma {:induction false} EveryAnswerIsTrue(steps: seq<Step>)
    requires Run(Init(), steps).lines < TWO64
    ensures var s := Run(Init(), steps);
            && AllTruthful(s)
            && (forall i, j :: 0 <= i < j < |s.enqueued| ==> s.enqueued[i].id < s.enqueued[j].id)
  {
    RunKeepsInv(Init(), steps);
    FewLinesRun(Init(), steps);
    IdsAreLines(Run(Init(), steps));
  }

  lemma {:induction false} IdsAreLines(s: State)
    requires LinesOk(s) && s.lines < TWO64
    ensures forall i, j :: 0 <= i < j < |s.enqueued| ==> s.enqueued[i].id < s.enqueued[j].id
  {
    assert forall i :: 0 <= i < |s.enqueued| ==> s.enqueued[i].id == s.enqueued[i].line;
  }
}
