/** The grammar of the VMM's records, over every sequence of commands and faults. */
module GuestTrace {
  import opened TraceTypes
  import opened GuestLifecycle
  import RingIndex

  // ---------------------------------------------------------------- the grammar

  /** The records of one SMC all carry the same pc, syndrome and vCPU. */
  predicate SameCall(a: Body, b: Body) {
    a.pc == b.pc && a.esr == b.esr && a.vcpu == b.vcpu
  }

  /** Registers x2 to x7, two to a record. */
  predicate RegsGroup(g: seq<Body>, first: Body, flags: u8) {
    && |g| == 3
    && forall i :: 0 <= i < 3 ==>
         g[i].kind == KIND_SMC_REGS && g[i].size == 2 + 2 * i && g[i].flags == flags && SameCall(g[i], first)
  }

  predicate EnterGroup(g: seq<Body>) {
    |g| == 4 && g[0].kind == KIND_SMC_ENTER && g[0].flags == 0 && RegsGroup(g[1..], g[0], 0)
  }

  /** How an SMC returned: forwarded to the firmware exactly when it asked for SMCCC_VERSION, else emulated PSCI. */
  predicate ExitGroup(g: seq<Body>, enter: Body) {
    && |g| == 4 && g[0].kind == KIND_SMC_EXIT && SameCall(g[0], enter)
    && g[0].flags == (if Low32(enter.addr) == SMCCC_VERSION_FID then SMC_FORWARDED else 0)
    && RegsGroup(g[1..], enter, SMC_REGS_EXIT)
  }

  predicate RefusedExit(b: Body, enter: Body) {
    b.kind == KIND_SMC_EXIT && b.flags == SMC_UNHANDLED && b.addr == 0 && b.value == 0 && SameCall(b, enter)
  }

  predicate RefusedMmio(b: Body) {
    b.kind == KIND_MMIO && MMIO_UNHANDLED <= b.flags <= MMIO_UNHANDLED + MMIO_WRITE && b.value == 0
  }

  predicate IsGuestEvent(b: Body, event: u64, n: nat, vcpu: u16) {
    b.kind == KIND_GUEST && b.addr == event && b.value == n % TWO64 && b.vcpu == vcpu
  }

  /** What the guest did and was allowed to do. */
  datatype Item = Access(rec: Body) | Call(enter: seq<Body>, exit: seq<Body>)

  /** Why the guest was stopped: nothing traced, a refused access, or a refused SMC, possibly after a forwarded exit. */
  datatype Cause = Untraced | BadAccess(rec: Body) | BadCall(enter: seq<Body>, exit: seq<Body>, rec: Body)

  datatype Ending = Open | ByCommand(stop: Body) | ByFault(cause: Cause, stop: Body)

  datatype Items = NoItems | Then(before: Items, last: Item)

  datatype RunLog = RunLog(started: Body, items: Items, ending: Ending)

  datatype Runs = NoRuns | Next(before: Runs, last: RunLog)

  predicate GoodItem(it: Item, vcpu: u16) {
    match it
    case Access(rec) => HandledMmio(rec, vcpu)
    case Call(enter, exit) => EnterGroup(enter) && enter[0].vcpu == vcpu && ExitGroup(exit, enter[0])
  }

  predicate GoodCause(c: Cause, vcpu: u16) {
    match c
    case Untraced => true
    case BadAccess(rec) => RefusedMmio(rec) && rec.vcpu == vcpu
    case BadCall(enter, exit, rec) =>
      && EnterGroup(enter) && enter[0].vcpu == vcpu && RefusedExit(rec, enter[0])
      && (exit == [] || (ExitGroup(exit, enter[0]) && exit[0].flags == SMC_FORWARDED))
  }

  predicate GoodEnding(e: Ending, n: nat, vcpu: u16) {
    match e
    case Open => true
    case ByCommand(stop) => IsGuestEvent(stop, GUEST_STOPPED_BY_COMMAND, n, vcpu)
    case ByFault(cause, stop) => GoodCause(cause, vcpu) && IsGuestEvent(stop, GUEST_STOPPED_BY_FAULT, n, vcpu)
  }

  predicate GoodItems(items: Items, vcpu: u16) {
    items.Then? ==> GoodItems(items.before, vcpu) && GoodItem(items.last, vcpu)
  }

  /** Run `n`: its STARTED record, whole accesses and calls, and at most one STOPPED record. */
  predicate GoodRun(r: RunLog, n: nat) {
    && IsGuestEvent(r.started, GUEST_STARTED, n, r.started.vcpu)
    && GoodItems(r.items, r.started.vcpu)
    && GoodEnding(r.ending, n, r.started.vcpu)
  }

  function Count(runs: Runs): nat {
    if runs.NoRuns? then 0 else Count(runs.before) + 1
  }

  /** Runs numbered 1, 2, 3, ... */
  predicate GoodRuns(runs: Runs) {
    runs.Next? ==> GoodRuns(runs.before) && GoodRun(runs.last, Count(runs))
  }

  /** No run is going on: one without a STOPPED record could not be started, and holds nothing else. */
  predicate Settled(runs: Runs) {
    runs.Next? ==> Settled(runs.before) && (runs.last.ending.Open? ==> runs.last.items.NoItems?)
  }

  function ItemText(it: Item): seq<Body> {
    match it
    case Access(rec) => [rec]
    case Call(enter, exit) => enter + exit
  }

  function ItemsText(items: Items): seq<Body> {
    if items.NoItems? then [] else ItemsText(items.before) + ItemText(items.last)
  }

  function CauseText(c: Cause): seq<Body> {
    match c
    case Untraced => []
    case BadAccess(rec) => [rec]
    case BadCall(enter, exit, rec) => enter + exit + [rec]
  }

  function EndingText(e: Ending): seq<Body> {
    match e
    case Open => []
    case ByCommand(stop) => [stop]
    case ByFault(cause, stop) => CauseText(cause) + [stop]
  }

  function RunText(r: RunLog): seq<Body> {
    [r.started] + ItemsText(r.items) + EndingText(r.ending)
  }

  function TraceText(runs: Runs): seq<Body> {
    if runs.NoRuns? then [] else TraceText(runs.before) + RunText(runs.last)
  }

  /** The trace is runs 1, 2, 3, ..., and only the last run can be going on: exactly when the guest is running. */
  predicate IsRuns(v: View, runs: Runs) {
    && v.trace == TraceText(runs)
    && v.run == Count(runs) % TWO64
    && GoodRuns(runs)
    && (v.state.Running? ==>
          && runs.Next? && Settled(runs.before)
          && runs.last.ending.Open? && runs.last.started.vcpu == v.runVcpu)
    && (!v.state.Running? ==> Settled(runs))
  }

  // ---------------------------------------------------------------- extending the parse

  function AddAccesses(items: Items, records: seq<Body>): Items {
    if records == [] then items
    else Then(AddAccesses(items, records[..|records| - 1]), Access(records[|records| - 1]))
  }

  lemma {:induction false} Assoc<T>(a: seq<T>, b: seq<T>, c: seq<T>)
    ensures (a + b) + c == a + (b + c)
  {
  }

  lemma {:induction false} AddAccessesGood(items: Items, records: seq<Body>, vcpu: u16)
    requires GoodItems(items, vcpu) && forall i :: 0 <= i < |records| ==> HandledMmio(records[i], vcpu)
    ensures GoodItems(AddAccesses(items, records), vcpu)
    decreases |records|
  {
    if records != [] {
      var front, last := records[..|records| - 1], records[|records| - 1];
      AddAccessesGood(items, front, vcpu);
      assert HandledMmio(last, vcpu);
    }
  }

  lemma {:induction false} AddAccessesText(items: Items, records: seq<Body>)
    ensures ItemsText(AddAccesses(items, records)) == ItemsText(items) + records
    decreases |records|
  {
    if records == [] {
      assert ItemsText(items) + records == ItemsText(items);
    } else {
      var front, last := records[..|records| - 1], records[|records| - 1];
      AddAccessesText(items, front);
      assert ItemText(Access(last)) == [last];
      Assoc(ItemsText(items), front, [last]);
      assert records == front + [last];
    }
  }

  /** The current run, grown and given an ending. */
  function Grow(runs: Runs, items: Items, ending: Ending): Runs
    requires runs.Next?
  {
    Next(runs.before, RunLog(runs.last.started, items, ending))
  }

  lemma {:induction false} Regroup<T>(t: seq<T>, s: seq<T>, i: seq<T>, x: seq<T>, e: seq<T>)
    ensures t + (s + (i + x) + e) == (t + (s + i + [])) + x + e
  {
  }

  lemma {:induction false} GrowText(runs: Runs, items: Items, more: seq<Body>, ending: Ending)
    requires runs.Next? && runs.last.ending.Open? && ItemsText(items) == ItemsText(runs.last.items) + more
    ensures TraceText(Grow(runs, items, ending)) == TraceText(runs) + more + EndingText(ending)
  {
    Regroup(TraceText(runs.before), [runs.last.started], ItemsText(runs.last.items), more, EndingText(ending));
  }

  /** Growing the current run keeps the parse good. */
  lemma {:induction false} GrowGood(v: View, v': View, runs: Runs, items: Items, more: seq<Body>, ending: Ending)
    requires IsRuns(v, runs) && v.state.Running?
    requires GoodItems(items, v.runVcpu) && ItemsText(items) == ItemsText(runs.last.items) + more
    requires GoodEnding(ending, Count(runs), v.runVcpu)
    requires v'.run == v.run && v'.runVcpu == v.runVcpu
    requires v'.state.Running? <==> ending.Open?
    requires v'.trace == v.trace + more + EndingText(ending)
    ensures IsRuns(v', Grow(runs, items, ending))
  {
    GrowText(runs, items, more, ending);
    assert GoodRun(runs.last, Count(runs));
    assert Count(Grow(runs, items, ending)) == Count(runs);
  }

  lemma {:induction false} StartGood(v: View, v': View, runs: Runs, started: Body)
    requires IsRuns(v, runs) && !v.state.Running?
    requires v'.run == Inc64(v.run) && started.value == v'.run
    requires started.kind == KIND_GUEST && started.addr == GUEST_STARTED && started.vcpu == v'.runVcpu
    requires v'.trace == v.trace + [started]
    ensures IsRuns(v', Next(runs, RunLog(started, NoItems, Open)))
  {
    RingIndex.WrapIncrement(Count(runs));
    assert RunText(RunLog(started, NoItems, Open)) == [started];
  }

  /** A handled SMC is one whole call. */
  lemma {:induction false} CallGood(vcpu: u8, f: Fault)
    requires f.Smc? && SmcOutcome(vcpu, f).1
    ensures var records := SmcOutcome(vcpu, f).0;
            && |records| == 8
            && GoodItem(Call(records[..4], records[4..]), vcpu)
  {
    assert f.regs.Some?;
    var r := f.regs.value;
    var enter := SmcEnter(vcpu, r.pc, f.hsr, r);
    var records := SmcOutcome(vcpu, f).0;
    assert records[..4] == enter;
    PolicyOfVersion(Low32(r.x0));
    if SmcPolicy(Low32(r.x0)).Forward? {
      assert records[4..] == SmcExit(vcpu, r.pc, f.hsr, SMC_FORWARDED, f.answer);
    } else {
      assert records[4..] == SmcExit(vcpu, r.pc, f.hsr, 0, f.after.value);
    }
  }

  lemma {:induction false} PolicyOfVersion(fid: u32)
    ensures SmcPolicy(fid).Forward? <==> fid == SMCCC_VERSION_FID
  {
  }

  function Register(r: Regs, k: nat): u64
    requires k < 8
  {
    [r.x0, r.x1, r.x2, r.x3, r.x4, r.x5, r.x6, r.x7][k]
  }

  /** A record that names register `n` in `size` holds it in `addr`, and register `n + 1` in `value`. */
  predicate HoldsRegister(b: Body, k: nat, x: u64) {
    (b.size == k && b.addr == x) || (b.size + 1 == k && b.value == x)
  }

  /** Every register is in the record of the group that names it, and all records name the call. */
  predicate HoldsRegisters(g: seq<Body>, vcpu: u8, pc: u64, hsr: u64, r: Regs) {
    && |g| == 4
    && (forall i :: 0 <= i < 4 ==> g[i].size == 2 * i && g[i].pc == pc && g[i].esr == Low32(hsr) && g[i].vcpu == vcpu)
    && (forall k :: 0 <= k < 8 ==> HoldsRegister(g[k / 2], k, Register(r, k)))
  }

  /** The registers of a call can be read back from its groups. */
  lemma {:induction false} GroupHoldsRegisters(vcpu: u8, pc: u64, hsr: u64, flags: u8, r: Regs)
    ensures HoldsRegisters(SmcEnter(vcpu, pc, hsr, r), vcpu, pc, hsr, r)
    ensures HoldsRegisters(SmcExit(vcpu, pc, hsr, flags, r), vcpu, pc, hsr, r)
  {
    var enter, exit := SmcEnter(vcpu, pc, hsr, r), SmcExit(vcpu, pc, hsr, flags, r);
    forall k | 0 <= k < 8
      ensures HoldsRegister(enter[k / 2], k, Register(r, k)) && HoldsRegister(exit[k / 2], k, Register(r, k))
    {
      assert k in {0, 1, 2, 3, 4, 5, 6, 7};
    }
  }

  /** The cause that an unhandled SMC leaves in the trace. */
  function SmcCause(vcpu: u8, f: Fault): Cause
    requires f.Smc? && !SmcOutcome(vcpu, f).1
  {
    if f.regs.None? then Untraced
    else
      var r := f.regs.value;
      var exit :=
        if SmcPolicy(Low32(r.x0)).Forward? then SmcExit(vcpu, r.pc, f.hsr, SMC_FORWARDED, f.answer) else [];
      BadCall(SmcEnter(vcpu, r.pc, f.hsr, r), exit, SmcRefused(vcpu, r.pc, f.hsr))
  }

  lemma {:induction false} SmcCauseGood(vcpu: u8, f: Fault)
    requires f.Smc? && !SmcOutcome(vcpu, f).1
    ensures GoodCause(SmcCause(vcpu, f), vcpu) && CauseText(SmcCause(vcpu, f)) == SmcOutcome(vcpu, f).0
  {
    if f.regs.Some? {
      PolicyOfVersion(Low32(f.regs.value.x0));
    }
  }

  lemma {:induction false} SmcGood(v: View, f: Fault, runs: Runs) returns (runs': Runs)
    requires IsRuns(v, runs) && v.state.Running? && f.Smc?
    ensures IsRuns(ApplyFault(v, f), runs')
  {
    var v' := ApplyFault(v, f);
    var (records, goesOn) := SmcOutcome(v.runVcpu, f);
    assert GoodRun(runs.last, Count(runs));
    if goesOn {
      CallGood(v.runVcpu, f);
      var call := Call(records[..4], records[4..]);
      assert ItemText(call) == records;
      GrowGood(v, v', runs, Then(runs.last.items, call), records, Open);
      runs' := Grow(runs, Then(runs.last.items, call), Open);
    } else {
      SmcCauseGood(v.runVcpu, f);
      var stop := GuestRecord(v, GUEST_STOPPED_BY_FAULT, f.last);
      var ending := ByFault(SmcCause(v.runVcpu, f), stop);
      Assoc(v.trace, records, [stop]);
      assert v.trace + [] == v.trace && ItemsText(runs.last.items) + [] == ItemsText(runs.last.items);
      GrowGood(v, v', runs, runs.last.items, [], ending);
      runs' := Grow(runs, runs.last.items, ending);
    }
  }

  lemma {:induction false} OtherGood(v: View, f: Fault, runs: Runs) returns (runs': Runs)
    requires IsRuns(v, runs) && v.state.Running? && !f.Smc? && FaultOk(f, v.runVcpu)
    ensures IsRuns(ApplyFault(v, f), runs')
  {
    var v' := ApplyFault(v, f);
    assert GoodRun(runs.last, Count(runs));
    AddAccessesGood(runs.last.items, f.inner, v.runVcpu);
    AddAccessesText(runs.last.items, f.inner);
    var items := AddAccesses(runs.last.items, f.inner);
    var stop := GuestRecord(v, GUEST_STOPPED_BY_FAULT, f.last);
    var cause := if f.Memory? then BadAccess(MmioRefused(v.runVcpu, f)) else Untraced;
    var ending := if f.handled then Open else ByFault(cause, stop);
    assert v'.trace == v.trace + f.inner + EndingText(ending);
    GrowGood(v, v', runs, items, f.inner, ending);
    runs' := Grow(runs, items, ending);
  }

  lemma {:induction false} StepGood(vcpus: nat, v: View, e: Event, runs: Runs) returns (runs': Runs)
    requires IsRuns(v, runs) && (e.Fault? ==> FaultOk(e.fault, v.runVcpu))
    ensures IsRuns(Apply(vcpus, v, e), runs')
  {
    var v' := Apply(vcpus, v, e);
    runs' := runs;
    match e
    case Start(select, env) =>
      if !v.state.Running? && SelectedVcpu(select) < vcpus && env.imageLoads {
        var started := v'.trace[|v.trace|];
        StartGood(v, v', runs, started);
        runs' := Next(runs, RunLog(started, NoItems, Open));
      }
    case Stop =>
      if v.state.Running? {
        var stop := GuestRecord(v, GUEST_STOPPED_BY_COMMAND, 0);
        assert GoodRun(runs.last, Count(runs));
        assert v.trace + [] == v.trace && ItemsText(runs.last.items) + [] == ItemsText(runs.last.items);
        GrowGood(v, v', runs, runs.last.items, [], ByCommand(stop));
        runs' := Grow(runs, runs.last.items, ByCommand(stop));
      }
    case Query =>
    case Fault(f) =>
      if v.state.Running? {
        if f.Smc? { runs' := SmcGood(v, f, runs); } else { runs' := OtherGood(v, f, runs); }
      }
  }

  /** In every sequence of commands and faults, the VMM's records are runs 1, 2, 3, ... of the grammar above. */
  lemma {:induction false} EveryTraceIsRuns(vcpus: nat, events: seq<Event>) returns (runs: Runs)
    requires EventsOk(vcpus, events)
    ensures IsRuns(ApplyAll(vcpus, events), runs)
    decreases |events|
  {
    if events == [] {
      runs := NoRuns;
    } else {
      var n := |events| - 1;
      var before := events[..n];
      assert forall i :: 0 <= i < n ==> before[..i] == events[..i];
      var earlier := EveryTraceIsRuns(vcpus, before);
      runs := StepGood(vcpus, ApplyAll(vcpus, before), events[n], earlier);
    }
  }

  // ---------------------------------------------------------------- refused accesses and calls

  predicate IsRefusal(b: Body) {
    (b.kind == KIND_MMIO || b.kind == KIND_SMC_EXIT) && b.flags >= 4
  }

  /** How many runs a trace has started. */
  function Starts(trace: seq<Body>): nat {
    if trace == [] then 0
    else
      var last := trace[|trace| - 1];
      Starts(trace[..|trace| - 1]) + if last.kind == KIND_GUEST && last.addr == GUEST_STARTED then 1 else 0
  }

  /** Every refusal is immediately followed by the fault stop of the run it happened in, on the same vCPU. */
  ghost predicate RefusalsStop(trace: seq<Body>) {
    forall k :: 0 <= k < |trace| && IsRefusal(trace[k]) ==>
      k + 1 < |trace| && IsFaultStop(trace[k + 1], trace[k].vcpu, Starts(trace[..k]) % TWO64)
  }

  /** The same for records that all belong to one run. */
  ghost predicate RefusalsStopRun(records: seq<Body>, run: u64) {
    forall k :: 0 <= k < |records| && IsRefusal(records[k]) ==>
      k + 1 < |records| && IsFaultStop(records[k + 1], records[k].vcpu, run)
  }

  predicate IsFaultStop(b: Body, vcpu: u16, run: u64) {
    b.kind == KIND_GUEST && b.addr == GUEST_STOPPED_BY_FAULT && b.vcpu == vcpu && b.value == run
  }

  predicate IsStart(b: Body) {
    b.kind == KIND_GUEST && b.addr == GUEST_STARTED
  }

  lemma {:induction false} StartsSnoc(a: seq<Body>, b: Body)
    ensures Starts(a + [b]) == Starts(a) + if IsStart(b) then 1 else 0
  {
    assert (a + [b])[..|a|] == a;
  }

  lemma {:induction false} StartsAppend(a: seq<Body>, b: seq<Body>)
    requires forall i :: 0 <= i < |b| ==> !IsStart(b[i])
    ensures Starts(a + b) == Starts(a)
    decreases |b|
  {
    if b == [] {
      assert a + b == a;
    } else {
      var front, last := b[..|b| - 1], b[|b| - 1];
      StartsAppend(a, front);
      StartsSnoc(a + front, last);
      assert a + b == (a + front) + [last];
    }
  }

  /** What one event adds to the trace. */
  function Added(vcpus: nat, v: View, e: Event): seq<Body> {
    match e
    case Start(select, env) =>
      if v.state.Running? || SelectedVcpu(select) >= vcpus || !env.imageLoads then []
      else [GuestRecord(v.(runVcpu := SelectedVcpu(select), run := Inc64(v.run)), GUEST_STARTED, env.entry)]
    case Stop => if v.state.Running? then [GuestRecord(v, GUEST_STOPPED_BY_COMMAND, 0)] else []
    case Query => []
    case Fault(f) =>
      if !v.state.Running? then []
      else
        var (records, goesOn) := FaultOutcome(v.runVcpu, f);
        if goesOn then records else records + [GuestRecord(v, GUEST_STOPPED_BY_FAULT, f.last)]
  }

  lemma {:induction false} TraceGrows(vcpus: nat, v: View, e: Event)
    ensures Apply(vcpus, v, e).trace == v.trace + Added(vcpus, v, e)
  {
  }

  lemma {:induction false} RefusalsStopAppend(a: seq<Body>, b: seq<Body>)
    requires RefusalsStop(a) && RefusalsStopRun(b, Starts(a) % TWO64)
    requires (forall i :: 0 <= i < |b| ==> !IsStart(b[i])) || forall i :: 0 <= i < |b| ==> !IsRefusal(b[i])
    ensures RefusalsStop(a + b)
  {
    var t := a + b;
    forall k | 0 <= k < |t| && IsRefusal(t[k])
      ensures k + 1 < |t| && IsFaultStop(t[k + 1], t[k].vcpu, Starts(t[..k]) % TWO64)
    {
      if k < |a| {
        assert IsRefusal(a[k]) && t[..k] == a[..k];
      } else {
        var i := k - |a|;
        assert IsRefusal(b[i]) && t[..k] == a + b[..i];
        StartsAppend(a, b[..i]);
      }
    }
  }

  lemma {:induction false} SmcRefusals(v: View, f: Fault)
    requires f.Smc?
    ensures var (records, goesOn) := SmcOutcome(v.runVcpu, f);
            && (goesOn ==> forall i :: 0 <= i < |records| ==> !IsRefusal(records[i]))
            && (!goesOn ==> forall i :: 0 <= i < |records| && IsRefusal(records[i]) ==>
                  i == |records| - 1 && records[i].vcpu == v.runVcpu)
            && (forall i :: 0 <= i < |records| ==> records[i].kind != KIND_GUEST)
  {
  }

  /** What an event adds refuses nothing without stopping the guest, and starts a run only as the run number says. */
  lemma {:induction false} AddedGood(vcpus: nat, v: View, e: Event)
    requires e.Fault? ==> FaultOk(e.fault, v.runVcpu)
    ensures RefusalsStopRun(Added(vcpus, v, e), v.run)
    ensures !e.Fault? ==> forall i :: 0 <= i < |Added(vcpus, v, e)| ==> !IsRefusal(Added(vcpus, v, e)[i])
    ensures e.Fault? ==> forall i :: 0 <= i < |Added(vcpus, v, e)| ==> !IsStart(Added(vcpus, v, e)[i])
  {
    if e.Fault? && e.fault.Smc? {
      SmcRefusals(v, e.fault);
    }
  }

  /** The run number goes up by one with each STARTED record, and never otherwise. */
  lemma {:induction false} RunNumber(vcpus: nat, v: View, e: Event)
    ensures Apply(vcpus, v, e).run == if e.Start? && Added(vcpus, v, e) != [] then Inc64(v.run) else v.run
  {
  }

  lemma {:induction false} StartsAdded(vcpus: nat, v: View, e: Event)
    requires e.Fault? ==> FaultOk(e.fault, v.runVcpu)
    ensures Starts(v.trace + Added(vcpus, v, e)) ==
            Starts(v.trace) + if e.Start? && Added(vcpus, v, e) != [] then 1 else 0
  {
    var added := Added(vcpus, v, e);
    if e.Start? && added != [] {
      StartsSnoc(v.trace, added[0]);
    } else {
      AddedGood(vcpus, v, e);
      StartsAppend(v.trace, added);
    }
  }

  lemma {:induction false} RunCounts(vcpus: nat, v: View, e: Event)
    requires v.run == Starts(v.trace) % TWO64 && (e.Fault? ==> FaultOk(e.fault, v.runVcpu))
    ensures var v' := Apply(vcpus, v, e); v'.run == Starts(v'.trace) % TWO64
  {
    TraceGrows(vcpus, v, e);
    RunNumber(vcpus, v, e);
    StartsAdded(vcpus, v, e);
    RingIndex.WrapIncrement(Starts(v.trace));
  }

  predicate OnlyRunningIsOn(v: View) {
    v.on == (if v.state.Running? then {v.runVcpu} else {})
  }

  lemma {:induction false} StepKeepsOn(vcpus: nat, v: View, e: Event)
    requires OnlyRunningIsOn(v)
    ensures OnlyRunningIsOn(Apply(vcpus, v, e))
  {
  }

  /** What holds between the VMM's state and its records after every sequence of events. */
  ghost predicate Consistent(v: View) {
    && OnlyRunningIsOn(v)
    && v.run == Starts(v.trace) % TWO64
    && RefusalsStop(v.trace)
  }

  lemma {:induction false} StepKeepsStops(vcpus: nat, v: View, e: Event)
    requires RefusalsStop(v.trace) && v.run == Starts(v.trace) % TWO64 && (e.Fault? ==> FaultOk(e.fault, v.runVcpu))
    ensures RefusalsStop(Apply(vcpus, v, e).trace)
  {
    TraceGrows(vcpus, v, e);
    AddedGood(vcpus, v, e);
    RefusalsStopAppend(v.trace, Added(vcpus, v, e));
  }

  lemma {:induction false} StepKeepsConsistent(vcpus: nat, v: View, e: Event)
    requires Consistent(v) && (e.Fault? ==> FaultOk(e.fault, v.runVcpu))
    ensures Consistent(Apply(vcpus, v, e))
  {
    StepKeepsOn(vcpus, v, e);
    RunCounts(vcpus, v, e);
    StepKeepsStops(vcpus, v, e);
  }

  /**
   After every sequence of events: the guest is running exactly when its vCPU is on, no other vCPU is on, the
   run number counts the STARTED records, and every refusal is immediately followed by the fault stop of its own run.
   */
  lemma {:induction false} EveryRunConsistent(vcpus: nat, events: seq<Event>)
    requires EventsOk(vcpus, events)
    ensures Consistent(ApplyAll(vcpus, events))
    decreases |events|
  {
    if events != [] {
      var n := |events| - 1;
      var before := events[..n];
      assert forall i :: 0 <= i < n ==> before[..i] == events[..i];
      EveryRunConsistent(vcpus, before);
      StepKeepsConsistent(vcpus, ApplyAll(vcpus, before), events[n]);
    }
  }

  /**
   A refused command changes nothing at all: starting is refused exactly while the guest runs, stopping
   exactly while it does not. A start that is not refused either traces a new run or fails before it.
   */
  lemma {:induction false} RefusalsChangeNothing(vcpus: nat, v: View, select: u64, env: StartEnv)
    ensures Apply(vcpus, v, Stop) == v <==> !v.state.Running?
    ensures v.state.Running? ==> Apply(vcpus, v, Start(select, env)) == v
    ensures !v.state.Running? ==>
              var v' := Apply(vcpus, v, Start(select, env));
              && (v'.state.Running? || v'.state.StartFailed?)
              && (v'.trace == v.trace <==> v'.run == v.run)
              && (v'.state.Running? ==> v'.run == Inc64(v.run) && |v'.trace| == |v.trace| + 1)
  {
    assert Apply(vcpus, v, Stop).state.StoppedByCommand? || Apply(vcpus, v, Stop) == v;
  }
}
