/**
 The VMM's side of a guest's life: starting and stopping it, handling its faults, and the records the VMM
 emits while it does. The VMM is one thread, so the list of records it emits is its projection of the trace.
 Results of kernel calls, libvmm and firmware are parameters.
 */
module GuestLifecycle {
  import opened TraceTypes

  const GUEST_STARTED: u64 := 1
  const GUEST_STOPPED_BY_COMMAND: u64 := 2
  const GUEST_STOPPED_BY_FAULT: u64 := 3

  const MMIO_WRITE: u8 := 1
  const MMIO_UNHANDLED: u8 := 4

  const SMC_REGS_EXIT: u8 := 1
  const SMC_FORWARDED: u8 := 2
  const SMC_UNHANDLED: u8 := 4

  const PSCI_MAX: nat := 0x1f
  const SMCCC_VERSION_FID: nat := 0x8000_0000

  datatype GuestState = NotStarted | Running | StoppedByCommand | StoppedByFault | StartFailed

  /** The registers an SMC passes, and the guest's pc. */
  datatype Regs = Regs(x0: u64, x1: u64, x2: u64, x3: u64, x4: u64, x5: u64, x6: u64, x7: u64, pc: u64)

  /** What starting depends on: the image loader, the entry point, and writing the vCPU's registers. */
  datatype StartEnv = StartEnv(imageLoads: bool, entry: u64, writesRegs: bool)

  /**
   A fault of the running vCPU.
   - An SMC: the first register read (if it works), libvmm's PSCI answer, the read after it, the firmware's
     answer, and whether the vCPU could be advanced.
   - A memory fault: the access, the records of libvmm's registered handlers, and libvmm's verdict.
   - Any other fault: the records of libvmm's handlers and its verdict.
   `last` is the pc read when the guest is stopped, 0 if it cannot be read.
   */
  datatype Fault =
    | Smc(hsr: u64, regs: Option<Regs>, psciHandled: bool, after: Option<Regs>, answer: Regs, advances: bool, last: u64)
    | Memory(pc: u64, addr: u64, fsr: u64, width: u8, isWrite: bool, inner: seq<Body>, handled: bool, last: u64)
    | Other(inner: seq<Body>, handled: bool, last: u64)

  datatype Event = Start(select: u64, env: StartEnv) | Stop | Query | Fault(fault: Fault)

  datatype View = View(state: GuestState, run: u64, runVcpu: u8, on: set<u8>, trace: seq<Body>)

  function Low32(x: u64): u32 {
    x % 0x1_0000_0000
  }

  // ---------------------------------------------------------------- records

  function GuestRecord(v: View, event: u64, pc: u64): Body {
    Body(pc, event, v.run, 0, v.runVcpu, KIND_GUEST, 0, 0)
  }

  function SmcRecord(kind: u8, vcpu: u8, pc: u64, hsr: u64, flags: u8, first: u8, a: u64, b: u64): Body {
    Body(pc, a, b, Low32(hsr), vcpu, kind, first, flags)
  }

  function SmcRegs(vcpu: u8, pc: u64, hsr: u64, flags: u8, r: Regs): seq<Body> {
    [SmcRecord(KIND_SMC_REGS, vcpu, pc, hsr, flags, 2, r.x2, r.x3),
     SmcRecord(KIND_SMC_REGS, vcpu, pc, hsr, flags, 4, r.x4, r.x5),
     SmcRecord(KIND_SMC_REGS, vcpu, pc, hsr, flags, 6, r.x6, r.x7)]
  }

  function SmcEnter(vcpu: u8, pc: u64, hsr: u64, r: Regs): seq<Body> {
    [SmcRecord(KIND_SMC_ENTER, vcpu, pc, hsr, 0, 0, r.x0, r.x1)] + SmcRegs(vcpu, pc, hsr, 0, r)
  }

  function SmcExit(vcpu: u8, pc: u64, hsr: u64, flags: u8, r: Regs): seq<Body> {
    [SmcRecord(KIND_SMC_EXIT, vcpu, pc, hsr, flags, 0, r.x0, r.x1)] + SmcRegs(vcpu, pc, hsr, SMC_REGS_EXIT, r)
  }

  function SmcRefused(vcpu: u8, pc: u64, hsr: u64): Body {
    SmcRecord(KIND_SMC_EXIT, vcpu, pc, hsr, SMC_UNHANDLED, 0, 0, 0)
  }

  function MmioRefused(vcpu: u8, f: Fault): Body
    requires f.Memory?
  {
    Body(f.pc, f.addr, 0, Low32(f.fsr), vcpu, KIND_MMIO, f.width, if f.isWrite then MMIO_UNHANDLED + MMIO_WRITE else MMIO_UNHANDLED)
  }

  /** An access that one of libvmm's registered handlers performed and traced. */
  predicate HandledMmio(b: Body, vcpu: u16) {
    b.kind == KIND_MMIO && b.flags < MMIO_UNHANDLED && b.vcpu == vcpu
  }

  // ---------------------------------------------------------------- policy

  datatype Action = EmulatePsci | Forward | Refuse

  /** `smc_policy` */
  function SmcPolicy(fid: u32): Action {
    if fid / 0x100_0000 % 0x40 == 4 && fid % 0x1_0000 < PSCI_MAX then EmulatePsci
    else if fid == SMCCC_VERSION_FID then Forward
    else Refuse
  }

  /** What handling an SMC emits, and whether the guest may go on. */
  function SmcOutcome(vcpu: u8, f: Fault): (seq<Body>, bool)
    requires f.Smc?
  {
    if f.regs.None? then ([], false)
    else
      var r := f.regs.value;
      var enter := SmcEnter(vcpu, r.pc, f.hsr, r);
      var refused := [SmcRefused(vcpu, r.pc, f.hsr)];
      match SmcPolicy(Low32(r.x0))
      case EmulatePsci =>
        if f.psciHandled && f.after.Some? then (enter + SmcExit(vcpu, r.pc, f.hsr, 0, f.after.value), true)
        else (enter + refused, false)
      case Forward =>
        var exit := SmcExit(vcpu, r.pc, f.hsr, SMC_FORWARDED, f.answer);
        if f.advances then (enter + exit, true) else (enter + exit + refused, false)
      case Refuse => (enter + refused, false)
  }

  /** What handling any fault emits before a possible stop, and whether the guest may go on. */
  function FaultOutcome(vcpu: u8, f: Fault): (seq<Body>, bool) {
    match f
    case Smc(_, _, _, _, _, _, _) => SmcOutcome(vcpu, f)
    case Memory(_, _, _, _, _, inner, handled, _) =>
      if handled then (inner, true) else (inner + [MmioRefused(vcpu, f)], false)
    case Other(inner, handled, _) => (inner, handled)
  }

  predicate FaultOk(f: Fault, vcpu: u8) {
    f.Smc? || forall i :: 0 <= i < |f.inner| ==> HandledMmio(f.inner[i], vcpu)
  }

  /** The vCPU named by a `guest-start` argument. */
  function SelectedVcpu(select: u64): u8 {
    select / 0x1_0000 % 0x100
  }

  function ApplyStart(vcpus: nat, v: View, select: u64, env: StartEnv): View {
    if v.state.Running? then v
    else if SelectedVcpu(select) >= vcpus || !env.imageLoads then v.(state := StartFailed)
    else
      var booted := v.(runVcpu := SelectedVcpu(select), run := Inc64(v.run));
      var traced := booted.(trace := v.trace + [GuestRecord(booted, GUEST_STARTED, env.entry)]);
      if env.writesRegs then traced.(state := Running, on := v.on + {booted.runVcpu})
      else traced.(state := StartFailed)
  }

  function ApplyStop(v: View): View {
    if !v.state.Running? then v
    else v.(state := StoppedByCommand, on := v.on - {v.runVcpu},
            trace := v.trace + [GuestRecord(v, GUEST_STOPPED_BY_COMMAND, 0)])
  }

  function ApplyFault(v: View, f: Fault): View {
    var (records, goesOn) := FaultOutcome(v.runVcpu, f);
    if goesOn then v.(trace := v.trace + records)
    else v.(state := StoppedByFault, on := v.on - {v.runVcpu},
            trace := v.trace + records + [GuestRecord(v, GUEST_STOPPED_BY_FAULT, f.last)])
  }

  /** One event. Faults come only from the vCPU of the current run, while it is on. */
  function Apply(vcpus: nat, v: View, e: Event): View {
    match e
    case Start(select, env) => ApplyStart(vcpus, v, select, env)
    case Stop => ApplyStop(v)
    case Query => v
    case Fault(f) => if v.state.Running? then ApplyFault(v, f) else v
  }

  const BOOT: View := View(NotStarted, 0, 0, {}, [])

  function ApplyAll(vcpus: nat, events: seq<Event>): View {
    if events == [] then BOOT
    else Apply(vcpus, ApplyAll(vcpus, events[..|events| - 1]), events[|events| - 1])
  }

  /** What the VMM assumes of libvmm: its handlers emit whole records of the accesses they performed. */
  ghost predicate EventsOk(vcpus: nat, events: seq<Event>) {
    forall i :: 0 <= i < |events| && events[i].Fault? ==>
      FaultOk(events[i].fault, ApplyAll(vcpus, events[..i]).runVcpu)
  }

  // ---------------------------------------------------------------- the VMM's code

  class Vmm {
    const vcpus: nat
    var state: GuestState
    var run: u64
    var runVcpu: u8
    var on: set<u8>
    var trace: seq<Body>

    ghost function Now(): View
      reads this
    {
      View(state, run, runVcpu, on, trace)
    }

    constructor (vcpus: nat)
      ensures this.vcpus == vcpus && Now() == BOOT
    {
      this.vcpus := vcpus;
      state, run, runVcpu, on, trace := NotStarted, 0, 0, {}, [];
    }

    method Emit(b: Body)
      modifies this`trace
      ensures trace == old(trace) + [b]
    {
      trace := trace + [b];
    }

    method TraceGuestEvent(event: u64, pc: u64)
      modifies this`trace
      ensures trace == old(trace) + [GuestRecord(Now(), event, pc)]
    {
      Emit(Body(pc, event, run, 0, runVcpu, KIND_GUEST, 0, 0));
    }

    method TraceRegs(vcpu: u8, pc: u64, hsr: u64, flags: u8, r: Regs)
      modifies this`trace
      ensures trace == old(trace) + SmcRegs(vcpu, pc, hsr, flags, r)
    {
      Emit(SmcRecord(KIND_SMC_REGS, vcpu, pc, hsr, flags, 2, r.x2, r.x3));
      Emit(SmcRecord(KIND_SMC_REGS, vcpu, pc, hsr, flags, 4, r.x4, r.x5));
      Emit(SmcRecord(KIND_SMC_REGS, vcpu, pc, hsr, flags, 6, r.x6, r.x7));
    }

    method TraceEnter(vcpu: u8, pc: u64, hsr: u64, r: Regs)
      modifies this`trace
      ensures trace == old(trace) + SmcEnter(vcpu, pc, hsr, r)
    {
      Emit(SmcRecord(KIND_SMC_ENTER, vcpu, pc, hsr, 0, 0, r.x0, r.x1));
      TraceRegs(vcpu, pc, hsr, 0, r);
    }

    method TraceExit(vcpu: u8, pc: u64, hsr: u64, flags: u8, r: Regs)
      modifies this`trace
      ensures trace == old(trace) + SmcExit(vcpu, pc, hsr, flags, r)
    {
      Emit(SmcRecord(KIND_SMC_EXIT, vcpu, pc, hsr, flags, 0, r.x0, r.x1));
      TraceRegs(vcpu, pc, hsr, SMC_REGS_EXIT, r);
    }

    /** `boot_fresh` and `start_vcpu` */
    method BootFresh(select: u64, env: StartEnv) returns (started: bool)
      requires !state.Running?
      modifies this
      ensures Now() == ApplyStart(vcpus, old(Now()), select, env)
      ensures started == state.Running?
    {
      var vcpu := SelectedVcpu(select);
      if vcpu >= vcpus {
        state := StartFailed;
        return false;
      }
      if !env.imageLoads {
        state := StartFailed;
        return false;
      }
      runVcpu := vcpu;
      run := Inc64(run);
      TraceGuestEvent(GUEST_STARTED, env.entry);
      if !env.writesRegs {
        state := StartFailed;
        return false;
      }
      on := on + {runVcpu};
      state := Running;
      return true;
    }

    method ControlStart(select: u64, env: StartEnv)
      modifies this
      ensures Now() == ApplyStart(vcpus, old(Now()), select, env)
    {
      if state.Running? {
        return;
      }
      var _ := BootFresh(select, env);
    }

    method ControlStop()
      modifies this
      ensures Now() == ApplyStop(old(Now()))
    {
      if !state.Running? {
        return;
      }
      on := on - {runVcpu};
      state := StoppedByCommand;
      TraceGuestEvent(GUEST_STOPPED_BY_COMMAND, 0);
    }

    method FaultStopped(child: u8, pc: u64)
      modifies this
      ensures state == StoppedByFault && run == old(run) && runVcpu == old(runVcpu) && on == old(on) - {child}
      ensures trace == old(trace) + [GuestRecord(old(Now()), GUEST_STOPPED_BY_FAULT, pc)]
    {
      on := on - {child};
      state := StoppedByFault;
      TraceGuestEvent(GUEST_STOPPED_BY_FAULT, pc);
    }

    /** `smc_policy_handle`: the exit of a forwarded call is traced before the vCPU is resumed. */
    method SmcPolicyHandle(child: u8, f: Fault) returns (handled: bool)
      requires f.Smc?
      modifies this`trace
      ensures trace == old(trace) + SmcOutcome(child, f).0 && handled == SmcOutcome(child, f).1
    {
      if f.regs.None? {
        return false;
      }
      var regs := f.regs.value;
      var pc := regs.pc;
      TraceEnter(child, pc, f.hsr, regs);
      handled := false;
      match SmcPolicy(Low32(regs.x0)) {
        case EmulatePsci =>
          if f.psciHandled && f.after.Some? {
            TraceExit(child, pc, f.hsr, 0, f.after.value);
            handled := true;
          }
        case Forward =>
          TraceExit(child, pc, f.hsr, SMC_FORWARDED, f.answer);
          handled := f.advances;
        case Refuse =>
      }
      if !handled {
        Emit(SmcRefused(child, pc, f.hsr));
      }
    }

    /** `guest_fault_handle`, with the records that libvmm's handlers emit on the way. */
    method GuestFaultHandle(child: u8, f: Fault) returns (handled: bool)
      requires !f.Smc?
      modifies this`trace
      ensures trace == old(trace) + FaultOutcome(child, f).0 && handled == FaultOutcome(child, f).1
    {
      trace := trace + f.inner;
      if f.handled {
        return true;
      }
      if f.Memory? {
        Emit(MmioRefused(child, f));
      }
      return false;
    }

    /** `handle_fault`; the kernel delivers faults of the current vCPU while it is on. */
    method HandleFault(child: u8, f: Fault) returns (resume: bool)
      requires state.Running? && child == runVcpu
      modifies this
      ensures Now() == ApplyFault(old(Now()), f)
      ensures resume == state.Running?
    {
      var handled;
      if f.Smc? {
        handled := SmcPolicyHandle(child, f);
      } else {
        handled := GuestFaultHandle(child, f);
      }
      if !handled {
        FaultStopped(child, f.last);
      }
      return handled;
    }
  }
}
