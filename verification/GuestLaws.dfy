/**
 What the VMM does to a guest, said in numbers: which calls it emulates, forwards or refuses, what its records hold,
 and when a guest goes on.
 */
module GuestLaws {
  import opened TraceTypes
  import opened GuestLifecycle
  import opened GuestTrace
  import CommandLine

  // ---------------------------------------------------------------- SMCs

  /**
   A PSCI call: the owning service, bits 24 to 29, is 4, and the function number, the low 16 bits, is below 0x1f.
   The two top bits and bits 16 to 23 may be anything.
   */
  ghost predicate IsPsci(fid: u32) {
    exists top: nat, mid: nat, f: nat :: IsPsciOf(fid, top, mid, f)
  }

  predicate IsPsciOf(fid: u32, top: nat, mid: nat, f: nat) {
    top < 4 && mid < 0x100 && f < 0x1f && fid == top * 0x4000_0000 + 4 * 0x100_0000 + mid * 0x1_0000 + f
  }

  /** Exactly the PSCI calls are emulated, exactly SMCCC_VERSION is forwarded, and everything else is refused. */
  lemma {:induction false} PolicyExactly(fid: u32)
    ensures SmcPolicy(fid).EmulatePsci? <==> IsPsci(fid)
    ensures SmcPolicy(fid).Forward? <==> fid == 0x8000_0000
    ensures SmcPolicy(fid).Refuse? <==> !IsPsci(fid) && fid != 0x8000_0000
  {
    if SmcPolicy(fid).EmulatePsci? {
      assert IsPsciOf(fid, fid / 0x4000_0000, fid / 0x1_0000 % 0x100, fid % 0x1_0000);
    }
    forall top: nat, mid: nat, f: nat | IsPsciOf(fid, top, mid, f)
      ensures SmcPolicy(fid).EmulatePsci?
    {
      assert fid / 0x100_0000 == 64 * top + 4 && fid % 0x1_0000 == f;
    }
  }

  /** PSCI_VERSION and its followers, in the 32-bit and the 64-bit convention. */
  lemma {:induction false} PsciRange(fid: u32)
    requires 0x8400_0000 <= fid <= 0x8400_001e || 0xc400_0000 <= fid <= 0xc400_001e
    ensures SmcPolicy(fid).EmulatePsci?
  {
    PolicyExactly(fid);
    if fid < 0xc400_0000 {
      assert IsPsciOf(fid, 2, 0, fid - 0x8400_0000);
    } else {
      assert IsPsciOf(fid, 3, 0, fid - 0xc400_0000);
    }
  }

  /** The two groups of a call: what it was given and what it was answered. */
  ghost predicate Answered(records: seq<Body>, vcpu: u8, hsr: u64, given: Regs, answer: Regs, flags: u8) {
    && |records| >= 8
    && HoldsRegisters(records[..4], vcpu, given.pc, hsr, given) && records[0].kind == 2
    && HoldsRegisters(records[4..8], vcpu, given.pc, hsr, answer) && records[4].kind == 4 && records[4].flags == flags
    && (forall i :: 1 <= i < 4 ==> records[i].kind == 3 && records[i].flags == 0)
    && (forall i :: 5 <= i < 8 ==> records[i].kind == 3 && records[i].flags == 1)
  }

  lemma {:induction false} AnsweredBy(vcpu: u8, hsr: u64, given: Regs, answer: Regs, flags: u8, rest: seq<Body>)
    ensures Answered(SmcEnter(vcpu, given.pc, hsr, given) + SmcExit(vcpu, given.pc, hsr, flags, answer) + rest,
                     vcpu, hsr, given, answer, flags)
  {
    var enter, exit := SmcEnter(vcpu, given.pc, hsr, given), SmcExit(vcpu, given.pc, hsr, flags, answer);
    GroupHoldsRegisters(vcpu, given.pc, hsr, 0, given);
    GroupHoldsRegisters(vcpu, given.pc, hsr, flags, answer);
    var records := enter + exit + rest;
    assert records[..4] == enter && records[4..8] == exit;
    assert forall i :: 0 <= i < 4 ==> records[i] == enter[i];
    assert forall i :: 4 <= i < 8 ==> records[i] == exit[i - 4];
  }

  /** Whether the guest goes on after an SMC. */
  ghost predicate SmcGoesOn(f: Fault)
    requires f.Smc?
  {
    && f.regs.Some?
    && var fid := f.regs.value.x0 % 0x1_0000_0000;
       (IsPsci(fid) && f.psciHandled && f.after.Some?) || (fid == 0x8000_0000 && f.advances)
  }

  /**
   The outcome of an SMC. The guest goes on exactly when it asked for PSCI and that was handled and its registers
   could be read again, or asked for SMCCC_VERSION and could be resumed. The exit group of PSCI holds the registers
   read again; that of SMCCC_VERSION holds the firmware's answer, resumed or not.
   */
  lemma {:induction false} SmcExactly(vcpu: u8, f: Fault)
    requires f.Smc?
    ensures SmcOutcome(vcpu, f).1 <==> SmcGoesOn(f)
    ensures f.regs.None? ==> SmcOutcome(vcpu, f).0 == []
    ensures f.regs.Some? && IsPsci(f.regs.value.x0 % 0x1_0000_0000) && SmcGoesOn(f) ==>
              |SmcOutcome(vcpu, f).0| == 8 && Answered(SmcOutcome(vcpu, f).0, vcpu, f.hsr, f.regs.value, f.after.value, 0)
    ensures f.regs.Some? && f.regs.value.x0 % 0x1_0000_0000 == 0x8000_0000 ==>
              && Answered(SmcOutcome(vcpu, f).0, vcpu, f.hsr, f.regs.value, f.answer, 2)
              && |SmcOutcome(vcpu, f).0| == if f.advances then 8 else 9
  {
    if f.regs.Some? {
      var r := f.regs.value;
      var fid := Low32(r.x0);
      PolicyExactly(fid);
      var refused := [SmcRefused(vcpu, r.pc, f.hsr)];
      AnsweredBy(vcpu, f.hsr, r, f.answer, 2, if f.advances then [] else refused);
      var plain := SmcEnter(vcpu, r.pc, f.hsr, r) + SmcExit(vcpu, r.pc, f.hsr, 2, f.answer);
      assert plain + [] == plain;
      if f.after.Some? {
        AnsweredBy(vcpu, f.hsr, r, f.after.value, 0, []);
        var done := SmcEnter(vcpu, r.pc, f.hsr, r) + SmcExit(vcpu, r.pc, f.hsr, 0, f.after.value);
        assert done + [] == done;
      }
    }
  }

  /** A refused SMC ends in one record of kind SMC_EXIT with flag UNHANDLED and no values, for the same call. */
  lemma {:induction false} SmcRefusedExactly(vcpu: u8, f: Fault)
    requires f.Smc? && f.regs.Some? && !SmcGoesOn(f)
    ensures var records := SmcOutcome(vcpu, f).0;
            && records != []
            && records[|records| - 1] == Body(f.regs.value.pc, 0, 0, f.hsr % 0x1_0000_0000, vcpu, 4, 0, 4)
            && HoldsRegisters(records[..4], vcpu, f.regs.value.pc, f.hsr, f.regs.value)
  {
    SmcExactly(vcpu, f);
    var r := f.regs.value;
    GroupHoldsRegisters(vcpu, r.pc, f.hsr, 0, r);
    assert SmcOutcome(vcpu, f).0[..4] == SmcEnter(vcpu, r.pc, f.hsr, r);
  }

  // ---------------------------------------------------------------- faults

  ghost predicate GoesOn(f: Fault) {
    if f.Smc? then SmcGoesOn(f) else f.handled
  }

  /**
   A fault of the running guest: it goes on running, with nothing changed but the trace, exactly when the fault was
   handled; otherwise it is stopped, its vCPU is off, and the last record says so, with the pc and the run.
   */
  lemma {:induction false} FaultExactly(v: View, f: Fault)
    requires v.state.Running?
    ensures var v' := ApplyFault(v, f);
            && v.trace <= v'.trace && v'.run == v.run && v'.runVcpu == v.runVcpu
            && if GoesOn(f) then v'.state == v.state && v'.on == v.on
               else && v'.state == StoppedByFault && v'.on == v.on - {v.runVcpu}
                    && |v'.trace| > |v.trace|
                    && v'.trace[|v'.trace| - 1] == Body(f.last, 3, v.run, 0, v.runVcpu, 6, 0, 0)
  {
    if f.Smc? {
      SmcExactly(v.runVcpu, f);
    }
  }

  /** An access that nobody handled leaves a record of the access: where, to what address, how wide, and its direction. */
  lemma {:induction false} RefusedAccessRecorded(v: View, f: Fault)
    requires v.state.Running? && f.Memory? && !f.handled
    ensures ApplyFault(v, f).trace ==
            v.trace + f.inner
            + [Body(f.pc, f.addr, 0, f.fsr % 0x1_0000_0000, v.runVcpu, 1, f.width, if f.isWrite then 5 else 4),
               Body(f.last, 3, v.run, 0, v.runVcpu, 6, 0, 0)]
  {
  }

  // ---------------------------------------------------------------- commands

  /** Starting a guest that does not run, in full. */
  lemma {:induction false} StartExactly(vcpus: nat, v: View, select: u64, env: StartEnv)
    requires !v.state.Running?
    ensures var v' := Apply(vcpus, v, Start(select, env)); var k := select / 0x1_0000 % 0x100;
            if k < vcpus && env.imageLoads then
              && v'.trace == v.trace + [Body(env.entry, 1, (v.run + 1) % TWO64, 0, k, 6, 0, 0)]
              && v'.run == (v.run + 1) % TWO64 && v'.runVcpu == k
              && (if env.writesRegs then v'.state == Running && v'.on == v.on + {k} else v'.state == StartFailed && v'.on == v.on)
            else v' == v.(state := StartFailed)
  {
  }

  lemma {:induction false} StopExactly(vcpus: nat, v: View)
    ensures Apply(vcpus, v, Stop) ==
            if v.state.Running? then
              v.(state := StoppedByCommand, on := v.on - {v.runVcpu}, trace := v.trace + [Body(0, 2, v.run, 0, v.runVcpu, 6, 0, 0)])
            else v
  {
  }

  /** The vCPU that was typed is the vCPU that runs. */
  lemma {:induction false} TypedVcpuRuns(vcpus: nat, v: View, ws: seq<string>, r: CommandLine.Request, env: StartEnv)
    requires !v.state.Running? && CommandLine.Denotes(ws, r)
    ensures var v' := Apply(vcpus, v, Start(CommandLine.Select(r), env));
            && (v'.state.Running? <==> r.vcpu < vcpus && env.imageLoads && env.writesRegs)
            && (v'.state.Running? ==> v'.runVcpu == r.vcpu && v'.on == v.on + {r.vcpu})
  {
    CommandLine.SelectRoundTrip(r);
    StartExactly(vcpus, v, CommandLine.Select(r), env);
  }

  /** In every sequence of events, the guest runs only on a vCPU that the VMM has. */
  lemma {:induction false} EveryRunOnOwnVcpu(vcpus: nat, events: seq<Event>)
    ensures ApplyAll(vcpus, events).state.Running? ==> ApplyAll(vcpus, events).runVcpu < vcpus
    decreases |events|
  {
    if events != [] {
      EveryRunOnOwnVcpu(vcpus, events[..|events| - 1]);
    }
  }
}
