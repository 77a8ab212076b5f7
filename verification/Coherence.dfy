/** The cached registers and those of the tracee (src/process.cpp:199-290, src/registers.cpp:54-108,
    src/breakpoints.cpp:161-209). Nothing here depends on where the breakpoint sites lie, on what the
    program stores, or on which of them are armed. */
module Coherence {
  import Bits
  import opened LittleEndian
  import opened SubregisterViews
  import opened RegisterFile
  import opened Handles
  import opened Tracees
  import opened Protocol
  import opened Sites
  import opened StepContracts
  import opened Runs
  import opened Hardware

  // ---------------------------------------------------------------------------
  // One operation
  // ---------------------------------------------------------------------------

  /** A wait, a step, an enable or a disable that returned without an error of the kernel; that every
      slot is taken is no such error. */
  ghost predicate Returned(s: State, op: Op)
  {
    match op
    case WaitOp(env) => Wait(s, env).1.Ok?
    case StepOp(env) => Step(s, env).1.Ok?
    case EnableOp(a, load, save) =>
      var r := EnableHw(s, a, load, save).1; r.Ok? || r == Err(NoFreeSlot)
    case DisableOp(slot, load, save) => DisableHw(s, slot, load, save).1.Ok?
    case _ => false
  }

  /** What an enable or a disable changes in the cache is in the part that is written back. */
  ghost predicate Implemented(s: State, op: Op)
  {
    var hw := s.tracee.regs.hwBreak;
    match op
    case EnableOp(_, _, _) => hw[0] != 0 || FirstFree(hw, 0).None?
    case DisableOp(slot, _, _) => 0 <= slot < 16 ==> slot < hw[0] || Free(hw, slot)
    case _ => true
  }

  /** Whenever a wait, a step, an enable or a disable returns with a stopped tracee, the cache shows its
      registers, exactly unless the slot programmed is not an implemented one. */
  lemma OpCoherent(s: State, op: Op)
    requires s.attached && Returned(s, op)
    ensures Do(s, op).tracee.mode.Stopped? ==> (Coherent(Do(s, op)) <==> Implemented(s, op))
  {
    match op {
      case WaitOp(env) =>
        WaitRegisters(s, env);
        if !Wait(s, env).1.value.reason.STOPPED? {
          WaitEnds(s, env);
        }
      case StepOp(env) =>
        StepRegisters(s, env);
        if !Step(s, env).1.value.reason.STOPPED? {
          StepEnds(s, env);
        }
      case EnableOp(a, load, save) => EnableCoherent(s, a, load, save);
      case DisableOp(slot, load, save) => DisableContract(s, slot, load, save);
    }
  }

  /** A process that was reported to have ended is not stopped. */
  lemma WaitEnds(s: State, env: WaitEnv)
    requires Wait(s, env).1.Ok? && !Wait(s, env).1.value.reason.STOPPED?
    ensures Wait(s, env).0.tracee.mode.Dead?
  {
  }

  lemma StepEnds(s: State, env: StepEnv)
    requires Step(s, env).1.Ok? && !Step(s, env).1.value.reason.STOPPED?
    ensures Step(s, env).0.tracee.mode.Dead?
  {
    var pc := Pc(s.tracee.regs);
    var s1 := Load(s, env.load).0;
    StepUnfolds(s, env);
    if pc in s.sites {
      var (s2, r2) := Wait(Lifted(s1, pc), env.wait);
      RewindFails(s2, r2, pc, env);
      EndedAfterWait(Lifted(s1, pc), env.wait);
    } else {
      WaitEnds(Stepped(s1), env.wait);
    }
  }

  lemma RewindFails(s: State, waited: Result<StopReason>, loc: u64, env: StepEnv)
    ensures FinishStep(s, waited, loc, env).1.Ok? ==> FinishStep(s, waited, loc, env).1 == waited && s.pid != 0
  {
  }

  lemma EnableCoherent(s: State, a: u64, load: nat, save: nat)
    requires Returned(s, EnableOp(a, load, save))
    ensures Coherent(EnableHw(s, a, load, save).0) <==> Implemented(s, EnableOp(a, load, save))
  {
    EnableContract(s, a, load, save);
    EnableUnfolds(s, a, load, save);
  }

  // ---------------------------------------------------------------------------
  // Raw register writes
  // ---------------------------------------------------------------------------

  /** The register lies in the part of its regset that is written back. */
  predicate Reaches(c: Cache, h: Handle)
    requires ValidHandle(h)
  {
    var p := HomePlace(h);
    match p.regset
    case HwBreak => p.offset + p.size <= c.breakSize
    case HwWatch => p.offset + p.size <= c.watchSize
    case _ => true
  }

  /** A register write that is saved reaches the tracee whole or not at all; afterwards the cache shows
      the registers of the tracee exactly if it did, or changed nothing. */
  lemma WriteCoherent(s: State, h: Handle, v: nat, save: nat)
    requires Coherent(s) && ValidHandle(h) && save >= 4
    ensures var (s', r) := WriteRegister(s, h, v, save);
            var after := WriteHandle(s.tracee.regs, h, v);
            && r.Ok?
            && s'.tracee.regs == (if Reaches(s.cache, h) then after else s.tracee.regs)
            && (Coherent(s') <==> Reaches(s.cache, h) || after == s.tracee.regs)
  {
    var p := HomePlace(h);
    var after := WriteHandle(s.tracee.regs, h, v);
    var bs := Field(after, p);
    WrittenPlace(s.tracee.regs, h, v);
    HeaderKept(s.tracee.regs, p, bs);
    match p.regset {
      case HwBreak =>
        SlotPlace(h, s.tracee.regs.hwBreak);
        WriteBackField(s.tracee.regs.hwBreak, p, bs, s.cache.breakSize);
        SameRegset(s.tracee.regs.hwWatch, s.cache.watchSize);
      case HwWatch =>
        SlotPlace(h, s.tracee.regs.hwWatch);
        WriteBackField(s.tracee.regs.hwWatch, p, bs, s.cache.watchSize);
        SameRegset(s.tracee.regs.hwBreak, s.cache.breakSize);
      case _ =>
        SameRegset(s.tracee.regs.hwBreak, s.cache.breakSize);
        SameRegset(s.tracee.regs.hwWatch, s.cache.watchSize);
    }
  }

  lemma WrittenPlace(f: RegFile, h: Handle, v: nat)
    requires ValidHandle(h)
    ensures WriteHandle(f, h, v) == PutField(f, HomePlace(h), Field(WriteHandle(f, h, v), HomePlace(h)))
  {
    var p := HomePlace(h);
    match h {
      case Full(_) => FieldAfterPut(f, p, FromNat(v, p.size), p);
      case Sub(d) =>
        FieldAfterPut(f, p, WrittenBytes(Field(f, p), Bits.Rem(v, 64), ShapeOf(d.kind, d.lane, true)), p);
    }
  }

  lemma HeaderKept(f: RegFile, p: Place, bs: seq<byte>)
    requires InFile(p) && |bs| == p.size
    ensures PutField(f, p, bs).hwBreak[0] == f.hwBreak[0] && PutField(f, p, bs).hwWatch[0] == f.hwWatch[0]
  {
    if p.regset.HwBreak? || p.regset.HwWatch? {
      SpliceAt(f.Get(p.regset), p.offset, bs, 0);
    }
  }

  /** The registers of a debug regset end where a slot ends or before, so none straddles the end of the
      part that is written back. */
  lemma SlotPlace(h: Handle, hw: seq<byte>)
    requires ValidHandle(h) && (HomePlace(h).regset.HwBreak? || HomePlace(h).regset.HwWatch?)
    requires |hw| == HW_SIZE && hw[0] <= MAX_SLOTS
    ensures var p := HomePlace(h); p.offset + p.size <= DebugSize(hw) || DebugSize(hw) <= p.offset
  {
    HomeOfIndex(h);
  }

  // ---------------------------------------------------------------------------
  // Runs
  // ---------------------------------------------------------------------------

  /** No register write is left pending by this operation. */
  ghost predicate Clean(s: State, op: Op)
  {
    match op
    case AddOp(_, _, _) => true
    case RemoveAtOp(_, _) => true
    case RemoveIdOp(_, _) => true
    case ResumeOp(_) => true
    case WriteOp(h, v, save) => ValidHandle(h) ==> s.tracee.mode.Stopped? && save >= 4 && Reaches(s.cache, h)
    case _ => Returned(s, op) && Implemented(s, op)
  }

  ghost predicate RunClean(s: State, ops: seq<Op>)
    decreases |ops|
  {
    ops == [] || (Clean(s, ops[0]) && RunClean(Do(s, ops[0]), ops[1..]))
  }

  ghost predicate Shows(s: State)
  {
    s.tracee.mode.Stopped? ==> Coherent(s)
  }

  /** Neither the registers of the tracee nor the cache changed, and the tracee did not come to a stop. */
  ghost predicate RegistersKept(s: State, s': State)
  {
    && s'.cache == s.cache && s'.tracee.regs == s.tracee.regs && s'.attached == s.attached
    && (s'.tracee.mode.Stopped? ==> s.tracee.mode.Stopped?)
  }

  lemma TablesLeaveRegisters(s: State, op: Op)
    requires op.AddOp? || op.RemoveAtOp? || op.RemoveIdOp? || op.ResumeOp?
    ensures RegistersKept(s, Do(s, op))
  {
  }

  lemma StillAttached(s: State, op: Op)
    ensures Do(s, op).attached == s.attached
  {
    match op {
      case WaitOp(env) => WaitTables(s, env);
      case StepOp(env) => StepTables(s, env);
      case AddOp(_, _, _) => TablesLeaveRegisters(s, op);
      case RemoveAtOp(_, _) => TablesLeaveRegisters(s, op);
      case RemoveIdOp(_, _) => TablesLeaveRegisters(s, op);
      case _ => QuietOps(s, op);
    }
  }

  lemma CleanShows(s: State, op: Op)
    requires s.attached && Shows(s) && Clean(s, op)
    ensures Shows(Do(s, op))
  {
    match op {
      case WriteOp(h, v, save) =>
        if ValidHandle(h) {
          WriteCoherent(s, h, v, save);
        }
      case WaitOp(_) => OpCoherent(s, op);
      case StepOp(_) => OpCoherent(s, op);
      case EnableOp(_, _, _) => OpCoherent(s, op);
      case DisableOp(_, _, _) => OpCoherent(s, op);
      case _ => TablesLeaveRegisters(s, op);
    }
  }

  /** In any run of an attached process whose register operations returned and left nothing pending, the
      cache shows the registers of the tracee whenever it is stopped. */
  lemma {:induction false} RunCoherent(s: State, ops: seq<Op>)
    requires s.attached && Shows(s) && RunClean(s, ops)
    ensures Shows(Run(s, ops))
    decreases |ops|
  {
    if ops != [] {
      CleanShows(s, ops[0]);
      StillAttached(s, ops[0]);
      RunCoherent(Do(s, ops[0]), ops[1..]);
    }
  }
}
