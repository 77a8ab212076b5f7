/** A tracee at a breakpoint (src/process.cpp:160-290, src/breakpoints.cpp:103-123): it never gets past
    it. What is said of its registers needs nothing but the trap at the site itself: other sites may
    overlap it or one another, and the program may store where it likes. */
module Presentation {
  import opened LittleEndian
  import opened Options
  import opened RegisterFile
  import opened Handles
  import opened Memory
  import opened Tracees
  import opened Protocol
  import opened Sites
  import opened StepContracts
  import opened Runs
  import opened Results

  // ---------------------------------------------------------------------------
  // Resume and wait
  // ---------------------------------------------------------------------------

  datatype Cycle = Cycle(resume: bool, wait: WaitEnv)

  /** Resume and wait, repeatedly; the flag says that every call succeeded and ended in a stop. */
  function Cycles(s: State, cs: seq<Cycle>): (State, bool)
    decreases |cs|
  {
    if cs == [] then (s, true)
    else
      var (s1, r1) := Resume(s, cs[0].resume);
      if r1.Err? then (s1, false)
      else
        var (s2, r2) := Wait(s1, cs[0].wait);
        if r2.Err? || !r2.value.reason.STOPPED? then (s2, false)
        else Cycles(s2, cs[1..])
  }

  function CycleOps(cs: seq<Cycle>): seq<Op>
    decreases |cs|
  {
    if cs == [] then [] else [ResumeOp(cs[0].resume), WaitOp(cs[0].wait)] + CycleOps(cs[1..])
  }

  /** Cycles that all end in a stop are a run of their operations. */
  lemma {:induction false} CyclesAreRuns(s: State, cs: seq<Cycle>)
    requires Cycles(s, cs).1
    ensures Run(s, CycleOps(cs)) == Cycles(s, cs).0
    decreases |cs|
  {
    if cs != [] {
      var s1 := Resume(s, cs[0].resume).0;
      TwoOps(s, ResumeOp(cs[0].resume), WaitOp(cs[0].wait), CycleOps(cs[1..]));
      CyclesAreRuns(Wait(s1, cs[0].wait).0, cs[1..]);
    }
  }

  lemma TwoOps(s: State, first: Op, second: Op, ops: seq<Op>)
    ensures Run(s, [first, second] + ops) == Run(Do(Do(s, first), second), ops)
  {
    var all := [first, second] + ops;
    assert all[1..][0] == second && all[1..][1..] == ops;
  }

  /** The tracee is at a site whose trap instruction is in place. */
  ghost predicate HeldAt(s: State, loc: u64)
  {
    && s.pid != 0 && s.attached && loc in s.sites
    && BrkAt(s.tracee.mem, loc) && Pc(s.tracee.regs) == loc
  }

  /** Resumed, it does not move. */
  lemma BrkHolds(t: Tracee, answer: WaitAnswer)
    requires BrkAt(t.mem, Pc(t.regs))
    ensures t.Ran(EffectsOf(answer)) == t
  {
    BrkTraps(t.mem, Pc(t.regs));
  }

  /** A step-over that succeeds, and a step from a site, end with the trap in place. */
  lemma StepOverArms(s: State, loc: u64, reason: StopReason, env: WaitEnv)
    requires loc in s.sites && s.pid != 0 && StepOver(s, loc, reason, env).1.Ok?
    ensures BrkAt(StepOver(s, loc, reason, env).0.tracee.mem, loc)
  {
    var (t, status) := s.tracee.PokeData(loc, s.sites[loc]).(mode := Stepping).Waited(env.inner);
    StepOverUnfolds(s, loc, reason, env);
    RearmArms(s.(tracee := t), loc, env.rearm, env.save);
  }

  lemma RearmArms(s: State, loc: u64, poke: bool, save: nat)
    ensures Rearm(s, loc, poke, save).1.Ok? ==> BrkAt(Rearm(s, loc, poke, save).0.tracee.mem, loc)
  {
    PokeTrap(s.tracee.mem, loc);
    TrapIsBrk(Poke(s.tracee.mem, loc, TRAP), loc);
  }

  lemma FinishStepArms(s: State, waited: Result<StopReason>, loc: u64, env: StepEnv)
    ensures FinishStep(s, waited, loc, env).1.Ok? ==> BrkAt(FinishStep(s, waited, loc, env).0.tracee.mem, loc)
  {
    if waited.Ok? {
      RearmArms(s, loc, env.rearm, env.save);
    }
  }

  /** A wait for a tracee held at a site that ends in a stop: the whole register file is as before, in
      tracee and cache, and the trap is in place. */
  lemma WaitHolds(s: State, env: WaitEnv, loc: u64)
    requires HeldAt(s, loc) && Wait(s, env).1.Ok? && Wait(s, env).1.value.reason.STOPPED?
    ensures var s' := Wait(s, env).0;
            HeldAt(s', loc) && s'.tracee.regs == s.tracee.regs && Coherent(s') && SameTables(s, s')
  {
    HeldStop(s, env, loc);
    WaitRegisters(s, env);
    WaitTables(s, env);
    WaitAtSite(s, env, loc);
    StepOverArms(Arrived(s, env), loc, s.tracee.Waited(env.outer).1.value, env);
  }

  /** Once stopped at a site whose trap is in place, any number of resume-and-wait cycles that end in a
      stop report the same registers, pc at that site among them, and leave the trap in place. */
  lemma {:induction false} PresentationStable(s: State, cs: seq<Cycle>, loc: u64)
    requires HeldAt(s, loc)
    ensures var (s', ok) := Cycles(s, cs);
            ok ==>
              && HeldAt(s', loc) && s'.tracee.regs == s.tracee.regs && SameTables(s, s')
              && (cs != [] ==> Coherent(s'))
    decreases |cs|
  {
    if cs != [] {
      var (s1, r1) := Resume(s, cs[0].resume);
      var (s2, r2) := Wait(s1, cs[0].wait);
      if r1.Ok? && r2.Ok? && r2.value.reason.STOPPED? {
        WaitHolds(s1, cs[0].wait, loc);
        PresentationStable(s2, cs[1..], loc);
      }
    }
  }

  /** And with every call granted, all of them do end in a stop. */
  lemma {:induction false} CyclesSucceed(s: State, cs: seq<Cycle>, loc: u64)
    requires HeldAt(s, loc) && s.tracee.mode.Stopped? && AllMapped(s.tracee.mem, s.sites.Keys)
    requires forall c | c in cs :: c.resume && Granted(c.wait)
    ensures Cycles(s, cs).1
    decreases |cs|
  {
    if cs != [] {
      assert cs[0] in cs && forall c | c in cs[1..] :: c in cs;
      CycleSucceeds(s, cs[0], loc);
      CyclesSucceed(Wait(Resume(s, true).0, cs[0].wait).0, cs[1..], loc);
    }
  }

  lemma CycleSucceeds(s: State, c: Cycle, loc: u64)
    requires HeldAt(s, loc) && s.tracee.mode.Stopped? && AllMapped(s.tracee.mem, s.sites.Keys) && Granted(c.wait)
    ensures var (s1, r1) := Resume(s, true);
            var (s2, r2) := Wait(s1, c.wait);
            && r1.Ok? && r2.Ok? && r2.value.reason.STOPPED?
            && HeldAt(s2, loc) && s2.tracee.mode.Stopped? && AllMapped(s2.tracee.mem, s2.sites.Keys)
  {
    ResumedWait(s, c.wait);
    WaitHolds(Resume(s, true).0, c.wait, loc);
    StoppedAfterWait(Resume(s, true).0, c.wait);
  }

  /** The program's memory after these cycles at a site: its instruction ran once in each. */
  function CyclesBase(base: Mem, loc: u64, cs: seq<Cycle>): Mem
    decreases |cs|
  {
    if cs == [] then base
    else CyclesBase(base + StoresOf(StepEffect(base, loc, EffectsOf(cs[0].wait.inner))), loc, cs[1..])
  }

  ghost predicate CyclesAvoid(cs: seq<Cycle>, sites: set<u64>)
  {
    forall c | c in cs :: WaitAvoids(c.wait, sites)
  }

  /** The stop of a tracee that does not move. */
  lemma HeldStop(s: State, env: WaitEnv, loc: u64)
    requires HeldAt(s, loc) && Wait(s, env).1.Ok? && Wait(s, env).1.value.reason.STOPPED?
    ensures s.tracee.Waited(env.outer).0 == s.tracee.(mode := Stopped) && StepsOverAt(s, env) == Some(loc)
  {
    BrkHolds(s.tracee, env.outer);
    WaitedFrame(s.tracee, env.outer);
  }

  lemma WaitMemory(s: State, env: WaitEnv, loc: u64, armed: set<u64>, base: Mem)
    requires s.pid != 0 && s.attached && loc in armed && StepsOverAt(s, env) == Some(loc)
    requires base == s.tracee.Waited(env.outer).0.base
    requires SitesOk(s.tracee, s.sites, armed) && WaitAvoids(env, s.sites.Keys)
    requires Wait(s, env).1.Ok? && Wait(s, env).1.value.reason.STOPPED?
    ensures SitesOk(Wait(s, env).0.tracee, s.sites, armed)
    ensures Wait(s, env).0.tracee.base == base + StoresOf(StepEffect(base, loc, EffectsOf(env.inner)))
  {
    WaitContract(s, env, armed);
    SameSet(armed, loc);
  }

  lemma SameSet(armed: set<u64>, loc: u64)
    requires loc in armed
    ensures armed + {loc} == armed
  {
  }

  lemma FewerAvoid(cs: seq<Cycle>, sites: set<u64>)
    requires CyclesAvoid(cs, sites) && cs != []
    ensures WaitAvoids(cs[0].wait, sites) && CyclesAvoid(cs[1..], sites)
  {
    assert cs[0] in cs && forall c | c in cs[1..] :: c in cs;
  }

  lemma ResumedMemory(s: State, env: WaitEnv, loc: u64, armed: set<u64>)
    requires HeldAt(s, loc) && loc in armed && SitesOk(s.tracee, s.sites, armed) && WaitAvoids(env, s.sites.Keys)
    requires Wait(s, env).1.Ok? && Wait(s, env).1.value.reason.STOPPED?
    ensures var s' := Wait(s, env).0;
            && HeldAt(s', loc) && s'.sites == s.sites && SitesOk(s'.tracee, s.sites, armed)
            && s'.tracee.base == s.tracee.base + StoresOf(StepEffect(s.tracee.base, loc, EffectsOf(env.inner)))
  {
    WaitHolds(s, env, loc);
    HeldStop(s, env, loc);
    WaitMemory(s, env, loc, armed, s.tracee.base);
  }

  /** Where windows do not meet and the program does not store into them, the cycles leave memory alone
      but for the stores of the instruction at the site, which accumulate. */
  lemma {:induction false} PresentationMemory(s: State, cs: seq<Cycle>, loc: u64, armed: set<u64>)
    requires HeldAt(s, loc) && loc in armed
    requires SitesOk(s.tracee, s.sites, armed) && CyclesAvoid(cs, s.sites.Keys)
    ensures var (s', ok) := Cycles(s, cs);
            ok ==> SitesOk(s'.tracee, s.sites, armed) && s'.tracee.base == CyclesBase(s.tracee.base, loc, cs)
    decreases |cs|
  {
    if cs != [] {
      var (s1, r1) := Resume(s, cs[0].resume);
      var (s2, r2) := Wait(s1, cs[0].wait);
      if r1.Ok? && r2.Ok? && r2.value.reason.STOPPED? {
        FewerAvoid(cs, s.sites.Keys);
        ResumedMemory(s1, cs[0].wait, loc, armed);
        PresentationMemory(s2, cs[1..], loc, armed);
      }
    }
  }

  // ---------------------------------------------------------------------------
  // Any operations
  // ---------------------------------------------------------------------------

  /** The tracee is held at a site, stopped or resumed, and so is the cached pc. */
  ghost predicate Held(s: State, loc: u64)
  {
    HeldAt(s, loc) && Pc(s.cache.file) == loc && (s.tracee.mode.Stopped? || s.tracee.mode.Running?)
  }

  /** The operation neither removes the breakpoint nor writes pc, and a wait or a step ends in a stop. */
  ghost predicate Stays(s: State, op: Op, loc: u64)
  {
    match op
    case RemoveAtOp(a, poke) => a != loc || RemoveAt(s, a, poke).1.Err?
    case RemoveIdOp(id, poke) => id in s.ids && s.ids[id] == loc ==> RemoveAt(s, loc, poke).1.Err?
    case WaitOp(env) => Wait(s, env).1.Ok? && Wait(s, env).1.value.reason.STOPPED?
    case StepOp(env) => Step(s, env).1.Ok? && Step(s, env).1.value.reason.STOPPED?
    case WriteOp(h, _, _) => ValidHandle(h) ==> HomeIndex(h) != PC_INDEX
    case _ => true
  }

  /** A word written at `a` misses the instruction at `loc`. */
  predicate Misses(a: u64, loc: u64)
  {
    a + WORD <= loc || loc + 4 <= a
  }

  predicate RemovalSpares(s: State, a: u64, poke: bool, loc: u64)
  {
    a in s.sites && s.tracee.CanPoke(a, poke) ==> a == loc || Misses(a, loc)
  }

  /** The other breakpoint that is added or removed, if one is, misses the instruction of this one. */
  ghost predicate Spares(s: State, op: Op, loc: u64)
  {
    match op
    case AddOp(a, peek, poke) => HasId(s.ids, a) || !(peek && s.tracee.CanPoke(a, poke)) || a == loc || Misses(a, loc)
    case RemoveAtOp(a, poke) => RemovalSpares(s, a, poke, loc)
    case RemoveIdOp(id, poke) => id in s.ids ==> RemovalSpares(s, s.ids[id], poke, loc)
    case _ => true
  }

  ghost predicate RunStays(s: State, ops: seq<Op>, loc: u64)
    decreases |ops|
  {
    ops == [] || (Stays(s, ops[0], loc) && RunStays(Do(s, ops[0]), ops[1..], loc))
  }

  ghost predicate RunSpares(s: State, ops: seq<Op>, loc: u64)
    decreases |ops|
  {
    ops == [] || (Spares(s, ops[0], loc) && RunSpares(Do(s, ops[0]), ops[1..], loc))
  }

  /** Whatever else is done, the tracee stays at the breakpoint until that is removed: resuming, waiting,
      stepping, adding and removing other breakpoints, using hardware slots and writing other registers,
      in any order. */
  lemma {:induction false} RunHeld(s: State, ops: seq<Op>, loc: u64)
    requires Held(s, loc) && RunStays(s, ops, loc) && RunSpares(s, ops, loc)
    ensures Held(Run(s, ops), loc)
    decreases |ops|
  {
    if ops != [] {
      OpHeld(s, ops[0], loc);
      RunHeld(Do(s, ops[0]), ops[1..], loc);
    }
  }

  lemma OpHeld(s: State, op: Op, loc: u64)
    requires Held(s, loc) && Stays(s, op, loc) && Spares(s, op, loc)
    ensures Held(Do(s, op), loc)
  {
    match op {
      case AddOp(a, peek, poke) => AddHeld(s, a, peek, poke, loc);
      case RemoveAtOp(a, poke) => RemoveHeld(s, a, poke, loc);
      case RemoveIdOp(id, poke) =>
        if id in s.ids {
          RemoveHeld(s, s.ids[id], poke, loc);
        }
      case WaitOp(env) => WaitHeld(s, env, loc);
      case StepOp(env) => StepHeld(s, env, loc);
      case _ => QuietHeld(s, op, loc);
    }
  }

  lemma PokeMisses(m: Mem, a: u64, w: u64, loc: u64)
    requires BrkAt(m, loc) && Misses(a, loc)
    ensures BrkAt(Poke(m, a, w), loc)
  {
  }

  lemma AddHeld(s: State, a: u64, peek: bool, poke: bool, loc: u64)
    requires Held(s, loc) && Spares(s, AddOp(a, peek, poke), loc)
    ensures Held(Add(s, a, peek, poke).0, loc)
  {
    if a == loc {
      PokeTrap(s.tracee.mem, loc);
      TrapIsBrk(Poke(s.tracee.mem, loc, TRAP), loc);
    } else if Misses(a, loc) {
      PokeMisses(s.tracee.mem, a, TRAP, loc);
    }
  }

  lemma RemoveHeld(s: State, a: u64, poke: bool, loc: u64)
    requires Held(s, loc) && (a != loc || RemoveAt(s, a, poke).1.Err?)
    requires RemovalSpares(s, a, poke, loc)
    ensures Held(RemoveAt(s, a, poke).0, loc)
  {
    if a in s.sites && a != loc && s.tracee.CanPoke(a, poke) {
      PokeMisses(s.tracee.mem, a, s.sites[a], loc);
    }
  }

  lemma WaitHeld(s: State, env: WaitEnv, loc: u64)
    requires Held(s, loc) && Wait(s, env).1.Ok? && Wait(s, env).1.value.reason.STOPPED?
    ensures Held(Wait(s, env).0, loc)
  {
    WaitHolds(s, env, loc);
  }

  lemma StepHeld(s: State, env: StepEnv, loc: u64)
    requires Held(s, loc) && Step(s, env).1.Ok? && Step(s, env).1.value.reason.STOPPED?
    ensures Held(Step(s, env).0, loc)
  {
    var pc := Pc(s.tracee.regs);
    var e := StepEffect(FetchedFrom(s.tracee.mem, s.sites, pc), pc, EffectsOf(env.wait.outer));
    StepRegisters(s, env);
    StepTables(s, env);
    PcAfterSet(RegsAfter(s.tracee.regs, e), loc);
    StepEndsArmed(s, env);
  }

  lemma StepEndsArmed(s: State, env: StepEnv)
    requires Step(s, env).1.Ok? && Pc(s.tracee.regs) in s.sites
    ensures BrkAt(Step(s, env).0.tracee.mem, Pc(s.tracee.regs))
  {
    var pc := Pc(s.tracee.regs);
    StepUnfolds(s, env);
    var (s2, r2) := Wait(Lifted(Load(s, env.load).0, pc), env.wait);
    FinishStepArms(s2, r2, pc, env);
  }

  lemma QuietHeld(s: State, op: Op, loc: u64)
    requires op.ResumeOp? || op.EnableOp? || op.DisableOp? || op.WriteOp?
    requires Held(s, loc) && Stays(s, op, loc)
    ensures Held(Do(s, op), loc)
  {
    QuietOps(s, op);
    match op {
      case ResumeOp(_) =>
      case EnableOp(a, load, save) => EnableKeepsPc(s, a, load, save, loc);
      case DisableOp(slot, load, save) => DisableKeepsPc(s, slot, load, save, loc);
      case WriteOp(h, v, save) =>
        if ValidHandle(h) {
          PutSaveKeepsPc(s, h, v, save, loc);
        }
    }
  }

  /** Where windows do not meet and the program does not store into them, no other breakpoint can be in
      the way, and the layout is kept too. */
  lemma {:induction false} RunHeldArmed(s: State, ops: seq<Op>, loc: u64, armed: set<u64>)
    requires Inv(s, armed) && Held(s, loc) && RunAllowed(s, ops) && RunStays(s, ops, loc)
    ensures Held(Run(s, ops), loc) && Inv(Run(s, ops), RunArmed(s, ops, armed))
    decreases |ops|
  {
    if ops != [] {
      AllowedSpares(s, ops[0], loc, armed);
      OpHeld(s, ops[0], loc);
      OpKeeps(s, ops[0], armed);
      RunHeldArmed(Do(s, ops[0]), ops[1..], loc, ArmedBy(s, ops[0], armed));
    } else {
      assert RunArmed(s, ops, armed) == armed;
    }
  }

  lemma AllowedSpares(s: State, op: Op, loc: u64, armed: set<u64>)
    requires Inv(s, armed) && Held(s, loc) && Allowed(s, op)
    ensures Spares(s, op, loc)
  {
    if op.AddOp? {
      HasIdIffSite(s.ids, s.sites.Keys, s.next, op.addr);
      assert op.addr in s.sites.Keys + {op.addr} && loc in s.sites.Keys + {op.addr};
    }
  }

  /** Nothing happens to pc and the mode of the tracee. */
  ghost predicate KeepsPc(s: State, s': State, loc: u64)
  {
    Pc(s'.tracee.regs) == loc && Pc(s'.cache.file) == loc && s'.tracee.mode == s.tracee.mode
  }

  lemma EnableKeepsPc(s: State, a: u64, load: nat, save: nat, loc: u64)
    requires Pc(s.tracee.regs) == loc && Pc(s.cache.file) == loc
    ensures KeepsPc(s, EnableHw(s, a, load, save).0, loc)
  {
    var s1 := Load(s, load).0;
    match FirstFree(s1.cache.file.hwBreak, 0) {
      case None =>
      case Some(slot) =>
        PutKeepsPc(s1, Full(AddrIndex(slot)), a);
        PutSaveKeepsPc(Put(s1, Full(AddrIndex(slot)), a), Full(CtrlIndex(slot)), BREAK_CTRL, save, loc);
    }
  }

  lemma DisableKeepsPc(s: State, slot: int, load: nat, save: nat, loc: u64)
    requires Pc(s.tracee.regs) == loc && Pc(s.cache.file) == loc
    ensures KeepsPc(s, DisableHw(s, slot, load, save).0, loc)
  {
    if 0 <= slot < 16 {
      var s1 := Load(s, load).0;
      PutSaveKeepsPc(s1, Full(CtrlIndex(slot)), WithoutE(SlotCtrl(s1.cache.file.hwBreak, slot)), save, loc);
    }
  }

  lemma PutSaveKeepsPc(s: State, h: Handle, v: nat, save: nat, loc: u64)
    requires ValidHandle(h) && HomeIndex(h) != PC_INDEX && Pc(s.tracee.regs) == loc && Pc(s.cache.file) == loc
    ensures KeepsPc(s, Save(Put(s, h, v), save).0, loc)
  {
    PutKeepsPc(s, h, v);
    SaveKeepsPc(Put(s, h, v), save, loc);
  }

  lemma PutKeepsPc(s: State, h: Handle, v: nat)
    requires ValidHandle(h) && HomeIndex(h) != PC_INDEX
    ensures Pc(Put(s, h, v).cache.file) == Pc(s.cache.file)
  {
    OtherRegistersUntouched(s.cache.file, h, v, Full(PC_INDEX));
    PcHandle(s.cache.file, 0);
    PcHandle(Put(s, h, v).cache.file, 0);
  }

  lemma SaveKeepsPc(s: State, save: nat, loc: u64)
    requires Pc(s.tracee.regs) == loc && Pc(s.cache.file) == loc
    ensures Pc(Save(s, save).0.tracee.regs) == loc && Save(s, save).0.tracee.mode == s.tracee.mode
  {
  }
}
