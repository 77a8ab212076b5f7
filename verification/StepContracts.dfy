/** What `wait_on_signal` and `step_instruction` return with: registers, memory and armed sites. */
module StepContracts {
  import opened LittleEndian
  import opened Options
  import opened RegisterFile
  import opened Handles
  import opened Memory
  import opened Tracees
  import opened Protocol
  import opened Sites

  // ---------------------------------------------------------------------------
  // One instruction of the program
  // ---------------------------------------------------------------------------

  /** The effect a single step has at `pc` in the memory `m`: none if the instruction there traps, or
      if the step is interrupted before it. */
  function StepEffect(m: Mem, pc: int, effects: seq<Effect>): Option<Effect>
  {
    if effects == [] || !CanExecute(m, pc) then None else Some(effects[0])
  }

  function StoresOf(e: Option<Effect>): Mem
  {
    match e
    case None => map[]
    case Some(effect) => effect.stores
  }

  function RegsAfter(regs: RegFile, e: Option<Effect>): RegFile
  {
    match e
    case None => regs
    case Some(effect) => Regsets(effect.gpr, effect.fpr, regs.hwBreak, regs.hwWatch)
  }

  /** A stepping tracee executes at most one instruction. */
  lemma StepIsOne(t: Tracee, effects: seq<Effect>)
    requires t.mode.Stepping?
    ensures var e := StepEffect(t.mem, Pc(t.regs), effects);
            t.Ran(effects) == t.(mem := t.mem + StoresOf(e), base := t.base + StoresOf(e), regs := RegsAfter(t.regs, e))
  {
    var one := if |effects| > 1 then effects[..1] else effects;
    if effects != [] && CanExecute(t.mem, Pc(t.regs)) {
      assert one[1..] == [];
      assert t.Advanced(one) == t.Executed(one[0]).Advanced([]);
    } else {
      NoStores(t.mem);
      NoStores(t.base);
    }
  }

  lemma NoStores(m: Mem)
    ensures m + map[] == m
  {
  }

  /** With its own trap lifted, a site shows the tracee the program's instruction. */
  lemma ProgramShows(mem: Mem, base: Mem, loc: u64, effects: seq<Effect>)
    requires SameWindow(mem, base, loc)
    ensures StepEffect(mem, loc, effects) == StepEffect(base, loc, effects)
  {
    assert InWindow(loc, loc) && InWindow(loc, loc + 1) && InWindow(loc, loc + 2) && InWindow(loc, loc + 3);
  }

  // ---------------------------------------------------------------------------
  // Saving what was loaded
  // ---------------------------------------------------------------------------

  /** Saving the registers of a stop over a tracee whose debug registers did not change gives back the
      whole register file, although the debug regsets are written only up to their implemented
      slots. */
  lemma SaveBack(c: Cache, regs: RegFile, now: RegFile, loc: u64)
    requires now.hwBreak == regs.hwBreak && now.hwWatch == regs.hwWatch
    requires loc == Pc(regs) && c.file == regs
    ensures SavedRegs(c.(file := SetPc(c.file, loc)), now, 4) == regs
  {
    PcAfterSet(regs, loc);
    var b, w := c.breakSize, c.watchSize;
    assert regs.hwBreak[..b] + regs.hwBreak[b..] == regs.hwBreak;
    assert regs.hwWatch[..w] + regs.hwWatch[w..] == regs.hwWatch;
  }

  /** Saving a coherent cache with a new pc. */
  lemma SaveRewound(s: State, loc: u64)
    requires Coherent(s)
    ensures SavedRegs(s.cache.(file := SetPc(s.cache.file, loc)), s.tracee.regs, 4) == SetPc(s.tracee.regs, loc)
  {
    var regs, b, w := s.tracee.regs, s.cache.breakSize, s.cache.watchSize;
    assert SetPc(regs, loc).hwBreak == regs.hwBreak && SetPc(regs, loc).hwWatch == regs.hwWatch;
    assert regs.hwBreak[..b] + regs.hwBreak[b..] == regs.hwBreak;
    assert regs.hwWatch[..w] + regs.hwWatch[w..] == regs.hwWatch;
  }

  // ---------------------------------------------------------------------------
  // Registers: wherever the sites lie and whatever the program stores
  // ---------------------------------------------------------------------------

  /** The tracee is stopped and the cache is what a load of its registers would leave. */
  predicate Coherent(s: State)
  {
    && s.tracee.mode.Stopped?
    && s.cache.file == s.tracee.regs
    && s.cache.breakSize == DebugSize(s.tracee.regs.hwBreak)
    && s.cache.watchSize == DebugSize(s.tracee.regs.hwWatch)
  }

  /** What the tracee fetches from when it is stepped at `pc`: at a site, memory with the saved word
      put back. */
  function FetchedFrom(mem: Mem, sites: map<u64, u64>, pc: u64): Mem
  {
    if pc in sites then Poke(mem, pc, sites[pc]) else mem
  }

  lemma FinishRegisters(s: State, waited: bool, loc: u64, reason: StopReason, env: WaitEnv, regs: RegFile)
    requires s.cache.file == regs && loc == Pc(regs)
    requires s.tracee.regs.hwBreak == regs.hwBreak && s.tracee.regs.hwWatch == regs.hwWatch
    ensures var (s', r) := FinishStepOver(s, waited, loc, reason, env);
            r.Ok? ==>
              && waited && r.value == reason
              && Coherent(s') && s'.tracee.regs == regs
              && s'.tracee.base == s.tracee.base && s'.run == s.run
  {
    SaveBack(s.cache, regs, s.tracee.regs, loc);
  }

  /** A successful step-over rolls the registers back to the stop, pc included, while the stores of the
      one instruction executed, the one whose word was saved at the site, remain. */
  lemma StepOverRegisters(s: State, loc: u64, reason: StopReason, env: WaitEnv)
    requires loc in s.sites && Coherent(s) && loc == Pc(s.tracee.regs)
    ensures var (s', r) := StepOver(s, loc, reason, env);
            r.Ok? ==>
              && r.value == reason
              && Coherent(s') && s'.tracee.regs == s.tracee.regs
              && s'.run == s.run
              && s'.tracee.base
                 == s.tracee.base
                    + StoresOf(StepEffect(FetchedFrom(s.tracee.mem, s.sites, loc), loc, EffectsOf(env.inner)))
  {
    if s.pid != 0 && s.tracee.CanPoke(loc, env.disarm) && env.step {
      var t := s.tracee.PokeData(loc, s.sites[loc]).(mode := Stepping);
      StepIsOne(t, EffectsOf(env.inner));
      WaitedFrame(t, env.inner);
      var (t1, status) := t.Waited(env.inner);
      FinishRegisters(s.(tracee := t1), status.Some?, loc, reason, env, s.tracee.regs);
      StepOverUnfolds(s, loc, reason, env);
    }
  }

  lemma StepOverUnfolds(s: State, loc: u64, reason: StopReason, env: WaitEnv)
    requires loc in s.sites && s.pid != 0 && s.tracee.CanPoke(loc, env.disarm) && env.step
    ensures var (t, status) := s.tracee.PokeData(loc, s.sites[loc]).(mode := Stepping).Waited(env.inner);
            StepOver(s, loc, reason, env) == FinishStepOver(s.(tracee := t), status.Some?, loc, reason, env)
  {
    assert s.(tracee := s.tracee.PokeData(loc, s.sites[loc])).(tracee := s.tracee) == s;
  }

  /** After a wait that returns with an attached, stopped tracee, tracee and cache both hold the
      registers the tracee had when it stopped, whether or not a breakpoint was stepped over. */
  lemma WaitRegisters(s: State, env: WaitEnv)
    requires s.attached
    ensures var (s', r) := Wait(s, env);
            r.Ok? && r.value.reason.STOPPED? ==>
              var stop := s.tracee.Waited(env.outer).0;
              && Coherent(s') && s'.tracee.regs == stop.regs
              && s'.pid == s.pid && s'.run.STOPPED?
              && (match StepsOverAt(s, env)
                  case None => s'.tracee == stop
                  case Some(loc) =>
                    && loc == Pc(stop.regs)
                    && s'.tracee.base
                       == stop.base
                          + StoresOf(StepEffect(FetchedFrom(stop.mem, s.sites, loc), loc, EffectsOf(env.inner))))
  {
    match StepsOverAt(s, env) {
      case None => WaitedFrame(s.tracee, env.outer);
      case Some(loc) =>
        WaitAtSite(s, env, loc);
        WaitTables(s, env);
        StepOverRegisters(Arrived(s, env), loc, s.tracee.Waited(env.outer).1.value, env);
    }
  }

  /** Waiting for a stepping tracee: one effect, and a step-over where it lands on a site. */
  lemma SteppedWait(s: State, env: WaitEnv, e: Option<Effect>)
    requires s.attached && s.tracee.mode.Stepping?
    requires e == StepEffect(s.tracee.mem, Pc(s.tracee.regs), EffectsOf(env.outer))
    ensures var (s', r) := Wait(s, env);
            r.Ok? && r.value.reason.STOPPED? ==>
              && Coherent(s') && s'.tracee.regs == RegsAfter(s.tracee.regs, e)
              && s'.pid == s.pid && s'.run.STOPPED?
  {
    StepIsOne(s.tracee, EffectsOf(env.outer));
    WaitedFrame(s.tracee, env.outer);
    WaitRegisters(s, env);
  }

  /** After a step that returns with a stopped tracee the registers are those after at most one
      instruction, except that pc is back at the start if the start was a site; the cache shows them.
      This holds too when the step lands on another site, or on its own. */
  lemma StepRegisters(s: State, env: StepEnv)
    requires s.attached
    ensures var (s', r) := Step(s, env);
            r.Ok? && r.value.reason.STOPPED? ==>
              var pc := Pc(s.tracee.regs);
              var e := StepEffect(FetchedFrom(s.tracee.mem, s.sites, pc), pc, EffectsOf(env.wait.outer));
              var after := RegsAfter(s.tracee.regs, e);
              && Coherent(s')
              && s'.tracee.regs == (if pc in s.sites then SetPc(after, pc) else after)
              && s'.pid == s.pid && s'.run.STOPPED?
  {
    if Step(s, env).1.Ok? {
      var pc := Pc(s.tracee.regs);
      var s1 := Load(s, env.load).0;
      var e := StepEffect(FetchedFrom(s.tracee.mem, s.sites, pc), pc, EffectsOf(env.wait.outer));
      StepUnfolds(s, env);
      if pc in s.sites {
        SteppedWait(Lifted(s1, pc), env.wait, e);
        RewindRegisters(Wait(Lifted(s1, pc), env.wait).0, Wait(Lifted(s1, pc), env.wait).1, pc, env);
      } else {
        SteppedWait(Stepped(s1), env.wait, e);
      }
    }
  }

  /** A step with a result is the wait it contains, and at a site the re-arm that follows. */
  lemma StepUnfolds(s: State, env: StepEnv)
    requires Step(s, env).1.Ok?
    ensures s.pid != 0 && s.tracee.mode.Stopped? && env.load >= 4 && env.step
    ensures var pc := Pc(s.tracee.regs);
            var s1 := Load(s, env.load).0;
            && s1 == s.(cache := Loaded(s.cache, s.tracee.regs, 4))
            && (pc in s.sites ==>
                  && s.tracee.CanPoke(pc, env.disarm)
                  && Step(s, env) == FinishStep(Wait(Lifted(s1, pc), env.wait).0, Wait(Lifted(s1, pc), env.wait).1,
                                                pc, env)
                  && Wait(Lifted(s1, pc), env.wait).1.Ok?)
            && (pc !in s.sites ==> Step(s, env) == Wait(Stepped(s1), env.wait))
  {
  }

  lemma RewindRegisters(s: State, waited: Result<StopReason>, loc: u64, env: StepEnv)
    requires waited.Ok? && waited.value.reason.STOPPED? ==> Coherent(s)
    ensures var (s', r) := FinishStep(s, waited, loc, env);
            r.Ok? ==>
              && r == waited
              && (r.value.reason.STOPPED? ==>
                    && Coherent(s') && s'.tracee.regs == SetPc(s.tracee.regs, loc)
                    && s'.tracee.base == s.tracee.base && s'.run == s.run && s'.pid == s.pid)
  {
    if waited.Ok? && waited.value.reason.STOPPED? {
      SaveRewound(s, loc);
    }
  }

  // ---------------------------------------------------------------------------
  // Results: what a wait or a step reports, in terms of the kernel's answers
  // ---------------------------------------------------------------------------

  /** Every site can be written. */
  ghost predicate AllMapped(m: Mem, sites: set<u64>)
  {
    forall a | a in sites :: Mapped(m, a)
  }

  lemma {:induction false} AdvancedGrows(t: Tracee, effects: seq<Effect>)
    ensures t.mem.Keys <= t.Advanced(effects).mem.Keys
    decreases |effects|
  {
    if effects != [] && CanExecute(t.mem, Pc(t.regs)) {
      AdvancedGrows(t.Executed(effects[0]), effects[1..]);
    }
  }

  lemma WaitedGrows(t: Tracee, answer: WaitAnswer)
    ensures t.mem.Keys <= t.Waited(answer).0.mem.Keys
  {
    var effects := EffectsOf(answer);
    AdvancedGrows(t, effects);
    if |effects| > 1 {
      AdvancedGrows(t, effects[..1]);
    }
  }

  /** The result of a step-over, read off the kernel's answers. A memory error does not say whether the
      trap is in place: it is if lifting it was refused, and not if writing it back was. */
  lemma StepOverResult(s: State, loc: u64, reason: StopReason, env: WaitEnv)
    requires loc in s.sites && s.pid != 0 && s.tracee.mode.Stopped? && Mapped(s.tracee.mem, loc)
    ensures StepOver(s, loc, reason, env).1
            == if !env.disarm || !Rearms(env) then Err(WriteFailed)
               else if !env.step then Err(StepFailed)
               else if env.inner.NoStatus? then Err(WaitFailed)
               else if env.save < 4 || env.reload < 4 then Err(RegistersFailed)
               else Ok(reason)
  {
    if env.disarm && env.step {
      var t := s.tracee.PokeData(loc, s.sites[loc]).(mode := Stepping);
      WaitedGrows(t, env.inner);
      SteppingStops(t, env.inner);
      StepOverUnfolds(s, loc, reason, env);
      FinishResult(s.(tracee := t.Waited(env.inner).0), t.Waited(env.inner).1.Some?, loc, reason, env);
    }
  }

  lemma FinishResult(s: State, waited: bool, loc: u64, reason: StopReason, env: WaitEnv)
    requires s.pid != 0 && Mapped(s.tracee.mem, loc)
    ensures FinishStepOver(s, waited, loc, reason, env).1
            == if !env.rearm || !s.tracee.mode.Stopped? then Err(WriteFailed)
               else if !waited then Err(WaitFailed)
               else if env.save < 4 || env.reload < 4 then Err(RegistersFailed)
               else Ok(reason)
  {
  }

  /** The answers with which a wait reports a stop. */
  predicate WaitStops(s: State, env: WaitEnv)
  {
    && s.pid != 0 && (s.tracee.mode.Running? || s.tracee.mode.Stepping?) && env.outer.Stop?
    && (s.attached ==> env.load >= 4)
    && (StepsOverAt(s, env).Some? ==>
          env.disarm && env.step && env.inner.Stop? && env.rearm && env.save >= 4 && env.reload >= 4)
  }

  /** A wait reports a stop exactly with these answers, and always the outer one. */
  lemma WaitStopsIff(s: State, env: WaitEnv)
    requires AllMapped(s.tracee.mem, s.sites.Keys)
    ensures var r := Wait(s, env).1;
            && (r.Ok? && r.value.reason.STOPPED? <==> WaitStops(s, env))
            && (WaitStops(s, env) ==> r == Ok(StopReason(STOPPED, env.outer.signal)))
  {
    match StepsOverAt(s, env) {
      case None =>
      case Some(loc) =>
        WaitAtSite(s, env, loc);
        WaitedGrows(s.tracee, env.outer);
        StepOverResult(Arrived(s, env), loc, s.tracee.Waited(env.outer).1.value, env);
    }
  }

  /** The answers with which a step reports a stop. */
  predicate StepStops(s: State, env: StepEnv)
  {
    var pc := Pc(s.tracee.regs);
    && s.pid != 0 && s.tracee.mode.Stopped? && env.load >= 4 && env.step
    && (if pc in s.sites then env.disarm && WaitStops(Lifted(s, pc), env.wait) && env.rearm && env.save >= 4
        else WaitStops(Stepped(s), env.wait))
  }

  /** What a wait does to the tracee does not depend on the cache. */
  lemma CacheUnused(s: State, c: Cache, env: WaitEnv)
    ensures StepsOverAt(s.(cache := c), env) == StepsOverAt(s, env)
    ensures WaitStops(s.(cache := c), env) == WaitStops(s, env)
  {
  }

  lemma StepStopsIff(s: State, env: StepEnv)
    requires AllMapped(s.tracee.mem, s.sites.Keys)
    ensures var r := Step(s, env).1;
            && (r.Ok? && r.value.reason.STOPPED? <==> StepStops(s, env))
            && (StepStops(s, env) ==> r == Ok(StopReason(STOPPED, env.wait.outer.signal)))
  {
    var pc := Pc(s.tracee.regs);
    var s1 := Load(s, env.load).0;
    if s.pid != 0 && s.tracee.mode.Stopped? && env.load >= 4 {
      if pc in s.sites {
        SiteStepStops(s, s1, pc, env);
      } else {
        CacheUnused(Stepped(s), s1.cache, env.wait);
        WaitStopsIff(Stepped(s1), env.wait);
      }
    }
  }

  lemma SiteStepStops(s: State, s1: State, pc: u64, env: StepEnv)
    requires AllMapped(s.tracee.mem, s.sites.Keys) && pc in s.sites && pc == Pc(s.tracee.regs)
    requires s.pid != 0 && s.tracee.mode.Stopped? && env.load >= 4
    requires s1 == s.(cache := Loaded(s.cache, s.tracee.regs, 4))
    ensures var r := StepFromSite(s1, pc, env).1;
            && (r.Ok? && r.value.reason.STOPPED? <==> StepStops(s, env))
            && (StepStops(s, env) ==> r == Ok(StopReason(STOPPED, env.wait.outer.signal)))
  {
    var lifted := Lifted(s1, pc);
    CacheUnused(Lifted(s, pc), s1.cache, env.wait);
    WaitStopsIff(lifted, env.wait);
    var (s2, r2) := Wait(lifted, env.wait);
    if r2.Ok? && r2.value.reason.STOPPED? {
      StoppedAfterWait(lifted, env.wait);
      FinishStepResult(s2, r2, pc, env);
    } else {
      WaitTables(lifted, env.wait);
    }
  }

  /** Whoever is told of a stop finds the tracee stopped, with all it had mapped. */
  lemma StoppedAfterWait(s: State, env: WaitEnv)
    requires Wait(s, env).1.Ok? && Wait(s, env).1.value.reason.STOPPED?
    ensures Wait(s, env).0.tracee.mode.Stopped? && Wait(s, env).0.pid == s.pid != 0
    ensures s.tracee.mem.Keys <= Wait(s, env).0.tracee.mem.Keys
  {
    WaitTables(s, env);
    WaitedFrame(s.tracee, env.outer);
    WaitedGrows(s.tracee, env.outer);
    match StepsOverAt(s, env) {
      case None => WaitElsewhere(s, env);
      case Some(loc) =>
        WaitAtSite(s, env, loc);
        StoppedAfterStepOver(Arrived(s, env), loc, s.tracee.Waited(env.outer).1.value, env);
    }
  }

  lemma StoppedAfterStepOver(s: State, loc: u64, reason: StopReason, env: WaitEnv)
    requires loc in s.sites && s.pid != 0 && StepOver(s, loc, reason, env).1.Ok?
    ensures StepOver(s, loc, reason, env).0.tracee.mode.Stopped?
    ensures s.tracee.mem.Keys <= StepOver(s, loc, reason, env).0.tracee.mem.Keys
  {
    var t := s.tracee.PokeData(loc, s.sites[loc]).(mode := Stepping);
    StepOverUnfolds(s, loc, reason, env);
    WaitedGrows(t, env.inner);
    var (t1, status) := t.Waited(env.inner);
    FinishMemory(s.(tracee := t1), status.Some?, loc, reason, env);
  }

  lemma FinishStepResult(s: State, waited: Result<StopReason>, loc: u64, env: StepEnv)
    requires s.pid != 0 && waited.Ok? && s.tracee.mode.Stopped? && Mapped(s.tracee.mem, loc)
    ensures FinishStep(s, waited, loc, env).1
            == if !env.rearm then Err(WriteFailed) else if env.save < 4 then Err(RegistersFailed) else waited
  {
  }

  // ---------------------------------------------------------------------------
  // Memory: the program and its sites, where windows do not meet
  // ---------------------------------------------------------------------------

  lemma SitesMapped(t: Tracee, sites: map<u64, u64>, armed: set<u64>)
    requires SitesOk(t, sites, armed)
    ensures AllMapped(t.mem, sites.Keys)
  {
    forall a | a in sites
      ensures Mapped(t.mem, a)
    {
      SiteMapped(t, sites, armed, a);
    }
  }

  /** With its own trap lifted, a site shows the tracee the program's instruction. */
  lemma SiteShows(t: Tracee, sites: map<u64, u64>, armed: set<u64>, loc: u64, effects: seq<Effect>)
    requires SitesOk(t, sites, armed) && loc in sites
    ensures StepEffect(FetchedFrom(t.mem, sites, loc), loc, effects) == StepEffect(t.base, loc, effects)
  {
    DisarmKeeps(t, sites, armed, loc);
    ProgramShows(Poke(t.mem, loc, sites[loc]), t.base, loc, effects);
  }

  /** A wait that reports a stop leaves every site armed that was, and the one it stepped over; the
      program's own memory has gained the stores of the one instruction of the program there. */
  lemma WaitContract(s: State, env: WaitEnv, armed: set<u64>)
    requires s.pid != 0 && s.attached && SitesOk(s.tracee, s.sites, armed) && WaitAvoids(env, s.sites.Keys)
    ensures var (s', r) := Wait(s, env);
            r.Ok? && r.value.reason.STOPPED? ==>
              var stop := s.tracee.Waited(env.outer).0;
              match StepsOverAt(s, env)
              case None => s'.tracee == stop && SitesOk(s'.tracee, s.sites, armed)
              case Some(loc) =>
                && SitesOk(s'.tracee, s.sites, armed + {loc})
                && s'.tracee.base == stop.base + StoresOf(StepEffect(stop.base, loc, EffectsOf(env.inner)))
  {
    WaitKeeps(s, env, armed);
    WaitRegisters(s, env);
    SitesMapped(s.tracee, s.sites, armed);
    WaitStopsIff(s, env);
    WaitedKeeps(s.tracee, env.outer, s.sites, armed);
    if StepsOverAt(s, env).Some? {
      SiteShows(s.tracee.Waited(env.outer).0, s.sites, armed, StepsOverAt(s, env).value, EffectsOf(env.inner));
    }
  }

  /** The sites armed after a step. */
  function StepArmed(s: State, env: StepEnv, armed: set<u64>): set<u64>
  {
    var pc := Pc(s.tracee.regs);
    if s.pid == 0 || !s.tracee.mode.Stopped? || env.load < 4 then armed
    else if pc !in s.sites then if env.step then WaitArmed(Stepped(s), env.wait, armed) else armed
    else if !env.disarm || !env.step then Swap(armed, pc, env.disarm, env.rearm)
    else FinishArmed(Lifted(s, pc), pc, env, WaitArmed(Lifted(s, pc), env.wait, armed - {pc}))
  }

  /** The trap of the start goes back only after a wait that reported a stop. */
  function FinishArmed(lifted: State, pc: u64, env: StepEnv, during: set<u64>): set<u64>
  {
    if WaitStops(lifted, env.wait) && env.rearm then during + {pc} else during
  }

  /** Whatever the kernel answers, errors included, memory after a step is the program with the trap
      over exactly these sites. */
  lemma StepKeeps(s: State, env: StepEnv, armed: set<u64>)
    requires s.pid != 0 && SitesOk(s.tracee, s.sites, armed) && WaitAvoids(env.wait, s.sites.Keys)
    ensures SitesOk(Step(s, env).0.tracee, s.sites, StepArmed(s, env, armed))
  {
    var pc := Pc(s.tracee.regs);
    var s1 := Load(s, env.load).0;
    if s.tracee.mode.Stopped? && env.load >= 4 {
      if pc in s.sites {
        SiteStepKeeps(s1, pc, env, armed);
        CacheUnused(Lifted(s, pc), s1.cache, env.wait);
      } else if env.step {
        WaitKeeps(Stepped(s1), env.wait, armed);
        CacheUnused(Stepped(s), s1.cache, env.wait);
      }
    }
  }

  lemma SiteStepKeeps(s: State, pc: u64, env: StepEnv, armed: set<u64>)
    requires s.pid != 0 && s.tracee.mode.Stopped? && pc in s.sites
    requires SitesOk(s.tracee, s.sites, armed) && WaitAvoids(env.wait, s.sites.Keys)
    ensures SitesOk(StepFromSite(s, pc, env).0.tracee, s.sites,
                    if !env.disarm || !env.step then Swap(armed, pc, env.disarm, env.rearm)
                    else FinishArmed(Lifted(s, pc), pc, env, WaitArmed(Lifted(s, pc), env.wait, armed - {pc})))
  {
    DisarmKeeps(s.tracee, s.sites, armed, pc);
    if env.disarm && env.step {
      var lifted := Lifted(s, pc);
      WaitKeeps(lifted, env.wait, armed - {pc});
      SitesMapped(lifted.tracee, s.sites, armed - {pc});
      WaitStopsIff(lifted, env.wait);
      FinishStepKeeps(lifted, pc, env, WaitArmed(lifted, env.wait, armed - {pc}));
    } else if env.disarm {
      SwapKeeps(s.tracee.PokeData(pc, s.sites[pc]), s.sites, armed, pc, env.rearm);
    }
  }

  lemma FinishStepKeeps(s: State, pc: u64, env: StepEnv, during: set<u64>)
    requires pc in s.sites && SitesOk(Wait(s, env.wait).0.tracee, s.sites, during)
    requires var r := Wait(s, env.wait).1; r.Ok? && r.value.reason.STOPPED? <==> WaitStops(s, env.wait)
    ensures SitesOk(FinishStep(Wait(s, env.wait).0, Wait(s, env.wait).1, pc, env).0.tracee, s.sites,
                    FinishArmed(s, pc, env, during))
  {
    var (s2, r2) := Wait(s, env.wait);
    if r2.Ok? && r2.value.reason.STOPPED? {
      StoppedAfterWait(s, env.wait);
      ArmKeeps(s2.tracee, s.sites, during, pc);
      RearmMemory(s2, pc, env.rearm, env.save);
    } else if r2.Ok? {
      EndedAfterWait(s, env.wait);
    }
  }

  lemma EndedAfterWait(s: State, env: WaitEnv)
    requires Wait(s, env).1.Ok? && !Wait(s, env).1.value.reason.STOPPED?
    ensures Wait(s, env).0.pid == 0
  {
  }

  /** The program's memory after a step: the stores of the instruction, and, if it lands on a site, of
      the one the wait then steps over. */
  function StepBase(s: State, env: StepEnv): Mem
  {
    var pc := Pc(s.tracee.regs);
    var e := StepEffect(if pc in s.sites then s.tracee.base else s.tracee.mem, pc, EffectsOf(env.wait.outer));
    var base := s.tracee.base + StoresOf(e);
    var landing := Pc(RegsAfter(s.tracee.regs, e));
    if landing in s.sites then base + StoresOf(StepEffect(base, landing, EffectsOf(env.wait.inner))) else base
  }

  /** A step that reports a stop leaves every site armed that was, and its own start; what the program's
      memory gained are the stores of the instruction stepped and, where it lands on a site, of the one
      there. */
  lemma StepContract(s: State, env: StepEnv, armed: set<u64>)
    requires s.pid != 0 && s.attached && SitesOk(s.tracee, s.sites, armed) && WaitAvoids(env.wait, s.sites.Keys)
    ensures var (s', r) := Step(s, env);
            r.Ok? && r.value.reason.STOPPED? ==>
              var armed' := StepArmed(s, env, armed);
              var pc := Pc(s.tracee.regs);
              && SitesOk(s'.tracee, s.sites, armed')
              && armed <= armed' && (pc in s.sites ==> pc in armed')
              && s'.tracee.base == StepBase(s, env)
  {
    StepKeeps(s, env, armed);
    SitesMapped(s.tracee, s.sites, armed);
    StepStopsIff(s, env);
    if Step(s, env).1.Ok? && Step(s, env).1.value.reason.STOPPED? {
      StepBaseIs(s, env, armed);
    }
  }

  lemma StepBaseIs(s: State, env: StepEnv, armed: set<u64>)
    requires s.pid != 0 && s.attached && SitesOk(s.tracee, s.sites, armed) && WaitAvoids(env.wait, s.sites.Keys)
    requires Step(s, env).1.Ok? && Step(s, env).1.value.reason.STOPPED?
    ensures Step(s, env).0.tracee.base == StepBase(s, env)
  {
    var pc := Pc(s.tracee.regs);
    var s1 := Load(s, env.load).0;
    StepUnfolds(s, env);
    var effects := EffectsOf(env.wait.outer);
    if pc in s.sites {
      DisarmKeeps(s.tracee, s.sites, armed, pc);
      SiteShows(s.tracee, s.sites, armed, pc, effects);
      SteppedBase(Lifted(s1, pc), env.wait, armed - {pc}, StepEffect(s.tracee.base, pc, effects));
      var (s2, r2) := Wait(Lifted(s1, pc), env.wait);
      WaitRegisters(Lifted(s1, pc), env.wait);
      RewindRegisters(s2, r2, pc, env);
    } else {
      SteppedBase(Stepped(s1), env.wait, armed, StepEffect(s.tracee.mem, pc, effects));
    }
  }

  lemma SteppedBase(s: State, env: WaitEnv, armed: set<u64>, e: Option<Effect>)
    requires s.pid != 0 && s.attached && SitesOk(s.tracee, s.sites, armed) && WaitAvoids(env, s.sites.Keys)
    requires s.tracee.mode.Stepping? && e == StepEffect(s.tracee.mem, Pc(s.tracee.regs), EffectsOf(env.outer))
    ensures var (s', r) := Wait(s, env);
            r.Ok? && r.value.reason.STOPPED? ==>
              var after := RegsAfter(s.tracee.regs, e);
              var base := s.tracee.base + StoresOf(e);
              s'.tracee.base == if Pc(after) in s.sites
                                then base + StoresOf(StepEffect(base, Pc(after), EffectsOf(env.inner)))
                                else base
  {
    StepIsOne(s.tracee, EffectsOf(env.outer));
    SitesMapped(s.tracee, s.sites, armed);
    WaitStopsIff(s, env);
    WaitContract(s, env, armed);
  }

  /** With every site armed before, every site is armed after a step, failed or not, exactly when: it
      lifts no trap; the kernel refuses the step and the trap is written back; the wait reports a stop and
      the trap is written back; a step-over right at the start writes it back; or the program has the trap
      word there itself and the wait, too, leaves every other trap in place. */
  lemma StepArmsIff(s: State, env: StepEnv)
    requires s.pid != 0 && SitesOk(s.tracee, s.sites, s.sites.Keys) && WaitAvoids(env.wait, s.sites.Keys)
    ensures AllArmed(Step(s, env).0.tracee.mem, s.sites.Keys) <==>
            var pc := Pc(s.tracee.regs);
            if !s.tracee.mode.Stopped? || env.load < 4 then true
            else if pc !in s.sites then env.step ==> TrapsStay(Stepped(s), env.wait)
            else if !env.disarm then true
            else if !env.step then env.rearm || s.sites[pc] == TRAP
            else if WaitStops(Lifted(s, pc), env.wait) && env.rearm then true
            else if StepsOverAt(Lifted(s, pc), env.wait) == Some(pc) && env.wait.disarm && Rearms(env.wait) then true
            else s.sites[pc] == TRAP && TrapsStay(Lifted(s, pc), env.wait)
  {
    StepKeeps(s, env, s.sites.Keys);
    LostIff(Step(s, env).0.tracee, s.sites, StepArmed(s, env, s.sites.Keys));
    LostMeans(s, env, s.sites.Keys - StepArmed(s, env, s.sites.Keys));
  }

  lemma LostMeans(s: State, env: StepEnv, lost: set<u64>)
    requires s.pid != 0 && lost == s.sites.Keys - StepArmed(s, env, s.sites.Keys)
    ensures AllTraps(s.sites, lost) <==>
            var pc := Pc(s.tracee.regs);
            if !s.tracee.mode.Stopped? || env.load < 4 then true
            else if pc !in s.sites then env.step ==> TrapsStay(Stepped(s), env.wait)
            else if !env.disarm then true
            else if !env.step then env.rearm || s.sites[pc] == TRAP
            else if WaitStops(Lifted(s, pc), env.wait) && env.rearm then true
            else if StepsOverAt(Lifted(s, pc), env.wait) == Some(pc) && env.wait.disarm && Rearms(env.wait) then true
            else s.sites[pc] == TRAP && TrapsStay(Lifted(s, pc), env.wait)
  {
    var pc := Pc(s.tracee.regs);
    StepLoses(s, env);
    if pc in s.sites {
      OneLost(Lifted(s, pc), env.wait, pc);
    } else {
      WaitLostMeans(Stepped(s), env.wait);
    }
  }

  lemma LostIff(t: Tracee, sites: map<u64, u64>, armed: set<u64>)
    requires SitesOk(t, sites, armed)
    ensures AllArmed(t.mem, sites.Keys) <==> AllTraps(sites, sites.Keys - armed)
  {
    ArmedIff(t, sites, armed);
  }

  predicate AllTraps(sites: map<u64, u64>, lost: set<u64>)
  {
    forall a | a in lost && a in sites :: sites[a] == TRAP
  }

  lemma WaitLostMeans(s: State, env: WaitEnv)
    ensures AllTraps(s.sites, WaitLost(s, env)) <==> TrapsStay(s, env)
  {
  }

  lemma OneLost(s: State, env: WaitEnv, pc: u64)
    requires pc in s.sites
    ensures AllTraps(s.sites, {pc}) <==> s.sites[pc] == TRAP
    ensures AllTraps(s.sites, {pc} + WaitLost(s, env)) <==> s.sites[pc] == TRAP && TrapsStay(s, env)
  {
    WaitLostMeans(s, env);
    TrapsUnion(s.sites, {pc}, WaitLost(s, env));
  }

  lemma TrapsUnion(sites: map<u64, u64>, a: set<u64>, b: set<u64>)
    ensures AllTraps(sites, a + b) <==> AllTraps(sites, a) && AllTraps(sites, b)
  {
    forall x | x in b && x in sites && AllTraps(sites, a + b)
      ensures sites[x] == TRAP
    {
      assert x in a + b;
    }
    forall x | x in a && x in sites && AllTraps(sites, a + b)
      ensures sites[x] == TRAP
    {
      assert x in a + b;
    }
  }

  /** The trap a wait loses: the one it lifted and did not write back. */
  function WaitLost(s: State, env: WaitEnv): set<u64>
  {
    match StepsOverAt(s, env)
    case None => {}
    case Some(loc) => if env.disarm && !Rearms(env) then {loc} else {}
  }

  /** The traps a step loses. */
  lemma StepLoses(s: State, env: StepEnv)
    requires s.pid != 0
    ensures var pc := Pc(s.tracee.regs);
            s.sites.Keys - StepArmed(s, env, s.sites.Keys)
            == if !s.tracee.mode.Stopped? || env.load < 4 then {}
               else if pc !in s.sites then (if env.step then WaitLost(Stepped(s), env.wait) else {})
               else if !env.disarm then {}
               else if !env.step then (if env.rearm then {} else {pc})
               else if WaitStops(Lifted(s, pc), env.wait) && env.rearm then {}
               else if StepsOverAt(Lifted(s, pc), env.wait) == Some(pc) && env.wait.disarm && Rearms(env.wait) then {}
               else {pc} + WaitLost(Lifted(s, pc), env.wait)
  {
    var pc := Pc(s.tracee.regs);
    if pc in s.sites && env.disarm && env.step {
      LiftedLoses(s, pc, env);
    }
  }

  lemma LiftedLoses(s: State, pc: u64, env: StepEnv)
    requires pc in s.sites
    ensures var keys, lifted := s.sites.Keys, Lifted(s, pc);
            keys - FinishArmed(lifted, pc, env, WaitArmed(lifted, env.wait, keys - {pc}))
            == if WaitStops(lifted, env.wait) && env.rearm then {}
               else if StepsOverAt(lifted, env.wait) == Some(pc) && env.wait.disarm && Rearms(env.wait) then {}
               else {pc} + WaitLost(lifted, env.wait)
  {
  }

  // ---------------------------------------------------------------------------
  // The process ends
  // ---------------------------------------------------------------------------

  /** A wait whose waitpid says that the process has ended reports how, with its status or signal, and the
      debugger lets go of the pid. */
  lemma WaitThatEnds(s: State, env: WaitEnv)
    requires s.pid != 0 && (s.tracee.mode.Running? || s.tracee.mode.Stepping?)
    ensures var (s', r) := Wait(s, env);
            && (env.outer.Exit? ==> r == Ok(StopReason(EXITED, env.outer.status)))
            && (env.outer.Kill? ==> r == Ok(StopReason(TERMINATED, env.outer.signal)))
            && (env.outer.Exit? || env.outer.Kill? <==> r.Ok? && !r.value.reason.STOPPED?)
            && (env.outer.Exit? || env.outer.Kill? ==> s' == s.(pid := 0, tracee := s.tracee.(mode := Dead)))
  {
  }

  /** A step that ends the process reports how it ended exactly when it did not start at a site; from a
      site the re-arm that follows finds no process and its error is all the caller sees. */
  lemma StepThatEnds(s: State, env: StepEnv)
    requires s.pid != 0 && s.tracee.mode.Stopped? && env.load >= 4 && env.step
    requires env.wait.outer.Exit? || env.wait.outer.Kill?
    requires var pc := Pc(s.tracee.regs); pc in s.sites ==> s.tracee.CanPoke(pc, env.disarm)
    ensures var (s', r) := Step(s, env);
            && s'.pid == 0 && s'.tracee.mode.Dead?
            && r == (if Pc(s.tracee.regs) in s.sites then Err(NotInitialized)
                     else if env.wait.outer.Exit? then Ok(StopReason(EXITED, env.wait.outer.status))
                     else Ok(StopReason(TERMINATED, env.wait.outer.signal)))
  {
  }

  /** A process is gone after a step-over exactly when it ended at the inner wait, and that goes
      unnoticed: the result is a memory error and the debugger still holds the pid. */
  lemma EndsDuringStepOver(s: State, loc: u64, reason: StopReason, env: WaitEnv)
    requires s.pid != 0 && loc in s.sites && s.tracee.mode.Stopped? && Mapped(s.tracee.mem, loc)
    ensures var (s', r) := StepOver(s, loc, reason, env);
            && (s'.tracee.mode.Dead? <==> env.disarm && env.step && (env.inner.Exit? || env.inner.Kill?))
            && (s'.tracee.mode.Dead? ==> r == Err(WriteFailed) && s'.pid == s.pid)
  {
    StepOverResult(s, loc, reason, env);
    StepOverTables(s, loc, reason, env);
    if env.disarm && env.step {
      var t := s.tracee.PokeData(loc, s.sites[loc]).(mode := Stepping);
      StepOverUnfolds(s, loc, reason, env);
      WaitedGrows(t, env.inner);
      var (t1, status) := t.Waited(env.inner);
      FinishMemory(s.(tracee := t1), status.Some?, loc, reason, env);
    }
  }

  // ---------------------------------------------------------------------------
  // The signal of a stop
  // ---------------------------------------------------------------------------

  function WithSignal(answer: WaitAnswer, signal: nat): WaitAnswer
  {
    match answer
    case Stop(effects, _) => Stop(effects, signal)
    case _ => answer
  }

  /** Whether a breakpoint is stepped over does not depend on the signal the tracee stopped with: any
      other signal gives the same state, and the same result but for the signal reported. */
  lemma SignalIgnored(s: State, env: WaitEnv, signal: nat, inner: nat)
    ensures var (s', r) := Wait(s, env);
            var env' := env.(outer := WithSignal(env.outer, signal), inner := WithSignal(env.inner, inner));
            var (s'', r') := Wait(s, env');
            && s'' == s'
            && r' == if r.Ok? && r.value.reason.STOPPED? then Ok(r.value.(info := signal)) else r
  {
    var env' := env.(outer := WithSignal(env.outer, signal), inner := WithSignal(env.inner, inner));
    match StepsOverAt(s, env) {
      case None =>
      case Some(loc) =>
        WaitAtSite(s, env, loc);
        WaitAtSite(s, env', loc);
        StepOverIgnores(Arrived(s, env), loc, s.tracee.Waited(env.outer).1.value, env, env');
    }
  }

  lemma StepOverIgnores(s: State, loc: u64, reason: StopReason, env: WaitEnv, env': WaitEnv)
    requires loc in s.sites && reason.reason.STOPPED?
    requires exists signal, inner ::
               env' == env.(outer := WithSignal(env.outer, signal), inner := WithSignal(env.inner, inner))
    ensures forall reason': StopReason ::
              var (s', r) := StepOver(s, loc, reason, env);
              StepOver(s, loc, reason', env') == (s', if r.Ok? then Ok(reason') else r)
  {
  }
}
