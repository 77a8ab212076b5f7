/** The breakpoint sites of a tracee: what the debugger's writes and the program's stores keep. */
module Sites {
  import opened LittleEndian
  import opened Options
  import opened Handles
  import opened Memory
  import opened Tracees
  import opened Protocol

  /** The windows of the sites do not meet, the saved words are those of the program, and the memory of
      the tracee is the program with the trap word over exactly the sites of `armed`. */
  ghost predicate Layout(mem: Mem, base: Mem, sites: map<u64, u64>, armed: set<u64>)
  {
    Disjoint(sites.Keys) && Saved(base, sites) && armed <= sites.Keys && Laid(mem, base, armed)
  }

  ghost predicate SitesOk(t: Tracee, sites: map<u64, u64>, armed: set<u64>)
  {
    Layout(t.mem, t.base, sites, armed)
  }

  /** The id table is a bijection between live ids, all handed out already, and sites. */
  ghost predicate TablesOk(ids: map<Id, u64>, sites: set<u64>, next: Id)
  {
    && next >= 1
    && (forall id | id in ids :: 1 <= id < next && ids[id] in sites)
    && (forall i, j | i in ids && j in ids && ids[i] == ids[j] :: i == j)
    && (forall a | a in sites :: HasId(ids, a))
  }

  /** No store of these effects meets a window. */
  ghost predicate Avoids(effects: seq<Effect>, sites: set<u64>)
  {
    forall e, x | e in effects && x in e.stores :: !Covered(sites, x)
  }

  function EffectsOf(answer: WaitAnswer): seq<Effect>
  {
    match answer
    case NoStatus(_, effects) => effects
    case Stop(effects, _) => effects
    case Exit(_) => []
    case Kill(_) => []
  }

  ghost predicate WaitAvoids(env: WaitEnv, sites: set<u64>)
  {
    Avoids(EffectsOf(env.outer), sites) && Avoids(EffectsOf(env.inner), sites)
  }

  // ---------------------------------------------------------------------------
  // The program runs
  // ---------------------------------------------------------------------------

  lemma LayoutStores(mem: Mem, base: Mem, sites: map<u64, u64>, armed: set<u64>, stores: Mem)
    requires Layout(mem, base, sites, armed)
    requires forall x | x in stores :: !Covered(sites.Keys, x)
    ensures Layout(mem + stores, base + stores, sites, armed)
  {
    assert forall x :: Covered(armed, x) ==> Covered(sites.Keys, x);
    LaidStores(mem, base, armed, stores);
    SavedStores(base, sites, stores);
  }

  lemma {:induction false} AdvancedKeeps(t: Tracee, effects: seq<Effect>, sites: map<u64, u64>, armed: set<u64>)
    requires SitesOk(t, sites, armed) && Avoids(effects, sites.Keys)
    ensures SitesOk(t.Advanced(effects), sites, armed)
    decreases |effects|
  {
    if effects != [] && CanExecute(t.mem, Pc(t.regs)) {
      var e := effects[0];
      assert forall x | x in e.stores :: !Covered(sites.Keys, x);
      LayoutStores(t.mem, t.base, sites, armed, e.stores);
      assert forall e' | e' in effects[1..] :: e' in effects;
      AdvancedKeeps(t.Executed(e), effects[1..], sites, armed);
    }
  }

  lemma RanKeeps(t: Tracee, effects: seq<Effect>, sites: map<u64, u64>, armed: set<u64>)
    requires SitesOk(t, sites, armed) && Avoids(effects, sites.Keys)
    ensures SitesOk(t.Ran(effects), sites, armed)
  {
    if t.mode.Stepping? && |effects| > 1 {
      assert forall e | e in effects[..1] :: e in effects;
      AdvancedKeeps(t, effects[..1], sites, armed);
    } else {
      AdvancedKeeps(t, effects, sites, armed);
    }
  }

  lemma WaitedKeeps(t: Tracee, answer: WaitAnswer, sites: map<u64, u64>, armed: set<u64>)
    requires SitesOk(t, sites, armed) && Avoids(EffectsOf(answer), sites.Keys)
    ensures SitesOk(t.Waited(answer).0, sites, armed)
  {
    RanKeeps(t, EffectsOf(answer), sites, armed);
  }

  lemma {:induction false} AdvancedFrame(t: Tracee, effects: seq<Effect>)
    ensures var r := t.Advanced(effects);
            r.mode == t.mode && r.regs.hwBreak == t.regs.hwBreak && r.regs.hwWatch == t.regs.hwWatch
    decreases |effects|
  {
    if effects != [] && CanExecute(t.mem, Pc(t.regs)) {
      AdvancedFrame(t.Executed(effects[0]), effects[1..]);
    }
  }

  lemma WaitedFrame(t: Tracee, answer: WaitAnswer)
    ensures var r := t.Waited(answer).0;
            r.regs.hwBreak == t.regs.hwBreak && r.regs.hwWatch == t.regs.hwWatch
    ensures t.Waited(answer).1.Some? ==> t.Waited(answer).0.mode.Stopped? || t.Waited(answer).0.mode.Dead?
    ensures t.Waited(answer).1.Some? && t.Waited(answer).1.value.reason.STOPPED? ==>
              t.Waited(answer).0.mode.Stopped? && answer.Stop?
  {
    var effects := EffectsOf(answer);
    AdvancedFrame(t, effects);
    if |effects| > 1 {
      AdvancedFrame(t, effects[..1]);
    }
  }

  // ---------------------------------------------------------------------------
  // The debugger writes
  // ---------------------------------------------------------------------------

  lemma ArmKeeps(t: Tracee, sites: map<u64, u64>, armed: set<u64>, loc: u64)
    requires SitesOk(t, sites, armed) && loc in sites
    ensures Mapped(t.mem, loc) && SitesOk(t.PokeData(loc, TRAP), sites, armed + {loc})
  {
    SiteMapped(t, sites, armed, loc);
    LaidArm(t.mem, t.base, armed, loc);
  }

  lemma DisarmKeeps(t: Tracee, sites: map<u64, u64>, armed: set<u64>, loc: u64)
    requires SitesOk(t, sites, armed) && loc in sites
    ensures Mapped(t.mem, loc) && SitesOk(t.PokeData(loc, sites[loc]), sites, armed - {loc})
    ensures SameWindow(t.PokeData(loc, sites[loc]).mem, t.base, loc)
  {
    SiteMapped(t, sites, armed, loc);
    LaidDisarm(t.mem, t.base, armed, loc, sites[loc]);
  }

  /** A site of a sound layout can be written. */
  lemma SiteMapped(t: Tracee, sites: map<u64, u64>, armed: set<u64>, loc: u64)
    requires SitesOk(t, sites, armed) && loc in sites
    ensures Mapped(t.mem, loc)
  {
    assert Mapped(t.base, loc);
  }

  /** Which traps are in place: those of `armed`, and every other site where the word saved is itself
      the trap word. */
  lemma ArmedIff(t: Tracee, sites: map<u64, u64>, armed: set<u64>)
    requires SitesOk(t, sites, armed)
    ensures forall a | a in sites :: TrapAt(t.mem, a) <==> a in armed || sites[a] == TRAP
    ensures AllArmed(t.mem, sites.Keys) <==> forall a | a in sites && a !in armed :: sites[a] == TRAP
  {
    forall a | a in sites
      ensures TrapAt(t.mem, a) <==> a in armed || sites[a] == TRAP
    {
      if a !in armed {
        SiteMapped(t, sites, armed, a);
        FreeWindow(t.mem, t.base, armed, a);
        TrapWord(t.mem, a);
      }
    }
  }

  // ---------------------------------------------------------------------------
  // The tables
  // ---------------------------------------------------------------------------

  /** The parts of the state that no wait or step changes. */
  ghost predicate SameTables(s: State, s': State)
  {
    s'.sites == s.sites && s'.ids == s.ids && s'.next == s.next && s'.attached == s.attached
  }

  lemma StepOverTables(s: State, loc: u64, reason: StopReason, env: WaitEnv)
    requires loc in s.sites
    ensures var s' := StepOver(s, loc, reason, env).0; SameTables(s, s') && s'.pid == s.pid
  {
    var s1 := WriteMemory(s, loc, s.sites[loc], env.disarm).0;
    var (t, status) := s1.tracee.(mode := Stepping).Waited(env.inner);
    FinishMemory(s1.(tracee := t), status.Some?, loc, reason, env);
  }

  /** Whatever the kernel answers and wherever the sites lie, a wait changes no table; the process is
      known to be gone only once its end was reported. */
  lemma WaitTables(s: State, env: WaitEnv)
    ensures var (s', r) := Wait(s, env);
            && SameTables(s, s')
            && (s'.pid == s.pid || (s'.pid == 0 && r.Ok? && !r.value.reason.STOPPED?))
  {
    var (t, status) := s.tracee.Waited(env.outer);
    if status.Some? && s.pid != 0 {
      var s3 := Load(s.(tracee := t, run := status.value.reason), env.load).0;
      if Pc(s3.cache.file) in s3.sites {
        StepOverTables(s3, Pc(s3.cache.file), status.value, env);
      }
    }
  }

  lemma StepTables(s: State, env: StepEnv)
    ensures var s' := Step(s, env).0; SameTables(s, s') && (s'.pid == s.pid || s'.pid == 0)
  {
    var s1 := Load(s, env.load).0;
    var pc := Pc(s1.cache.file);
    if pc in s1.sites {
      SiteStepTables(s1, pc, env);
    } else {
      WaitTables(Stepped(s1), env.wait);
    }
  }

  lemma SiteStepTables(s: State, pc: u64, env: StepEnv)
    requires pc in s.sites
    ensures var s' := StepFromSite(s, pc, env).0; SameTables(s, s') && (s'.pid == s.pid || s'.pid == 0)
  {
    if s.pid != 0 && s.tracee.CanPoke(pc, env.disarm) && env.step {
      var (s2, r2) := Wait(Lifted(s, pc), env.wait);
      WaitTables(Lifted(s, pc), env.wait);
      FinishStepTables(s2, r2, pc, env);
    }
  }

  lemma FinishStepTables(s: State, waited: Result<StopReason>, loc: u64, env: StepEnv)
    ensures var s' := FinishStep(s, waited, loc, env).0; SameTables(s, s') && s'.pid == s.pid
  {
  }

  /** The states in which a step waits: elsewhere than at a site, and with the word of a site
      restored. */
  function Stepped(s: State): State
  {
    s.(tracee := s.tracee.(mode := Stepping), run := RUNNING)
  }

  function Lifted(s: State, loc: u64): State
    requires loc in s.sites
  {
    Stepped(s.(tracee := s.tracee.(mem := Poke(s.tracee.mem, loc, s.sites[loc]))))
  }

  // ---------------------------------------------------------------------------
  // Step-over: which sites are armed afterwards
  // ---------------------------------------------------------------------------

  /** The set of armed sites after the trap at `loc` was lifted, if it was, and written back, if it
      was. */
  function Swap(armed: set<u64>, loc: u64, lift: bool, back: bool): set<u64>
  {
    if !lift then armed else if back then armed + {loc} else armed - {loc}
  }

  /** The answers with which a lifted trap is written back: the write is granted, and a tracee that was
      stepped has stopped again. */
  predicate Rearms(env: WaitEnv)
  {
    env.rearm && (env.step ==> env.inner.Stop? || (env.inner.NoStatus? && env.inner.stopped))
  }

  lemma SwapKeeps(t: Tracee, sites: map<u64, u64>, armed: set<u64>, loc: u64, back: bool)
    requires SitesOk(t, sites, armed - {loc}) && loc in sites
    ensures Mapped(t.mem, loc)
    ensures SitesOk(if back then t.PokeData(loc, TRAP) else t, sites, Swap(armed, loc, true, back))
  {
    ArmKeeps(t, sites, armed - {loc}, loc);
    assert armed - {loc} + {loc} == armed + {loc};
  }

  /** Whatever the kernel answers, a step-over leaves every other trap as it is; its own is in place
      afterwards exactly as the answers say. */
  lemma StepOverKeeps(s: State, loc: u64, reason: StopReason, env: WaitEnv, armed: set<u64>)
    requires SitesOk(s.tracee, s.sites, armed) && loc in s.sites && s.pid != 0 && s.tracee.mode.Stopped?
    requires Avoids(EffectsOf(env.inner), s.sites.Keys)
    ensures SitesOk(StepOver(s, loc, reason, env).0.tracee, s.sites, Swap(armed, loc, env.disarm, Rearms(env)))
  {
    if env.disarm {
      DisarmKeeps(s.tracee, s.sites, armed, loc);
      var t := s.tracee.PokeData(loc, s.sites[loc]);
      if env.step {
        SteppedOverKeeps(s, t, loc, reason, env, armed);
      } else {
        SwapKeeps(t, s.sites, armed, loc, env.rearm);
      }
    } else {
      SiteMapped(s.tracee, s.sites, armed, loc);
    }
  }

  lemma SteppedOverKeeps(s: State, t: Tracee, loc: u64, reason: StopReason, env: WaitEnv, armed: set<u64>)
    requires loc in s.sites && s.pid != 0 && s.tracee.mode.Stopped? && env.disarm && env.step
    requires Mapped(s.tracee.mem, loc) && t == s.tracee.PokeData(loc, s.sites[loc])
    requires SitesOk(t, s.sites, armed - {loc}) && Avoids(EffectsOf(env.inner), s.sites.Keys)
    ensures SitesOk(StepOver(s, loc, reason, env).0.tracee, s.sites, Swap(armed, loc, true, Rearms(env)))
  {
    var (t1, status) := t.(mode := Stepping).Waited(env.inner);
    WaitedKeeps(t.(mode := Stepping), env.inner, s.sites, armed - {loc});
    SteppingStops(t.(mode := Stepping), env.inner);
    SwapKeeps(t1, s.sites, armed, loc, Rearms(env));
    FinishMemory(s.(tracee := t1), status.Some?, loc, reason, env);
  }

  /** A stepping tracee is stopped afterwards exactly when the answer is a stop. */
  lemma SteppingStops(t: Tracee, answer: WaitAnswer)
    requires t.mode.Stepping?
    ensures t.Waited(answer).0.mode.Stopped? <==> answer.Stop? || (answer.NoStatus? && answer.stopped)
    ensures t.Waited(answer).1.None? <==> answer.NoStatus?
  {
  }

  lemma RearmMemory(s: State, loc: u64, poke: bool, save: nat)
    ensures var s' := Rearm(s, loc, poke, save).0;
            && SameTables(s, s') && s'.pid == s.pid
            && (s.pid != 0 && Mapped(s.tracee.mem, loc) ==>
                  s'.tracee == (if poke && s.tracee.mode.Stopped? then s.tracee.PokeData(loc, TRAP)
                                else s.tracee).(regs := s'.tracee.regs))
  {
  }

  /** What is written back, and that no table changes. */
  lemma FinishMemory(s: State, waited: bool, loc: u64, reason: StopReason, env: WaitEnv)
    ensures var s' := FinishStepOver(s, waited, loc, reason, env).0;
            && SameTables(s, s') && s'.pid == s.pid
            && (s.pid != 0 && Mapped(s.tracee.mem, loc) ==>
                  s'.tracee == (if env.rearm && s.tracee.mode.Stopped? then s.tracee.PokeData(loc, TRAP)
                                else s.tracee).(regs := s'.tracee.regs))
  {
    RearmMemory(s, loc, env.rearm, env.save);
  }

  // ---------------------------------------------------------------------------
  // wait_on_signal
  // ---------------------------------------------------------------------------

  /** The site at which a wait steps over a breakpoint, if it does. */
  function StepsOverAt(s: State, env: WaitEnv): Option<u64>
  {
    var (t, status) := s.tracee.Waited(env.outer);
    if s.pid == 0 || status.None? || !status.value.reason.STOPPED? || !s.attached then None
    else if t.Transfers(env.load) < 4 || Pc(t.regs) !in s.sites then None
    else Some(Pc(t.regs))
  }

  /** The sites armed after a wait. */
  function WaitArmed(s: State, env: WaitEnv, armed: set<u64>): set<u64>
  {
    match StepsOverAt(s, env)
    case None => armed
    case Some(loc) => Swap(armed, loc, env.disarm, Rearms(env))
  }

  /** Whatever the kernel answers, errors included, memory after a wait is the program with the trap
      over exactly these sites. */
  lemma WaitKeeps(s: State, env: WaitEnv, armed: set<u64>)
    requires s.pid != 0 && SitesOk(s.tracee, s.sites, armed) && WaitAvoids(env, s.sites.Keys)
    ensures SitesOk(Wait(s, env).0.tracee, s.sites, WaitArmed(s, env, armed))
  {
    var (t, status) := s.tracee.Waited(env.outer);
    WaitedKeeps(s.tracee, env.outer, s.sites, armed);
    match StepsOverAt(s, env) {
      case None => WaitElsewhere(s, env);
      case Some(loc) =>
        WaitAtSite(s, env, loc);
        StepOverKeeps(Arrived(s, env), loc, status.value, env, armed);
    }
  }

  /** The state of a wait that has seen the tracee stop and loaded its registers. */
  function Arrived(s: State, env: WaitEnv): State
  {
    var t := s.tracee.Waited(env.outer).0;
    Load(s.(tracee := t, run := STOPPED), env.load).0
  }

  lemma WaitElsewhere(s: State, env: WaitEnv)
    requires StepsOverAt(s, env).None? && s.pid != 0
    ensures Wait(s, env).0.tracee == s.tracee.Waited(env.outer).0
  {
  }

  lemma WaitAtSite(s: State, env: WaitEnv, loc: u64)
    requires StepsOverAt(s, env) == Some(loc)
    ensures var s3 := Arrived(s, env);
            && s3.tracee.mode.Stopped? && s3.cache == Loaded(s3.cache, s3.tracee.regs, 4) && loc == Pc(s3.tracee.regs)
            && Wait(s, env) == StepOver(s3, loc, s.tracee.Waited(env.outer).1.value, env)
  {
  }

  /** The answers and saved words with which a wait leaves every trap in place: it lifts none, writes it
      back, or the program has the trap word there itself. */
  predicate TrapsStay(s: State, env: WaitEnv)
  {
    match StepsOverAt(s, env)
    case None => true
    case Some(loc) => !env.disarm || Rearms(env) || s.sites[loc] == TRAP
  }

  /** With every site armed before, every site is armed after a wait exactly then. */
  lemma WaitArmsIff(s: State, env: WaitEnv)
    requires s.pid != 0 && SitesOk(s.tracee, s.sites, s.sites.Keys) && WaitAvoids(env, s.sites.Keys)
    ensures AllArmed(Wait(s, env).0.tracee.mem, s.sites.Keys) <==> TrapsStay(s, env)
  {
    WaitKeeps(s, env, s.sites.Keys);
    match StepsOverAt(s, env) {
      case None => ArmedIff(Wait(s, env).0.tracee, s.sites, s.sites.Keys);
      case Some(loc) => SwapIff(Wait(s, env).0.tracee, s.sites, loc, env.disarm, Rearms(env));
    }
  }

  lemma SwapIff(t: Tracee, sites: map<u64, u64>, loc: u64, lift: bool, back: bool)
    requires loc in sites && SitesOk(t, sites, Swap(sites.Keys, loc, lift, back))
    ensures AllArmed(t.mem, sites.Keys) <==> !lift || back || sites[loc] == TRAP
  {
    ArmedIff(t, sites, Swap(sites.Keys, loc, lift, back));
  }
}
