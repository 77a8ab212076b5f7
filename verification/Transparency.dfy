/** What the traced program does while breakpoints are set, compared with what it would do alone.
    A program is a function: from registers and memory to the effect of the instruction at pc. The
    traced run applies it to the patched memory, the run alone to the program's own. */
module Transparency {
  import opened LittleEndian
  import opened Options
  import opened RegisterFile
  import opened Handles
  import opened Memory
  import opened Tracees
  import opened Protocol
  import opened Sites
  import opened StepContracts
  import opened Results

  // ---------------------------------------------------------------------------
  // Programs
  // ---------------------------------------------------------------------------

  type Program = (RegFile, Mem) -> Effect

  /** One instruction of a program in the memory the tracee has, unless it traps. */
  function Next(t: Tracee, p: Program): Tracee
  {
    if CanExecute(t.mem, Pc(t.regs)) then t.Executed(p(t.regs, t.mem)) else t
  }

  /** `n` instructions, fewer if one traps. */
  function Runs(t: Tracee, p: Program, n: nat): Tracee
  {
    if n == 0 then t else Next(Runs(t, p, n - 1), p)
  }

  /** How many of them are executed. */
  function Steps(t: Tracee, p: Program, n: nat): (k: nat)
    ensures k <= n
  {
    if n == 0 then 0
    else
      var u := Runs(t, p, n - 1);
      Steps(t, p, n - 1) + if CanExecute(u.mem, Pc(u.regs)) then 1 else 0
  }

  /** Their effects, one after the other. */
  function Trace(t: Tracee, p: Program, n: nat): seq<Effect>
  {
    if n == 0 then []
    else
      var u := Runs(t, p, n - 1);
      Trace(t, p, n - 1) + if CanExecute(u.mem, Pc(u.regs)) then [p(u.regs, u.mem)] else []
  }

  /** A tracee that follows the program is where the program takes it. */
  lemma {:induction false} TraceRuns(t: Tracee, p: Program, n: nat)
    ensures t.Advanced(Trace(t, p, n)) == Runs(t, p, n)
  {
    if n > 0 {
      TraceRuns(t, p, n - 1);
      TraceMore(t, Runs(t, p, n - 1), p, n);
    }
  }

  lemma TraceMore(t: Tracee, u: Tracee, p: Program, n: nat)
    requires n > 0 && u == Runs(t, p, n - 1) && t.Advanced(Trace(t, p, n - 1)) == u
    ensures t.Advanced(Trace(t, p, n)) == Next(u, p)
  {
    var before := Trace(t, p, n - 1);
    if CanExecute(u.mem, Pc(u.regs)) {
      AdvancedLast(t, before, p(u.regs, u.mem));
      assert Trace(t, p, n) == before + [p(u.regs, u.mem)];
    } else {
      assert Trace(t, p, n) == before;
    }
  }

  lemma {:induction false} AdvancedLast(t: Tracee, effects: seq<Effect>, e: Effect)
    ensures var u := t.Advanced(effects);
            t.Advanced(effects + [e]) == if CanExecute(u.mem, Pc(u.regs)) then u.Executed(e) else u
    decreases |effects|
  {
    if effects == [] {
      assert effects + [e] == [e] && [e][1..] == [];
    } else if CanExecute(t.mem, Pc(t.regs)) {
      AdvancedLast(t.Executed(effects[0]), effects[1..], e);
      assert (effects + [e])[1..] == effects[1..] + [e];
    }
  }

  /** The same program with no debugger's writes in its memory. */
  function Alone(t: Tracee): Tracee
  {
    t.(mem := t.base)
  }

  // ---------------------------------------------------------------------------
  // Programs that use no window as data
  // ---------------------------------------------------------------------------

  ghost predicate SameOutside(m: Mem, m': Mem, sites: set<u64>)
  {
    m.Keys == m'.Keys && forall x | x in m && !Covered(sites, x) :: m[x] == m'[x]
  }

  predicate SameFetched(m: Mem, m': Mem, pc: int)
  {
    forall x | pc <= x < pc + 4 :: x in m && x in m' && m[x] == m'[x]
  }

  /** The instruction at pc has the same effect whatever the windows hold besides the instruction
      itself: it does not load from them. */
  ghost predicate LoadsOutside(p: Program, regs: RegFile, m: Mem, sites: set<u64>)
  {
    forall m': Mem {:trigger SameOutside(m, m', sites)} |
      SameOutside(m, m', sites) && SameFetched(m, m', Pc(regs)) :: p(regs, m') == p(regs, m)
  }

  ghost predicate StoresOutside(e: Effect, sites: set<u64>)
  {
    forall x | x in e.stores :: !Covered(sites, x)
  }

  ghost predicate BlindAt(t: Tracee, p: Program, sites: set<u64>)
  {
    CanExecute(t.mem, Pc(t.regs)) ==> LoadsOutside(p, t.regs, t.mem, sites) && StoresOutside(p(t.regs, t.mem), sites)
  }

  /** The next `n` instructions of the program neither load from a window nor store into one. */
  ghost predicate Blind(t: Tracee, p: Program, sites: set<u64>, n: nat)
  {
    forall i: nat | i < n :: BlindStep(t, p, sites, i)
  }

  ghost predicate BlindStep(t: Tracee, p: Program, sites: set<u64>, i: nat)
  {
    BlindAt(Runs(t, p, i), p, sites)
  }

  // ---------------------------------------------------------------------------
  // Where the traced program stops short
  // ---------------------------------------------------------------------------

  /** Sites are addresses of instructions. */
  predicate Aligned(sites: set<u64>)
  {
    forall a | a in sites :: a % 4 == 0
  }

  /** pc is at a site, or at the instruction after one, which the trap word covers. */
  predicate InTrap(pc: u64, sites: set<u64>)
  {
    pc in sites || pc - 4 in sites
  }

  /** An aligned fetch that meets a window is at a site or right after one. */
  lemma FetchMeets(sites: set<u64>, a: u64, pc: u64, x: int)
    requires Aligned(sites) && a in sites && pc % 4 == 0 && pc <= x < pc + 4 && InWindow(a, x)
    ensures pc == a || pc == a + 4
  {
  }

  /** Elsewhere the fetch sees the program. */
  lemma FetchShows(t: Tracee, sites: map<u64, u64>, armed: set<u64>, pc: u64)
    requires SitesOk(t, sites, armed) && Aligned(armed) && pc % 4 == 0 && !InTrap(pc, armed)
    ensures forall x | pc <= x < pc + 4 :: (x in t.mem <==> x in t.base) && (x in t.mem ==> t.mem[x] == t.base[x])
  {
    forall x | pc <= x < pc + 4
      ensures !Covered(armed, x)
    {
      forall a | a in armed
        ensures !InWindow(a, x)
      {
        if InWindow(a, x) {
          FetchMeets(armed, a, pc, x);
        }
      }
    }
  }

  /** The tracee executes exactly where the program alone would, except at an armed site and at the
      instruction after it. */
  lemma ExecutesIff(t: Tracee, sites: map<u64, u64>, armed: set<u64>, pc: u64)
    requires SitesOk(t, sites, armed) && Aligned(armed)
    ensures CanExecute(t.mem, pc) <==> CanExecute(t.base, pc) && !InTrap(pc, armed)
  {
    if InTrap(pc, armed) {
      var a := if pc in armed then pc else pc - 4;
      assert TrapAt(t.mem, a);
      ArmedSiteTraps(t.mem, a);
    } else if pc % 4 == 0 {
      FetchShows(t, sites, armed, pc);
      assert FetchMapped(t.mem, pc) <==> FetchMapped(t.base, pc);
    }
  }

  // ---------------------------------------------------------------------------
  // The traced program and the program alone
  // ---------------------------------------------------------------------------

  lemma LaidOutside(t: Tracee, sites: map<u64, u64>, armed: set<u64>)
    requires SitesOk(t, sites, armed)
    ensures SameOutside(t.base, t.mem, sites.Keys)
  {
    assert forall x :: Covered(armed, x) ==> Covered(sites.Keys, x);
  }

  /** An instruction that executes in the patched memory and loads from no window has the effect it has
      alone. */
  lemma SameEffect(t: Tracee, sites: map<u64, u64>, armed: set<u64>, p: Program)
    requires SitesOk(t, sites, armed) && Aligned(armed) && CanExecute(t.mem, Pc(t.regs))
    requires LoadsOutside(p, t.regs, t.base, sites.Keys)
    ensures p(t.regs, t.mem) == p(t.regs, t.base)
  {
    var pc := Pc(t.regs);
    ExecutesIff(t, sites, armed, pc);
    FetchShows(t, sites, armed, pc);
    forall x: int | pc <= x < pc + 4
      ensures x in t.base && x in t.mem && t.base[x] == t.mem[x]
    {
      assert x in t.mem by {
        assert x - pc == 0 || x - pc == 1 || x - pc == 2 || x - pc == 3;
      }
    }
    LaidOutside(t, sites, armed);
  }

  lemma ExecutedKeeps(t: Tracee, sites: map<u64, u64>, armed: set<u64>, e: Effect)
    requires SitesOk(t, sites, armed) && StoresOutside(e, sites.Keys)
    ensures SitesOk(t.Executed(e), sites, armed) && Alone(t.Executed(e)) == Alone(t).Executed(e)
  {
    LayoutStores(t.mem, t.base, sites, armed, e.stores);
  }

  /** One instruction of both runs. */
  lemma NextAsProgram(t: Tracee, sites: map<u64, u64>, armed: set<u64>, p: Program)
    requires SitesOk(t, sites, armed) && Aligned(armed) && BlindAt(Alone(t), p, sites.Keys)
    requires CanExecute(t.mem, Pc(t.regs))
    ensures CanExecute(t.base, Pc(t.regs)) && Next(Alone(t), p) == Alone(Next(t, p))
    ensures SitesOk(Next(t, p), sites, armed) && StoresOutside(p(t.regs, t.mem), sites.Keys)
  {
    ExecutesIff(t, sites, armed, Pc(t.regs));
    SameEffect(t, sites, armed, p);
    ExecutedKeeps(t, sites, armed, p(t.regs, t.mem));
  }

  /** Until it comes to a breakpoint, a program that uses no window as data does under the debugger what
      it does alone, step by step. The traced run stops short only where the program itself traps, at an
      armed site, or right after one. */
  lemma RunsAsProgram(t: Tracee, sites: map<u64, u64>, armed: set<u64>, p: Program, n: nat)
    requires SitesOk(t, sites, armed) && Aligned(armed) && Blind(Alone(t), p, sites.Keys, n)
    ensures var u, k := Runs(t, p, n), Steps(t, p, n);
            && Runs(Alone(t), p, k) == Alone(u) && Steps(Alone(t), p, k) == k
            && SitesOk(u, sites, armed) && Avoids(Trace(t, p, n), sites.Keys)
            && (k < n ==> !CanExecute(u.base, Pc(u.regs)) || InTrap(Pc(u.regs), armed))
  {
    SameRuns(t, sites, armed, p, n, n);
    forall i: nat | 0 < i <= n
      ensures NextNoneTraps(t, p, i)
    {
      NextNone(t, sites, armed, p, i, n);
    }
    NoneTrapped(t, p, n);
    TraceAvoids(t, sites, armed, p, n);
    StopsShort(t, p, n);
    ExecutesIff(Runs(t, p, n), sites, armed, Pc(Runs(t, p, n).regs));
  }

  /** None of the first `k` instructions traps. */
  ghost predicate NoneTraps(t: Tracee, p: Program, k: nat)
  {
    Steps(t, p, k) == k
  }

  /** Two runs side by side: `u` is where the traced one is, `v` where the one alone is. */
  ghost predicate Twins(u: Tracee, v: Tracee, sites: map<u64, u64>, armed: set<u64>)
  {
    v == Alone(u) && SitesOk(u, sites, armed)
  }

  lemma {:induction false} SameRuns(t: Tracee, sites: map<u64, u64>, armed: set<u64>, p: Program, n: nat, m: nat)
    requires Twins(t, Alone(t), sites, armed) && Aligned(armed) && Blind(Alone(t), p, sites.Keys, m) && n <= m
    ensures Twins(Runs(t, p, n), Runs(Alone(t), p, Steps(t, p, n)), sites, armed)
  {
    if n > 0 {
      SameRuns(t, sites, armed, p, n - 1, m);
      SameNextRuns(t, sites, armed, p, n, m);
    }
  }

  lemma SameNextRuns(t: Tracee, sites: map<u64, u64>, armed: set<u64>, p: Program, n: nat, m: nat)
    requires 0 < n <= m && Aligned(armed) && Blind(Alone(t), p, sites.Keys, m)
    requires Twins(Runs(t, p, n - 1), Runs(Alone(t), p, Steps(t, p, n - 1)), sites, armed)
    ensures Twins(Runs(t, p, n), Runs(Alone(t), p, Steps(t, p, n)), sites, armed)
    ensures NoneTraps(Alone(t), p, Steps(t, p, n - 1)) ==> NoneTraps(Alone(t), p, Steps(t, p, n))
  {
    var k := Steps(t, p, n - 1);
    var u, v := Runs(t, p, n - 1), Runs(Alone(t), p, k);
    RunsUnfold(t, u, p, k, n);
    if CanExecute(u.mem, Pc(u.regs)) {
      BlindNow(t, v, p, sites.Keys, k, m);
      NextAsProgram(u, sites, armed, p);
      RunsMore(Alone(t), v, p, k);
    }
  }

  lemma RunsMore(t: Tracee, v: Tracee, p: Program, k: nat)
    requires v == Runs(t, p, k) && CanExecute(v.mem, Pc(v.regs))
    ensures Runs(t, p, k + 1) == Next(v, p)
    ensures NoneTraps(t, p, k) ==> NoneTraps(t, p, k + 1)
  {
  }

  ghost predicate NextNoneTraps(t: Tracee, p: Program, n: nat)
    requires n > 0
  {
    NoneTraps(Alone(t), p, Steps(t, p, n - 1)) ==> NoneTraps(Alone(t), p, Steps(t, p, n))
  }

  lemma NextNone(t: Tracee, sites: map<u64, u64>, armed: set<u64>, p: Program, n: nat, m: nat)
    requires Twins(t, Alone(t), sites, armed) && Aligned(armed) && Blind(Alone(t), p, sites.Keys, m) && 0 < n <= m
    ensures NextNoneTraps(t, p, n)
  {
    SameRuns(t, sites, armed, p, n - 1, m);
    SameNextRuns(t, sites, armed, p, n, m);
  }

  /** None of the instructions the program alone has executed by then trapped. */
  lemma {:induction false} NoneTrapped(t: Tracee, p: Program, n: nat)
    requires forall i: nat | 0 < i <= n :: NextNoneTraps(t, p, i)
    ensures NoneTraps(Alone(t), p, Steps(t, p, n))
  {
    if n > 0 {
      NoneTrapped(t, p, n - 1);
      assert NextNoneTraps(t, p, n);
    }
  }

  lemma RunsUnfold(t: Tracee, u: Tracee, p: Program, k: nat, n: nat)
    requires n > 0 && u == Runs(t, p, n - 1) && k == Steps(t, p, n - 1)
    ensures Runs(t, p, n) == Next(u, p)
    ensures Steps(t, p, n) == if CanExecute(u.mem, Pc(u.regs)) then k + 1 else k
  {
  }

  lemma BlindNow(t: Tracee, v: Tracee, p: Program, sites: set<u64>, k: nat, m: nat)
    requires Blind(Alone(t), p, sites, m) && v == Runs(Alone(t), p, k) && k < m
    ensures BlindAt(v, p, sites)
  {
    assert BlindStep(Alone(t), p, sites, k);
  }

  ghost predicate SafeStep(t: Tracee, p: Program, sites: set<u64>, i: nat)
  {
    var u := Runs(t, p, i);
    CanExecute(u.mem, Pc(u.regs)) ==> StoresOutside(p(u.regs, u.mem), sites)
  }

  lemma StepIsSafe(t: Tracee, sites: map<u64, u64>, armed: set<u64>, p: Program, i: nat)
    requires SitesOk(t, sites, armed) && Aligned(armed) && Blind(Alone(t), p, sites.Keys, i + 1)
    ensures SafeStep(t, p, sites.Keys, i)
  {
    var u := Runs(t, p, i);
    SameRuns(t, sites, armed, p, i, i + 1);
    BlindNow(t, Runs(Alone(t), p, Steps(t, p, i)), p, sites.Keys, Steps(t, p, i), i + 1);
    if CanExecute(u.mem, Pc(u.regs)) {
      NextAsProgram(u, sites, armed, p);
    }
  }

  lemma {:induction false} SafeTrace(t: Tracee, p: Program, sites: set<u64>, n: nat)
    requires forall i: nat | i < n :: SafeStep(t, p, sites, i)
    ensures Avoids(Trace(t, p, n), sites)
  {
    if n > 0 {
      SafeTrace(t, p, sites, n - 1);
      assert SafeStep(t, p, sites, n - 1);
    }
  }

  lemma TraceAvoids(t: Tracee, sites: map<u64, u64>, armed: set<u64>, p: Program, n: nat)
    requires SitesOk(t, sites, armed) && Aligned(armed) && Blind(Alone(t), p, sites.Keys, n)
    ensures Avoids(Trace(t, p, n), sites.Keys)
  {
    forall i: nat | i < n
      ensures SafeStep(t, p, sites.Keys, i)
    {
      StepIsSafe(t, sites, armed, p, i);
    }
    SafeTrace(t, p, sites.Keys, n);
  }

  lemma {:induction false} StopsShort(t: Tracee, p: Program, n: nat)
    ensures Steps(t, p, n) < n ==> !CanExecute(Runs(t, p, n).mem, Pc(Runs(t, p, n).regs))
  {
    if n > 0 {
      StopsShort(t, p, n - 1);
    }
  }

  // ---------------------------------------------------------------------------
  // continue
  // ---------------------------------------------------------------------------

  /** The tracee as a step-over or a step of the debugger sees it: with the saved word put back if pc is
      at a site. */
  function Shown(t: Tracee, sites: map<u64, u64>): Tracee
  {
    t.(mem := FetchedFrom(t.mem, sites, Pc(t.regs)))
  }

  lemma TraceOne(t: Tracee, p: Program, j: nat)
    requires j <= 1
    ensures Trace(t, p, j) == if j == 1 && CanExecute(t.mem, Pc(t.regs)) then [p(t.regs, t.mem)] else []
  {
    assert Runs(t, p, 0) == t && Trace(t, p, 0) == [];
  }

  lemma ShownKeeps(t: Tracee, sites: map<u64, u64>, armed: set<u64>)
    requires SitesOk(t, sites, armed)
    ensures SitesOk(Shown(t, sites), sites, armed - {Pc(t.regs)})
    ensures Shown(t, sites).base == t.base && Shown(t, sites).regs == t.regs
  {
    var pc := Pc(t.regs);
    if pc in sites {
      DisarmKeeps(t, sites, armed, pc);
    } else {
      assert armed - {pc} == armed;
    }
  }

  /** One instruction of the program, or none, where the debugger shows it to the tracee: its effect is
      that of the program alone. */
  lemma OneAsProgram(t: Tracee, sites: map<u64, u64>, armed: set<u64>, p: Program, j: nat)
    requires SitesOk(t, sites, armed) && Aligned(armed) && BlindAt(Alone(t), p, sites.Keys) && j <= 1
    requires Pc(t.regs) in sites || !InTrap(Pc(t.regs), armed)
    ensures var effects := Trace(Shown(t, sites), p, j);
            var e := StepEffect(Shown(t, sites).mem, Pc(t.regs), effects);
            && Avoids(effects, sites.Keys)
            && Runs(Alone(t), p, j)
               == Alone(t).(mem := t.base + StoresOf(e), base := t.base + StoresOf(e), regs := RegsAfter(t.regs, e))
            && e == StepEffect(t.base, Pc(t.regs), effects)
  {
    OneSeen(t, sites, armed, p);
    OneRuns(t, Shown(t, sites), p, sites.Keys, j);
  }

  lemma OneSeen(t: Tracee, sites: map<u64, u64>, armed: set<u64>, p: Program)
    requires SitesOk(t, sites, armed) && Aligned(armed) && BlindAt(Alone(t), p, sites.Keys)
    requires Pc(t.regs) in sites || !InTrap(Pc(t.regs), armed)
    ensures SameNext(t, Shown(t, sites), p, sites.Keys)
  {
    var u, pc := Shown(t, sites), Pc(t.regs);
    ShownKeeps(t, sites, armed);
    NotNextToSite(sites, armed, pc);
    ExecutesIff(u, sites, armed - {pc}, pc);
    if CanExecute(u.mem, pc) {
      SameEffect(u, sites, armed - {pc}, p);
    }
  }

  /** The next instruction is the one the program executes alone. */
  ghost predicate SameNext(t: Tracee, u: Tracee, p: Program, sites: set<u64>)
  {
    && u.regs == t.regs
    && (CanExecute(u.mem, Pc(t.regs)) <==> CanExecute(t.base, Pc(t.regs)))
    && (CanExecute(u.mem, Pc(t.regs)) ==>
          p(t.regs, u.mem) == p(t.regs, t.base) && StoresOutside(p(t.regs, u.mem), sites))
  }

  lemma OneRuns(t: Tracee, u: Tracee, p: Program, sites: set<u64>, j: nat)
    requires SameNext(t, u, p, sites) && j <= 1
    ensures var effects := Trace(u, p, j);
            var e := StepEffect(u.mem, Pc(t.regs), effects);
            && Avoids(effects, sites)
            && Runs(Alone(t), p, j)
               == Alone(t).(mem := t.base + StoresOf(e), base := t.base + StoresOf(e), regs := RegsAfter(t.regs, e))
            && e == StepEffect(t.base, Pc(t.regs), effects)
  {
    TraceOne(u, p, j);
    if j == 1 && CanExecute(u.mem, Pc(t.regs)) {
      OneExecuted(t, p);
    } else {
      NoneExecuted(t, p, j);
    }
  }

  lemma OneExecuted(t: Tracee, p: Program)
    requires CanExecute(t.base, Pc(t.regs))
    ensures var e := p(t.regs, t.base);
            Runs(Alone(t), p, 1)
            == Alone(t).(mem := t.base + e.stores, base := t.base + e.stores, regs := RegsAfter(t.regs, Some(e)))
  {
    RunsOne(Alone(t), p);
  }

  lemma NoneExecuted(t: Tracee, p: Program, j: nat)
    requires j == 0 || !CanExecute(t.base, Pc(t.regs))
    ensures Runs(Alone(t), p, j) == Alone(t) && t.base + map[] == t.base
  {
  }

  /** The instruction after an armed site is not at a site. */
  lemma NotNextToSite(sites: map<u64, u64>, armed: set<u64>, pc: u64)
    requires Disjoint(sites.Keys) && armed <= sites.Keys && (pc in sites || !InTrap(pc, armed))
    ensures !InTrap(pc, armed - {pc})
  {
  }

  /** `continue`: a resume of a stopped tracee and the wait that follows, of a program that uses no
      window as data. With every call granted, the stop is reported. Registers and cache then show what
      the program alone has after the same instructions; so does the program's memory, but for the stores
      of the instruction at a breakpoint, which the wait steps over. */
  lemma ContinueContract(s: State, ok: bool, env: WaitEnv, armed: set<u64>, p: Program, n: nat, over: nat)
    requires s.pid != 0 && s.attached && s.tracee.mode.Stopped?
    requires SitesOk(s.tracee, s.sites, armed) && Aligned(armed)
    requires Blind(Alone(s.tracee), p, s.sites.Keys, n + 1) && over <= 1
    requires EffectsOf(env.outer) == Trace(s.tracee, p, n)
    requires EffectsOf(env.inner) == Trace(Shown(Runs(s.tracee, p, n), s.sites), p, over)
    ensures var (s1, r1) := Resume(s, ok);
            var (s2, r2) := Wait(s1, env);
            && (r1.Ok? <==> ok)
            && (ok && Granted(env) ==> r2 == Ok(StopReason(STOPPED, env.outer.signal)))
            && (ok && r2.Ok? && r2.value.reason.STOPPED? ==>
                  var alone := Runs(Alone(s.tracee), p, Steps(s.tracee, p, n));
                  var at := Pc(alone.regs);
                  && s2.tracee.regs == alone.regs && Coherent(s2)
                  && s2.tracee.base == (if at in s.sites then Runs(alone, p, over).mem else alone.mem)
                  && SitesOk(s2.tracee, s2.sites, if at in s.sites then armed + {at} else armed))
  {
    RunsAsProgram(s.tracee, s.sites, armed, p, n);
    BlindNow(s.tracee, Alone(Runs(s.tracee, p, n)), p, s.sites.Keys, Steps(s.tracee, p, n), n + 1);
    if ok {
      if Granted(env) {
        SitesMapped(s.tracee, s.sites, armed);
        ResumedWait(s, env);
      }
      ContinueStops(s, env, armed, p, n, over, Runs(s.tracee, p, n));
    }
  }

  lemma ContinueStops(s: State, env: WaitEnv, armed: set<u64>, p: Program, n: nat, over: nat, u: Tracee)
    requires s.pid != 0 && s.attached && s.tracee.mode.Stopped?
    requires SitesOk(s.tracee, s.sites, armed) && Aligned(armed) && over <= 1
    requires u == Runs(s.tracee, p, n) && SitesOk(u, s.sites, armed) && BlindAt(Alone(u), p, s.sites.Keys)
    requires EffectsOf(env.outer) == Trace(s.tracee, p, n) && Avoids(EffectsOf(env.outer), s.sites.Keys)
    requires EffectsOf(env.inner) == Trace(Shown(u, s.sites), p, over)
    ensures var (s2, r2) := Wait(Resume(s, true).0, env);
            var at := Pc(u.regs);
            r2.Ok? && r2.value.reason.STOPPED? ==>
              && s2.tracee.regs == u.regs && Coherent(s2) && s2.sites == s.sites
              && s2.tracee.base == (if at in s.sites then Runs(Alone(u), p, over).mem else u.base)
              && SitesOk(s2.tracee, s.sites, if at in s.sites then armed + {at} else armed)
  {
    var s1 := Resume(s, true).0;
    var at := Pc(u.regs);
    if Wait(s1, env).1.Ok? && Wait(s1, env).1.value.reason.STOPPED? {
      RunningStop(s.tracee, env.outer, p, n);
      WaitedFrame(s1.tracee, env.outer);
      WaitRegisters(s1, env);
      WaitTables(s1, env);
      if at in s.sites {
        OneAsProgram(u, s.sites, armed, p, over);
        ContinueAtSite(s1, env, armed, u);
      } else {
        ContinueElsewhere(s1, env, armed, u);
      }
    }
  }

  /** Where a resumed tracee that follows the program stops. */
  lemma RunningStop(t: Tracee, answer: WaitAnswer, p: Program, n: nat)
    requires EffectsOf(answer) == Trace(t, p, n)
    ensures answer.Stop? ==> t.(mode := Running).Waited(answer).0 == Runs(t, p, n).(mode := Stopped)
  {
    TraceRuns(t, p, n);
    SameAdvance(t, Running, Trace(t, p, n));
  }

  /** The mode plays no part in what is executed. */
  lemma {:induction false} SameAdvance(t: Tracee, mode: Mode, effects: seq<Effect>)
    ensures t.(mode := mode).Advanced(effects) == t.Advanced(effects).(mode := mode)
    decreases |effects|
  {
    if effects != [] && CanExecute(t.mem, Pc(t.regs)) {
      SameAdvance(t.Executed(effects[0]), mode, effects[1..]);
    }
  }

  /** A wait that reports a stop at a site has stepped over it. */
  lemma ContinueAtSite(s: State, env: WaitEnv, armed: set<u64>, u: Tracee)
    requires s.pid != 0 && s.attached && SitesOk(s.tracee, s.sites, armed) && WaitAvoids(env, s.sites.Keys)
    requires s.tracee.Waited(env.outer).0 == u.(mode := Stopped) && Pc(u.regs) in s.sites
    requires Wait(s, env).1.Ok? && Wait(s, env).1.value.reason.STOPPED?
    ensures var t := Wait(s, env).0.tracee;
            && SitesOk(t, s.sites, armed + {Pc(u.regs)})
            && t.base == u.base + StoresOf(StepEffect(u.base, Pc(u.regs), EffectsOf(env.inner)))
  {
    SitesMapped(s.tracee, s.sites, armed);
    WaitStopsIff(s, env);
    WaitContract(s, env, armed);
  }

  lemma ContinueElsewhere(s: State, env: WaitEnv, armed: set<u64>, u: Tracee)
    requires s.attached && SitesOk(u, s.sites, armed)
    requires s.tracee.Waited(env.outer).0 == u.(mode := Stopped) && Pc(u.regs) !in s.sites
    requires Wait(s, env).1.Ok? && Wait(s, env).1.value.reason.STOPPED?
    ensures var t := Wait(s, env).0.tracee; SitesOk(t, s.sites, armed) && t.base == u.base
  {
    WaitRegisters(s, env);
  }

  // ---------------------------------------------------------------------------
  // step
  // ---------------------------------------------------------------------------

  /** The effects of a step are the program's: of the instruction at pc and, where it lands on a site, of
      the one there. */
  predicate StepFollows(s: State, env: StepEnv, p: Program)
  {
    var t := Shown(s.tracee, s.sites);
    var u := Next(t, p);
    && EffectsOf(env.wait.outer) == Trace(t, p, 1)
    && EffectsOf(env.wait.inner) == if Pc(u.regs) in s.sites then Trace(Shown(u, s.sites), p, 1) else []
  }

  /** What a step comes to for the program alone: one instruction; where that lands on a site, the stores
      of the one there too; and pc put back if the step started at a site. */
  function AloneStep(t: Tracee, p: Program, sites: set<u64>): Tracee
  {
    var u := Next(t, p);
    var m := if Pc(u.regs) in sites then Next(u, p).mem else u.mem;
    t.(mem := m, base := m, regs := if Pc(t.regs) in sites then SetPc(u.regs, Pc(t.regs)) else u.regs)
  }

  /** A step that reports a stop leaves registers and the program's memory as that. */
  lemma StepAsProgram(s: State, env: StepEnv, armed: set<u64>, p: Program)
    requires s.pid != 0 && s.attached && SitesOk(s.tracee, s.sites, armed) && Aligned(armed)
    requires Pc(s.tracee.regs) in s.sites || !InTrap(Pc(s.tracee.regs), armed)
    requires Blind(Alone(s.tracee), p, s.sites.Keys, 2) && StepFollows(s, env, p)
    ensures var (s', r) := Step(s, env);
            r.Ok? && r.value.reason.STOPPED? ==>
              Coherent(s') && Alone(s'.tracee) == AloneStep(Alone(s.tracee), p, s.sites.Keys)
  {
    var t, pc := s.tracee, Pc(s.tracee.regs);
    var e := StepEffect(FetchedFrom(t.mem, s.sites, pc), pc, EffectsOf(env.wait.outer));
    BlindFirst(Alone(t), p, s.sites.Keys);
    OneAsProgram(t, s.sites, armed, p, 1);
    RunsOne(Alone(t), p);
    ShownNext(t, s.sites, armed, p);
    LandedAsProgram(s, env, armed, p, Next(Shown(t, s.sites), p));
    StepRegisters(s, env);
    StepContract(s, env, armed);
    if Step(s, env).1.Ok? {
      StepUnfolds(s, env);
    }
  }

  lemma BlindFirst(t: Tracee, p: Program, sites: set<u64>)
    requires Blind(t, p, sites, 2)
    ensures BlindAt(t, p, sites) && BlindAt(Next(t, p), p, sites)
  {
    assert BlindStep(t, p, sites, 0) && BlindStep(t, p, sites, 1);
    RunsOne(t, p);
  }

  lemma ShownNext(t: Tracee, sites: map<u64, u64>, armed: set<u64>, p: Program)
    requires SitesOk(t, sites, armed) && Aligned(armed) && BlindAt(Alone(t), p, sites.Keys)
    requires Pc(t.regs) in sites || !InTrap(Pc(t.regs), armed)
    ensures var u := Next(Shown(t, sites), p);
            SitesOk(u, sites, armed - {Pc(t.regs)}) && Alone(u) == Next(Alone(t), p)
  {
    var v := Shown(t, sites);
    ShownKeeps(t, sites, armed);
    OneSeen(t, sites, armed, p);
    if CanExecute(v.mem, Pc(v.regs)) {
      ExecutedKeeps(v, sites, armed - {Pc(t.regs)}, p(v.regs, v.mem));
    }
  }

  /** The landing, at a site or not. */
  lemma LandedAsProgram(s: State, env: StepEnv, armed: set<u64>, p: Program, u: Tracee)
    requires u == Next(Shown(s.tracee, s.sites), p) && StepFollows(s, env, p)
    requires SitesOk(s.tracee, s.sites, armed) && SitesOk(u, s.sites, armed - {Pc(s.tracee.regs)}) && Aligned(armed)
    requires BlindAt(Alone(u), p, s.sites.Keys)
    ensures Avoids(EffectsOf(env.wait.inner), s.sites.Keys)
    ensures Pc(u.regs) in s.sites ==>
              Next(Alone(u), p).mem == u.base + StoresOf(StepEffect(u.base, Pc(u.regs), EffectsOf(env.wait.inner)))
  {
    if Pc(u.regs) in s.sites {
      OneAsProgram(u, s.sites, armed - {Pc(s.tracee.regs)}, p, 1);
      RunsOne(Alone(u), p);
    }
  }

  /** The step leads from one state to the other and reports a stop. */
  ghost predicate StepTo(s: State, env: StepEnv, s': State)
  {
    var (s1, r) := Step(s, env);
    s1 == s' && r.Ok? && r.value.reason.STOPPED?
  }

  ghost predicate PathStep(states: seq<State>, envs: seq<StepEnv>, i: nat)
    requires i < |envs| < |states|
  {
    StepTo(states[i], envs[i], states[i + 1])
  }

  /** A sequence of such steps and the states they lead through. */
  ghost predicate Path(states: seq<State>, envs: seq<StepEnv>)
  {
    |states| == |envs| + 1 && forall i: nat | i < |envs| :: PathStep(states, envs, i)
  }

  /** The same number of steps of the program alone. */
  ghost predicate AlonePath(alones: seq<Tracee>, p: Program, sites: set<u64>, n: nat)
  {
    |alones| == n + 1 && forall i: nat | i < n :: AloneTo(alones, p, sites, i)
  }

  ghost predicate AloneTo(alones: seq<Tracee>, p: Program, sites: set<u64>, i: nat)
    requires i + 1 < |alones|
  {
    alones[i + 1] == AloneStep(alones[i], p, sites)
  }

  /** Step `i` of a sequence of steps is of a program that uses no window as data there. */
  ghost predicate FollowsAt(states: seq<State>, envs: seq<StepEnv>, alones: seq<Tracee>, p: Program, i: nat)
    requires i < |envs| < |states| && i < |alones|
  {
    StepFollows(states[i], envs[i], p) && Blind(alones[i], p, states[0].sites.Keys, 2)
  }

  ghost predicate AllFollow(states: seq<State>, envs: seq<StepEnv>, alones: seq<Tracee>, p: Program)
    requires |envs| < |states| && |envs| < |alones|
  {
    forall i: nat | i < |envs| :: FollowsAt(states, envs, alones, p, i)
  }

  /** After steps from a site of `s`: pc is still there, every site is armed, and registers and the
      program's memory are those of `alone`. */
  ghost predicate StepsDone(s: State, s': State, alone: Tracee)
  {
    && Alone(s'.tracee) == alone && Pc(s'.tracee.regs) == Pc(s.tracee.regs)
    && SitesOk(s'.tracee, s.sites, s.sites.Keys) && SameTables(s, s') && s'.pid == s.pid
  }

  /** The first step is from a site, every site being armed. */
  ghost predicate AtSite(s: State)
  {
    && s.pid != 0 && s.attached && Pc(s.tracee.regs) in s.sites
    && SitesOk(s.tracee, s.sites, s.sites.Keys) && Aligned(s.sites.Keys)
  }

  /** Steps from a site, however many, execute the instruction there again and again: each time with the
      registers and the memory the last one left, but with pc back at the site. */
  lemma {:induction false} RepeatedSteps(states: seq<State>, envs: seq<StepEnv>, alones: seq<Tracee>, p: Program,
                                         n: nat)
    requires Path(states, envs) && AtSite(states[0]) && n <= |envs|
    requires AlonePath(alones, p, states[0].sites.Keys, |envs|) && alones[0] == Alone(states[0].tracee)
    requires AllFollow(states, envs, alones, p)
    ensures StepsDone(states[0], states[n], alones[n])
  {
    if n > 0 {
      RepeatedSteps(states, envs, alones, p, n - 1);
      RepeatedNext(states, envs, alones, p, n - 1);
    }
  }

  lemma RepeatedNext(states: seq<State>, envs: seq<StepEnv>, alones: seq<Tracee>, p: Program, n: nat)
    requires Path(states, envs) && AtSite(states[0]) && n < |envs|
    requires AlonePath(alones, p, states[0].sites.Keys, |envs|) && AllFollow(states, envs, alones, p)
    requires StepsDone(states[0], states[n], alones[n])
    ensures StepsDone(states[0], states[n + 1], alones[n + 1])
  {
    assert FollowsAt(states, envs, alones, p, n);
    assert PathStep(states, envs, n) && AloneTo(alones, p, states[0].sites.Keys, n);
    OneStepMore(states[0], states[n], states[n + 1], alones[n], envs[n], p);
  }

  lemma OneStepMore(s: State, s1: State, s2: State, alone: Tracee, env: StepEnv, p: Program)
    requires AtSite(s) && StepTo(s1, env, s2) && StepsDone(s, s1, alone)
    requires StepFollows(s1, env, p) && Blind(alone, p, s.sites.Keys, 2)
    ensures StepsDone(s, s2, AloneStep(alone, p, s.sites.Keys))
  {
    StepAgain(s1, env, p);
  }

  lemma StepAgain(s: State, env: StepEnv, p: Program)
    requires s.pid != 0 && s.attached && SitesOk(s.tracee, s.sites, s.sites.Keys) && Aligned(s.sites.Keys)
    requires Pc(s.tracee.regs) in s.sites
    requires Blind(Alone(s.tracee), p, s.sites.Keys, 2) && StepFollows(s, env, p)
    ensures var (s', r) := Step(s, env);
            r.Ok? && r.value.reason.STOPPED? ==>
              && Alone(s'.tracee) == AloneStep(Alone(s.tracee), p, s.sites.Keys)
              && Pc(s'.tracee.regs) == Pc(s.tracee.regs)
              && SitesOk(s'.tracee, s'.sites, s.sites.Keys) && SameTables(s, s') && s'.pid == s.pid
  {
    StepAsProgram(s, env, s.sites.Keys, p);
    StepAvoids(s, env, s.sites.Keys, p);
    StepTables(s, env);
    StepStaysArmed(s, env);
    StepStays(s, env);
  }

  /** A step from a site leaves every site armed, and pc there. */
  lemma StepStaysArmed(s: State, env: StepEnv)
    requires s.pid != 0 && s.attached && SitesOk(s.tracee, s.sites, s.sites.Keys) && WaitAvoids(env.wait, s.sites.Keys)
    ensures var (s', r) := Step(s, env);
            r.Ok? && r.value.reason.STOPPED? ==> SitesOk(s'.tracee, s.sites, s.sites.Keys)
  {
    StepContract(s, env, s.sites.Keys);
    assert SitesOk(Step(s, env).0.tracee, s.sites, StepArmed(s, env, s.sites.Keys)) ==>
        StepArmed(s, env, s.sites.Keys) <= s.sites.Keys;
  }

  lemma StepStays(s: State, env: StepEnv)
    requires s.attached && Pc(s.tracee.regs) in s.sites
    ensures var (s', r) := Step(s, env);
            r.Ok? && r.value.reason.STOPPED? ==> Pc(s'.tracee.regs) == Pc(s.tracee.regs) && s'.pid == s.pid
  {
    var t, pc := s.tracee, Pc(s.tracee.regs);
    StepRegisters(s, env);
    PcAfterSet(RegsAfter(t.regs, StepEffect(FetchedFrom(t.mem, s.sites, pc), pc, EffectsOf(env.wait.outer))), pc);
  }

  lemma StepAvoids(s: State, env: StepEnv, armed: set<u64>, p: Program)
    requires SitesOk(s.tracee, s.sites, armed) && Aligned(armed)
    requires Pc(s.tracee.regs) in s.sites || !InTrap(Pc(s.tracee.regs), armed)
    requires Blind(Alone(s.tracee), p, s.sites.Keys, 2) && StepFollows(s, env, p)
    ensures WaitAvoids(env.wait, s.sites.Keys)
  {
    BlindFirst(Alone(s.tracee), p, s.sites.Keys);
    OneAsProgram(s.tracee, s.sites, armed, p, 1);
    ShownNext(s.tracee, s.sites, armed, p);
    LandedAsProgram(s, env, armed, p, Next(Shown(s.tracee, s.sites), p));
  }

  // ---------------------------------------------------------------------------
  // Programs that do load from a window
  // ---------------------------------------------------------------------------

  const X0_PLACE := Place(Gpr, 0, 8)

  /** An instruction that loads the byte at an address into x0, as from a literal pool. */
  function LoadByte(address: int): Program
  {
    (regs: RegFile, m: Mem) => LoadEffect(regs, if address in m then m[address] else 0)
  }

  function LoadEffect(regs: RegFile, b: byte): Effect
  {
    var after := SetPc(PutField(regs, X0_PLACE, FromNat(b, 8)), (Pc(regs) + 4) % 0x1_0000_0000_0000_0000);
    Effect(after.gpr, after.fpr, map[])
  }

  function X0(regs: RegFile): nat
  {
    ToNat(Field(regs, X0_PLACE))
  }

  lemma LoadedX0(t: Tracee, b: byte)
    ensures X0(t.Executed(LoadEffect(t.regs, b)).regs) == b
  {
    var loaded := PutField(t.regs, X0_PLACE, FromNat(b, 8));
    var pc: u64 := (Pc(t.regs) + 4) % 0x1_0000_0000_0000_0000;
    FieldAfterPut(t.regs, X0_PLACE, FromNat(b, 8), X0_PLACE);
    FieldAfterPut(loaded, PC_PLACE, FromNat(pc, 8), X0_PLACE);
    WordBack(b);
  }

  /** A program that loads from the window of an armed site sees the trap: it reads what it would read
      alone exactly where it has the trap's own byte. The word after a breakpoint on the last
      instruction before a literal pool reads as zero. */
  lemma LoadSeesTrap(t: Tracee, sites: map<u64, u64>, armed: set<u64>, a: u64, i: nat)
    requires SitesOk(t, sites, armed) && Aligned(armed) && a in armed && i < WORD
    requires CanExecute(t.mem, Pc(t.regs))
    ensures a + i in t.base
    ensures X0(Runs(t, LoadByte(a + i), 1).regs) == TrapByte(i)
    ensures X0(Runs(Alone(t), LoadByte(a + i), 1).regs) == t.base[a + i]
    ensures Runs(t, LoadByte(a + i), 1).regs == Runs(Alone(t), LoadByte(a + i), 1).regs
            <==> t.base[a + i] == TrapByte(i)
  {
    ExecutesIff(t, sites, armed, Pc(t.regs));
    assert TrapAt(t.mem, a) && InWindow(a, a + i);
    RunsOne(t, LoadByte(a + i));
    RunsOne(Alone(t), LoadByte(a + i));
    LoadedX0(t, TrapByte(i));
    LoadedX0(Alone(t), t.base[a + i]);
  }

  lemma RunsOne(t: Tracee, p: Program)
    ensures Runs(t, p, 1) == Next(t, p)
  {
    assert Runs(t, p, 0) == t;
  }
}
