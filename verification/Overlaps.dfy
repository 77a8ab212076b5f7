/** Undoing breakpoints, and what overlapping site windows do (src/breakpoints.cpp:36-87, 144-155,
    src/process.cpp:125-154). */
module Overlaps {
  import opened LittleEndian
  import opened Handles
  import opened Memory
  import opened Tracees
  import opened Protocol
  import opened Sites

  // ---------------------------------------------------------------------------
  // Disjoint windows: any order of removal restores the program
  // ---------------------------------------------------------------------------

  /** The saved words written back in some order; the kernel may refuse some of the writes. */
  function RestoreIn(t: Tracee, sites: map<u64, u64>, order: seq<u64>, granted: set<u64>): Tracee
    decreases |order|
  {
    if order == [] then t
    else
      var a := order[0];
      RestoreIn(if a in sites && t.CanPoke(a, a in granted) then t.PokeData(a, sites[a]) else t,
                sites, order[1..], granted)
  }

  /** The order visits every site. */
  ghost predicate Visits(order: seq<u64>, sites: map<u64, u64>)
  {
    forall a | a in sites :: a in order
  }

  /** Restoring every site of a stopped tracee, in any order, gives back the program's memory, if the kernel
      grants every write; otherwise exactly the sites it refused keep their traps. */
  lemma AnyOrderRestores(t: Tracee, sites: map<u64, u64>, armed: set<u64>, order: seq<u64>, granted: set<u64>)
    requires SitesOk(t, sites, armed) && t.mode.Stopped? && Visits(order, sites)
    ensures SitesOk(RestoreIn(t, sites, order, granted), sites, armed - granted)
    ensures armed <= granted ==> RestoreIn(t, sites, order, granted) == t.(mem := t.base)
  {
    RestoreSteps(t, sites, armed, order, granted);
    assert StillArmed(armed, order, granted) == armed - granted;
    if armed <= granted {
      var none: set<u64> := {};
      assert armed - granted == none;
      NoTrapsLeft(RestoreIn(t, sites, order, granted).mem, t.base);
    }
  }

  lemma NoTrapsLeft(mem: Mem, base: Mem)
    requires Laid(mem, base, {})
    ensures mem == base
  {
    var none: set<u64> := {};
    ArmedIsOverlay(mem, base, none);
    forall x | x in base
      ensures !Covered(none, x)
    {
    }
    assert Overlay(base, none) == base;
  }

  /** The sites that keep their traps: those not visited, and those where the write was refused. */
  function StillArmed(armed: set<u64>, order: seq<u64>, granted: set<u64>): set<u64>
  {
    set a | a in armed && !(a in order && a in granted)
  }

  /** Each site visited is armed no longer if the write is granted, whatever was visited before it. */
  lemma {:induction false} RestoreSteps(t: Tracee, sites: map<u64, u64>, armed: set<u64>, order: seq<u64>,
                                        granted: set<u64>)
    requires SitesOk(t, sites, armed) && t.mode.Stopped?
    ensures var t' := RestoreIn(t, sites, order, granted);
            t'.base == t.base && t' == t.(mem := t'.mem) && SitesOk(t', sites, StillArmed(armed, order, granted))
    decreases |order|
  {
    if order == [] {
      assert StillArmed(armed, order, granted) == armed;
    } else {
      var a, rest := order[0], order[1..];
      var lifts := a in sites && a in granted;
      var left := if lifts then armed - {a} else armed;
      LeftAfterOne(armed, sites.Keys, order, granted);
      if lifts {
        DisarmKeeps(t, sites, armed, a);
      }
      RestoreSteps(if lifts then t.PokeData(a, sites[a]) else t, sites, left, rest, granted);
    }
  }

  lemma LeftAfterOne(armed: set<u64>, sites: set<u64>, order: seq<u64>, granted: set<u64>)
    requires order != [] && armed <= sites
    ensures StillArmed(armed, order, granted)
            == StillArmed(if order[0] in sites && order[0] in granted then armed - {order[0]} else armed,
                          order[1..], granted)
  {
  }

  // ---------------------------------------------------------------------------
  // The destructor
  // ---------------------------------------------------------------------------

  /** What `~Process` leaves to the tracee: sites are restored first, refusals ignored; only then is a
      running tracee stopped. */
  function Destroyed(s: State, order: seq<u64>, granted: set<u64>, stop: WaitAnswer): State
  {
    if s.pid == 0 then s
    else
      var s1 := s.(tracee := RestoreIn(s.tracee, s.sites, order, granted), sites := map[], ids := map[]);
      if s.attached && s.run.RUNNING? then s1.(tracee := s1.tracee.Waited(stop).0) else s1
  }

  /** The destructor gives a stopped tracee its memory back, but for the writes the kernel refuses; a running
      one keeps every trap, for the restoring writes come before the stop and are refused. */
  lemma DestructorRestoresStopped(s: State, armed: set<u64>, order: seq<u64>, granted: set<u64>, stop: WaitAnswer)
    requires s.pid != 0 && SitesOk(s.tracee, s.sites, armed) && Visits(order, s.sites)
    requires Avoids(EffectsOf(stop), s.sites.Keys)
    ensures var t := Destroyed(s, order, granted, stop).tracee;
            && SitesOk(t, s.sites, if s.tracee.mode.Stopped? then armed - granted else armed)
            && (s.tracee.mode.Stopped? && armed <= granted ==> t.mem == t.base == s.tracee.base)
  {
    if s.tracee.mode.Stopped? {
      AnyOrderRestores(s.tracee, s.sites, armed, order, granted);
      RestoreOnlyMemory(s.tracee, s.sites, order, granted);
    } else {
      RefusedRestore(s.tracee, s.sites, order, granted);
      WaitedKeeps(s.tracee, stop, s.sites, armed);
    }
  }

  /** The destructor of a debugger that still has a process empties both tables and changes nothing else of
      its own; only a running attached tracee is waited for, and it is then stopped if the wait shows a
      stop. Without a process nothing is done. */
  lemma DestructorStops(s: State, order: seq<u64>, granted: set<u64>, stop: WaitAnswer)
    ensures var s' := Destroyed(s, order, granted, stop);
            var waits := s.pid != 0 && s.attached && s.run.RUNNING?;
            && (s.pid == 0 ==> s' == s)
            && (s.pid != 0 ==> s' == s.(tracee := s'.tracee, sites := map[], ids := map[]))
            && (!waits ==> s'.tracee.mode == s.tracee.mode && s'.tracee.regs == s.tracee.regs)
            && (waits && (s.tracee.mode.Running? || s.tracee.mode.Stepping?) && stop.Stop? ==>
                  s'.tracee.mode.Stopped?)
  {
    RestoreOnlyMemory(s.tracee, s.sites, order, granted);
  }

  lemma {:induction false} RestoreOnlyMemory(t: Tracee, sites: map<u64, u64>, order: seq<u64>, granted: set<u64>)
    ensures var t' := RestoreIn(t, sites, order, granted);
            t' == t.(mem := t'.mem)
    decreases |order|
  {
    if order != [] {
      var a := order[0];
      RestoreOnlyMemory(if a in sites && t.CanPoke(a, a in granted) then t.PokeData(a, sites[a]) else t,
                        sites, order[1..], granted);
    }
  }

  lemma {:induction false} RefusedRestore(t: Tracee, sites: map<u64, u64>, order: seq<u64>, granted: set<u64>)
    requires !t.mode.Stopped?
    ensures RestoreIn(t, sites, order, granted) == t
    decreases |order|
  {
    if order != [] {
      RefusedRestore(t, sites, order[1..], granted);
    }
  }

  // ---------------------------------------------------------------------------
  // A new site next to an old one
  // ---------------------------------------------------------------------------

  /** Arming a new site destroys the trap of another exactly when the other lies up to three bytes
      below or one to five bytes above; of two instructions, when it is the next one. */
  lemma NewSiteKeepsTrapIff(m: Mem, t: u64, a: u64)
    requires BrkAt(m, t) && t != a
    ensures BrkAt(Poke(m, a, TRAP), t) <==> !(a - 3 <= t <= a - 1) && !(a + 1 <= t <= a + 5)
    ensures (t - a) % 4 == 0 ==> (BrkAt(Poke(m, a, TRAP), t) <==> t != a + 4)
  {
    TrapPoked(m, a);
    OffsetKeepsBrk(m, Poke(m, a, TRAP), t, a);
    NextInstruction(t, a);
  }

  lemma NextInstruction(t: int, a: int)
    requires t != a
    ensures (t - a) % 4 == 0 ==> (!(a - 3 <= t <= a - 1) && !(a + 1 <= t <= a + 5) <==> t != a + 4)
  {
  }

  lemma OffsetKeepsBrk(m: Mem, r: Mem, t: int, a: int)
    requires BrkAt(m, t) && t != a && m.Keys <= r.Keys
    requires forall x | x in r :: if InWindow(a, x) then r[x] == TrapByte(x - a) else x in m && r[x] == m[x]
    ensures BrkAt(r, t) <==> !(a - 3 <= t <= a - 1) && !(a + 1 <= t <= a + 5)
  {
  }

  // ---------------------------------------------------------------------------
  // What the tracee fetches while sites are armed
  // ---------------------------------------------------------------------------

  lemma SameDigit(b: byte, x: nat, c: byte, y: nat)
    requires b + 256 * x == c + 256 * y
    ensures b == c && x == y
  {
  }

  lemma SameFetch(m: Mem, m': Mem, pc: int)
    requires FetchMapped(m, pc) && FetchMapped(m', pc) && Fetch(m, pc) == Fetch(m', pc)
    ensures m[pc] == m'[pc] && m[pc + 1] == m'[pc + 1] && m[pc + 2] == m'[pc + 2] && m[pc + 3] == m'[pc + 3]
  {
    var x, y: nat := m[pc + 2] as nat + 0x100 * m[pc + 3] as nat, m'[pc + 2] as nat + 0x100 * m'[pc + 3] as nat;
    SameDigit(m[pc], m[pc + 1] as nat + 0x100 * x, m'[pc], m'[pc + 1] as nat + 0x100 * y);
    SameDigit(m[pc + 1], x, m'[pc + 1], y);
    SameDigit(m[pc + 2], m[pc + 3], m'[pc + 2], m'[pc + 3]);
  }

  lemma SameFetchIff(m: Mem, m': Mem, pc: int)
    requires FetchMapped(m, pc) && FetchMapped(m', pc)
    ensures Fetch(m, pc) == Fetch(m', pc) <==> forall x | pc <= x < pc + 4 :: x in m && x in m' && m[x] == m'[x]
  {
    if Fetch(m, pc) == Fetch(m', pc) {
      SameFetch(m, m', pc);
      forall x | pc <= x < pc + 4
        ensures x in m && x in m' && m[x] == m'[x]
      {
        assert x == pc || x == pc + 1 || x == pc + 2 || x == pc + 3;
      }
    }
  }

  /** With every site armed, the tracee fetches the program's instruction at `pc` exactly when the
      program has the trap's own byte wherever the fetch meets a window. */
  lemma FetchIsProgramIff(mem: Mem, base: Mem, sites: set<u64>, pc: int)
    requires Disjoint(sites) && Laid(mem, base, sites) && FetchMapped(base, pc)
    ensures FetchMapped(mem, pc)
    ensures Fetch(mem, pc) == Fetch(base, pc) <==>
            forall x, a | pc <= x < pc + 4 && a in sites && InWindow(a, x) :: x in base && base[x] == TrapByte(x - a)
  {
    SameFetchIff(mem, base, pc);
    forall x, a | pc <= x < pc + 4 && a in sites && InWindow(a, x)
      ensures x in mem && mem[x] == TrapByte(x - a)
    {
      assert TrapAt(mem, a);
    }
    forall x | pc <= x < pc + 4 && !Covered(sites, x)
      ensures x in mem && x in base && mem[x] == base[x]
    {
      assert x == pc || x == pc + 1 || x == pc + 2 || x == pc + 3;
    }
  }

  /** A step or a run from the instruction after an armed site does not move: its bytes are zero. */
  lemma AfterSiteStuck(t: Tracee, a: u64, effects: seq<Effect>)
    requires TrapAt(t.mem, a) && Pc(t.regs) == a + 4
    ensures t.Ran(effects) == t
  {
    ArmedSiteTraps(t.mem, a);
  }
}
