/** Removing breakpoints whose windows may overlap (src/breakpoints.cpp:36-87): which orders of removal
    give back what was there before. */
module Removals {
  import opened LittleEndian
  import opened RegisterFile
  import opened Memory
  import opened Tracees
  import opened Protocol
  import opened Sites
  import opened Runs

  // ---------------------------------------------------------------------------
  // Runs put together
  // ---------------------------------------------------------------------------

  lemma RunFirst(s: State, first: Op, rest: seq<Op>)
    ensures Run(s, [first] + rest) == Run(Do(s, first), rest)
  {
    assert ([first] + rest)[1..] == rest;
  }

  lemma {:induction false} RunAppend(s: State, ops: seq<Op>, more: seq<Op>)
    ensures Run(s, ops + more) == Run(Run(s, ops), more)
    decreases |ops|
  {
    if ops == [] {
      assert ops + more == more;
    } else {
      RunAppend(Do(s, ops[0]), ops[1..], more);
      assert (ops + more)[1..] == ops[1..] + more;
    }
  }

  lemma RunLast(s: State, ops: seq<Op>, last: Op)
    ensures Run(s, ops + [last]) == Do(Run(s, ops), last)
  {
    RunAppend(s, ops, [last]);
    assert [last][1..] == [];
  }

  // ---------------------------------------------------------------------------
  // Nested breakpoints
  // ---------------------------------------------------------------------------

  /** Breakpoints that are removed before those added earlier: one around others, then more. */
  datatype Nest = Nothing | Around(site: u64, inner: Nest, rest: Nest)

  function NestOps(t: Nest): seq<Op>
  {
    match t
    case Nothing => []
    case Around(a, inner, rest) =>
      [AddOp(a, true, true)] + NestOps(inner) + [RemoveAtOp(a, true)] + NestOps(rest)
  }

  function Count(t: Nest): nat
  {
    match t
    case Nothing => 0
    case Around(_, inner, rest) => 1 + Count(inner) + Count(rest)
  }

  /** Each site is new when it is added, and mapped. */
  predicate Nestable(t: Nest, sites: set<u64>, mapped: set<int>)
  {
    match t
    case Nothing => true
    case Around(a, inner, rest) =>
      && a !in sites && Window(a) <= mapped
      && Nestable(inner, sites + {a}, mapped) && Nestable(rest, sites, mapped)
  }

  /** A stopped tracee in which these breakpoints can be set. */
  ghost predicate Ready(s: State, t: Nest)
  {
    Tabled(s) && s.pid != 0 && s.tracee.mode.Stopped? && Nestable(t, s.sites.Keys, s.tracee.mem.Keys)
  }

  /** The same with ids spent. */
  function Later(s: State, n: nat): State
  {
    s.(next := s.next + n)
  }

  ghost predicate Restores(s: State, t: Nest)
  {
    Run(s, NestOps(t)) == Later(s, Count(t))
  }

  /** Breakpoints added and removed in any well-nested order leave memory and tables as they were,
      however their windows overlap one another or the sites already there; only ids are spent. */
  lemma NestRestores(s: State, t: Nest)
    requires Ready(s, t)
    ensures Run(s, NestOps(t)) == Later(s, Count(t))
  {
    NestRuns(s, t);
  }

  lemma {:induction false} NestRuns(s: State, t: Nest)
    requires Ready(s, t)
    ensures Restores(s, t)
    decreases t
  {
    match t {
      case Nothing =>
      case Around(a, inner, rest) =>
        ReadyParts(s, a, inner, rest, Count(inner));
        NestRuns(Added(s, a), inner);
        NestRuns(Later(s, 1 + Count(inner)), rest);
        NestAround(s, a, inner, rest);
    }
  }

  /** The addition of a site, and its removal once `n` more ids were spent. */
  ghost predicate Undone(s: State, a: u64, n: nat)
    requires Mapped(s.tracee.mem, a)
  {
    && Do(s, AddOp(a, true, true)) == Added(s, a)
    && Do(Later(Added(s, a), n), RemoveAtOp(a, true)) == Later(s, 1 + n)
  }

  lemma NestAround(s: State, a: u64, inner: Nest, rest: Nest)
    requires Mapped(s.tracee.mem, a) && Undone(s, a, Count(inner))
    requires Restores(Added(s, a), inner) && Restores(Later(s, 1 + Count(inner)), rest)
    ensures Restores(s, Around(a, inner, rest))
  {
    RunAround(s, a, NestOps(inner), NestOps(rest), Added(s, a));
    LaterTwice(s, 1 + Count(inner), Count(rest));
  }

  lemma LaterTwice(s: State, n: nat, r: nat)
    ensures Later(Later(s, n), r) == Later(s, n + r)
  {
  }

  lemma ReadyParts(s: State, a: u64, inner: Nest, rest: Nest, n: nat)
    requires Ready(s, Around(a, inner, rest))
    ensures Mapped(s.tracee.mem, a) && Ready(Added(s, a), inner) && Ready(Later(s, 1 + n), rest)
    ensures Undone(s, a, n)
  {
    AddedNew(s, a);
    RemoveAddedLater(s, a, n);
  }

  lemma AddedNew(s: State, a: u64)
    requires Tabled(s) && s.pid != 0 && s.tracee.mode.Stopped? && a !in s.sites && Mapped(s.tracee.mem, a)
    ensures Do(s, AddOp(a, true, true)) == Added(s, a) && Tabled(Added(s, a))
    ensures Added(s, a).sites.Keys == s.sites.Keys + {a} && Added(s, a).tracee.mem.Keys == s.tracee.mem.Keys
  {
    AddContract(s, a, true, true);
    AddedTables(s, a);
  }

  lemma RunAround(s: State, a: u64, inner: seq<Op>, rest: seq<Op>, s1: State)
    requires Do(s, AddOp(a, true, true)) == s1
    ensures Run(s, [AddOp(a, true, true)] + inner + [RemoveAtOp(a, true)] + rest)
            == Run(Do(Run(s1, inner), RemoveAtOp(a, true)), rest)
  {
    RunAppend(s, [AddOp(a, true, true)] + inner + [RemoveAtOp(a, true)], rest);
    RunLast(s, [AddOp(a, true, true)] + inner, RemoveAtOp(a, true));
    RunFirst(s, AddOp(a, true, true), inner);
  }

  /** The counter plays no part in a removal. */
  lemma RemoveAddedLater(s: State, a: u64, n: nat)
    requires Tabled(s) && s.pid != 0 && a !in s.sites && s.tracee.CanPoke(a, true)
    ensures Do(Later(Added(s, a), n), RemoveAtOp(a, true)) == Later(s, 1 + n)
  {
    RemoveAdded(s, a);
    RemoveLater(Added(s, a), a, n);
  }

  lemma RemoveLater(s: State, a: u64, n: nat)
    ensures RemoveAt(Later(s, n), a, true).0 == Later(RemoveAt(s, a, true).0, n)
  {
  }

  // ---------------------------------------------------------------------------
  // Adding one after the other
  // ---------------------------------------------------------------------------

  function Elems(at: seq<u64>): set<u64>
  {
    set a | a in at
  }

  predicate Distinct(at: seq<u64>)
  {
    forall i, j | 0 <= i < j < |at| :: at[i] != at[j]
  }

  /** Different addresses without a breakpoint, which the kernel lets the debugger write. */
  ghost predicate NewSites(s: State, at: seq<u64>)
  {
    && Tabled(s) && s.pid != 0 && s.tracee.mode.Stopped? && Distinct(at)
    && forall a | a in at :: a !in s.sites && Mapped(s.tracee.mem, a)
  }

  function Adds(at: seq<u64>): seq<Op>
    decreases |at|
  {
    if at == [] then [] else Adds(at[..|at| - 1]) + [AddOp(at[|at| - 1], true, true)]
  }

  /** The byte at `x` once traps were written at `at`, one after the other. */
  function Content(m: Mem, at: seq<u64>, x: int): byte
    requires x in m
    decreases |at|
  {
    if at == [] then m[x]
    else
      var n := |at| - 1;
      if InWindow(at[n], x) then TrapByte(x - at[n]) else Content(m, at[..n], x)
  }

  ghost predicate Holds(m: Mem, m1: Mem, at: seq<u64>)
  {
    m1.Keys == m.Keys && forall x | x in m :: m1[x] == Content(m, at, x)
  }

  /** The word saved at `at[j]`: what was there when it was added. */
  ghost predicate SavedAt(sites: map<u64, u64>, m: Mem, at: seq<u64>, j: nat)
    requires j < |at|
  {
    at[j] in sites
    && forall x: int | InWindow(at[j], x) && x in m :: ByteOf(sites[at[j]], x - at[j]) == Content(m, at[..j], x)
  }

  ghost predicate AllSaved(sites: map<u64, u64>, m: Mem, at: seq<u64>)
  {
    forall j: nat | j < |at| :: SavedAt(sites, m, at, j)
  }

  /** The tables with these sites added. */
  ghost predicate SitesGrown(sites: map<u64, u64>, sites1: map<u64, u64>, at: seq<u64>)
  {
    sites1.Keys == sites.Keys + Elems(at) && forall a | a in sites :: sites1[a] == sites[a]
  }

  ghost predicate IdsGrown(ids: map<Id, u64>, ids1: map<Id, u64>, at: seq<u64>)
  {
    && (forall id | id in ids :: id in ids1 && ids1[id] == ids[id])
    && (forall id | id in ids1 :: id in ids || ids1[id] in at)
  }

  ghost predicate Grown(s: State, s1: State, at: seq<u64>)
  {
    s1.next == s.next + |at| && SitesGrown(s.sites, s1.sites, at) && IdsGrown(s.ids, s1.ids, at)
  }

  /** Nothing but the bytes of memory and the tables differs. */
  ghost predicate SameRest(s: State, s1: State)
  {
    && s1.pid == s.pid && s1.attached == s.attached && s1.run == s.run && s1.cache == s.cache
    && s1.tracee.mode == s.tracee.mode && s1.tracee.base == s.tracee.base && s1.tracee.regs == s.tracee.regs
    && s1.tracee.mem.Keys == s.tracee.mem.Keys
  }

  /** The state after these additions. */
  ghost predicate AddsLeave(s: State, s1: State, at: seq<u64>)
  {
    && SameRest(s, s1) && Tabled(s1) && Grown(s, s1, at)
    && Holds(s.tracee.mem, s1.tracee.mem, at) && AllSaved(s1.sites, s.tracee.mem, at)
  }

  lemma {:induction false} AddsState(s: State, at: seq<u64>)
    requires NewSites(s, at)
    ensures AddsLeave(s, Run(s, Adds(at)), at)
    decreases |at|
  {
    if at != [] {
      var n := |at| - 1;
      FewerNew(s, at);
      AddsState(s, at[..n]);
      RunLast(s, Adds(at[..n]), AddOp(at[n], true, true));
      AddsMore(s, Run(s, Adds(at[..n])), at, at[..n], at[n]);
    }
  }

  lemma FewerNew(s: State, at: seq<u64>)
    requires NewSites(s, at) && at != []
    ensures NewSites(s, at[..|at| - 1])
    ensures at[|at| - 1] !in at[..|at| - 1] && at[|at| - 1] !in s.sites && Mapped(s.tracee.mem, at[|at| - 1])
  {
    assert at[|at| - 1] in at;
  }

  lemma AddsMore(s: State, s1: State, at: seq<u64>, p: seq<u64>, a: u64)
    requires at == p + [a] && a !in p && a !in s.sites && Mapped(s.tracee.mem, a)
    requires s.pid != 0 && s.tracee.mode.Stopped? && AddsLeave(s, s1, p)
    ensures AddsLeave(s, Do(s1, AddOp(a, true, true)), at)
  {
    AddedNew(s1, a);
    SitesMore(s.sites, s1.sites, p, a, Peek(s1.tracee.mem, a));
    IdsMore(s.ids, s1.ids, s1.sites.Keys, s1.next, p, a);
    HoldsMore(s.tracee.mem, s1.tracee.mem, at, p, a);
    SavedMore(s.tracee.mem, s1.tracee.mem, s1.sites, at, p, a);
    AddedLeaves(s, s1, at, p, a);
  }

  lemma AddedLeaves(s: State, s1: State, at: seq<u64>, p: seq<u64>, a: u64)
    requires at == p + [a] && Mapped(s1.tracee.mem, a) && SameRest(s, s1) && s1.next == s.next + |p|
    requires Added(s1, a).tracee.mem.Keys == s.tracee.mem.Keys && Tabled(Added(s1, a))
    requires SitesGrown(s.sites, s1.sites[a := Peek(s1.tracee.mem, a)], at)
    requires IdsGrown(s.ids, s1.ids[s1.next := a], at)
    requires Holds(s.tracee.mem, Poke(s1.tracee.mem, a, TRAP), at)
    requires AllSaved(s1.sites[a := Peek(s1.tracee.mem, a)], s.tracee.mem, at)
    ensures AddsLeave(s, Added(s1, a), at)
  {
  }

  lemma ElemsMore(p: seq<u64>, a: u64)
    ensures Elems(p + [a]) == Elems(p) + {a}
  {
  }

  lemma SitesMore(sites: map<u64, u64>, sites1: map<u64, u64>, p: seq<u64>, a: u64, w: u64)
    requires SitesGrown(sites, sites1, p) && a !in sites
    ensures SitesGrown(sites, sites1[a := w], p + [a])
  {
    ElemsMore(p, a);
  }

  lemma IdsMore(ids: map<Id, u64>, ids1: map<Id, u64>, sites: set<u64>, next: Id, p: seq<u64>, a: u64)
    requires TablesOk(ids1, sites, next) && IdsGrown(ids, ids1, p)
    ensures IdsGrown(ids, ids1[next := a], p + [a])
  {
    forall id | id in ids
      ensures id != next
    {
      assert id in ids1;
    }
  }

  lemma HoldsMore(m: Mem, m1: Mem, at: seq<u64>, p: seq<u64>, a: u64)
    requires at == p + [a] && Holds(m, m1, p) && Mapped(m1, a)
    ensures Holds(m, Poke(m1, a, TRAP), at)
  {
    assert at[..|at| - 1] == p;
    TrapPoked(m1, a);
  }

  lemma SavedMore(m: Mem, m1: Mem, sites: map<u64, u64>, at: seq<u64>, p: seq<u64>, a: u64)
    requires at == p + [a] && a !in p && Holds(m, m1, p) && Mapped(m1, a) && AllSaved(sites, m, p)
    ensures AllSaved(sites[a := Peek(m1, a)], m, at)
  {
    var n, grown := |p|, sites[a := Peek(m1, a)];
    PeekAll(m1, a);
    forall j: nat | j < |at|
      ensures SavedAt(grown, m, at, j)
    {
      if j < n {
        assert SavedAt(sites, m, p, j) && p[..j] == at[..j] && p[j] == at[j];
      } else {
        assert at[..j] == p;
      }
    }
  }

  // ---------------------------------------------------------------------------
  // Removing one after the other
  // ---------------------------------------------------------------------------

  function Removes(out: seq<u64>): seq<Op>
    decreases |out|
  {
    if out == [] then [] else Removes(out[..|out| - 1]) + [RemoveAtOp(out[|out| - 1], true)]
  }

  /** The byte at `x` once the saved words at `out` were written back, one after the other. */
  function Restored(m: Mem, sites: map<u64, u64>, out: seq<u64>, x: int): byte
    requires x in m && forall a | a in out :: a in sites
    decreases |out|
  {
    if out == [] then m[x]
    else
      var n := |out| - 1;
      assert out[n] in out;
      if InWindow(out[n], x) then ByteOf(sites[out[n]], x - out[n]) else Restored(m, sites, out[..n], x)
  }

  /** The tables with these sites removed. */
  function Kept(ids: map<Id, u64>, out: seq<u64>): map<Id, u64>
  {
    map id | id in ids && ids[id] !in out :: ids[id]
  }

  ghost predicate Shrunk(s: State, s1: State, out: seq<u64>)
  {
    s1.next == s.next && s1.sites == s.sites - Elems(out) && s1.ids == Kept(s.ids, out)
  }

  /** The bytes after these removals. */
  ghost predicate Returned(m: Mem, m1: Mem, sites: map<u64, u64>, out: seq<u64>)
    requires forall a | a in out :: a in sites
  {
    m1.Keys == m.Keys && forall x | x in m :: m1[x] == Restored(m, sites, out, x)
  }

  ghost predicate Removable(s: State, out: seq<u64>)
  {
    && s.pid != 0 && s.tracee.mode.Stopped? && Distinct(out)
    && forall a | a in out :: a in s.sites && Mapped(s.tracee.mem, a)
  }

  lemma {:induction false} RemovesState(s: State, out: seq<u64>)
    requires Removable(s, out)
    ensures var s1 := Run(s, Removes(out));
            SameRest(s, s1) && Shrunk(s, s1, out) && Returned(s.tracee.mem, s1.tracee.mem, s.sites, out)
    decreases |out|
  {
    if out == [] {
      assert s.sites - Elems(out) == s.sites && Kept(s.ids, out) == s.ids;
    } else {
      var n := |out| - 1;
      FewerRemovable(s, out);
      RemovesState(s, out[..n]);
      RunLast(s, Removes(out[..n]), RemoveAtOp(out[n], true));
      RemovesMore(s, Run(s, Removes(out[..n])), out, out[..n], out[n]);
    }
  }

  lemma FewerRemovable(s: State, out: seq<u64>)
    requires Removable(s, out) && out != []
    ensures Removable(s, out[..|out| - 1])
    ensures out[|out| - 1] !in out[..|out| - 1] && out[|out| - 1] in s.sites && Mapped(s.tracee.mem, out[|out| - 1])
  {
    assert out[|out| - 1] in out;
  }

  lemma RemovesMore(s: State, s1: State, out: seq<u64>, p: seq<u64>, b: u64)
    requires out == p + [b] && b !in p && b in s.sites && Mapped(s.tracee.mem, b)
    requires s.pid != 0 && s.tracee.mode.Stopped? && (forall a | a in p :: a in s.sites)
    requires SameRest(s, s1) && Shrunk(s, s1, p) && Returned(s.tracee.mem, s1.tracee.mem, s.sites, p)
    ensures forall a | a in out :: a in s.sites
    ensures var s2 := Do(s1, RemoveAtOp(b, true));
            SameRest(s, s2) && Shrunk(s, s2, out) && Returned(s.tracee.mem, s2.tracee.mem, s.sites, out)
  {
    var w := s.sites[b];
    assert b in s1.sites && s1.sites[b] == w;
    ShrunkMore(s.sites, s.ids, p, b);
    BytesMore(s.tracee.mem, s1.tracee.mem, s.sites, out, p, b);
    RemoveGranted(s1, b, w, s1.tracee.PokeData(b, w), s.sites - Elems(out), Kept(s.ids, out));
  }

  lemma RemoveGranted(s: State, a: u64, w: u64, t: Tracee, sites: map<u64, u64>, ids: map<Id, u64>)
    requires a in s.sites && s.sites[a] == w && s.pid != 0 && s.tracee.CanPoke(a, true)
    requires t == s.tracee.PokeData(a, w) && s.sites - {a} == sites && WithoutAddress(s.ids, a) == ids
    ensures Do(s, RemoveAtOp(a, true)) == s.(tracee := t, sites := sites, ids := ids)
  {
  }

  lemma ShrunkMore(sites: map<u64, u64>, ids: map<Id, u64>, p: seq<u64>, b: u64)
    ensures sites - Elems(p) - {b} == sites - Elems(p + [b])
    ensures WithoutAddress(Kept(ids, p), b) == Kept(ids, p + [b])
  {
    ElemsMore(p, b);
  }

  lemma BytesMore(m: Mem, m1: Mem, sites: map<u64, u64>, out: seq<u64>, p: seq<u64>, b: u64)
    requires out == p + [b] && (forall a | a in out :: a in sites) && b in sites && Mapped(m, b)
    requires Returned(m, m1, sites, p)
    ensures Returned(m, Poke(m1, b, sites[b]), sites, out)
  {
    assert out[..|out| - 1] == p;
  }

  // ---------------------------------------------------------------------------
  // Which orders restore
  // ---------------------------------------------------------------------------

  /** Of the sites whose window holds `x`, `at[i]` comes first; `out[k]` comes last. */
  predicate FirstAt(at: seq<u64>, i: nat, x: int)
  {
    i < |at| && InWindow(at[i], x) && forall j | 0 <= j < i :: !InWindow(at[j], x)
  }

  predicate LastAt(out: seq<u64>, k: nat, x: int)
  {
    k < |out| && InWindow(out[k], x) && forall l | k < l < |out| :: !InWindow(out[l], x)
  }

  lemma {:induction false} RestoredLast(m: Mem, sites: map<u64, u64>, out: seq<u64>, x: int, k: nat)
    requires x in m && (forall a | a in out :: a in sites) && LastAt(out, k, x)
    ensures out[k] in out && Restored(m, sites, out, x) == ByteOf(sites[out[k]], x - out[k])
    decreases |out|
  {
    var n := |out| - 1;
    if k < n {
      assert !InWindow(out[n], x);
      assert LastAt(out[..n], k, x) && out[..n][k] == out[k];
      assert forall a | a in out[..n] :: a in out;
      RestoredLast(m, sites, out[..n], x, k);
    }
  }

  lemma {:induction false} RestoredUncovered(m: Mem, sites: map<u64, u64>, out: seq<u64>, x: int)
    requires x in m && (forall a | a in out :: a in sites) && forall a | a in out :: !InWindow(a, x)
    ensures Restored(m, sites, out, x) == m[x]
    decreases |out|
  {
    if out != [] {
      assert forall a | a in out[..|out| - 1] :: a in out;
      RestoredUncovered(m, sites, out[..|out| - 1], x);
    }
  }

  lemma {:induction false} ContentUncovered(m: Mem, at: seq<u64>, x: int)
    requires x in m && forall j | 0 <= j < |at| :: !InWindow(at[j], x)
    ensures Content(m, at, x) == m[x]
    decreases |at|
  {
    if at != [] {
      ContentUncovered(m, at[..|at| - 1], x);
    }
  }

  /** A byte that some window holds is one of a trap. */
  lemma {:induction false} ContentCovered(m: Mem, at: seq<u64>, x: int)
    requires x in m && exists j :: 0 <= j < |at| && InWindow(at[j], x)
    ensures Content(m, at, x) == 0 || Content(m, at, x) == 0x20 || Content(m, at, x) == 0xd4
    decreases |at|
  {
    var n := |at| - 1;
    if !InWindow(at[n], x) {
      var j :| 0 <= j < |at| && InWindow(at[j], x);
      assert at[..n][j] == at[j];
      ContentCovered(m, at[..n], x);
    }
  }

  /** The byte at `x` after all: what was there when the site that is removed last was added. */
  ghost predicate ByteBack(m: Mem, at: seq<u64>, out: seq<u64>, x: int)
    requires x in m
  {
    forall j: nat, k: nat | j < |at| && LastAt(out, k, x) && at[j] == out[k] :: Content(m, at[..j], x) == m[x]
  }

  /** Sites added in one order and removed in another give the state back exactly when at every byte the
      site removed last had found what was there at first; the tables always come back. */
  lemma RestoresIff(s: State, at: seq<u64>, out: seq<u64>)
    requires NewSites(s, at) && Distinct(out) && Elems(out) == Elems(at)
    ensures Run(s, Adds(at) + Removes(out)) == Later(s, |at|) <==>
            forall x | x in s.tracee.mem :: ByteBack(s.tracee.mem, at, out, x)
  {
    var s1 := Run(s, Adds(at));
    var s2 := Run(s1, Removes(out));
    var m := s.tracee.mem;
    AddsState(s, at);
    RunAppend(s, Adds(at), Removes(out));
    AllRemovable(s, s1, at, out);
    RemovesState(s1, out);
    TablesBack(s, s1, s2, at, out);
    forall x | x in m
      ensures s2.tracee.mem[x] == m[x] <==> ByteBack(m, at, out, x)
    {
      ByteIsBack(m, s1.tracee.mem, s1.sites, at, out, x);
    }
    StateBack(s, s2, |at|);
  }

  lemma AllRemovable(s: State, s1: State, at: seq<u64>, out: seq<u64>)
    requires NewSites(s, at) && Distinct(out) && Elems(out) == Elems(at)
    requires SameRest(s, s1) && Grown(s, s1, at)
    ensures Removable(s1, out)
  {
    forall a | a in out
      ensures a in s1.sites && Mapped(s1.tracee.mem, a)
    {
      assert a in Elems(out);
      assert a in at && Mapped(s.tracee.mem, a);
    }
  }

  lemma TablesBack(s: State, s1: State, s2: State, at: seq<u64>, out: seq<u64>)
    requires NewSites(s, at) && Elems(out) == Elems(at) && Grown(s, s1, at) && Shrunk(s1, s2, out)
    ensures s2.sites == s.sites && s2.ids == s.ids && s2.next == s.next + |at|
  {
    SameMembers(at, out);
    SitesBack(s.sites, s1.sites, at, out);
    assert forall id | id in s.ids :: s.ids[id] in s.sites.Keys;
    IdsBack(s.ids, s1.ids, s.sites.Keys, at, out);
  }

  lemma SitesBack(sites: map<u64, u64>, sites1: map<u64, u64>, at: seq<u64>, out: seq<u64>)
    requires SitesGrown(sites, sites1, at) && Elems(out) == Elems(at) && forall a | a in at :: a !in sites
    ensures sites1 - Elems(out) == sites
  {
    assert (sites1 - Elems(out)).Keys == sites.Keys;
  }

  lemma IdsBack(ids: map<Id, u64>, ids1: map<Id, u64>, sites: set<u64>, at: seq<u64>, out: seq<u64>)
    requires IdsGrown(ids, ids1, at) && (forall id | id in ids :: ids[id] in sites) && forall a | a in at :: a !in sites
    requires (forall a | a in out :: a in at) && forall j | 0 <= j < |at| :: at[j] in out
    ensures Kept(ids1, out) == ids
  {
    assert Kept(ids1, out).Keys == ids.Keys;
  }

  lemma ByteIsBack(m: Mem, m1: Mem, sites: map<u64, u64>, at: seq<u64>, out: seq<u64>, x: int)
    requires x in m && Holds(m, m1, at) && Elems(out) == Elems(at) && Distinct(at)
    requires (forall a | a in out :: a in sites) && AllSaved(sites, m, at)
    ensures Restored(m1, sites, out, x) == m[x] <==> ByteBack(m, at, out, x)
  {
    SameMembers(at, out);
    if forall a | a in out :: !InWindow(a, x) {
      UncoveredIsBack(m, m1, sites, at, out, x);
    } else {
      var k := LastIndex(out, x);
      CoveredIsBack(m, m1, sites, at, out, x, IndexOf(at, out[k]), k);
    }
  }

  lemma UncoveredIsBack(m: Mem, m1: Mem, sites: map<u64, u64>, at: seq<u64>, out: seq<u64>, x: int)
    requires x in m && Holds(m, m1, at) && (forall a | a in out :: a in sites)
    requires (forall j | 0 <= j < |at| :: at[j] in out) && forall a | a in out :: !InWindow(a, x)
    ensures Restored(m1, sites, out, x) == m[x] && ByteBack(m, at, out, x)
  {
    RestoredUncovered(m1, sites, out, x);
    ContentUncovered(m, at, x);
    forall k: nat
      ensures !LastAt(out, k, x)
    {
      assert k < |out| ==> out[k] in out;
    }
  }

  lemma CoveredIsBack(m: Mem, m1: Mem, sites: map<u64, u64>, at: seq<u64>, out: seq<u64>, x: int, j: nat, k: nat)
    requires x in m && Holds(m, m1, at) && Distinct(at) && (forall a | a in out :: a in sites)
    requires AllSaved(sites, m, at) && LastAt(out, k, x) && j < |at| && at[j] == out[k]
    ensures Restored(m1, sites, out, x) == m[x] <==> ByteBack(m, at, out, x)
  {
    RestoredLast(m1, sites, out, x, k);
    assert SavedAt(sites, m, at, j) && InWindow(at[j], x);
    assert ByteOf(sites[at[j]], x - at[j]) == Content(m, at[..j], x);
    OneLast(m, at, out, x, j, k);
  }

  lemma SameMembers(at: seq<u64>, out: seq<u64>)
    requires Elems(out) == Elems(at)
    ensures forall a | a in out :: a in at
    ensures forall j | 0 <= j < |at| :: at[j] in out
  {
    forall a | a in out
      ensures a in at
    {
      assert a in Elems(out);
    }
    forall j | 0 <= j < |at|
      ensures at[j] in out
    {
      assert at[j] in Elems(at);
    }
  }

  function IndexOf(at: seq<u64>, a: u64): (j: nat)
    requires a in at
    ensures j < |at| && at[j] == a
  {
    if at[0] == a then 0 else 1 + IndexOf(at[1..], a)
  }

  /** There is only one last site at a byte, and only one place where it was added. */
  lemma OneLast(m: Mem, at: seq<u64>, out: seq<u64>, x: int, j: nat, k: nat)
    requires x in m && Distinct(at) && j < |at| && LastAt(out, k, x) && at[j] == out[k]
    ensures ByteBack(m, at, out, x) <==> Content(m, at[..j], x) == m[x]
  {
    forall j': nat, k': nat | j' < |at| && LastAt(out, k', x) && at[j'] == out[k']
      ensures j' == j && k' == k
    {
    }
  }

  function LastIndex(out: seq<u64>, x: int): (k: nat)
    requires exists a :: a in out && InWindow(a, x)
    ensures LastAt(out, k, x)
    decreases |out|
  {
    var n := |out| - 1;
    if InWindow(out[n], x) then n
    else
      assert forall a | a in out && InWindow(a, x) :: a in out[..n];
      LastIndex(out[..n], x)
  }

  lemma StateBack(s: State, s2: State, n: nat)
    requires SameRest(s, s2) && s2.sites == s.sites && s2.ids == s.ids && s2.next == s.next + n
    ensures s2 == Later(s, n) <==> forall x | x in s.tracee.mem :: s2.tracee.mem[x] == s.tracee.mem[x]
  {
    if forall x | x in s.tracee.mem :: s2.tracee.mem[x] == s.tracee.mem[x] {
      assert s2.tracee.mem == s.tracee.mem;
    }
  }

  /** Wherever windows meet, the site added first is the one removed last. */
  ghost predicate FirstIsLast(at: seq<u64>, out: seq<u64>)
  {
    forall i: nat, k: nat, x: int | FirstAt(at, i, x) && LastAt(out, k, x) :: at[i] == out[k]
  }

  /** So the orders that restore every state are exactly those. */
  lemma RestoresAlwaysIff(at: seq<u64>, out: seq<u64>)
    requires Distinct(at) && Distinct(out) && Elems(out) == Elems(at)
    ensures (forall s: State | NewSites(s, at) :: Run(s, Adds(at) + Removes(out)) == Later(s, |at|))
            <==> FirstIsLast(at, out)
  {
    if FirstIsLast(at, out) {
      forall s: State | NewSites(s, at)
        ensures Run(s, Adds(at) + Removes(out)) == Later(s, |at|)
      {
        RestoresIff(s, at, out);
        forall x | x in s.tracee.mem
          ensures ByteBack(s.tracee.mem, at, out, x)
        {
          GoodOrder(s.tracee.mem, at, out, x);
        }
      }
    } else {
      var i: nat, k: nat, x: int :| FirstAt(at, i, x) && LastAt(out, k, x) && at[i] != out[k];
      BadOrder(at, out, i, k, x);
    }
  }

  lemma GoodOrder(m: Mem, at: seq<u64>, out: seq<u64>, x: int)
    requires x in m && Distinct(at) && FirstIsLast(at, out)
    ensures ByteBack(m, at, out, x)
  {
    forall j: nat, k: nat | j < |at| && LastAt(out, k, x) && at[j] == out[k]
      ensures Content(m, at[..j], x) == m[x]
    {
      var i := FirstIndex(at, x, j);
      assert i == j;
      ContentUncovered(m, at[..j], x);
    }
  }

  function FirstIndex(at: seq<u64>, x: int, j: nat): (i: nat)
    requires j < |at| && InWindow(at[j], x)
    ensures i <= j && FirstAt(at, i, x)
    decreases j
  {
    if exists l :: 0 <= l < j && InWindow(at[l], x) then
      var l: nat :| l < j && InWindow(at[l], x);
      FirstIndex(at, x, l)
    else j
  }

  /** A memory of ones shows what a bad order leaves. */
  lemma BadOrder(at: seq<u64>, out: seq<u64>, i: nat, k: nat, x: int)
    requires Distinct(at) && Distinct(out) && Elems(out) == Elems(at)
    requires FirstAt(at, i, x) && LastAt(out, k, x) && at[i] != out[k]
    ensures exists s: State :: NewSites(s, at) && Run(s, Adds(at) + Removes(out)) != Later(s, |at|)
  {
    var m: Mem := map y | y in Windows(at) :: 1;
    var s := Launched(m);
    MappedWindows(m, at);
    SameMembers(at, out);
    var j := IndexOf(at, out[k]);
    assert i < j && at[..j][i] == at[i];
    assert x in Window(at[i]);
    ContentCovered(m, at[..j], x);
    assert !ByteBack(m, at, out, x);
    RestoresIff(s, at, out);
  }

  function Windows(at: seq<u64>): set<int>
    decreases |at|
  {
    if at == [] then {} else Windows(at[1..]) + Window(at[0])
  }

  lemma {:induction false} WindowsHold(at: seq<u64>, a: u64)
    requires a in at
    ensures Window(a) <= Windows(at)
    decreases |at|
  {
    if at[0] != a {
      WindowsHold(at[1..], a);
    }
  }

  lemma MappedWindows(m: Mem, at: seq<u64>)
    requires m.Keys == Windows(at) && Distinct(at)
    ensures NewSites(Launched(m), at) && forall a | a in at :: Mapped(m, a)
  {
    forall a | a in at
      ensures Mapped(m, a)
    {
      WindowsHold(at, a);
    }
  }

  /** A launched process with some memory, stopped before its first instruction. */
  function Launched(m: Mem): State
  {
    var regs: RegFile := Regsets(seq(272, _ => 0), seq(528, _ => 0), seq(264, _ => 0), seq(264, _ => 0));
    State(1, true, STOPPED, Tracee(Stopped, m, m, regs), CacheData(regs, 0, 0), map[], map[], 1)
  }

  // ---------------------------------------------------------------------------
  // Pairs of breakpoints
  // ---------------------------------------------------------------------------

  predicate Meet(a: u64, b: u64)
  {
    a < b + WORD && b < a + WORD
  }

  /** Of any two sites whose windows meet, the one added later is removed earlier. */
  ghost predicate PairsReversed(at: seq<u64>, out: seq<u64>)
  {
    forall i: nat, j: nat, k: nat, l: nat | i < j < |at| && k < |out| && l < |out| && Meet(at[i], at[j])
                                            && out[k] == at[i] && out[l] == at[j] :: l < k
  }

  /** That is enough, wherever the sites lie. */
  lemma PairsSuffice(at: seq<u64>, out: seq<u64>)
    requires Elems(out) == Elems(at) && PairsReversed(at, out)
    ensures FirstIsLast(at, out)
  {
    SameMembers(at, out);
    forall i: nat, k: nat, x: int | FirstAt(at, i, x) && LastAt(out, k, x)
      ensures at[i] == out[k]
    {
      if at[i] != out[k] {
        var j, l := IndexOf(at, out[k]), IndexOf(out, at[i]);
        assert InWindow(at[j], x) && InWindow(out[l], x);
        assert Meet(at[i], at[j]);
        assert false;
      }
    }
  }

  /** Of instructions no third one has a window over the bytes where two meet, so it is needed too. */
  lemma AlignedPairs(at: seq<u64>, out: seq<u64>)
    requires Distinct(at) && Distinct(out) && Elems(out) == Elems(at) && forall a | a in at :: a % 4 == 0
    requires FirstIsLast(at, out)
    ensures PairsReversed(at, out)
  {
    SameMembers(at, out);
    forall i: nat, j: nat, k: nat, l: nat | i < j < |at| && k < |out| && l < |out| && Meet(at[i], at[j])
                                            && out[k] == at[i] && out[l] == at[j]
      ensures l < k
    {
      var x := if at[i] < at[j] then at[j] else at[i];
      OnlyTwo(at[i], at[j], x);
      assert at[i] in at && at[j] in at;
      assert FirstAt(at, i, x);
      assert out[k] in out && InWindow(out[k], x);
      var t := LastIndex(out, x);
      assert at[i] == out[t];
      assert InWindow(out[l], x);
    }
  }

  lemma OnlyTwo(a: u64, b: u64, x: int)
    requires a % 4 == 0 && b % 4 == 0 && a != b && Meet(a, b) && x == if a < b then b else a
    ensures InWindow(a, x) && InWindow(b, x)
    ensures forall c: u64 | c % 4 == 0 && InWindow(c, x) :: c == a || c == b
  {
  }

  /** Breakpoints on instructions: the orders of removal that restore every state are exactly those in
      which, of any two whose windows meet, the one added later is removed earlier. */
  lemma AlignedRestoresIff(at: seq<u64>, out: seq<u64>)
    requires Distinct(at) && Distinct(out) && Elems(out) == Elems(at) && forall a | a in at :: a % 4 == 0
    ensures (forall s: State | NewSites(s, at) :: Run(s, Adds(at) + Removes(out)) == Later(s, |at|))
            <==> PairsReversed(at, out)
  {
    RestoresAlwaysIff(at, out);
    if PairsReversed(at, out) {
      PairsSuffice(at, out);
    }
    if FirstIsLast(at, out) {
      AlignedPairs(at, out);
    }
  }

  // ---------------------------------------------------------------------------
  // Two breakpoints
  // ---------------------------------------------------------------------------

  /** Two breakpoints removed in the order they were added restore every state exactly when their windows
      do not meet. Two adjacent instructions are four bytes apart. */
  lemma FirstOutAlwaysIff(a: u64, b: u64)
    requires a != b
    ensures (forall s: State | NewSites(s, [a, b]) :: Run(s, Adds([a, b]) + Removes([a, b])) == Later(s, 2))
            <==> a + WORD <= b || b + WORD <= a
  {
    var at := [a, b];
    assert at[0] == a && at[1] == b;
    RestoresAlwaysIff(at, at);
    if a + WORD <= b || b + WORD <= a {
      assert FirstIsLast(at, at);
    } else {
      var x := if a < b then b else a;
      assert FirstAt(at, 0, x) && LastAt(at, 1, x);
    }
  }
}
