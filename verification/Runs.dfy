/** Whole runs of the debugger: any operations, in any order, with any answers of the kernel. */
module Runs {
  import opened LittleEndian
  import opened RegisterFile
  import opened Handles
  import opened Memory
  import opened Tracees
  import opened Protocol
  import opened Sites
  import opened StepContracts

  datatype Op =
    | AddOp(addr: u64, peek: bool, poke: bool)
    | RemoveAtOp(addr: u64, poke: bool)
    | RemoveIdOp(id: int, poke: bool)
    | ResumeOp(ok: bool)
    | WaitOp(wait: WaitEnv)
    | StepOp(step: StepEnv)
    | EnableOp(addr: u64, load: nat, save: nat)
    | DisableOp(slot: int, load: nat, save: nat)
    | WriteOp(handle: Handle, value: nat, save: nat)

  ghost function Do(s: State, op: Op): State
  {
    match op
    case AddOp(a, peek, poke) => Add(s, a, peek, poke).0
    case RemoveAtOp(a, poke) => RemoveAt(s, a, poke).0
    case RemoveIdOp(id, poke) => RemoveId(s, id, poke).0
    case ResumeOp(ok) => Resume(s, ok).0
    case WaitOp(env) => Wait(s, env).0
    case StepOp(env) => Step(s, env).0
    case EnableOp(a, load, save) => EnableHw(s, a, load, save).0
    case DisableOp(slot, load, save) => DisableHw(s, slot, load, save).0
    case WriteOp(h, v, save) => if ValidHandle(h) then WriteRegister(s, h, v, save).0 else s
  }

  /** What the layout asks of the caller and of the program: a new site, if the kernel grants it, meets
      no other, and the program does not store into a site. */
  ghost predicate Allowed(s: State, op: Op)
  {
    match op
    case AddOp(a, peek, poke) => peek && s.tracee.CanPoke(a, poke) && a !in s.sites ==> Disjoint(s.sites.Keys + {a})
    case WaitOp(env) => WaitAvoids(env, s.sites.Keys)
    case StepOp(env) => WaitAvoids(env.wait, s.sites.Keys)
    case _ => true
  }

  ghost function Run(s: State, ops: seq<Op>): State
    decreases |ops|
  {
    if ops == [] then s else Run(Do(s, ops[0]), ops[1..])
  }

  ghost predicate RunAllowed(s: State, ops: seq<Op>)
    decreases |ops|
  {
    ops == [] || (Allowed(s, ops[0]) && RunAllowed(Do(s, ops[0]), ops[1..]))
  }

  /** The sites armed after an operation, read off the kernel's answers. */
  ghost function ArmedBy(s: State, op: Op, armed: set<u64>): set<u64>
  {
    match op
    case AddOp(a, peek, poke) =>
      if a !in s.sites && s.pid != 0 && peek && s.tracee.CanPoke(a, poke) then armed + {a} else armed
    case RemoveAtOp(a, poke) => ArmedByRemove(s, a, poke, armed)
    case RemoveIdOp(id, poke) => if id in s.ids then ArmedByRemove(s, s.ids[id], poke, armed) else armed
    case WaitOp(env) => WaitArmed(s, env, armed)
    case StepOp(env) => StepArmed(s, env, armed)
    case _ => armed
  }

  function ArmedByRemove(s: State, a: u64, poke: bool, armed: set<u64>): set<u64>
  {
    if a in s.sites && s.pid != 0 && !s.tracee.CanPoke(a, poke) then armed else armed - {a}
  }

  ghost function RunArmed(s: State, ops: seq<Op>, armed: set<u64>): set<u64>
    decreases |ops|
  {
    if ops == [] then armed else RunArmed(Do(s, ops[0]), ops[1..], ArmedBy(s, ops[0], armed))
  }

  // ---------------------------------------------------------------------------
  // Tables: whatever the kernel answers, wherever the sites lie
  // ---------------------------------------------------------------------------

  ghost predicate Tabled(s: State)
  {
    TablesOk(s.ids, s.sites.Keys, s.next)
  }

  lemma AddTables(ids: map<Id, u64>, sites: set<u64>, next: Id, a: u64)
    requires TablesOk(ids, sites, next) && a !in sites
    ensures TablesOk(ids[next := a], sites + {a}, next + 1)
  {
    var ids' := ids[next := a];
    forall b | b in sites + {a}
      ensures HasId(ids', b)
    {
      if b == a {
        assert next in ids' && ids'[next] == a;
      } else {
        var id :| id in ids && ids[id] == b;
        assert id in ids' && ids'[id] == b;
      }
    }
  }

  lemma RemoveTables(ids: map<Id, u64>, sites: set<u64>, next: Id, a: u64)
    requires TablesOk(ids, sites, next)
    ensures TablesOk(WithoutAddress(ids, a), sites - {a}, next)
  {
    var ids' := WithoutAddress(ids, a);
    forall b | b in sites - {a}
      ensures HasId(ids', b)
    {
      var id :| id in ids && ids[id] == b;
      assert id in ids' && ids'[id] == b;
    }
  }

  lemma HasIdIffSite(ids: map<Id, u64>, sites: set<u64>, next: Id, a: u64)
    requires TablesOk(ids, sites, next)
    ensures HasId(ids, a) <==> a in sites
  {
  }

  /** The state with a new breakpoint. */
  function Added(s: State, a: u64): State
    requires Mapped(s.tracee.mem, a)
  {
    s.(tracee := s.tracee.PokeData(a, TRAP), sites := s.sites[a := Peek(s.tracee.mem, a)],
       ids := s.ids[s.next := a], next := s.next + 1)
  }

  /** An address that has a breakpoint keeps its id, and nothing changes. A new one gets the next id, or,
      exactly when the kernel refuses to read or write there, nothing changes. */
  lemma AddContract(s: State, a: u64, peek: bool, poke: bool)
    requires Tabled(s) && s.pid != 0
    ensures var (s', r) := Add(s, a, peek, poke);
            && (a in s.sites ==> s' == s && r.Ok? && r.value in s.ids && s.ids[r.value] == a)
            && (a !in s.sites && peek && s.tracee.CanPoke(a, poke) ==> s' == Added(s, a) && r == Ok(s.next))
            && (a !in s.sites && !(peek && s.tracee.CanPoke(a, poke)) ==> s' == s && r.Err?)
  {
    HasIdIffSite(s.ids, s.sites.Keys, s.next, a);
  }

  lemma AddedTables(s: State, a: u64)
    requires Tabled(s) && a !in s.sites && Mapped(s.tracee.mem, a)
    ensures Tabled(Added(s, a))
  {
    AddTables(s.ids, s.sites.Keys, s.next, a);
    assert Added(s, a).sites.Keys == s.sites.Keys + {a};
  }

  lemma AddKeepsTables(s: State, a: u64, peek: bool, poke: bool)
    requires Tabled(s)
    ensures Tabled(Add(s, a, peek, poke).0) && Add(s, a, peek, poke).0.next >= s.next
  {
    if s.pid != 0 {
      AddContract(s, a, peek, poke);
      if a !in s.sites && peek && s.tracee.CanPoke(a, poke) {
        AddedTables(s, a);
      }
    }
  }

  lemma RemoveKeepsTables(s: State, a: u64, poke: bool)
    requires Tabled(s)
    ensures Tabled(RemoveAt(s, a, poke).0) && RemoveAt(s, a, poke).0.next == s.next
  {
    RemoveTables(s.ids, s.sites.Keys, s.next, a);
    assert (s.sites - {a}).Keys == s.sites.Keys - {a};
  }

  lemma OpTables(s: State, op: Op)
    requires Tabled(s)
    ensures Tabled(Do(s, op)) && Do(s, op).next >= s.next
  {
    match op {
      case AddOp(a, peek, poke) => AddKeepsTables(s, a, peek, poke);
      case RemoveAtOp(a, poke) => RemoveKeepsTables(s, a, poke);
      case RemoveIdOp(id, poke) =>
        if id in s.ids {
          RemoveKeepsTables(s, s.ids[id], poke);
        }
      case WaitOp(env) => WaitTables(s, env);
      case StepOp(env) => StepTables(s, env);
      case _ => QuietOps(s, op);
    }
  }

  /** Any run at all keeps ids and sites a bijection and the counter above every id. */
  lemma {:induction false} RunTables(s: State, ops: seq<Op>)
    requires Tabled(s)
    ensures Tabled(Run(s, ops)) && Run(s, ops).next >= s.next
    decreases |ops|
  {
    if ops != [] {
      OpTables(s, ops[0]);
      RunTables(Do(s, ops[0]), ops[1..]);
    }
  }

  lemma {:induction false} RunSplit(s: State, ops: seq<Op>, k: nat)
    requires k <= |ops|
    ensures Run(Run(s, ops[..k]), ops[k..]) == Run(s, ops)
    decreases k
  {
    if k == 0 {
      assert ops[..0] == [] && ops[0..] == ops;
    } else {
      RunSplit(Do(s, ops[0]), ops[1..], k - 1);
      assert ops[..k][1..] == ops[1..][..k - 1] && ops[1..][k - 1..] == ops[k..];
    }
  }

  /** No id is handed out twice: the id of a new breakpoint was live at no earlier point of the run. */
  lemma IdNeverReused(s: State, ops: seq<Op>, k: nat, a: u64, peek: bool, poke: bool)
    requires Tabled(s) && k <= |ops| && a !in Run(s, ops).sites
    ensures var r := Add(Run(s, ops), a, peek, poke).1;
            r.Ok? ==> r.value !in Run(s, ops[..k]).ids
  {
    RunTables(s, ops);
    RunSplit(s, ops, k);
    RunTables(s, ops[..k]);
    RunTables(Run(s, ops[..k]), ops[k..]);
    if Run(s, ops).pid != 0 {
      AddContract(Run(s, ops), a, peek, poke);
    }
  }

  /** Adding at an address that has a breakpoint returns its id and changes nothing. */
  lemma AddIsIdempotent(s: State, a: u64, peek: bool, poke: bool, peek': bool, poke': bool)
    requires Tabled(s) && s.pid != 0
    ensures var (s', r) := Add(s, a, peek, poke);
            r.Ok? ==> Add(s', a, peek', poke') == (s', r)
  {
    AddContract(s, a, peek, poke);
    AddKeepsTables(s, a, peek, poke);
    var (s', r) := Add(s, a, peek, poke);
    if r.Ok? {
      AddContract(s', a, peek', poke');
    }
  }

  /** Removing a breakpoint that was just added, by its id or by its address, undoes the addition, next
      to whatever other sites: memory and both tables are as before; only the id is spent. */
  lemma RemoveUndoesAdd(s: State, a: u64, peek: bool, poke: bool)
    requires Tabled(s) && s.pid != 0 && a !in s.sites
    ensures var (s1, r1) := Add(s, a, peek, poke);
            r1.Ok? ==>
              && RemoveId(s1, r1.value, true) == (s.(next := s.next + 1), Ok(true))
              && RemoveAt(s1, a, true) == (s.(next := s.next + 1), Ok(true))
  {
    AddContract(s, a, peek, poke);
    if Add(s, a, peek, poke).1.Ok? {
      RemoveAdded(s, a);
    }
  }

  lemma RemoveAdded(s: State, a: u64)
    requires Tabled(s) && s.pid != 0 && a !in s.sites && s.tracee.CanPoke(a, true)
    ensures RemoveAt(Added(s, a), a, true) == (s.(next := s.next + 1), Ok(true))
    ensures RemoveId(Added(s, a), s.next, true) == (s.(next := s.next + 1), Ok(true))
  {
    AddThenRemoveMemory(s.tracee, a);
    AddThenRemoveTables(s.ids, s.sites, s.next, a, Peek(s.tracee.mem, a));
    PokeMapped(s.tracee.mem, a, TRAP);
  }

  lemma PokeMapped(m: Mem, a: int, w: u64)
    ensures Mapped(Poke(m, a, w), a)
  {
  }

  lemma AddThenRemoveMemory(t: Tracee, a: u64)
    requires Mapped(t.mem, a)
    ensures t.PokeData(a, TRAP).PokeData(a, Peek(t.mem, a)) == t
  {
    PokePoke(t.mem, a, TRAP, Peek(t.mem, a));
    PokePeek(t.mem, a);
  }

  lemma AddThenRemoveTables(ids: map<Id, u64>, sites: map<u64, u64>, next: Id, a: u64, word: u64)
    requires TablesOk(ids, sites.Keys, next) && a !in sites
    ensures sites[a := word] - {a} == sites
    ensures WithoutAddress(ids[next := a], a) == ids
  {
    assert forall id | id in ids :: ids[id] in sites.Keys && id != next;
    assert WithoutAddress(ids[next := a], a).Keys == ids.Keys;
  }

  /** Neither memory nor tables changed. */
  ghost predicate Quiet(s: State, s': State)
  {
    && s'.pid == s.pid && SameTables(s, s')
    && s'.tracee.mem == s.tracee.mem && s'.tracee.base == s.tracee.base
  }

  lemma SaveIsQuiet(s: State, save: nat)
    ensures Quiet(s, Save(s, save).0)
  {
  }

  lemma EnableIsQuiet(s: State, a: u64, load: nat, save: nat)
    ensures Quiet(s, EnableHw(s, a, load, save).0)
  {
    var s1 := Load(s, load).0;
    match FirstFree(s1.cache.file.hwBreak, 0) {
      case None =>
      case Some(slot) =>
        SaveIsQuiet(Put(Put(s1, Full(AddrIndex(slot)), a), Full(CtrlIndex(slot)), BREAK_CTRL), save);
    }
  }

  lemma DisableIsQuiet(s: State, slot: int, load: nat, save: nat)
    ensures Quiet(s, DisableHw(s, slot, load, save).0)
  {
    if 0 <= slot < 16 {
      var s1 := Load(s, load).0;
      var ctrl := SlotCtrl(s1.cache.file.hwBreak, slot);
      SaveIsQuiet(Put(s1, Full(CtrlIndex(slot)), WithoutE(ctrl)), save);
    }
  }

  lemma WriteIsQuiet(s: State, h: Handle, v: nat, save: nat)
    ensures ValidHandle(h) ==> Quiet(s, WriteRegister(s, h, v, save).0)
  {
    if ValidHandle(h) {
      SaveIsQuiet(Put(s, h, v), save);
    }
  }

  lemma QuietOps(s: State, op: Op)
    requires op.ResumeOp? || op.EnableOp? || op.DisableOp? || op.WriteOp?
    ensures Quiet(s, Do(s, op))
  {
    match op {
      case ResumeOp(_) =>
      case EnableOp(a, load, save) => EnableIsQuiet(s, a, load, save);
      case DisableOp(slot, load, save) => DisableIsQuiet(s, slot, load, save);
      case WriteOp(h, v, save) => WriteIsQuiet(s, h, v, save);
    }
  }

  // ---------------------------------------------------------------------------
  // The layout: disjoint windows the program does not store into
  // ---------------------------------------------------------------------------

  /** Tables and memory agree: every site has one id, and memory is the program with the trap over
      exactly the sites of `armed`. Once the tracee is known to be gone only the tables matter. */
  ghost predicate Inv(s: State, armed: set<u64>)
  {
    Tabled(s) && (s.pid != 0 ==> SitesOk(s.tracee, s.sites, armed))
  }

  /** A new site, if the kernel grants it, is armed; no other trap changes. */
  lemma AddKeeps(s: State, a: u64, peek: bool, poke: bool, armed: set<u64>)
    requires Tabled(s) && s.pid != 0 && SitesOk(s.tracee, s.sites, armed)
    requires Allowed(s, AddOp(a, peek, poke))
    ensures var s' := Add(s, a, peek, poke).0;
            && s'.pid == s.pid
            && SitesOk(s'.tracee, s'.sites, ArmedBy(s, AddOp(a, peek, poke), armed))
  {
    AddContract(s, a, peek, poke);
    if a !in s.sites && peek && s.tracee.CanPoke(a, poke) {
      NewSite(s, a, armed);
    }
  }

  lemma NewSite(s: State, a: u64, armed: set<u64>)
    requires SitesOk(s.tracee, s.sites, armed) && a !in s.sites && Disjoint(s.sites.Keys + {a})
    requires Mapped(s.tracee.mem, a)
    ensures SitesOk(Added(s, a).tracee, Added(s, a).sites, armed + {a})
  {
    assert Added(s, a).sites.Keys == s.sites.Keys + {a};
    FreeWindow(s.tracee.mem, s.tracee.base, armed, a);
    LaidArm(s.tracee.mem, s.tracee.base, armed, a);
  }

  /** A removed site shows the program again; no other trap changes. */
  lemma RemoveKeeps(s: State, a: u64, poke: bool, armed: set<u64>)
    requires s.pid != 0 && SitesOk(s.tracee, s.sites, armed)
    ensures var (s', r) := RemoveAt(s, a, poke);
            && s'.pid == s.pid
            && SitesOk(s'.tracee, s'.sites, ArmedByRemove(s, a, poke, armed))
            && (r.Err? ==> s' == s)
            && (r.Ok? ==> a !in s'.sites && !HasId(s'.ids, a))
  {
    if a in s.sites && s.tracee.CanPoke(a, poke) {
      DisarmKeeps(s.tracee, s.sites, armed, a);
      FewerSites(s.tracee.PokeData(a, s.sites[a]), s.sites, armed - {a}, a);
    } else if a !in s.sites {
      assert s.sites - {a} == s.sites && armed - {a} == armed;
    }
  }

  lemma FewerSites(t: Tracee, sites: map<u64, u64>, armed: set<u64>, a: u64)
    requires SitesOk(t, sites, armed) && a !in armed
    ensures SitesOk(t, sites - {a}, armed)
  {
    assert (sites - {a}).Keys == sites.Keys - {a};
  }

  /** Every operation, failures included, keeps the invariant, and which sites are armed afterwards is
      exactly what the kernel's answers say. */
  lemma OpKeeps(s: State, op: Op, armed: set<u64>)
    requires Inv(s, armed) && Allowed(s, op)
    ensures Inv(Do(s, op), ArmedBy(s, op, armed))
  {
    OpTables(s, op);
    if s.pid != 0 {
      OpKeepsSites(s, op, armed);
    } else {
      GoneStaysGone(s, op);
    }
  }

  lemma GoneStaysGone(s: State, op: Op)
    requires s.pid == 0
    ensures Do(s, op).pid == 0
  {
    match op {
      case WaitOp(env) => WaitTables(s, env);
      case StepOp(env) => StepTables(s, env);
      case AddOp(_, _, _) =>
      case RemoveAtOp(_, _) =>
      case RemoveIdOp(_, _) =>
      case _ => QuietOps(s, op);
    }
  }

  lemma OpKeepsSites(s: State, op: Op, armed: set<u64>)
    requires Inv(s, armed) && Allowed(s, op) && s.pid != 0
    ensures SitesOk(Do(s, op).tracee, Do(s, op).sites, ArmedBy(s, op, armed))
  {
    match op {
      case AddOp(a, peek, poke) => AddKeeps(s, a, peek, poke, armed);
      case RemoveAtOp(a, poke) => RemoveKeeps(s, a, poke, armed);
      case RemoveIdOp(id, poke) =>
        if id in s.ids {
          RemoveKeeps(s, s.ids[id], poke, armed);
        }
      case WaitOp(env) =>
        WaitKeeps(s, env, armed);
        WaitTables(s, env);
      case StepOp(env) =>
        StepKeeps(s, env, armed);
        StepTables(s, env);
      case _ => QuietOps(s, op);
    }
  }

  /** Any run, failures included, keeps the invariant. */
  lemma {:induction false} RunInvariant(s: State, ops: seq<Op>, armed: set<u64>)
    requires Inv(s, armed) && RunAllowed(s, ops)
    ensures Inv(Run(s, ops), RunArmed(s, ops, armed))
    decreases |ops|
  {
    if ops != [] {
      OpKeeps(s, ops[0], armed);
      RunInvariant(Do(s, ops[0]), ops[1..], ArmedBy(s, ops[0], armed));
    }
  }

  /** After any run, failures included, as long as the tracee lives: its memory is the program with the
      8-byte trap word over exactly the sites armed according to the kernel's answers, and every saved
      word is the program's. All current sites hold the trap exactly when the program has it itself at
      every site that is not among them. */
  lemma RunOverlay(s: State, ops: seq<Op>, armed: set<u64>)
    requires Inv(s, armed) && RunAllowed(s, ops)
    ensures var s' := Run(s, ops);
            var armed' := RunArmed(s, ops, armed);
            s'.pid != 0 ==>
              && armed' <= s'.sites.Keys
              && s'.tracee.mem == Overlay(s'.tracee.base, armed')
              && (forall a | a in s'.sites :: Mapped(s'.tracee.base, a) && s'.sites[a] == Peek(s'.tracee.base, a))
              && (s'.tracee.mem == Overlay(s'.tracee.base, s'.sites.Keys)
                  <==> forall a | a in s'.sites && a !in armed' :: s'.sites[a] == TRAP)
  {
    RunInvariant(s, ops, armed);
    var s' := Run(s, ops);
    if s'.pid != 0 {
      OverlayIff(s'.tracee, s'.sites, RunArmed(s, ops, armed));
    }
  }

  lemma OverlayIff(t: Tracee, sites: map<u64, u64>, armed: set<u64>)
    requires SitesOk(t, sites, armed)
    ensures t.mem == Overlay(t.base, armed)
    ensures t.mem == Overlay(t.base, sites.Keys) <==> forall a | a in sites && a !in armed :: sites[a] == TRAP
  {
    ArmedIff(t, sites, armed);
    ArmedIsOverlay(t.mem, t.base, armed);
    ArmedIsOverlay(t.mem, t.base, sites.Keys);
    assert forall x :: Covered(armed, x) ==> Covered(sites.Keys, x);
  }

  /** The waits and steps of a run all return normally; any other operation may fail. */
  ghost predicate Returns(s: State, op: Op)
  {
    match op
    case WaitOp(env) => Wait(s, env).1.Ok?
    case StepOp(env) => Step(s, env).1.Ok?
    case _ => true
  }

  ghost predicate RunReturns(s: State, ops: seq<Op>)
    decreases |ops|
  {
    ops == [] || (Returns(s, ops[0]) && RunReturns(Do(s, ops[0]), ops[1..]))
  }

  /** After any run whose waits and steps return, as long as the tracee lives, memory is the program with
      the trap over exactly the current sites. */
  lemma RunArmsAll(s: State, ops: seq<Op>)
    requires Inv(s, s.sites.Keys) && RunAllowed(s, ops) && RunReturns(s, ops)
    ensures var s' := Run(s, ops);
            && Inv(s', s'.sites.Keys)
            && (s'.pid != 0 ==>
                  && s'.tracee.mem == Overlay(s'.tracee.base, s'.sites.Keys)
                  && (forall a | a in s'.sites :: Mapped(s'.tracee.base, a) && s'.sites[a] == Peek(s'.tracee.base, a)))
  {
    RunStaysArmed(s, ops);
    var s' := Run(s, ops);
    if s'.pid != 0 {
      OverlayIff(s'.tracee, s'.sites, s'.sites.Keys);
    }
  }

  lemma {:induction false} RunStaysArmed(s: State, ops: seq<Op>)
    requires Inv(s, s.sites.Keys) && RunAllowed(s, ops) && RunReturns(s, ops)
    ensures Inv(Run(s, ops), Run(s, ops).sites.Keys)
    decreases |ops|
  {
    if ops != [] {
      OpStaysArmed(s, ops[0]);
      RunStaysArmed(Do(s, ops[0]), ops[1..]);
    }
  }

  lemma OpStaysArmed(s: State, op: Op)
    requires Inv(s, s.sites.Keys) && Allowed(s, op) && Returns(s, op)
    ensures Inv(Do(s, op), Do(s, op).sites.Keys)
  {
    OpKeeps(s, op, s.sites.Keys);
    if s.pid == 0 {
      GoneStaysGone(s, op);
    } else {
      match op {
        case AddOp(a, peek, poke) => AddArmsAll(s, a, peek, poke);
        case RemoveAtOp(a, poke) => RemoveArmsAll(s, a, poke);
        case RemoveIdOp(id, poke) =>
          if id in s.ids {
            RemoveArmsAll(s, s.ids[id], poke);
          }
        case WaitOp(env) =>
          WaitTables(s, env);
          WaitArmsAll(s, env);
        case StepOp(env) =>
          StepTables(s, env);
          StepArmsAll(s, env);
        case _ => QuietOps(s, op);
      }
    }
  }

  lemma AddArmsAll(s: State, a: u64, peek: bool, poke: bool)
    requires Tabled(s) && s.pid != 0
    ensures ArmedBy(s, AddOp(a, peek, poke), s.sites.Keys) == Add(s, a, peek, poke).0.sites.Keys
  {
    AddContract(s, a, peek, poke);
  }

  lemma RemoveArmsAll(s: State, a: u64, poke: bool)
    requires s.pid != 0
    ensures ArmedByRemove(s, a, poke, s.sites.Keys) == RemoveAt(s, a, poke).0.sites.Keys
  {
  }

  /** A wait that returns leaves no trap lifted. */
  lemma WaitArmsAll(s: State, env: WaitEnv)
    requires s.pid != 0 && SitesOk(s.tracee, s.sites, s.sites.Keys) && Wait(s, env).1.Ok?
    ensures WaitArmed(s, env, s.sites.Keys) == s.sites.Keys
  {
    SitesMapped(s.tracee, s.sites, s.sites.Keys);
    WaitStopsIff(s, env);
  }

  /** Nor does a step. */
  lemma StepArmsAll(s: State, env: StepEnv)
    requires s.pid != 0 && SitesOk(s.tracee, s.sites, s.sites.Keys) && Step(s, env).1.Ok?
    ensures StepArmed(s, env, s.sites.Keys) == s.sites.Keys
  {
    var pc := Pc(s.tracee.regs);
    SitesMapped(s.tracee, s.sites, s.sites.Keys);
    StepStopsIff(s, env);
    StepUnfolds(s, env);
    if pc !in s.sites {
      var s1 := Load(s, env.load).0;
      CacheUnused(Stepped(s), s1.cache, env.wait);
      WaitArmsAll(Stepped(s1), env.wait);
    } else {
      EndedStep(s, env);
      StoppedStepArms(s, env);
    }
  }

  lemma StoppedStepArms(s: State, env: StepEnv)
    requires StepStops(s, env) && Pc(s.tracee.regs) in s.sites
    ensures StepArmed(s, env, s.sites.Keys) == s.sites.Keys
  {
  }

  /** A step from a site that ends the process does not return normally. */
  lemma EndedStep(s: State, env: StepEnv)
    requires Step(s, env).1.Ok? && Pc(s.tracee.regs) in s.sites
    ensures Step(s, env).1.value.reason.STOPPED?
  {
    StepUnfolds(s, env);
    var lifted := Lifted(Load(s, env.load).0, Pc(s.tracee.regs));
    if !Wait(lifted, env.wait).1.value.reason.STOPPED? {
      EndedAfterWait(lifted, env.wait);
    }
  }

  /** A freshly launched or attached process satisfies the premises of the theorems about runs. */
  lemma FreshProcess(s: State)
    requires s.sites == map[] && s.ids == map[] && s.next == 1 && s.tracee.mem == s.tracee.base
    ensures Inv(s, {})
  {
  }
}
