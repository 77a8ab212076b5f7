/** The hardware slots over runs of all operations (src/breakpoints.cpp:161-209, src/registers.cpp:54-108).
    There are two tables of slots, the tracee's and the cached one. A load makes the cached one the
    tracee's; a save writes the implemented slots of the cached one to the tracee. So what an operation
    left in the cache only, because its save was refused, reaches the tracee with the next save that is
    not preceded by a load: a register write. */
module SlotRuns {
  import opened Bits
  import opened LittleEndian
  import opened Options
  import opened RegisterFile
  import opened Handles
  import opened Tracees
  import opened Protocol
  import opened Sites
  import opened StepContracts
  import opened Runs
  import opened Hardware

  datatype HwSlot = HwSlot(addr: nat, ctrl: nat)

  type Slots = t: seq<HwSlot> | |t| == MAX_SLOTS witness seq(MAX_SLOTS, _ => HwSlot(0, 0))

  /** `loaded` says that the breakpoint regset was transferred at least once. */
  datatype SlotTables = SlotTables(live: Slots, cached: Slots, loaded: bool)

  // ---------------------------------------------------------------------------
  // The abstract machine
  // ---------------------------------------------------------------------------

  /** A load of which `count` transfers go through; the breakpoint regset is the third. */
  function Loads(x: SlotTables, count: nat): SlotTables
  {
    if count >= 3 then SlotTables(x.live, x.live, true) else x
  }

  /** A save likewise, of `n` implemented slots. */
  function Saves(x: SlotTables, n: nat, count: nat): SlotTables
    requires n <= MAX_SLOTS
  {
    if count >= 3 && x.loaded then x.(live := x.cached[..n] + x.live[n..]) else x
  }

  /** The least slot from `slot` on, of the first `n`, that is not enabled. */
  function LeastFree(t: Slots, n: nat, slot: nat): (r: Option<nat>)
    requires slot <= n <= MAX_SLOTS
    ensures r.Some? ==> slot <= r.value < n
    decreases n - slot
  {
    if slot == n then None
    else if t[slot].ctrl % 2 == 0 then Some(slot)
    else LeastFree(t, n, slot + 1)
  }

  /** A write to a register by handle: the cached table, if it is one of its registers. */
  function Written(t: Slots, h: Handle, v: nat): Slots
    requires ValidHandle(h)
  {
    if h.Sub? || h.index < 68 || h.index >= 100 then t
    else
      var k := (h.index - 68) / 2;
      if h.index % 2 == 0 then t[k := t[k].(addr := Rem(v, 64))] else t[k := t[k].(ctrl := Rem(v, 32))]
  }

  /** What an operation does to the two tables, `n` slots being implemented. */
  function SlotDo(s: State, n: nat, op: Op, x: SlotTables): SlotTables
    requires n <= MAX_SLOTS
  {
    match op
    case EnableOp(a, load, save) => if s.pid == 0 then x else EnableTables(s.tracee, n, a, load, save, x)
    case DisableOp(slot, load, save) =>
      if s.pid == 0 || slot < 0 || slot > 15 then x else DisableTables(s.tracee, n, slot, load, save, x)
    case WriteOp(h, v, save) =>
      if ValidHandle(h) then Saves(x.(cached := Written(x.cached, h, v)), n, s.tracee.Transfers(save)) else x
    case WaitOp(env) => if SeenStopped(s, env) then Loads(x, Stop(s, env).Transfers(env.load)) else x
    case StepOp(env) => if s.pid == 0 then x else Loads(x, s.tracee.Transfers(env.load))
    case _ => x
  }

  function EnableTables(t: Tracee, n: nat, a: u64, load: nat, save: nat, x: SlotTables): SlotTables
    requires n <= MAX_SLOTS
  {
    var x1 := Loads(x, t.Transfers(load));
    if t.Transfers(load) < 4 then x1
    else
      match LeastFree(x1.cached, if n == 0 then MAX_SLOTS else n, 0)
      case None => x1
      case Some(k) => Saves(x1.(cached := x1.cached[k := HwSlot(a, BREAK_CTRL)]), n, t.Transfers(save))
  }

  function DisableTables(t: Tracee, n: nat, k: nat, load: nat, save: nat, x: SlotTables): SlotTables
    requires n <= MAX_SLOTS && k < MAX_SLOTS
  {
    var x1 := Loads(x, t.Transfers(load));
    if t.Transfers(load) < 4 then x1
    else
      var slot := x1.cached[k];
      Saves(x1.(cached := x1.cached[k := slot.(ctrl := WithoutE(slot.ctrl))]), n, t.Transfers(save))
  }

  /** The tracee as a wait finds it, and whether the wait loads its registers. */
  function Stop(s: State, env: WaitEnv): Tracee
  {
    s.tracee.Waited(env.outer).0
  }

  predicate SeenStopped(s: State, env: WaitEnv)
  {
    var status := s.tracee.Waited(env.outer).1;
    s.pid != 0 && s.attached && status.Some? && status.value.reason.STOPPED?
  }

  ghost function SlotsRun(s: State, n: nat, ops: seq<Op>, x: SlotTables): SlotTables
    requires n <= MAX_SLOTS
    decreases |ops|
  {
    if ops == [] then x else SlotsRun(Do(s, ops[0]), n, ops[1..], SlotDo(s, n, ops[0], x))
  }

  // ---------------------------------------------------------------------------
  // The debugger's two regsets as tables
  // ---------------------------------------------------------------------------

  function SlotAt(hw: HwBytes, k: nat): HwSlot
    requires k < MAX_SLOTS
  {
    HwSlot(SlotAddr(hw, k), SlotCtrl(hw, k))
  }

  function TableOf(hw: HwBytes): Slots
  {
    seq(MAX_SLOTS, k requires 0 <= k < MAX_SLOTS => SlotAt(hw, k))
  }

  function SlotsOf(s: State): SlotTables
  {
    SlotTables(TableOf(s.tracee.regs.hwBreak), TableOf(s.cache.file.hwBreak), s.cache.breakSize != 0)
  }

  /** `n` slots are implemented, and the size the cache writes back is theirs, or 0 before the first
      load. */
  ghost predicate Sized(s: State, n: nat)
  {
    && n <= MAX_SLOTS && s.tracee.regs.hwBreak[0] == n
    && (s.cache.breakSize != 0 ==>
          s.cache.breakSize == 8 + 16 * n && s.cache.file.hwBreak[..8] == s.tracee.regs.hwBreak[..8])
  }

  lemma SameTable(hw: HwBytes, t: Slots)
    requires forall k: nat | k < MAX_SLOTS :: SlotAt(hw, k) == t[k]
    ensures TableOf(hw) == t
  {
  }

  /** A save of whole slots: the saved ones of the front, the others of the back. */
  lemma PrefixSlots(front: HwBytes, back: HwBytes, n: nat)
    requires n <= MAX_SLOTS
    ensures TableOf(Prefix(front, back, 8 + 16 * n)) == TableOf(front)[..n] + TableOf(back)[n..]
    ensures front[..8] == back[..8] ==> Prefix(front, back, 8 + 16 * n)[..8] == back[..8]
  {
    var r: HwBytes := Prefix(front, back, 8 + 16 * n);
    forall k: nat | k < MAX_SLOTS
      ensures SlotAt(r, k) == (TableOf(front)[..n] + TableOf(back)[n..])[k]
    {
      PrefixSlot(front, back, r, n, k);
    }
    SameTable(r, TableOf(front)[..n] + TableOf(back)[n..]);
  }

  lemma PrefixSlot(front: HwBytes, back: HwBytes, r: HwBytes, n: nat, k: nat)
    requires n <= MAX_SLOTS && k < MAX_SLOTS && r == Prefix(front, back, 8 + 16 * n)
    ensures SlotAt(r, k) == if k < n then SlotAt(front, k) else SlotAt(back, k)
  {
    var o := SlotOffset(k);
    PrefixSlice(front, back, 8 + 16 * n, o, 8);
    PrefixSlice(front, back, 8 + 16 * n, o + 8, 4);
  }

  lemma PrefixSlice(front: HwBytes, back: HwBytes, m: nat, o: nat, size: nat)
    requires m <= HW_SIZE && o + size <= HW_SIZE
    ensures o + size <= m ==> Prefix(front, back, m)[o..o + size] == front[o..o + size]
    ensures m <= o ==> Prefix(front, back, m)[o..o + size] == back[o..o + size]
  {
    var r := Prefix(front, back, m);
    assert forall i: nat | i < m :: r[i] == front[i];
    assert forall i: nat | m <= i < HW_SIZE :: r[i] == back[i];
  }

  // ---------------------------------------------------------------------------
  // Loads, saves and writes
  // ---------------------------------------------------------------------------

  lemma LoadSlots(s: State, answers: nat, n: nat)
    requires Sized(s, n)
    ensures var s' := Load(s, answers).0;
            && Sized(s', n) && s'.tracee == s.tracee && s'.pid == s.pid
            && SlotsOf(s') == Loads(SlotsOf(s), s.tracee.Transfers(answers))
  {
  }

  lemma SaveSlots(s: State, answers: nat, n: nat)
    requires Sized(s, n)
    ensures var s' := Save(s, answers).0;
            && Sized(s', n) && s'.cache == s.cache && s'.pid == s.pid
            && SlotsOf(s') == Saves(SlotsOf(s), n, s.tracee.Transfers(answers))
  {
    var front, back := s.cache.file.hwBreak, s.tracee.regs.hwBreak;
    if s.cache.breakSize != 0 {
      PrefixSlots(front, back, n);
      assert Prefix(front, back, 8 + 16 * n)[0] == Prefix(front, back, 8 + 16 * n)[..8][0];
      assert back[0] == back[..8][0];
    } else {
      assert Prefix(front, back, 0) == back;
    }
  }

  lemma PutSlots(s: State, h: Handle, v: nat, n: nat)
    requires Sized(s, n) && ValidHandle(h)
    ensures var s' := Put(s, h, v);
            && Sized(s', n) && s'.tracee == s.tracee && s'.pid == s.pid
            && SlotsOf(s') == SlotsOf(s).(cached := Written(SlotsOf(s).cached, h, v))
  {
    var f := s.cache.file;
    var r := WriteHandle(f, h, v);
    WholeFileLaw(f, h, v, Place(HwBreak, 0, 8));
    assert Field(r, Place(HwBreak, 0, 8)) == r.hwBreak[..8] && Field(f, Place(HwBreak, 0, 8)) == f.hwBreak[..8];
    WriteSlots(f, h, v);
  }

  lemma WriteSlots(f: RegFile, h: Handle, v: nat)
    requires ValidHandle(h)
    ensures TableOf(WriteHandle(f, h, v).hwBreak) == Written(TableOf(f.hwBreak), h, v)
  {
    if h.Sub? || h.index < 68 || h.index >= 100 {
      assert !HomePlace(h).regset.HwBreak?;
    } else {
      SlotWritten(f, h.index, (h.index - 68) / 2, v);
    }
  }

  lemma SlotWritten(f: RegFile, i: nat, k: nat, v: nat)
    requires k < MAX_SLOTS && (i == AddrIndex(k) || i == CtrlIndex(k))
    ensures TableOf(WriteHandle(f, Full(i), v).hwBreak) == Written(TableOf(f.hwBreak), Full(i), v)
  {
    WrittenAt(TableOf(f.hwBreak), k, v);
    if i == AddrIndex(k) {
      AddrWritten(f, k, v);
    } else {
      CtrlWritten(f, k, v);
    }
  }

  lemma WrittenAt(t: Slots, k: nat, v: nat)
    requires k < MAX_SLOTS
    ensures Written(t, Full(AddrIndex(k)), v) == t[k := t[k].(addr := Rem(v, 64))]
    ensures Written(t, Full(CtrlIndex(k)), v) == t[k := t[k].(ctrl := Rem(v, 32))]
  {
  }

  lemma AddrWritten(f: RegFile, k: nat, v: nat)
    requires k < MAX_SLOTS
    ensures var t := TableOf(f.hwBreak);
            TableOf(WriteHandle(f, Full(AddrIndex(k)), v).hwBreak) == t[k := t[k].(addr := Rem(v, 64))]
  {
    var r := WriteHandle(f, Full(AddrIndex(k)), v);
    SlotEntries(k);
    PutSlotField(f, k, AddrPlace(k), FromNat(v, 8));
    ToNatFromNat(v, 8);
    TableChange(f.hwBreak, r.hwBreak, k, HwSlot(Rem(v, 64), SlotCtrl(f.hwBreak, k)));
  }

  lemma CtrlWritten(f: RegFile, k: nat, v: nat)
    requires k < MAX_SLOTS
    ensures var t := TableOf(f.hwBreak);
            TableOf(WriteHandle(f, Full(CtrlIndex(k)), v).hwBreak) == t[k := t[k].(ctrl := Rem(v, 32))]
  {
    var r := WriteHandle(f, Full(CtrlIndex(k)), v);
    SlotEntries(k);
    PutSlotField(f, k, CtrlPlace(k), FromNat(v, 4));
    ToNatFromNat(v, 4);
    TableChange(f.hwBreak, r.hwBreak, k, HwSlot(SlotAddr(f.hwBreak, k), Rem(v, 32)));
  }

  lemma TableChange(before: HwBytes, after: HwBytes, k: nat, slot: HwSlot)
    requires k < MAX_SLOTS && SlotAt(after, k) == slot
    requires forall j: nat | j < MAX_SLOTS && j != k ::
               SlotAddr(after, j) == SlotAddr(before, j) && SlotCtrl(after, j) == SlotCtrl(before, j)
    ensures TableOf(after) == TableOf(before)[k := slot]
  {
    forall j: nat | j < MAX_SLOTS && j != k
      ensures SlotAt(after, j) == SlotAt(before, j)
    {
      assert SlotAddr(after, j) == SlotAddr(before, j);
    }
    SameTable(after, TableOf(before)[k := slot]);
  }

  /** The two registers of a slot, with values that fit. */
  lemma PutAddr(s: State, k: nat, a: u64, n: nat)
    requires Sized(s, n) && k < MAX_SLOTS
    ensures var s' := Put(s, Full(AddrIndex(k)), a);
            var t := SlotsOf(s).cached;
            && Sized(s', n) && s'.tracee == s.tracee && s'.pid == s.pid
            && SlotsOf(s') == SlotsOf(s).(cached := t[k := t[k].(addr := a)])
  {
    PutSlots(s, Full(AddrIndex(k)), a, n);
    WrittenAt(SlotsOf(s).cached, k, a);
    SmallWord(a, 64);
  }

  lemma PutCtrl(s: State, k: nat, v: nat, n: nat)
    requires Sized(s, n) && k < MAX_SLOTS && v < 0x1_0000_0000
    ensures var s' := Put(s, Full(CtrlIndex(k)), v);
            var t := SlotsOf(s).cached;
            && Sized(s', n) && s'.tracee == s.tracee && s'.pid == s.pid
            && SlotsOf(s') == SlotsOf(s).(cached := t[k := t[k].(ctrl := v)])
  {
    PutSlots(s, Full(CtrlIndex(k)), v, n);
    WrittenAt(SlotsOf(s).cached, k, v);
    SmallWord(v, 32);
  }

  // ---------------------------------------------------------------------------
  // Waits and steps
  // ---------------------------------------------------------------------------

  /** The cached breakpoint regset is the tracee's. */
  predicate HwSynced(s: State)
  {
    s.cache.file.hwBreak == s.tracee.regs.hwBreak && s.cache.breakSize == DebugSize(s.tracee.regs.hwBreak)
  }

  /** It still is, and that regset is as it was. */
  predicate StaysSynced(s: State, s': State)
  {
    HwSynced(s') && s'.tracee.regs.hwBreak == s.tracee.regs.hwBreak
  }

  lemma RearmSynced(s: State, loc: u64, poke: bool, save: nat)
    requires HwSynced(s)
    ensures StaysSynced(s, Rearm(s, loc, poke, save).0)
  {
    SameRegset(s.tracee.regs.hwBreak, s.cache.breakSize);
  }

  lemma FinishSynced(s: State, waited: bool, loc: u64, reason: StopReason, env: WaitEnv)
    requires HwSynced(s)
    ensures StaysSynced(s, FinishStepOver(s, waited, loc, reason, env).0)
  {
    RearmSynced(s, loc, env.rearm, env.save);
  }

  lemma StepOverSynced(s: State, loc: u64, reason: StopReason, env: WaitEnv)
    requires HwSynced(s) && loc in s.sites
    ensures StaysSynced(s, StepOver(s, loc, reason, env).0)
  {
    if s.pid != 0 && s.tracee.CanPoke(loc, env.disarm) && env.step {
      var t := s.tracee.PokeData(loc, s.sites[loc]).(mode := Stepping);
      StepOverUnfolds(s, loc, reason, env);
      WaitedFrame(t, env.inner);
      FinishSynced(s.(tracee := t.Waited(env.inner).0), t.Waited(env.inner).1.Some?, loc, reason, env);
    }
  }

  lemma WaitSynced(s: State, env: WaitEnv)
    requires HwSynced(s)
    ensures StaysSynced(s, Wait(s, env).0)
  {
    WaitedFrame(s.tracee, env.outer);
    match StepsOverAt(s, env) {
      case None =>
      case Some(loc) =>
        WaitAtSite(s, env, loc);
        StepOverSynced(Arrived(s, env), loc, s.tracee.Waited(env.outer).1.value, env);
    }
  }

  lemma StepAtSynced(s: State, pc: u64, env: StepEnv)
    requires HwSynced(s)
    ensures StaysSynced(s, StepAt(s, pc, env).0)
  {
    if pc !in s.sites {
      WaitSynced(Stepped(s), env.wait);
    } else if s.pid != 0 && s.tracee.CanPoke(pc, env.disarm) && env.step {
      var (s2, r2) := Wait(Lifted(s, pc), env.wait);
      WaitSynced(Lifted(s, pc), env.wait);
      FinishStepSynced(s2, r2, pc, env);
    }
  }

  lemma FinishStepSynced(s: State, waited: Result<StopReason>, loc: u64, env: StepEnv)
    requires HwSynced(s)
    ensures StaysSynced(s, FinishStep(s, waited, loc, env).0)
  {
    if waited.Ok? {
      RearmSynced(s, loc, env.rearm, env.save);
    }
  }

  /** Synced tables after a load stay what the load made them. */
  lemma SyncedSlots(s: State, s1: State, s': State, n: nat)
    requires Sized(s1, n) && HwSynced(s1) && StaysSynced(s1, s') && s1.tracee.regs.hwBreak == s.tracee.regs.hwBreak
    ensures Sized(s', n) && SlotsOf(s') == SlotTables(SlotsOf(s).live, SlotsOf(s).live, true)
  {
  }

  lemma WaitSlots(s: State, env: WaitEnv, n: nat)
    requires Sized(s, n)
    ensures Sized(Wait(s, env).0, n) && SlotsOf(Wait(s, env).0) == SlotDo(s, n, WaitOp(env), SlotsOf(s))
  {
    WaitedFrame(s.tracee, env.outer);
    if StepsOverAt(s, env).Some? {
      var loc := StepsOverAt(s, env).value;
      WaitAtSite(s, env, loc);
      StepOverSynced(Arrived(s, env), loc, s.tracee.Waited(env.outer).1.value, env);
      SyncedSlots(s, Arrived(s, env), Wait(s, env).0, n);
    } else if SeenStopped(s, env) {
      LoadSlots(s.(tracee := Stop(s, env), run := STOPPED), env.load, n);
    }
  }

  lemma StepSlots(s: State, env: StepEnv, n: nat)
    requires Sized(s, n)
    ensures Sized(Step(s, env).0, n) && SlotsOf(Step(s, env).0) == SlotDo(s, n, StepOp(env), SlotsOf(s))
  {
    if s.pid != 0 {
      var s1 := Load(s, env.load).0;
      LoadSlots(s, env.load, n);
      if s.tracee.Transfers(env.load) == 4 {
        StepAtSynced(s1, Pc(s1.cache.file), env);
        SyncedSlots(s, s1, Step(s, env).0, n);
      }
    }
  }

  // ---------------------------------------------------------------------------
  // Enables and disables
  // ---------------------------------------------------------------------------

  lemma {:induction false} LeastFreeIs(hw: HwBytes, n: nat, slot: nat)
    requires n == Scanned(hw) && slot <= n
    ensures LeastFree(TableOf(hw), n, slot) == FirstFree(hw, slot)
    decreases n - slot
  {
    if slot < n {
      LeastFreeIs(hw, n, slot + 1);
    }
  }

  lemma EnableSlots(s: State, a: u64, load: nat, save: nat, n: nat)
    requires Sized(s, n) && s.pid != 0
    ensures var s' := EnableHw(s, a, load, save).0;
            Sized(s', n) && SlotsOf(s') == EnableTables(s.tracee, n, a, load, save, SlotsOf(s))
  {
    var s1 := Load(s, load).0;
    LoadSlots(s, load, n);
    if s.tracee.Transfers(load) == 4 {
      LeastFreeIs(s1.cache.file.hwBreak, if n == 0 then MAX_SLOTS else n, 0);
      match FirstFree(s1.cache.file.hwBreak, 0) {
        case None =>
        case Some(k) =>
          ProgramSlots(s1, k, a, n);
          SaveSlots(Put(Put(s1, Full(AddrIndex(k)), a), Full(CtrlIndex(k)), BREAK_CTRL), save, n);
      }
    }
  }

  lemma ProgramSlots(s: State, k: nat, a: u64, n: nat)
    requires Sized(s, n) && k < MAX_SLOTS
    ensures var s' := Put(Put(s, Full(AddrIndex(k)), a), Full(CtrlIndex(k)), BREAK_CTRL);
            && Sized(s', n) && s'.tracee == s.tracee && s'.pid == s.pid
            && SlotsOf(s') == SlotsOf(s).(cached := SlotsOf(s).cached[k := HwSlot(a, BREAK_CTRL)])
  {
    PutAddr(s, k, a, n);
    PutCtrl(Put(s, Full(AddrIndex(k)), a), k, BREAK_CTRL, n);
  }

  lemma SmallWord(v: nat, k: nat)
    requires (k == 64 && v < 0x1_0000_0000_0000_0000) || (k == 32 && v < 0x1_0000_0000)
    ensures Rem(v, k) == v
  {
    Pow2Values();
    RemSmall(v, k);
  }

  lemma DisableSlots(s: State, k: nat, load: nat, save: nat, n: nat)
    requires Sized(s, n) && s.pid != 0 && k < MAX_SLOTS
    ensures var s' := DisableHw(s, k, load, save).0;
            Sized(s', n) && SlotsOf(s') == DisableTables(s.tracee, n, k, load, save, SlotsOf(s))
  {
    var s1 := Load(s, load).0;
    LoadSlots(s, load, n);
    if s.tracee.Transfers(load) == 4 {
      var ctrl := SlotCtrl(s1.cache.file.hwBreak, k);
      CtrlBound(s1.cache.file, k);
      PutCtrl(s1, k, WithoutE(ctrl), n);
      SaveSlots(Put(s1, Full(CtrlIndex(k)), WithoutE(ctrl)), save, n);
    }
  }

  // ---------------------------------------------------------------------------
  // Runs
  // ---------------------------------------------------------------------------

  lemma OpSlots(s: State, op: Op, n: nat)
    requires Sized(s, n)
    ensures Sized(Do(s, op), n) && SlotsOf(Do(s, op)) == SlotDo(s, n, op, SlotsOf(s))
  {
    match op {
      case EnableOp(a, load, save) =>
        if s.pid != 0 {
          EnableSlots(s, a, load, save, n);
        }
      case DisableOp(slot, load, save) =>
        if s.pid != 0 && 0 <= slot <= 15 {
          DisableSlots(s, slot, load, save, n);
        }
      case WriteOp(h, v, save) =>
        if ValidHandle(h) {
          PutSlots(s, h, v, n);
          SaveSlots(Put(s, h, v), save, n);
        }
      case WaitOp(env) => WaitSlots(s, env, n);
      case StepOp(env) => StepSlots(s, env, n);
      case _ => OthersLeaveSlots(s, op);
    }
  }

  lemma OthersLeaveSlots(s: State, op: Op)
    requires op.AddOp? || op.RemoveAtOp? || op.RemoveIdOp? || op.ResumeOp?
    ensures Do(s, op).cache == s.cache && Do(s, op).tracee.regs == s.tracee.regs
  {
  }

  /** The enabled ones of the first `n` slots, with their addresses. */
  ghost function Enabled(t: Slots, n: nat): map<nat, nat>
  {
    map k: nat | k < n && k < MAX_SLOTS && t[k].ctrl % 2 == 1 :: t[k].addr
  }

  /** Any run, whatever the kernel answers and whatever the cache held: both tables are those of the
      abstract machine, and so are the enabled slots of the tracee. */
  lemma RunSlots(s: State, ops: seq<Op>, n: nat)
    requires Sized(s, n)
    ensures Sized(Run(s, ops), n) && SlotsOf(Run(s, ops)) == SlotsRun(s, n, ops, SlotsOf(s))
    ensures SlotMap(Run(s, ops).tracee.regs.hwBreak) == Enabled(SlotsRun(s, n, ops, SlotsOf(s)).live, n)
  {
    RunTablesOf(s, ops, n);
    SlotMapIs(Run(s, ops), n);
  }

  lemma {:induction false} RunTablesOf(s: State, ops: seq<Op>, n: nat)
    requires Sized(s, n)
    ensures Sized(Run(s, ops), n) && SlotsOf(Run(s, ops)) == SlotsRun(s, n, ops, SlotsOf(s))
    decreases |ops|
  {
    if ops != [] {
      OpSlots(s, ops[0], n);
      RunTablesOf(Do(s, ops[0]), ops[1..], n);
    }
  }

  lemma SlotMapIs(s: State, n: nat)
    requires Sized(s, n)
    ensures SlotMap(s.tracee.regs.hwBreak) == Enabled(SlotsOf(s).live, n)
  {
  }

  /** An enable whose save was refused before the breakpoint regset fails and leaves the tracee alone, but
      the next register write that is saved carries it out, if no load comes first. */
  lemma PendingEnable(s: State, a: u64, save: nat, h: Handle, v: nat)
    requires Sized(s, s.tracee.regs.hwBreak[0]) && s.tracee.regs.hwBreak[0] >= 1
    requires s.pid != 0 && s.tracee.mode.Stopped? && save < 3
    requires ValidHandle(h) && !HomePlace(h).regset.HwBreak?
    ensures var hw := s.tracee.regs.hwBreak;
            var (s1, r1) := EnableHw(s, a, 4, save);
            var s2 := WriteRegister(s1, h, v, 4).0;
            FirstFree(hw, 0).Some? ==>
              && r1 == Err(RegistersFailed) && SlotMap(s1.tracee.regs.hwBreak) == SlotMap(hw)
              && SlotMap(s2.tracee.regs.hwBreak) == SlotMap(hw)[FirstFree(hw, 0).value := a]
  {
    var hw := s.tracee.regs.hwBreak;
    if FirstFree(hw, 0).Some? {
      var k := FirstFree(hw, 0).value;
      EnableUnfolds(s, a, 4, save);
      PendingSave(s, EnableHw(s, a, 4, save).0, k, a, h, v);
      SlotMapProgrammed(s.tracee.regs, k, a);
    }
  }

  lemma PendingSave(s: State, s1: State, k: nat, a: u64, h: Handle, v: nat)
    requires s.tracee.mode.Stopped? && s1.tracee.mode.Stopped? && k < s.tracee.regs.hwBreak[0]
    requires s1.cache == Fresh(s).cache.(file := Programmed(s.tracee.regs, k, a))
    requires s1.tracee.regs.hwBreak == s.tracee.regs.hwBreak
    requires ValidHandle(h) && !HomePlace(h).regset.HwBreak?
    ensures WriteRegister(s1, h, v, 4).0.tracee.regs.hwBreak == Programmed(s.tracee.regs, k, a).hwBreak
  {
    SaveProgrammed(s.tracee, k, a);
    OtherRegset(s1.cache.file, h, v);
  }

  lemma OtherRegset(f: RegFile, h: Handle, v: nat)
    requires ValidHandle(h) && !HomePlace(h).regset.HwBreak?
    ensures WriteHandle(f, h, v).hwBreak == f.hwBreak
  {
  }
}
