/** The debugger as a state machine (src/process.cpp:160-290, src/breakpoints.cpp:36-209): for every
    operation, the state it leaves and the result it returns, as a function of the state before and
    of the kernel's answers. The classes of `Debugger` are proved to compute these functions; the
    properties the debugger is for are proved about them in the other modules. */
module Protocol {
  import opened LittleEndian
  import opened Options
  import opened RegisterFile
  import opened Handles
  import opened Memory
  import opened Tracees

  datatype Error =
    | NotInitialized | ReadFailed | WriteFailed | ContinueFailed | StepFailed | WaitFailed
    | RegistersFailed | NoFreeSlot | InvalidSlot

  datatype Result<+T> = Ok(value: T) | Err(error: Error)

  /** Breakpoint ids start at 1. */
  type Id = x: int | x >= 1 witness 1

  /** `pid` is 0 once the tracee is known to be gone. */
  datatype State = State(
    pid: nat,
    attached: bool,
    run: ProcessState,
    tracee: Tracee,
    cache: Cache,
    sites: map<u64, u64>,
    ids: map<Id, u64>,
    next: Id)

  // ---------------------------------------------------------------------------
  // Memory and registers
  // ---------------------------------------------------------------------------

  function WriteMemory(s: State, a: u64, w: u64, ok: bool): (State, Result<()>)
  {
    if s.pid == 0 then (s, Err(NotInitialized))
    else if !s.tracee.CanPoke(a, ok) then (s, Err(WriteFailed))
    else (s.(tracee := s.tracee.PokeData(a, w)), Ok(()))
  }

  function ReadMemory(s: State, a: u64, ok: bool): Result<u64>
  {
    if s.pid == 0 then Err(NotInitialized)
    else
      match s.tracee.PeekData(a, ok)
      case None => Err(ReadFailed)
      case Some(w) => Ok(w)
  }

  /** A word is written exactly where it can be read; it is read back, and writing back the word that
      was read before undoes the write. */
  lemma ReadAfterWrite(s: State, a: u64, w: u64, ok: bool)
    ensures var (s', r) := WriteMemory(s, a, w, ok);
            && (r.Ok? <==> ReadMemory(s, a, ok).Ok?)
            && (r.Ok? ==> ReadMemory(s', a, ok) == Ok(w)
                          && WriteMemory(s', a, ReadMemory(s, a, ok).value, ok) == (s, Ok(())))
            && (r.Err? ==> s' == s)
  {
    var mem := s.tracee.mem;
    if WriteMemory(s, a, w, ok).1.Ok? {
      PokeThenPeek(mem, a, w);
      PokePoke(mem, a, w, Peek(mem, a));
      PokePeek(mem, a);
    }
  }

  function Load(s: State, answers: nat): (State, Result<()>)
  {
    var n := s.tracee.Transfers(answers);
    (s.(cache := Loaded(s.cache, s.tracee.regs, n)), if n == 4 then Ok(()) else Err(RegistersFailed))
  }

  function Save(s: State, answers: nat): (State, Result<()>)
  {
    var n := s.tracee.Transfers(answers);
    (s.(tracee := s.tracee.(regs := SavedRegs(s.cache, s.tracee.regs, n))),
     if n == 4 then Ok(()) else Err(RegistersFailed))
  }

  /** A write to a register of the cache. */
  function Put(s: State, h: Handle, v: nat): State
    requires ValidHandle(h)
  {
    s.(cache := s.cache.(file := WriteHandle(s.cache.file, h, v)))
  }

  // ---------------------------------------------------------------------------
  // Step-over
  // ---------------------------------------------------------------------------

  /** `rearm_and_rewind`: the trap goes back, and the cache with its pc set to the site is saved. */
  function Rearm(s: State, loc: u64, poke: bool, save: nat): (State, Result<()>)
  {
    var (s1, r1) := WriteMemory(s, loc, TRAP, poke);
    if r1.Err? then (s1, r1)
    else Save(s1.(cache := s1.cache.(file := SetPc(s1.cache.file, loc))), save)
  }

  /** The best-effort re-arm of the failure paths; if it fails too, its own error is reported. */
  function RearmAfter(s: State, loc: u64, poke: bool, error: Error): (State, Error)
  {
    var (s1, r1) := WriteMemory(s, loc, TRAP, poke);
    (s1, if r1.Err? then r1.error else error)
  }

  /** The kernel's answers to one `wait_on_signal`, in the order of the calls. */
  datatype WaitEnv = WaitEnv(outer: WaitAnswer, load: nat, disarm: bool, step: bool, inner: WaitAnswer,
                             rearm: bool, save: nat, reload: nat)

  /** The transparent step-over at a site: restore the word, step, wait, re-arm, rewind, reload. The
      status of the inner wait is not looked at. */
  function StepOver(s: State, loc: u64, reason: StopReason, env: WaitEnv): (State, Result<StopReason>)
    requires loc in s.sites
  {
    var (s1, r1) := WriteMemory(s, loc, s.sites[loc], env.disarm);
    if r1.Err? then (s1, Err(r1.error))
    else if !env.step then
      var (s2, error) := RearmAfter(s1, loc, env.rearm, StepFailed);
      (s2, Err(error))
    else
      var (t, status) := s1.tracee.(mode := Stepping).Waited(env.inner);
      FinishStepOver(s1.(tracee := t), status.Some?, loc, reason, env)
  }

  /** The rest of a step-over, once the inner wait has returned, with a status or without. */
  function FinishStepOver(s: State, waited: bool, loc: u64, reason: StopReason, env: WaitEnv)
    : (State, Result<StopReason>)
  {
    if !waited then
      var (s1, error) := RearmAfter(s, loc, env.rearm, WaitFailed);
      (s1, Err(error))
    else
      var (s1, r1) := Rearm(s, loc, env.rearm, env.save);
      if r1.Err? then (s1, Err(r1.error))
      else
        var (s2, r2) := Load(s1, env.reload);
        (s2, if r2.Err? then Err(r2.error) else Ok(reason))
  }

  function Wait(s: State, env: WaitEnv): (State, Result<StopReason>)
  {
    if s.pid == 0 then (s, Err(WaitFailed))
    else
      var (t, status) := s.tracee.Waited(env.outer);
      var s1 := s.(tracee := t);
      match status
      case None => (s1, Err(WaitFailed))
      case Some(reason) =>
        if reason.reason.EXITED? || reason.reason.TERMINATED? then (s1.(pid := 0), Ok(reason))
        else
          var s2 := s1.(run := reason.reason);
          if !(s2.attached && s2.run.STOPPED?) then (s2, Ok(reason))
          else
            var (s3, r3) := Load(s2, env.load);
            if r3.Err? then (s3, Err(r3.error))
            else
              var pc := Pc(s3.cache.file);
              if pc !in s3.sites then (s3, Ok(reason))
              else StepOver(s3, pc, reason, env)
  }

  datatype StepEnv = StepEnv(load: nat, disarm: bool, step: bool, rearm: bool, wait: WaitEnv, save: nat)

  /** `step_instruction`; a step from a site re-arms it and rewinds afterwards. */
  function Step(s: State, env: StepEnv): (State, Result<StopReason>)
  {
    if s.pid == 0 then (s, Err(NotInitialized))
    else
      var (s1, r1) := Load(s, env.load);
      if r1.Err? then (s1, Err(r1.error)) else StepAt(s1, Pc(s1.cache.file), env)
  }

  /** The step from the cached pc. */
  function StepAt(s: State, pc: u64, env: StepEnv): (State, Result<StopReason>)
  {
    if pc in s.sites then StepFromSite(s, pc, env)
    else if !env.step || !s.tracee.mode.Stopped? then (s, Err(StepFailed))
    else Wait(s.(tracee := s.tracee.(mode := Stepping), run := RUNNING), env.wait)
  }

  function StepFromSite(s: State, loc: u64, env: StepEnv): (State, Result<StopReason>)
    requires loc in s.sites
  {
    var (s1, r1) := WriteMemory(s, loc, s.sites[loc], env.disarm);
    if r1.Err? then (s1, Err(r1.error))
    else if !env.step then
      var (s2, error) := RearmAfter(s1, loc, env.rearm, StepFailed);
      (s2, Err(error))
    else
      var (s2, r2) := Wait(s1.(tracee := s1.tracee.(mode := Stepping), run := RUNNING), env.wait);
      FinishStep(s2, r2, loc, env)
  }

  function FinishStep(s: State, waited: Result<StopReason>, loc: u64, env: StepEnv): (State, Result<StopReason>)
  {
    if waited.Err? then (s, waited)
    else
      var (s1, r1) := Rearm(s, loc, env.rearm, env.save);
      (s1, if r1.Err? then Err(r1.error) else waited)
  }

  function Resume(s: State, ok: bool): (State, Result<()>)
  {
    if s.pid == 0 then (s, Err(NotInitialized))
    else if !ok || !s.tracee.mode.Stopped? then (s, Err(ContinueFailed))
    else (s.(tracee := s.tracee.(mode := Running), run := RUNNING), Ok(()))
  }

  // ---------------------------------------------------------------------------
  // Software breakpoints
  // ---------------------------------------------------------------------------

  ghost predicate HasId(ids: map<Id, u64>, a: u64)
  {
    exists id :: id in ids && ids[id] == a
  }

  ghost function IdOf(ids: map<Id, u64>, a: u64): Id
    requires HasId(ids, a)
  {
    var id :| id in ids && ids[id] == a; id
  }

  ghost function Add(s: State, a: u64, peek: bool, poke: bool): (State, Result<Id>)
  {
    if s.pid == 0 then (s, Err(NotInitialized))
    else if HasId(s.ids, a) then (s, Ok(IdOf(s.ids, a)))
    else
      var word := ReadMemory(s, a, peek);
      if word.Err? then (s, Err(word.error))
      else
        var (s1, r1) := WriteMemory(s, a, TRAP, poke);
        if r1.Err? then (s1, Err(r1.error))
        else (s1.(sites := s1.sites[a := word.value], ids := s1.ids[s1.next := a], next := s1.next + 1), Ok(s1.next))
  }

  /** The table without the ids of one address. */
  function WithoutAddress(ids: map<Id, u64>, a: u64): map<Id, u64>
  {
    map id | id in ids && ids[id] != a :: ids[id]
  }

  function RemoveAt(s: State, a: u64, poke: bool): (State, Result<bool>)
  {
    if a in s.sites && s.pid != 0 then
      var (s1, r1) := WriteMemory(s, a, s.sites[a], poke);
      if r1.Err? then (s1, Err(r1.error))
      else (s1.(sites := s1.sites - {a}, ids := WithoutAddress(s1.ids, a)), Ok(true))
    else (s.(sites := s.sites - {a}, ids := WithoutAddress(s.ids, a)), Ok(true))
  }

  function RemoveId(s: State, id: int, poke: bool): (State, Result<bool>)
  {
    if id !in s.ids then (s, Ok(false)) else RemoveAt(s, s.ids[id], poke)
  }

  // ---------------------------------------------------------------------------
  // Hardware breakpoints
  // ---------------------------------------------------------------------------

  const BREAK_CTRL: nat := 0x1e7   // E | PMC = EL0 + EL1 | BAS = 0xf | BT = 0

  function AddrIndex(slot: nat): nat
  {
    68 + 2 * slot
  }

  function CtrlIndex(slot: nat): nat
  {
    69 + 2 * slot
  }

  /** The E bit of the slot is clear. */
  predicate Free(hw: HwBytes, slot: nat)
    requires slot < MAX_SLOTS
  {
    SlotCtrl(hw, slot) % 2 == 0
  }

  /** How many slots are scanned: the implemented ones, or all 16 when none is reported. */
  function Scanned(hw: HwBytes): (n: nat)
    ensures 1 <= n <= MAX_SLOTS
  {
    if hw[0] == 0 || hw[0] > 16 then MAX_SLOTS else hw[0]
  }

  /** The first free slot from `slot` on. */
  function FirstFree(hw: HwBytes, slot: nat): (r: Option<nat>)
    requires slot <= Scanned(hw)
    ensures r.Some? ==> slot <= r.value < Scanned(hw)
    decreases Scanned(hw) - slot
  {
    if slot == Scanned(hw) then None
    else if Free(hw, slot) then Some(slot)
    else FirstFree(hw, slot + 1)
  }

  function EnableHw(s: State, a: u64, load: nat, save: nat): (State, Result<nat>)
  {
    if s.pid == 0 then (s, Err(NotInitialized))
    else
      var (s1, r1) := Load(s, load);
      if r1.Err? then (s1, Err(r1.error))
      else
        match FirstFree(s1.cache.file.hwBreak, 0)
        case None => (s1, Err(NoFreeSlot))
        case Some(slot) =>
          var (s2, r2) := Save(Put(Put(s1, Full(AddrIndex(slot)), a), Full(CtrlIndex(slot)), BREAK_CTRL), save);
          (s2, if r2.Err? then Err(r2.error) else Ok(slot))
  }

  /** `ctrl & ~1`. */
  function WithoutE(ctrl: nat): nat
  {
    ctrl - ctrl % 2
  }

  function DisableHw(s: State, slot: int, load: nat, save: nat): (State, Result<()>)
  {
    if s.pid == 0 then (s, Err(NotInitialized))
    else if slot < 0 || slot > 15 then (s, Err(InvalidSlot))
    else
      var (s1, r1) := Load(s, load);
      if r1.Err? then (s1, r1)
      else
        var ctrl := SlotCtrl(s1.cache.file.hwBreak, slot);
        Save(Put(s1, Full(CtrlIndex(slot)), WithoutE(ctrl)), save)
  }

  /** A raw register write from the command line: into the cache, then saved. */
  function WriteRegister(s: State, h: Handle, v: nat, save: nat): (State, Result<()>)
    requires ValidHandle(h)
  {
    Save(Put(s, h, v), save)
  }
}
