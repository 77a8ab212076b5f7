/** The debugger's classes (src/process.cpp, src/breakpoints.cpp). Every method is proved to compute
    the function of `Protocol` that specifies it. The kernel's answers are parameters; the tracee
    itself is a field of the process it belongs to. */
module Debugger {
  import Bits
  import opened LittleEndian
  import opened Options
  import RegisterName
  import opened RegisterFile
  import opened RegisterValue
  import opened Handles
  import opened Memory
  import opened Tracees
  import opened Protocol
  import opened RegisterAccess
  import opened Sites
  import opened Overlaps
  import opened Hardware

  class Process {
    var pid: nat
    const terminateOnEnd: bool
    const isAttached: bool
    var state: ProcessState
    const registers: Registers
    const breakpoints: Breakpoints
    var tracee: Tracee

    function Repr(): set<object>
    {
      {this, breakpoints, registers, registers.gpr, registers.fpr, registers.hwBreak, registers.hwWatch}
    }

    ghost predicate Valid()
      reads Repr()
    {
      registers.Valid()
    }

    /** The whole state of the debugger and its tracee. */
    ghost function Snap(): State
      requires Valid()
      reads Repr()
    {
      State(pid, isAttached, state, tracee, registers.Contents(),
            breakpoints.swBreakpoints, breakpoints.bpIdToAddr, breakpoints.nextBpId)
    }

    /** A process that was launched or attached to, before its first wait. */
    constructor (pid: nat, terminateOnEnd: bool, isAttached: bool, tracee: Tracee)
      ensures Valid() && fresh(Repr())
      ensures Snap() == State(pid, isAttached, STOPPED, tracee, registers.Contents(), map[], map[], 1)
    {
      this.pid, this.terminateOnEnd, this.isAttached := pid, terminateOnEnd, isAttached;
      this.state, this.tracee := STOPPED, tracee;
      this.registers := new Registers();
      this.breakpoints := new Breakpoints();
    }

    // -------------------------------------------------------------------------
    // Memory and registers
    // -------------------------------------------------------------------------

    method ReadMemory(addr: u64, ok: bool) returns (r: Result<u64>)
      requires Valid()
      ensures r == Protocol.ReadMemory(Snap(), addr, ok)
      ensures r.Ok? ==> forall x | InWindow(addr, x) :: x in tracee.mem && ByteOf(r.value, x - addr) == tracee.mem[x]
    {
      if tracee.PeekData(addr, ok).Some? {
        PeekAll(tracee.mem, addr);
      }
      if pid == 0 {
        return Err(NotInitialized);
      }
      match tracee.PeekData(addr, ok) {
        case None => return Err(ReadFailed);
        case Some(word) => return Ok(word);
      }
    }

    method WriteMemory(addr: u64, value: u64, ok: bool) returns (r: Result<()>)
      requires Valid()
      modifies this`tracee
      ensures Valid() && (Snap(), r) == Protocol.WriteMemory(old(Snap()), addr, value, ok)
    {
      if pid == 0 {
        return Err(NotInitialized);
      }
      if !tracee.CanPoke(addr, ok) {
        return Err(WriteFailed);
      }
      tracee := tracee.PokeData(addr, value);
      return Ok(());
    }

    method ReadAllRegisters(answers: nat) returns (r: Result<()>)
      requires Valid()
      modifies Repr() - {this, breakpoints}
      ensures Valid() && (Snap(), r) == Protocol.Load(old(Snap()), answers)
    {
      var ok := registers.Load(tracee, answers);
      return if ok then Ok(()) else Err(RegistersFailed);
    }

    method WriteBackRegisters(answers: nat) returns (r: Result<()>)
      requires Valid()
      modifies this`tracee
      ensures Valid() && (Snap(), r) == Protocol.Save(old(Snap()), answers)
    {
      var t, ok := registers.Save(tracee, answers);
      tracee := t;
      return if ok then Ok(()) else Err(RegistersFailed);
    }

    /** The cached program counter. */
    method CachedPc() returns (pc: u64)
      requires Valid()
      ensures pc == Pc(registers.File())
    {
      PcHandle(registers.File(), 0);
      var index := registers.FindIndex("pc");
      PcIndex(index);
      EntryInFile(PC_INDEX);
      var rv := registers.views[index.value];
      var value := rv.Get(8);
      NumberOfBytes(value.value, Field(registers.File(), PC_PLACE));
      pc := value.value;
    }

    // -------------------------------------------------------------------------
    // Execution control
    // -------------------------------------------------------------------------

    method Resume(ok: bool) returns (r: Result<()>)
      requires Valid()
      modifies this`tracee, this`state
      ensures Valid() && (Snap(), r) == Protocol.Resume(old(Snap()), ok)
    {
      if pid == 0 {
        return Err(NotInitialized);
      }
      if !ok || !tracee.mode.Stopped? {
        return Err(ContinueFailed);
      }
      tracee := tracee.(mode := Running);
      state := RUNNING;
      return Ok(());
    }

    /** PTRACE_SINGLESTEP on a stopped tracee. */
    method SingleStep(ok: bool) returns (started: bool)
      requires Valid()
      modifies this`tracee
      ensures started <==> ok && old(tracee).mode.Stopped?
      ensures Valid() && tracee == if started then old(tracee).(mode := Stepping) else old(tracee)
    {
      started := ok && tracee.mode.Stopped?;
      if started {
        tracee := tracee.(mode := Stepping);
      }
    }

    /** waitpid; nothing is left to wait for once the process is gone. */
    method WaitPid(answer: WaitAnswer) returns (status: Option<StopReason>)
      requires Valid()
      modifies this`tracee
      ensures Valid() && (tracee, status) == if pid == 0 then (old(tracee), None) else old(tracee).Waited(answer)
    {
      if pid == 0 {
        return None;
      }
      var (t, s) := tracee.Waited(answer);
      tracee := t;
      status := s;
    }

    method WaitOnSignal(env: WaitEnv) returns (r: Result<StopReason>)
      requires Valid()
      modifies Repr()
      ensures Valid() && (Snap(), r) == Protocol.Wait(old(Snap()), env)
    {
      var status := WaitPid(env.outer);
      if status.None? {
        return Err(WaitFailed);
      }
      var reason := status.value;
      if reason.reason.EXITED? || reason.reason.TERMINATED? {
        pid := 0;
        return Ok(reason);
      }
      state := reason.reason;
      if isAttached && state.STOPPED? {
        var loaded := ReadAllRegisters(env.load);
        if loaded.Err? {
          return Err(loaded.error);
        }
        var pc := CachedPc();
        if pc in breakpoints.swBreakpoints {
          r := StepOver(pc, reason, env);
          return;
        }
      }
      return Ok(reason);
    }

    /** The part of `wait_on_signal` that steps over a breakpoint at the cached pc. */
    method StepOver(pc: u64, reason: StopReason, env: WaitEnv) returns (r: Result<StopReason>)
      requires Valid() && pid != 0 && pc in breakpoints.swBreakpoints
      modifies Repr()
      ensures Valid() && (Snap(), r) == Protocol.StepOver(old(Snap()), pc, reason, env)
    {
      var prepared := breakpoints.PrepareForTransparentStepOver(this, pc, env.disarm);
      if prepared.Err? {
        return Err(prepared.error);
      }
      var loc := prepared.value.value;
      var started := SingleStep(env.step);
      if !started {
        var rearmed := WriteMemory(loc, TRAP, env.rearm);
        return Err(if rearmed.Err? then rearmed.error else StepFailed);
      }
      var status := WaitPid(env.inner);
      if status.None? {
        var rearmed := WriteMemory(loc, TRAP, env.rearm);
        return Err(if rearmed.Err? then rearmed.error else WaitFailed);
      }
      var rewound := breakpoints.RearmAndRewind(this, loc, env.rearm, env.save);
      if rewound.Err? {
        return Err(rewound.error);
      }
      var loaded := ReadAllRegisters(env.reload);
      return if loaded.Err? then Err(loaded.error) else Ok(reason);
    }

    method StepInstruction(env: StepEnv) returns (r: Result<StopReason>)
      requires Valid()
      modifies Repr()
      ensures Valid() && (Snap(), r) == Protocol.Step(old(Snap()), env)
    {
      if pid == 0 {
        return Err(NotInitialized);
      }
      var loaded := ReadAllRegisters(env.load);
      if loaded.Err? {
        return Err(loaded.error);
      }
      var pc := CachedPc();
      r := StepAt(pc, env);
    }

    /** The step from the cached pc. */
    method StepAt(pc: u64, env: StepEnv) returns (r: Result<StopReason>)
      requires Valid() && pid != 0
      modifies Repr()
      ensures Valid() && (Snap(), r) == Protocol.StepAt(old(Snap()), pc, env)
    {
      var prepared := breakpoints.PrepareForTransparentStepOver(this, pc, env.disarm);
      if prepared.Err? {
        return Err(prepared.error);
      }
      var wasAtBp := prepared.value.Some?;
      var started := SingleStep(env.step);
      if !started {
        if wasAtBp {
          var rearmed := WriteMemory(pc, TRAP, env.rearm);
          return Err(if rearmed.Err? then rearmed.error else StepFailed);
        }
        return Err(StepFailed);
      }
      state := RUNNING;
      r := WaitOnSignal(env.wait);
      if r.Err? {
        return;
      }
      if wasAtBp {
        var rewound := breakpoints.RearmAndRewind(this, pc, env.rearm, env.save);
        if rewound.Err? {
          return Err(rewound.error);
        }
      }
    }

    /** The destructor: restore the sites, then stop a running tracee before letting it go. */
    method Destroy(granted: set<u64>, stop: WaitAnswer) returns (ghost order: seq<u64>)
      requires Valid()
      modifies Repr()
      ensures Valid() && Visits(order, old(breakpoints.swBreakpoints))
      ensures Snap() == Destroyed(old(Snap()), order, granted, stop)
    {
      order := [];
      if pid == 0 {
        order := KeysInSomeOrder(breakpoints.swBreakpoints);
        return;
      }
      order := breakpoints.RestoreAllSwSites(this, granted);
      if isAttached && state.RUNNING? {
        var _ := WaitPid(stop);
      }
    }

    // -------------------------------------------------------------------------
    // Command line
    // -------------------------------------------------------------------------

    /** `register write <name> <value>`: resolve, parse, write to the cache, save. A name that resolves
        to nothing and a text that denotes nothing change nothing. */
    method HandleRegisterWrite(name: string, text: string, libc: Libc, save: nat) returns (done: bool)
      requires Valid() && (InTable(name) || RegisterName.RunsFit(name))
      modifies Repr()
      ensures Valid()
      ensures var h := Resolved(name);
              if h.None? then !done && Snap() == old(Snap())
              else
                match Denoted(text, FormatOf(h.value), BitSize(h.value), libc)
                case None => !done && Snap() == old(Snap())
                case Some(v) => (Snap(), if done then Ok(()) else Err(RegistersFailed))
                                == Protocol.WriteRegister(old(Snap()), h.value, v, save)
    {
      var h := registers.Resolve(name);
      ResolutionIsSound(name);
      if h.None? {
        return false;
      }
      var format := registers.GetFormat(h.value);
      var bitSize := registers.GetBitSize(h.value);
      var raw := ParseRegisterValue(text, format, bitSize, libc);
      if raw.None? {
        return false;
      }
      registers.Write(h.value, raw.value);
      var saved := WriteBackRegisters(save);
      done := saved.Ok?;
    }
  }

  ghost function KeysInSomeOrder(m: map<u64, u64>): (order: seq<u64>)
    ensures Visits(order, m)
    decreases |m|
  {
    if m == map[] then []
    else
      assert m.Keys != {};
      var a :| a in m.Keys;
      assert (m - {a}).Keys == m.Keys - {a};
      [a] + KeysInSomeOrder(m - {a})
  }

  /** An address has at most one id. */
  lemma OneId(ids: map<Id, u64>, id: Id, a: u64)
    requires id in ids && ids[id] == a
    requires forall i, j | i in ids && j in ids && ids[i] == ids[j] :: i == j
    ensures HasId(ids, a) && IdOf(ids, a) == id
  {
  }

  lemma PcIndex(index: Option<nat>)
    requires index.None? <==> !InTable("pc")
    requires index.Some? ==> index.value < TABLE_SIZE && EntryAt(index.value).name == "pc"
    ensures index == Some(PC_INDEX)
  {
    assert EntryAt(PC_INDEX).name == "pc";
    if index.Some? {
      NamesDistinct(index.value, PC_INDEX);
    }
  }

  class Breakpoints {
    var swBreakpoints: map<u64, u64>
    var bpIdToAddr: map<Id, u64>
    var nextBpId: Id

    constructor ()
      ensures swBreakpoints == map[] && bpIdToAddr == map[] && nextBpId == 1
    {
      swBreakpoints, bpIdToAddr, nextBpId := map[], map[], 1;
    }

    // -------------------------------------------------------------------------
    // Software breakpoints
    // -------------------------------------------------------------------------

    /** Looks the address up in the id table, in some order. */
    method FindId(addr: u64) returns (id: Option<Id>)
      ensures match id
              case None => !HasId(bpIdToAddr, addr)
              case Some(i) => i in bpIdToAddr && bpIdToAddr[i] == addr
    {
      var todo := bpIdToAddr.Keys;
      while todo != {}
        invariant todo <= bpIdToAddr.Keys
        invariant forall i | i in bpIdToAddr && bpIdToAddr[i] == addr :: i in todo
        decreases todo
      {
        var i :| i in todo;
        if bpIdToAddr[i] == addr {
          return Some(i);
        }
        todo := todo - {i};
      }
      return None;
    }

    method AddBreakpoint(owner: Process, addr: u64, peek: bool, poke: bool) returns (r: Result<Id>)
      requires owner.Valid() && owner.breakpoints == this
      requires TablesOk(bpIdToAddr, swBreakpoints.Keys, nextBpId) && nextBpId < 0x7fff_ffff
      modifies owner.Repr()
      ensures owner.Valid() && (owner.Snap(), r) == Protocol.Add(old(owner.Snap()), addr, peek, poke)
    {
      if owner.pid == 0 {
        return Err(NotInitialized);
      }
      var known := FindId(addr);
      if known.Some? {
        OneId(bpIdToAddr, known.value, addr);
        return Ok(known.value);
      }
      r := AddNew(owner, addr, peek, poke);
    }

    /** A breakpoint at an address that has none. */
    method AddNew(owner: Process, addr: u64, peek: bool, poke: bool) returns (r: Result<Id>)
      requires owner.Valid() && owner.breakpoints == this && owner.pid != 0 && !HasId(bpIdToAddr, addr)
      modifies owner.Repr()
      ensures owner.Valid() && (owner.Snap(), r) == Protocol.Add(old(owner.Snap()), addr, peek, poke)
    {
      var word := Patch(owner, addr, peek, poke);
      if word.Err? {
        return Err(word.error);
      }
      var id := Record(addr, word.value);
      return Ok(id);
    }

    /** Reads the word at a new site and writes the trap over it. */
    method Patch(owner: Process, addr: u64, peek: bool, poke: bool) returns (word: Result<u64>)
      requires owner.Valid() && owner.breakpoints == this
      modifies owner`tracee
      ensures owner.Valid()
      ensures var read := Protocol.ReadMemory(old(owner.Snap()), addr, peek);
              var (s, w) := Protocol.WriteMemory(old(owner.Snap()), addr, TRAP, poke);
              (owner.Snap(), word) == if read.Err? then (old(owner.Snap()), read)
                                      else (s, if w.Err? then Err(w.error) else read)
    {
      word := owner.ReadMemory(addr, peek);
      if word.Err? {
        return;
      }
      var written := owner.WriteMemory(addr, TRAP, poke);
      if written.Err? {
        return Err(written.error);
      }
    }

    /** Enters a new breakpoint into the tables. */
    method Record(addr: u64, word: u64) returns (id: Id)
      modifies this
      ensures swBreakpoints == old(swBreakpoints)[addr := word] && bpIdToAddr == old(bpIdToAddr)[id := addr]
      ensures id == old(nextBpId) && nextBpId == old(nextBpId) + 1
    {
      swBreakpoints := swBreakpoints[addr := word];
      id := nextBpId;
      nextBpId := nextBpId + 1;
      bpIdToAddr := bpIdToAddr[id := addr];
    }

    method RemoveBreakpointId(owner: Process, id: int, poke: bool) returns (r: Result<bool>)
      requires owner.Valid() && owner.breakpoints == this
      modifies owner.Repr()
      ensures owner.Valid() && (owner.Snap(), r) == Protocol.RemoveId(old(owner.Snap()), id, poke)
    {
      if id !in bpIdToAddr {
        return Ok(false);
      }
      r := RemoveBreakpointAt(owner, bpIdToAddr[id], poke);
    }

    method RemoveBreakpointAt(owner: Process, addr: u64, poke: bool) returns (r: Result<bool>)
      requires owner.Valid() && owner.breakpoints == this
      modifies owner.Repr()
      ensures owner.Valid() && (owner.Snap(), r) == Protocol.RemoveAt(old(owner.Snap()), addr, poke)
    {
      if addr in swBreakpoints {
        if owner.pid != 0 {
          var written := owner.WriteMemory(addr, swBreakpoints[addr], poke);
          if written.Err? {
            return Err(written.error);
          }
        }
        swBreakpoints := swBreakpoints - {addr};
      } else {
        assert swBreakpoints - {addr} == swBreakpoints;
      }
      EraseIds(addr);
      return Ok(true);
    }

    /** Erases every id of an address while iterating over the table. */
    method EraseIds(addr: u64)
      modifies this`bpIdToAddr
      ensures bpIdToAddr == WithoutAddress(old(bpIdToAddr), addr)
    {
      var todo := bpIdToAddr.Keys;
      while todo != {}
        invariant todo <= bpIdToAddr.Keys <= old(bpIdToAddr).Keys
        invariant forall id | id in bpIdToAddr :: bpIdToAddr[id] == old(bpIdToAddr)[id]
        invariant forall id | id in old(bpIdToAddr) && old(bpIdToAddr)[id] != addr :: id in bpIdToAddr
        invariant forall id | id in bpIdToAddr && bpIdToAddr[id] == addr :: id in todo
        decreases todo
      {
        var id :| id in todo;
        if bpIdToAddr[id] == addr {
          bpIdToAddr := bpIdToAddr - {id};
        }
        todo := todo - {id};
      }
    }

    /** The breakpoints, sorted by id. */
    method GetBreakpoints() returns (list: seq<(Id, u64)>)
      ensures Listing(list, bpIdToAddr)
    {
      list := [];
      var todo := bpIdToAddr.Keys;
      while todo != {}
        invariant todo <= bpIdToAddr.Keys
        invariant Listing(list, bpIdToAddr - todo)
        decreases todo
      {
        var id :| id in todo;
        list := InsertSorted(list, (id, bpIdToAddr[id]), bpIdToAddr - todo);
        assert (bpIdToAddr - todo)[id := bpIdToAddr[id]] == bpIdToAddr - (todo - {id});
        todo := todo - {id};
      }
      assert bpIdToAddr - {} == bpIdToAddr;
    }

    // -------------------------------------------------------------------------
    // Step-over
    // -------------------------------------------------------------------------

    /** Restores the program's word if pc is at a site, and says so. */
    method PrepareForTransparentStepOver(owner: Process, pc: u64, poke: bool) returns (r: Result<Option<u64>>)
      requires owner.Valid() && owner.breakpoints == this
      modifies owner`tracee
      ensures owner.Valid()
      ensures pc !in swBreakpoints ==> r == Ok(None) && owner.Snap() == old(owner.Snap())
      ensures pc in swBreakpoints ==>
                var (s, w) := Protocol.WriteMemory(old(owner.Snap()), pc, swBreakpoints[pc], poke);
                owner.Snap() == s && r == if w.Err? then Err(w.error) else Ok(Some(pc))
    {
      if pc !in swBreakpoints {
        return Ok(None);
      }
      var written := owner.WriteMemory(pc, swBreakpoints[pc], poke);
      return if written.Err? then Err(written.error) else Ok(Some(pc));
    }

    method RearmAndRewind(owner: Process, loc: u64, poke: bool, save: nat) returns (r: Result<()>)
      requires owner.Valid() && owner.breakpoints == this
      modifies owner.Repr()
      ensures owner.Valid() && (owner.Snap(), r) == Protocol.Rearm(old(owner.Snap()), loc, poke, save)
    {
      var written := owner.WriteMemory(loc, TRAP, poke);
      if written.Err? {
        return written;
      }
      PcHandle(owner.registers.File(), loc);
      assert EntryAt(PC_INDEX).name == "pc";
      var h := owner.registers.Resolve("pc");
      owner.registers.Write(h.value, loc);
      r := owner.WriteBackRegisters(save);
    }

    /** Pokes every saved word back, in the order of the table, and ignores refusals. */
    method RestoreAllSwSites(owner: Process, granted: set<u64>) returns (ghost order: seq<u64>)
      requires owner.Valid() && owner.breakpoints == this && owner.pid != 0
      modifies owner`tracee, this`swBreakpoints, this`bpIdToAddr
      ensures owner.Valid() && Visits(order, old(swBreakpoints))
      ensures swBreakpoints == map[] && bpIdToAddr == map[]
      ensures owner.tracee == RestoreIn(old(owner.tracee), old(swBreakpoints), order, granted)
    {
      order := [];
      var todo := swBreakpoints.Keys;
      while todo != {}
        invariant todo <= swBreakpoints.Keys
        invariant forall a | a in swBreakpoints :: a in todo || a in order
        invariant owner.Valid() && swBreakpoints == old(swBreakpoints)
        invariant owner.tracee == RestoreIn(old(owner.tracee), swBreakpoints, order, granted)
        decreases todo
      {
        var addr :| addr in todo;
        RestoreLast(old(owner.tracee), swBreakpoints, order, addr, granted);
        if owner.tracee.CanPoke(addr, addr in granted) {
          owner.tracee := owner.tracee.PokeData(addr, swBreakpoints[addr]);
        }
        order := order + [addr];
        todo := todo - {addr};
      }
      swBreakpoints, bpIdToAddr := map[], map[];
    }

    // -------------------------------------------------------------------------
    // Hardware breakpoints
    // -------------------------------------------------------------------------

    method EnableHwBreakpoint(owner: Process, addr: u64, load: nat, save: nat) returns (r: Result<nat>)
      requires owner.Valid() && owner.breakpoints == this
      modifies owner.Repr()
      ensures owner.Valid() && (owner.Snap(), r) == Protocol.EnableHw(old(owner.Snap()), addr, load, save)
    {
      if owner.pid == 0 {
        return Err(NotInitialized);
      }
      var loaded := owner.ReadAllRegisters(load);
      if loaded.Err? {
        return Err(loaded.error);
      }
      var free := FindFreeSlot(owner.registers);
      if free.None? {
        return Err(NoFreeSlot);
      }
      ProgramSlot(owner.registers, free.value, addr);
      var saved := owner.WriteBackRegisters(save);
      return if saved.Err? then Err(saved.error) else Ok(free.value);
    }

    /** Scans the control words of the implemented slots, or of all 16 if none is reported. */
    method FindFreeSlot(regs: Registers) returns (free: Option<nat>)
      requires regs.Valid()
      ensures free == FirstFree(regs.File().hwBreak, 0)
    {
      ghost var hw := regs.File().hwBreak;
      var maxSlots: nat := regs.hwBreak[0];
      if maxSlots <= 0 {
        maxSlots := 16;
      }
      var slot := 0;
      while slot < maxSlots && slot < 16
        invariant slot <= maxSlots == Scanned(hw)
        invariant FirstFree(hw, slot) == FirstFree(hw, 0)
        decreases maxSlots - slot
      {
        var isFree := SlotIsFree(regs, slot);
        if isFree {
          return Some(slot);
        }
        slot := slot + 1;
      }
      return None;
    }

    /** Reads the E bit of a slot's control word. */
    method SlotIsFree(regs: Registers, slot: nat) returns (isFree: bool)
      requires regs.Valid() && slot < MAX_SLOTS
      ensures isFree == Free(regs.File().hwBreak, slot)
    {
      var hCtrl := CtrlHandle(regs, slot);
      var ctrl := regs.Read(hCtrl);
      CtrlReads(regs.File(), slot);
      isFree := ctrl.value % 2 == 0;
    }

    /** Writes address and control word of a slot to the cache. */
    method ProgramSlot(regs: Registers, slot: nat, addr: u64)
      requires regs.Valid() && slot < MAX_SLOTS
      modifies regs.gpr, regs.fpr, regs.hwBreak, regs.hwWatch
      ensures regs.Valid()
      ensures regs.Contents() == old(regs.Contents()).(file :=
                WriteHandle(WriteHandle(old(regs.File()), Full(AddrIndex(slot)), addr),
                            Full(CtrlIndex(slot)), BREAK_CTRL))
    {
      var hAddr := AddrHandle(regs, slot);
      regs.Write(hAddr, addr);
      var hCtrl := CtrlHandle(regs, slot);
      var ctrl := MakeHwBreakCtrl(32);
      regs.Write(hCtrl, ctrl);
    }

    /** Enabled, PMC for EL0 and EL1, all four bytes, an unlinked address match. */
    method MakeHwBreakCtrl(w: nat) returns (ctrl: nat)
      requires w == 32
      ensures ctrl == BREAK_CTRL
    {
      var e, pmc, bas, bt := 1, Bits.Shl(3, 1, w), Bits.Shl(15, 5, w), Bits.Shl(0, 20, w);
      BreakCtrlWord(1, 3, 15, 0, w);
      ctrl := Bits.Or(Bits.Or(Bits.Or(e, pmc), bas), bt);
    }

    method CtrlHandle(regs: Registers, slot: nat) returns (h: Handle)
      requires regs.Valid() && slot < MAX_SLOTS
      ensures h == Full(CtrlIndex(slot))
    {
      SlotNames(slot);
      SlotLetters(slot);
      assert InTable("brk_ctrl" + Decimal(slot));
      var resolved := regs.Resolve("brk_ctrl" + Decimal(slot));
      h := resolved.value;
    }

    method AddrHandle(regs: Registers, slot: nat) returns (h: Handle)
      requires regs.Valid() && slot < MAX_SLOTS
      ensures h == Full(AddrIndex(slot))
    {
      SlotNames(slot);
      SlotLetters(slot);
      assert InTable("brk_addr" + Decimal(slot));
      var resolved := regs.Resolve("brk_addr" + Decimal(slot));
      h := resolved.value;
    }

    method DisableHwBreakpoint(owner: Process, slot: int, load: nat, save: nat) returns (r: Result<()>)
      requires owner.Valid() && owner.breakpoints == this
      modifies owner.Repr()
      ensures owner.Valid() && (owner.Snap(), r) == Protocol.DisableHw(old(owner.Snap()), slot, load, save)
    {
      if owner.pid == 0 {
        return Err(NotInitialized);
      }
      if slot < 0 || slot > 15 {
        return Err(InvalidSlot);
      }
      r := owner.ReadAllRegisters(load);
      if r.Err? {
        return;
      }
      ClearSlot(owner.registers, slot);
      r := owner.WriteBackRegisters(save);
    }

    /** Clears the E bit of a slot in the cache. */
    method ClearSlot(regs: Registers, slot: nat)
      requires regs.Valid() && slot < MAX_SLOTS
      modifies regs.gpr, regs.fpr, regs.hwBreak, regs.hwWatch
      ensures regs.Valid()
      ensures regs.Contents() == old(regs.Contents()).(file :=
                WriteHandle(old(regs.File()), Full(CtrlIndex(slot)),
                            WithoutE(SlotCtrl(old(regs.File()).hwBreak, slot))))
    {
      var hCtrl := CtrlHandle(regs, slot);
      var ctrl := regs.Read(hCtrl);
      CtrlReads(regs.File(), slot);
      CtrlBound(regs.File(), slot);
      Bits.Pow2Values();
      MaskE(ctrl.value, 32);
      regs.Write(hCtrl, Bits.And(ctrl.value, Bits.Not(1, 32)));
    }
  }

  lemma CtrlReads(f: RegFile, slot: nat)
    requires slot < MAX_SLOTS
    ensures ReadHandle(f, Full(CtrlIndex(slot))) == SlotCtrl(f.hwBreak, slot)
  {
    SlotEntries(slot);
    SlotFields(f, slot);
  }

  lemma {:induction false} RestoreLast(t: Tracee, sites: map<u64, u64>, order: seq<u64>, a: u64, granted: set<u64>)
    ensures var before := RestoreIn(t, sites, order, granted);
            RestoreIn(t, sites, order + [a], granted)
            == if a in sites && before.CanPoke(a, a in granted) then before.PokeData(a, sites[a]) else before
    decreases |order|
  {
    if order == [] {
      assert ([] + [a])[1..] == [];
    } else {
      var b := order[0];
      var t' := if b in sites && t.CanPoke(b, b in granted) then t.PokeData(b, sites[b]) else t;
      RestoreLast(t', sites, order[1..], a, granted);
      assert (order + [a])[1..] == order[1..] + [a];
    }
  }

  // ---------------------------------------------------------------------------
  // The listing
  // ---------------------------------------------------------------------------

  ghost predicate Increasing(list: seq<(Id, u64)>)
  {
    forall i, j | 0 <= i < j < |list| :: list[i].0 < list[j].0
  }

  ghost predicate Lists(list: seq<(Id, u64)>, id: Id)
  {
    exists k :: 0 <= k < |list| && list[k].0 == id
  }

  /** The list holds exactly the entries of the table, by increasing id. */
  ghost predicate Listing(list: seq<(Id, u64)>, ids: map<Id, u64>)
  {
    && Increasing(list)
    && (forall k | 0 <= k < |list| :: list[k].0 in ids && list[k].1 == ids[list[k].0])
    && (forall id | id in ids :: Lists(list, id))
  }

  /** The last entry has the greatest id. */
  lemma LastIsGreatest(list: seq<(Id, u64)>, ids: map<Id, u64>, id: Id)
    requires Listing(list, ids) && id in ids
    ensures list != [] && id <= list[|list| - 1].0
  {
    assert Lists(list, id);
  }

  /** There is only one such list. */
  lemma {:induction false} ListingUnique(a: seq<(Id, u64)>, b: seq<(Id, u64)>, ids: map<Id, u64>)
    requires Listing(a, ids) && Listing(b, ids)
    ensures a == b
    decreases |a|
  {
    EmptyListing(a, ids);
    EmptyListing(b, ids);
    if a != [] {
      SameLast(a, b, ids);
      DropLast(a, ids);
      DropLast(b, ids);
      ListingUnique(a[..|a| - 1], b[..|b| - 1], ids - {a[|a| - 1].0});
      SameButLast(a, b);
    }
  }

  lemma SameButLast<T>(a: seq<T>, b: seq<T>)
    requires a != [] && b != [] && a[|a| - 1] == b[|b| - 1] && a[..|a| - 1] == b[..|b| - 1]
    ensures a == b
  {
    assert a == a[..|a| - 1] + [a[|a| - 1]];
    assert b == b[..|b| - 1] + [b[|b| - 1]];
  }

  lemma SameLast(a: seq<(Id, u64)>, b: seq<(Id, u64)>, ids: map<Id, u64>)
    requires Listing(a, ids) && Listing(b, ids) && a != [] && b != []
    ensures a[|a| - 1] == b[|b| - 1]
  {
    LastIsGreatest(b, ids, a[|a| - 1].0);
    LastIsGreatest(a, ids, b[|b| - 1].0);
  }

  lemma EmptyListing(list: seq<(Id, u64)>, ids: map<Id, u64>)
    requires Listing(list, ids)
    ensures list == [] <==> ids == map[]
  {
    if ids != map[] {
      assert ids.Keys != {};
      var id :| id in ids.Keys;
      assert Lists(list, id);
    }
    if list != [] {
      assert list[0].0 in ids;
    }
  }

  lemma DropLast(a: seq<(Id, u64)>, ids: map<Id, u64>)
    requires a != [] && Listing(a, ids)
    ensures Listing(a[..|a| - 1], ids - {a[|a| - 1].0})
  {
    var n := |a| - 1;
    forall id | id in ids - {a[n].0}
      ensures Lists(a[..n], id)
    {
      assert Lists(a, id);
      var k :| 0 <= k < |a| && a[k].0 == id;
      assert a[..n][k].0 == id;
    }
  }

  /** Sorting by insertion. */
  method InsertSorted(list: seq<(Id, u64)>, e: (Id, u64), ghost ids: map<Id, u64>)
    returns (r: seq<(Id, u64)>)
    requires Listing(list, ids) && e.0 !in ids
    ensures Listing(r, ids[e.0 := e.1])
  {
    var k := 0;
    while k < |list| && list[k].0 < e.0
      invariant k <= |list| && forall i | 0 <= i < k :: list[i].0 < e.0
    {
      k := k + 1;
    }
    r := list[..k] + [e] + list[k..];
    Inserted(list, e, ids, k, r);
  }

  lemma Inserted(list: seq<(Id, u64)>, e: (Id, u64), ids: map<Id, u64>, k: nat, r: seq<(Id, u64)>)
    requires Listing(list, ids) && e.0 !in ids && k <= |list|
    requires forall i | 0 <= i < k :: list[i].0 < e.0
    requires k < |list| ==> list[k].0 >= e.0
    requires r == list[..k] + [e] + list[k..]
    ensures Listing(r, ids[e.0 := e.1])
  {
    InsertedOrder(list, e, k, r);
    InsertedEntries(list, e, ids, k, r);
    forall id | id in ids[e.0 := e.1]
      ensures Lists(r, id)
    {
      if id == e.0 {
        assert r[k].0 == id;
      } else {
        assert Lists(list, id);
        var i :| 0 <= i < |list| && list[i].0 == id;
        assert r[if i < k then i else i + 1].0 == id;
      }
    }
  }

  lemma InsertedEntries(list: seq<(Id, u64)>, e: (Id, u64), ids: map<Id, u64>, k: nat, r: seq<(Id, u64)>)
    requires Listing(list, ids) && e.0 !in ids && k <= |list|
    requires r == list[..k] + [e] + list[k..]
    ensures forall i | 0 <= i < |r| :: r[i].0 in ids[e.0 := e.1] && r[i].1 == ids[e.0 := e.1][r[i].0]
  {
    forall i | 0 <= i < |r|
      ensures r[i].0 in ids[e.0 := e.1] && r[i].1 == ids[e.0 := e.1][r[i].0]
    {
      assert r[i] == if i < k then list[i] else if i == k then e else list[i - 1];
    }
  }

  lemma InsertedOrder(list: seq<(Id, u64)>, e: (Id, u64), k: nat, r: seq<(Id, u64)>)
    requires Increasing(list) && k <= |list| && (forall i | 0 <= i < |list| :: list[i].0 != e.0)
    requires forall i | 0 <= i < k :: list[i].0 < e.0
    requires k < |list| ==> list[k].0 >= e.0
    requires r == list[..k] + [e] + list[k..]
    ensures Increasing(r)
  {
    forall i, j | 0 <= i < j < |r|
      ensures r[i].0 < r[j].0
    {
      assert r[i] == if i < k then list[i] else if i == k then e else list[i - 1];
      assert r[j] == if j < k then list[j] else if j == k then e else list[j - 1];
    }
  }

  // ---------------------------------------------------------------------------
  // Command line
  // ---------------------------------------------------------------------------

  /** A value printed within the digit bound of an integer register and written back as text is the
      value the register then reads. */
  lemma PrintedValueReadsBack(s: State, h: Handle, v: u64, width: nat, libc: Libc)
    requires ValidHandle(h) && IntegerFormat(FormatOf(h)) && BitSize(h) >= 1
    requires v < Bits.Pow2(BitSize(h)) && width <= MaxDigits(BitSize(h))
    ensures Denoted(FormatHex(v, width), FormatOf(h), BitSize(h), libc) == Some(v)
    ensures ReadHandle(Put(s, h, v).cache.file, h) == v
  {
    PrintParse(v, width, FormatOf(h), BitSize(h), libc);
    WholeFileLaw(s.cache.file, h, v, HomePlace(h));
    Bits.RemSmall(v, BitSize(h));
  }
}
