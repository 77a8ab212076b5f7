/** What the operations of the debugger report, and the state they leave, read off the kernel's answers
    (src/process.cpp:160-290, src/breakpoints.cpp:36-87). */
module Results {
  import opened Bits
  import opened LittleEndian
  import opened RegisterFile
  import opened Handles
  import opened Memory
  import opened Tracees
  import opened Protocol
  import opened Sites
  import opened StepContracts
  import opened Runs

  // ---------------------------------------------------------------------------
  // wait_on_signal
  // ---------------------------------------------------------------------------

  /** The tracee has not been seen to stop. */
  predicate Moving(t: Tracee)
  {
    t.mode.Running? || t.mode.Stepping?
  }

  /** A wait fails, and only the tracee may have come to a stop meanwhile, exactly when there is nothing to
      wait for or waitpid itself fails. */
  lemma WaitFails(s: State, env: WaitEnv)
    requires s.pid == 0 || !Moving(s.tracee) || env.outer.NoStatus?
    ensures var (s', r) := Wait(s, env);
            && r == Err(WaitFailed)
            && s' == if s.pid == 0 then s else s.(tracee := s.tracee.Waited(env.outer).0)
  {
    assert s.(tracee := s.tracee) == s;
  }

  /** A stop of a tracee that is not attached, and one that is not at a site, change nothing but the
      tracee, the state, and for an attached one the cache. */
  lemma WaitElsewhereState(s: State, env: WaitEnv)
    requires s.pid != 0 && Moving(s.tracee) && env.outer.Stop?
    ensures var s' := Wait(s, env).0;
            var s1 := s.(tracee := s.tracee.Waited(env.outer).0, run := STOPPED);
            && (!s.attached ==> s' == s1)
            && (s.attached && StepsOverAt(s, env).None? ==>
                  s' == s1.(cache := Loaded(s.cache, s1.tracee.regs, s1.tracee.Transfers(env.load))))
  {
  }

  /** What a wait reports. */
  lemma WaitResult(s: State, env: WaitEnv)
    requires AllMapped(s.tracee.mem, s.sites.Keys)
    ensures Wait(s, env).1
            == if s.pid == 0 || !Moving(s.tracee) || env.outer.NoStatus? then Err(WaitFailed)
               else if env.outer.Exit? then Ok(StopReason(EXITED, env.outer.status))
               else if env.outer.Kill? then Ok(StopReason(TERMINATED, env.outer.signal))
               else if s.attached && env.load < 4 then Err(RegistersFailed)
               else if StepsOverAt(s, env).None? then Ok(StopReason(STOPPED, env.outer.signal))
               else if !env.disarm || !Rearms(env) then Err(WriteFailed)
               else if !env.step then Err(StepFailed)
               else if env.inner.NoStatus? then Err(WaitFailed)
               else if env.save < 4 || env.reload < 4 then Err(RegistersFailed)
               else Ok(StopReason(STOPPED, env.outer.signal))
  {
    match StepsOverAt(s, env) {
      case None =>
      case Some(loc) =>
        WaitAtSite(s, env, loc);
        WaitedGrows(s.tracee, env.outer);
        StepOverResult(Arrived(s, env), loc, s.tracee.Waited(env.outer).1.value, env);
    }
  }

  // ---------------------------------------------------------------------------
  // resume
  // ---------------------------------------------------------------------------

  /** A granted resume sets a stopped tracee running and changes nothing else; a refused one is an error
      and changes nothing. */
  lemma ResumeContract(s: State, ok: bool)
    ensures var (s', r) := Resume(s, ok);
            && r == (if s.pid == 0 then Err(NotInitialized)
                     else if !ok || !s.tracee.mode.Stopped? then Err(ContinueFailed)
                     else Ok(()))
            && (r.Ok? ==>
                  && s'.tracee.mode.Running? && s'.run.RUNNING?
                  && s' == s.(tracee := s'.tracee, run := s'.run)
                  && s'.tracee == s.tracee.(mode := s'.tracee.mode))
            && (r.Err? ==> s' == s)
  {
  }

  /** The kernel grants every call of a wait, and the tracee stops each time. */
  predicate Granted(env: WaitEnv)
  {
    && env.outer.Stop? && env.load >= 4
    && env.disarm && env.step && env.inner.Stop? && env.rearm && env.save >= 4 && env.reload >= 4
  }

  /** So a resumed tracee is waited for, and its stop reported. */
  lemma ResumedWait(s: State, env: WaitEnv)
    requires s.pid != 0 && s.tracee.mode.Stopped? && Granted(env) && AllMapped(s.tracee.mem, s.sites.Keys)
    ensures Resume(s, true).1.Ok?
    ensures Wait(Resume(s, true).0, env).1 == Ok(StopReason(STOPPED, env.outer.signal))
  {
    WaitResult(Resume(s, true).0, env);
  }

  // ---------------------------------------------------------------------------
  // step_instruction
  // ---------------------------------------------------------------------------

  /** What a step reports. */
  lemma StepResult(s: State, env: StepEnv)
    requires AllMapped(s.tracee.mem, s.sites.Keys)
    ensures var pc := Pc(s.tracee.regs);
            Step(s, env).1
            == if s.pid == 0 then Err(NotInitialized)
               else if !s.tracee.mode.Stopped? || env.load < 4 then Err(RegistersFailed)
               else if pc !in s.sites then
                 if !env.step then Err(StepFailed) else Wait(Stepped(Loading(s)), env.wait).1
               else if !env.disarm then Err(WriteFailed)
               else if !env.step then Err(if env.rearm then StepFailed else WriteFailed)
               else RearmedResult(Wait(Lifted(Loading(s), pc), env.wait).1, env)
  {
    var pc := Pc(s.tracee.regs);
    if s.pid != 0 && s.tracee.mode.Stopped? && env.load >= 4 && pc in s.sites && env.disarm && env.step {
      RearmResult(Lifted(Loading(s), pc), pc, env);
    }
  }

  /** The registers of a stopped tracee loaded. */
  function Loading(s: State): State
  {
    s.(cache := Loaded(s.cache, s.tracee.regs, 4))
  }

  /** The result of a step from a site whose wait had this one. */
  function RearmedResult(waited: Result<StopReason>, env: StepEnv): Result<StopReason>
  {
    if waited.Err? then waited
    else if !waited.value.reason.STOPPED? then Err(NotInitialized)
    else if !env.rearm then Err(WriteFailed)
    else if env.save < 4 then Err(RegistersFailed)
    else waited
  }

  lemma RearmResult(s: State, pc: u64, env: StepEnv)
    requires Mapped(s.tracee.mem, pc)
    ensures var (s2, r2) := Wait(s, env.wait);
            FinishStep(s2, r2, pc, env).1 == RearmedResult(r2, env)
  {
    var (s2, r2) := Wait(s, env.wait);
    if r2.Ok? && r2.value.reason.STOPPED? {
      StoppedAfterWait(s, env.wait);
      FinishStepResult(s2, r2, pc, env);
    } else if r2.Ok? {
      EndedAfterWait(s, env.wait);
    }
  }

  /** A step that the kernel accepted and whose waitpid failed leaves the state RUNNING. */
  lemma FailedStepRuns(s: State, env: StepEnv)
    requires s.pid != 0 && s.tracee.mode.Stopped? && env.load >= 4 && env.step && env.wait.outer.NoStatus?
    requires var pc := Pc(s.tracee.regs); pc in s.sites ==> s.tracee.CanPoke(pc, env.disarm)
    ensures Step(s, env).1 == Err(WaitFailed) && Step(s, env).0.run.RUNNING?
  {
  }

  // ---------------------------------------------------------------------------
  // Breakpoints
  // ---------------------------------------------------------------------------

  /** Without a process nothing is added; otherwise a refused read or write is the error of that call. */
  lemma AddRefused(s: State, a: u64, peek: bool, poke: bool)
    requires Tabled(s) && (s.pid == 0 || a !in s.sites)
    ensures var (s', r) := Add(s, a, peek, poke);
            && (s.pid == 0 ==> s' == s && r == Err(NotInitialized))
            && (s.pid != 0 && !s.tracee.CanPoke(a, peek) ==> s' == s && r == Err(ReadFailed))
            && (s.pid != 0 && s.tracee.CanPoke(a, peek) && !poke ==> s' == s && r == Err(WriteFailed))
  {
    HasIdIffSite(s.ids, s.sites.Keys, s.next, a);
  }

  /** A removal by address fails, changing nothing, exactly when the kernel refuses to write the saved word
      of a site; otherwise it succeeds, with or without a breakpoint there, and drops the address from
      both tables and nothing else. Without a process no memory is written. */
  lemma RemoveContract(s: State, a: u64, poke: bool)
    ensures var (s', r) := RemoveAt(s, a, poke);
            var writes := a in s.sites && s.pid != 0;
            && r == (if writes && !s.tracee.CanPoke(a, poke) then Err(WriteFailed) else Ok(true))
            && (r.Err? ==> s' == s)
            && (r.Ok? ==>
                  && (forall b :: b in s'.sites <==> b in s.sites && b != a)
                  && (forall b | b in s'.sites :: s'.sites[b] == s.sites[b])
                  && (forall id :: id in s'.ids <==> id in s.ids && s.ids[id] != a)
                  && (forall id | id in s'.ids :: s'.ids[id] == s.ids[id])
                  && s' == s.(tracee := s'.tracee, sites := s'.sites, ids := s'.ids)
                  && s'.tracee.(mem := s.tracee.mem) == s.tracee
                  && (!writes ==> s'.tracee == s.tracee)
                  && (writes ==> Mapped(s'.tracee.mem, a) && Peek(s'.tracee.mem, a) == s.sites[a]
                                 && forall x | x in s.tracee.mem && !InWindow(a, x) ::
                                      x in s'.tracee.mem && s'.tracee.mem[x] == s.tracee.mem[x]))
  {
    if a in s.sites {
      PokeThenPeek(s.tracee.mem, a, s.sites[a]);
    }
  }

  /** A removal by id of an id that is not live reports false and changes nothing; of a live one it is the
      removal at its address, and never false. */
  lemma RemoveIdContract(s: State, id: int, poke: bool)
    ensures var (s', r) := RemoveId(s, id, poke);
            && (id !in s.ids <==> r == Ok(false))
            && (id !in s.ids ==> s' == s)
            && (id in s.ids ==> (s', r) == RemoveAt(s, s.ids[id], poke))
            && (id in s.ids && r.Ok? ==> id !in s'.ids)
  {
  }

  // ---------------------------------------------------------------------------
  // Hardware breakpoints
  // ---------------------------------------------------------------------------

  /** Without a process, for a slot that does not exist, and for a tracee that is not stopped, nothing
      changes. */
  lemma HardwareRefused(s: State, a: u64, slot: int, load: nat, save: nat)
    requires s.pid == 0 || !s.tracee.mode.Stopped?
    ensures EnableHw(s, a, load, save) == (s, Err(if s.pid == 0 then NotInitialized else RegistersFailed))
    ensures DisableHw(s, slot, load, save)
            == (s, Err(if s.pid == 0 then NotInitialized
                       else if 0 <= slot < 16 then RegistersFailed
                       else InvalidSlot))
  {
    assert s.(cache := Loaded(s.cache, s.tracee.regs, 0)) == s;
  }

  lemma NoSuchSlot(s: State, slot: int, load: nat, save: nat)
    requires s.pid != 0 && !(0 <= slot < 16)
    ensures DisableHw(s, slot, load, save) == (s, Err(InvalidSlot))
  {
  }

  // ---------------------------------------------------------------------------
  // Memory and registers
  // ---------------------------------------------------------------------------

  /** Memory is read and written exactly when there is a process and the kernel grants it; the errors tell
      the two apart. */
  lemma MemoryRefused(s: State, a: u64, w: u64, ok: bool)
    ensures ReadMemory(s, a, ok)
            == if s.pid == 0 then Err(NotInitialized)
               else if !s.tracee.CanPoke(a, ok) then Err(ReadFailed)
               else Ok(Peek(s.tracee.mem, a))
    ensures WriteMemory(s, a, w, ok).1
            == if s.pid == 0 then Err(NotInitialized)
               else if !s.tracee.CanPoke(a, ok) then Err(WriteFailed)
               else Ok(())
  {
  }

  /** The transfer that carries a regset, counted from 0. */
  function Turn(regset: RegSet): nat
  {
    match regset
    case Gpr => 0
    case Fpr => 1
    case HwBreak => 2
    case HwWatch => 3
  }

  /** What `n` of the four transfers load: the first `n` regsets, and with each debug regset its size in bytes,
      header and implemented slots. */
  lemma PartialLoad(c: Cache, regs: RegFile, n: nat, regset: RegSet)
    ensures var c' := Loaded(c, regs, n);
            && c'.file.Get(regset) == (if Turn(regset) < n then regs.Get(regset) else c.file.Get(regset))
            && c'.breakSize == (if n > 2 then 8 + 16 * regs.hwBreak[0] as nat else c.breakSize)
            && c'.watchSize == (if n > 3 then 8 + 16 * regs.hwWatch[0] as nat else c.watchSize)
  {
  }

  /** What they save: the first `n` regsets, of the debug ones only as many bytes as the cache has a size
      for. */
  lemma PartialSave(c: Cache, regs: RegFile, n: nat, regset: RegSet, i: nat)
    requires i < SizeOf(regset)
    ensures var size := match regset
                        case HwBreak => c.breakSize
                        case HwWatch => c.watchSize
                        case _ => SizeOf(regset);
            SavedRegs(c, regs, n).Get(regset)[i]
            == if Turn(regset) < n && i < size then c.file.Get(regset)[i] else regs.Get(regset)[i]
  {
  }

  /** A register write that is not saved whole is an error; the cache has it all the same. */
  lemma WriteReported(s: State, h: Handle, v: nat, save: nat)
    requires ValidHandle(h)
    ensures var (s', r) := WriteRegister(s, h, v, save);
            && r == (if s.tracee.mode.Stopped? && save >= 4 then Ok(()) else Err(RegistersFailed))
            && ReadHandle(s'.cache.file, h) == Rem(v, BitSize(h))
            && (!s.tracee.mode.Stopped? ==> s'.tracee == s.tracee)
  {
    WholeFileLaw(s.cache.file, h, v, HomePlace(h));
  }
}
