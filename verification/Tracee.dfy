/** The other side of ptrace and waitpid: a stopped or running tracee, and the answers the kernel may
    give. Every answer is an input of the call that receives it, so a statement about all answers is a
    statement about all behaviours of the kernel and of the traced program. */
module Tracees {
  import opened LittleEndian
  import opened Options
  import opened RegisterFile
  import opened Handles
  import opened Memory

  datatype Mode = Stopped | Running | Stepping | Dead

  type GprBytes = bs: seq<byte> | |bs| == GPR_SIZE witness seq(272, _ => 0)
  type FprBytes = bs: seq<byte> | |bs| == FPR_SIZE witness seq(528, _ => 0)

  /** What one executed instruction does: any general and floating-point registers, any stores. A
      program cannot write its own debug registers. */
  datatype Effect = Effect(gpr: GprBytes, fpr: FprBytes, stores: Mem)

  datatype ProcessState = RUNNING | STOPPED | EXITED | TERMINATED

  datatype StopReason = StopReason(reason: ProcessState, info: nat)

  /** An answer of waitpid. A failing call may still leave a tracee that has stopped meanwhile. */
  datatype WaitAnswer =
    | NoStatus(stopped: bool, effects: seq<Effect>)
    | Exit(status: nat)
    | Kill(signal: nat)
    | Stop(effects: seq<Effect>, signal: nat)

  /** `base` is the program's own memory: it receives every store of the program, and no write of the
      debugger. */
  datatype Tracee = Tracee(mode: Mode, mem: Mem, base: Mem, regs: RegFile)
  {
    /** PTRACE_PEEKDATA: only on a stopped tracee, only on eight mapped bytes. */
    function PeekData(a: u64, ok: bool): Option<u64>
    {
      if ok && mode.Stopped? && Mapped(mem, a) then Some(Peek(mem, a)) else None
    }

    predicate CanPoke(a: u64, ok: bool)
    {
      ok && mode.Stopped? && Mapped(mem, a)
    }

    /** PTRACE_POKEDATA. */
    function PokeData(a: u64, w: u64): Tracee
      requires Mapped(mem, a)
    {
      this.(mem := Poke(mem, a, w))
    }

    /** One instruction, if the one at pc executes at all. */
    function Executed(e: Effect): Tracee
    {
      this.(mem := mem + e.stores, base := base + e.stores,
            regs := Regsets(e.gpr, e.fpr, regs.hwBreak, regs.hwWatch))
    }

    /** Runs until the effects are used up or an instruction traps, which leaves everything as it is. */
    function Advanced(effects: seq<Effect>): Tracee
      decreases |effects|
    {
      if effects == [] || !CanExecute(mem, Pc(regs)) then this
      else Executed(effects[0]).Advanced(effects[1..])
    }

    /** What the tracee does before it is seen to stop: a stepping tracee executes at most one
        instruction. */
    function Ran(effects: seq<Effect>): Tracee
    {
      if mode.Stepping? && |effects| > 1 then Advanced(effects[..1])
      else Advanced(effects)
    }

    /** waitpid on a running tracee; a tracee that is stopped or gone has no status to report. */
    function Waited(answer: WaitAnswer): (Tracee, Option<StopReason>)
    {
      if !mode.Running? && !mode.Stepping? then (this, None)
      else
        match answer
        case NoStatus(stopped, effects) => (if stopped then Ran(effects).(mode := Stopped) else this, None)
        case Exit(status) => (this.(mode := Dead), Some(StopReason(EXITED, status)))
        case Kill(signal) => (this.(mode := Dead), Some(StopReason(TERMINATED, signal)))
        case Stop(effects, signal) => (Ran(effects).(mode := Stopped), Some(StopReason(STOPPED, signal)))
    }

    /** How many of the four register transfers of a load or save go through. */
    function Transfers(answers: nat): (n: nat)
      ensures n <= 4
    {
      if !mode.Stopped? then 0 else if answers > 4 then 4 else answers
    }
  }

  /** The debugger's copy of the registers, with the sizes of the debug regsets it writes back. */
  datatype CacheData = CacheData(file: RegFile, breakSize: nat, watchSize: nat)

  type Cache = c: CacheData | c.breakSize <= HW_SIZE && c.watchSize <= HW_SIZE
    witness CacheData(Regsets(seq(272, _ => 0), seq(528, _ => 0), seq(264, _ => 0), seq(264, _ => 0)), 0, 0)

  /** Header and implemented slots, in bytes. */
  function DebugSize(hw: seq<byte>): (n: nat)
    requires |hw| == HW_SIZE && hw[0] <= MAX_SLOTS
    ensures 8 <= n <= HW_SIZE
  {
    8 + 16 * (hw[0] as nat)
  }

  /** The cache after the first `n` of the four transfers from the tracee. */
  function Loaded(c: Cache, regs: RegFile, n: nat): Cache
  {
    var f := c.file;
    CacheData(
      Regsets(if n >= 1 then regs.gpr else f.gpr,
              if n >= 2 then regs.fpr else f.fpr,
              if n >= 3 then regs.hwBreak else f.hwBreak,
              if n >= 4 then regs.hwWatch else f.hwWatch),
      if n >= 3 then DebugSize(regs.hwBreak) else c.breakSize,
      if n >= 4 then DebugSize(regs.hwWatch) else c.watchSize)
  }

  /** `front` over the first `n` bytes of `back`. */
  function Prefix(front: seq<byte>, back: seq<byte>, n: nat): (r: seq<byte>)
    requires |front| == |back| && n <= |front|
    ensures |r| == |front|
  {
    front[..n] + back[n..]
  }

  /** The tracee's registers after the first `n` of the four transfers to it: the debug regsets are
      written only up to their implemented slots. */
  function SavedRegs(c: Cache, regs: RegFile, n: nat): RegFile
  {
    var f := c.file;
    Regsets(if n >= 1 then f.gpr else regs.gpr,
            if n >= 2 then f.fpr else regs.fpr,
            if n >= 3 then Prefix(f.hwBreak, regs.hwBreak, c.breakSize) else regs.hwBreak,
            if n >= 4 then Prefix(f.hwWatch, regs.hwWatch, c.watchSize) else regs.hwWatch)
  }
}
