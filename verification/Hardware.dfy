/** The hardware breakpoint slots (src/breakpoints.cpp:161-221, src/registers.cpp:21-27, 74, 99-102). */
module Hardware {
  import Bits
  import opened LittleEndian
  import opened Options
  import opened SubregisterViews
  import opened RegisterFile
  import opened Handles
  import opened Tracees
  import opened Protocol
  import opened StepContracts

  /** The implemented slots that are enabled, with their addresses. */
  ghost function SlotMap(hw: HwBytes): map<nat, nat>
  {
    map k: nat | k < hw[0] && k < MAX_SLOTS && !Free(hw, k) :: SlotAddr(hw, k)
  }

  function AddrPlace(k: nat): Place
  {
    Place(HwBreak, SlotOffset(k), 8)
  }

  function CtrlPlace(k: nat): Place
  {
    Place(HwBreak, SlotOffset(k) + 8, 4)
  }

  lemma SlotEntries(k: nat)
    requires k < MAX_SLOTS
    ensures EntryAt(AddrIndex(k)).place == AddrPlace(k)
    ensures EntryAt(CtrlIndex(k)).place == CtrlPlace(k)
  {
  }

  lemma SlotNames(k: nat)
    requires k < MAX_SLOTS
    ensures Resolved("brk_addr" + Decimal(k)) == Some(Full(AddrIndex(k)))
    ensures Resolved("brk_ctrl" + Decimal(k)) == Some(Full(CtrlIndex(k)))
  {
    ResolvedFull(AddrIndex(k));
    ResolvedFull(CtrlIndex(k));
    SlotLetters(k);
  }

  lemma SlotLetters(k: nat)
    requires k < MAX_SLOTS
    ensures EntryAt(AddrIndex(k)).name == "brk_addr" + Decimal(k)
    ensures EntryAt(CtrlIndex(k)).name == "brk_ctrl" + Decimal(k)
  {
    NameIs(AddrIndex(k), 7, k);
    NameIs(CtrlIndex(k), 8, k);
  }

  lemma NameIs(i: nat, f: nat, k: nat)
    requires i < TABLE_SIZE && Family(i) == f && Number(i) == k && Counted(f)
    ensures EntryAt(i).name == Letters(f) + Decimal(k)
  {
    NameOfEntry(i);
  }

  // ---------------------------------------------------------------------------
  // Writes to the fields of one slot
  // ---------------------------------------------------------------------------

  lemma SlotFields(f: RegFile, k: nat)
    requires k < MAX_SLOTS
    ensures SlotAddr(f.hwBreak, k) == ToNat(Field(f, AddrPlace(k)))
    ensures SlotCtrl(f.hwBreak, k) == ToNat(Field(f, CtrlPlace(k)))
  {
  }

  /** A write to a field of slot `k` reaches no other slot, nor the header. */
  lemma PutSlotField(f: RegFile, k: nat, p: Place, bs: seq<byte>)
    requires k < MAX_SLOTS && (p == AddrPlace(k) || p == CtrlPlace(k)) && |bs| == p.size
    ensures var r := PutField(f, p, bs);
            && (forall j: nat | j < MAX_SLOTS && j != k ::
                  SlotAddr(r.hwBreak, j) == SlotAddr(f.hwBreak, j) && SlotCtrl(r.hwBreak, j) == SlotCtrl(f.hwBreak, j))
            && SlotAddr(r.hwBreak, k) == (if p == AddrPlace(k) then ToNat(bs) else SlotAddr(f.hwBreak, k))
            && SlotCtrl(r.hwBreak, k) == (if p == CtrlPlace(k) then ToNat(bs) else SlotCtrl(f.hwBreak, k))
            && r.hwBreak[0] == f.hwBreak[0]
            && r.gpr == f.gpr && r.fpr == f.fpr && r.hwWatch == f.hwWatch
  {
    var r := PutField(f, p, bs);
    forall j: nat | j < MAX_SLOTS
      ensures j != k || p != AddrPlace(k) ==> SlotAddr(r.hwBreak, j) == SlotAddr(f.hwBreak, j)
      ensures j != k || p != CtrlPlace(k) ==> SlotCtrl(r.hwBreak, j) == SlotCtrl(f.hwBreak, j)
    {
      SlotFields(f, j);
      SlotFields(r, j);
      FieldAfterPut(f, p, bs, AddrPlace(j));
      FieldAfterPut(f, p, bs, CtrlPlace(j));
    }
    SlotFields(r, k);
    FieldAfterPut(f, p, bs, p);
    SpliceAt(f.hwBreak, p.offset, bs, 0);
  }

  /** The register file with slot `k` programmed. */
  function Programmed(f: RegFile, k: nat, a: u64): RegFile
    requires k < MAX_SLOTS
  {
    PutField(PutField(f, AddrPlace(k), FromNat(a, 8)), CtrlPlace(k), FromNat(BREAK_CTRL, 4))
  }

  /** The cache of a state replaced by another register file. */
  function WithFile(s: State, f: RegFile): State
  {
    s.(cache := s.cache.(file := f))
  }

  lemma ProgrammedIsPut(s: State, k: nat, a: u64)
    requires k < MAX_SLOTS
    ensures Put(Put(s, Full(AddrIndex(k)), a), Full(CtrlIndex(k)), BREAK_CTRL)
            == WithFile(s, Programmed(s.cache.file, k, a))
  {
    SlotEntries(k);
  }

  lemma CtrlWord(v: nat, n: nat)
    requires v < 0x1_0000_0000 && n == 4
    ensures ToNat(FromNat(v, n)) == v
  {
    ToNatFromNat(v, n);
    Bits.Pow2Values();
    Bits.RemSmall(v, 8 * n);
  }

  lemma ProgrammedSlots(f: RegFile, k: nat, a: u64)
    requires k < MAX_SLOTS
    ensures var r := Programmed(f, k, a);
            && SlotAddr(r.hwBreak, k) == a && SlotCtrl(r.hwBreak, k) == BREAK_CTRL
            && (forall j: nat | j < MAX_SLOTS && j != k ::
                  SlotAddr(r.hwBreak, j) == SlotAddr(f.hwBreak, j) && SlotCtrl(r.hwBreak, j) == SlotCtrl(f.hwBreak, j))
            && r.hwBreak[0] == f.hwBreak[0]
            && r.gpr == f.gpr && r.fpr == f.fpr && r.hwWatch == f.hwWatch
  {
    PutSlotField(f, k, AddrPlace(k), FromNat(a, 8));
    PutSlotField(PutField(f, AddrPlace(k), FromNat(a, 8)), k, CtrlPlace(k), FromNat(BREAK_CTRL, 4));
    WordBack(a);
    CtrlWord(BREAK_CTRL, 4);
  }

  // ---------------------------------------------------------------------------
  // The partial write-back
  // ---------------------------------------------------------------------------

  /** A write below the written-back prefix is written back whole; one above it is lost whole. */
  lemma WriteBackField(before: HwBytes, p: Place, bs: seq<byte>, n: nat)
    requires (p.regset.HwBreak? || p.regset.HwWatch?) && InFile(p) && |bs| == p.size && n <= HW_SIZE
    ensures p.offset + p.size <= n ==> Prefix(Splice(before, p.offset, bs), before, n) == Splice(before, p.offset, bs)
    ensures n <= p.offset ==> Prefix(Splice(before, p.offset, bs), before, n) == before
  {
    var after := Splice(before, p.offset, bs);
    if p.offset + p.size <= n {
      assert after[n..] == before[n..];
    }
    if n <= p.offset {
      assert after[..n] == before[..n];
    }
  }

  lemma PrefixChain(a: HwBytes, b: HwBytes, c: HwBytes, n: nat)
    requires n <= HW_SIZE
    ensures Prefix(b, a, n) == b && Prefix(c, b, n) == c ==> Prefix(c, a, n) == c
    ensures Prefix(b, a, n) == a && Prefix(c, b, n) == b ==> Prefix(c, a, n) == a
  {
    if Prefix(b, a, n) == b && Prefix(c, b, n) == c {
      assert b[n..] == a[n..] && c[n..] == b[n..];
    }
    if Prefix(b, a, n) == a && Prefix(c, b, n) == b {
      assert b[..n] == a[..n] && c[..n] == b[..n];
      assert a == a[..n] + a[n..];
    }
  }

  /** Saving right after loading, with slot `k` programmed in between: the slot reaches the tracee
      exactly when it is implemented, and then nothing else changes. */
  lemma SaveProgrammed(t: Tracee, k: nat, a: u64)
    requires k < MAX_SLOTS
    ensures var n := DebugSize(t.regs.hwBreak);
            var hw := Programmed(t.regs, k, a).hwBreak;
            && (k < t.regs.hwBreak[0] ==> Prefix(hw, t.regs.hwBreak, n) == hw)
            && (k >= t.regs.hwBreak[0] ==> Prefix(hw, t.regs.hwBreak, n) == t.regs.hwBreak)
  {
    var n := DebugSize(t.regs.hwBreak);
    var mid := PutField(t.regs, AddrPlace(k), FromNat(a, 8));
    WriteBackField(t.regs.hwBreak, AddrPlace(k), FromNat(a, 8), n);
    WriteBackField(mid.hwBreak, CtrlPlace(k), FromNat(BREAK_CTRL, 4), n);
    PrefixChain(t.regs.hwBreak, mid.hwBreak, Programmed(t.regs, k, a).hwBreak, n);
  }

  /** A save in which only the breakpoint regset differs. */
  lemma SaveSome(c: Cache, regs: RegFile, n: nat)
    requires c.file.gpr == regs.gpr && c.file.fpr == regs.fpr && c.file.hwWatch == regs.hwWatch
    ensures SavedRegs(c, regs, n)
            == if n >= 3 then regs.(hwBreak := Prefix(c.file.hwBreak, regs.hwBreak, c.breakSize)) else regs
  {
    SameRegset(regs.hwWatch, c.watchSize);
  }

  /** Transfers of unchanged regsets change nothing. */
  lemma SameRegset(bs: seq<byte>, n: nat)
    requires n <= |bs|
    ensures Prefix(bs, bs, n) == bs
  {
    assert bs[..n] + bs[n..] == bs;
  }

  // ---------------------------------------------------------------------------
  // enable_hw_breakpoint
  // ---------------------------------------------------------------------------

  lemma {:induction false} FirstFreeMeans(hw: HwBytes, slot: nat)
    requires slot <= Scanned(hw)
    ensures match FirstFree(hw, slot)
            case None => forall k: nat | slot <= k < Scanned(hw) :: SlotCtrl(hw, k) % 2 == 1
            case Some(r) =>
              && slot <= r < Scanned(hw) && SlotCtrl(hw, r) % 2 == 0
              && forall k: nat | slot <= k < r :: SlotCtrl(hw, k) % 2 == 1
    decreases Scanned(hw) - slot
  {
    if slot < Scanned(hw) && !Free(hw, slot) {
      FirstFreeMeans(hw, slot + 1);
    }
  }

  /** The state after loading the registers of a stopped tracee. */
  function Fresh(s: State): State
  {
    s.(cache := Loaded(s.cache, s.tracee.regs, 4))
  }

  /** A control word of an enabled breakpoint: the E bit, the privilege field PMC = 3, all four bytes
      selected, and nothing else. */
  predicate BreakControl(c: nat)
  {
    c % 2 == 1 && c / 2 % 4 == 3 && c / 8 % 4 == 0 && c / 32 % 16 == 15 && c / 512 == 0
  }

  /** The bytes of two regsets are the same outside one slot's address and control word. */
  predicate SameOtherSlots(before: HwBytes, after: HwBytes, k: nat)
  {
    forall i | 0 <= i < HW_SIZE && !(SlotOffset(k) <= i < SlotOffset(k) + 12) :: after[i] == before[i]
  }

  /** A successful enable programs the least free slot. With at least one implemented slot the tracee
      gets exactly that change and the cache shows it. With none reported, all 16 slots are scanned,
      the call succeeds in the cache, and the tracee gets nothing. */
  lemma EnableContract(s: State, a: u64, load: nat, save: nat)
    requires s.pid != 0 && s.tracee.mode.Stopped?
    ensures var (s', r) := EnableHw(s, a, load, save);
            var before, after := s.tracee.regs.hwBreak, s'.tracee.regs.hwBreak;
            var scanned := if before[0] == 0 then 16 else before[0] as nat;
            && (r.Ok? ==>
                  && r.value < scanned && SlotCtrl(before, r.value) % 2 == 0
                  && (forall k: nat | k < r.value :: SlotCtrl(before, k) % 2 == 1)
                  && s'.tracee == s.tracee.(regs := s.tracee.regs.(hwBreak := after))
                  && (before[0] == 0 ==> after == before)
                  && (before[0] != 0 ==>
                        && SlotAddr(after, r.value) == a && BreakControl(SlotCtrl(after, r.value))
                        && SameOtherSlots(before, after, r.value)
                        && SlotMap(after) == SlotMap(before)[r.value := a])
                  && (Coherent(s') <==> before[0] != 0))
            && (r == Err(NoFreeSlot) <==>
                  load >= 4 && forall k: nat | k < scanned :: SlotCtrl(before, k) % 2 == 1)
            && (r == Err(NoFreeSlot) ==> s'.tracee == s.tracee)
            && (r.Err? ==> r == Err(NoFreeSlot) || (r == Err(RegistersFailed) && (load < 4 || save < 4)))
            && (r.Ok? ==> load >= 4 && save >= 4)
  {
    FirstFreeMeans(s.tracee.regs.hwBreak, 0);
    EnableUnfolds(s, a, load, save);
    EnableTakes(s, a, load, save);
    var r := EnableHw(s, a, load, save).1;
    if r.Ok? {
      ProgrammedBytes(s.tracee.regs, r.value, a);
    }
  }

  lemma ProgrammedBytes(f: RegFile, k: nat, a: u64)
    requires k < MAX_SLOTS
    ensures var r := Programmed(f, k, a);
            && SlotAddr(r.hwBreak, k) == a && BreakControl(SlotCtrl(r.hwBreak, k))
            && SameOtherSlots(f.hwBreak, r.hwBreak, k) && r == f.(hwBreak := r.hwBreak)
  {
    var mid := PutField(f, AddrPlace(k), FromNat(a, 8));
    ProgrammedSlots(f, k, a);
    OtherBytes(f, k, AddrPlace(k), FromNat(a, 8));
    OtherBytes(mid, k, CtrlPlace(k), FromNat(BREAK_CTRL, 4));
  }

  lemma OtherBytes(f: RegFile, k: nat, p: Place, bs: seq<byte>)
    requires k < MAX_SLOTS && (p == AddrPlace(k) || p == CtrlPlace(k)) && |bs| == p.size
    ensures SameOtherSlots(f.hwBreak, PutField(f, p, bs).hwBreak, k)
  {
    forall i | 0 <= i < HW_SIZE && !(SlotOffset(k) <= i < SlotOffset(k) + 12)
      ensures PutField(f, p, bs).hwBreak[i] == f.hwBreak[i]
    {
      SpliceAt(f.hwBreak, p.offset, bs, i);
    }
  }

  /** What a successful enable leaves. */
  lemma EnableTakes(s: State, a: u64, load: nat, save: nat)
    requires s.pid != 0 && s.tracee.mode.Stopped?
    ensures var (s', r) := EnableHw(s, a, load, save);
            var before := s.tracee.regs.hwBreak;
            r.Ok? ==>
              && FirstFree(before, 0) == Some(r.value)
              && s'.tracee == s.tracee.(regs := if before[0] == 0 then s.tracee.regs
                                                else Programmed(s.tracee.regs, r.value, a))
              && SlotMap(s'.tracee.regs.hwBreak)
                 == (if before[0] == 0 then SlotMap(before) else SlotMap(before)[r.value := a])
              && (Coherent(s') <==> before[0] != 0)
  {
    var hw := s.tracee.regs.hwBreak;
    FirstFreeMeans(hw, 0);
    EnableUnfolds(s, a, load, save);
    if FirstFree(hw, 0).Some? && load >= 4 && save >= 4 {
      EnableReaches(s, FirstFree(hw, 0).value, a, save);
    }
  }

  /** What is left once the cache with the slot programmed was saved. */
  lemma EnableReaches(s: State, k: nat, a: u64, save: nat)
    requires s.tracee.mode.Stopped? && save >= 4
    requires k < Scanned(s.tracee.regs.hwBreak) && Free(s.tracee.regs.hwBreak, k)
    ensures var before := s.tracee.regs.hwBreak;
            var s' := Save(WithFile(Fresh(s), Programmed(s.tracee.regs, k, a)), save).0;
            && s'.tracee == s.tracee.(regs := if before[0] == 0 then s.tracee.regs else Programmed(s.tracee.regs, k, a))
            && SlotMap(s'.tracee.regs.hwBreak) == (if before[0] == 0 then SlotMap(before) else SlotMap(before)[k := a])
            && (Coherent(s') <==> before[0] != 0)
  {
    EnableSaved(Fresh(s), k, a);
    SlotMapProgrammed(s.tracee.regs, k, a);
    ProgrammedSlots(s.tracee.regs, k, a);
  }

  lemma EnableUnfolds(s: State, a: u64, load: nat, save: nat)
    requires s.pid != 0 && s.tracee.mode.Stopped?
    ensures load >= 4 ==>
              match FirstFree(s.tracee.regs.hwBreak, 0)
              case None => EnableHw(s, a, load, save) == (Fresh(s), Err(NoFreeSlot))
              case Some(k) =>
                var (s', r) := Save(WithFile(Fresh(s), Programmed(s.tracee.regs, k, a)), save);
                EnableHw(s, a, load, save) == (s', if r.Err? then Err(r.error) else Ok(k))
    ensures load < 4 ==> EnableHw(s, a, load, save).1 == Err(RegistersFailed)
  {
    if FirstFree(s.tracee.regs.hwBreak, 0).Some? {
      ProgrammedIsPut(Fresh(s), FirstFree(s.tracee.regs.hwBreak, 0).value, a);
    }
  }

  lemma EnableSaved(s: State, k: nat, a: u64)
    requires s.cache == Loaded(s.cache, s.tracee.regs, 4) && k < Scanned(s.tracee.regs.hwBreak)
    requires Free(s.tracee.regs.hwBreak, k)
    ensures var c := s.cache.(file := Programmed(s.cache.file, k, a));
            var regs := SavedRegs(c, s.tracee.regs, 4);
            && regs == (if s.tracee.regs.hwBreak[0] == 0 then s.tracee.regs else c.file)
            && (c.file == regs <==> s.tracee.regs.hwBreak[0] != 0)
  {
    EnableSavedRegs(s, k, a);
    ProgrammedDiffers(s.tracee.regs, k, a);
  }

  lemma EnableSavedRegs(s: State, k: nat, a: u64)
    requires s.cache == Loaded(s.cache, s.tracee.regs, 4) && k < Scanned(s.tracee.regs.hwBreak)
    ensures var c := s.cache.(file := Programmed(s.cache.file, k, a));
            SavedRegs(c, s.tracee.regs, 4)
            == if s.tracee.regs.hwBreak[0] == 0 then s.tracee.regs else c.file
  {
    ProgrammedSlots(s.tracee.regs, k, a);
    SaveProgrammed(s.tracee, k, a);
    SaveSome(s.cache.(file := Programmed(s.cache.file, k, a)), s.tracee.regs, 4);
  }

  lemma ProgrammedDiffers(f: RegFile, k: nat, a: u64)
    requires k < MAX_SLOTS && Free(f.hwBreak, k)
    ensures Programmed(f, k, a).hwBreak != f.hwBreak
  {
    ProgrammedSlots(f, k, a);
  }

  lemma SlotMapProgrammed(f: RegFile, k: nat, a: u64)
    requires k < MAX_SLOTS
    ensures k < f.hwBreak[0] ==> SlotMap(Programmed(f, k, a).hwBreak) == SlotMap(f.hwBreak)[k := a]
  {
    ProgrammedSlots(f, k, a);
    SlotMapUpdate(f.hwBreak, Programmed(f, k, a).hwBreak, k);
  }

  /** What a change of one slot does to the slot map. */
  lemma SlotMapUpdate(before: HwBytes, after: HwBytes, k: nat)
    requires k < MAX_SLOTS && after[0] == before[0]
    requires forall j: nat | j < MAX_SLOTS && j != k ::
               SlotAddr(after, j) == SlotAddr(before, j) && SlotCtrl(after, j) == SlotCtrl(before, j)
    ensures Free(after, k) ==> SlotMap(after) == SlotMap(before) - {k}
    ensures !Free(after, k) && k < before[0] ==> SlotMap(after) == SlotMap(before)[k := SlotAddr(after, k)]
    ensures k >= before[0] ==> SlotMap(before) == SlotMap(before) - {k}
  {
    forall j: nat | j < MAX_SLOTS && j != k
      ensures Free(after, j) == Free(before, j) && SlotAddr(after, j) == SlotAddr(before, j)
    {
      assert SlotCtrl(after, j) == SlotCtrl(before, j);
    }
  }

  // ---------------------------------------------------------------------------
  // disable_hw_breakpoint
  // ---------------------------------------------------------------------------

  /** The register file with the E bit of slot `k` cleared. */
  function Cleared(f: RegFile, k: nat): RegFile
    requires k < MAX_SLOTS
  {
    var ctrl := SlotCtrl(f.hwBreak, k);
    PutField(f, CtrlPlace(k), FromNat(WithoutE(ctrl), 4))
  }

  lemma ClearedSlots(f: RegFile, k: nat)
    requires k < MAX_SLOTS
    ensures var r := Cleared(f, k);
            && SlotCtrl(r.hwBreak, k) == WithoutE(SlotCtrl(f.hwBreak, k)) && Free(r.hwBreak, k)
            && SlotAddr(r.hwBreak, k) == SlotAddr(f.hwBreak, k)
            && (forall j: nat | j < MAX_SLOTS && j != k ::
                  SlotAddr(r.hwBreak, j) == SlotAddr(f.hwBreak, j) && SlotCtrl(r.hwBreak, j) == SlotCtrl(f.hwBreak, j))
            && r.hwBreak[0] == f.hwBreak[0]
            && r.gpr == f.gpr && r.fpr == f.fpr && r.hwWatch == f.hwWatch
  {
    var ctrl := SlotCtrl(f.hwBreak, k);
    CtrlBound(f, k);
    EvenPart(ctrl);
    PutCtrl(f, k, WithoutE(ctrl));
  }

  /** `c & ~1` in a word of `w` bits. */
  lemma MaskE(c: nat, w: nat)
    requires c < Bits.Pow2(w) && 1 < Bits.Pow2(w)
    ensures Bits.And(c, Bits.Not(1, w)) == WithoutE(c)
  {
    forall i: nat
      ensures Bits.Bit(Bits.And(c, Bits.Not(1, w)), i) == Bits.Bit(WithoutE(c), i)
    {
      Bits.AndBit(c, Bits.Not(1, w), i);
      Bits.ComplementBit(1, w, i);
      WithoutEBit(c, i);
      OneBit(i);
      if i >= w {
        Bits.HighBitsClear(c, w, i);
      }
    }
    Bits.Extensional(Bits.And(c, Bits.Not(1, w)), WithoutE(c));
  }

  lemma WithoutEBit(c: nat, i: nat)
    ensures Bits.Bit(WithoutE(c), i) == (i > 0 && Bits.Bit(c, i))
  {
    Bits.BitOfSum(c / 2, 0, i);
    Bits.BitOfSum(c / 2, c % 2, i);
  }

  lemma OneBit(i: nat)
    ensures Bits.Bit(1, i) == (i == 0)
  {
    if i > 0 {
      Bits.ZeroBits(i - 1);
    }
  }

  /** `E | PMC << 1 | BAS << 5 | BT << 20` in a word of `w` bits. */
  lemma BreakCtrlWord(e: nat, pmc: nat, bas: nat, bt: nat, w: nat)
    requires e == 1 && pmc == 3 && bas == 15 && bt == 0 && w == 32
    ensures Bits.Or(Bits.Or(Bits.Or(e, Bits.Shl(pmc, 1, w)), Bits.Shl(bas, 5, w)), Bits.Shl(bt, 20, w)) == BREAK_CTRL
  {
    FieldFits(e, pmc, 1, w, 2);
    FieldFits(7, bas, 5, w, 4);
    FieldFits(0x1e7, bt, 20, w, 1);
    SmallPowers();
    var two := e + Bits.Times(pmc, 1);
    Bits.TimesIsMul(pmc, 1);
    JoinHigh(e, pmc, 1, w);
    assert two == 7;
    Bits.TimesIsMul(bas, 5);
    JoinHigh(two, bas, 5, w);
    Bits.TimesIsMul(bt, 20);
    JoinHigh(two + Bits.Times(bas, 5), bt, 20, w);
  }

  lemma SmallPowers()
    ensures Bits.Pow2(1) == 2 && Bits.Pow2(5) == 32
  {
  }

  lemma FieldFits(lo: nat, hi: nat, k: nat, w: nat, n: nat)
    requires w == 32 && k + n <= w
    requires (k == 1 && n == 2 && lo < 2 && hi < 4) || (k == 5 && n == 4 && lo < 32 && hi < 16)
             || (k == 20 && n == 1 && lo < 0x200 && hi < 2)
    ensures lo < Bits.Pow2(k) && hi < Bits.Pow2(w - k)
  {
    Bits.Pow2Grows(n, w - k);
    if k == 20 {
      Bits.Pow2Grows(9, k);
      assert Bits.Pow2(9) == 0x200;
    }
  }

  lemma JoinHigh(lo: nat, hi: nat, k: nat, w: nat)
    requires lo < Bits.Pow2(k) && k <= w && hi < Bits.Pow2(w - k)
    ensures Bits.Or(lo, Bits.Shl(hi, k, w)) == lo + Bits.Times(hi, k)
  {
    Bits.OrCommutes(lo, Bits.Shl(hi, k, w));
    Bits.JoinParts(lo, hi, k, w);
  }

  lemma EvenPart(c: nat)
    ensures WithoutE(c) <= c && WithoutE(c) % 2 == 0
  {
  }

  /** Clearing a clear bit changes nothing. */
  lemma ClearedFree(f: RegFile, k: nat)
    requires k < MAX_SLOTS && Free(f.hwBreak, k)
    ensures Cleared(f, k) == f
  {
    SlotFields(f, k);
    FromNatToNat(Field(f, CtrlPlace(k)));
    SpliceBack(f.hwBreak, SlotOffset(k) + 8, 4);
  }

  lemma CtrlBound(f: RegFile, k: nat)
    requires k < MAX_SLOTS
    ensures SlotCtrl(f.hwBreak, k) < 0x1_0000_0000
  {
    SlotFields(f, k);
    ToNatBound(Field(f, CtrlPlace(k)));
    Bits.Pow2Values();
  }

  lemma PutCtrl(f: RegFile, k: nat, v: nat)
    requires k < MAX_SLOTS && v < 0x1_0000_0000
    ensures var r := PutField(f, CtrlPlace(k), FromNat(v, 4));
            && SlotCtrl(r.hwBreak, k) == v
            && SlotAddr(r.hwBreak, k) == SlotAddr(f.hwBreak, k)
            && (forall j: nat | j < MAX_SLOTS && j != k ::
                  SlotAddr(r.hwBreak, j) == SlotAddr(f.hwBreak, j) && SlotCtrl(r.hwBreak, j) == SlotCtrl(f.hwBreak, j))
            && r.hwBreak[0] == f.hwBreak[0]
            && r.gpr == f.gpr && r.fpr == f.fpr && r.hwWatch == f.hwWatch
  {
    PutSlotField(f, k, CtrlPlace(k), FromNat(v, 4));
    CtrlWord(v, 4);
  }

  lemma ClearedIsPut(s: State, k: nat)
    requires k < MAX_SLOTS
    ensures Put(s, Full(CtrlIndex(k)), WithoutE(SlotCtrl(s.cache.file.hwBreak, k)))
            == WithFile(s, Cleared(s.cache.file, k))
  {
    SlotEntries(k);
  }

  /** A successful disable clears the E bit of its slot and nothing else, if the slot is implemented;
      beyond that only the cache changes. So the cache agrees with the tracee afterwards exactly when
      the slot is implemented or was free already. */
  lemma DisableContract(s: State, slot: nat, load: nat, save: nat)
    requires s.pid != 0 && s.tracee.mode.Stopped? && slot < MAX_SLOTS
    ensures var (s', r) := DisableHw(s, slot, load, save);
            var before, after := s.tracee.regs.hwBreak, s'.tracee.regs.hwBreak;
            && (r.Ok? ==>
                  && s'.tracee == s.tracee.(regs := s.tracee.regs.(hwBreak := after))
                  && (slot >= before[0] ==> after == before)
                  && (slot < before[0] ==>
                        && SlotCtrl(after, slot) / 2 == SlotCtrl(before, slot) / 2 && SlotCtrl(after, slot) % 2 == 0
                        && SlotAddr(after, slot) == SlotAddr(before, slot)
                        && SameOtherSlots(before, after, slot))
                  && SlotMap(after) == SlotMap(before) - {slot}
                  && (Coherent(s') <==> slot < before[0] || SlotCtrl(before, slot) % 2 == 0))
            && r == (if load >= 4 && save >= 4 then Ok(()) else Err(RegistersFailed))
  {
    DisableUnfolds(s, slot, load, save);
    DisableSaved(Fresh(s), slot);
    SlotMapCleared(s.tracee.regs, slot);
    ClearedBytes(s.tracee.regs, slot);
  }

  lemma ClearedBytes(f: RegFile, k: nat)
    requires k < MAX_SLOTS
    ensures var r := Cleared(f, k);
            && SlotCtrl(r.hwBreak, k) / 2 == SlotCtrl(f.hwBreak, k) / 2 && SlotCtrl(r.hwBreak, k) % 2 == 0
            && SlotAddr(r.hwBreak, k) == SlotAddr(f.hwBreak, k)
            && SameOtherSlots(f.hwBreak, r.hwBreak, k) && r == f.(hwBreak := r.hwBreak)
  {
    var ctrl := SlotCtrl(f.hwBreak, k);
    ClearedSlots(f, k);
    OtherBytes(f, k, CtrlPlace(k), FromNat(WithoutE(ctrl), 4));
    HalfWithoutE(ctrl);
  }

  lemma HalfWithoutE(c: nat)
    ensures WithoutE(c) / 2 == c / 2
  {
  }

  lemma DisableUnfolds(s: State, slot: nat, load: nat, save: nat)
    requires s.pid != 0 && s.tracee.mode.Stopped? && slot < MAX_SLOTS
    ensures load >= 4 ==> DisableHw(s, slot, load, save) == Save(WithFile(Fresh(s), Cleared(s.tracee.regs, slot)), save)
    ensures load < 4 ==> DisableHw(s, slot, load, save).1 == Err(RegistersFailed)
  {
    ClearedIsPut(Fresh(s), slot);
  }

  lemma DisableSaved(s: State, k: nat)
    requires s.cache == Loaded(s.cache, s.tracee.regs, 4) && k < MAX_SLOTS
    ensures var c := s.cache.(file := Cleared(s.cache.file, k));
            var regs := SavedRegs(c, s.tracee.regs, 4);
            && regs == (if k < s.tracee.regs.hwBreak[0] then c.file else s.tracee.regs)
            && (c.file == regs <==> k < s.tracee.regs.hwBreak[0] || Free(s.tracee.regs.hwBreak, k))
  {
    var hw := s.tracee.regs.hwBreak;
    ClearedSlots(s.tracee.regs, k);
    ClearedWriteBack(s.tracee.regs, k, s.cache.breakSize);
    SaveSome(s.cache.(file := Cleared(s.cache.file, k)), s.tracee.regs, 4);
    if Free(hw, k) {
      ClearedFree(s.tracee.regs, k);
    }
  }

  lemma ClearedWriteBack(f: RegFile, k: nat, n: nat)
    requires k < MAX_SLOTS && n == DebugSize(f.hwBreak)
    ensures Prefix(Cleared(f, k).hwBreak, f.hwBreak, n)
            == if k < f.hwBreak[0] then Cleared(f, k).hwBreak else f.hwBreak
  {
    var ctrl := SlotCtrl(f.hwBreak, k);
    WriteBackField(f.hwBreak, CtrlPlace(k), FromNat(WithoutE(ctrl), 4), n);
  }

  lemma SlotMapCleared(f: RegFile, k: nat)
    requires k < MAX_SLOTS
    ensures SlotMap(Cleared(f, k).hwBreak) == SlotMap(f.hwBreak) - {k}
    ensures k >= f.hwBreak[0] ==> SlotMap(f.hwBreak) == SlotMap(f.hwBreak) - {k}
  {
    var after := Cleared(f, k).hwBreak;
    ClearedSlots(f, k);
    SlotMapUpdate(f.hwBreak, after, k);
  }

  // ---------------------------------------------------------------------------
  // Any history of enables and disables refines a partial map
  // ---------------------------------------------------------------------------

  /** The operations with the kernel's answers to their load and their save. */
  datatype SlotOp = Enable(a: u64, load: nat, save: nat) | Disable(slot: nat, load: nat, save: nat)

  /** The whole load and the transfer of the breakpoint regset are granted; a refusal after that one is
      an error all the same. */
  predicate Lands(op: SlotOp)
  {
    op.load >= 4 && op.save >= 3
  }

  /** The abstract allocator: a partial map from `n` slots to addresses. */
  ghost predicate LeastUnused(m: map<nat, nat>, n: nat, k: nat)
  {
    k < n && k !in m && forall j: nat | j < k :: j in m
  }

  ghost function Allocate(m: map<nat, nat>, n: nat, a: u64): map<nat, nat>
  {
    if exists k: nat :: LeastUnused(m, n, k) then
      var k: nat :| LeastUnused(m, n, k); m[k := a]
    else m
  }

  ghost function AllocatorStep(m: map<nat, nat>, n: nat, op: SlotOp): map<nat, nat>
  {
    if !Lands(op) then m
    else
      match op
      case Enable(a, _, _) => Allocate(m, n, a)
      case Disable(k, _, _) => m - {k}
  }

  ghost function AllocatorRun(m: map<nat, nat>, n: nat, ops: seq<SlotOp>): map<nat, nat>
    decreases |ops|
  {
    if ops == [] then m else AllocatorRun(AllocatorStep(m, n, ops[0]), n, ops[1..])
  }

  function DoSlot(s: State, op: SlotOp): State
  {
    match op
    case Enable(a, load, save) => EnableHw(s, a, load, save).0
    case Disable(k, load, save) => DisableHw(s, k, load, save).0
  }

  /** The debugger on the same history. */
  function SlotRun(s: State, ops: seq<SlotOp>): State
    decreases |ops|
  {
    if ops == [] then s else SlotRun(DoSlot(s, ops[0]), ops[1..])
  }

  lemma AllocateIs(hw: HwBytes, n: nat, a: u64)
    requires n == hw[0] && 1 <= n <= MAX_SLOTS
    ensures match FirstFree(hw, 0)
            case None => Allocate(SlotMap(hw), n, a) == SlotMap(hw)
            case Some(k) => Allocate(SlotMap(hw), n, a) == SlotMap(hw)[k := a]
  {
    FirstFreeMeans(hw, 0);
    var m := SlotMap(hw);
    match FirstFree(hw, 0) {
      case None =>
      case Some(k) =>
        assert LeastUnused(m, n, k);
        forall j: nat | LeastUnused(m, n, j)
          ensures j == k
        {
        }
    }
  }

  /** With 1 to 16 implemented slots, the slots of the tracee are those of the abstract allocator after
      any history, refusals of the kernel included: an operation takes effect exactly when it lands,
      whether or not it then reports an error. */
  lemma {:induction false} SlotsRefineMap(s: State, ops: seq<SlotOp>)
    requires s.pid != 0 && s.tracee.mode.Stopped? && s.tracee.regs.hwBreak[0] >= 1
    ensures var s' := SlotRun(s, ops);
            && s'.pid == s.pid && s'.tracee.mode.Stopped? && s'.tracee.regs.hwBreak[0] == s.tracee.regs.hwBreak[0]
            && SlotMap(s'.tracee.regs.hwBreak)
               == AllocatorRun(SlotMap(s.tracee.regs.hwBreak), s.tracee.regs.hwBreak[0], ops)
    decreases |ops|
  {
    if ops != [] {
      SlotStep(s, ops[0]);
      SlotsRefineMap(DoSlot(s, ops[0]), ops[1..]);
    }
  }

  lemma SlotStep(s: State, op: SlotOp)
    requires s.pid != 0 && s.tracee.mode.Stopped? && s.tracee.regs.hwBreak[0] >= 1
    ensures var s' := DoSlot(s, op);
            && s'.pid == s.pid && s'.tracee.mode.Stopped? && s'.tracee.regs.hwBreak[0] == s.tracee.regs.hwBreak[0]
            && SlotMap(s'.tracee.regs.hwBreak)
               == AllocatorStep(SlotMap(s.tracee.regs.hwBreak), s.tracee.regs.hwBreak[0], op)
  {
    var hw := s.tracee.regs.hwBreak;
    match op {
      case Enable(a, load, save) =>
        EnableLands(s, a, load, save);
        AllocateIs(hw, hw[0], a);
      case Disable(k, load, save) =>
        DisableLands(s, k, load, save);
    }
  }

  /** An enable changes the tracee exactly when it lands and finds a free slot. */
  lemma EnableLands(s: State, a: u64, load: nat, save: nat)
    requires s.pid != 0 && s.tracee.mode.Stopped? && s.tracee.regs.hwBreak[0] >= 1
    ensures var s' := EnableHw(s, a, load, save).0;
            var hw := s.tracee.regs.hwBreak;
            var slot := FirstFree(hw, 0);
            var lands := Lands(Enable(a, load, save)) && slot.Some?;
            && s'.pid == s.pid && s'.tracee.mode == s.tracee.mode && s'.tracee.regs.hwBreak[0] == hw[0]
            && s'.tracee.regs == (if lands then Programmed(s.tracee.regs, slot.value, a) else s.tracee.regs)
            && SlotMap(s'.tracee.regs.hwBreak) == (if lands then SlotMap(hw)[slot.value := a] else SlotMap(hw))
  {
    EnableUnfolds(s, a, load, save);
    if FirstFree(s.tracee.regs.hwBreak, 0).Some? && load >= 4 {
      var k := FirstFree(s.tracee.regs.hwBreak, 0).value;
      ProgrammedSlots(s.tracee.regs, k, a);
      SlotMapProgrammed(s.tracee.regs, k, a);
      SaveProgrammed(s.tracee, k, a);
      SaveSome(Fresh(s).cache.(file := Programmed(s.tracee.regs, k, a)), s.tracee.regs, s.tracee.Transfers(save));
    }
  }

  /** So does a disable, except that a slot beyond the implemented ones has none to clear. */
  lemma DisableLands(s: State, slot: nat, load: nat, save: nat)
    requires s.pid != 0 && s.tracee.mode.Stopped?
    ensures var s' := DisableHw(s, slot, load, save).0;
            var hw := s.tracee.regs.hwBreak;
            var lands := Lands(Disable(slot, load, save));
            && s'.pid == s.pid && s'.tracee.mode == s.tracee.mode && s'.tracee.regs.hwBreak[0] == hw[0]
            && s'.tracee.regs == (if lands && slot < hw[0] then Cleared(s.tracee.regs, slot) else s.tracee.regs)
            && SlotMap(s'.tracee.regs.hwBreak) == (if lands then SlotMap(hw) - {slot} else SlotMap(hw))
  {
    if slot >= MAX_SLOTS {
      assert SlotMap(s.tracee.regs.hwBreak) - {slot} == SlotMap(s.tracee.regs.hwBreak);
    } else {
      DisableUnfolds(s, slot, load, save);
      SlotMapCleared(s.tracee.regs, slot);
      ClearedSome(s, slot, s.tracee.Transfers(save));
    }
  }

  lemma ClearedSome(s: State, slot: nat, n: nat)
    requires slot < MAX_SLOTS
    ensures SavedRegs(Fresh(s).cache.(file := Cleared(s.tracee.regs, slot)), s.tracee.regs, n)
            == if n >= 3 && slot < s.tracee.regs.hwBreak[0] then Cleared(s.tracee.regs, slot) else s.tracee.regs
    ensures Cleared(s.tracee.regs, slot).hwBreak[0] == s.tracee.regs.hwBreak[0]
  {
    ClearedSlots(s.tracee.regs, slot);
    ClearedWriteBack(s.tracee.regs, slot, DebugSize(s.tracee.regs.hwBreak));
    SaveSome(Fresh(s).cache.(file := Cleared(s.tracee.regs, slot)), s.tracee.regs, n);
  }
}
