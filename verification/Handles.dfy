/** Register handles: what a name resolves to, and what reading and writing through it means for the
    whole register file (src/registers.cpp:197-255, 310-433). */
module Handles {
  import opened Bits
  import opened LittleEndian
  import opened Options
  import opened SubregisterViews
  import opened SlotLaws
  import opened RegisterName
  import opened RegisterFile

  /** A subregister with the format and size cached when its name was resolved. */
  datatype Descriptor = Descriptor(kind: Kind, n: nat, lane: nat, format: RegisterFormat, bitSize: nat)

  datatype Handle = Full(index: nat) | Sub(desc: Descriptor)

  /** The indices a view may carry, by kind. */
  predicate InRange(kind: Kind, n: nat, lane: nat)
  {
    match kind
    case None => false
    case Wn => n <= 30
    case Sn => n <= 31
    case Dn => n <= 31
    case V4sLane => n <= 31 && lane <= 3
    case V2dLane => n <= 31 && lane <= 1
  }

  /** The register a subregister is part of. */
  function ParentPlace(kind: Kind, n: nat): Place
  {
    if kind.Wn? then Place(Gpr, 8 * n, 8) else Place(Fpr, 16 * n, 16)
  }

  /** The index of that register in the table. */
  function ParentIndex(kind: Kind, n: nat): nat
  {
    if kind.Wn? then n else 34 + n
  }

  function ShapeOf(kind: Kind, lane: nat, zeroUpper: bool): Shape
    requires !kind.None?
  {
    match kind
    case Wn => WnShape()
    case Sn => SnShape(zeroUpper)
    case Dn => DnShape(zeroUpper)
    case V4sLane => LaneSShape(lane)
    case V2dLane => LaneDShape(lane)
  }

  /** A handle that names something: an index of the table, or a subregister in range whose cached
      format and size are those of its view. */
  predicate ValidHandle(h: Handle)
  {
    match h
    case Full(i) => i < TABLE_SIZE
    case Sub(d) =>
      && InRange(d.kind, d.n, d.lane)
      && d.format == ShapeOf(d.kind, d.lane, true).format
      && d.bitSize == ShapeOf(d.kind, d.lane, true).bitSize
  }

  // ---------------------------------------------------------------------------
  // Resolution
  // ---------------------------------------------------------------------------

  function DescriptorOf(spec: SubregisterSpec): Descriptor
    requires !spec.kind.None?
  {
    var shape := ShapeOf(spec.kind, spec.lane, true);
    Descriptor(spec.kind, spec.n, spec.lane, shape.format, shape.bitSize)
  }

  ghost predicate InTable(name: string)
  {
    exists i: nat :: i < TABLE_SIZE && EntryAt(i).name == name
  }

  /** What a name resolves to: a register of the table first, then a subregister. */
  ghost function Resolved(name: string): Option<Handle>
  {
    if InTable(name) then
      var i: nat :| i < TABLE_SIZE && EntryAt(i).name == name;
      Some(Full(i))
    else if Meaning(name).kind.None? then Option.None
    else Some(Sub(DescriptorOf(Meaning(name))))
  }

  lemma ResolvedFull(i: nat)
    requires i < TABLE_SIZE
    ensures Resolved(EntryAt(i).name) == Some(Full(i))
  {
    assert InTable(EntryAt(i).name);
    forall j: nat | j < TABLE_SIZE && EntryAt(j).name == EntryAt(i).name
      ensures j == i
    {
      NamesDistinct(i, j);
    }
  }

  lemma MeaningInRange(name: string)
    ensures var m := Meaning(name); !m.kind.None? ==> InRange(m.kind, m.n, m.lane)
  {
  }

  /** Whatever a name resolves to is valid; every subregister name resolves to its own view, for no
      register of the table shadows it. */
  lemma ResolutionIsSound(name: string)
    ensures Resolved(name).Some? ==> ValidHandle(Resolved(name).value)
    ensures !Meaning(name).kind.None? ==> Resolved(name) == Some(Sub(DescriptorOf(Meaning(name))))
  {
    MeaningInRange(name);
    if !Meaning(name).kind.None? {
      forall i: nat | i < TABLE_SIZE
        ensures EntryAt(i).name != name
      {
        TableShadowsNothing(i, Meaning(name));
      }
    }
  }

  // ---------------------------------------------------------------------------
  // Reading and writing
  // ---------------------------------------------------------------------------

  /** The bytes of the architectural register a handle belongs to. */
  function HomePlace(h: Handle): (p: Place)
    requires ValidHandle(h)
    ensures InFile(p)
  {
    match h
    case Full(i) => EntryAt(i).place
    case Sub(d) => ParentPlace(d.kind, d.n)
  }

  function FormatOf(h: Handle): RegisterFormat
    requires ValidHandle(h)
  {
    match h
    case Full(i) => EntryAt(i).format
    case Sub(d) => d.format
  }

  function BitSize(h: Handle): nat
    requires ValidHandle(h)
  {
    match h
    case Full(i) => 8 * EntryAt(i).place.size
    case Sub(d) => d.bitSize
  }

  /** The value a handle reads. */
  function ReadHandle(f: RegFile, h: Handle): nat
    requires ValidHandle(h)
  {
    var bs := Field(f, HomePlace(h));
    match h
    case Full(_) => ToNat(bs)
    case Sub(d) => Shown(bs, ShapeOf(d.kind, d.lane, true))
  }

  /** The register file after a write; a subregister takes the low 64 bits of the value. */
  function WriteHandle(f: RegFile, h: Handle, v: nat): RegFile
    requires ValidHandle(h)
  {
    var p := HomePlace(h);
    match h
    case Full(_) => PutField(f, p, FromNat(v, p.size))
    case Sub(d) => PutField(f, p, WrittenBytes(Field(f, p), Rem(v, 64), ShapeOf(d.kind, d.lane, true)))
  }

  /** Every view of the debugger fits its parent, and its policy does not cut its slot. */
  lemma ViewFits(kind: Kind, n: nat, lane: nat)
    requires InRange(kind, n, lane)
    ensures var shape := ShapeOf(kind, lane, true);
            Fits(shape, ParentPlace(kind, n).size) && KeepsSlot(shape)
  {
  }

  /** The whole-file law: reading back gives the low bits of the value, and every byte outside the
      named register keeps its value, the headers of the debug regsets among them. */
  lemma WholeFileLaw(f: RegFile, h: Handle, v: nat, other: Place)
    requires ValidHandle(h) && Inside(other)
    ensures ReadHandle(WriteHandle(f, h, v), h) == Rem(v, BitSize(h))
    ensures Apart(HomePlace(h), other) ==> Field(WriteHandle(f, h, v), other) == Field(f, other)
  {
    var p := HomePlace(h);
    match h {
      case Full(_) =>
        FieldAfterPut(f, p, FromNat(v, p.size), other);
        ToNatFromNat(v, p.size);
      case Sub(d) =>
        SubWriteLaw(Field(f, p), d, v);
        FieldAfterPut(f, p, WrittenBytes(Field(f, p), Rem(v, 64), ShapeOf(d.kind, d.lane, true)), other);
    }
  }

  lemma SubWriteLaw(bs: seq<byte>, d: Descriptor, v: nat)
    requires ValidHandle(Sub(d)) && |bs| == ParentPlace(d.kind, d.n).size
    ensures Shown(WrittenBytes(bs, Rem(v, 64), ShapeOf(d.kind, d.lane, true)), ShapeOf(d.kind, d.lane, true))
            == Rem(v, d.bitSize)
  {
    var shape := ShapeOf(d.kind, d.lane, true);
    ViewFits(d.kind, d.n, d.lane);
    ReadAfterWrite(bs, Rem(v, 64), shape);
    RemRem(v, 64, d.bitSize);
  }

  /** A write through a handle of one register is invisible through the handles of every other. */
  lemma OtherRegistersUntouched(f: RegFile, h: Handle, v: nat, g: Handle)
    requires ValidHandle(h) && ValidHandle(g) && HomeIndex(h) != HomeIndex(g)
    ensures ReadHandle(WriteHandle(f, h, v), g) == ReadHandle(f, g)
  {
    EntriesApart(HomeIndex(h), HomeIndex(g));
    HomeOfIndex(h);
    HomeOfIndex(g);
    WholeFileLaw(f, h, v, HomePlace(g));
  }

  /** The register a handle belongs to, as an index of the table. */
  function HomeIndex(h: Handle): (i: nat)
    requires ValidHandle(h)
    ensures i < TABLE_SIZE
  {
    match h
    case Full(i) => i
    case Sub(d) => ParentIndex(d.kind, d.n)
  }

  lemma HomeOfIndex(h: Handle)
    requires ValidHandle(h)
    ensures HomePlace(h) == EntryAt(HomeIndex(h)).place
  {
  }

  // ---------------------------------------------------------------------------
  // What the names read
  // ---------------------------------------------------------------------------

  /** The name is that of a whole register, which reads `size` bytes of a regset from `offset` on. */
  ghost predicate Names(f: RegFile, name: string, place: Place)
    requires Inside(place)
  {
    var h := Resolved(name);
    && h.Some? && h.value.Full? && ValidHandle(h.value)
    && BitSize(h.value) == 8 * place.size
    && ReadHandle(f, h.value) == ToNat(f.Get(place.regset)[place.offset..place.offset + place.size])
  }

  lemma EntryNames(f: RegFile, i: nat, name: string, place: Place)
    requires i < TABLE_SIZE && EntryAt(i).name == name && EntryAt(i).place == place && Inside(place)
    ensures Names(f, name, place)
  {
    ResolvedFull(i);
  }

  /** The layout of `user_pt_regs` and `user_fpsimd_state`, by name. */
  lemma CoreNames(f: RegFile, n: nat)
    requires n < 32
    ensures n < 31 ==> Names(f, "x" + Decimal(n), Place(Gpr, 8 * n, 8))
    ensures Names(f, "v" + Decimal(n), Place(Fpr, 16 * n, 16))
    ensures Names(f, "sp", Place(Gpr, 248, 8)) && Names(f, "pc", Place(Gpr, 256, 8))
    ensures Names(f, "pstate", Place(Gpr, 264, 8))
    ensures Names(f, "fpsr", Place(Fpr, 512, 4)) && Names(f, "fpcr", Place(Fpr, 516, 4))
  {
    if n < 31 {
      EntryNames(f, n, "x" + Decimal(n), Place(Gpr, 8 * n, 8));
    }
    EntryNames(f, 34 + n, "v" + Decimal(n), Place(Fpr, 16 * n, 16));
    EntryNames(f, 31, "sp", Place(Gpr, 248, 8));
    EntryNames(f, 32, "pc", Place(Gpr, 256, 8));
    EntryNames(f, 33, "pstate", Place(Gpr, 264, 8));
    EntryNames(f, 66, "fpsr", Place(Fpr, 512, 4));
    EntryNames(f, 67, "fpcr", Place(Fpr, 516, 4));
  }

  /** The layout of `user_hwdebug_state`. */
  lemma DebugNames(f: RegFile, k: nat)
    requires k < MAX_SLOTS
    ensures Names(f, "brk_addr" + Decimal(k), Place(HwBreak, 8 + 16 * k, 8))
    ensures Names(f, "brk_ctrl" + Decimal(k), Place(HwBreak, 16 + 16 * k, 4))
    ensures Names(f, "watch_addr" + Decimal(k), Place(HwWatch, 8 + 16 * k, 8))
    ensures Names(f, "watch_ctrl" + Decimal(k), Place(HwWatch, 16 + 16 * k, 4))
  {
    BreakAddrName(f, 68 + 2 * k, k);
    BreakCtrlName(f, 69 + 2 * k, k);
    WatchAddrName(f, 100 + 2 * k, k);
    WatchCtrlName(f, 101 + 2 * k, k);
  }

  lemma BreakAddrName(f: RegFile, i: nat, k: nat)
    requires k < MAX_SLOTS && i == 68 + 2 * k
    ensures Names(f, "brk_addr" + Decimal(k), Place(HwBreak, 8 + 16 * k, 8))
  {
    SlotNamed(f, i, 7, "brk_addr", k, Place(HwBreak, 8 + 16 * k, 8));
  }

  lemma BreakCtrlName(f: RegFile, i: nat, k: nat)
    requires k < MAX_SLOTS && i == 69 + 2 * k
    ensures Names(f, "brk_ctrl" + Decimal(k), Place(HwBreak, 16 + 16 * k, 4))
  {
    SlotNamed(f, i, 8, "brk_ctrl", k, Place(HwBreak, 16 + 16 * k, 4));
  }

  lemma WatchAddrName(f: RegFile, i: nat, k: nat)
    requires k < MAX_SLOTS && i == 100 + 2 * k
    ensures Names(f, "watch_addr" + Decimal(k), Place(HwWatch, 8 + 16 * k, 8))
  {
    SlotNamed(f, i, 9, "watch_addr", k, Place(HwWatch, 8 + 16 * k, 8));
  }

  lemma WatchCtrlName(f: RegFile, i: nat, k: nat)
    requires k < MAX_SLOTS && i == 101 + 2 * k
    ensures Names(f, "watch_ctrl" + Decimal(k), Place(HwWatch, 16 + 16 * k, 4))
  {
    SlotNamed(f, i, 10, "watch_ctrl", k, Place(HwWatch, 16 + 16 * k, 4));
  }

  lemma SlotNamed(f: RegFile, i: nat, family: nat, letters: string, k: nat, place: Place)
    requires 68 <= i < TABLE_SIZE && family == Family(i) && letters == Letters(family) && k == Number(i)
    requires var ctrl := family == 8 || family == 10;
             && k < MAX_SLOTS
             && place == Place(if i < 100 then HwBreak else HwWatch,
                               SlotOffset(k) + (if ctrl then 8 else 0), if ctrl then 4 else 8)
    ensures Names(f, letters + Decimal(k), place)
  {
    NameOfSlot(i);
    PlaceOfSlot(i);
    EntryNames(f, i, letters + Decimal(k), place);
  }

  lemma PlaceOfSlot(i: nat)
    requires 68 <= i < TABLE_SIZE
    ensures var ctrl := Family(i) == 8 || Family(i) == 10;
            EntryAt(i).place == Place(if i < 100 then HwBreak else HwWatch,
                                      SlotOffset(Number(i)) + (if ctrl then 8 else 0), if ctrl then 4 else 8)
  {
  }

  // ---------------------------------------------------------------------------
  // The program counter
  // ---------------------------------------------------------------------------

  const PC_PLACE := Place(Gpr, 256, 8)

  function Pc(f: RegFile): (pc: u64)
  {
    var bs := Field(f, PC_PLACE);
    ToNatBound(bs);
    Pow2Values();
    ToNat(bs)
  }

  function SetPc(f: RegFile, pc: u64): RegFile
  {
    PutField(f, PC_PLACE, FromNat(pc, 8))
  }

  lemma PcHandle(f: RegFile, v: u64)
    ensures Resolved("pc") == Some(Full(PC_INDEX))
    ensures ReadHandle(f, Full(PC_INDEX)) == Pc(f)
    ensures WriteHandle(f, Full(PC_INDEX), v) == SetPc(f, v)
  {
    ResolvedFull(PC_INDEX);
  }

  lemma PcAfterSet(f: RegFile, v: u64)
    ensures Pc(SetPc(f, v)) == v
    ensures v == Pc(f) ==> SetPc(f, v) == f
  {
    var bs := FromNat(v, 8);
    FieldAfterPut(f, PC_PLACE, bs, PC_PLACE);
    WordBack(v);
    if v == Pc(f) {
      FromNatToNat(Field(f, PC_PLACE));
      SpliceBack(f.gpr, 256, 8);
    }
  }

  /** Eight bytes hold a 64-bit word. */
  lemma WordBack(v: u64)
    ensures ToNat(FromNat(v, 8)) == v
  {
    ToNatFromNat(v, 8);
    Pow2Values();
    RemSmall(v, 64);
  }
}
