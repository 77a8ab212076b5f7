/** The aliased views wN/xN and sN/dN/vN.4s[k]/vN.2d[k]/vN refine registers made of 32-bit cells. */
module Cells {
  import opened Bits
  import opened LittleEndian
  import opened SubregisterViews
  import opened SlotLaws

  type u128 = x: int | 0 <= x < 0x1_0000_0000_0000_0000_0000_0000_0000_0000

  // ---------------------------------------------------------------------------
  // The abstract machine: a register is a row of cells
  // ---------------------------------------------------------------------------

  /** 32-bit cell `j` of a value. */
  function Cell(v: nat, j: nat): nat
  {
    Slot(v, 32 * j, 32)
  }

  datatype VectorWrite =
    | ScalarS(v: u64)
    | ScalarD(v: u64)
    | LaneS(lane: nat, v: u64)
    | LaneD(lane: nat, v: u64)
    | FullV(w: u128)
  {
    predicate Valid()
    {
      (LaneS? ==> lane < 4) && (LaneD? ==> lane < 2)
    }
  }

  /** Scalar writes clear the higher cells, lane writes change only their own. */
  function WriteCells(c: seq<nat>, op: VectorWrite): (r: seq<nat>)
    requires |c| == 4 && op.Valid()
    ensures |r| == 4
  {
    match op
    case ScalarS(v) => [Cell(v, 0), 0, 0, 0]
    case ScalarD(v) => [Cell(v, 0), Cell(v, 1), 0, 0]
    case LaneS(k, v) => c[k := Cell(v, 0)]
    case LaneD(k, v) => c[2 * k := Cell(v, 0)][2 * k + 1 := Cell(v, 1)]
    case FullV(w) => [Cell(w, 0), Cell(w, 1), Cell(w, 2), Cell(w, 3)]
  }

  datatype GeneralWrite = W(v: u64) | X(v: u64)

  /** Writing wN clears the upper half of xN. */
  function WriteHalves(c: seq<nat>, op: GeneralWrite): (r: seq<nat>)
    requires |c| == 2
    ensures |r| == 2
  {
    match op
    case W(v) => [Cell(v, 0), 0]
    case X(v) => [Cell(v, 0), Cell(v, 1)]
  }

  function RunCells(c: seq<nat>, ops: seq<VectorWrite>): (r: seq<nat>)
    requires |c| == 4 && forall i :: 0 <= i < |ops| ==> ops[i].Valid()
    ensures |r| == 4
    decreases |ops|
  {
    if ops == [] then c else RunCells(WriteCells(c, ops[0]), ops[1..])
  }

  function RunHalves(c: seq<nat>, ops: seq<GeneralWrite>): (r: seq<nat>)
    requires |c| == 2
    ensures |r| == 2
    decreases |ops|
  {
    if ops == [] then c else RunHalves(WriteHalves(c, ops[0]), ops[1..])
  }

  // ---------------------------------------------------------------------------
  // The concrete machine: the bytes of a register, written through views
  // ---------------------------------------------------------------------------

  function WriteVector(bs: seq<byte>, op: VectorWrite): (r: seq<byte>)
    requires |bs| == 16
    ensures |r| == 16
  {
    match op
    case ScalarS(v) => WrittenBytes(bs, v, SnShape(true))
    case ScalarD(v) => WrittenBytes(bs, v, DnShape(true))
    case LaneS(k, v) => WrittenBytes(bs, v, LaneSShape(k))
    case LaneD(k, v) => WrittenBytes(bs, v, LaneDShape(k))
    case FullV(w) => FromNat(w, 16)
  }

  function WriteGeneral(bs: seq<byte>, op: GeneralWrite): (r: seq<byte>)
    requires |bs| == 8
    ensures |r| == 8
  {
    match op
    case W(v) => WrittenBytes(bs, v, WnShape())
    case X(v) => FromNat(v, 8)
  }

  function RunVector(bs: seq<byte>, ops: seq<VectorWrite>): (r: seq<byte>)
    requires |bs| == 16
    ensures |r| == 16
    decreases |ops|
  {
    if ops == [] then bs else RunVector(WriteVector(bs, ops[0]), ops[1..])
  }

  function RunGeneral(bs: seq<byte>, ops: seq<GeneralWrite>): (r: seq<byte>)
    requires |bs| == 8
    ensures |r| == 8
    decreases |ops|
  {
    if ops == [] then bs else RunGeneral(WriteGeneral(bs, ops[0]), ops[1..])
  }

  // ---------------------------------------------------------------------------
  // The abstraction: every four bytes are a cell
  // ---------------------------------------------------------------------------

  function CellsOf(bs: seq<byte>): (c: seq<nat>)
    requires |bs| == 16
    ensures |c| == 4
  {
    [ToNat(bs[0..4]), ToNat(bs[4..8]), ToNat(bs[8..12]), ToNat(bs[12..16])]
  }

  function HalvesOf(bs: seq<byte>): (c: seq<nat>)
    requires |bs| == 8
    ensures |c| == 2
  {
    [ToNat(bs[0..4]), ToNat(bs[4..8])]
  }

  lemma CellsAreSlots(bs: seq<byte>)
    ensures |bs| == 16 ==> forall j :: 0 <= j < 4 ==> CellsOf(bs)[j] == Cell(ToNat(bs), j)
    ensures |bs| == 8 ==> forall j :: 0 <= j < 2 ==> HalvesOf(bs)[j] == Cell(ToNat(bs), j)
  {
    if |bs| >= 8 {
      SliceIsSlot(bs, 0, 4);
      SliceIsSlot(bs, 4, 4);
    }
    if |bs| >= 16 {
      SliceIsSlot(bs, 8, 4);
      SliceIsSlot(bs, 12, 4);
    }
  }

  // ---------------------------------------------------------------------------
  // One write of `m` cells from cell `k` on
  // ---------------------------------------------------------------------------

  /** The shape covers `m` cells from cell `k` on, and a zeroing policy keeps exactly those. */
  predicate Covers(shape: Shape, k: nat, m: nat)
  {
    && shape.bitOffset == 32 * k && shape.bitSize == 32 * m
    && (shape.policy.PreserveParentBits? || (k == 0 && Kept(shape) == 32 * m))
  }

  lemma RegionCell(x: nat, v: nat, shape: Shape, k: nat, m: nat, j: nat)
    requires Covers(shape, k, m)
    ensures Cell(Written(x, v, shape), j) ==
            if k <= j < k + m then Cell(v, j - k)
            else if shape.policy.PreserveParentBits? then Cell(x, j) else 0
  {
    var o, s := shape.bitOffset, shape.bitSize;
    var y := Insert(x, v, o, s);
    if k <= j < k + m {
      SlotInside(x, v, o, s, 32 * j, 32);
      if !shape.policy.PreserveParentBits? {
        SlotKept(y, s, 32 * j, 32);
      }
    } else {
      SlotOutside(x, v, o, s, 32 * j, 32);
      if !shape.policy.PreserveParentBits? {
        SlotDropped(y, s, 32 * j, 32);
      }
    }
  }

  lemma RegionCells(bs: seq<byte>, v: nat, shape: Shape, k: nat, m: nat)
    requires Fits(shape, |bs|) && Covers(shape, k, m)
    ensures forall j: nat :: Cell(ToNat(WrittenBytes(bs, v, shape)), j) ==
                             if k <= j < k + m then Cell(v, j - k)
                             else if shape.policy.PreserveParentBits? then Cell(ToNat(bs), j) else 0
  {
    WrittenNumber(bs, v, shape);
    forall j: nat
      ensures Cell(Written(ToNat(bs), v, shape), j) ==
              if k <= j < k + m then Cell(v, j - k)
              else if shape.policy.PreserveParentBits? then Cell(ToNat(bs), j) else 0
    {
      RegionCell(ToNat(bs), v, shape, k, m, j);
    }
  }

  lemma FullCells(v: nat, n: nat, j: nat)
    requires 4 * (j + 1) <= n
    ensures Cell(ToNat(FromNat(v, n)), j) == Cell(v, j)
  {
    ToNatFromNat(v, n);
    SlotKept(v, 8 * n, 32 * j, 32);
  }

  // ---------------------------------------------------------------------------
  // Refinement
  // ---------------------------------------------------------------------------

  lemma ScalarStep(bs: seq<byte>, v: u64)
    requires |bs| == 16
    ensures CellsOf(WrittenBytes(bs, v, SnShape(true))) == [Cell(v, 0), 0, 0, 0]
    ensures CellsOf(WrittenBytes(bs, v, DnShape(true))) == [Cell(v, 0), Cell(v, 1), 0, 0]
  {
    RegionCells(bs, v, SnShape(true), 0, 1);
    CellsAreSlots(WrittenBytes(bs, v, SnShape(true)));
    RegionCells(bs, v, DnShape(true), 0, 2);
    CellsAreSlots(WrittenBytes(bs, v, DnShape(true)));
  }

  /** Without zeroing, the scalar views of vN change only their own cells; they read the same. */
  lemma PreservingScalars(bs: seq<byte>, v: u64)
    requires |bs| == 16
    ensures CellsOf(WrittenBytes(bs, v, SnShape(false))) == CellsOf(bs)[0 := Cell(v, 0)]
    ensures CellsOf(WrittenBytes(bs, v, DnShape(false))) == CellsOf(bs)[0 := Cell(v, 0)][1 := Cell(v, 1)]
    ensures Shown(bs, SnShape(false)) == Shown(bs, SnShape(true))
    ensures Shown(bs, DnShape(false)) == Shown(bs, DnShape(true))
  {
    PreservedS(bs, v);
    PreservedD(bs, v);
  }

  lemma PreservedS(bs: seq<byte>, v: u64)
    requires |bs| == 16
    ensures CellsOf(WrittenBytes(bs, v, SnShape(false))) == CellsOf(bs)[0 := Cell(v, 0)]
  {
    CellsAreSlots(bs);
    CellsAreSlots(WrittenBytes(bs, v, SnShape(false)));
    RegionCells(bs, v, SnShape(false), 0, 1);
  }

  lemma PreservedD(bs: seq<byte>, v: u64)
    requires |bs| == 16
    ensures CellsOf(WrittenBytes(bs, v, DnShape(false))) == CellsOf(bs)[0 := Cell(v, 0)][1 := Cell(v, 1)]
  {
    CellsAreSlots(bs);
    CellsAreSlots(WrittenBytes(bs, v, DnShape(false)));
    RegionCells(bs, v, DnShape(false), 0, 2);
  }

  lemma LaneSStep(bs: seq<byte>, k: nat, v: u64)
    requires |bs| == 16 && k < 4
    ensures CellsOf(WrittenBytes(bs, v, LaneSShape(k))) == CellsOf(bs)[k := Cell(v, 0)]
  {
    CellsAreSlots(bs);
    CellsAreSlots(WrittenBytes(bs, v, LaneSShape(k)));
    RegionCells(bs, v, LaneSShape(k), k, 1);
  }

  lemma LaneDStep(bs: seq<byte>, k: nat, v: u64)
    requires |bs| == 16 && k < 2
    ensures CellsOf(WrittenBytes(bs, v, LaneDShape(k))) == CellsOf(bs)[2 * k := Cell(v, 0)][2 * k + 1 := Cell(v, 1)]
  {
    CellsAreSlots(bs);
    CellsAreSlots(WrittenBytes(bs, v, LaneDShape(k)));
    RegionCells(bs, v, LaneDShape(k), 2 * k, 2);
  }

  lemma FullStep(v: nat)
    ensures CellsOf(FromNat(v, 16)) == [Cell(v, 0), Cell(v, 1), Cell(v, 2), Cell(v, 3)]
  {
    CellsAreSlots(FromNat(v, 16));
    FullCells(v, 16, 0);
    FullCells(v, 16, 1);
    FullCells(v, 16, 2);
    FullCells(v, 16, 3);
  }

  /** One write through a view of vN is one write to the cells. */
  lemma VectorStep(bs: seq<byte>, op: VectorWrite)
    requires |bs| == 16 && op.Valid()
    ensures CellsOf(WriteVector(bs, op)) == WriteCells(CellsOf(bs), op)
  {
    match op {
      case ScalarS(v) => ScalarStep(bs, v);
      case ScalarD(v) => ScalarStep(bs, v);
      case LaneS(k, v) => LaneSStep(bs, k, v);
      case LaneD(k, v) => LaneDStep(bs, k, v);
      case FullV(w) => FullStep(w);
    }
  }

  lemma GeneralStep(bs: seq<byte>, op: GeneralWrite)
    requires |bs| == 8
    ensures HalvesOf(WriteGeneral(bs, op)) == WriteHalves(HalvesOf(bs), op)
  {
    CellsAreSlots(bs);
    CellsAreSlots(WriteGeneral(bs, op));
    match op {
      case W(v) => RegionCells(bs, v, WnShape(), 0, 1);
      case X(v) =>
        FullCells(v, 8, 0);
        FullCells(v, 8, 1);
    }
  }

  /** Any history of mixed writes: the bytes agree with the cells. */
  lemma {:induction false} VectorRefinesCells(bs: seq<byte>, ops: seq<VectorWrite>)
    requires |bs| == 16 && forall i :: 0 <= i < |ops| ==> ops[i].Valid()
    ensures CellsOf(RunVector(bs, ops)) == RunCells(CellsOf(bs), ops)
    decreases |ops|
  {
    if ops != [] {
      VectorStep(bs, ops[0]);
      VectorRefinesCells(WriteVector(bs, ops[0]), ops[1..]);
    }
  }

  lemma {:induction false} GeneralRefinesHalves(bs: seq<byte>, ops: seq<GeneralWrite>)
    requires |bs| == 8
    ensures HalvesOf(RunGeneral(bs, ops)) == RunHalves(HalvesOf(bs), ops)
    decreases |ops|
  {
    if ops != [] {
      GeneralStep(bs, ops[0]);
      GeneralRefinesHalves(WriteGeneral(bs, ops[0]), ops[1..]);
    }
  }

  // ---------------------------------------------------------------------------
  // Reads
  // ---------------------------------------------------------------------------

  /** A slot of two cells is the lower one plus the upper one shifted. */
  lemma TwoCells(x: nat, o: nat, b: nat)
    ensures Slot(x, o, b + b) == Slot(x, o, b) + Times(Slot(x, o + b, b), b)
  {
    Stages(x, o, b);
    Stages(Quot(x, o), b, b);
  }

  /** Every view of vN reads what the cells say. */
  lemma ViewsReadCells(bs: seq<byte>)
    requires |bs| == 16
    ensures var c := CellsOf(bs);
            && Shown(bs, SnShape(true)) == c[0]
            && Shown(bs, DnShape(true)) == c[0] + 0x1_0000_0000 * c[1]
            && (forall k :: 0 <= k < 4 ==> Shown(bs, LaneSShape(k)) == c[k])
            && (forall k :: 0 <= k < 2 ==>
                  Shown(bs, LaneDShape(k)) == c[2 * k] + 0x1_0000_0000 * c[2 * k + 1])
            && ToNat(bs) == c[0] + 0x1_0000_0000 * c[1] + 0x1_0000_0000_0000_0000 * (c[2] + 0x1_0000_0000 * c[3])
  {
    SingleViews(bs);
    DoubleViews(bs, 0);
    DoubleViews(bs, 1);
    WholeVector(bs);
  }

  lemma SingleViews(bs: seq<byte>)
    requires |bs| == 16
    ensures Shown(bs, SnShape(true)) == CellsOf(bs)[0]
    ensures forall k :: 0 <= k < 4 ==> Shown(bs, LaneSShape(k)) == CellsOf(bs)[k]
  {
    CellsAreSlots(bs);
    assert bs[..Reach(bs)] == bs;
  }

  lemma DoubleViews(bs: seq<byte>, k: nat)
    requires |bs| == 16 && k < 2
    ensures Slot(ToNat(bs), 64 * k, 64) == CellsOf(bs)[2 * k] + 0x1_0000_0000 * CellsOf(bs)[2 * k + 1]
    ensures Shown(bs, LaneDShape(k)) == Slot(ToNat(bs), 64 * k, 64)
    ensures k == 0 ==> Shown(bs, DnShape(true)) == Slot(ToNat(bs), 64 * k, 64)
  {
    CellsAreSlots(bs);
    assert bs[..Reach(bs)] == bs;
    DoubleCell(ToNat(bs), 64 * k, 32);
  }

  lemma DoubleCell(x: nat, o: nat, b: nat)
    requires b == 32
    ensures Slot(x, o, 64) == Slot(x, o, b) + 0x1_0000_0000 * Slot(x, o + b, b)
  {
    TwoCells(x, o, b);
    TimesIsMul(Slot(x, o + b, b), b);
    Pow2Values();
  }

  lemma WholeVector(bs: seq<byte>)
    requires |bs| == 16
    ensures ToNat(bs) == Slot(ToNat(bs), 0, 64) + 0x1_0000_0000_0000_0000 * Slot(ToNat(bs), 64, 64)
  {
    var lo, hi := bs[0..8], bs[8..16];
    SliceIsSlot(bs, 0, 8);
    SliceIsSlot(bs, 8, 8);
    assert bs == lo + hi;
    TwoWords(lo, hi);
  }

  lemma TwoWords(lo: seq<byte>, hi: seq<byte>)
    requires |lo| == 8
    ensures ToNat(lo + hi) == ToNat(lo) + 0x1_0000_0000_0000_0000 * ToNat(hi)
  {
    ToNatConcat(lo, hi);
    TimesConst(ToNat(hi));
  }

  lemma TimesConst(x: nat)
    ensures Times(x, 64) == 0x1_0000_0000_0000_0000 * x && Times(x, 32) == 0x1_0000_0000 * x
  {
    TimesIsMul(x, 64);
    TimesIsMul(x, 32);
    Pow2Values();
  }

  lemma ViewsReadHalves(bs: seq<byte>)
    requires |bs| == 8
    ensures var c := HalvesOf(bs);
            && Shown(bs, WnShape()) == c[0]
            && ToNat(bs) == c[0] + 0x1_0000_0000 * c[1]
  {
    CellsAreSlots(bs);
    assert bs[..Reach(bs)] == bs;
    ToNatConcat(bs[0..4], bs[4..8]);
    assert bs == bs[0..4] + bs[4..8];
    TimesConst(ToNat(bs[4..8]));
  }
}
