/** The aliased registers as the debugger reaches them: any history of writes through any handles leaves
    every vN and every xN as rows of 32-bit cells say, and every handle reads what the cells say
    (src/registers.cpp:390-433, src/subregister_view.cpp:15-178). */
module Aliases {
  import opened Bits
  import opened LittleEndian
  import opened SubregisterViews
  import opened Cells
  import opened RegisterFile
  import opened Handles

  datatype HandleWrite = HandleWrite(handle: Handle, value: nat)

  predicate AllValid(ops: seq<HandleWrite>)
  {
    forall i :: 0 <= i < |ops| ==> ValidHandle(ops[i].handle)
  }

  function RunWrites(f: RegFile, ops: seq<HandleWrite>): RegFile
    requires AllValid(ops)
    decreases |ops|
  {
    if ops == [] then f else RunWrites(WriteHandle(f, ops[0].handle, ops[0].value), ops[1..])
  }

  /** The low 64 and 128 bits of a value. */
  function Low64(v: nat): u64
  {
    RemBound(v, 64);
    Pow2Values();
    Rem(v, 64)
  }

  function Low128(v: nat): u128
  {
    RemBound(v, 128);
    Pow2Values();
    Rem(v, 128)
  }

  // ---------------------------------------------------------------------------
  // Vector registers
  // ---------------------------------------------------------------------------

  predicate OfVector(h: Handle, n: nat)
  {
    ValidHandle(h) && n <= 31 && HomeIndex(h) == 34 + n
  }

  function VectorPlace(n: nat): (p: Place)
    requires n <= 31
    ensures InFile(p)
  {
    Place(Fpr, 16 * n, 16)
  }

  /** What a write through a handle of a vector register does to its cells. */
  function AsVectorWrite(w: HandleWrite, n: nat): (op: VectorWrite)
    requires OfVector(w.handle, n)
    ensures op.Valid()
  {
    match w.handle
    case Full(_) => FullV(Low128(w.value))
    case Sub(d) =>
      if d.kind.Sn? then ScalarS(Low64(w.value))
      else if d.kind.Dn? then ScalarD(Low64(w.value))
      else if d.kind.V4sLane? then LaneS(d.lane, Low64(w.value))
      else LaneD(d.lane, Low64(w.value))
  }

  /** The writes of a history that reach one vector register. */
  function VectorHistory(ops: seq<HandleWrite>, n: nat): (r: seq<VectorWrite>)
    requires AllValid(ops) && n <= 31
    ensures forall i :: 0 <= i < |r| ==> r[i].Valid()
    decreases |ops|
  {
    if ops == [] then []
    else if OfVector(ops[0].handle, n) then [AsVectorWrite(ops[0], n)] + VectorHistory(ops[1..], n)
    else VectorHistory(ops[1..], n)
  }

  lemma VectorWriteStep(f: RegFile, w: HandleWrite, n: nat)
    requires OfVector(w.handle, n)
    ensures Field(WriteHandle(f, w.handle, w.value), VectorPlace(n))
            == WriteVector(Field(f, VectorPlace(n)), AsVectorWrite(w, n))
  {
    var p := VectorPlace(n);
    assert HomePlace(w.handle) == p;
    match w.handle {
      case Full(_) =>
        FieldAfterPut(f, p, FromNat(w.value, 16), p);
        FromNatRemMore(w.value, 16, 128);
      case Sub(d) =>
        FieldAfterPut(f, p, WrittenBytes(Field(f, p), Rem(w.value, 64), ShapeOf(d.kind, d.lane, true)), p);
    }
  }

  lemma OtherWriteStep(f: RegFile, w: HandleWrite, i: nat)
    requires ValidHandle(w.handle) && i < TABLE_SIZE && HomeIndex(w.handle) != i
    ensures InFile(EntryAt(i).place)
    ensures Field(WriteHandle(f, w.handle, w.value), EntryAt(i).place) == Field(f, EntryAt(i).place)
  {
    EntryInFile(i);
    EntriesApart(HomeIndex(w.handle), i);
    HomeOfIndex(w.handle);
    WholeFileLaw(f, w.handle, w.value, EntryAt(i).place);
  }

  /** After any history of writes through handles, the bytes of vN agree with four cells that saw only
      the writes to vN and its aliases. */
  lemma {:induction false} HistoryRefinesCells(f: RegFile, ops: seq<HandleWrite>, n: nat)
    requires AllValid(ops) && n <= 31
    ensures CellsOf(Field(RunWrites(f, ops), VectorPlace(n)))
            == RunCells(CellsOf(Field(f, VectorPlace(n))), VectorHistory(ops, n))
    decreases |ops|
  {
    if ops != [] {
      HistoryRefinesCells(WriteHandle(f, ops[0].handle, ops[0].value), ops[1..], n);
      VectorWriteCells(f, ops[0], n);
      if OfVector(ops[0].handle, n) {
        RunCellsHead(CellsOf(Field(f, VectorPlace(n))), AsVectorWrite(ops[0], n), VectorHistory(ops[1..], n));
      }
    }
  }

  lemma RunCellsHead(c: seq<nat>, op: VectorWrite, rest: seq<VectorWrite>)
    requires |c| == 4 && op.Valid() && forall i :: 0 <= i < |rest| ==> rest[i].Valid()
    ensures RunCells(c, [op] + rest) == RunCells(WriteCells(c, op), rest)
  {
    assert ([op] + rest)[1..] == rest;
  }

  lemma VectorWriteCells(f: RegFile, w: HandleWrite, n: nat)
    requires ValidHandle(w.handle) && n <= 31
    ensures var before := CellsOf(Field(f, VectorPlace(n)));
            CellsOf(Field(WriteHandle(f, w.handle, w.value), VectorPlace(n)))
            == if OfVector(w.handle, n) then WriteCells(before, AsVectorWrite(w, n)) else before
  {
    if OfVector(w.handle, n) {
      VectorWriteStep(f, w, n);
      VectorStep(Field(f, VectorPlace(n)), AsVectorWrite(w, n));
    } else {
      OtherWriteStep(f, w, 34 + n);
    }
  }

  /** The value of a handle, read off the cells. */
  function CellsRead(c: seq<nat>, h: Handle, n: nat): nat
    requires |c| == 4 && OfVector(h, n)
  {
    match h
    case Full(_) => c[0] + 0x1_0000_0000 * c[1] + 0x1_0000_0000_0000_0000 * (c[2] + 0x1_0000_0000 * c[3])
    case Sub(d) =>
      if d.kind.Sn? then c[0]
      else if d.kind.Dn? then c[0] + 0x1_0000_0000 * c[1]
      else if d.kind.V4sLane? then c[d.lane]
      else c[2 * d.lane] + 0x1_0000_0000 * c[2 * d.lane + 1]
  }

  /** Every handle of vN reads, after any history, what the cells say. */
  lemma VectorHandleReads(f: RegFile, ops: seq<HandleWrite>, n: nat, h: Handle)
    requires AllValid(ops) && OfVector(h, n)
    ensures ReadHandle(RunWrites(f, ops), h)
            == CellsRead(RunCells(CellsOf(Field(f, VectorPlace(n))), VectorHistory(ops, n)), h, n)
  {
    HistoryRefinesCells(f, ops, n);
    VectorReads(RunWrites(f, ops), n, h);
  }

  lemma VectorReads(f: RegFile, n: nat, h: Handle)
    requires OfVector(h, n)
    ensures ReadHandle(f, h) == CellsRead(CellsOf(Field(f, VectorPlace(n))), h, n)
  {
    assert HomePlace(h) == VectorPlace(n);
    ViewsReadCells(Field(f, VectorPlace(n)));
  }

  // ---------------------------------------------------------------------------
  // General registers
  // ---------------------------------------------------------------------------

  predicate OfGeneral(h: Handle, n: nat)
  {
    ValidHandle(h) && n <= 30 && HomeIndex(h) == n
  }

  function GeneralPlace(n: nat): (p: Place)
    requires n <= 30
    ensures InFile(p)
  {
    Place(Gpr, 8 * n, 8)
  }

  function AsGeneralWrite(w: HandleWrite, n: nat): GeneralWrite
    requires OfGeneral(w.handle, n)
  {
    if w.handle.Full? then X(Low64(w.value)) else W(Low64(w.value))
  }

  function GeneralHistory(ops: seq<HandleWrite>, n: nat): seq<GeneralWrite>
    requires AllValid(ops) && n <= 30
    decreases |ops|
  {
    if ops == [] then []
    else if OfGeneral(ops[0].handle, n) then [AsGeneralWrite(ops[0], n)] + GeneralHistory(ops[1..], n)
    else GeneralHistory(ops[1..], n)
  }

  lemma GeneralWriteStep(f: RegFile, w: HandleWrite, n: nat)
    requires OfGeneral(w.handle, n)
    ensures Field(WriteHandle(f, w.handle, w.value), GeneralPlace(n))
            == WriteGeneral(Field(f, GeneralPlace(n)), AsGeneralWrite(w, n))
  {
    var p := GeneralPlace(n);
    assert HomePlace(w.handle) == p;
    match w.handle {
      case Full(_) =>
        FieldAfterPut(f, p, FromNat(w.value, 8), p);
        FromNatRemMore(w.value, 8, 64);
      case Sub(d) =>
        FieldAfterPut(f, p, WrittenBytes(Field(f, p), Rem(w.value, 64), ShapeOf(d.kind, d.lane, true)), p);
    }
  }

  /** The same for xN and wN, of two cells. */
  lemma {:induction false} HistoryRefinesHalves(f: RegFile, ops: seq<HandleWrite>, n: nat)
    requires AllValid(ops) && n <= 30
    ensures HalvesOf(Field(RunWrites(f, ops), GeneralPlace(n)))
            == RunHalves(HalvesOf(Field(f, GeneralPlace(n))), GeneralHistory(ops, n))
    decreases |ops|
  {
    if ops != [] {
      HistoryRefinesHalves(WriteHandle(f, ops[0].handle, ops[0].value), ops[1..], n);
      GeneralWriteCells(f, ops[0], n);
      if OfGeneral(ops[0].handle, n) {
        RunHalvesHead(HalvesOf(Field(f, GeneralPlace(n))), AsGeneralWrite(ops[0], n), GeneralHistory(ops[1..], n));
      }
    }
  }

  lemma RunHalvesHead(c: seq<nat>, op: GeneralWrite, rest: seq<GeneralWrite>)
    requires |c| == 2
    ensures RunHalves(c, [op] + rest) == RunHalves(WriteHalves(c, op), rest)
  {
    assert ([op] + rest)[1..] == rest;
  }

  lemma GeneralWriteCells(f: RegFile, w: HandleWrite, n: nat)
    requires ValidHandle(w.handle) && n <= 30
    ensures var before := HalvesOf(Field(f, GeneralPlace(n)));
            HalvesOf(Field(WriteHandle(f, w.handle, w.value), GeneralPlace(n)))
            == if OfGeneral(w.handle, n) then WriteHalves(before, AsGeneralWrite(w, n)) else before
  {
    if OfGeneral(w.handle, n) {
      GeneralWriteStep(f, w, n);
      GeneralStep(Field(f, GeneralPlace(n)), AsGeneralWrite(w, n));
    } else {
      OtherWriteStep(f, w, n);
    }
  }

  /** wN and xN read, after any history, what the cells say. */
  lemma GeneralHandleReads(f: RegFile, ops: seq<HandleWrite>, n: nat, h: Handle)
    requires AllValid(ops) && OfGeneral(h, n)
    ensures var c := RunHalves(HalvesOf(Field(f, GeneralPlace(n))), GeneralHistory(ops, n));
            ReadHandle(RunWrites(f, ops), h) == if h.Full? then c[0] + 0x1_0000_0000 * c[1] else c[0]
  {
    HistoryRefinesHalves(f, ops, n);
    assert HomePlace(h) == GeneralPlace(n);
    ViewsReadHalves(Field(RunWrites(f, ops), GeneralPlace(n)));
  }
}
