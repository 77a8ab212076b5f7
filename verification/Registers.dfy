/** The register cache of the debugger (src/registers.cpp): the regset structures as byte buffers, the
    table of views into them, and access by handle. */
module RegisterAccess {
  import opened Bits
  import opened LittleEndian
  import opened Options
  import opened SubregisterViews
  import opened RegisterName
  import opened RegisterFile
  import opened Handles
  import T = Tracees

  /** A named window on one of the structures. */
  datatype RegisterView = RegisterView(name: string, data: array<byte>, offset: nat, size: nat, format: RegisterFormat)
  {
    predicate Valid()
    {
      offset + size <= data.Length
    }

    /** Reading as a type of `typeSize` bytes is an error unless that is the size of the register. The
        value is the one number of that size whose bytes the register holds. */
    method Get(typeSize: nat) returns (value: Option<nat>)
      requires Valid()
      ensures value.Some? <==> typeSize == size
      ensures value.Some? ==> FromNat(value.value, size) == data[offset..offset + size]
      ensures value.Some? ==> value.value < Pow2(8 * size)
    {
      if typeSize != size {
        return Option.None;
      }
      var bytes := data[offset..offset + size];
      FromNatToNat(bytes);
      ToNatBound(bytes);
      return Some(ToNat(bytes));
    }

    /** Writing clears the register and copies the bytes of the value over it. Copying from a type
        narrower than the register would read past the value. */
    method Set(value: nat, typeSize: nat) returns (outcome: Outcome)
      requires Valid() && size <= typeSize
      modifies data
      ensures outcome.Done? <==> typeSize == size
      ensures data[..] == if outcome.Done? then Splice(old(data[..]), offset, FromNat(value, size)) else old(data[..])
    {
      if typeSize > size {
        return Failed;
      }
      Memcpy(data, offset, seq(size, _ => 0));
      Memcpy(data, offset, FromNat(value, size));
      SpliceTwice(old(data[..]), offset, seq(size, _ => 0), FromNat(value, size));
      outcome := Done;
    }
  }

  /** What `Get` returns for bytes that `Set` wrote: the low bits of the value. */
  lemma GetAfterSet(written: nat, read: nat, size: nat)
    requires FromNat(read, size) == FromNat(written, size) && read < Pow2(8 * size)
    ensures read == Rem(written, 8 * size)
  {
    ToNatFromNat(read, size);
    ToNatFromNat(written, size);
    RemSmall(read, 8 * size);
  }

  /** A number is determined by its bytes. */
  lemma NumberOfBytes(read: nat, bytes: seq<byte>)
    requires FromNat(read, |bytes|) == bytes && read < Pow2(8 * |bytes|)
    ensures read == ToNat(bytes)
  {
    ToNatFromNat(read, |bytes|);
    RemSmall(read, 8 * |bytes|);
  }

  lemma SpliceTwice(dst: seq<byte>, at: nat, first: seq<byte>, second: seq<byte>)
    requires at + |first| <= |dst| && |second| == |first|
    ensures Splice(Splice(dst, at, first), at, second) == Splice(dst, at, second)
  {
  }

  /** The number of bytes of a debug regset with the slots its first word reports. */
  method CalcDebugSize(hw: seq<byte>) returns (n: nat)
    requires |hw| == HW_SIZE && hw[0] <= MAX_SLOTS
    ensures n == T.DebugSize(hw)
  {
    var info := ToNat(hw[..4]);
    Pow2Values();
    LowByte(hw[..4], 0, 0xff);
    var slots := And(info, 0xff);
    n := 8 + slots * 16;
  }

  lemma LowByte(bs: seq<byte>, n: nat, mask: nat)
    requires bs != [] && n == 0 && mask == Pow2(8 + n) - 1
    ensures And(ToNat(bs), mask) == bs[0]
  {
    MaskIsRem(ToNat(bs), 8 + n);
    FirstByte(bs, n);
  }

  lemma FirstByte(bs: seq<byte>, n: nat)
    requires bs != []
    ensures Rem(ToNat(bs), 8 + n) == bs[0] + 256 * Rem(ToNat(bs[1..]), n)
  {
    var x, rest := ToNat(bs), ToNat(bs[1..]);
    OneByte(x, n);
    LowByteOff(bs[0], rest);
  }

  class Registers {
    const gpr: array<byte>
    const fpr: array<byte>
    const hwBreak: array<byte>
    const hwWatch: array<byte>
    var breakDebugSize: nat
    var watchDebugSize: nat
    var views: seq<RegisterView>

    function Buffer(regset: RegSet): array<byte>
    {
      match regset
      case Gpr => gpr
      case Fpr => fpr
      case HwBreak => hwBreak
      case HwWatch => hwWatch
    }

    predicate Shaped()
    {
      && gpr.Length == GPR_SIZE && fpr.Length == FPR_SIZE && hwBreak.Length == HW_SIZE && hwWatch.Length == HW_SIZE
      && gpr != fpr && gpr != hwBreak && gpr != hwWatch && fpr != hwBreak && fpr != hwWatch && hwBreak != hwWatch
    }

    function ViewOf(i: nat): RegisterView
      requires i < TABLE_SIZE
    {
      var e := EntryAt(i);
      RegisterView(e.name, Buffer(e.place.regset), e.place.offset, e.place.size, e.format)
    }

    ghost predicate Valid()
      reads this, gpr, fpr, hwBreak, hwWatch
    {
      && Shaped()
      && hwBreak[0] <= MAX_SLOTS && hwWatch[0] <= MAX_SLOTS
      && breakDebugSize <= HW_SIZE && watchDebugSize <= HW_SIZE
      && |views| == TABLE_SIZE && forall i: nat | i < TABLE_SIZE :: views[i] == ViewOf(i)
    }

    ghost function File(): RegFile
      requires Valid()
      reads this, gpr, fpr, hwBreak, hwWatch
    {
      Regsets(gpr[..], fpr[..], hwBreak[..], hwWatch[..])
    }

    ghost function Contents(): T.Cache
      requires Valid()
      reads this, gpr, fpr, hwBreak, hwWatch
    {
      T.CacheData(File(), breakDebugSize, watchDebugSize)
    }

    constructor ()
      ensures Valid() && fresh(gpr) && fresh(fpr) && fresh(hwBreak) && fresh(hwWatch)
    {
      gpr := new byte[GPR_SIZE](_ => 0);
      fpr := new byte[FPR_SIZE](_ => 0);
      hwBreak := new byte[HW_SIZE](_ => 0);
      hwWatch := new byte[HW_SIZE](_ => 0);
      breakDebugSize, watchDebugSize := 0, 0;
      views := [];
      new;
      BuildViews();
    }

    /** The table, one view per register. */
    method BuildViews()
      modifies this`views
      ensures |views| == TABLE_SIZE && forall i: nat | i < TABLE_SIZE :: views[i] == ViewOf(i)
    {
      views := [];
      for k := 0 to TABLE_SIZE
        invariant |views| == k && forall i: nat | i < k :: views[i] == ViewOf(i)
      {
        views := views + [ViewOf(k)];
      }
    }

    // -------------------------------------------------------------------------
    // Load and save
    // -------------------------------------------------------------------------

    /** Fetches the four regsets in turn; the first refusal ends the load, and what was fetched stays. */
    method Load(tracee: T.Tracee, answers: nat) returns (ok: bool)
      requires Valid()
      modifies this`breakDebugSize, this`watchDebugSize, gpr, fpr, hwBreak, hwWatch
      ensures Valid() && Contents() == T.Loaded(old(Contents()), tracee.regs, tracee.Transfers(answers))
      ensures ok <==> tracee.Transfers(answers) == 4
    {
      var n := tracee.Transfers(answers);
      if n < 1 {
        return false;
      }
      Fetch(gpr, tracee.regs.gpr);
      if n < 2 {
        return false;
      }
      Fetch(fpr, tracee.regs.fpr);
      if n < 3 {
        return false;
      }
      Fetch(hwBreak, tracee.regs.hwBreak);
      breakDebugSize := CalcDebugSize(hwBreak[..]);
      if n < 4 {
        return false;
      }
      Fetch(hwWatch, tracee.regs.hwWatch);
      watchDebugSize := CalcDebugSize(hwWatch[..]);
      return true;
    }

    /** PTRACE_GETREGSET into one structure. */
    static method Fetch(buffer: array<byte>, from: seq<byte>)
      requires buffer.Length == |from|
      modifies buffer
      ensures buffer[..] == from
    {
      Memcpy(buffer, 0, from);
    }

    /** Writes the four regsets in turn, the debug ones only up to their implemented slots. */
    method Save(tracee: T.Tracee, answers: nat) returns (tracee': T.Tracee, ok: bool)
      requires Valid()
      ensures tracee' == tracee.(regs := T.SavedRegs(Contents(), tracee.regs, tracee.Transfers(answers)))
      ensures ok <==> tracee.Transfers(answers) == 4
    {
      var n := tracee.Transfers(answers);
      var regs := tracee.regs;
      if n >= 1 {
        regs := regs.(gpr := gpr[..]);
      }
      if n >= 2 {
        regs := regs.(fpr := fpr[..]);
      }
      if n >= 3 {
        regs := regs.(hwBreak := hwBreak[..breakDebugSize] + regs.hwBreak[breakDebugSize..]);
      }
      if n >= 4 {
        regs := regs.(hwWatch := hwWatch[..watchDebugSize] + regs.hwWatch[watchDebugSize..]);
      }
      return tracee.(regs := regs), n == 4;
    }

    // -------------------------------------------------------------------------
    // Subregister views
    // -------------------------------------------------------------------------

    /** The view of a subregister on this cache. */
    function SubviewOf(kind: Kind, n: nat, lane: nat, zeroUpper: bool): SubregisterView
      requires !kind.None?
    {
      match kind
      case Wn => MakeWn(n, gpr)
      case Sn => MakeSn(n, fpr, zeroUpper)
      case Dn => MakeDn(n, fpr, zeroUpper)
      case V4sLane => MakeVnLaneS(n, lane, fpr)
      case V2dLane => MakeVnLaneD(n, lane, fpr)
    }

    /** The view is that of the handle: it shows the bytes of the register the handle belongs to, reading
        it reads the handle, and a write of it that is put back at its place is a write of the handle. */
    ghost predicate ViewOfHandle(sv: SubregisterView, desc: Descriptor)
      requires Valid() && ValidHandle(Sub(desc))
      reads this, gpr, fpr, hwBreak, hwWatch
    {
      var p := HomePlace(Sub(desc));
      && sv.Valid() && 1 <= sv.shape.bitSize <= 64
      && sv.storage == Buffer(p.regset) && sv.start == p.offset && sv.parentBytes == p.size
      && sv.Parent() == Field(File(), p)
      && sv.shape.format == desc.format && sv.shape.bitSize == desc.bitSize
      && Shown(sv.Parent(), sv.shape) == ReadHandle(File(), Sub(desc))
      && forall v: u64 ::
           PutField(File(), p, WrittenBytes(sv.Parent(), v, sv.shape)) == WriteHandle(File(), Sub(desc), v)
    }

    lemma SubviewPlace(desc: Descriptor)
      requires Valid() && ValidHandle(Sub(desc))
      ensures var sv, p := SubviewOf(desc.kind, desc.n, desc.lane, true), HomePlace(Sub(desc));
              && sv.shape == ShapeOf(desc.kind, desc.lane, true) && sv.shape.bitOffset < 128
              && sv.storage == Buffer(p.regset) && sv.start == p.offset && sv.parentBytes == p.size
              && 1 <= sv.shape.bitSize <= 64
    {
    }

    lemma SubviewMeans(desc: Descriptor)
      requires Valid() && ValidHandle(Sub(desc))
      ensures ViewOfHandle(SubviewOf(desc.kind, desc.n, desc.lane, true), desc)
    {
      SubviewPlace(desc);
      forall v: u64
        ensures Rem(v, 64) == v
      {
        WordRem(v, 64);
      }
    }

    /** Only a descriptor without a kind has no view; a valid one gets the view of its handle. */
    method MakeSubview(desc: Descriptor) returns (sv: Option<SubregisterView>)
      requires Valid()
      ensures sv.None? <==> desc.kind.None?
      ensures ValidHandle(Sub(desc)) ==> ViewOfHandle(sv.value, desc)
      ensures !desc.kind.None? ==> sv.value.shape == ShapeOf(desc.kind, desc.lane, true)
    {
      if ValidHandle(Sub(desc)) {
        SubviewMeans(desc);
      }
      match desc.kind {
        case Wn => return Some(MakeWn(desc.n, gpr));
        case Sn => return Some(MakeSn(desc.n, fpr, true));
        case Dn => return Some(MakeDn(desc.n, fpr, true));
        case V4sLane => return Some(MakeVnLaneS(desc.n, desc.lane, fpr));
        case V2dLane => return Some(MakeVnLaneD(desc.n, desc.lane, fpr));
        case None => return Option.None;
      }
    }

    /** The view of a name. With standard write behaviour it is the view of the descriptor the name
        resolves to, and the format and size cached there are those of the view. */
    method MakeSubviewByName(name: string, zeroUpperFp: bool) returns (sv: Option<SubregisterView>)
      requires RunsFit(name)
      ensures sv.Some? <==> !Meaning(name).kind.None?
      ensures sv.Some? ==> var m := Meaning(name); sv.value == SubviewOf(m.kind, m.n, m.lane, zeroUpperFp)
      ensures sv.Some? && zeroUpperFp ==>
                && Resolved(name).Some? && Resolved(name).value.Sub?
                && var d := Resolved(name).value.desc;
                   && sv.value == SubviewOf(d.kind, d.n, d.lane, true)
                   && d.format == sv.value.shape.format && d.bitSize == sv.value.shape.bitSize
    {
      var spec := ParseSubregisterName(name);
      ResolutionIsSound(name);
      match spec.kind {
        case Wn => return Some(MakeWn(spec.n, gpr));
        case Sn => return Some(MakeSn(spec.n, fpr, zeroUpperFp));
        case Dn => return Some(MakeDn(spec.n, fpr, zeroUpperFp));
        case V4sLane => return Some(MakeVnLaneS(spec.n, spec.lane, fpr));
        case V2dLane => return Some(MakeVnLaneD(spec.n, spec.lane, fpr));
        case None => return Option.None;
      }
    }

    // -------------------------------------------------------------------------
    // Resolution
    // -------------------------------------------------------------------------

    /** The first register of the table with this name. */
    method FindIndex(name: string) returns (index: Option<nat>)
      requires Valid()
      ensures index.None? <==> !InTable(name)
      ensures index.Some? ==> index.value < TABLE_SIZE && EntryAt(index.value).name == name
    {
      for i := 0 to |views|
        invariant forall k: nat | k < i :: EntryAt(k).name != name
      {
        if views[i].name == name {
          return Some(i);
        }
      }
      return Option.None;
    }

    method Resolve(name: string) returns (h: Option<Handle>)
      requires Valid() && (InTable(name) || RunsFit(name))
      ensures h == Resolved(name)
    {
      var index := FindIndex(name);
      if index.Some? {
        ResolvedFull(index.value);
        return Some(Full(index.value));
      }
      var spec := ParseSubregisterName(name);
      if !spec.kind.None? {
        var sd := Descriptor(spec.kind, spec.n, spec.lane, U64, 0);
        var sv := MakeSubview(sd);
        if sv.Some? {
          sd := sd.(format := sv.value.shape.format, bitSize := sv.value.shape.bitSize);
        }
        return Some(Sub(sd));
      }
      return Option.None;
    }

    // -------------------------------------------------------------------------
    // Access by handle
    // -------------------------------------------------------------------------

    method GetFormat(h: Handle) returns (format: RegisterFormat)
      requires Valid() && ValidHandle(h)
      ensures format == FormatOf(h)
    {
      match h {
        case Full(index) => return views[index].format;
        case Sub(desc) => return desc.format;
      }
    }

    method GetBitSize(h: Handle) returns (size: nat)
      requires Valid() && ValidHandle(h)
      ensures size == BitSize(h)
    {
      match h {
        case Full(index) => return views[index].size * 8;
        case Sub(desc) => return desc.bitSize;
      }
    }

    method Read(h: Handle) returns (value: Option<nat>)
      requires Valid() && ValidHandle(h)
      ensures value == Some(ReadHandle(File(), h))
    {
      match h {
        case Full(index) =>
          EntryInFile(index);
          var rv := views[index];
          value := rv.Get(rv.size);
          NumberOfBytes(value.value, Field(File(), EntryAt(index).place));
        case Sub(desc) =>
          var sv := MakeSubview(desc);
          var bits := sv.value.ReadU64();
          value := Some(bits);
      }
    }

    /** Sizes of 1, 2, 4, 8 and 16 bytes are supported; every register of the table has one of them. */
    method SetRegister(index: nat, value: nat) returns (outcome: Outcome)
      requires Valid() && index < TABLE_SIZE
      modifies gpr, fpr, hwBreak, hwWatch
      ensures outcome.Done?
      ensures Valid() && File() == WriteHandle(old(File()), Full(index), value)
    {
      EntryInFile(index);
      var rv := views[index];
      outcome := rv.Set(value, rv.size);
      assert File() == PutField(old(File()), EntryAt(index).place, FromNat(value, rv.size));
    }

    method SetSubregister(desc: Descriptor, value: u64) returns (outcome: Outcome)
      requires Valid() && (desc.kind.None? || ValidHandle(Sub(desc)))
      modifies gpr, fpr, hwBreak, hwWatch
      ensures outcome.Failed? <==> desc.kind.None?
      ensures Valid()
      ensures File() == if desc.kind.None? then old(File()) else WriteHandle(old(File()), Sub(desc), value)
    {
      var sv := MakeSubview(desc);
      if sv.None? {
        return Failed;
      }
      outcome := sv.value.WriteU64(value);
      assert File() == PutField(old(File()), HomePlace(Sub(desc)),
                                WrittenBytes(old(sv.value.Parent()), value, sv.value.shape));
    }

    /** The unified write; a subregister gets the low 64 bits of the value. */
    method Write(h: Handle, value: nat)
      requires Valid() && ValidHandle(h)
      modifies gpr, fpr, hwBreak, hwWatch
      ensures Valid() && Contents() == old(Contents()).(file := WriteHandle(old(File()), h, value))
      ensures ReadHandle(File(), h) == Rem(value, BitSize(h))
    {
      WholeFileLaw(File(), h, value, HomePlace(h));
      match h {
        case Full(index) =>
          var _ := SetRegister(index, value);
        case Sub(desc) =>
          LowWord(value, 64);
          var _ := SetSubregister(desc, Rem(value, 64));
          RemRem(value, 64, 64);
      }
    }
  }

  lemma WordRem(v: u64, k: nat)
    requires k == 64
    ensures Rem(v, k) == v
  {
    Pow2Values();
    RemSmall(v, k);
  }

  lemma LowWord(v: nat, k: nat)
    requires k == 64
    ensures Rem(v, k) < 0x1_0000_0000_0000_0000
  {
    RemBound(v, k);
    Pow2Values();
  }
}
