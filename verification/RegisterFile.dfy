/** The register file as bytes: the four regsets of a tracee, and the table of named registers
    (include/libcbg/detail/register.inc). */
module RegisterFile {
  import opened LittleEndian
  import opened SubregisterViews
  import opened RegisterName

  datatype RegSet = Gpr | Fpr | HwBreak | HwWatch

  const GPR_SIZE: nat := 272
  const FPR_SIZE: nat := 528
  const HW_SIZE: nat := 264
  const MAX_SLOTS: nat := 16

  function SizeOf(regset: RegSet): nat
  {
    match regset
    case Gpr => GPR_SIZE
    case Fpr => FPR_SIZE
    case HwBreak => HW_SIZE
    case HwWatch => HW_SIZE
  }

  datatype Regsets = Regsets(gpr: seq<byte>, fpr: seq<byte>, hwBreak: seq<byte>, hwWatch: seq<byte>)
  {
    function Get(regset: RegSet): seq<byte>
    {
      match regset
      case Gpr => gpr
      case Fpr => fpr
      case HwBreak => hwBreak
      case HwWatch => hwWatch
    }

    function Put(regset: RegSet, bs: seq<byte>): Regsets
    {
      match regset
      case Gpr => this.(gpr := bs)
      case Fpr => this.(fpr := bs)
      case HwBreak => this.(hwBreak := bs)
      case HwWatch => this.(hwWatch := bs)
    }
  }

  /** The sizes of the structures; the kernel reports at most 16 slots of either kind, in the low byte
      of the first word. */
  predicate WellFormed(f: Regsets)
  {
    && |f.gpr| == GPR_SIZE && |f.fpr| == FPR_SIZE && |f.hwBreak| == HW_SIZE && |f.hwWatch| == HW_SIZE
    && f.hwBreak[0] <= MAX_SLOTS && f.hwWatch[0] <= MAX_SLOTS
  }

  type RegFile = f: Regsets | WellFormed(f)
    witness Regsets(seq(272, _ => 0), seq(528, _ => 0), seq(264, _ => 0), seq(264, _ => 0))

  // ---------------------------------------------------------------------------
  // Fields
  // ---------------------------------------------------------------------------

  /** `size` bytes of a regset from `offset` on. */
  datatype Place = Place(regset: RegSet, offset: nat, size: nat)

  predicate Inside(p: Place)
  {
    p.offset + p.size <= SizeOf(p.regset)
  }

  /** A place that can be written: the header of a debug regset is not among them. */
  predicate InFile(p: Place)
  {
    Inside(p) && (p.regset.HwBreak? || p.regset.HwWatch? ==> p.offset >= 8)
  }

  function Field(f: RegFile, p: Place): (bs: seq<byte>)
    requires Inside(p)
    ensures |bs| == p.size
  {
    f.Get(p.regset)[p.offset..p.offset + p.size]
  }

  function PutField(f: RegFile, p: Place, bs: seq<byte>): (r: RegFile)
    requires InFile(p) && |bs| == p.size
    ensures r.Get(p.regset) == Splice(f.Get(p.regset), p.offset, bs)
    ensures forall other | other != p.regset :: r.Get(other) == f.Get(other)
  {
    f.Put(p.regset, Splice(f.Get(p.regset), p.offset, bs))
  }

  predicate Apart(p: Place, q: Place)
  {
    p.regset != q.regset || p.offset + p.size <= q.offset || q.offset + q.size <= p.offset
  }

  lemma FieldAfterPut(f: RegFile, p: Place, bs: seq<byte>, q: Place)
    requires InFile(p) && |bs| == p.size && Inside(q)
    ensures Field(PutField(f, p, bs), p) == bs
    ensures Apart(p, q) ==> Field(PutField(f, p, bs), q) == Field(f, q)
  {
    var before, after := f.Get(q.regset), PutField(f, p, bs).Get(q.regset);
    if Apart(p, q) {
      forall k | q.offset <= k < q.offset + q.size
        ensures after[k] == before[k]
      {
        if p.regset == q.regset {
          SpliceAt(before, p.offset, bs, k);
        }
      }
      assert after[q.offset..q.offset + q.size] == before[q.offset..q.offset + q.size];
    }
  }

  lemma SpliceAt(dst: seq<byte>, at: nat, src: seq<byte>, k: nat)
    requires at + |src| <= |dst| && k < |dst|
    ensures Splice(dst, at, src)[k] == if at <= k < at + |src| then src[k - at] else dst[k]
  {
  }

  // ---------------------------------------------------------------------------
  // Decimal names
  // ---------------------------------------------------------------------------

  const DIGITS := "0123456789"

  /** `std::to_string`. */
  function Decimal(n: nat): (s: string)
    ensures |s| >= 1 && Digits(s, 0, |s|)
  {
    if n < 10 then [DIGITS[n]] else Decimal(n / 10) + [DIGITS[n % 10]]
  }

  lemma {:induction false} DecimalVal(n: nat)
    ensures Val(Decimal(n), 0, |Decimal(n)|) == n
  {
    var s := Decimal(n);
    assert DIGITS[n % 10] - '0' == (n % 10) as char;
    if n >= 10 {
      var t := Decimal(n / 10);
      DecimalVal(n / 10);
      ValSame(t, s, 0, |t|);
    }
  }

  lemma DecimalInjective(m: nat, n: nat)
    ensures Decimal(m) == Decimal(n) ==> m == n
  {
    DecimalVal(m);
    DecimalVal(n);
  }

  // ---------------------------------------------------------------------------
  // The register table
  // ---------------------------------------------------------------------------

  datatype Entry = Entry(name: string, place: Place, format: RegisterFormat)

  const TABLE_SIZE: nat := 132
  const PC_INDEX: nat := 32

  /** Offset of slot `k` in a debug regset: address, control word, padding. */
  function SlotOffset(k: nat): nat
  {
    8 + 16 * k
  }

  type HwBytes = bs: seq<byte> | |bs| == HW_SIZE witness seq(264, _ => 0)

  /** Address and control word of a slot. */
  function SlotAddr(hw: HwBytes, k: nat): nat
    requires k < MAX_SLOTS
  {
    ToNat(hw[SlotOffset(k)..SlotOffset(k) + 8])
  }

  function SlotCtrl(hw: HwBytes, k: nat): nat
    requires k < MAX_SLOTS
  {
    ToNat(hw[SlotOffset(k) + 8..SlotOffset(k) + 12])
  }

  function EntryAt(i: nat): Entry
    requires i < TABLE_SIZE
  {
    if i < 31 then Entry("x" + Decimal(i), Place(Gpr, 8 * i, 8), U64)
    else if i == 31 then Entry("sp", Place(Gpr, 248, 8), U64)
    else if i == 32 then Entry("pc", Place(Gpr, 256, 8), U64)
    else if i == 33 then Entry("pstate", Place(Gpr, 264, 8), U64)
    else if i < 66 then Entry("v" + Decimal(i - 34), Place(Fpr, 16 * (i - 34), 16), Vec128)
    else if i == 66 then Entry("fpsr", Place(Fpr, 512, 4), U32)
    else if i == 67 then Entry("fpcr", Place(Fpr, 516, 4), U32)
    else
      var watch := i >= 100;
      var j := if watch then i - 100 else i - 68;
      var regset := if watch then HwWatch else HwBreak;
      if j % 2 == 0 then
        Entry((if watch then "watch_addr" else "brk_addr") + Decimal(j / 2), Place(regset, SlotOffset(j / 2), 8), U64)
      else
        Entry((if watch then "watch_ctrl" else "brk_ctrl") + Decimal(j / 2),
              Place(regset, SlotOffset(j / 2) + 8, 4), U32)
  }

  lemma EntryInFile(i: nat)
    requires i < TABLE_SIZE
    ensures InFile(EntryAt(i).place)
    ensures EntryAt(i).place.size == 4 || EntryAt(i).place.size == 8 || EntryAt(i).place.size == 16
  {
  }

  /** No two registers of the table share storage. */
  lemma EntriesApart(i: nat, j: nat)
    requires i < TABLE_SIZE && j < TABLE_SIZE && i != j
    ensures Apart(EntryAt(i).place, EntryAt(j).place)
  {
  }

  /** The eleven families of names: the letters, which hold no digit, and the number, if any. */
  function Family(i: nat): (f: nat)
    requires i < TABLE_SIZE
    ensures f < 11
  {
    if i < 31 then 0
    else if i < 34 then i - 30
    else if i < 66 then 4
    else if i < 68 then i - 61
    else if i < 100 then 7 + i % 2
    else 9 + i % 2
  }

  function Letters(f: nat): string
    requires f < 11
  {
    if f == 0 then "x"
    else if f == 1 then "sp"
    else if f == 2 then "pc"
    else if f == 3 then "pstate"
    else if f == 4 then "v"
    else if f == 5 then "fpsr"
    else if f == 6 then "fpcr"
    else if f == 7 then "brk_addr"
    else if f == 8 then "brk_ctrl"
    else if f == 9 then "watch_addr"
    else "watch_ctrl"
  }

  predicate Counted(f: nat)
  {
    f == 0 || f == 4 || f >= 7
  }

  function Number(i: nat): nat
    requires i < TABLE_SIZE
  {
    if i < 34 then i else if i < 68 then i - 34 else if i < 100 then (i - 68) / 2 else (i - 100) / 2
  }

  lemma NameOfEntry(i: nat)
    requires i < TABLE_SIZE
    ensures EntryAt(i).name == Letters(Family(i)) + (if Counted(Family(i)) then Decimal(Number(i)) else "")
  {
    if i < 68 {
      NameOfCore(i);
    } else {
      NameOfSlot(i);
    }
  }

  lemma NameOfCore(i: nat)
    requires i < 68
    ensures EntryAt(i).name == Letters(Family(i)) + (if Counted(Family(i)) then Decimal(Number(i)) else "")
  {
  }

  lemma NameOfSlot(i: nat)
    requires 68 <= i < TABLE_SIZE
    ensures EntryAt(i).name == Letters(Family(i)) + Decimal(Number(i)) && Counted(Family(i))
  {
  }

  lemma LettersHaveNoDigit(f: nat)
    requires f < 11
    ensures |Letters(f)| >= 1 && forall k | 0 <= k < |Letters(f)| :: !IsDigit(Letters(f)[k])
  {
  }

  lemma LettersDistinct(f: nat, g: nat)
    requires f < g < 11
    ensures Letters(f) != Letters(g)
  {
    assert |Letters(f)| == |Letters(g)| ==> var n := |Letters(f)|;
      var k := if n <= 2 then 0 else n / 2 + n / 10; Letters(f)[k] != Letters(g)[k];
  }

  lemma SameFamily(i: nat, j: nat)
    requires i < TABLE_SIZE && j < TABLE_SIZE && Family(i) == Family(j)
    requires Counted(Family(i)) ==> Number(i) == Number(j)
    ensures i == j
  {
  }

  /** Equal names have equal stems, for the first digit ends both. */
  lemma SplitName(a: string, s: string, b: string, t: string)
    requires a + s == b + t
    requires forall k | 0 <= k < |a| :: !IsDigit(a[k])
    requires forall k | 0 <= k < |b| :: !IsDigit(b[k])
    requires Digits(s, 0, |s|) && Digits(t, 0, |t|)
    ensures a == b && s == t
  {
    var c := a + s;
    assert forall k | 0 <= k < |a| :: !IsDigit(c[k]);
    assert forall k | 0 <= k < |b| :: c[k] == b[k];
    assert forall k | 0 <= k < |s| :: c[|a| + k] == s[k];
    assert forall k | 0 <= k < |t| :: c[|b| + k] == t[k];
    assert |s| > 0 ==> IsDigit(c[|a|]);
    assert |t| > 0 ==> IsDigit(c[|b|]);
    assert |a| == |b|;
    assert a == c[..|a|] == b;
    assert s == c[|a|..] == t;
  }

  lemma NamesDistinct(i: nat, j: nat)
    requires i < TABLE_SIZE && j < TABLE_SIZE && EntryAt(i).name == EntryAt(j).name
    ensures i == j
  {
    var f, g := Family(i), Family(j);
    NameOfEntry(i);
    NameOfEntry(j);
    LettersHaveNoDigit(f);
    LettersHaveNoDigit(g);
    SplitName(Letters(f), if Counted(f) then Decimal(Number(i)) else "",
              Letters(g), if Counted(g) then Decimal(Number(j)) else "");
    if f != g {
      LettersDistinct(if f < g then f else g, if f < g then g else f);
    }
    DecimalInjective(Number(i), Number(j));
    SameFamily(i, j);
  }

  /** Names that are no subregister names: the second character is no digit, the first is none of the
      four letters, or everything after a `v` is digits. */
  lemma NotInLanguage(name: string, spec: SubregisterSpec)
    requires |name| >= 2
    requires !IsDigit(name[1]) || name[0] !in "wsdv" || (name[0] == 'v' && Digits(name, 1, |name|))
    ensures !InLanguage(name, spec)
  {
    forall p: nat, q: nat
      ensures !Lane(name, p, q, spec.kind, spec.n, spec.lane)
    {
      if 1 < p < |name| && Digits(name, 1, |name|) {
        assert IsDigit(name[p]);
      }
    }
  }

  /** No register of the table hides a subregister name. */
  lemma TableShadowsNothing(i: nat, spec: SubregisterSpec)
    requires i < TABLE_SIZE
    ensures !InLanguage(EntryAt(i).name, spec)
  {
    var name, letters := EntryAt(i).name, Letters(Family(i));
    NameOfEntry(i);
    LettersHaveNoDigit(Family(i));
    assert name[0] == letters[0];
    assert |letters| >= 2 ==> name[1] == letters[1];
    if |letters| == 1 {
      var d := Decimal(Number(i));
      assert forall k | 1 <= k < |name| :: name[k] == d[k - 1];
    }
    NotInLanguage(name, spec);
  }

  // ---------------------------------------------------------------------------
  // What the table covers
  // ---------------------------------------------------------------------------

  /** The bytes of the structures that belong to a register: all but the tail of the floating-point one, the
      headers of the debug ones, and the padding after each control word. */
  predicate Named(regset: RegSet, o: nat)
  {
    match regset
    case Gpr => o < 272
    case Fpr => o < 520
    case _ => 8 <= o < 264 && (o - 8) % 16 < 12
  }

  predicate Holds(i: nat, regset: RegSet, o: nat)
    requires i < TABLE_SIZE
  {
    var p := EntryAt(i).place;
    p.regset == regset && p.offset <= o < p.offset + p.size
  }

  /** With `EntriesApart`: the registers tile exactly those bytes. */
  lemma TableCovers(regset: RegSet, o: nat)
    ensures (exists i: nat :: i < TABLE_SIZE && Holds(i, regset, o)) <==> Named(regset, o)
  {
    if Named(regset, o) {
      OwnerHolds(regset, o);
    }
    forall i: nat | i < TABLE_SIZE && Holds(i, regset, o)
      ensures Named(regset, o)
    {
      HoldsNamed(i, regset, o);
    }
  }

  /** The register a byte belongs to. */
  function Owner(regset: RegSet, o: nat): (i: nat)
    requires Named(regset, o)
    ensures i < TABLE_SIZE
  {
    match regset
    case Gpr => o / 8
    case Fpr => if o < 512 then 34 + o / 16 else if o < 516 then 66 else 67
    case _ => (if regset.HwBreak? then 68 else 100) + 2 * ((o - 8) / 16) + (if (o - 8) % 16 < 8 then 0 else 1)
  }

  lemma OwnerHolds(regset: RegSet, o: nat)
    requires Named(regset, o)
    ensures Holds(Owner(regset, o), regset, o)
  {
    if regset.Gpr? || regset.Fpr? {
      CoreOwner(regset, o, Owner(regset, o));
    } else {
      SlotHolds((o - 8) / 16, if (o - 8) % 16 < 8 then 0 else 1, regset, o);
    }
  }

  lemma CoreOwner(regset: RegSet, o: nat, i: nat)
    requires regset.Gpr? || regset.Fpr?
    requires Named(regset, o) && i == Owner(regset, o)
    ensures Holds(i, regset, o)
  {
  }

  /** The registers of slot `k` hold its first eight bytes and the next four. */
  lemma SlotHolds(k: nat, part: nat, regset: RegSet, o: nat)
    requires k < 16 && part < 2 && (regset.HwBreak? || regset.HwWatch?)
    ensures Holds((if regset.HwBreak? then 68 else 100) + 2 * k + part, regset, o)
            <==> if part == 0 then SlotOffset(k) <= o < SlotOffset(k) + 8
                 else SlotOffset(k) + 8 <= o < SlotOffset(k) + 12
  {
    assert (2 * k + part) / 2 == k && (2 * k + part) % 2 == part;
  }

  lemma HoldsNamed(i: nat, regset: RegSet, o: nat)
    requires i < TABLE_SIZE && Holds(i, regset, o)
    ensures Named(regset, o)
  {
    if i >= 68 {
      var j := if i >= 100 then i - 100 else i - 68;
      SlotHolds(j / 2, j % 2, regset, o);
      assert (o - 8) / 16 == j / 2;
    } else {
      CoreNamed(i, regset, o);
    }
  }

  lemma CoreNamed(i: nat, regset: RegSet, o: nat)
    requires i < 68 && Holds(i, regset, o)
    ensures Named(regset, o)
  {
  }

  /** The number of bytes a format stands for. */
  function FormatSize(format: RegisterFormat): nat
  {
    match format
    case U8 => 1
    case U16 => 2
    case U32 => 4
    case U64 => 8
    case F32 => 4
    case F64 => 8
    case Vec128 => 16
  }

  /** Every register has an integer or vector format of its own size. */
  lemma TableFormats(i: nat)
    requires i < TABLE_SIZE
    ensures var e := EntryAt(i);
            FormatSize(e.format) == e.place.size && !e.format.F32? && !e.format.F64?
  {
  }

  // ---------------------------------------------------------------------------
  // Numbers inside a text
  // ---------------------------------------------------------------------------

  /** `s` stands in the text from `p` on. */
  predicate Part(s: string, text: string, p: nat)
  {
    p + |s| <= |text| && forall k | 0 <= k < |s| :: text[p + k] == s[k]
  }

  lemma {:induction false} PartVal(text: string, s: string, p: nat, j: nat)
    requires Part(s, text, p) && j <= |s|
    ensures Digits(text, p, p + j) <==> Digits(s, 0, j)
    ensures Digits(s, 0, j) ==> Val(text, p, p + j) == Val(s, 0, j)
    decreases j
  {
    if j > 0 {
      PartVal(text, s, p, j - 1);
      assert text[p + (j - 1)] == s[j - 1];
    }
  }

  lemma PartNumber(text: string, p: nat, n: nat)
    requires Part(Decimal(n), text, p)
    ensures var e := p + |Decimal(n)|;
            p < e && Digits(text, p, e) && Val(text, p, e) == n
  {
    var s := Decimal(n);
    DecimalVal(n);
    PartVal(text, s, p, |s|);
  }
}
