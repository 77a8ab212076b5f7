/** Non-owning views of a few bits of a register (src/subregister_view.cpp). */
module SubregisterViews {
  import opened Bits
  import opened LittleEndian

  datatype RegisterFormat = U8 | U16 | U32 | U64 | F32 | F64 | Vec128

  datatype WritePolicy = ZeroExtend32To64 | PreserveParentBits | ZeroUpperVector128

  // ---------------------------------------------------------------------------
  // What a view means: bits [offset, offset + size) of the parent's number
  // ---------------------------------------------------------------------------

  /** The shape of a view, without the storage it points to. */
  datatype Shape = Shape(format: RegisterFormat, bitOffset: nat, bitSize: nat, policy: WritePolicy)

  /** At most the first 16 bytes of the parent take part in a read or a write. */
  function Reach(parent: seq<byte>): (n: nat)
    ensures n <= |parent| && n <= 16
  {
    if |parent| <= 16 then |parent| else 16
  }

  /** The value a view shows. */
  function Shown(parent: seq<byte>, shape: Shape): nat
  {
    Slot(ToNat(parent[..Reach(parent)]), shape.bitOffset, if shape.bitSize >= 64 then 64 else shape.bitSize)
  }

  /** How many low bits of the parent a zeroing policy keeps. */
  function Kept(shape: Shape): nat
  {
    if shape.policy.ZeroExtend32To64? then 32 else shape.bitSize
  }

  /** The number of the parent once `v` was written through the view: the slot is replaced, and a
      zeroing policy then drops everything above the bits it keeps. */
  function Written(x: nat, v: nat, shape: Shape): nat
  {
    var y := Insert(x, v, shape.bitOffset, shape.bitSize);
    if shape.policy.PreserveParentBits? then y else Rem(y, Kept(shape))
  }

  /** The bytes of the parent after that write. */
  function WrittenBytes(parent: seq<byte>, v: nat, shape: Shape): (r: seq<byte>)
    ensures |r| == |parent|
  {
    var n := Reach(parent);
    FromNat(Written(ToNat(parent[..n]), v, shape), n) + parent[n..]
  }

  // ---------------------------------------------------------------------------
  // Memory copies
  // ---------------------------------------------------------------------------

  /** `dst` with the bytes from `at` on overwritten by `src`. */
  function Splice(dst: seq<byte>, at: nat, src: seq<byte>): (r: seq<byte>)
    requires at + |src| <= |dst|
    ensures |r| == |dst|
    ensures r[at..at + |src|] == src
    ensures r[..at] == dst[..at] && r[at + |src|..] == dst[at + |src|..]
  {
    dst[..at] + src + dst[at + |src|..]
  }

  /** Copying back the bytes that are there changes nothing. */
  lemma SpliceBack(bs: seq<byte>, at: nat, n: nat)
    requires at + n <= |bs|
    ensures Splice(bs, at, bs[at..at + n]) == bs
  {
  }

  method Memcpy(dst: array<byte>, at: nat, src: seq<byte>)
    requires at + |src| <= dst.Length
    modifies dst
    ensures dst[..] == Splice(old(dst[..]), at, src)
  {
    for i := 0 to |src|
      invariant dst[..] == Splice(old(dst[..]), at, src[..i])
    {
      dst[at + i] := src[i];
      assert src[..i + 1] == src[..i] + [src[i]];
    }
    assert src[..|src|] == src;
  }

  // ---------------------------------------------------------------------------
  // The view itself
  // ---------------------------------------------------------------------------

  datatype Outcome = Done | Failed

  /** `parent` points into a register structure: `parentBytes` bytes of `storage` from `start`. */
  datatype SubregisterView =
    SubregisterView(shape: Shape, storage: array<byte>, start: nat, parentBytes: nat)
  {
    /** The parent lies inside its structure, and shifting by the offset is defined in C. */
    predicate Valid()
    {
      start + parentBytes <= storage.Length && shape.bitOffset < 128
    }

    function Parent(): (bs: seq<byte>)
      requires Valid()
      reads storage
      ensures |bs| == parentBytes
    {
      storage[start..start + parentBytes]
    }

    method ReadU64() returns (value: u64)
      requires Valid()
      ensures value == Shown(Parent(), shape)
    {
      var parent := Parent();
      var whole := Join(parent[..Reach(parent)], 8);
      var low := Low(Quot(whole, shape.bitOffset), shape.bitSize, 64);
      Pow2Values();
      value := low;
    }

    method WriteU64(value: u64) returns (outcome: Outcome)
      requires Valid()
      modifies storage
      ensures outcome.Failed? <==> shape.bitSize == 0 || shape.bitSize > 64
      ensures storage[..] == if outcome.Failed? then old(storage[..])
                             else Splice(old(storage[..]), start, WrittenBytes(old(Parent()), value, shape))
    {
      if shape.bitSize == 0 || shape.bitSize > 64 {
        return Failed;
      }
      var parent := Parent();
      var n := Reach(parent);
      var whole := Join(parent[..n], 8);
      whole := Modify(whole, value, shape, parent[..n], 128);
      var buffer := Split(whole, n, 8);
      Memcpy(storage, start, buffer);
      WriteBack(old(storage[..]), start, parent, value, shape, buffer);
      outcome := Done;
    }
  }

  // ---------------------------------------------------------------------------
  // Factories: the shape of each architectural view, and the storage it points to
  // ---------------------------------------------------------------------------

  function WnShape(): Shape
  {
    Shape(U32, 0, 32, ZeroExtend32To64)
  }

  function SnShape(zeroUpper: bool): Shape
  {
    Shape(F32, 0, 32, if zeroUpper then ZeroUpperVector128 else PreserveParentBits)
  }

  function DnShape(zeroUpper: bool): Shape
  {
    Shape(F64, 0, 64, if zeroUpper then ZeroUpperVector128 else PreserveParentBits)
  }

  function LaneSShape(lane: nat): Shape
  {
    Shape(F32, 32 * lane, 32, PreserveParentBits)
  }

  function LaneDShape(lane: nat): Shape
  {
    Shape(F64, 64 * lane, 64, PreserveParentBits)
  }

  /** `gpr` holds 8-byte registers, `fpr` 16-byte ones. */
  function MakeWn(n: nat, gpr: array<byte>): SubregisterView
  {
    SubregisterView(WnShape(), gpr, 8 * n, 8)
  }

  function MakeSn(n: nat, fpr: array<byte>, zeroUpper: bool): SubregisterView
  {
    SubregisterView(SnShape(zeroUpper), fpr, 16 * n, 16)
  }

  function MakeDn(n: nat, fpr: array<byte>, zeroUpper: bool): SubregisterView
  {
    SubregisterView(DnShape(zeroUpper), fpr, 16 * n, 16)
  }

  function MakeVnLaneS(n: nat, lane: nat, fpr: array<byte>): SubregisterView
  {
    SubregisterView(LaneSShape(lane), fpr, 16 * n, 16)
  }

  function MakeVnLaneD(n: nat, lane: nat, fpr: array<byte>): SubregisterView
  {
    SubregisterView(LaneDShape(lane), fpr, 16 * n, 16)
  }

  lemma SpliceTail(dst: seq<byte>, at: nat, head: seq<byte>, parent: seq<byte>)
    requires at + |parent| <= |dst| && parent == dst[at..at + |parent|] && |head| <= |parent|
    ensures Splice(dst, at, head) == Splice(dst, at, head + parent[|head|..])
  {
    assert dst[at + |head|..] == parent[|head|..] + dst[at + |parent|..] by {
      assert parent[|head|..] == dst[at + |head|..at + |parent|];
    }
  }

  /** Writing back only the bytes that took part is writing back the whole parent. */
  lemma WriteBack(dst: seq<byte>, at: nat, parent: seq<byte>, v: nat, shape: Shape, buffer: seq<byte>)
    requires at + |parent| <= |dst| && parent == dst[at..at + |parent|]
    requires buffer == FromNat(Written(ToNat(parent[..Reach(parent)]), v, shape), Reach(parent))
    ensures Splice(dst, at, buffer) == Splice(dst, at, WrittenBytes(parent, v, shape))
  {
    SpliceTail(dst, at, buffer, parent);
  }

  /** The first bytes of the parent, copied out as two halves of `h` bytes and joined. */
  method Join(bs: seq<byte>, h: nat) returns (whole: nat)
    requires |bs| <= h + h
    ensures whole == ToNat(bs)
  {
    var lo, hi := 0, 0;
    if |bs| > h {
      lo, hi := ToNat(bs[..h]), ToNat(bs[h..]);
      assert bs == bs[..h] + bs[h..];
      ToNatConcat(bs[..h], bs[h..]);
      ToNatBound(bs[..h]);
      ToNatBound(bs[h..]);
      Pow2Grows(8 * |bs[h..]|, 8 * h);
    } else {
      lo := ToNat(bs);
      TimesIsMul(0, 8 * h);
      ToNatBound(bs);
      Pow2Grows(8 * |bs|, 8 * h);
    }
    JoinParts(lo, hi, 8 * h, 8 * h + 8 * h);
    whole := Or(Shl(hi, 8 * h, 8 * h + 8 * h), lo);
  }

  /** The low `n` bytes of a word, again as two halves. */
  method Split(whole: nat, n: nat, h: nat) returns (bs: seq<byte>)
    requires n <= h + h
    ensures bs == FromNat(whole, n)
  {
    var lo, hi := Rem(whole, 8 * h), Quot(whole, 8 * h);
    FromNatRem(whole, h);
    if n > h {
      bs := FromNat(lo, h) + FromNat(hi, n - h);
      FromNatSplit(whole, h, n - h);
    } else {
      bs := FromNat(lo, h)[..n];
      FromNatSplit(whole, n, h - n);
    }
  }

  /** `(uint_k_t)x & mask` with the mask of a `size`-bit view. */
  method Low(x: nat, size: nat, k: nat) returns (value: nat)
    ensures value == Rem(x, if size >= k then k else size)
    ensures value < Pow2(k)
  {
    var mask := if size >= k then Not(0, k) else Ones(size, k);
    var kept := if size >= k then k else size;
    Pow2Grows(kept, k);
    MaskIsRem(Rem(x, k), kept);
    RemRem(x, k, kept);
    RemBound(x, kept);
    value := And(Rem(x, k), mask);
  }

  /** The masking of `write_u64` on a word of `w` bits: `bs` are the bytes the word was read from. */
  method Modify(x: nat, value: u64, shape: Shape, ghost bs: seq<byte>, w: nat) returns (whole: nat)
    requires 1 <= shape.bitSize <= 64 < w
    requires x == ToNat(bs) && 8 * |bs| <= w
    ensures FromNat(whole, |bs|) == FromNat(Written(x, value, shape), |bs|)
  {
    var o, s := shape.bitOffset, shape.bitSize;
    ToNatBound(bs);
    Pow2Grows(8 * |bs|, w);
    var slotMask := Ones(s, w);
    // Preserve everything except the slot, then insert the masked value.
    whole := Or(And(x, Not(Shl(slotMask, o, w), w)), Shl(And(value, slotMask), o, w));
    SplicedIsInsert(x, value, o, s, w);
    ghost var y := Insert(x, value, o, s);
    KeptFacts(y, shape, w);
    match shape.policy {
      case ZeroExtend32To64 => whole := And(whole, 0x0000_0000_FFFF_FFFF);
      case ZeroUpperVector128 => whole := And(whole, Ones(s, w));
      case PreserveParentBits => FromNatRemMore(y, |bs|, w);
    }
  }

  /** Either zeroing mask keeps the low `Kept(shape)` bits. */
  lemma KeptFacts(y: nat, shape: Shape, w: nat)
    requires 1 <= shape.bitSize <= 64 < w
    ensures And(Rem(y, w), Pow2(Kept(shape)) - 1) == Rem(y, Kept(shape))
    ensures shape.policy.ZeroExtend32To64? ==> Pow2(Kept(shape)) - 1 == 0xFFFF_FFFF
  {
    LowMask(y, Kept(shape), w);
    Mask32();
  }

  lemma LowMask(y: nat, k: nat, w: nat)
    requires k <= w
    ensures And(Rem(y, w), Pow2(k) - 1) == Rem(y, k)
  {
    MaskIsRem(Rem(y, w), k);
    RemRem(y, w, k);
  }

  lemma Mask32()
    ensures Pow2(32) - 1 == 0xFFFF_FFFF
  {
    Pow2Values();
  }
}
