/** Laws of reading and writing slots, for every offset and size. */
module SlotLaws {
  import opened Bits
  import opened LittleEndian
  import opened SubregisterViews

  // ---------------------------------------------------------------------------
  // Slots of modified numbers
  // ---------------------------------------------------------------------------

  /** A slot that lies inside the inserted one shows the inserted value. */
  lemma SlotInside(x: nat, v: nat, o: nat, s: nat, o2: nat, s2: nat)
    requires o <= o2 && o2 + s2 <= o + s
    ensures Slot(Insert(x, v, o, s), o2, s2) == Slot(v, o2 - o, s2)
  {
    forall i: nat
      ensures Bit(Slot(Insert(x, v, o, s), o2, s2), i) == Bit(Slot(v, o2 - o, s2), i)
    {
      SlotBit(Insert(x, v, o, s), o2, s2, i);
      InsertBit(x, v, o, s, o2 + i);
      SlotBit(v, o2 - o, s2, i);
    }
    Extensional(Slot(Insert(x, v, o, s), o2, s2), Slot(v, o2 - o, s2));
  }

  /** A disjoint slot is not affected. */
  lemma SlotOutside(x: nat, v: nat, o: nat, s: nat, o2: nat, s2: nat)
    requires o2 + s2 <= o || o + s <= o2
    ensures Slot(Insert(x, v, o, s), o2, s2) == Slot(x, o2, s2)
  {
    forall i: nat
      ensures Bit(Slot(Insert(x, v, o, s), o2, s2), i) == Bit(Slot(x, o2, s2), i)
    {
      SlotBit(Insert(x, v, o, s), o2, s2, i);
      InsertBit(x, v, o, s, o2 + i);
      SlotBit(x, o2, s2, i);
    }
    Extensional(Slot(Insert(x, v, o, s), o2, s2), Slot(x, o2, s2));
  }

  lemma SlotKept(y: nat, k: nat, o: nat, s: nat)
    requires o + s <= k
    ensures Slot(Rem(y, k), o, s) == Slot(y, o, s)
  {
    forall i: nat
      ensures Bit(Slot(Rem(y, k), o, s), i) == Bit(Slot(y, o, s), i)
    {
      SlotBit(Rem(y, k), o, s, i);
      RemBit(y, k, o + i);
      SlotBit(y, o, s, i);
    }
    Extensional(Slot(Rem(y, k), o, s), Slot(y, o, s));
  }

  lemma SlotDropped(y: nat, k: nat, o: nat, s: nat)
    requires o >= k
    ensures Slot(Rem(y, k), o, s) == 0
  {
    forall i: nat
      ensures Bit(Slot(Rem(y, k), o, s), i) == Bit(0, i)
    {
      SlotBit(Rem(y, k), o, s, i);
      RemBit(y, k, o + i);
      ZeroBits(i);
    }
    Extensional(Slot(Rem(y, k), o, s), 0);
  }

  /** Inserting does not leave the word when the slot lies inside it. */
  lemma InsertBound(x: nat, v: nat, o: nat, s: nat, w: nat)
    requires x < Pow2(w) && o + s <= w
    ensures Insert(x, v, o, s) < Pow2(w)
  {
    var y := Insert(x, v, o, s);
    forall i: nat
      ensures Bit(Rem(y, w), i) == Bit(y, i)
    {
      RemBit(y, w, i);
      InsertBit(x, v, o, s, i);
      if i >= w {
        HighBitsClear(x, w, i);
      }
    }
    Extensional(Rem(y, w), y);
    RemBound(y, w);
  }

  // ---------------------------------------------------------------------------
  // Laws of views
  // ---------------------------------------------------------------------------

  /** The write of the view is accepted and its slot lies inside the parent. */
  predicate Fits(shape: Shape, parentBytes: nat)
  {
    1 <= shape.bitSize <= 64 && parentBytes <= 16 && shape.bitOffset + shape.bitSize <= 8 * parentBytes
  }

  /** The zeroing policy does not cut into the slot itself. */
  predicate KeepsSlot(shape: Shape)
  {
    shape.policy.PreserveParentBits? || shape.bitOffset + shape.bitSize <= Kept(shape)
  }

  lemma WrittenBound(x: nat, v: nat, shape: Shape, w: nat)
    requires x < Pow2(w) && shape.bitOffset + shape.bitSize <= w
    ensures Written(x, v, shape) < Pow2(w)
  {
    var y := Insert(x, v, shape.bitOffset, shape.bitSize);
    InsertBound(x, v, shape.bitOffset, shape.bitSize, w);
    if !shape.policy.PreserveParentBits? {
      Euclid(y, Kept(shape));
      RemBound(y, Kept(shape));
      TimesIsMul(Quot(y, Kept(shape)), Kept(shape));
    }
  }

  /** The parent's number after a write that fits. */
  lemma WrittenNumber(parent: seq<byte>, v: nat, shape: Shape)
    requires Fits(shape, |parent|)
    ensures ToNat(WrittenBytes(parent, v, shape)) == Written(ToNat(parent), v, shape)
  {
    var y, n := Written(ToNat(parent), v, shape), |parent|;
    assert WrittenBytes(parent, v, shape) == FromNat(y, n) by {
      assert parent[..n] == parent && parent[n..] == [];
    }
    NumberBack(parent, v, shape, y, n);
  }

  lemma NumberBack(parent: seq<byte>, v: nat, shape: Shape, y: nat, n: nat)
    requires n == |parent| && shape.bitOffset + shape.bitSize <= 8 * n
    requires y == Written(ToNat(parent), v, shape)
    ensures ToNat(FromNat(y, n)) == y
  {
    ToNatBound(parent);
    WrittenBound(ToNat(parent), v, shape, 8 * n);
    ToNatFromNat(y, n);
    RemSmall(y, 8 * n);
  }

  lemma ShownNumber(parent: seq<byte>, shape: Shape)
    requires Fits(shape, |parent|)
    ensures Shown(parent, shape) == Slot(ToNat(parent), shape.bitOffset, shape.bitSize)
  {
    assert parent[..Reach(parent)] == parent;
  }

  /** Reading a view back gives the low bits of what was written to it, for every value, exactly when
      the write policy does not cut into the slot. */
  lemma ReadAfterWriteIff(parent: seq<byte>, shape: Shape)
    requires Fits(shape, |parent|)
    ensures (forall v: u64 :: Shown(WrittenBytes(parent, v, shape), shape) == Rem(v, shape.bitSize))
            <==> KeepsSlot(shape)
  {
    if KeepsSlot(shape) {
      forall v: u64
        ensures Shown(WrittenBytes(parent, v, shape), shape) == Rem(v, shape.bitSize)
      {
        ReadAfterWrite(parent, v, shape);
      }
    } else {
      var v := Pow2(shape.bitSize) - 1;
      Pow2Values();
      Pow2Grows(shape.bitSize, 64);
      CutSlot(parent, v, shape);
      var u: u64 := v;
      assert Shown(WrittenBytes(parent, u, shape), shape) != Rem(u, shape.bitSize);
    }
  }

  lemma ReadAfterWrite(parent: seq<byte>, v: nat, shape: Shape)
    requires Fits(shape, |parent|) && KeepsSlot(shape)
    ensures Shown(WrittenBytes(parent, v, shape), shape) == Rem(v, shape.bitSize)
  {
    var x, o, s := ToNat(parent), shape.bitOffset, shape.bitSize;
    WrittenNumber(parent, v, shape);
    ShownNumber(WrittenBytes(parent, v, shape), shape);
    SlotInside(x, v, o, s, o, s);
    if !shape.policy.PreserveParentBits? {
      SlotKept(Insert(x, v, o, s), Kept(shape), o, s);
    }
  }

  /** The top bit of an all-ones value is lost when the policy cuts the slot. */
  lemma CutSlot(parent: seq<byte>, v: nat, shape: Shape)
    requires Fits(shape, |parent|) && !KeepsSlot(shape) && v == Pow2(shape.bitSize) - 1
    ensures Shown(WrittenBytes(parent, v, shape), shape) != Rem(v, shape.bitSize)
  {
    WrittenNumber(parent, v, shape);
    ShownNumber(WrittenBytes(parent, v, shape), shape);
    TopBitLost(ToNat(parent), v, shape, shape.bitSize - 1);
  }

  lemma TopBitLost(x: nat, v: nat, shape: Shape, top: nat)
    requires !KeepsSlot(shape) && shape.bitSize == top + 1 && v == Pow2(shape.bitSize) - 1
    ensures Slot(Written(x, v, shape), shape.bitOffset, shape.bitSize) != Rem(v, shape.bitSize)
  {
    CutTop(Insert(x, v, shape.bitOffset, shape.bitSize), v, shape.bitOffset, shape.bitSize, Kept(shape), top);
  }

  lemma CutTop(y: nat, v: nat, o: nat, s: nat, k: nat, top: nat)
    requires s == top + 1 && v == Pow2(s) - 1 && o + top >= k
    ensures Slot(Rem(y, k), o, s) != Rem(v, s)
  {
    RemBit(y, k, o + top);
    OnesBit(s, top);
    DifferentBit(Rem(y, k), v, o, s, top);
  }

  lemma DifferentBit(y: nat, v: nat, o: nat, s: nat, i: nat)
    requires i < s && Bit(v, i) && !Bit(y, o + i)
    ensures Slot(y, o, s) != Rem(v, s)
  {
    SlotBit(y, o, s, i);
    RemBit(v, s, i);
  }

  /** The second of two writes through one view wins, whatever its shape and its parent. */
  lemma LastWriteWins(parent: seq<byte>, v: nat, v': nat, shape: Shape)
    ensures WrittenBytes(WrittenBytes(parent, v, shape), v', shape) == WrittenBytes(parent, v', shape)
  {
    var n := Reach(parent);
    var once := WrittenBytes(parent, v, shape);
    var x := ToNat(parent[..n]);
    assert once[..n] == FromNat(Written(x, v, shape), n) && once[n..] == parent[n..];
    ToNatFromNat(Written(x, v, shape), n);
    LastNumberWins(x, v, v', shape, 8 * n);
    SameBytes(Written(Rem(Written(x, v, shape), 8 * n), v', shape), Written(x, v', shape), n);
  }

  lemma LastNumberWins(x: nat, v: nat, v': nat, shape: Shape, w: nat)
    ensures Rem(Written(Rem(Written(x, v, shape), w), v', shape), w) == Rem(Written(x, v', shape), w)
  {
    var first := Written(x, v, shape);
    forall i: nat | i < w
      ensures Bit(Written(Rem(first, w), v', shape), i) == Bit(Written(x, v', shape), i)
    {
      WrittenBit(x, v', shape, i);
      WrittenBit(Rem(first, w), v', shape, i);
      RemBit(first, w, i);
      WrittenBit(x, v, shape, i);
    }
    SameLow(Written(Rem(first, w), v', shape), Written(x, v', shape), w);
  }

  lemma SameBytes(a: nat, b: nat, n: nat)
    requires Rem(a, 8 * n) == Rem(b, 8 * n)
    ensures FromNat(a, n) == FromNat(b, n)
  {
    FromNatRem(a, n);
    FromNatRem(b, n);
  }

  lemma WrittenBit(x: nat, v: nat, shape: Shape, i: nat)
    ensures Bit(Written(x, v, shape), i) ==
            ((shape.policy.PreserveParentBits? || i < Kept(shape))
             && InsertedBit(x, v, shape.bitOffset, shape.bitSize, i))
  {
    InsertBit(x, v, shape.bitOffset, shape.bitSize, i);
    RemBit(Insert(x, v, shape.bitOffset, shape.bitSize), Kept(shape), i);
  }

  /** A write that preserves its parent leaves every disjoint view's value alone. */
  lemma DisjointViewUntouched(parent: seq<byte>, v: nat, shape: Shape, other: Shape)
    requires Fits(shape, |parent|) && Fits(other, |parent|) && shape.policy.PreserveParentBits?
    requires other.bitOffset + other.bitSize <= shape.bitOffset
             || shape.bitOffset + shape.bitSize <= other.bitOffset
    ensures Shown(WrittenBytes(parent, v, shape), other) == Shown(parent, other)
  {
    WrittenNumber(parent, v, shape);
    ShownNumber(WrittenBytes(parent, v, shape), other);
    ShownNumber(parent, other);
    SlotOutside(ToNat(parent), v, shape.bitOffset, shape.bitSize, other.bitOffset, other.bitSize);
  }
}
