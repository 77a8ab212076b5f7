/** The little-endian bytes of a number, as memcpy between an integer and a buffer sees them. */
module LittleEndian {
  import opened Bits

  type byte = x: int | 0 <= x < 256

  type u64 = x: int | 0 <= x < 0x1_0000_0000_0000_0000

  /** The number whose little-endian bytes are `bs`. */
  function ToNat(bs: seq<byte>): nat
  {
    if bs == [] then 0 else bs[0] + 256 * ToNat(bs[1..])
  }

  /** The low `n` bytes of `v`. */
  function FromNat(v: nat, n: nat): (bs: seq<byte>)
    ensures |bs| == n
    decreases n, v
  {
    if n == 0 then [] else [v % 256] + FromNat(v / 256, n - 1)
  }

  lemma {:induction false} ToNatBound(bs: seq<byte>)
    ensures ToNat(bs) < Pow2(8 * |bs|)
  {
    if bs != [] {
      ToNatBound(bs[1..]);
      OneByte(0, 8 * |bs[1..]|);
    }
  }

  /** Shifting by eight more bits is a factor of 256. */
  lemma OneByte(x: nat, n: nat)
    ensures Pow2(8 + n) == 256 * Pow2(n)
    ensures Times(x, 8 + n) == 256 * Times(x, n)
    ensures Rem(x, 8 + n) == x % 256 + 256 * Rem(x / 256, n)
    ensures Quot(x, 8 + n) == Quot(x / 256, n)
  {
    assert Pow2(8) == 256;
    Pow2Add(8, n);
    TimesIsMul(Pow2(n), 8);
    TimesTwice(x, 8, n);
    TimesIsMul(Times(x, n), 8);
    Stages(x, 8, n);
    PowerOfTwo(x, 8);
    TimesIsMul(Rem(x / 256, n), 8);
  }

  lemma {:induction false} ToNatConcat(a: seq<byte>, b: seq<byte>)
    ensures ToNat(a + b) == ToNat(a) + Times(ToNat(b), 8 * |a|)
  {
    if a == [] {
      assert a + b == b;
    } else {
      ToNatConcat(a[1..], b);
      assert (a + b)[1..] == a[1..] + b;
      OneByte(ToNat(b), 8 * |a[1..]|);
    }
  }

  lemma {:induction false} ToNatFromNat(v: nat, n: nat)
    ensures ToNat(FromNat(v, n)) == Rem(v, 8 * n)
    decreases n
  {
    if n > 0 {
      ToNatFromNat(v / 256, n - 1);
      OneByte(v, 8 * (n - 1));
      assert FromNat(v, n)[1..] == FromNat(v / 256, n - 1);
    }
  }

  lemma LowByteOff(b: byte, t: nat)
    ensures (b + 256 * t) % 256 == b && (b + 256 * t) / 256 == t
  {
  }

  lemma {:induction false} FromNatToNat(bs: seq<byte>)
    ensures FromNat(ToNat(bs), |bs|) == bs
  {
    if bs != [] {
      FromNatToNat(bs[1..]);
      var t := ToNat(bs[1..]);
      LowByteOff(bs[0], t);
      assert bs == [bs[0]] + bs[1..];
    }
  }

  lemma {:induction false} FromNatSplit(v: nat, a: nat, b: nat)
    ensures FromNat(v, a + b) == FromNat(v, a) + FromNat(Quot(v, 8 * a), b)
    decreases a
  {
    if a > 0 {
      FromNatSplit(v / 256, a - 1, b);
      OneByte(v, 8 * (a - 1));
    }
  }

  lemma FromNatRem(v: nat, n: nat)
    ensures FromNat(Rem(v, 8 * n), n) == FromNat(v, n)
  {
    var bs := FromNat(v, n);
    ToNatFromNat(v, n);
    FromNatToNat(bs);
    var r := Rem(v, 8 * n);
    assert FromNat(r, n) == bs;
  }

  /** Taking `n` bytes ignores everything above them. */
  lemma FromNatRemMore(v: nat, n: nat, w: nat)
    requires 8 * n <= w
    ensures FromNat(Rem(v, w), n) == FromNat(v, n)
  {
    FromNatRem(v, n);
    FromNatRem(Rem(v, w), n);
    RemRem(v, w, 8 * n);
  }

  lemma {:induction false} AllZero(z: seq<byte>)
    requires forall i :: 0 <= i < |z| ==> z[i] == 0
    ensures ToNat(z) == 0
  {
    if z != [] {
      AllZero(z[1..]);
    }
  }

  /** `n` bytes from byte `i` on are the bits [8 i, 8 i + 8 n) of the number. */
  lemma SliceIsSlot(bs: seq<byte>, i: nat, n: nat)
    requires i + n <= |bs|
    ensures ToNat(bs[i..i + n]) == Slot(ToNat(bs), 8 * i, 8 * n)
  {
    ThreeParts(bs, i, n);
    MiddleIsSlot(bs[..i], bs[i..i + n], bs[i + n..], 8 * i, 8 * n);
  }

  lemma ThreeParts(bs: seq<byte>, i: nat, n: nat)
    requires i + n <= |bs|
    ensures bs == bs[..i] + (bs[i..i + n] + bs[i + n..])
  {
  }

  lemma MiddleIsSlot(low: seq<byte>, mid: seq<byte>, high: seq<byte>, i: nat, n: nat)
    requires i == 8 * |low| && n == 8 * |mid|
    ensures ToNat(mid) == Slot(ToNat(low + (mid + high)), i, n)
  {
    ToNatConcat(low, mid + high);
    ToNatConcat(mid, high);
    ToNatBound(low);
    ToNatBound(mid);
    MiddlePart(ToNat(low), ToNat(mid), ToNat(high), i, n);
  }

  lemma MiddlePart(low: nat, mid: nat, high: nat, i: nat, n: nat)
    requires low < Pow2(i) && mid < Pow2(n)
    ensures Slot(low + Times(mid + Times(high, n), i), i, n) == mid
  {
    SplitAt(low, mid + Times(high, n), i);
    SplitAt(mid, high, n);
  }

  /** Quotient and remainder of a number put together from a low and a high part. */
  lemma SplitAt(low: nat, high: nat, n: nat)
    requires low < Pow2(n)
    ensures Quot(low + Times(high, n), n) == high
    ensures Rem(low + Times(high, n), n) == low
  {
    TimesIsMul(high, n);
    PowerOfTwo(low + Times(high, n), n);
    DivModUnique(low + Times(high, n), Pow2(n), high, low);
  }
}
