/** Bit-level arithmetic of unsigned machine words, on naturals.
    Shifts and truncations are multiplication, quotient and remainder by a power of two; the
    operators `&`, `|` and `~` are defined bit by bit. The lemmas of this module turn an expression
    made of masks and shifts into an arithmetic one, for symbolic offsets and sizes. */
module Bits {

  function Pow2(n: nat): (r: nat)
    ensures r >= 1
  {
    if n == 0 then 1 else 2 * Pow2(n - 1)
  }

  /** `x * 2^n`, `x / 2^n` and `x % 2^n`, one binary digit at a time; see `PowerOfTwo`. */
  function Times(x: nat, n: nat): nat
  {
    if n == 0 then x else 2 * Times(x, n - 1)
  }

  function Quot(x: nat, n: nat): nat
    decreases n, x
  {
    if n == 0 then x else Quot(x / 2, n - 1)
  }

  function Rem(x: nat, n: nat): nat
    decreases n, x
  {
    if n == 0 then 0 else x % 2 + 2 * Rem(x / 2, n - 1)
  }

  /** Bit `i` of `x`. */
  predicate Bit(x: nat, i: nat)
    decreases i, x
  {
    if i == 0 then x % 2 == 1 else Bit(x / 2, i - 1)
  }

  function And(x: nat, y: nat): nat
  {
    if x == 0 then 0 else 2 * And(x / 2, y / 2) + (if x % 2 == 1 && y % 2 == 1 then 1 else 0)
  }

  function Or(x: nat, y: nat): nat
    decreases x + y
  {
    if x == 0 && y == 0 then 0
    else 2 * Or(x / 2, y / 2) + (if x % 2 == 1 || y % 2 == 1 then 1 else 0)
  }

  /** `x << n` and `~x` on unsigned words of `w` bits. */
  function Shl(x: nat, n: nat, w: nat): (r: nat)
    ensures r < Pow2(w)
  {
    RemBound(Times(x, n), w);
    Rem(Times(x, n), w)
  }

  function Not(x: nat, w: nat): nat
    requires x < Pow2(w)
  {
    Pow2(w) - 1 - x
  }

  // ---------------------------------------------------------------------------
  // Powers of two
  // ---------------------------------------------------------------------------

  lemma {:induction false} Pow2Add(a: nat, b: nat)
    ensures Pow2(a + b) == Times(Pow2(b), a)
  {
    if a > 0 {
      Pow2Add(a - 1, b);
    }
  }

  lemma {:induction false} Pow2Grows(a: nat, b: nat)
    requires a <= b
    ensures Pow2(a) <= Pow2(b)
  {
    if a < b {
      Pow2Grows(a, b - 1);
    }
  }

  lemma {:induction false} TimesIsMul(x: nat, n: nat)
    ensures Times(x, n) == x * Pow2(n)
  {
    if n > 0 {
      TimesIsMul(x, n - 1);
      MulTwice(x, Pow2(n - 1));
    }
  }

  lemma MulTwice(x: nat, p: nat)
    ensures 2 * (x * p) == x * (2 * p)
  {
  }

  lemma {:induction false} Euclid(x: nat, n: nat)
    ensures x == Times(Quot(x, n), n) + Rem(x, n)
    decreases n
  {
    if n > 0 {
      Euclid(x / 2, n - 1);
    }
  }

  lemma {:induction false} RemBound(x: nat, n: nat)
    ensures Rem(x, n) < Pow2(n)
    decreases n
  {
    if n > 0 {
      RemBound(x / 2, n - 1);
    }
  }

  /** What `Times`, `Quot` and `Rem` mean. */
  lemma PowerOfTwo(x: nat, n: nat)
    ensures Times(x, n) == x * Pow2(n)
    ensures Quot(x, n) == x / Pow2(n)
    ensures Rem(x, n) == x % Pow2(n)
  {
    TimesIsMul(x, n);
    Euclid(x, n);
    TimesIsMul(Quot(x, n), n);
    RemBound(x, n);
    DivModUnique(x, Pow2(n), Quot(x, n), Rem(x, n));
  }

  lemma DivModUnique(x: nat, d: nat, q: nat, r: nat)
    requires d > 0 && r < d && x == q * d + r
    ensures x / d == q && x % d == r
  {
    var q', r' := x / d, x % d;
    assert x == q' * d + r';
    assert (q - q') * d == r' - r;
    if q' > q {
      MulAtLeast(q' - q, d);
    } else if q' < q {
      MulAtLeast(q - q', d);
    }
  }

  lemma MulAtLeast(k: nat, d: nat)
    requires k >= 1
    ensures k * d >= d
  {
  }

  lemma Pow2Values()
    ensures Pow2(4) == 16 && Pow2(8) == 0x100
    ensures Pow2(32) == 0x1_0000_0000 && Pow2(64) == 0x1_0000_0000_0000_0000
    ensures Pow2(128) == 0x1_0000_0000_0000_0000_0000_0000_0000_0000
  {
    assert Pow2(8) == 0x100;
    Pow2Squared(8, 0x100);
    Pow2Squared(16, 0x1_0000);
    Pow2Squared(32, 0x1_0000_0000);
    Pow2Squared(64, 0x1_0000_0000_0000_0000);
  }

  lemma Pow2Squared(n: nat, p: nat)
    requires Pow2(n) == p
    ensures Pow2(2 * n) == p * p
  {
    Pow2Product(n, n);
  }

  lemma Pow2Product(a: nat, b: nat)
    ensures Pow2(a + b) == Pow2(b) * Pow2(a)
  {
    Pow2Add(a, b);
    TimesIsMul(Pow2(b), a);
  }

  /** Division by `2^(a + b)` in two stages. */
  lemma {:induction false} Stages(x: nat, a: nat, b: nat)
    ensures Quot(x, a + b) == Quot(Quot(x, a), b)
    ensures Rem(x, a + b) == Rem(x, a) + Times(Rem(Quot(x, a), b), a)
    decreases a
  {
    if a > 0 {
      Stages(x / 2, a - 1, b);
    }
  }

  lemma {:induction false} TimesTwice(x: nat, a: nat, b: nat)
    ensures Times(x, a + b) == Times(Times(x, b), a)
  {
    if a > 0 {
      TimesTwice(x, a - 1, b);
    }
  }

  // ---------------------------------------------------------------------------
  // Bits determine the number
  // ---------------------------------------------------------------------------

  lemma {:induction false} Extensional(x: nat, y: nat)
    requires forall i: nat :: Bit(x, i) == Bit(y, i)
    ensures x == y
    decreases x + y
  {
    assert Bit(x, 0) == Bit(y, 0);
    if x > 0 || y > 0 {
      forall i: nat
        ensures Bit(x / 2, i) == Bit(y / 2, i)
      {
        assert Bit(x, i + 1) == Bit(y, i + 1);
      }
      Extensional(x / 2, y / 2);
    }
  }

  lemma {:induction false} ZeroBits(i: nat)
    ensures !Bit(0, i)
  {
    if i > 0 {
      ZeroBits(i - 1);
    }
  }

  /** Bits of a number put together from its last digit and the rest. */
  lemma BitOfSum(h: nat, b: nat, i: nat)
    requires b <= 1
    ensures Bit(2 * h + b, i) == if i == 0 then b == 1 else Bit(h, i - 1)
  {
    assert (2 * h + b) / 2 == h && (2 * h + b) % 2 == b;
  }

  lemma {:induction false} AndBit(x: nat, y: nat, i: nat)
    ensures Bit(And(x, y), i) == (Bit(x, i) && Bit(y, i))
  {
    if x == 0 {
      ZeroBits(i);
    } else {
      BitOfSum(And(x / 2, y / 2), if x % 2 == 1 && y % 2 == 1 then 1 else 0, i);
      if i > 0 {
        AndBit(x / 2, y / 2, i - 1);
      }
    }
  }

  lemma {:induction false} OrBit(x: nat, y: nat, i: nat)
    ensures Bit(Or(x, y), i) == (Bit(x, i) || Bit(y, i))
  {
    if x == 0 && y == 0 {
      ZeroBits(i);
    } else {
      BitOfSum(Or(x / 2, y / 2), if x % 2 == 1 || y % 2 == 1 then 1 else 0, i);
      if i > 0 {
        OrBit(x / 2, y / 2, i - 1);
      }
    }
  }

  lemma {:induction false} QuotBit(x: nat, n: nat, i: nat)
    ensures Bit(Quot(x, n), i) == Bit(x, n + i)
    decreases n
  {
    if n > 0 {
      QuotBit(x / 2, n - 1, i);
    }
  }

  lemma {:induction false} RemBit(x: nat, n: nat, i: nat)
    ensures Bit(Rem(x, n), i) == (i < n && Bit(x, i))
    decreases n
  {
    if n == 0 {
      ZeroBits(i);
    } else {
      BitOfSum(Rem(x / 2, n - 1), x % 2, i);
      if i > 0 {
        RemBit(x / 2, n - 1, i - 1);
      }
    }
  }

  lemma {:induction false} TimesBit(x: nat, n: nat, i: nat)
    ensures Bit(Times(x, n), i) == (i >= n && Bit(x, i - n))
  {
    if n > 0 && i > 0 {
      TimesBit(x, n - 1, i - 1);
    }
  }

  /** The complement within `n` bits; for `x == 0`, a run of `n` ones. */
  lemma {:induction false} ComplementBit(x: nat, n: nat, i: nat)
    requires x < Pow2(n)
    ensures Bit(Pow2(n) - 1 - x, i) == (i < n && !Bit(x, i))
  {
    if n == 0 {
      ZeroBits(i);
    } else if i > 0 {
      assert (Pow2(n) - 1 - x) / 2 == Pow2(n - 1) - 1 - x / 2;
      ComplementBit(x / 2, n - 1, i - 1);
    }
  }

  lemma OnesBit(n: nat, i: nat)
    ensures Bit(Pow2(n) - 1, i) == (i < n)
  {
    ComplementBit(0, n, i);
    ZeroBits(i);
  }

  lemma {:induction false} HighBitsClear(x: nat, n: nat, i: nat)
    requires x < Pow2(n) && i >= n
    ensures !Bit(x, i)
  {
    if n == 0 {
      ZeroBits(i);
    } else {
      HighBitsClear(x / 2, n - 1, i - 1);
    }
  }

  lemma {:induction false} RemSmall(x: nat, n: nat)
    requires x < Pow2(n)
    ensures Rem(x, n) == x && Quot(x, n) == 0
    decreases n
  {
    if n > 0 {
      RemSmall(x / 2, n - 1);
    }
  }

  lemma SameLow(r: nat, x: nat, n: nat)
    requires forall i: nat | i < n :: Bit(r, i) == Bit(x, i)
    ensures Rem(r, n) == Rem(x, n)
  {
    forall i: nat
      ensures Bit(Rem(r, n), i) == Bit(Rem(x, n), i)
    {
      RemBit(r, n, i);
      RemBit(x, n, i);
    }
    Extensional(Rem(r, n), Rem(x, n));
  }

  lemma RemRem(x: nat, a: nat, b: nat)
    requires b <= a
    ensures Rem(Rem(x, a), b) == Rem(x, b)
  {
    forall i: nat | i < b
      ensures Bit(Rem(x, a), i) == Bit(x, i)
    {
      RemBit(x, a, i);
    }
    SameLow(Rem(x, a), x, b);
  }

  // ---------------------------------------------------------------------------
  // Slots: the bits [o, o + s) of a number
  // ---------------------------------------------------------------------------

  /** The `s` bits of `x` that start at bit `o`. */
  function Slot(x: nat, o: nat, s: nat): nat
  {
    Rem(Quot(x, o), s)
  }

  lemma SlotBit(x: nat, o: nat, s: nat, i: nat)
    ensures Bit(Slot(x, o, s), i) == (i < s && Bit(x, o + i))
  {
    RemBit(Quot(x, o), s, i);
    QuotBit(x, o, i);
  }

  /** `x` with the bits [o, o + s) replaced by the low `s` bits of `v`. */
  function Insert(x: nat, v: nat, o: nat, s: nat): nat
  {
    Rem(x, o) + Times(Rem(v, s), o) + Times(Quot(x, o + s), o + s)
  }

  /** Bit `i` of such a number. */
  predicate InsertedBit(x: nat, v: nat, o: nat, s: nat, i: nat)
  {
    if o <= i < o + s then Bit(v, i - o) else Bit(x, i)
  }

  lemma {:induction false} InsertBit(x: nat, v: nat, o: nat, s: nat, i: nat)
    ensures Bit(Insert(x, v, o, s), i) == InsertedBit(x, v, o, s, i)
    decreases o
  {
    var r := Insert(x, v, o, s);
    if o == 0 {
      RemBound(v, s);
      JoinBit(Rem(v, s), Quot(x, s), s, i);
      RemBit(v, s, i);
      if i >= s {
        QuotBit(x, s, i - s);
      }
    } else {
      assert r == x % 2 + 2 * Insert(x / 2, v, o - 1, s);
      if i > 0 {
        InsertBit(x / 2, v, o - 1, s, i - 1);
      }
    }
  }

  lemma {:induction false} JoinBit(lo: nat, hi: nat, k: nat, i: nat)
    requires lo < Pow2(k)
    ensures Bit(lo + Times(hi, k), i) == if i < k then Bit(lo, i) else Bit(hi, i - k)
  {
    if k > 0 && i > 0 {
      assert (lo + Times(hi, k)) / 2 == lo / 2 + Times(hi, k - 1);
      JoinBit(lo / 2, hi, k - 1, i - 1);
    }
  }

  // ---------------------------------------------------------------------------
  // From masks to quotients and remainders
  // ---------------------------------------------------------------------------

  /** `x & ((1 << s) - 1)` is the remainder by `2^s`. */
  lemma MaskIsRem(x: nat, s: nat)
    ensures And(x, Pow2(s) - 1) == Rem(x, s)
  {
    forall i: nat
      ensures Bit(And(x, Pow2(s) - 1), i) == Bit(Rem(x, s), i)
    {
      AndBit(x, Pow2(s) - 1, i);
      OnesBit(s, i);
      RemBit(x, s, i);
    }
    Extensional(And(x, Pow2(s) - 1), Rem(x, s));
  }

  lemma ShlBit(x: nat, n: nat, w: nat, i: nat)
    ensures Bit(Shl(x, n, w), i) == (n <= i < w && Bit(x, i - n))
  {
    RemBit(Times(x, n), w, i);
    TimesBit(x, n, i);
  }

  lemma {:induction false} TimesOne(s: nat)
    ensures Times(1, s) == Pow2(s)
  {
    if s > 0 {
      TimesOne(s - 1);
    }
  }

  /** `(1 << s) - 1`. */
  function Ones(s: nat, w: nat): (r: nat)
    requires s < w
    ensures r == Pow2(s) - 1
  {
    TimesOne(s);
    Pow2Grows(s + 1, w);
    RemSmall(Pow2(s), w);
    Shl(1, s, w) - 1
  }

  lemma OrCommutes(x: nat, y: nat)
    ensures Or(x, y) == Or(y, x)
  {
    forall i: nat
      ensures Bit(Or(x, y), i) == Bit(Or(y, x), i)
    {
      OrBit(x, y, i);
      OrBit(y, x, i);
    }
    Extensional(Or(x, y), Or(y, x));
  }

  /** A word put together from a low part of `k` bits and a high part: `(hi << k) | lo`. */
  lemma JoinParts(lo: nat, hi: nat, k: nat, w: nat)
    requires lo < Pow2(k) && k <= w && hi < Pow2(w - k)
    ensures Or(Shl(hi, k, w), lo) == lo + Times(hi, k)
  {
    var r, y := Or(Shl(hi, k, w), lo), lo + Times(hi, k);
    forall i: nat
      ensures Bit(r, i) == Bit(y, i)
    {
      OrBit(Shl(hi, k, w), lo, i);
      ShlBit(hi, k, w, i);
      JoinBit(lo, hi, k, i);
      if i >= k {
        HighBitsClear(lo, k, i);
        if i >= w {
          HighBitsClear(hi, w - k, i - k);
        }
      }
    }
    Extensional(r, y);
  }

  /** The mask expression of a slot write: clear the slot, then or the shifted value in. */
  function Spliced(whole: nat, v: nat, o: nat, mask: nat, w: nat): nat
    requires whole < Pow2(w)
  {
    Or(And(whole, Not(Shl(mask, o, w), w)), Shl(And(v, mask), o, w))
  }

  /** Bit `i` of the shifted mask, and of the shifted value. */
  lemma ShiftedBits(v: nat, o: nat, s: nat, w: nat, i: nat)
    ensures Bit(Shl(Pow2(s) - 1, o, w), i) == (o <= i < w && i < o + s)
    ensures Bit(Shl(And(v, Pow2(s) - 1), o, w), i) == (o <= i < w && i < o + s && Bit(v, i - o))
  {
    ShlBit(Pow2(s) - 1, o, w, i);
    ShlBit(And(v, Pow2(s) - 1), o, w, i);
    if i >= o {
      OnesBit(s, i - o);
      AndBit(v, Pow2(s) - 1, i - o);
    }
  }

  lemma SplicedBit(whole: nat, v: nat, o: nat, s: nat, w: nat, i: nat)
    requires whole < Pow2(w)
    ensures Bit(Spliced(whole, v, o, Pow2(s) - 1, w), i) == (i < w && InsertedBit(whole, v, o, s, i))
  {
    var shifted, value := Shl(Pow2(s) - 1, o, w), Shl(And(v, Pow2(s) - 1), o, w);
    OrBit(And(whole, Not(shifted, w)), value, i);
    AndBit(whole, Not(shifted, w), i);
    ComplementBit(shifted, w, i);
    ShiftedBits(v, o, s, w, i);
    if i >= w {
      HighBitsClear(whole, w, i);
    }
  }

  /** The mask expression is arithmetic insertion, for every offset and size; what leaves the word
      at its top is lost. */
  lemma SplicedIsInsert(whole: nat, v: nat, o: nat, s: nat, w: nat)
    requires whole < Pow2(w)
    ensures Spliced(whole, v, o, Pow2(s) - 1, w) == Rem(Insert(whole, v, o, s), w)
  {
    var r, y := Spliced(whole, v, o, Pow2(s) - 1, w), Rem(Insert(whole, v, o, s), w);
    forall i: nat
      ensures Bit(r, i) == Bit(y, i)
    {
      SplicedBit(whole, v, o, s, w, i);
      InsertedRemBit(whole, v, o, s, w, i);
    }
    Extensional(r, y);
  }

  lemma InsertedRemBit(whole: nat, v: nat, o: nat, s: nat, w: nat, i: nat)
    ensures Bit(Rem(Insert(whole, v, o, s), w), i) == (i < w && InsertedBit(whole, v, o, s, i))
  {
    RemBit(Insert(whole, v, o, s), w, i);
    InsertBit(whole, v, o, s, i);
  }
}
