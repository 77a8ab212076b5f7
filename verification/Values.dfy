/** Writing a register as text (src/registers.cpp:419-539, tools/cbg.cpp:424-452): what the register reads
    afterwards, for each kind of text and of register. */
module Values {
  import opened Bits
  import opened Options
  import opened RegisterFile
  import opened RegisterValue
  import opened Handles

  /** The format of a handle stands for its number of bits. Scalars and lanes of vector registers are
      floating-point numbers, all other registers are not. */
  lemma HandleFormats(h: Handle)
    requires ValidHandle(h)
    ensures 8 * FormatSize(FormatOf(h)) == BitSize(h)
    ensures IntegerFormat(FormatOf(h)) <==> h.Full? || h.desc.kind.Wn?
  {
    match h {
      case Full(i) => TableFormats(i);
      case Sub(_) =>
    }
  }

  /** What the register reads after a write of this text. */
  ghost function ReadBack(f: RegFile, h: Handle, text: string, libc: Libc): Option<nat>
    requires ValidHandle(h)
  {
    match Denoted(text, FormatOf(h), BitSize(h), libc)
    case None => Option.None
    case Some(v) => Some(ReadHandle(WriteHandle(f, h, v), h))
  }

  lemma DenotedReadsBack(f: RegFile, h: Handle, text: string, libc: Libc, v: nat)
    requires ValidHandle(h) && Denoted(text, FormatOf(h), BitSize(h), libc) == Some(v)
    ensures ReadBack(f, h, text, libc) == Some(Rem(v, BitSize(h)))
  {
    WholeFileLaw(f, h, v, HomePlace(h));
  }

  /** No register takes an empty text. */
  lemma EmptyText(f: RegFile, h: Handle, libc: Libc)
    requires ValidHandle(h)
    ensures ReadBack(f, h, "", libc).None?
  {
  }

  /** A floating-point register takes the bits of the number the C library reads, single or double as the
      register is; an integer register never asks for one. */
  lemma FloatText(f: RegFile, h: Handle, text: string, libc: Libc)
    requires ValidHandle(h) && !IntegerFormat(FormatOf(h)) && text != ""
    ensures BitSize(h) == 32 || BitSize(h) == 64
    ensures ReadBack(f, h, text, libc)
            == match (if BitSize(h) == 32 then libc.float(text) else libc.double(text))
               case None => Option.None
               case Some(bits) => Some(Rem(bits, BitSize(h)))
  {
    HandleFormats(h);
    var bits := if BitSize(h) == 32 then libc.float(text) else libc.double(text);
    if bits.Some? {
      DenotedReadsBack(f, h, text, libc, bits.value);
    }
  }

  lemma IntegerText(f: RegFile, h: Handle, text: string, libc: Libc, other: Libc)
    requires ValidHandle(h) && IntegerFormat(FormatOf(h)) && libc.ull == other.ull
    ensures ReadBack(f, h, text, libc) == ReadBack(f, h, text, other)
  {
  }

  /** `-1` and `~0`, between blanks, set every bit of an integer register and no other. */
  lemma AllOnesText(f: RegFile, h: Handle, text: string, libc: Libc)
    requires ValidHandle(h) && IntegerFormat(FormatOf(h)) && MeansAllOnes(text)
    ensures var r := ReadBack(f, h, text, libc);
            r.Some? && OnlyOnesBelow(r.value, BitSize(h))
  {
    var n := BitSize(h);
    SizeOfHandle(h);
    assert text != "";
    DenotedReadsBack(f, h, text, libc, Pow2(n) - 1);
    LowOnes(n);
  }

  /** Exactly the bits below `n` are set. */
  ghost predicate OnlyOnesBelow(v: nat, n: nat)
  {
    forall i: nat :: Bit(v, i) == (i < n)
  }

  lemma LowOnes(n: nat)
    ensures OnlyOnesBelow(Rem(Pow2(n) - 1, n), n)
  {
    var v := Rem(Pow2(n) - 1, n);
    forall i: nat
      ensures Bit(v, i) == (i < n)
    {
      RemBit(Pow2(n) - 1, n, i);
      OnesBit(n, i);
    }
  }

  lemma SizeOfHandle(h: Handle)
    requires ValidHandle(h)
    ensures 32 <= BitSize(h) <= 128
  {
    match h {
      case Full(i) => EntryInFile(i);
      case Sub(_) =>
    }
  }

  /** Any other text that is no hex number is a 64-bit integer for the C library; an integer register takes
      its low bits. */
  lemma DecimalText(f: RegFile, h: Handle, text: string, libc: Libc)
    requires ValidHandle(h) && IntegerFormat(FormatOf(h)) && text != "" && !MeansAllOnes(text) && !LooksHex(text)
    ensures ReadBack(f, h, text, libc)
            == match libc.ull(text)
               case None => Option.None
               case Some(v) => Some(Rem(v, BitSize(h)))
  {
    match libc.ull(text) {
      case None =>
      case Some(v) =>
        SizeOfHandle(h);
        DenotedReadsBack(f, h, text, libc, Rem(v, BitSize(h)));
        RemRem(v, BitSize(h), BitSize(h));
    }
  }

  /** Hex digits, up to as many as the register has room for: an integer register reads exactly their low
      bits; more digits are refused. */
  lemma HexText(f: RegFile, h: Handle, text: string, libc: Libc)
    requires ValidHandle(h) && IntegerFormat(FormatOf(h)) && LooksHex(text) && HexDigits(text, 2, |text|)
    ensures ReadBack(f, h, text, libc)
            == if 4 * (|text| - 2) <= BitSize(h) then Some(HexVal(text, 2, |text|)) else Option.None
  {
    SizesByFour(h);
    HexAcceptedIff(text, FormatOf(h), BitSize(h), libc);
    NotAllOnes(text);
    if 4 * (|text| - 2) <= BitSize(h) {
      HexFits(text, |text|, BitSize(h));
      DenotedReadsBack(f, h, text, libc, HexVal(text, 2, |text|));
    }
  }

  lemma SizesByFour(h: Handle)
    requires ValidHandle(h)
    ensures BitSize(h) == 32 || BitSize(h) == 64 || BitSize(h) == 128
  {
    match h {
      case Full(i) => EntryInFile(i);
      case Sub(_) =>
    }
  }

  /** Every value of an integer register, 128-bit ones included, can be written in hex and read back. */
  lemma EveryValueReadsBack(f: RegFile, h: Handle, v: nat, libc: Libc)
    requires ValidHandle(h) && IntegerFormat(FormatOf(h)) && v < Pow2(BitSize(h))
    ensures ReadBack(f, h, "0x" + HexString(v), libc) == Some(v)
  {
    SizesByFour(h);
    EveryValueDenoted(v, FormatOf(h), BitSize(h), libc);
    DenotedReadsBack(f, h, "0x" + HexString(v), libc, v);
    RemSmall(v, BitSize(h));
  }
}
