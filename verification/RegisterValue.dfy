/** Turning text into register bits and back (src/registers.cpp:440-539, tools/cbg.cpp:202-207). */
module RegisterValue {
  import opened Bits
  import opened SubregisterViews
  import opened LittleEndian
  import opened Options

  // ---------------------------------------------------------------------------
  // Hexadecimal numbers
  // ---------------------------------------------------------------------------

  predicate IsHexDigit(c: char)
  {
    '0' <= c <= '9' || 'a' <= c <= 'f' || 'A' <= c <= 'F'
  }

  function HexDigit(c: char): (d: nat)
    requires IsHexDigit(c)
    ensures d < 16
  {
    if '0' <= c <= '9' then (c - '0') as nat
    else if 'a' <= c <= 'f' then 10 + (c - 'a') as nat
    else 10 + (c - 'A') as nat
  }

  predicate HexDigits(s: string, i: nat, j: nat)
  {
    i <= j <= |s| && forall k | i <= k < j :: IsHexDigit(s[k])
  }

  /** The number the hex digits [i, j) denote. */
  function HexVal(s: string, i: nat, j: nat): nat
    requires HexDigits(s, i, j)
  {
    if i == j then 0 else 16 * HexVal(s, i, j - 1) + HexDigit(s[j - 1])
  }

  lemma {:induction false} HexValBound(s: string, i: nat, j: nat)
    requires HexDigits(s, i, j)
    ensures HexVal(s, i, j) < Pow2(4 * (j - i))
    decreases j
  {
    if i < j {
      HexValBound(s, i, j - 1);
      Nibble(0, 4 * (j - 1 - i));
    }
  }

  lemma Nibble(x: nat, n: nat)
    ensures Pow2(4 + n) == 16 * Pow2(n)
    ensures Times(x, 4) == 16 * x
  {
    assert Pow2(4) == 16;
    Pow2Add(4, n);
    TimesIsMul(Pow2(n), 4);
    TimesIsMul(x, 4);
  }

  // ---------------------------------------------------------------------------
  // What a text denotes
  // ---------------------------------------------------------------------------

  /** The conversions of the C library: bits of a `float` or a `double`, or a 64-bit integer, when the
      whole text was consumed. */
  datatype Libc = Libc(float: string -> Option<u64>, double: string -> Option<u64>, ull: string -> Option<u64>)

  predicate IsBlank(c: char)
  {
    c == ' ' || c == '\t'
  }

  /** The text is `-1` or `~0` between blanks. */
  ghost predicate MeansAllOnes(text: string)
  {
    exists p: nat :: AllOnesAt(text, p)
  }

  predicate AllOnesAt(text: string, p: nat)
  {
    && p + 2 <= |text|
    && ((text[p] == '-' && text[p + 1] == '1') || (text[p] == '~' && text[p + 1] == '0'))
    && (forall k | 0 <= k < p :: IsBlank(text[k]))
    && (forall k | p + 2 <= k < |text| :: IsBlank(text[k]))
  }

  predicate LooksHex(text: string)
  {
    |text| > 2 && text[0] == '0' && (text[1] == 'x' || text[1] == 'X')
  }

  function MaxDigits(bitSize: nat): nat
  {
    if bitSize == 0 || bitSize >= 128 then 32 else (bitSize + 3) / 4
  }

  function Width(bitSize: nat): (w: nat)
    ensures 1 <= w <= 128
  {
    if bitSize == 0 || bitSize >= 128 then 128 else bitSize
  }

  /** The bits a text denotes for a register of the given format and size. */
  ghost function Denoted(text: string, fmt: RegisterFormat, bitSize: nat, libc: Libc): Option<nat>
  {
    if text == [] then None
    else if fmt.F32? then Raw(libc.float(text))
    else if fmt.F64? then Raw(libc.double(text))
    else if MeansAllOnes(text) then Some(Pow2(Width(bitSize)) - 1)
    else if LooksHex(text) then
      if |text| - 2 <= MaxDigits(bitSize) && HexDigits(text, 2, |text|)
      then Some(Rem(HexVal(text, 2, |text|), Width(bitSize)))
      else None
    else
      match libc.ull(text)
      case None => None
      case Some(v) => Some(Rem(v, Width(bitSize)))
  }

  function Raw(r: Option<u64>): Option<nat>
  {
    match r
    case None => None
    case Some(v) => Some(v)
  }

  // ---------------------------------------------------------------------------
  // The parser
  // ---------------------------------------------------------------------------

  /** Parsing is exact: the result is what the text denotes, and the overflow test of the hex loop
      never fires. */
  method ParseRegisterValue(text: string, fmt: RegisterFormat, bitSize: nat, libc: Libc) returns (r: Option<nat>)
    ensures r == Denoted(text, fmt, bitSize, libc)
  {
    if text == [] {
      return None;
    }
    if fmt.F32? || fmt.F64? {
      return Raw(if fmt.F32? then libc.float(text) else libc.double(text));
    }
    var allOnes := TrimmedAllOnes(text);
    if allOnes {
      var ones := AllOnes(bitSize, 128);
      return Some(ones);
    }
    if LooksHex(text) {
      r := ParseHex(text, bitSize, 128);
      return;
    }
    match libc.ull(text) {
      case None => return None;
      case Some(v64) =>
        var bits := LowBits(v64, bitSize, 128);
        return Some(bits);
    }
  }

  /** All bits of a register set, in a word of `w` bits. */
  method AllOnes(bitSize: nat, w: nat) returns (ones: nat)
    requires w == 128
    ensures ones == Pow2(Width(bitSize)) - 1
  {
    if bitSize == 0 || bitSize >= w {
      return Not(0, w);
    }
    ones := Ones(bitSize, w);
  }

  /** The bits of a 64-bit integer a register takes, in a word of `w` bits. */
  method LowBits(v: u64, bitSize: nat, w: nat) returns (bits: nat)
    requires w == 128
    ensures bits == Rem(v, Width(bitSize))
  {
    if 0 < bitSize < w {
      MaskIsRem(v, bitSize);
      return And(v, Ones(bitSize, w));
    }
    WordFits(v, 64, w);
    bits := v;
  }

  lemma WordFits(v: u64, k: nat, w: nat)
    requires k == 64 && k <= w
    ensures Rem(v, w) == v
  {
    Pow2Values();
    Pow2Grows(k, w);
    RemSmall(v, w);
  }

  /** Cuts blanks off both ends and compares what is left. */
  method TrimmedAllOnes(text: string) returns (r: bool)
    ensures r == MeansAllOnes(text)
  {
    var p := 0;
    while p < |text| && IsBlank(text[p])
      invariant p <= |text|
      invariant forall k | 0 <= k < p :: IsBlank(text[k])
    {
      p := p + 1;
    }
    var e := |text|;
    while e > p && IsBlank(text[e - 1])
      invariant p <= e <= |text|
      invariant forall k | e <= k < |text| :: IsBlank(text[k])
    {
      e := e - 1;
    }
    r := text[p..e] == "-1" || text[p..e] == "~0";
    if r {
      assert text[p..e][0] == text[p] && text[p..e][1] == text[p + 1];
      assert AllOnesAt(text, p);
    }
    forall p': nat | AllOnesAt(text, p')
      ensures r
    {
      assert !IsBlank(text[p']) && !IsBlank(text[p' + 1]);
      assert p' == p && e == p + 2;
      assert text[p..e] == [text[p], text[p + 1]];
    }
  }

  /** The hex path: the digit bound, the loop, and the final mask. */
  method ParseHex(text: string, bitSize: nat, w: nat) returns (r: Option<nat>)
    requires LooksHex(text) && w == 128
    ensures r == if |text| - 2 <= MaxDigits(bitSize) && HexDigits(text, 2, |text|)
                 then Some(Rem(HexVal(text, 2, |text|), Width(bitSize)))
                 else None
  {
    var ndigits := |text| - 2;
    var maxd := if bitSize == 0 || bitSize >= w then 32 else (bitSize + 3) / 4;
    if ndigits > maxd {
      return None;
    }
    var digits := ParseDigits(text, w);
    match digits {
      case None => return None;
      case Some(v) =>
        if 0 < bitSize < w {
          MaskIsRem(v, bitSize);
          return Some(And(v, Ones(bitSize, w)));
        }
        return Some(v);
    }
  }

  /** The hex loop on a word of `w` bits. */
  method ParseDigits(text: string, w: nat) returns (r: Option<nat>)
    requires |text| > 2 && 4 * (|text| - 2) <= w
    ensures r == if HexDigits(text, 2, |text|) then Some(HexVal(text, 2, |text|)) else None
    ensures r.Some? ==> Rem(r.value, w) == r.value
  {
    var v: nat := 0;
    for i := 2 to |text|
      invariant HexDigits(text, 2, i) && v == HexVal(text, 2, i)
    {
      var c := text[i];
      HexFits(text, i, w - 4);
      // An invalid digit ends the scan. The test that four more bits still fit never does.
      if !IsHexDigit(c) || Quot(v, w - 4) != 0 {
        return None;
      }
      AppendNibble(v, HexDigit(c), w);
      v := Or(Shl(v, 4, w), HexDigit(c));
    }
    HexFits(text, |text|, w);
    r := Some(v);
  }

  lemma HexFits(text: string, i: nat, w: nat)
    requires 2 <= i && HexDigits(text, 2, i) && 4 * (i - 2) <= w
    ensures HexVal(text, 2, i) < Pow2(w)
    ensures Quot(HexVal(text, 2, i), w) == 0 && Rem(HexVal(text, 2, i), w) == HexVal(text, 2, i)
  {
    HexValBound(text, 2, i);
    Pow2Grows(4 * (i - 2), w);
    RemSmall(HexVal(text, 2, i), w);
  }

  lemma AppendNibble(v: nat, d: nat, w: nat)
    requires w >= 4 && v < Pow2(w - 4) && d < 16
    ensures Or(Shl(v, 4, w), d) == 16 * v + d
  {
    Nibble(v, 0);
    JoinParts(d, v, 4, w);
  }

  /** The final mask changes no accepted number exactly for the widths divisible by four. */
  lemma MaskDropsNothingIff(bitSize: nat)
    requires 1 <= bitSize < 128
    ensures (forall text | LooksHex(text) && HexDigits(text, 2, |text|) && |text| - 2 <= MaxDigits(bitSize) ::
               Rem(HexVal(text, 2, |text|), bitSize) == HexVal(text, 2, |text|))
            <==> bitSize % 4 == 0
  {
    if bitSize % 4 == 0 {
      forall text | LooksHex(text) && HexDigits(text, 2, |text|) && |text| - 2 <= MaxDigits(bitSize)
        ensures Rem(HexVal(text, 2, |text|), bitSize) == HexVal(text, 2, |text|)
      {
        HexValBound(text, 2, |text|);
        Pow2Grows(4 * (|text| - 2), bitSize);
        RemSmall(HexVal(text, 2, |text|), bitSize);
      }
    } else {
      var n := MaxDigits(bitSize);
      var text := "0x" + seq(n, _ => 'f');
      AllFs(text, n + 2);
      Pow2Grows(bitSize + 1, 4 * n);
      RemBound(HexVal(text, 2, |text|), bitSize);
      assert Rem(HexVal(text, 2, |text|), bitSize) != HexVal(text, 2, |text|);
    }
  }

  lemma {:induction false} AllFs(text: string, j: nat)
    requires 2 <= j <= |text| && forall k | 2 <= k < j :: text[k] == 'f'
    ensures HexDigits(text, 2, j) && HexVal(text, 2, j) == Pow2(4 * (j - 2)) - 1
  {
    if j > 2 {
      AllFs(text, j - 1);
      Nibble(0, 4 * (j - 3));
    }
  }

  // ---------------------------------------------------------------------------
  // The printer
  // ---------------------------------------------------------------------------

  const HEX_DIGITS := "0123456789abcdef"

  /** The hex digits of a number, without leading zeros. */
  function HexString(v: nat): (s: string)
    ensures |s| >= 1
  {
    if v < 16 then [HEX_DIGITS[v]] else HexString(v / 16) + [HEX_DIGITS[v % 16]]
  }

  /** `0x` and the digits, padded on the left with zeros to a width. */
  function FormatHex(v: u64, width: nat): (s: string)
    ensures |s| >= 3 && LooksHex(s)
  {
    var digits := HexString(v);
    "0x" + (if |digits| < width then seq(width - |digits|, _ => '0') else []) + digits
  }

  lemma DigitBack(d: nat)
    requires d < 16
    ensures IsHexDigit(HEX_DIGITS[d]) && HexDigit(HEX_DIGITS[d]) == d
  {
  }

  /** Zeros, then the digits of `v`, from index `i` to the end of the text: they denote `v`. */
  lemma {:induction false} HexStringVal(text: string, i: nat, j: nat, z: nat, v: nat)
    requires i <= z && z + |HexString(v)| == j <= |text|
    requires forall k | i <= k < z :: text[k] == '0'
    requires forall k | 0 <= k < |HexString(v)| :: text[z + k] == HexString(v)[k]
    ensures HexDigits(text, i, j) && HexVal(text, i, j) == v
    decreases v
  {
    var s := HexString(v);
    var last := |s| - 1;
    assert text[j - 1] == s[last];
    if v < 16 {
      DigitBack(v);
      LeadingZeros(text, i, z);
    } else {
      DigitBack(v % 16);
      assert forall k | 0 <= k < last :: HexString(v / 16)[k] == s[k];
      HexStringVal(text, i, j - 1, z, v / 16);
    }
  }

  lemma {:induction false} LeadingZeros(text: string, i: nat, z: nat)
    requires i <= z <= |text| && forall k | i <= k < z :: text[k] == '0'
    ensures HexDigits(text, i, z) && HexVal(text, i, z) == 0
    decreases z
  {
    if i < z {
      LeadingZeros(text, i, z - 1);
    }
  }

  /** A number below `2^n` has at most `ceil(n/4)` digits. */
  lemma {:induction false} HexStringLength(v: nat, n: nat)
    requires v < Pow2(n) && n >= 1
    ensures |HexString(v)| <= (n + 3) / 4
    decreases v
  {
    if v >= 16 {
      if n < 4 {
        Pow2Grows(n, 4);
        Pow2Values();
        assert false;
      } else {
        Nibble(0, n - 4);
        assert v / 16 < Pow2(n - 4);
        HexStringLength(v / 16, n - 4);
      }
    }
  }

  /** The hex digits are those of the printer, in either case, with the values they have there. */
  lemma HexDigitIs(c: char, d: nat)
    requires d < 16
    ensures IsHexDigit(c) && HexDigit(c) == d <==> c == "0123456789abcdef"[d] || c == "0123456789ABCDEF"[d]
  {
  }

  /** The text is a `0x` or `0X` with at least one character behind. */
  lemma LooksHexIs(text: string)
    ensures LooksHex(text) <==> exists rest :: rest != "" && (text == "0x" + rest || text == "0X" + rest)
  {
    if LooksHex(text) {
      assert text == text[..2] + text[2..];
      assert text[..2] == "0x" || text[..2] == "0X";
      assert text[2..] != "";
    }
  }

  predicate Blanks(s: string)
  {
    forall k | 0 <= k < |s| :: s[k] in " \t"
  }

  ghost predicate Between(text: string, word: string)
  {
    exists before, after :: Blanks(before) && Blanks(after) && text == before + word + after
  }

  /** The texts for all ones, letter by letter. */
  lemma AllOnesIs(text: string)
    ensures MeansAllOnes(text) <==> Between(text, "-1") || Between(text, "~0")
  {
    if MeansAllOnes(text) {
      var p: nat :| AllOnesAt(text, p);
      var before, word, after := text[..p], text[p..p + 2], text[p + 2..];
      assert text == before + word + after;
      assert Blanks(before) && Blanks(after);
      assert word == "-1" || word == "~0";
    }
    forall before, after, word | Blanks(before) && Blanks(after) && text == before + word + after
                                 && (word == "-1" || word == "~0")
      ensures AllOnesAt(text, |before|)
    {
      WordAt(before, word, after);
    }
  }

  lemma WordAt(before: string, word: string, after: string)
    requires Blanks(before) && Blanks(after) && (word == "-1" || word == "~0")
    ensures AllOnesAt(before + word + after, |before|)
  {
  }

  predicate IntegerFormat(fmt: RegisterFormat)
  {
    !fmt.F32? && !fmt.F64?
  }

  /** Printing and parsing: the value comes back exactly when the padding stays within the digit bound
      of the register. */
  lemma PrintParse(v: u64, width: nat, fmt: RegisterFormat, bitSize: nat, libc: Libc)
    requires IntegerFormat(fmt) && bitSize >= 1 && v < Pow2(bitSize)
    ensures Denoted(FormatHex(v, width), fmt, bitSize, libc) == Some(v) <==> width <= MaxDigits(bitSize)
  {
    var text, digits := FormatHex(v, width), HexString(v);
    NotAllOnes(text);
    var z := if |digits| < width then 2 + width - |digits| else 2;
    HexStringVal(text, 2, |text|, z, v);
    if bitSize < 128 {
      HexStringLength(v, bitSize);
      RemSmall(v, bitSize);
    } else {
      WordLength(v, 64);
      WordFits(v, 64, 128);
    }
  }

  /** For an integer register a text of hex digits denotes something exactly when it has at most 32 digits,
      for a register of 128 bits, and no more than the width needs, for a narrower one. */
  lemma HexAcceptedIff(text: string, fmt: RegisterFormat, bitSize: nat, libc: Libc)
    requires IntegerFormat(fmt) && LooksHex(text) && HexDigits(text, 2, |text|)
    ensures Denoted(text, fmt, bitSize, libc).Some? <==>
            if bitSize == 0 || bitSize >= 128 then |text| - 2 <= 32 else 4 * (|text| - 2) < bitSize + 4
  {
    NotAllOnes(text);
  }

  /** Every value of a register, 128-bit ones included, is denoted by its hex digits. */
  lemma EveryValueDenoted(v: nat, fmt: RegisterFormat, bitSize: nat, libc: Libc)
    requires IntegerFormat(fmt)
    requires if bitSize == 0 || bitSize >= 128 then v < Pow2(128) else v < Pow2(bitSize)
    ensures Denoted("0x" + HexString(v), fmt, bitSize, libc) == Some(v)
  {
    var w := if bitSize == 0 || bitSize >= 128 then 128 else bitSize;
    HexStringLength(v, w);
    RemSmall(v, w);
    Prefixed(v);
    HexAcceptedIff("0x" + HexString(v), fmt, bitSize, libc);
    DigitsDenote("0x" + HexString(v), v, fmt, bitSize, libc);
  }

  lemma Prefixed(v: nat)
    ensures var text := "0x" + HexString(v);
            LooksHex(text) && |text| == 2 + |HexString(v)| && HexDigits(text, 2, |text|) && HexVal(text, 2, |text|) == v
  {
    var text := "0x" + HexString(v);
    HexStringVal(text, 2, |text|, 2, v);
  }

  lemma DigitsDenote(text: string, v: nat, fmt: RegisterFormat, bitSize: nat, libc: Libc)
    requires IntegerFormat(fmt) && LooksHex(text) && HexDigits(text, 2, |text|) && HexVal(text, 2, |text|) == v
    requires Denoted(text, fmt, bitSize, libc).Some?
    ensures Denoted(text, fmt, bitSize, libc)
            == Some(Rem(v, if bitSize == 0 || bitSize >= 128 then 128 else bitSize))
  {
    NotAllOnes(text);
  }

  /** A text that looks like a hex number but is none denotes nothing. */
  lemma BadDigitRejected(text: string, fmt: RegisterFormat, bitSize: nat, libc: Libc, k: nat)
    requires IntegerFormat(fmt) && LooksHex(text) && 2 <= k < |text| && !IsHexDigit(text[k])
    ensures Denoted(text, fmt, bitSize, libc).None?
  {
    NotAllOnes(text);
  }

  /** The printer: `0x`, zeros up to the width, and the digits in lower case without leading zeros. */
  lemma FormatHexShape(v: u64, width: nat)
    ensures var text, n := FormatHex(v, width), |HexString(v)|;
            && text[0] == '0' && text[1] == 'x' && |text| == 2 + (if n < width then width else n)
            && (forall k | 2 <= k < |text| :: '0' <= text[k] <= '9' || 'a' <= text[k] <= 'f')
            && (forall k | 2 <= k < |text| - n :: text[k] == '0')
            && (v > 0 ==> text[|text| - n] != '0')
  {
    LowerCase(v);
  }

  lemma {:induction false} LowerCase(v: nat)
    ensures forall k | 0 <= k < |HexString(v)| :: '0' <= HexString(v)[k] <= '9' || 'a' <= HexString(v)[k] <= 'f'
    ensures v > 0 ==> HexString(v)[0] != '0'
    decreases v
  {
    if v >= 16 {
      LowerCase(v / 16);
    }
  }

  lemma WordLength(v: u64, k: nat)
    requires k == 64
    ensures |HexString(v)| <= 16
  {
    Pow2Values();
    HexStringLength(v, k);
  }

  lemma NotAllOnes(text: string)
    requires LooksHex(text)
    ensures !MeansAllOnes(text)
  {
    forall p: nat
      ensures !AllOnesAt(text, p)
    {
      assert !IsBlank(text[0]);
    }
  }
}
