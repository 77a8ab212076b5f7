/** The names of subregisters, spelled out (src/register_name.cpp:39-143). */
module NameLanguage {
  import opened RegisterName
  import opened RegisterFile

  // ---------------------------------------------------------------------------
  // Numerals
  // ---------------------------------------------------------------------------

  function Zeros(z: nat): string
  {
    seq(z, _ => '0')
  }

  /** A numeral is the decimal digits of its value, with any number of zeros in front. */
  ghost predicate Spells(s: string, n: nat)
  {
    exists z: nat :: s == Zeros(z) + Decimal(n)
  }

  lemma SpellsIff(s: string, n: nat)
    ensures Spells(s, n) <==> s != "" && Digits(s, 0, |s|) && Val(s, 0, |s|) == n
  {
    if Spells(s, n) {
      var z: nat :| s == Zeros(z) + Decimal(n);
      SpelledVal(s, z, n);
    }
    if s != "" && Digits(s, 0, |s|) {
      Spelling(s);
    }
  }

  lemma SpelledVal(s: string, z: nat, n: nat)
    requires s == Zeros(z) + Decimal(n)
    ensures s != "" && Digits(s, 0, |s|) && Val(s, 0, |s|) == n
  {
    Behind(Zeros(z), Decimal(n));
    ZerosThen(s, z, Decimal(n), n);
  }

  lemma Behind(a: string, b: string)
    ensures Part(b, a + b, |a|) && forall k | 0 <= k < |a| :: (a + b)[k] == a[k]
  {
  }

  lemma ZerosThen(s: string, z: nat, digits: string, n: nat)
    requires digits == Decimal(n) && |s| == z + |digits| && Part(digits, s, z) && forall k | 0 <= k < z :: s[k] == '0'
    ensures s != "" && Digits(s, 0, |s|) && Val(s, 0, |s|) == n
  {
    PartNumber(s, z, n);
    ZerosInFront(s, z, |s|);
  }

  lemma {:induction false} ZerosInFront(s: string, z: nat, j: nat)
    requires z <= j && Digits(s, z, j) && forall k | 0 <= k < z :: s[k] == '0'
    ensures Digits(s, 0, j) && Val(s, 0, j) == Val(s, z, j)
    decreases j
  {
    if j > z {
      ZerosInFront(s, z, j - 1);
    } else if j > 0 {
      ZerosInFront(s, z - 1, j - 1);
    }
  }

  lemma {:induction false} Spelling(s: string)
    requires s != "" && Digits(s, 0, |s|)
    ensures Spells(s, Val(s, 0, |s|))
    decreases |s|
  {
    var last := |s| - 1;
    var t, d := s[..last], (s[last] - '0') as nat;
    assert s == t + Decimal(d);
    assert Val(s, 0, |s|) == 10 * Val(s, 0, last) + d;
    if last == 0 {
      assert s == Zeros(0) + Decimal(d);
    } else {
      ValSame(s, t, 0, last);
      Spelling(t);
      var m := Val(t, 0, last);
      var z: nat :| t == Zeros(z) + Decimal(m);
      Appended(s, t, z, m, d);
    }
  }

  lemma Appended(s: string, t: string, z: nat, m: nat, d: nat)
    requires d < 10 && s == t + Decimal(d) && t == Zeros(z) + Decimal(m)
    ensures Spells(s, 10 * m + d)
  {
    if m == 0 {
      assert s == Zeros(z + 1) + Decimal(d);
    } else {
      assert Decimal(10 * m + d) == Decimal(m) + Decimal(d);
      assert s == Zeros(z) + Decimal(10 * m + d);
    }
  }

  // ---------------------------------------------------------------------------
  // Names
  // ---------------------------------------------------------------------------

  /** A letter and a numeral. */
  ghost predicate Plain(name: string, letter: string, n: nat)
  {
    exists s :: Spells(s, n) && name == letter + s
  }

  /** `v`, a numeral, the tag, the numeral of the lane, a closing bracket, and anything. */
  ghost predicate Bracketed(name: string, tag: string, n: nat, lane: nat)
  {
    exists s, t, tail :: Spells(s, n) && Spells(t, lane) && name == "v" + s + tag + t + "]" + tail
  }

  /** The names of the language, letter by letter. */
  lemma LanguageIs(name: string, spec: SubregisterSpec)
    ensures InLanguage(name, spec) <==>
            match spec.kind
            case None => false
            case Wn => spec.n <= 30 && spec.lane == 0 && Plain(name, "w", spec.n)
            case Sn => spec.n <= 31 && spec.lane == 0 && Plain(name, "s", spec.n)
            case Dn => spec.n <= 31 && spec.lane == 0 && Plain(name, "d", spec.n)
            case V4sLane => spec.n <= 31 && spec.lane <= 3 && Bracketed(name, ".4s[", spec.n, spec.lane)
            case V2dLane => spec.n <= 31 && spec.lane <= 1 && Bracketed(name, ".2d[", spec.n, spec.lane)
  {
    PlainIff(name, 'w', spec.n);
    PlainIff(name, 's', spec.n);
    PlainIff(name, 'd', spec.n);
    BracketedIff(name, ".4s[", V4sLane, spec.n, spec.lane);
    BracketedIff(name, ".2d[", V2dLane, spec.n, spec.lane);
  }

  lemma PlainIff(name: string, letter: char, n: nat)
    ensures Plain(name, [letter], n) <==> Numbered(name, letter, n)
  {
    if Plain(name, [letter], n) {
      var s :| Spells(s, n) && name == [letter] + s;
      SpellsIff(s, n);
      PartVal(name, s, 1, |s|);
    }
    if Numbered(name, letter, n) {
      var s := name[1..];
      assert name == [letter] + s;
      SliceSpells(name, 1, |name|, n);
    }
  }

  /** A run of digits inside a name. */
  lemma SliceSpells(name: string, i: nat, j: nat, n: nat)
    requires i < j && Digits(name, i, j) && Val(name, i, j) == n
    ensures Spells(name[i..j], n)
  {
    var s := name[i..j];
    PartVal(name, s, i, |s|);
    SpellsIff(s, n);
  }

  predicate IsTag(tag: string, kind: Kind)
  {
    (tag == ".4s[" && kind.V4sLane?) || (tag == ".2d[" && kind.V2dLane?)
  }

  lemma BracketedIff(name: string, tag: string, kind: Kind, n: nat, lane: nat)
    requires IsTag(tag, kind)
    ensures Bracketed(name, tag, n, lane) <==> exists p: nat, q: nat :: Lane(name, p, q, kind, n, lane)
  {
    if Bracketed(name, tag, n, lane) {
      var s, t, tail :| Spells(s, n) && Spells(t, lane) && name == "v" + s + tag + t + "]" + tail;
      LaneChars(s, tag, t, tail);
      LaneOfParts(name, s, tag, t, kind, n, lane);
    }
    if exists p: nat, q: nat :: Lane(name, p, q, kind, n, lane) {
      var p: nat, q: nat :| Lane(name, p, q, kind, n, lane);
      PartsOfLane(name, p, q, tag, kind, n, lane);
    }
  }

  lemma LaneChars(s: string, tag: string, t: string, tail: string)
    requires |tag| == 4
    ensures var name, p := "v" + s + tag + t + "]" + tail, 1 + |s|;
            && p + 4 + |t| < |name| && name[0] == 'v' && name[p + 4 + |t|] == ']'
            && Part(s, name, 1) && Part(tag, name, p) && Part(t, name, p + 4)
  {
  }

  lemma LaneOfParts(name: string, s: string, tag: string, t: string, kind: Kind, n: nat, lane: nat)
    requires IsTag(tag, kind) && Spells(s, n) && Spells(t, lane)
    requires var p := 1 + |s|;
             && p + 4 + |t| < |name| && name[0] == 'v' && name[p + 4 + |t|] == ']'
             && Part(s, name, 1) && Part(tag, name, p) && Part(t, name, p + 4)
    ensures Lane(name, 1 + |s|, 5 + |s| + |t|, kind, n, lane)
  {
    var p := 1 + |s|;
    SpellsIff(s, n);
    SpellsIff(t, lane);
    PartVal(name, s, 1, |s|);
    PartVal(name, t, p + 4, |t|);
    assert name[p + 0] == tag[0] && name[p + 1] == tag[1] && name[p + 2] == tag[2] && name[p + 3] == tag[3];
  }

  lemma PartsOfLane(name: string, p: nat, q: nat, tag: string, kind: Kind, n: nat, lane: nat)
    requires IsTag(tag, kind) && Lane(name, p, q, kind, n, lane)
    ensures Bracketed(name, tag, n, lane)
  {
    var s, t, tail := name[1..p], name[p + 4..q], name[q + 1..];
    SliceSpells(name, 1, p, n);
    SliceSpells(name, p + 4, q, lane);
    CutAt(name, p, q);
    assert name[..1] == "v" && name[p..p + 4] == tag && name[q..q + 1] == "]";
  }

  lemma CutAt(name: string, p: nat, q: nat)
    requires 1 <= p && p + 4 <= q < |name|
    ensures name == name[..1] + name[1..p] + name[p..p + 4] + name[p + 4..q] + name[q..q + 1] + name[q + 1..]
  {
  }
}
