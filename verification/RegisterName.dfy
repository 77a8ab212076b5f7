/** The parser of subregister names: wN, sN, dN, vN.4s[k], vN.2d[k] (src/register_name.cpp).
    A string_view into a name is the name with two bounds. */
module RegisterName {

  datatype Kind = None | Wn | Sn | Dn | V4sLane | V2dLane

  datatype SubregisterSpec = SubregisterSpec(kind: Kind, n: nat, lane: nat)

  const NO_SPEC := SubregisterSpec(None, 0, 0)

  // ---------------------------------------------------------------------------
  // Decimal numbers
  // ---------------------------------------------------------------------------

  predicate IsDigit(c: char)
  {
    '0' <= c <= '9'
  }

  /** The characters [i, j) are digits. */
  predicate Digits(s: string, i: nat, j: nat)
  {
    i <= j <= |s| && forall k | i <= k < j :: IsDigit(s[k])
  }

  /** The number they denote. */
  function Val(s: string, i: nat, j: nat): nat
    requires Digits(s, i, j)
  {
    if i == j then 0 else 10 * Val(s, i, j - 1) + (s[j - 1] - '0') as nat
  }

  /** A value of the C type `int`. */
  type int32 = x: int | -0x8000_0000 <= x < 0x8000_0000

  /** The digits of [i, j), up to the first other character, denote an `int`; on longer runs the
      accumulation overflows, which C leaves undefined. */
  predicate RunFits(s: string, i: nat, j: nat)
    requires j <= |s|
  {
    forall k | i <= k <= j && Digits(s, i, k) :: Val(s, i, k) < 0x8000_0000
  }

  method ParseIndex(s: string, i: nat, j: nat) returns (r: int32)
    requires i <= j <= |s| && RunFits(s, i, j)
    ensures r == if i < j && Digits(s, i, j) then Val(s, i, j) else -1
  {
    if i == j {
      return -1;
    }
    var v: int32 := 0;
    for k := i to j
      invariant Digits(s, i, k) && v == Val(s, i, k)
    {
      if !IsDigit(s[k]) {
        return -1;
      }
      assert Digits(s, i, k + 1);
      v := v * 10 + (s[k] - '0') as int;
    }
    return v;
  }

  lemma {:induction false} ValSame(a: string, b: string, i: nat, j: nat)
    requires Digits(a, i, j) && j <= |b| && forall k | i <= k < j :: a[k] == b[k]
    ensures Digits(b, i, j) && Val(a, i, j) == Val(b, i, j)
    decreases j
  {
    if i < j {
      ValSame(a, b, i, j - 1);
    }
  }

  // ---------------------------------------------------------------------------
  // The language
  // ---------------------------------------------------------------------------

  /** A letter followed by the digits of `n`; leading zeros are allowed. */
  predicate Numbered(name: string, letter: char, n: nat)
  {
    |name| >= 2 && name[0] == letter && Digits(name, 1, |name|) && Val(name, 1, |name|) == n
  }

  /** The four characters `.4s[` or `.2d[`. */
  predicate TagAt(name: string, p: nat, count: char, letter: char)
  {
    p + 4 <= |name| && name[p] == '.' && name[p + 1] == count && name[p + 2] == letter && name[p + 3] == '['
  }

  /** `v`, the digits of `n` up to index `p`, the tag, the digits of the lane up to index `q`, and a
      closing bracket there. Whatever follows is free. */
  predicate Lane(name: string, p: nat, q: nat, kind: Kind, n: nat, lane: nat)
  {
    && 1 < p && p + 4 < q < |name|
    && name[0] == 'v'
    && Digits(name, 1, p) && Val(name, 1, p) == n
    && (if kind.V4sLane? then TagAt(name, p, '4', 's') else TagAt(name, p, '2', 'd'))
    && Digits(name, p + 4, q) && Val(name, p + 4, q) == lane
    && name[q] == ']'
  }

  predicate IsLane(kind: Kind)
  {
    kind.V4sLane? || kind.V2dLane?
  }

  ghost predicate InLanguage(name: string, spec: SubregisterSpec)
  {
    match spec.kind
    case None => false
    case Wn => spec.n <= 30 && spec.lane == 0 && Numbered(name, 'w', spec.n)
    case Sn => spec.n <= 31 && spec.lane == 0 && Numbered(name, 's', spec.n)
    case Dn => spec.n <= 31 && spec.lane == 0 && Numbered(name, 'd', spec.n)
    case V4sLane => spec.n <= 31 && spec.lane <= 3
                    && exists p: nat, q: nat :: Lane(name, p, q, V4sLane, spec.n, spec.lane)
    case V2dLane => spec.n <= 31 && spec.lane <= 1
                    && exists p: nat, q: nat :: Lane(name, p, q, V2dLane, spec.n, spec.lane)
  }

  /** The meaning of a name: its specification, or none. */
  ghost function Meaning(name: string): SubregisterSpec
  {
    if exists spec :: InLanguage(name, spec) then
      var spec :| InLanguage(name, spec); spec
    else NO_SPEC
  }

  /** No name has two meanings. */
  lemma Unambiguous(name: string, a: SubregisterSpec, b: SubregisterSpec)
    requires InLanguage(name, a) && InLanguage(name, b)
    ensures a == b
  {
    if IsLane(a.kind) && IsLane(b.kind) {
      var p: nat, q: nat :| Lane(name, p, q, a.kind, a.n, a.lane);
      var p': nat, q': nat :| Lane(name, p', q', b.kind, b.n, b.lane);
      OneRunEnd(name, 1, p, p');
      OneRunEnd(name, p + 4, q, q');
    }
  }

  lemma MeaningIs(name: string, spec: SubregisterSpec)
    requires InLanguage(name, spec)
    ensures Meaning(name) == spec
  {
    Unambiguous(name, Meaning(name), spec);
  }

  /** Whatever follows the first closing bracket is ignored. */
  lemma TailIgnored(name: string, q: nat, tail: string)
    requires q < |name| && name[q] == ']' && ']' !in name[..q]
    ensures Meaning(name) == Meaning(name[..q + 1] + tail)
  {
    var other := name[..q + 1] + tail;
    assert forall k | 0 <= k < q :: name[k] == name[..q][k];
    forall spec
      ensures InLanguage(name, spec) <==> InLanguage(other, spec)
    {
      if InLanguage(name, spec) {
        SameUpToBracket(name, other, q, spec);
      }
      if InLanguage(other, spec) {
        SameUpToBracket(other, name, q, spec);
      }
    }
    if exists spec :: InLanguage(name, spec) {
      var spec :| InLanguage(name, spec);
      MeaningIs(name, spec);
      MeaningIs(other, spec);
    }
  }

  lemma SameUpToBracket(name: string, other: string, q: nat, spec: SubregisterSpec)
    requires InLanguage(name, spec)
    requires q < |name| && q < |other| && name[q] == ']'
    requires forall k | 0 <= k <= q :: name[k] == other[k]
    requires forall k | 0 <= k < q :: name[k] != ']'
    ensures InLanguage(other, spec)
  {
    assert !IsDigit(name[q]);
    if IsLane(spec.kind) {
      var p: nat, r: nat :| Lane(name, p, r, spec.kind, spec.n, spec.lane);
      assert r == q;
      ValSame(name, other, 1, p);
      ValSame(name, other, p + 4, r);
      assert Lane(other, p, r, spec.kind, spec.n, spec.lane);
    }
  }

  // ---------------------------------------------------------------------------
  // The scanner
  // ---------------------------------------------------------------------------

  /** `p` is where the run of digits from `start` on ends. */
  predicate RunEnd(name: string, start: nat, p: nat)
  {
    Digits(name, start, p) && (p < |name| ==> !IsDigit(name[p]))
  }

  /** The numbers the scanner converts fit an `int`: the one after the letter, and the lane of a name
      that comes so far. */
  predicate RunsFit(name: string)
  {
    |name| >= 2 && IsDigit(name[1]) ==>
      && (name[0] == 'w' || name[0] == 's' || name[0] == 'd' ==> RunFits(name, 1, |name|))
      && (name[0] == 'v' ==> forall p | 1 <= p <= |name| && RunEnd(name, 1, p) ::
            RunFits(name, 1, p) && (Val(name, 1, p) <= 31 && Tagged(name, p) ==> LaneFits(name, p + 4)))
  }

  predicate Tagged(name: string, p: nat)
  {
    TagAt(name, p, '4', 's') || TagAt(name, p, '2', 'd')
  }

  predicate LaneFits(name: string, start: nat)
    requires start <= |name|
  {
    forall q | start <= q <= |name| && RunEnd(name, start, q) :: RunFits(name, start, q)
  }

  /** Advances a cursor over a run of digits. */
  method SkipDigits(name: string, start: nat) returns (p: nat)
    requires start <= |name|
    ensures RunEnd(name, start, p)
  {
    p := start;
    while p < |name| && IsDigit(name[p])
      invariant Digits(name, start, p)
    {
      p := p + 1;
    }
  }

  /** The scanner accepts exactly the names of the language and returns their meaning. */
  method ParseSubregisterName(name: string) returns (spec: SubregisterSpec)
    requires RunsFit(name)
    ensures spec == Meaning(name)
    ensures !spec.kind.None? ==> InLanguage(name, spec)
    ensures spec.kind.None? ==> forall s :: !InLanguage(name, s)
  {
    spec := NO_SPEC;
    if name == [] {
      return;
    }
    if |name| >= 2 && name[0] == 'w' && IsDigit(name[1]) {
      var n := ParseIndex(name, 1, |name|);
      if n >= 0 && n <= 30 {
        spec := SubregisterSpec(Wn, n, 0);
      }
    } else if |name| >= 2 && (name[0] == 's' || name[0] == 'd') && IsDigit(name[1]) {
      var n := ParseIndex(name, 1, |name|);
      if n >= 0 && n <= 31 {
        spec := SubregisterSpec(if name[0] == 's' then Sn else Dn, n, 0);
      }
    } else if |name| >= 2 && name[0] == 'v' && IsDigit(name[1]) {
      spec := ParseLane(name);
    }
    if !spec.kind.None? {
      MeaningIs(name, spec);
    }
  }

  /** Any lane form of the name starts its tag where the first run of digits ends. */
  lemma LaneStart(name: string, s: SubregisterSpec, p: nat)
    requires InLanguage(name, s) && IsLane(s.kind) && RunEnd(name, 1, p)
    ensures 1 < p && Val(name, 1, p) == s.n
    ensures if s.kind.V4sLane? then TagAt(name, p, '4', 's') else TagAt(name, p, '2', 'd')
  {
    var p': nat, q': nat :| Lane(name, p', q', s.kind, s.n, s.lane);
    TagIsNoDigit(name, p', s.kind);
    OneRunEnd(name, 1, p, p');
  }

  lemma TagIsNoDigit(name: string, p: nat, kind: Kind)
    requires if kind.V4sLane? then TagAt(name, p, '4', 's') else TagAt(name, p, '2', 'd')
    ensures p < |name| && !IsDigit(name[p])
  {
  }

  /** It closes where the second one ends. */
  lemma LaneEnd(name: string, s: SubregisterSpec, p: nat, q: nat)
    requires InLanguage(name, s) && IsLane(s.kind) && RunEnd(name, 1, p) && RunEnd(name, p + 4, q)
    ensures p + 4 < q < |name| && name[q] == ']' && Val(name, p + 4, q) == s.lane
  {
    var p': nat, q': nat :| Lane(name, p', q', s.kind, s.n, s.lane);
    TagIsNoDigit(name, p', s.kind);
    OneRunEnd(name, 1, p, p');
    OneRunEnd(name, p + 4, q, q');
  }

  lemma OneRunEnd(name: string, start: nat, p: nat, q: nat)
    requires RunEnd(name, start, p) && RunEnd(name, start, q)
    ensures p == q
  {
    assert p < |name| ==> !IsDigit(name[p]);
    assert q < |name| ==> !IsDigit(name[q]);
  }

  method ParseLane(name: string) returns (spec: SubregisterSpec)
    requires RunsFit(name)
    requires |name| >= 2 && name[0] == 'v' && IsDigit(name[1])
    ensures !spec.kind.None? ==> InLanguage(name, spec)
    ensures spec.kind.None? ==> spec == NO_SPEC && forall s :: !InLanguage(name, s)
  {
    spec := NO_SPEC;
    var p := SkipDigits(name, 1);
    ghost var start := p;
    forall s | InLanguage(name, s)
      ensures IsLane(s.kind) && 1 < start && Val(name, 1, start) == s.n
      ensures if s.kind.V4sLane? then TagAt(name, start, '4', 's') else TagAt(name, start, '2', 'd')
    {
      LaneStart(name, s, start);
    }
    var n := ParseIndex(name, 1, p);
    if n < 0 || n > 31 {
      return;
    }
    if p >= |name| || name[p] != '.' {
      return;
    }
    p := p + 1;
    var is4s := false;
    if p + 1 < |name| && name[p] == '4' && name[p + 1] == 's' {
      is4s := true;
      p := p + 2;
    } else if p + 1 < |name| && name[p] == '2' && name[p + 1] == 'd' {
      p := p + 2;
    } else {
      return;
    }
    if p >= |name| || name[p] != '[' {
      return;
    }
    p := p + 1;
    var laneStart := p;
    p := SkipDigits(name, laneStart);
    var lane := ParseIndex(name, laneStart, p);
    forall s | InLanguage(name, s)
      ensures s.kind == if is4s then V4sLane else V2dLane
      ensures laneStart < p < |name| && name[p] == ']' && lane == s.lane
    {
      LaneStart(name, s, start);
      LaneEnd(name, s, start, p);
    }
    if lane < 0 {
      return;
    }
    if p >= |name| || name[p] != ']' {
      return;
    }
    assert Lane(name, start, p, if is4s then V4sLane else V2dLane, n, lane);
    if is4s {
      if lane > 3 {
        return;
      }
      spec := SubregisterSpec(V4sLane, n, lane);
    } else {
      if lane > 1 {
        return;
      }
      spec := SubregisterSpec(V2dLane, n, lane);
    }
  }
}
