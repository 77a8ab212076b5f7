/** Tracee memory, read and written one 8-byte word at a time (src/process.cpp:311-336), and the
    pattern that software breakpoints lay over it (src/breakpoints.cpp:36-87, 144-155, 240). */
module Memory {
  import opened Bits
  import opened LittleEndian

  /** The mapped bytes of a tracee. */
  type Mem = map<int, byte>

  const WORD: int := 8

  /** The word written over a breakpoint site: `brk #0` and, in its upper half, a zeroed instruction. */
  const TRAP: u64 := 0xd420_0000

  predicate InWindow(a: int, x: int)
  {
    a <= x < a + WORD
  }

  /** The addresses of a window. */
  function Window(a: int): set<int>
  {
    set x | a <= x < a + WORD && InWindow(a, x)
  }

  predicate Mapped(m: Mem, a: int)
  {
    Window(a) <= m.Keys
  }

  function WindowBytes(m: Mem, a: int): (bs: seq<byte>)
    requires Mapped(m, a)
    ensures |bs| == 8
  {
    seq(8, i requires 0 <= i < 8 && Mapped(m, a) => ByteIn(m, a, i))
  }

  function ByteIn(m: Mem, a: int, i: int): byte
    requires Mapped(m, a) && 0 <= i < WORD
  {
    assert a + i in Window(a);
    m[a + i]
  }

  function Peek(m: Mem, a: int): (w: u64)
    requires Mapped(m, a)
  {
    var bs := WindowBytes(m, a);
    ToNatBound(bs);
    Pow2Values();
    ToNat(bs)
  }

  function ByteOf(w: u64, i: int): byte
    requires 0 <= i < WORD
  {
    FromNat(w, 8)[i]
  }

  function Poke(m: Mem, a: int, w: u64): (r: Mem)
    ensures r.Keys == m.Keys + Window(a)
    ensures forall x | x in r :: r[x] == if InWindow(a, x) then ByteOf(w, x - a) else m[x]
  {
    map x | x in m.Keys + Window(a) :: if InWindow(a, x) then ByteOf(w, x - a) else m[x]
  }

  lemma PeekBytes(m: Mem, a: int, i: int)
    requires Mapped(m, a) && 0 <= i < WORD
    ensures ByteOf(Peek(m, a), i) == m[a + i]
  {
    FromNatToNat(WindowBytes(m, a));
  }

  lemma PeekAll(m: Mem, a: int)
    requires Mapped(m, a)
    ensures forall x | InWindow(a, x) :: x in m && ByteOf(Peek(m, a), x - a) == m[x]
  {
    forall x | InWindow(a, x)
      ensures x in m && ByteOf(Peek(m, a), x - a) == m[x]
    {
      assert x in Window(a);
      PeekBytes(m, a, x - a);
    }
  }

  /** Writing back the word that was read changes nothing. */
  lemma PokePeek(m: Mem, a: int)
    requires Mapped(m, a)
    ensures Poke(m, a, Peek(m, a)) == m
  {
    forall x | InWindow(a, x)
      ensures x in m && ByteOf(Peek(m, a), x - a) == m[x]
    {
      assert x in Window(a);
      PeekBytes(m, a, x - a);
    }
  }

  /** The second of two writes to a site wins. */
  lemma PokePoke(m: Mem, a: int, v: u64, w: u64)
    ensures Poke(Poke(m, a, v), a, w) == Poke(m, a, w)
  {
  }

  lemma PokeThenPeek(m: Mem, a: int, w: u64)
    ensures Mapped(Poke(m, a, w), a) && Peek(Poke(m, a, w), a) == w
  {
    var r := Poke(m, a, w);
    assert WindowBytes(r, a) == FromNat(w, 8) by {
      forall i | 0 <= i < 8
        ensures WindowBytes(r, a)[i] == FromNat(w, 8)[i]
      {
        assert r[a + i] == ByteOf(w, i);
      }
    }
    ToNatFromNat(w, 8);
    Pow2Values();
    RemSmall(w, 64);
  }

  // ---------------------------------------------------------------------------
  // Instructions
  // ---------------------------------------------------------------------------

  predicate FetchMapped(m: Mem, pc: int)
  {
    pc in m && pc + 1 in m && pc + 2 in m && pc + 3 in m
  }

  /** The 32-bit instruction at `pc`. */
  function Fetch(m: Mem, pc: int): nat
    requires FetchMapped(m, pc)
  {
    m[pc] as nat + 0x100 * m[pc + 1] as nat + 0x1_0000 * m[pc + 2] as nat + 0x100_0000 * m[pc + 3] as nat
  }

  /** `BRK #imm` and `UDF #imm` of the A64 instruction set: both raise an exception before they have
      any effect. */
  predicate IsBrk(insn: nat)
  {
    insn / 0x20_0000 == 0x6a1 && insn % 32 == 0
  }

  predicate IsUdf(insn: nat)
  {
    insn < 0x1_0000
  }

  /** Their encodings, the immediate free: any 16 bits from bit 5 on, or in the low half. */
  lemma Encodings(insn: nat)
    ensures IsBrk(insn) <==> exists imm: nat :: imm < 0x1_0000 && insn == BrkWord(imm)
    ensures IsUdf(insn) <==> insn / 0x1_0000 == 0
  {
    if IsBrk(insn) {
      var imm := (insn - 0xd420_0000) / 32;
      assert insn == BrkWord(imm);
    }
    forall imm: nat | imm < 0x1_0000
      ensures IsBrk(BrkWord(imm))
    {
    }
  }

  function BrkWord(imm: nat): nat
  {
    0xd420_0000 + 32 * imm
  }

  /** The instruction at `pc` can be fetched, from an aligned address, and does something other than
      trap. */
  predicate CanExecute(m: Mem, pc: int)
  {
    pc % 4 == 0 && FetchMapped(m, pc) && !IsBrk(Fetch(m, pc)) && !IsUdf(Fetch(m, pc))
  }

  function TrapByte(i: int): byte
    requires 0 <= i < WORD
  {
    if i == 2 then 0x20 else if i == 3 then 0xd4 else 0
  }

  lemma TrapBytes(i: int)
    requires 0 <= i < WORD
    ensures ByteOf(TRAP, i) == TrapByte(i)
  {
    assert FromNat(TRAP, 8) == [0, 0, 0x20, 0xd4, 0, 0, 0, 0] by {
      var bs: seq<byte> := [0, 0, 0x20, 0xd4, 0, 0, 0, 0];
      TrapNumber(bs);
      FromNatToNat(bs);
    }
  }

  lemma AllTrapBytes()
    ensures forall i | 0 <= i < WORD :: ByteOf(TRAP, i) == TrapByte(i)
  {
    forall i | 0 <= i < WORD
      ensures ByteOf(TRAP, i) == TrapByte(i)
    {
      TrapBytes(i);
    }
  }

  lemma TrapPoked(m: Mem, a: int)
    ensures var r := Poke(m, a, TRAP);
            m.Keys <= r.Keys
            && forall x | x in r :: if InWindow(a, x) then r[x] == TrapByte(x - a) else x in m && r[x] == m[x]
  {
    AllTrapBytes();
  }

  lemma TrapNumber(bs: seq<byte>)
    requires bs == [0, 0, 0x20, 0xd4, 0, 0, 0, 0]
    ensures ToNat(bs) == TRAP
  {
    assert bs[4..] == [0, 0, 0, 0];
    AllZero(bs[4..]);
    ToNatConcat(bs[..4], bs[4..]);
    assert bs == bs[..4] + bs[4..];
    TimesIsMul(0, 32);
    FourBytes(bs[..4]);
  }

  lemma FourBytes(bs: seq<byte>)
    requires |bs| == 4
    ensures ToNat(bs) == bs[0] as nat + 0x100 * bs[1] as nat + 0x1_0000 * bs[2] as nat + 0x100_0000 * bs[3] as nat
  {
    assert ToNat(bs[1..]) == bs[1] + 256 * ToNat(bs[2..]) by { assert bs[1..][1..] == bs[2..]; }
    assert ToNat(bs[2..]) == bs[2] + 256 * ToNat(bs[3..]) by { assert bs[2..][1..] == bs[3..]; }
    assert ToNat(bs[3..]) == bs[3] + 256 * ToNat([]) by { assert bs[3..][1..] == []; }
  }

  /** The trap word is in place at `a`. */
  ghost predicate TrapAt(m: Mem, a: int)
  {
    forall x | InWindow(a, x) :: x in m && m[x] == TrapByte(x - a)
  }

  lemma PokeTrap(m: Mem, a: int)
    ensures TrapAt(Poke(m, a, TRAP), a)
  {
    forall x | InWindow(a, x)
      ensures ByteOf(TRAP, x - a) == TrapByte(x - a)
    {
      TrapBytes(x - a);
    }
  }

  /** At an armed site the tracee traps, and so it does at the instruction after it. */
  lemma ArmedSiteTraps(m: Mem, a: int)
    requires TrapAt(m, a)
    ensures !CanExecute(m, a) && !CanExecute(m, a + 4)
  {
    assert InWindow(a, a) && InWindow(a, a + 1) && InWindow(a, a + 2) && InWindow(a, a + 3);
    assert InWindow(a, a + 4) && InWindow(a, a + 5) && InWindow(a, a + 6) && InWindow(a, a + 7);
    assert Fetch(m, a) == 0xd420_0000 && Fetch(m, a + 4) == 0;
  }

  /** The instruction at `t` is `brk #0`. */
  predicate BrkAt(m: Mem, t: int)
  {
    && t in m && t + 1 in m && t + 2 in m && t + 3 in m
    && m[t] == 0 && m[t + 1] == 0 && m[t + 2] == 0x20 && m[t + 3] == 0xd4
  }

  lemma BrkTraps(m: Mem, a: int)
    requires BrkAt(m, a)
    ensures !CanExecute(m, a)
  {
    assert Fetch(m, a) == 0xd420_0000;
  }

  lemma TrapIsBrk(m: Mem, a: int)
    requires TrapAt(m, a)
    ensures BrkAt(m, a)
  {
    assert InWindow(a, a) && InWindow(a, a + 1) && InWindow(a, a + 2) && InWindow(a, a + 3);
  }

  // ---------------------------------------------------------------------------
  // The overlay
  // ---------------------------------------------------------------------------

  ghost predicate Covered(sites: set<u64>, x: int)
  {
    exists a | a in sites :: InWindow(a, x)
  }

  /** Windows of different sites do not meet. */
  predicate Disjoint(sites: set<u64>)
  {
    forall a, b | a in sites && b in sites && a != b :: a + WORD <= b || b + WORD <= a
  }

  ghost predicate SameWindow(m: Mem, base: Mem, a: int)
  {
    forall x | InWindow(a, x) :: x in m && x in base && m[x] == base[x]
  }

  /** `mem` is `base` with the trap word over exactly the sites of `armed`. */
  ghost predicate Laid(mem: Mem, base: Mem, armed: set<u64>)
  {
    && mem.Keys == base.Keys
    && (forall x | x in mem && !Covered(armed, x) :: mem[x] == base[x])
    && AllArmed(mem, armed)
  }

  ghost predicate AllArmed(mem: Mem, sites: set<u64>)
  {
    forall a | a in sites :: TrapAt(mem, a)
  }

  /** Every saved word is the word of the program at its site. */
  ghost predicate Saved(base: Mem, sites: map<u64, u64>)
  {
    forall a | a in sites :: Mapped(base, a) && sites[a] == Peek(base, a)
  }

  /** `base` with the trap word laid over every site. */
  ghost function Overlay(base: Mem, sites: set<u64>): Mem
  {
    map x | x in base :: OverlayByte(base, sites, x)
  }

  ghost function OverlayByte(base: Mem, sites: set<u64>, x: int): byte
    requires x in base
  {
    if Covered(sites, x) then
      var a: u64 :| a in sites && InWindow(a, x);
      TrapByte(x - a)
    else base[x]
  }

  // ---------------------------------------------------------------------------
  // What each memory operation does to the overlay
  // ---------------------------------------------------------------------------

  /** With disjoint windows, the layout is the overlay, byte for byte. */
  lemma ArmedIsOverlay(mem: Mem, base: Mem, armed: set<u64>)
    requires Disjoint(armed)
    ensures Laid(mem, base, armed) <==> mem == Overlay(base, armed) && forall a | a in armed :: Mapped(base, a)
  {
    var over := Overlay(base, armed);
    if Laid(mem, base, armed) {
      forall x | x in mem
        ensures mem[x] == over[x]
      {
        OverlayByteIs(base, armed, x);
      }
      assert mem == over;
    }
    if mem == over && forall a | a in armed :: Mapped(base, a) {
      forall x | x in base
        ensures !Covered(armed, x) ==> over[x] == base[x]
        ensures forall a | a in armed && InWindow(a, x) :: over[x] == TrapByte(x - a)
      {
        OverlayByteIs(base, armed, x);
      }
    }
  }

  lemma OverlayByteIs(base: Mem, sites: set<u64>, x: int)
    requires Disjoint(sites) && x in base
    ensures !Covered(sites, x) ==> OverlayByte(base, sites, x) == base[x]
    ensures forall a | a in sites && InWindow(a, x) :: OverlayByte(base, sites, x) == TrapByte(x - a)
  {
  }

  /** Writing the trap at one site. */
  lemma LaidArm(mem: Mem, base: Mem, armed: set<u64>, a: u64)
    requires Disjoint(armed + {a}) && Laid(mem, base, armed) && Mapped(mem, a)
    ensures Laid(Poke(mem, a, TRAP), base, armed + {a})
  {
    var r := Poke(mem, a, TRAP);
    PokeTrap(mem, a);
    OthersKeepTraps(mem, armed, a, TRAP);
    forall x | x in r && !Covered(armed + {a}, x)
      ensures r[x] == base[x]
    {
      assert !Covered(armed, x) && !InWindow(a, x);
    }
  }

  lemma OthersKeepTraps(mem: Mem, armed: set<u64>, a: u64, w: u64)
    requires Disjoint(armed + {a}) && AllArmed(mem, armed)
    ensures AllArmed(Poke(mem, a, w), armed - {a})
  {
    forall b | b in armed - {a}
      ensures TrapAt(Poke(mem, a, w), b)
    {
      assert forall x | InWindow(b, x) :: !InWindow(a, x);
    }
  }

  /** Putting the program's word back at one site. */
  lemma LaidDisarm(mem: Mem, base: Mem, armed: set<u64>, a: u64, w: u64)
    requires Disjoint(armed + {a}) && Laid(mem, base, armed) && Mapped(base, a) && w == Peek(base, a)
    ensures Laid(Poke(mem, a, w), base, armed - {a})
    ensures SameWindow(Poke(mem, a, w), base, a)
  {
    var r := Poke(mem, a, w);
    PokeSaved(mem, base, a, w);
    OthersKeepTraps(mem, armed, a, w);
    forall x | x in r && !Covered(armed - {a}, x)
      ensures r[x] == base[x]
    {
      if !InWindow(a, x) {
        assert !Covered(armed, x);
      }
    }
  }

  lemma PokeSaved(mem: Mem, base: Mem, a: int, w: u64)
    requires Mapped(base, a) && w == Peek(base, a)
    ensures SameWindow(Poke(mem, a, w), base, a)
  {
    forall x | InWindow(a, x)
      ensures x in base && Poke(mem, a, w)[x] == base[x]
    {
      PeekBytes(base, a, x - a);
      assert x in Window(a);
    }
  }

  /** A window that meets no armed one shows the program. */
  lemma FreeWindow(mem: Mem, base: Mem, armed: set<u64>, a: u64)
    requires Disjoint(armed + {a}) && a !in armed && Mapped(mem, a) && Laid(mem, base, armed)
    ensures SameWindow(mem, base, a) && Mapped(base, a) && Peek(mem, a) == Peek(base, a)
  {
    forall x | InWindow(a, x)
      ensures x in mem && x in base && mem[x] == base[x]
    {
      assert x in Window(a);
      assert !Covered(armed, x);
    }
    SamePeek(mem, base, a);
  }

  /** Stores of the program outside the windows reach the program and the patched memory alike. */
  lemma LaidStores(mem: Mem, base: Mem, armed: set<u64>, stores: Mem)
    requires Laid(mem, base, armed) && forall x | x in stores :: !Covered(armed, x)
    ensures Laid(mem + stores, base + stores, armed)
  {
    forall a | a in armed
      ensures TrapAt(mem + stores, a)
    {
      assert forall x | InWindow(a, x) :: Covered(armed, x);
    }
  }

  lemma SavedStores(base: Mem, sites: map<u64, u64>, stores: Mem)
    requires Saved(base, sites) && forall x | x in stores :: !Covered(sites.Keys, x)
    ensures Saved(base + stores, sites)
  {
    forall a | a in sites
      ensures Mapped(base + stores, a) && sites[a] == Peek(base + stores, a)
    {
      forall x | InWindow(a, x)
        ensures x in base && (base + stores)[x] == base[x]
      {
        assert Covered(sites.Keys, x);
        assert x in Window(a);
      }
      SamePeek(base, base + stores, a);
    }
  }

  lemma SamePeek(m: Mem, m': Mem, a: int)
    requires Mapped(m, a) && Mapped(m', a) && forall x | InWindow(a, x) :: m[x] == m'[x]
    ensures Peek(m, a) == Peek(m', a)
  {
    assert WindowBytes(m, a) == WindowBytes(m', a);
  }

  /** The trap is in place exactly when the word there is the trap word. */
  lemma TrapWord(m: Mem, a: int)
    requires Mapped(m, a)
    ensures TrapAt(m, a) <==> Peek(m, a) == TRAP
  {
    PokeTrap(m, a);
    PokePeek(m, a);
    PokeThenPeek(m, a, TRAP);
    if TrapAt(m, a) {
      SamePeek(m, Poke(m, a, TRAP), a);
    }
  }
}
