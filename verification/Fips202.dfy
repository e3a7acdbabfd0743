/**
 * What the words of the native code are bit by bit: the step mappings, round constants, byte order and padding of
 * FIPS 202, each stated on single bits and without the word operations that carry it out.
 */
module Fips202 {
  import opened KeccakTables
  import opened Keccak
  import opened Sponge
  import opened Sha3

  /** Position along a lane; arithmetic on it is modulo 64, as in the standard. */
  type Place = bv6

  /** Bit z of a lane: A[x, y, z] is bit z of lane x + 5y (section 3.1.2). */
  predicate Bit(w: Word, z: Place) {
    (w >> (z as bv64)) & 1 == 1
  }

  /** The word operations act on single bits: xor, "not a and b", and rotation by one place. */
  ghost predicate BitWise<L(!new)>(w: Words<L>, bit: (L, Place) -> bool) {
    && (forall a, b, z :: bit(w.xor(a, b), z) == (bit(a, z) != bit(b, z)))
    && (forall a, b, z :: bit(w.andNot(a, b), z) == (!bit(a, z) && bit(b, z)))
    && (forall a, z :: bit(w.rotl(a, 1), z) == bit(a, z - 1))
  }

  lemma XorBit(a: Word, b: Word, z: Place)
    ensures Bit(a ^ b, z) <==> Bit(a, z) != Bit(b, z)
  {
  }

  lemma OrBit(a: Word, b: Word, z: Place)
    ensures Bit(a | b, z) <==> Bit(a, z) || Bit(b, z)
  {
  }

  lemma AndNotBit(a: Word, b: Word, z: Place)
    ensures Bit(!a & b, z) <==> !Bit(a, z) && Bit(b, z)
  {
  }

  lemma RotateOneBit(x: Word, z: Place)
    ensures Bit(RotL(x, 1), z) <==> Bit(x, z - 1)
  {
  }

  lemma XorBits()
    ensures forall a, b, z :: Bit(Words64().xor(a, b), z) == (Bit(a, z) != Bit(b, z))
  {
    forall a, b, z ensures Bit(Words64().xor(a, b), z) == (Bit(a, z) != Bit(b, z)) {
      XorBit(a, b, z);
    }
  }

  lemma AndNotBits()
    ensures forall a, b, z :: Bit(Words64().andNot(a, b), z) == (!Bit(a, z) && Bit(b, z))
  {
    forall a, b, z ensures Bit(Words64().andNot(a, b), z) == (!Bit(a, z) && Bit(b, z)) {
      AndNotBit(a, b, z);
    }
  }

  lemma RotateOneBits()
    ensures forall a, z :: Bit(Words64().rotl(a, 1), z) == Bit(a, z - 1)
  {
    forall a, z ensures Bit(Words64().rotl(a, 1), z) == Bit(a, z - 1) {
      RotateOneBit(a, z);
    }
  }

  lemma WordsAreBitWise()
    ensures BitWise(Words64(), Bit)
  {
    XorBits();
    AndNotBits();
    RotateOneBits();
  }

  // ------------------------------------------------ theta and chi on single bits

  predicate Lane<L>(bit: (L, Place) -> bool, s: seq<L>, x: nat, y: nat, z: Place)
    requires |s| == 25 && x < 5 && y < 5
  {
    bit(s[x + 5 * y], z)
  }

  /** The parity of the five bits of a column. */
  predicate Parity<L>(bit: (L, Place) -> bool, s: seq<L>, x: nat, z: Place)
    requires |s| == 25 && x < 5
  {
    (((Lane(bit, s, x, 0, z) != Lane(bit, s, x, 1, z)) != Lane(bit, s, x, 2, z)) != Lane(bit, s, x, 3, z)) != Lane(bit, s, x, 4, z)
  }

  /** Section 3.2.1: theta adds to each bit the parities of the column before it and, one place down, after it. */
  lemma ThetaBits<L(!new)>(w: Words<L>, bit: (L, Place) -> bool, s: seq<L>, x: nat, y: nat, z: Place)
    requires BitWise(w, bit) && |s| == 25 && x < 5 && y < 5
    ensures Lane(bit, Theta(w, s), x, y, z)
       <==> (Lane(bit, s, x, y, z) != (Parity(bit, s, (x + 4) % 5, z) != Parity(bit, s, (x + 1) % 5, z - 1)))
  {
    Grid(x, y);
  }

  /** Section 3.2.4: chi adds to each bit the next one of its row, inverted, times the one after that. */
  lemma ChiBits<L(!new)>(w: Words<L>, bit: (L, Place) -> bool, s: seq<L>, x: nat, y: nat, z: Place)
    requires BitWise(w, bit) && |s| == 25 && x < 5 && y < 5
    ensures Lane(bit, Chi(w, s), x, y, z)
       <==> (Lane(bit, s, x, y, z) != (!Lane(bit, s, (x + 1) % 5, y, z) && Lane(bit, s, (x + 2) % 5, y, z)))
  {
    InRowAt(x, y, 1);
    InRowAt(x, y, 2);
    var i: Index := x + 5 * y;
    assert Chi(w, s)[i] == ChiLane(w, s, i);
  }

  lemma InRowAt(x: nat, y: nat, shift: nat)
    requires x < 5 && y < 5
    ensures InRow(x + 5 * y, shift) == (x + shift) % 5 + 5 * y
  {
    Grid(x, y);
  }

  // ------------------------------------- rho, pi and iota: sections 3.2.2, 3.2.3, 3.2.5

  /** Rotation to the left as the language has it. */
  function Rotated(x: Word, n: nat): Word {
    if n < 64 then x.RotateLeft(n) else x
  }

  /** The two shifts rotate by n. */
  predicate Turns(x: Word, n: nat) {
    RotL(x, n) == Rotated(x, n)
  }

  lemma TurnsLow(x: Word)
    ensures Turns(x, 0) && Turns(x, 1) && Turns(x, 2) && Turns(x, 3) && Turns(x, 6) && Turns(x, 8) && Turns(x, 10)
    ensures Turns(x, 14) && Turns(x, 15) && Turns(x, 18) && Turns(x, 20) && Turns(x, 21)
  {
  }

  lemma TurnsHigh(x: Word)
    ensures Turns(x, 25) && Turns(x, 27) && Turns(x, 28) && Turns(x, 36) && Turns(x, 39) && Turns(x, 41) && Turns(x, 43)
    ensures Turns(x, 44) && Turns(x, 45) && Turns(x, 55) && Turns(x, 56) && Turns(x, 61) && Turns(x, 62)
  {
  }

  /** What holds of every offset in the table holds at every lane. */
  lemma AtEveryOffset(f: nat -> bool, i: Index)
    requires f(0) && f(1) && f(2) && f(3) && f(6) && f(8) && f(10) && f(14) && f(15) && f(18) && f(20) && f(21)
    requires f(25) && f(27) && f(28) && f(36) && f(39) && f(41) && f(43) && f(44) && f(45) && f(55) && f(56) && f(61) && f(62)
    ensures |RHO| == 25 && f(RHO[i])
  {
    RhoValues();
  }

  lemma TurnsAtLane(x: Word, i: Index)
    ensures |RHO| == 25 && Turns(x, RHO[i])
  {
    TurnsLow(x);
    TurnsHigh(x);
    AtEveryOffset((n: nat) => Turns(x, n), i);
  }

  /** Where a lane goes, and rotated by how much. */
  lemma RhoPiMoves<L>(w: Words<L>, s: seq<L>, i: Index)
    requires |s| == 25
    ensures RhoPi(w, s)[PiLane(i)] == w.rotl(s[i], w.rho(i))
  {
    PiInverts(i);
  }

  /** Pi takes (x, y) to (y, 2x + 3y). */
  lemma PiLaneAt(x: nat, y: nat)
    requires x < 5 && y < 5
    ensures PiLane(x + 5 * y) == y + 5 * ((2 * x + 3 * y) % 5)
  {
    Grid(x, y);
  }

  lemma WalkedOffset(t: nat)
    requires t < 24
    ensures FollowsWalk(t)
  {
    if t < 12 {
      FirstOffsetsFollow(t);
    } else {
      LastOffsetsFollow(t);
    }
  }

  lemma RhoPiTurned<L>(w: Words<L>, turn: (L, nat) -> L, s: seq<L>, x: nat, y: nat)
    requires |s| == 25 && x < 5 && y < 5 && |RHO| == 25 && w.rho == OffsetAt
    requires forall i: Index :: w.rotl(s[i], RHO[i]) == turn(s[i], RHO[i])
    ensures RhoPi(w, s)[y + 5 * ((2 * x + 3 * y) % 5)] == turn(s[x + 5 * y], RHO[x + 5 * y])
  {
    PiLaneAt(x, y);
    RhoPiMoves(w, s, x + 5 * y);
  }

  lemma TurnsAtLanes(s: seq<Word>)
    requires |s| == 25
    ensures |RHO| == 25 && forall i: Index :: Words64().rotl(s[i], RHO[i]) == Rotated(s[i], RHO[i])
  {
    forall i: Index ensures |RHO| == 25 && Words64().rotl(s[i], RHO[i]) == Rotated(s[i], RHO[i]) {
      TurnsAtLane(s[i], i);
    }
  }

  lemma RhoPiRotates(s: seq<Word>, x: nat, y: nat)
    requires |s| == 25 && x < 5 && y < 5
    ensures |RHO| == 25 && RhoPi(Words64(), s)[y + 5 * ((2 * x + 3 * y) % 5)] == Rotated(s[x + 5 * y], RHO[x + 5 * y])
  {
    TurnsAtLanes(s);
    RhoPiTurned(Words64(), Rotated, s, x, y);
  }

  /**
   * Sections 3.2.2 and 3.2.3: the lane that the walk reaches after t steps is rotated by the t-th triangular number and
   * moves from (x, y) to (y, 2x + 3y).
   */
  lemma RhoPiLanes(s: seq<Word>, t: nat, x: nat, y: nat)
    requires |s| == 25 && t < 24 && Walk(t) == (x, y)
    ensures x < 5 && y < 5
    ensures RhoPi(Words64(), s)[y + 5 * ((2 * x + 3 * y) % 5)] == Rotated(s[x + 5 * y], Triangle(t) % 64)
  {
    WalkedOffset(t);
    assert RHO[x + 5 * y] == Triangle(t) % 64;
    RhoPiRotates(s, x, y);
  }

  /** The lane at the origin stays. */
  lemma OriginStays(s: seq<Word>)
    requires |s| == 25
    ensures RhoPi(Words64(), s)[0] == s[0]
  {
    RhoValues();
    RhoPiMoves(Words64(), s, 0);
    TurnsLow(s[0]);
    assert s[0].RotateLeft(0) == s[0];
  }

  /** The walk reaches every lane but the origin. */
  lemma WalkCovers(i: Index) returns (t: nat)
    requires i > 0
    ensures t < 24 && Walk(t) == (i % 5, i / 5)
  {
    WalkSteps();
    t := [0, 18, 6, 12, 7, 23, 2, 9, 22, 1, 3, 17, 16, 20, 13, 8, 4, 5, 15, 19, 10, 21, 14, 11][i - 1];
  }

  /** The register of Algorithm 5 after t steps; bit k is R[k]. */
  function Register(t: nat): bv8 {
    if t == 0 then 1 else Shifted(Register(t - 1))
  }

  /** A zero goes in in front; the bit that falls out at the end is added to bits 0, 4, 5 and 6. */
  function Shifted(r: bv8): bv8 {
    (r << 1) ^ (if r & 0x80 == 0x80 then 0x71 else 0)
  }

  lemma EarlyRegisters()
    ensures Register(0) == 1 && Register(7) == 128 && Register(14) == 216 && Register(21) == 26 && Register(28) == 223 && Register(35) == 9
    ensures Register(42) == 53 && Register(49) == 79 && Register(56) == 202 && Register(63) == 112 && Register(70) == 65 && Register(77) == 236
  {
  }

  lemma LateRegisters()
    ensures Register(84) == 213 && Register(91) == 205 && Register(98) == 99 && Register(105) == 171 && Register(112) == 170 && Register(119) == 42
    ensures Register(126) == 242 && Register(133) == 232 && Register(140) == 55 && Register(147) == 62 && Register(154) == 11 && Register(161) == 68
  {
    EarlyRegisters();
  }

  /** The output bit rc(t). */
  predicate OutBit(t: nat) {
    Register(t) & 1 == 1
  }

  /** Bit z of the round constant of round t: rc(j + 7t) at z = 2^j - 1 for j from 0 to 6, and zero elsewhere. */
  predicate ConstantBit(t: nat, z: Place) {
    || (z == 0 && OutBit(7 * t)) || (z == 1 && OutBit(7 * t + 1)) || (z == 3 && OutBit(7 * t + 2)) || (z == 7 && OutBit(7 * t + 3))
    || (z == 15 && OutBit(7 * t + 4)) || (z == 31 && OutBit(7 * t + 5)) || (z == 63 && OutBit(7 * t + 6))
  }

  function OutWord(r: bv8): Word {
    (r & 1) as Word
  }

  /** The constant that starts from register r. */
  function Spread(r: bv8): Word {
    var a := Shifted(r);
    var b := Shifted(a);
    var c := Shifted(b);
    var d := Shifted(c);
    var e := Shifted(d);
    OutWord(r) | (OutWord(a) << 1) | (OutWord(b) << 3) | (OutWord(c) << 7) | (OutWord(d) << 15) | (OutWord(e) << 31) | (OutWord(Shifted(e)) << 63)
  }

  lemma SpreadBits(t: nat, z: Place)
    ensures Bit(Spread(Register(7 * t)), z) <==> ConstantBit(t, z)
  {
    var n := 7 * t;
    assert Register(n + 1) == Shifted(Register(n));
    assert Register(n + 2) == Shifted(Register(n + 1));
    assert Register(n + 3) == Shifted(Register(n + 2));
    assert Register(n + 4) == Shifted(Register(n + 3));
    assert Register(n + 5) == Shifted(Register(n + 4));
    assert Register(n + 6) == Shifted(Register(n + 5));
  }

  lemma FirstConstants()
    ensures |RC| == 24
    ensures RC[0] == 0x1 && RC[1] == 0x8082 && RC[2] == 0x800000000000808A && RC[3] == 0x8000000080008000
    ensures RC[4] == 0x808B && RC[5] == 0x80000001 && RC[6] == 0x8000000080008081 && RC[7] == 0x8000000000008009
  {
  }

  lemma FirstSpreads()
    ensures Spread(1) == 0x1 && Spread(128) == 0x8082 && Spread(216) == 0x800000000000808A && Spread(26) == 0x8000000080008000
    ensures Spread(223) == 0x808B && Spread(9) == 0x80000001 && Spread(53) == 0x8000000080008081 && Spread(79) == 0x8000000000008009
  {
  }

  lemma FirstConstantsFollow(t: nat)
    requires t < 8
    ensures ConstantAt(t) == Spread(Register(7 * t))
  {
    FirstConstants();
    FirstSpreads();
    EarlyRegisters();
    LateRegisters();
    assert t == 0 || t == 1 || t == 2 || t == 3 || t == 4 || t == 5 || t == 6 || t == 7;
  }

  lemma MiddleConstants()
    ensures |RC| == 24
    ensures RC[8] == 0x8A && RC[9] == 0x88 && RC[10] == 0x80008009 && RC[11] == 0x8000000A
    ensures RC[12] == 0x8000808B && RC[13] == 0x800000000000008B && RC[14] == 0x8000000000008089 && RC[15] == 0x8000000000008003
  {
  }

  lemma MiddleSpreads()
    ensures Spread(202) == 0x8A && Spread(112) == 0x88 && Spread(65) == 0x80008009 && Spread(236) == 0x8000000A
    ensures Spread(213) == 0x8000808B && Spread(205) == 0x800000000000008B && Spread(99) == 0x8000000000008089 && Spread(171) == 0x8000000000008003
  {
  }

  lemma MiddleConstantsFollow(t: nat)
    requires 8 <= t < 16
    ensures ConstantAt(t) == Spread(Register(7 * t))
  {
    MiddleConstants();
    MiddleSpreads();
    EarlyRegisters();
    LateRegisters();
    assert t == 8 || t == 9 || t == 10 || t == 11 || t == 12 || t == 13 || t == 14 || t == 15;
  }

  lemma LastConstants()
    ensures |RC| == 24
    ensures RC[16] == 0x8000000000008002 && RC[17] == 0x8000000000000080 && RC[18] == 0x800A && RC[19] == 0x800000008000000A
    ensures RC[20] == 0x8000000080008081 && RC[21] == 0x8000000000008080 && RC[22] == 0x80000001 && RC[23] == 0x8000000080008008
  {
  }

  lemma LastSpreads()
    ensures Spread(170) == 0x8000000000008002 && Spread(42) == 0x8000000000000080 && Spread(242) == 0x800A && Spread(232) == 0x800000008000000A
    ensures Spread(55) == 0x8000000080008081 && Spread(62) == 0x8000000000008080 && Spread(11) == 0x80000001 && Spread(68) == 0x8000000080008008
  {
  }

  lemma LastConstantsFollow(t: nat)
    requires 16 <= t < 24
    ensures ConstantAt(t) == Spread(Register(7 * t))
  {
    LastConstants();
    LastSpreads();
    EarlyRegisters();
    LateRegisters();
    assert t == 16 || t == 17 || t == 18 || t == 19 || t == 20 || t == 21 || t == 22 || t == 23;
  }

  /** The round constants of the code are those of section 3.2.5, bit by bit. */
  lemma RoundConstantBits(t: nat, z: Place)
    requires t < ROUNDS
    ensures Bit(ConstantAt(t), z) <==> ConstantBit(t, z)
  {
    if t < 8 {
      FirstConstantsFollow(t);
    } else if t < 16 {
      MiddleConstantsFollow(t);
    } else {
      LastConstantsFollow(t);
    }
    SpreadBits(t, z);
  }

  /** Section 3.2.5: iota adds the round constant to the lane at the origin and leaves the others. */
  lemma IotaBits(s: seq<Word>, t: nat, i: Index, z: Place)
    requires |s| == 25 && t < ROUNDS
    ensures Bit(Round(Words64(), s, t)[i], z)
       <==> (Bit(Chi(Words64(), RhoPi(Words64(), Theta(Words64(), s)))[i], z) != (i == 0 && ConstantBit(t, z)))
  {
    RoundConstantBits(t, z);
    XorBits();
  }

  /** Section 3.3: 24 rounds, numbered from 0. */
  lemma RoundsInOrder<L>(w: Words<L>, s: seq<L>, t: nat)
    requires |s| == 25
    ensures Rounds(w, s, 0) == s && Rounds(w, s, t + 1) == Round(w, Rounds(w, s, t), t) && KeccakF(w, s) == Rounds(w, s, 24)
  {
  }

  // ------------------------------------------- bytes and lanes: sections 3.1.2 and B.1

  /** Bit k of a byte, the lowest first. */
  predicate ByteBit(b: Octet, k: bv3) {
    (b >> (k as bv8)) & 1 == 1
  }

  lemma TakenBit(x: Word, i: InLane, k: bv3)
    ensures ByteBit(Take(x, i), k) <==> Bit(x, At(i, k))
  {
  }

  lemma PutBit(b: Octet, i: InLane, z: Place)
    ensures Bit(Put(b, i), z) <==> (z >> 3) as InLane == i && ByteBit(b, (z & 7) as bv3)
  {
  }

  /** Bit k of byte i of a lane. */
  function At(i: InLane, k: bv3): Place {
    ((i as Place) << 3) | (k as Place)
  }

  lemma PutBitAt(b: Octet, j: InLane, i: InLane, k: bv3)
    ensures Bit(Put(b, j), At(i, k)) <==> i == j && ByteBit(b, k)
  {
    PutBit(b, j, At(i, k));
  }

  lemma Distinct(i: nat, j: nat)
    requires i < j < 8
    ensures (i as bv3) != (j as bv3)
  {
    assert j == 1 || j == 2 || j == 3 || j == 4 || j == 5 || j == 6 || j == 7;
  }

  lemma PlacedBit(b: Octet, j: nat, i: nat, k: bv3)
    requires i < 8 && j < 8
    ensures Bit(PlaceByte(b, j), At(i as InLane, k)) <==> i == j && ByteBit(b, k)
  {
    PutBitAt(b, j as InLane, i as InLane, k);
    if i < j {
      Distinct(i, j);
    } else if j < i {
      Distinct(j, i);
    }
  }

  lemma {:induction false} LoadedBits(bytes: seq<Octet>, n: nat, i: nat, k: bv3)
    requires n <= 8 && n <= |bytes| && i < 8
    ensures Bit(LoadLane(Codec64(), bytes, n), At(i as InLane, k)) <==> i < n && ByteBit(bytes[i], k)
    decreases n
  {
    if n > 0 {
      LoadedBits(bytes, n - 1, i, k);
      OrBit(LoadLane(Codec64(), bytes, n - 1), PlaceByte(bytes[n - 1], n - 1), At(i as InLane, k));
      PlacedBit(bytes[n - 1], n - 1, i, k);
    }
  }

  /** The lane that the given bytes make. */
  function LaneOf<L, B>(c: Codec<L, B>, bytes: seq<B>): L {
    LoadLane(c, bytes, |bytes|)
  }

  lemma {:induction false} AbsorbedLane<L, B>(c: Codec<L, B>, s: seq<L>, block: seq<B>, n: nat, i: nat)
    requires |s| == 25 && n <= 25 && 8 * n <= |block| && i < 25
    ensures XorLanes(c, s, block, n)[i] == if i < n then c.w.xor(s[i], LaneOf(c, block[8 * i..8 * (i + 1)])) else s[i]
    decreases n
  {
    if n > 0 {
      AbsorbedLane(c, s, block, n - 1, i);
    }
  }

  lemma LaneOfBits(bytes: seq<Octet>, b: nat, k: bv3)
    requires |bytes| <= 8 && b < 8
    ensures Bit(LaneOf(Codec64(), bytes), At(b as InLane, k)) <==> b < |bytes| && ByteBit(bytes[b], k)
  {
    LoadedBits(bytes, |bytes|, b, k);
  }

  lemma AbsorbedBit<L(!new), B>(c: Codec<L, B>, bit: (L, Place) -> bool, s: seq<L>, block: seq<B>, n: nat, i: nat, z: Place)
    requires |s| == 25 && n <= 25 && 8 * n <= |block| && i < 25 && BitWise(c.w, bit)
    ensures bit(XorLanes(c, s, block, n)[i], z) == (bit(s[i], z) != (i < n && bit(LaneOf(c, block[8 * i..8 * (i + 1)]), z)))
  {
    AbsorbedLane(c, s, block, n, i);
  }

  /** Going in: bit k of byte 8i + b of the block is added to bit 8b + k of lane i. */
  lemma AbsorbedBits(s: seq<Word>, block: seq<Octet>, n: nat, i: nat, b: nat, k: bv3)
    requires |s| == 25 && n <= 25 && 8 * n <= |block| && i < 25 && b < 8
    ensures Bit(XorLanes(Codec64(), s, block, n)[i], At(b as InLane, k))
       <==> (Bit(s[i], At(b as InLane, k)) != (i < n && ByteBit(block[8 * i + b], k)))
  {
    WordsAreBitWise();
    AbsorbedBit(Codec64(), Bit, s, block, n, i, At(b as InLane, k));
    if i < n {
      LaneOfBits(block[8 * i..8 * (i + 1)], b, k);
    }
  }

  lemma EmittedByte<L, B>(c: Codec<L, B>, s: seq<L>, i: nat, b: nat)
    requires |s| == 25 && i < 25 && b < 8
    ensures OutByte(c, s, 8 * i + b) == c.byteAt(s[i], b)
  {
    assert (8 * i + b) / 8 == i && (8 * i + b) % 8 == b;
  }

  lemma ByteAtBit(x: Word, b: nat, k: bv3)
    requires b < 8
    ensures ByteBit(ByteAt(x, b), k) <==> Bit(x, At(b as InLane, k))
  {
    TakenBit(x, b as InLane, k);
  }

  /** Coming out: bit k of output byte 8i + b is bit 8b + k of lane i. */
  lemma EmittedBits(s: seq<Word>, i: nat, b: nat, k: bv3)
    requires |s| == 25 && i < 25 && b < 8
    ensures ByteBit(OutByte(Codec64(), s, 8 * i + b), k) <==> Bit(s[i], At(b as InLane, k))
  {
    EmittedByte(Codec64(), s, i, b);
    ByteAtBit(s[i], b, k);
  }

  // ------------------------------------------------- padding: sections 5.1 and 6.1

  /** Behind the message come the bits 0 1 of SHA3, a 1, zeros, and a last 1 that ends a block. */
  lemma PaddedBits(m: seq<Octet>, r: nat, i: nat, k: bv3)
    requires r > 0
    requires i < |Pad(m, DOMAIN, 0, 0 | FINAL_BIT, DOMAIN | FINAL_BIT, r)|
    ensures var p := Pad(m, DOMAIN, 0, 0 | FINAL_BIT, DOMAIN | FINAL_BIT, r);
            && |m| < |p| <= |m| + r && (exists q: nat :: |p| == q * r)
            && (ByteBit(p[i], k) <==> if i < |m| then ByteBit(m[i], k) else (i == |m| && (k == 1 || k == 2)) || (i == |p| - 1 && k == 7))
  {
    var q := LeftIsRemainder(|m|, r);
    assert |m| + r - Left(|m|, r) == (q + 1) * r;
    PaddingByteBits(k);
  }

  lemma PaddingByteBits(k: bv3)
    ensures ByteBit(DOMAIN, k) <==> k == 1 || k == 2
    ensures ByteBit(0 | FINAL_BIT, k) <==> k == 7
    ensures ByteBit(DOMAIN | FINAL_BIT, k) <==> k == 1 || k == 2 || k == 7
    ensures !ByteBit(0, k)
  {
  }
}
