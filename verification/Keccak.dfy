/** Rotation offsets and lane positions of the rho and pi steps: sections 3.2.2 and 3.2.3 of FIPS 202. */
module KeccakTables {
  type Index = i: int | 0 <= i < 25

  /** Position reached after t steps (x, y) -> (y, 2x + 3y) from (1, 0): section 3.2.2. */
  function Walk(t: nat): (int, int)
  {
    if t == 0 then (1, 0) else var (x, y) := Walk(t - 1); (y, (2 * x + 3 * y) % 5)
  }

  /** The table of the CUDA kernel, by lane position. */
  const RHO: seq<nat> := [
    0, 1, 62, 28, 27, 36, 44, 6, 55, 20,
    3, 10, 43, 25, 39, 41, 45, 15, 21, 8,
    18, 2, 61, 56, 14]

  /** The table of the C code, by x and y. */
  const ROTATIONS: seq<seq<nat>> := [
    [0, 36, 3, 41, 18],
    [1, 44, 10, 45, 2],
    [62, 6, 43, 15, 61],
    [28, 55, 25, 21, 56],
    [27, 20, 39, 8, 14]]

  const PI: seq<nat> := [
    0, 10, 20, 5, 15, 16, 1, 11, 21, 6,
    7, 17, 2, 12, 22, 23, 8, 18, 3, 13,
    14, 24, 9, 19, 4]

  /** Where pi moves lane i: (x, y) goes to (y, 2x + 3y). */
  function PiLane(i: Index): Index {
    i / 5 + 5 * ((2 * (i % 5) + 3 * (i / 5)) % 5)
  }

  /** The lane that pi moves to position p. */
  function SourceOf(p: Index): Index {
    (3 * (p / 5) + p % 5) % 5 + 5 * (p % 5)
  }

  lemma ModFive(x: int, k: int)
    requires 0 <= x < 5
    ensures (x + 5 * k) % 5 == x
  {
  }

  /** Multiplying by 3 undoes doubling modulo 5. */
  lemma UndoDouble(x: int, y: int)
    requires 0 <= x < 5 && 0 <= y < 5
    ensures (3 * ((2 * x + 3 * y) % 5) + y) % 5 == x
  {
    var q := (2 * x + 3 * y) / 5;
    assert 3 * ((2 * x + 3 * y) % 5) + y == x + 5 * (x + 2 * y - 3 * q);
    ModFive(x, x + 2 * y - 3 * q);
  }

  lemma RedoDouble(w: int, y: int)
    requires 0 <= w < 5 && 0 <= y < 5
    ensures (2 * ((3 * w + y) % 5) + 3 * y) % 5 == w
  {
    var q := (3 * w + y) / 5;
    assert 2 * ((3 * w + y) % 5) + 3 * y == w + 5 * (w + y - 2 * q);
    ModFive(w, w + y - 2 * q);
  }

  lemma Grid(low: int, high: int)
    requires 0 <= low < 5 && 0 <= high < 5
    ensures (low + 5 * high) / 5 == high && (low + 5 * high) % 5 == low
  {
  }

  lemma SourceUndoesPi(i: Index)
    ensures SourceOf(PiLane(i)) == i
  {
    Grid(i / 5, (2 * (i % 5) + 3 * (i / 5)) % 5);
    UndoDouble(i % 5, i / 5);
  }

  lemma PiUndoesSource(i: Index)
    ensures PiLane(SourceOf(i)) == i
  {
    Grid((3 * (i / 5) + i % 5) % 5, i % 5);
    RedoDouble(i / 5, i % 5);
  }

  /** pi permutes the lanes, and SourceOf is its inverse. */
  lemma PiInverts(i: Index)
    ensures SourceOf(PiLane(i)) == i && PiLane(SourceOf(i)) == i
  {
    SourceUndoesPi(i);
    PiUndoesSource(i);
  }

  lemma RhoValues()
    ensures |RHO| == 25
    ensures RHO[0] == 0 && RHO[1] == 1 && RHO[2] == 62 && RHO[3] == 28 && RHO[4] == 27
    ensures RHO[5] == 36 && RHO[6] == 44 && RHO[7] == 6 && RHO[8] == 55 && RHO[9] == 20
    ensures RHO[10] == 3 && RHO[11] == 10 && RHO[12] == 43 && RHO[13] == 25 && RHO[14] == 39
    ensures RHO[15] == 41 && RHO[16] == 45 && RHO[17] == 15 && RHO[18] == 21 && RHO[19] == 8
    ensures RHO[20] == 18 && RHO[21] == 2 && RHO[22] == 61 && RHO[23] == 56 && RHO[24] == 14
  {
  }

  lemma PiValues()
    ensures |PI| == 25
    ensures PI[0] == 0 && PI[1] == 10 && PI[2] == 20 && PI[3] == 5 && PI[4] == 15
    ensures PI[5] == 16 && PI[6] == 1 && PI[7] == 11 && PI[8] == 21 && PI[9] == 6
  {
  }

  lemma MorePiValues()
    ensures |PI| == 25
    ensures PI[10] == 7 && PI[11] == 17 && PI[12] == 2 && PI[13] == 12 && PI[14] == 22
    ensures PI[15] == 23 && PI[16] == 8 && PI[17] == 18 && PI[18] == 3 && PI[19] == 13
    ensures PI[20] == 14 && PI[21] == 24 && PI[22] == 9 && PI[23] == 19 && PI[24] == 4
  {
  }

  lemma RotationValues()
    ensures |ROTATIONS| == 5 && forall x :: 0 <= x < 5 ==> |ROTATIONS[x]| == 5
    ensures ROTATIONS[0][0] == 0 && ROTATIONS[0][1] == 36 && ROTATIONS[0][2] == 3 && ROTATIONS[0][3] == 41 && ROTATIONS[0][4] == 18
    ensures ROTATIONS[1][0] == 1 && ROTATIONS[1][1] == 44 && ROTATIONS[1][2] == 10 && ROTATIONS[1][3] == 45 && ROTATIONS[1][4] == 2
    ensures ROTATIONS[2][0] == 62 && ROTATIONS[2][1] == 6 && ROTATIONS[2][2] == 43 && ROTATIONS[2][3] == 15 && ROTATIONS[2][4] == 61
    ensures ROTATIONS[3][0] == 28 && ROTATIONS[3][1] == 55 && ROTATIONS[3][2] == 25 && ROTATIONS[3][3] == 21 && ROTATIONS[3][4] == 56
    ensures ROTATIONS[4][0] == 27 && ROTATIONS[4][1] == 20 && ROTATIONS[4][2] == 39 && ROTATIONS[4][3] == 8 && ROTATIONS[4][4] == 14
  {
  }

  /** Both tables of offsets agree at lane i, and the CUDA table of positions is pi there. */
  predicate AgreesAt(i: Index) {
    && |ROTATIONS| == 5 && |ROTATIONS[i % 5]| == 5 && |RHO| == 25 && |PI| == 25
    && ROTATIONS[i % 5][i / 5] == RHO[i] && 0 <= RHO[i] < 64 && PI[i] == PiLane(i)
  }

  lemma FirstTwoRowsAgree(i: Index)
    requires i < 10
    ensures AgreesAt(i)
  {
    RhoValues();
    RotationValues();
    PiValues();
    assert i == 0 || i == 1 || i == 2 || i == 3 || i == 4 || i == 5 || i == 6 || i == 7 || i == 8 || i == 9;
  }

  lemma LastRowsAgree(i: Index)
    requires i >= 10
    ensures AgreesAt(i)
  {
    RhoValues();
    RotationValues();
    MorePiValues();
    assert i == 10 || i == 11 || i == 12 || i == 13 || i == 14 || i == 15 || i == 16 || i == 17 || i == 18 || i == 19
      || i == 20 || i == 21 || i == 22 || i == 23 || i == 24;
  }

  /** The triangular numbers (t + 1)(t + 2) / 2. */
  function Triangle(t: nat): nat {
    if t == 0 then 1 else Triangle(t - 1) + t + 1
  }

  lemma {:induction false} TriangleIs(t: nat)
    ensures 2 * Triangle(t) == (t + 1) * (t + 2)
  {
    if t > 0 {
      TriangleIs(t - 1);
    }
  }

  lemma TriangleValues()
    ensures Triangle(0) == 1 && Triangle(1) == 3 && Triangle(2) == 6 && Triangle(3) == 10 && Triangle(4) == 15 && Triangle(5) == 21
    ensures Triangle(6) == 28 && Triangle(7) == 36 && Triangle(8) == 45 && Triangle(9) == 55 && Triangle(10) == 66 && Triangle(11) == 78
    ensures Triangle(12) == 91 && Triangle(13) == 105 && Triangle(14) == 120 && Triangle(15) == 136 && Triangle(16) == 153 && Triangle(17) == 171
    ensures Triangle(18) == 190 && Triangle(19) == 210 && Triangle(20) == 231 && Triangle(21) == 253 && Triangle(22) == 276 && Triangle(23) == 300
  {
  }

  /** The offset of the lane reached after t steps is the t-th triangular number, as section 3.2.2 defines it. */
  predicate FollowsWalk(t: nat) {
    var (x, y) := Walk(t);
    |RHO| == 25 && 0 <= x < 5 && 0 <= y < 5 && RHO[x + 5 * y] == Triangle(t) % 64
  }

  lemma FirstOffsetsFollow(t: nat)
    requires t < 12
    ensures FollowsWalk(t)
  {
    RhoValues();
    WalkSteps();
    TriangleValues();
    assert t == 0 || t == 1 || t == 2 || t == 3 || t == 4 || t == 5 || t == 6 || t == 7 || t == 8 || t == 9 || t == 10 || t == 11;
  }

  lemma LastOffsetsFollow(t: nat)
    requires 12 <= t < 24
    ensures FollowsWalk(t)
  {
    RhoValues();
    WalkSteps();
    TriangleValues();
    assert t == 12 || t == 13 || t == 14 || t == 15 || t == 16 || t == 17 || t == 18 || t == 19 || t == 20
      || t == 21 || t == 22 || t == 23;
  }

  lemma WalkSteps()
    ensures Walk(0) == (1, 0) && Walk(1) == (0, 2) && Walk(2) == (2, 1) && Walk(3) == (1, 2)
    ensures Walk(4) == (2, 3) && Walk(5) == (3, 3) && Walk(6) == (3, 0) && Walk(7) == (0, 1)
    ensures Walk(8) == (1, 3) && Walk(9) == (3, 1) && Walk(10) == (1, 4) && Walk(11) == (4, 4)
    ensures Walk(12) == (4, 0) && Walk(13) == (0, 3) && Walk(14) == (3, 4) && Walk(15) == (4, 3)
    ensures Walk(16) == (3, 2) && Walk(17) == (2, 2) && Walk(18) == (2, 0) && Walk(19) == (0, 4)
    ensures Walk(20) == (4, 2) && Walk(21) == (2, 4) && Walk(22) == (4, 1) && Walk(23) == (1, 1)
  {
  }
}

/**
 * The Keccak-f[1600] permutation of section 3 of FIPS 202, and the two forms in which the native code computes it.
 * The word operations are parameters here: the results do not depend on what they do.
 */
module Keccak {
  import opened KeccakTables

  /** Exclusive or, "not a and b", rotation to the left, the rotation offset of each lane, the round constants. */
  datatype Words<!L> = Words(xor: (L, L) -> L, andNot: (L, L) -> L, rotl: (L, nat) -> L, rho: nat -> nat, rc: nat -> L)

  const ROUNDS: nat := 24

  // ------------------------------------------------------------- specification

  function Column<L>(w: Words<L>, s: seq<L>, x: nat): L
    requires |s| == 25 && x < 5
  {
    w.xor(w.xor(w.xor(w.xor(s[x], s[x + 5]), s[x + 10]), s[x + 15]), s[x + 20])
  }

  function ThetaMask<L>(w: Words<L>, s: seq<L>, x: nat): L
    requires |s| == 25 && x < 5
  {
    w.xor(Column(w, s, (x + 4) % 5), w.rotl(Column(w, s, (x + 1) % 5), 1))
  }

  function ThetaLane<L>(w: Words<L>, s: seq<L>, i: Index): L
    requires |s| == 25
  {
    w.xor(s[i], ThetaMask(w, s, i % 5))
  }

  /** Rho and pi: the lane at p comes, rotated, from the position that pi maps to p. */
  function RhoPiLane<L>(w: Words<L>, s: seq<L>, p: Index): L
    requires |s| == 25
  {
    w.rotl(s[SourceOf(p)], w.rho(SourceOf(p)))
  }

  function InRow(i: Index, shift: nat): Index {
    5 * (i / 5) + (i % 5 + shift) % 5
  }

  function ChiLane<L>(w: Words<L>, s: seq<L>, i: Index): L
    requires |s| == 25
  {
    w.xor(s[i], w.andNot(s[InRow(i, 1)], s[InRow(i, 2)]))
  }

  ghost predicate IsTheta<L>(w: Words<L>, s: seq<L>, t: seq<L>) {
    |s| == |t| == 25 && forall i: Index :: t[i] == ThetaLane(w, s, i)
  }

  ghost predicate IsRhoPi<L>(w: Words<L>, s: seq<L>, t: seq<L>) {
    |s| == |t| == 25 && forall p: Index :: t[p] == RhoPiLane(w, s, p)
  }

  ghost predicate IsChi<L>(w: Words<L>, s: seq<L>, t: seq<L>) {
    |s| == |t| == 25 && forall i: Index :: t[i] == ChiLane(w, s, i)
  }

  function Theta<L>(w: Words<L>, s: seq<L>): (t: seq<L>)
    requires |s| == 25
    ensures IsTheta(w, s, t)
  {
    seq(25, i requires 0 <= i < 25 => ThetaLane(w, s, i))
  }

  function RhoPi<L>(w: Words<L>, s: seq<L>): (t: seq<L>)
    requires |s| == 25
    ensures IsRhoPi(w, s, t)
  {
    seq(25, i requires 0 <= i < 25 => RhoPiLane(w, s, i))
  }

  function Chi<L>(w: Words<L>, s: seq<L>): (t: seq<L>)
    requires |s| == 25
    ensures IsChi(w, s, t)
  {
    seq(25, i requires 0 <= i < 25 => ChiLane(w, s, i))
  }

  function Round<L>(w: Words<L>, s: seq<L>, round: nat): (t: seq<L>)
    requires |s| == 25
    ensures |t| == 25
  {
    var chi := Chi(w, RhoPi(w, Theta(w, s)));
    chi[0 := w.xor(chi[0], w.rc(round))]
  }

  function Rounds<L>(w: Words<L>, s: seq<L>, n: nat): (t: seq<L>)
    requires |s| == 25
    ensures |t| == 25
    decreases n, s
  {
    if n == 0 then s else Round(w, Rounds(w, s, n - 1), n - 1)
  }

  /** Keccak-f[1600]. */
  function KeccakF<L>(w: Words<L>, s: seq<L>): (t: seq<L>)
    requires |s| == 25
    ensures |t| == 25
  {
    Rounds(w, s, ROUNDS)
  }

  lemma SameLanes<L>(t: seq<L>, u: seq<L>)
    requires |t| == |u| == 25 && forall i: Index :: t[i] == u[i]
    ensures t == u
  {
    forall i | 0 <= i < 25 ensures t[i] == u[i] {
      var j: Index := i;
      assert t[j] == u[j];
    }
  }

  // ------------------------------------------------------------ steps in place

  method Columns<L>(w: Words<L>, state: array<L>) returns (c: array<L>)
    requires state.Length == 25
    ensures fresh(c) && c.Length == 5 && forall x :: 0 <= x < 5 ==> c[x] == Column(w, state[..], x)
  {
    var filler := state[0];
    c := new L[5](_ => filler);
    for x := 0 to 5
      invariant forall k :: 0 <= k < x ==> c[k] == Column(w, state[..], k)
    {
      c[x] := w.xor(w.xor(w.xor(w.xor(state[x], state[x + 5]), state[x + 10]), state[x + 15]), state[x + 20]);
    }
  }

  /** Lane i comes before (x, y) when columns are walked one after the other. */
  predicate Passed(i: Index, x: nat, y: nat) {
    i % 5 < x || (i % 5 == x && i / 5 < y)
  }

  lemma PassedNext(i: Index, x: nat, y: nat)
    requires x < 5 && y < 5
    ensures Passed(i, x, y + 1) <==> Passed(i, x, y) || i == x + 5 * y
    ensures Passed(i, x, 5) <==> Passed(i, x + 1, 0)
    ensures !Passed(x + 5 * y, x, y) && (x + 5 * y) % 5 == x
  {
    Grid(x, y);
    assert i == i % 5 + 5 * (i / 5) && i / 5 < 5;
  }

  ghost predicate ThetaSoFar<L>(w: Words<L>, s: seq<L>, t: seq<L>, x: nat, y: nat) {
    |s| == |t| == 25 && forall i: Index :: t[i] == if Passed(i, x, y) then ThetaLane(w, s, i) else s[i]
  }

  lemma ThetaNext<L>(w: Words<L>, s: seq<L>, t: seq<L>, x: nat, y: nat)
    requires x < 5 && y < 5 && ThetaSoFar(w, s, t, x, y)
    ensures ThetaSoFar(w, s, t[x + 5 * y := w.xor(t[x + 5 * y], ThetaMask(w, s, x))], x, y + 1)
  {
    var p := x + 5 * y;
    PassedNext(p, x, y);
    var u := t[p := w.xor(t[p], ThetaMask(w, s, x))];
    forall i: Index ensures u[i] == if Passed(i, x, y + 1) then ThetaLane(w, s, i) else s[i] {
      PassedNext(i, x, y);
    }
  }

  lemma ThetaColumn<L>(w: Words<L>, s: seq<L>, t: seq<L>, x: nat)
    requires x < 5 && ThetaSoFar(w, s, t, x, 5)
    ensures ThetaSoFar(w, s, t, x + 1, 0)
  {
    forall i: Index ensures t[i] == if Passed(i, x + 1, 0) then ThetaLane(w, s, i) else s[i] {
      PassedNext(i, x, 0);
    }
  }

  lemma ThetaDone<L>(w: Words<L>, s: seq<L>, t: seq<L>)
    requires ThetaSoFar(w, s, t, 5, 0)
    ensures t == Theta(w, s)
  {
    forall i: Index ensures t[i] == Theta(w, s)[i] {
      assert Passed(i, 5, 0);
    }
    SameLanes(t, Theta(w, s));
  }

  /** The inner loop: one mask goes into the five lanes of a column. */
  method MaskColumn<L>(w: Words<L>, state: array<L>, x: nat, d: L, ghost s: seq<L>)
    requires state.Length == 25 && x < 5 && ThetaSoFar(w, s, state[..], x, 0) && d == ThetaMask(w, s, x)
    modifies state
    ensures ThetaSoFar(w, s, state[..], x + 1, 0)
  {
    for y := 0 to 5
      invariant ThetaSoFar(w, s, state[..], x, y)
    {
      ghost var t := state[..];
      ThetaNext(w, s, t, x, y);
      state[x + 5 * y] := w.xor(state[x + 5 * y], d);
      assert state[..] == t[x + 5 * y := w.xor(t[x + 5 * y], d)];
    }
    ThetaColumn(w, s, state[..], x);
  }

  /** D[x] from the columns of s. */
  method MaskOf<L>(w: Words<L>, c: array<L>, x: nat, ghost s: seq<L>) returns (d: L)
    requires x < 5 && c.Length == 5 && |s| == 25 && forall k :: 0 <= k < 5 ==> c[k] == Column(w, s, k)
    ensures d == ThetaMask(w, s, x)
  {
    d := w.xor(c[(x + 4) % 5], w.rotl(c[(x + 1) % 5], 1));
  }

  /** Theta in place: the columns are read before any lane changes. */
  method ThetaInPlace<L>(w: Words<L>, state: array<L>)
    requires state.Length == 25
    modifies state
    ensures state[..] == Theta(w, old(state[..]))
  {
    ghost var s := state[..];
    var c := Columns(w, state);
    for x := 0 to 5
      invariant ThetaSoFar(w, s, state[..], x, 0)
      invariant forall k :: 0 <= k < 5 ==> c[k] == Column(w, s, k)
    {
      var d := MaskOf(w, c, x, s);
      MaskColumn(w, state, x, d, s);
    }
    ThetaDone(w, s, state[..]);
  }

  /** The C table holds the offsets by x and y. */
  ghost predicate HoldsOffsets<L>(w: Words<L>, rotations: seq<seq<nat>>) {
    && |rotations| == 5 && (forall x :: 0 <= x < 5 ==> |rotations[x]| == 5)
    && (forall x, y :: 0 <= x < 5 && 0 <= y < 5 ==> rotations[x][y] == w.rho(x + 5 * y))
  }

  // ------------------------------------------------------------------- C form

  /** Lane (u, v) of the grid is lane u + 5v. */
  ghost predicate GridSoFar<L>(w: Words<L>, s: seq<L>, b: seq<L>, x: nat, y: nat) {
    |s| == |b| == 25 && forall p: Index :: Passed(SourceOf(p), x, y) ==> b[p] == RhoPiLane(w, s, p)
  }

  lemma GridNext<L>(w: Words<L>, s: seq<L>, b: seq<L>, x: nat, y: nat)
    requires x < 5 && y < 5 && GridSoFar(w, s, b, x, y)
    ensures GridSoFar(w, s, b[PiLane(x + 5 * y) := w.rotl(s[x + 5 * y], w.rho(x + 5 * y))], x, y + 1)
  {
    PiInverts(x + 5 * y);
    var c := b[PiLane(x + 5 * y) := w.rotl(s[x + 5 * y], w.rho(x + 5 * y))];
    forall p: Index | Passed(SourceOf(p), x, y + 1) ensures c[p] == RhoPiLane(w, s, p) {
      PassedNext(SourceOf(p), x, y);
      PiInverts(p);
      if p != PiLane(x + 5 * y) {
        assert SourceOf(p) != x + 5 * y;
        assert c[p] == b[p];
      }
    }
  }

  lemma GridColumn<L>(w: Words<L>, s: seq<L>, b: seq<L>, x: nat)
    requires x < 5 && GridSoFar(w, s, b, x, 5)
    ensures GridSoFar(w, s, b, x + 1, 0)
  {
    forall p: Index | Passed(SourceOf(p), x + 1, 0) ensures b[p] == RhoPiLane(w, s, p) {
      PassedNext(SourceOf(p), x, 0);
    }
  }

  lemma GridDone<L>(w: Words<L>, s: seq<L>, b: seq<L>)
    requires GridSoFar(w, s, b, 5, 0)
    ensures b == RhoPi(w, s)
  {
    forall p: Index ensures b[p] == RhoPi(w, s)[p] {
      assert Passed(SourceOf(p), 5, 0);
    }
    SameLanes(b, RhoPi(w, s));
  }

  lemma GridTarget(x: nat, y: nat)
    requires x < 5 && y < 5
    ensures PiLane(x + 5 * y) == y + 5 * ((2 * x + 3 * y) % 5)
  {
    Grid(x, y);
  }

  /** Rho and pi of the C code, with B[u][v] kept at u + 5v of one buffer: B[y][(2x + 3y) mod 5] from lane (x, y). */
  method RhoPiByGrid<L>(w: Words<L>, rotations: seq<seq<nat>>, state: array<L>) returns (b: array<L>)
    requires state.Length == 25 && HoldsOffsets(w, rotations)
    ensures fresh(b) && b.Length == 25 && b[..] == RhoPi(w, state[..])
  {
    ghost var s := state[..];
    var filler := state[0];
    b := new L[25](_ => filler);
    for x := 0 to 5
      invariant GridSoFar(w, s, b[..], x, 0)
    {
      for y := 0 to 5
        invariant GridSoFar(w, s, b[..], x, y)
      {
        ghost var before := b[..];
        GridNext(w, s, before, x, y);
        GridTarget(x, y);
        b[y + 5 * ((2 * x + 3 * y) % 5)] := w.rotl(state[x + 5 * y], rotations[x][y]);
        assert b[..] == before[PiLane(x + 5 * y) := w.rotl(s[x + 5 * y], w.rho(x + 5 * y))];
      }
      GridColumn(w, s, b[..], x);
    }
    GridDone(w, s, b[..]);
  }

  ghost predicate ChiSoFar<L>(w: Words<L>, b: seq<L>, t: seq<L>, x: nat, y: nat) {
    |b| == |t| == 25 && forall i: Index :: Passed(i, x, y) ==> t[i] == ChiLane(w, b, i)
  }

  lemma ChiNext<L>(w: Words<L>, b: seq<L>, t: seq<L>, x: nat, y: nat)
    requires x < 5 && y < 5 && ChiSoFar(w, b, t, x, y)
    ensures ChiSoFar(w, b, t[x + 5 * y := ChiLane(w, b, x + 5 * y)], x, y + 1)
  {
    forall i: Index | Passed(i, x, y + 1) ensures t[x + 5 * y := ChiLane(w, b, x + 5 * y)][i] == ChiLane(w, b, i) {
      PassedNext(i, x, y);
    }
  }

  lemma ChiColumn<L>(w: Words<L>, b: seq<L>, t: seq<L>, x: nat)
    requires x < 5 && ChiSoFar(w, b, t, x, 5)
    ensures ChiSoFar(w, b, t, x + 1, 0)
  {
    forall i: Index | Passed(i, x + 1, 0) ensures t[i] == ChiLane(w, b, i) {
      PassedNext(i, x, 0);
    }
  }

  lemma ChiDone<L>(w: Words<L>, b: seq<L>, t: seq<L>)
    requires ChiSoFar(w, b, t, 5, 0)
    ensures t == Chi(w, b)
  {
    forall i: Index ensures t[i] == Chi(w, b)[i] {
      assert Passed(i, 5, 0);
    }
    SameLanes(t, Chi(w, b));
  }

  lemma RowAt(x: nat, y: nat, shift: nat)
    requires x < 5 && y < 5
    ensures InRow(x + 5 * y, shift) == 5 * y + (x + shift) % 5
  {
    Grid(x, y);
  }

  /** Chi from the grid back into the state. */
  method ChiFromGrid<L>(w: Words<L>, b: array<L>, state: array<L>)
    requires b.Length == state.Length == 25 && b != state
    modifies state
    ensures state[..] == Chi(w, b[..])
  {
    ghost var grid := b[..];
    for x := 0 to 5
      invariant ChiSoFar(w, grid, state[..], x, 0) && b[..] == grid
    {
      for y := 0 to 5
        invariant ChiSoFar(w, grid, state[..], x, y) && b[..] == grid
      {
        ghost var before := state[..];
        ChiNext(w, grid, before, x, y);
        RowAt(x, y, 1);
        RowAt(x, y, 2);
        state[x + 5 * y] := w.xor(b[x + 5 * y], w.andNot(b[5 * y + (x + 1) % 5], b[5 * y + (x + 2) % 5]));
        assert state[..] == before[x + 5 * y := ChiLane(w, grid, x + 5 * y)];
      }
      ChiColumn(w, grid, state[..], x);
    }
    ChiDone(w, grid, state[..]);
  }

  method IotaInPlace<L>(w: Words<L>, state: array<L>, round: nat)
    requires state.Length == 25
    modifies state
    ensures state[..] == old(state[..])[0 := w.xor(old(state[0]), w.rc(round))]
  {
    state[0] := w.xor(state[0], w.rc(round));
  }

  method RoundByGrid<L>(w: Words<L>, rotations: seq<seq<nat>>, state: array<L>, round: nat)
    requires state.Length == 25 && HoldsOffsets(w, rotations)
    modifies state
    ensures state[..] == Round(w, old(state[..]), round)
  {
    ThetaInPlace(w, state);
    var b := RhoPiByGrid(w, rotations, state);
    ChiFromGrid(w, b, state);
    IotaInPlace(w, state, round);
  }

  /** The permutation of sha3.c. */
  method KeccakByGrid<L>(w: Words<L>, rotations: seq<seq<nat>>, state: array<L>)
    requires state.Length == 25 && HoldsOffsets(w, rotations)
    modifies state
    ensures state[..] == KeccakF(w, old(state[..]))
  {
    ghost var s := state[..];
    for round := 0 to ROUNDS
      invariant state[..] == Rounds(w, s, round)
    {
      RoundByGrid(w, rotations, state, round);
    }
  }

  // ---------------------------------------------------------------- CUDA form

  /** The kernel's tables hold the offsets and the positions of pi, lane by lane. */
  ghost predicate HoldsTables<L>(w: Words<L>, rho: seq<nat>, pi: seq<nat>) {
    |rho| == |pi| == 25 && forall i: Index :: rho[i] == w.rho(i) && pi[i] == PiLane(i)
  }

  ghost predicate ScatterSoFar<L>(w: Words<L>, s: seq<L>, t: seq<L>, n: nat) {
    |s| == |t| == 25 && forall p: Index :: SourceOf(p) < n ==> t[p] == RhoPiLane(w, s, p)
  }

  lemma ScatterNext<L>(w: Words<L>, s: seq<L>, t: seq<L>, n: nat)
    requires n < 25 && ScatterSoFar(w, s, t, n)
    ensures ScatterSoFar(w, s, t[PiLane(n) := w.rotl(s[n], w.rho(n))], n + 1)
  {
    PiInverts(n);
    var u := t[PiLane(n) := w.rotl(s[n], w.rho(n))];
    forall p: Index | SourceOf(p) < n + 1 ensures u[p] == RhoPiLane(w, s, p) {
      PiInverts(p);
      if p != PiLane(n) {
        assert SourceOf(p) != n;
        assert u[p] == t[p];
      }
    }
  }

  /** Rho and pi by table: lane i goes to temp[pi[i]]. */
  method RhoPiByTable<L>(w: Words<L>, rho: seq<nat>, pi: seq<nat>, state: array<L>) returns (temp: array<L>)
    requires state.Length == 25 && HoldsTables(w, rho, pi)
    ensures fresh(temp) && temp.Length == 25 && temp[..] == RhoPi(w, state[..])
  {
    ghost var s := state[..];
    var filler := state[0];
    temp := new L[25](_ => filler);
    for i := 0 to 25
      invariant ScatterSoFar(w, s, temp[..], i)
    {
      ghost var before := temp[..];
      ScatterNext(w, s, before, i);
      var index: Index := i;
      assert pi[index] == PiLane(index) && rho[index] == w.rho(index);
      temp[pi[i]] := w.rotl(state[i], rho[i]);
      assert temp[..] == before[PiLane(index) := w.rotl(s[i], w.rho(i))];
    }
    forall p: Index ensures temp[p] == RhoPi(w, s)[p] {
      assert SourceOf(p) < 25;
    }
    SameLanes(temp[..], RhoPi(w, s));
  }

  /** Chi row by row, from the temporary buffer. */
  method ChiByRows<L>(w: Words<L>, temp: array<L>, state: array<L>)
    requires temp.Length == state.Length == 25 && temp != state
    modifies state
    ensures state[..] == Chi(w, temp[..])
  {
    ghost var grid := temp[..];
    for row := 0 to 5
      invariant temp[..] == grid && forall i: Index :: i < 5 * row ==> state[i] == ChiLane(w, grid, i)
    {
      for x := 0 to 5
        invariant temp[..] == grid && forall i: Index :: i < 5 * row + x ==> state[i] == ChiLane(w, grid, i)
      {
        RowAt(x, row, 1);
        RowAt(x, row, 2);
        state[5 * row + x] := w.xor(temp[5 * row + x], w.andNot(temp[5 * row + (x + 1) % 5], temp[5 * row + (x + 2) % 5]));
      }
    }
    forall i: Index ensures state[i] == Chi(w, grid)[i] {
    }
    SameLanes(state[..], Chi(w, grid));
  }

  method RoundByTable<L>(w: Words<L>, rho: seq<nat>, pi: seq<nat>, state: array<L>, round: nat)
    requires state.Length == 25 && HoldsTables(w, rho, pi)
    modifies state
    ensures state[..] == Round(w, old(state[..]), round)
  {
    ThetaInPlace(w, state);
    var temp := RhoPiByTable(w, rho, pi, state);
    ChiByRows(w, temp, state);
    IotaInPlace(w, state, round);
  }

  /** The permutation of the CUDA kernel. */
  method KeccakByTable<L>(w: Words<L>, rho: seq<nat>, pi: seq<nat>, state: array<L>)
    requires state.Length == 25 && HoldsTables(w, rho, pi)
    modifies state
    ensures state[..] == KeccakF(w, old(state[..]))
  {
    ghost var s := state[..];
    for round := 0 to ROUNDS
      invariant state[..] == Rounds(w, s, round)
    {
      RoundByTable(w, rho, pi, state, round);
    }
  }

  /** The C form and the CUDA form, run on equal states, end in equal states. */
  method FormsAgree<L>(w: Words<L>, rotations: seq<seq<nat>>, rho: seq<nat>, pi: seq<nat>, a: array<L>, b: array<L>)
    requires a.Length == b.Length == 25 && a != b && a[..] == b[..]
    requires HoldsOffsets(w, rotations) && HoldsTables(w, rho, pi)
    modifies a, b
    ensures a[..] == b[..] == KeccakF(w, old(a[..]))
  {
    KeccakByGrid(w, rotations, a);
    KeccakByTable(w, rho, pi, b);
  }
}
