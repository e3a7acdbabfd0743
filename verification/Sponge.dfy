/** The sponge of sections 4 and 5.1 of FIPS 202 and the C function that computes it. */
module Sponge {
  import opened Keccak

  /** The permutation, and how bytes enter and leave lanes. */
  datatype Codec<!L, !B> = Codec(
    w: Words<L>, perm: seq<L> -> seq<L>, zero: L, or: (L, L) -> L, place: (B, nat) -> L, byteAt: (L, nat) -> B, zeroByte: B, orByte: (B, B) -> B)

  ghost predicate KeepsLanes<L(!new), B>(c: Codec<L, B>) {
    forall s: seq<L> :: |s| == 25 ==> |c.perm(s)| == 25
  }

  /** The permutation is Keccak-f[1600] over the word operations. */
  ghost predicate IsKeccak<L(!new), B>(c: Codec<L, B>) {
    KeepsLanes(c) && forall s: seq<L> {:trigger KeccakF(c.w, s)} :: |s| == 25 ==> c.perm(s) == KeccakF(c.w, s)
  }

  // ------------------------------------------------------------- specification

  /** The lane made of the first n of eight bytes, each put in its place. */
  function LoadLane<L, B>(c: Codec<L, B>, bytes: seq<B>, n: nat): L
    requires n <= |bytes|
    decreases n, bytes
  {
    if n == 0 then c.zero else c.or(LoadLane(c, bytes, n - 1), c.place(bytes[n - 1], n - 1))
  }

  /** The state after the first n lanes of a block went in. */
  function XorLanes<L, B>(c: Codec<L, B>, s: seq<L>, block: seq<B>, n: nat): (t: seq<L>)
    requires |s| == 25 && n <= 25 && 8 * n <= |block|
    ensures |t| == 25
    decreases n, block
  {
    if n == 0 then s
    else
      var t := XorLanes(c, s, block, n - 1);
      t[n - 1 := c.w.xor(t[n - 1], LoadLane(c, block[8 * (n - 1)..8 * n], 8))]
  }

  predicate IsRate(r: nat) {
    0 < r <= 200 && r % 8 == 0
  }

  ghost function AbsorbBlock<L(!new), B>(c: Codec<L, B>, s: seq<L>, block: seq<B>): (t: seq<L>)
    requires KeepsLanes(c)
    requires |s| == 25 && IsRate(|block|)
    ensures |t| == 25
  {
    c.perm(XorLanes(c, s, block, |block| / 8))
  }

  /** Folds the permutation over the r-byte blocks of the data. */
  ghost function Absorb<L(!new), B>(c: Codec<L, B>, s: seq<L>, data: seq<B>, r: nat): (t: seq<L>)
    requires KeepsLanes(c)
    requires |s| == 25 && IsRate(r)
    ensures |t| == 25
    decreases |data|
  {
    if |data| < r then s else Absorb(c, AbsorbBlock(c, s, data[..r]), data[r..], r)
  }

  function Repeat<B>(b: B, n: nat): (r: seq<B>)
    ensures |r| == n && forall i :: 0 <= i < n ==> r[i] == b
  {
    if n == 0 then [] else Repeat(b, n - 1) + [b]
  }

  /** The bytes after the message: domain bits first, final bit last; one byte carries both when only one is left. */
  function Padding<B>(ds: B, zeroByte: B, last: B, both: B, q: nat): (p: seq<B>)
    requires q > 0
    ensures |p| == q
  {
    if q == 1 then [both] else [ds] + Repeat(zeroByte, q - 2) + [last]
  }

  /** What is left of n bytes after whole r-byte blocks are taken away. */
  function Left(n: nat, r: nat): (m: nat)
    requires r > 0
    ensures m < r
  {
    if n < r then n else Left(n - r, r)
  }

  lemma {:induction false} LeftIsRemainder(n: nat, r: nat) returns (k: nat)
    requires r > 0
    ensures n == k * r + Left(n, r)
  {
    if n < r {
      k := 0;
    } else {
      k := LeftIsRemainder(n - r, r);
      k := k + 1;
    }
  }

  function Pad<B>(message: seq<B>, ds: B, zeroByte: B, last: B, both: B, r: nat): (p: seq<B>)
    requires r > 0
    ensures |p| == |message| + r - Left(|message|, r)
  {
    message + Padding(ds, zeroByte, last, both, r - Left(|message|, r))
  }

  function OutByte<L, B>(c: Codec<L, B>, s: seq<L>, i: nat): B
    requires |s| == 25 && i < 200
  {
    c.byteAt(s[i / 8], i % 8)
  }

  function OutBytes<L, B>(c: Codec<L, B>, s: seq<L>, n: nat): (o: seq<B>)
    requires |s| == 25 && n <= 200
    ensures |o| == n
    decreases n, s
  {
    if n == 0 then [] else OutBytes(c, s, n - 1) + [OutByte(c, s, n - 1)]
  }

  /** n output bytes, r from each state. */
  ghost function Squeeze<L(!new), B>(c: Codec<L, B>, s: seq<L>, n: nat, r: nat): (o: seq<B>)
    requires KeepsLanes(c)
    requires |s| == 25 && IsRate(r)
    ensures |o| == n
    decreases n, s
  {
    if n <= r then OutBytes(c, s, n) else OutBytes(c, s, r) + Squeeze(c, c.perm(s), n - r, r)
  }

  /** The sponge: pad, absorb block by block, squeeze. */
  ghost function Hash<L(!new), B>(c: Codec<L, B>, message: seq<B>, ds: B, last: B, r: nat, n: nat): (o: seq<B>)
    requires KeepsLanes(c)
    requires IsRate(r)
    ensures |o| == n
  {
    var padded := Pad(message, ds, c.zeroByte, c.orByte(c.zeroByte, last), c.orByte(ds, last), r);
    Squeeze(c, Absorb(c, Repeat(c.zero, 25), padded, r), n, r)
  }

  // ------------------------------------------------------------------ C function

  /** Lanes built byte by byte and xor-ed into the state. */
  method XorBlock<L, B>(c: Codec<L, B>, state: array<L>, input: seq<B>, offset: nat, r: nat)
    requires state.Length == 25 && IsRate(r) && offset + r <= |input|
    modifies state
    ensures state[..] == XorLanes(c, old(state[..]), input[offset..offset + r], r / 8)
  {
    ghost var s, block := state[..], input[offset..offset + r];
    for i := 0 to r / 8
      invariant state[..] == XorLanes(c, s, block, i)
    {
      ghost var eight := block[8 * i..8 * (i + 1)];
      var lane := c.zero;
      for j := 0 to 8
        invariant lane == LoadLane(c, eight, j)
      {
        assert eight[j] == input[offset + i * 8 + j];
        lane := c.or(lane, c.place(input[offset + i * 8 + j], j));
      }
      ghost var t := state[..];
      state[i] := c.w.xor(state[i], lane);
      assert state[..] == t[i := c.w.xor(t[i], lane)];
    }
  }

  /** One block into the state, then the permutation. */
  method AbsorbOne<L(!new), B>(c: Codec<L, B>, rotations: seq<seq<nat>>, state: array<L>, input: seq<B>, offset: nat, r: nat)
    requires state.Length == 25 && HoldsOffsets(c.w, rotations) && IsKeccak(c) && IsRate(r) && offset + r <= |input|
    modifies state
    ensures state[..] == AbsorbBlock(c, old(state[..]), input[offset..offset + r])
  {
    XorBlock(c, state, input, offset, r);
    KeccakByGrid(c.w, rotations, state);
  }

  /** The bytes of the last block: what is left of the input, the domain byte, zeros, and the final bit or-ed in. */
  method LastBlock<L, B>(c: Codec<L, B>, input: seq<B>, offset: nat, ds: B, last: B, r: nat) returns (block: seq<B>)
    requires IsRate(r) && offset <= |input| < offset + r
    ensures block == input[offset..] + Padding(ds, c.zeroByte, c.orByte(c.zeroByte, last), c.orByte(ds, last), r - (|input| - offset))
  {
    var pad := new B[200](_ => c.zeroByte);
    var remaining := |input| - offset;
    for i := 0 to remaining
      invariant forall k :: 0 <= k < i ==> pad[k] == input[offset + k]
      invariant forall k :: i <= k < 200 ==> pad[k] == c.zeroByte
    {
      pad[i] := input[offset + i];
    }
    pad[remaining] := ds;
    pad[r - 1] := c.orByte(pad[r - 1], last);
    block := pad[..r];
    ghost var padding := Padding(ds, c.zeroByte, c.orByte(c.zeroByte, last), c.orByte(ds, last), r - remaining);
    forall k | 0 <= k < r ensures block[k] == (input[offset..] + padding)[k] {
      if k >= remaining {
        assert (input[offset..] + padding)[k] == padding[k - remaining];
      }
    }
  }

  /** The first n bytes of the state. */
  method Emit<L, B>(c: Codec<L, B>, state: array<L>, n: nat) returns (bytes: seq<B>)
    requires state.Length == 25 && n <= 200
    ensures bytes == OutBytes(c, state[..], n)
  {
    bytes := [];
    for i := 0 to n
      invariant bytes == OutBytes(c, state[..], i)
    {
      bytes := bytes + [c.byteAt(state[i / 8], i % 8)];
    }
  }

  method SqueezeAll<L(!new), B>(c: Codec<L, B>, rotations: seq<seq<nat>>, state: array<L>, n: nat, r: nat) returns (output: seq<B>)
    requires state.Length == 25 && HoldsOffsets(c.w, rotations) && IsKeccak(c) && IsRate(r)
    modifies state
    ensures output == Squeeze(c, old(state[..]), n, r)
  {
    output := [];
    var left := n;
    ghost var total := Squeeze(c, state[..], n, r);
    ghost var rest := total;
    while left > 0
      invariant total == output + rest
      invariant rest == if left > 0 then Squeeze(c, state[..], left, r) else []
      decreases left
    {
      var blockSize: nat := if left > r then r else left;
      SqueezeNext(c, state[..], left, r);
      var bytes := Emit(c, state, blockSize);
      left := left - blockSize;
      if left > 0 {
        KeccakByGrid(c.w, rotations, state);
      }
      ghost var tail := if left > 0 then Squeeze(c, state[..], left, r) else [];
      Regroup(output, bytes, tail);
      output := output + bytes;
      rest := tail;
    }
  }

  lemma Regroup<B>(a: seq<B>, b: seq<B>, c: seq<B>)
    ensures a + (b + c) == a + b + c
  {
  }

  lemma SqueezeNext<L(!new), B>(c: Codec<L, B>, s: seq<L>, left: nat, r: nat)
    requires KeepsLanes(c)
    requires |s| == 25 && IsRate(r) && left > 0
    ensures Squeeze(c, s, left, r) ==
              if left > r then OutBytes(c, s, r) + Squeeze(c, c.perm(s), left - r, r) else OutBytes(c, s, left) + []
  {
  }

  /** The function `keccak` of sha3.c: for every input length it computes the sponge. */
  method KeccakC<L(!new), B>(c: Codec<L, B>, rotations: seq<seq<nat>>, input: seq<B>, outputLen: nat, rateBits: nat, ds: B, last: B)
    returns (output: seq<B>)
    requires HoldsOffsets(c.w, rotations) && IsKeccak(c) && IsRate(rateBits / 8)
    ensures output == Hash(c, input, ds, last, rateBits / 8, outputLen)
  {
    var zero := c.zero;
    var state := new L[25](_ => zero);
    assert state[..] == Repeat(c.zero, 25);
    AbsorbAll(c, rotations, state, input, rateBits / 8, ds, last);
    output := SqueezeAll(c, rotations, state, outputLen, rateBits / 8);
  }

  /** Absorbs the whole blocks of the input where they stand, then the padded last block. */
  method AbsorbAll<L(!new), B>(c: Codec<L, B>, rotations: seq<seq<nat>>, state: array<L>, input: seq<B>, r: nat, ds: B, last: B)
    requires state.Length == 25 && HoldsOffsets(c.w, rotations) && IsKeccak(c) && IsRate(r)
    modifies state
    ensures state[..] == Absorb(c, old(state[..]), Pad(input, ds, c.zeroByte, c.orByte(c.zeroByte, last), c.orByte(ds, last), r), r)
  {
    ghost var padded := Pad(input, ds, c.zeroByte, c.orByte(c.zeroByte, last), c.orByte(ds, last), r);
    ghost var result := Absorb(c, state[..], padded, r);
    var offset := 0;
    assert padded[0..] == padded;
    while offset + r <= |input|
      invariant 0 <= offset <= |input| && Left(|input| - offset, r) == Left(|input|, r)
      invariant result == Absorb(c, state[..], padded[offset..], r)
      decreases |input| - offset
    {
      NextBlock(c, state[..], padded, input, offset, r);
      AbsorbOne(c, rotations, state, input, offset, r);
      offset := offset + r;
    }
    AbsorbLast(c, rotations, state, input, offset, ds, last, r);
  }

  method AbsorbLast<L(!new), B>(
      c: Codec<L, B>, rotations: seq<seq<nat>>, state: array<L>, input: seq<B>, offset: nat, ds: B, last: B, r: nat)
    requires state.Length == 25 && HoldsOffsets(c.w, rotations) && IsKeccak(c) && IsRate(r)
    requires offset <= |input| && |input| - offset == Left(|input|, r)
    modifies state
    ensures var padded := Pad(input, ds, c.zeroByte, c.orByte(c.zeroByte, last), c.orByte(ds, last), r);
            state[..] == Absorb(c, old(state[..]), padded[offset..], r)
  {
    var block := LastBlock(c, input, offset, ds, last, r);
    ghost var padded := Pad(input, ds, c.zeroByte, c.orByte(c.zeroByte, last), c.orByte(ds, last), r);
    PaddedEnd(input, ds, c.zeroByte, c.orByte(c.zeroByte, last), c.orByte(ds, last), r, offset);
    OnlyBlock(c, state[..], padded, block, offset, r);
    AbsorbOne(c, rotations, state, block, 0, r);
  }

  lemma PaddedEnd<B>(message: seq<B>, ds: B, zeroByte: B, last: B, both: B, r: nat, offset: nat)
    requires r > 0 && offset <= |message| && |message| - offset == Left(|message|, r)
    ensures Pad(message, ds, zeroByte, last, both, r)[offset..]
            == message[offset..] + Padding(ds, zeroByte, last, both, r - (|message| - offset))
  {
  }

  lemma NextBlock<L(!new), B>(c: Codec<L, B>, s: seq<L>, padded: seq<B>, input: seq<B>, offset: nat, r: nat)
    requires KeepsLanes(c)
    requires |s| == 25 && IsRate(r) && offset + r <= |input| <= |padded| && padded[..|input|] == input
    ensures Absorb(c, s, padded[offset..], r) == Absorb(c, AbsorbBlock(c, s, input[offset..offset + r]), padded[offset + r..], r)
  {
    assert padded[offset..][..r] == input[offset..offset + r];
    assert padded[offset..][r..] == padded[offset + r..];
  }

  lemma OnlyBlock<L(!new), B>(c: Codec<L, B>, s: seq<L>, padded: seq<B>, block: seq<B>, offset: nat, r: nat)
    requires KeepsLanes(c)
    requires |s| == 25 && IsRate(r) && offset <= |padded| && padded[offset..] == block && |block| == r
    ensures block[0..r] == block && Absorb(c, s, padded[offset..], r) == AbsorbBlock(c, s, block)
  {
    assert block[..r] == block;
  }
}
