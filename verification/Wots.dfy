/** The WOTS+ one-time signature: hash chains, message chunks with checksum, flat keys. */
module Wots {
  import opened ByteStrings

  const N: nat := 32
  const W: nat := 16
  const LEN1: nat := 64
  const LEN: nat := 67
  const SIG_SIZE: nat := 2144

  // ------------------------------------------------------------- hash chains

  /** H^n(x). */
  function Chain(h: Sha256, x: Bytes, n: nat): (r: Bytes)
    ensures n > 0 ==> |r| == N
    decreases n, x
  {
    if n == 0 then x else h(Chain(h, x, n - 1))
  }

  lemma {:induction false} ChainComposes(h: Sha256, x: Bytes, a: nat, b: nat)
    ensures Chain(h, Chain(h, x, a), b) == Chain(h, x, a + b)
  {
    if b > 0 {
      ChainComposes(h, x, a, b - 1);
    }
  }

  // ------------------------------------------------------------ message chunks

  type Nibble = x: int | 0 <= x < 16

  function Nibbles(d: Digest): (r: seq<Nibble>)
    ensures |r| == LEN1
  {
    seq(LEN1, i requires 0 <= i < LEN1 => if i % 2 == 0 then d[i / 2] / 16 else d[i / 2] % 16)
  }

  /** Sum of w - 1 - c over the message chunks. */
  function Checksum(chunks: seq<Nibble>): (s: nat)
    ensures s <= 15 * |chunks|
  {
    if chunks == [] then 0 else Checksum(chunks[..|chunks| - 1]) + 15 - chunks[|chunks| - 1]
  }

  function ChecksumNibbles(checksum: nat): (r: seq<Nibble>)
    ensures |r| == 3
  {
    [checksum / 256 % 16, checksum / 16 % 16, checksum % 16]
  }

  function Chunks(d: Digest): (r: seq<Nibble>)
    ensures |r| == LEN
  {
    Nibbles(d) + ChecksumNibbles(Checksum(Nibbles(d)))
  }

  /** The chunks are the digest in base 16, high half of each byte first, and the checksum in base 16. */
  lemma ChunksAreBase16(d: Digest, i: nat)
    requires i < 32
    ensures d[i] == 16 * (Chunks(d)[2 * i] as int) + Chunks(d)[2 * i + 1] as int
    ensures 256 * (Chunks(d)[64] as int) + 16 * (Chunks(d)[65] as int) + Chunks(d)[66] as int == Deficit(Chunks(d)[..64])
  {
    assert Chunks(d)[..64] == Nibbles(d);
    ChecksumIsDeficit(Nibbles(d));
    NibblesWeigh(Checksum(Nibbles(d)));
    assert Chunks(d)[2 * i] == Nibbles(d)[2 * i] && Chunks(d)[2 * i + 1] == Nibbles(d)[2 * i + 1];
  }

  /** What the chunks fall short of all being 15. */
  function Deficit(chunks: seq<Nibble>): int {
    15 * |chunks| - ChunkSum(chunks)
  }

  function ChunkSum(chunks: seq<Nibble>): int {
    if chunks == [] then 0 else chunks[0] + ChunkSum(chunks[1..])
  }

  lemma {:induction false} ChunkSumLast(chunks: seq<Nibble>)
    requires chunks != []
    ensures ChunkSum(chunks) == ChunkSum(chunks[..|chunks| - 1]) + chunks[|chunks| - 1]
  {
    if |chunks| > 1 {
      ChunkSumLast(chunks[1..]);
      assert chunks[1..][..|chunks| - 2] == chunks[..|chunks| - 1][1..];
    }
  }

  lemma {:induction false} ChecksumIsDeficit(chunks: seq<Nibble>)
    ensures Checksum(chunks) == Deficit(chunks)
  {
    if chunks != [] {
      ChunkSumLast(chunks);
      ChecksumIsDeficit(chunks[..|chunks| - 1]);
    }
  }

  lemma {:induction false} ChecksumAntitone(a: seq<Nibble>, b: seq<Nibble>)
    requires |a| == |b|
    requires forall i :: 0 <= i < |a| ==> a[i] >= b[i]
    ensures Checksum(a) <= Checksum(b)
    ensures a != b ==> Checksum(a) < Checksum(b)
  {
    if a != [] {
      var n := |a| - 1;
      var c, d := a[..n], b[..n];
      ChecksumAntitone(c, d);
      assert a == c + [a[n]] && b == d + [b[n]];
    }
  }

  lemma NibblesInjective(d: Digest, e: Digest)
    requires Nibbles(d) == Nibbles(e)
    ensures d == e
  {
    forall i | 0 <= i < 32 ensures d[i] == e[i] {
      assert Nibbles(d)[2 * i] == Nibbles(e)[2 * i];
      assert Nibbles(d)[2 * i + 1] == Nibbles(e)[2 * i + 1];
      assert d[i] == 16 * (d[i] / 16) + d[i] % 16;
    }
  }

  lemma NibblesWeigh(a: nat)
    requires a < 4096
    ensures var n := ChecksumNibbles(a); |n| == 3 && a == 256 * (n[0] as int) + 16 * (n[1] as int) + n[2] as int
  {
    assert a / 256 == a / 16 / 16 && a / 256 % 16 == a / 256;
  }

  /** Three nibbles hold every possible checksum, so larger nibbles mean a checksum no smaller. */
  lemma ChecksumNibblesMonotone(a: nat, b: nat)
    requires a < 4096 && b < 4096
    requires forall i :: 0 <= i < 3 ==> ChecksumNibbles(a)[i] >= ChecksumNibbles(b)[i]
    ensures a >= b
  {
    NibblesWeigh(a);
    NibblesWeigh(b);
    var m, n := ChecksumNibbles(a), ChecksumNibbles(b);
    assert m[0] >= n[0] && m[1] >= n[1] && m[2] >= n[2];
  }

  /** Going from one digest to a different one, some chunk must get strictly smaller. */
  lemma SomeChunkDecreases(d: Digest, e: Digest) returns (i: nat)
    requires d != e
    ensures i < LEN && Chunks(e)[i] < Chunks(d)[i]
  {
    var a, b := Nibbles(d), Nibbles(e);
    if j :| 0 <= j < LEN && Chunks(e)[j] < Chunks(d)[j] {
      i := j;
    } else {
      forall j | 0 <= j < LEN1 ensures b[j] >= a[j] {
        assert Chunks(e)[j] >= Chunks(d)[j];
      }
      if a == b {
        NibblesInjective(d, e);
      }
      ChecksumAntitone(b, a);
      forall j | 0 <= j < 3
        ensures ChecksumNibbles(Checksum(b))[j] >= ChecksumNibbles(Checksum(a))[j]
      {
        assert Chunks(e)[LEN1 + j] >= Chunks(d)[LEN1 + j];
      }
      ChecksumNibblesMonotone(Checksum(b), Checksum(a));
      assert false;
    }
  }

  /** The chunk vectors of different digests are incomparable: no signature can be pushed to another digest. */
  lemma ChunksAreAnAntichain(d: Digest, e: Digest)
    requires d != e
    ensures exists i, j :: 0 <= i < LEN && 0 <= j < LEN &&
              Chunks(e)[i] < Chunks(d)[i] && Chunks(d)[j] < Chunks(e)[j]
  {
    var i := SomeChunkDecreases(d, e);
    var j := SomeChunkDecreases(e, d);
    assert Chunks(e)[i] < Chunks(d)[i] && Chunks(d)[j] < Chunks(e)[j];
  }

  // -------------------------------------------------------------- flat buffers

  function Join(parts: seq<Bytes>): Bytes {
    if parts == [] then [] else Join(parts[..|parts| - 1]) + parts[|parts| - 1]
  }

  /** The i-th 32-byte cell of a flat buffer, clamped as Python slicing does. */
  function Cell(buffer: Bytes, i: nat): Bytes {
    Slice(buffer, i * N, (i + 1) * N)
  }

  lemma {:induction false} JoinLength(parts: seq<Bytes>)
    requires forall i :: 0 <= i < |parts| ==> |parts[i]| == N
    ensures |Join(parts)| == N * |parts|
  {
    if parts != [] {
      JoinLength(parts[..|parts| - 1]);
    }
  }

  lemma {:induction false} CellOfJoin(parts: seq<Bytes>, i: nat)
    requires forall j :: 0 <= j < |parts| ==> |parts[j]| == N
    requires i < |parts|
    ensures Cell(Join(parts), i) == parts[i]
  {
    var n := |parts| - 1;
    JoinLength(parts[..n]);
    JoinLength(parts);
    if i < n {
      CellOfJoin(parts[..n], i);
      assert Join(parts)[i * N..(i + 1) * N] == Join(parts[..n])[i * N..(i + 1) * N];
    } else {
      assert Join(parts)[n * N..(n + 1) * N] == parts[n];
    }
  }

  /** Two buffers of 67 cells are equal when their cells are. */
  lemma CellsDetermineBuffer(a: Bytes, b: Bytes)
    requires |a| == |b| == SIG_SIZE
    requires forall i :: 0 <= i < LEN ==> Cell(a, i) == Cell(b, i)
    ensures a == b
  {
    forall k | 0 <= k < SIG_SIZE ensures a[k] == b[k] {
      var i := k / N;
      assert Cell(a, i)[k - i * N] == a[k];
      assert Cell(b, i)[k - i * N] == b[k];
    }
  }

  // ---------------------------------------------------- keys and signatures

  const CHAIN_TAG: Bytes := [119, 111, 116, 115, 95, 99, 104, 97, 105, 110]

  function ChainInput(seed: Bytes, i: nat): Bytes {
    seed + CHAIN_TAG + Be(i, 8)
  }

  function ChainSeed(h: Sha256, seed: Bytes, i: nat): Digest {
    h(ChainInput(seed, i))
  }

  function PrivateKey(h: Sha256, seed: Bytes): Bytes {
    Join(seq(LEN, i requires 0 <= i < LEN => ChainSeed(h, seed, i)))
  }

  function PublicKey(h: Sha256, seed: Bytes): Bytes {
    Join(seq(LEN, i requires 0 <= i < LEN => Chain(h, ChainSeed(h, seed, i), W - 1)))
  }

  function Signature(h: Sha256, d: Digest, privateKey: Bytes): Bytes {
    Join(seq(LEN, i requires 0 <= i < LEN => Chain(h, Cell(privateKey, i), Chunks(d)[i])))
  }

  /** Chain i of the signature, walked to the end, is cell i of the public key. */
  predicate ChainValid(h: Sha256, d: Digest, signature: Bytes, publicKey: Bytes, i: nat)
    requires i < LEN
  {
    Chain(h, Cell(signature, i), W - 1 - Chunks(d)[i]) == Cell(publicKey, i)
  }

  /** Acceptance of a signature for an already hashed message. */
  predicate VerifiesDigest(h: Sha256, d: Digest, signature: Bytes, publicKey: Bytes) {
    forall i :: 0 <= i < LEN ==> ChainValid(h, d, signature, publicKey, i)
  }

  predicate Verifies(h: Sha256, message: Bytes, signature: Bytes, publicKey: Bytes) {
    VerifiesDigest(h, h(message), signature, publicKey)
  }

  lemma PrivateKeyCells(h: Sha256, seed: Bytes)
    ensures |PrivateKey(h, seed)| == SIG_SIZE
    ensures forall i :: 0 <= i < LEN ==> Cell(PrivateKey(h, seed), i) == ChainSeed(h, seed, i)
  {
    var parts: seq<Bytes> := seq(LEN, i requires 0 <= i < LEN => ChainSeed(h, seed, i));
    JoinLength(parts);
    forall i | 0 <= i < LEN ensures Cell(PrivateKey(h, seed), i) == ChainSeed(h, seed, i) {
      CellOfJoin(parts, i);
    }
  }

  lemma PublicKeyCells(h: Sha256, seed: Bytes)
    ensures |PublicKey(h, seed)| == SIG_SIZE
    ensures forall i :: 0 <= i < LEN ==> Cell(PublicKey(h, seed), i) == Chain(h, ChainSeed(h, seed, i), W - 1)
  {
    var parts := seq(LEN, i requires 0 <= i < LEN => Chain(h, ChainSeed(h, seed, i), W - 1));
    JoinLength(parts);
    forall i | 0 <= i < LEN ensures Cell(PublicKey(h, seed), i) == Chain(h, ChainSeed(h, seed, i), W - 1) {
      CellOfJoin(parts, i);
    }
  }

  lemma SignatureCells(h: Sha256, d: Digest, privateKey: Bytes)
    requires |privateKey| == SIG_SIZE
    ensures |Signature(h, d, privateKey)| == SIG_SIZE
    ensures forall i :: 0 <= i < LEN ==>
              Cell(Signature(h, d, privateKey), i) == Chain(h, Cell(privateKey, i), Chunks(d)[i])
  {
    var parts := seq(LEN, i requires 0 <= i < LEN => Chain(h, Cell(privateKey, i), Chunks(d)[i]));
    JoinLength(parts);
    forall i | 0 <= i < LEN
      ensures Cell(Signature(h, d, privateKey), i) == Chain(h, Cell(privateKey, i), Chunks(d)[i])
    {
      CellOfJoin(parts, i);
    }
  }

  /** Whatever is signed with a generated key verifies under the matching public key. */
  lemma SignaturesVerify(h: Sha256, seed: Bytes, message: Bytes)
    ensures Verifies(h, message, Signature(h, h(message), PrivateKey(h, seed)), PublicKey(h, seed))
  {
    var d := h(message);
    PrivateKeyCells(h, seed);
    PublicKeyCells(h, seed);
    SignatureCells(h, d, PrivateKey(h, seed));
    forall i | 0 <= i < LEN
      ensures ChainValid(h, d, Signature(h, d, PrivateKey(h, seed)), PublicKey(h, seed), i)
    {
      ChainComposes(h, ChainSeed(h, seed, i), Chunks(d)[i], W - 1 - Chunks(d)[i]);
    }
  }

  // ------------------------------------------- two signatures under one public key

  /** After k steps from x and from y stand two different strings of the same hash. */
  predicate CollideAt(h: Sha256, x: Bytes, y: Bytes, k: nat) {
    Chain(h, x, k) != Chain(h, y, k) && Chain(h, x, k + 1) == Chain(h, y, k + 1)
  }

  /** The walks of n steps from x and from y run into a collision. */
  ghost predicate WalksCollide(h: Sha256, x: Bytes, y: Bytes, n: nat) {
    exists k :: 0 <= k < n && CollideAt(h, x, y, k)
  }

  /** Strings that walk to the same end in n steps are equal, or their walks collide. */
  lemma {:induction false} SameEnd(h: Sha256, x: Bytes, y: Bytes, n: nat)
    requires Chain(h, x, n) == Chain(h, y, n)
    ensures x == y || WalksCollide(h, x, y, n)
  {
    if n > 0 {
      var m := n - 1;
      if Chain(h, x, m) == Chain(h, y, m) {
        SameEnd(h, x, y, m);
      } else {
        assert CollideAt(h, x, y, m);
      }
    }
  }

  /** Signature t enters chain i before signature s does, and s follows from it there, unless the walks collide. */
  ghost predicate EntersEarlier(h: Sha256, d: Digest, s: Bytes, e: Digest, t: Bytes, i: nat) {
    && i < LEN && Chunks(e)[i] < Chunks(d)[i]
    && var walked := Chain(h, Cell(t, i), Chunks(d)[i] - Chunks(e)[i]);
       walked == Cell(s, i) || WalksCollide(h, walked, Cell(s, i), W - 1 - Chunks(d)[i])
  }

  lemma DecreaseEntersEarlier(h: Sha256, d: Digest, s: Bytes, e: Digest, t: Bytes, publicKey: Bytes, i: nat)
    requires VerifiesDigest(h, d, s, publicKey) && VerifiesDigest(h, e, t, publicKey)
    requires i < LEN && Chunks(e)[i] < Chunks(d)[i]
    ensures EntersEarlier(h, d, s, e, t, i)
  {
    var a, b := Chunks(d)[i] - Chunks(e)[i], W - 1 - Chunks(d)[i];
    ChainComposes(h, Cell(t, i), a, b);
    assert ChainValid(h, d, s, publicKey, i) && ChainValid(h, e, t, publicKey, i);
    SameEnd(h, Chain(h, Cell(t, i), a), Cell(s, i), b);
  }

  /**
   * If signatures for two different digests are accepted under one public key, each of them holds an earlier value
   * of some chain than the other does: neither can be made from the other by hashing on, short of a collision.
   */
  lemma AcceptedSignaturesCross(h: Sha256, d: Digest, s: Bytes, e: Digest, t: Bytes, publicKey: Bytes)
    requires d != e && VerifiesDigest(h, d, s, publicKey) && VerifiesDigest(h, e, t, publicKey)
    ensures exists i, j :: EntersEarlier(h, d, s, e, t, i) && EntersEarlier(h, e, t, d, s, j)
  {
    var i := SomeChunkDecreases(d, e);
    var j := SomeChunkDecreases(e, d);
    DecreaseEntersEarlier(h, d, s, e, t, publicKey, i);
    DecreaseEntersEarlier(h, e, t, d, s, publicKey, j);
  }

  /** Two signatures accepted for one digest under one public key agree in every cell, short of a collision. */
  lemma AcceptedCellsAgree(h: Sha256, d: Digest, s: Bytes, t: Bytes, publicKey: Bytes, i: nat)
    requires VerifiesDigest(h, d, s, publicKey) && VerifiesDigest(h, d, t, publicKey) && i < LEN
    ensures Cell(s, i) == Cell(t, i) || WalksCollide(h, Cell(s, i), Cell(t, i), W - 1 - Chunks(d)[i])
  {
    assert ChainValid(h, d, s, publicKey, i) && ChainValid(h, d, t, publicKey, i);
    SameEnd(h, Cell(s, i), Cell(t, i), W - 1 - Chunks(d)[i]);
  }

  // ---------------------------------------------------------- other buffer lengths

  lemma CellOfSlice(buffer: Bytes, i: nat)
    requires i < LEN
    ensures Cell(Slice(buffer, 0, SIG_SIZE), i) == Cell(buffer, i)
  {
    var t, lo, hi := Slice(buffer, 0, SIG_SIZE), i * N, (i + 1) * N;
    assert lo <= hi <= SIG_SIZE;
    if |buffer| <= SIG_SIZE {
      assert t == buffer;
    } else {
      assert t == buffer[..SIG_SIZE];
      assert t[lo..hi] == buffer[lo..hi];
    }
  }

  /** Lengths are not examined: whatever follows the first 2144 bytes of either buffer is ignored. */
  lemma RestIsIgnored(h: Sha256, message: Bytes, signature: Bytes, publicKey: Bytes)
    ensures Verifies(h, message, signature, publicKey)
       <==> Verifies(h, message, Slice(signature, 0, SIG_SIZE), Slice(publicKey, 0, SIG_SIZE))
  {
    var s, p := Slice(signature, 0, SIG_SIZE), Slice(publicKey, 0, SIG_SIZE);
    forall i | 0 <= i < LEN ensures Cell(s, i) == Cell(signature, i) && Cell(p, i) == Cell(publicKey, i) {
      CellOfSlice(signature, i);
      CellOfSlice(publicKey, i);
    }
    SameCellsVerify(h, h(message), s, p, signature, publicKey);
    SameCellsVerify(h, h(message), signature, publicKey, s, p);
  }

  lemma SameCellsVerify(h: Sha256, d: Digest, s: Bytes, p: Bytes, signature: Bytes, publicKey: Bytes)
    requires forall i :: 0 <= i < LEN ==> Cell(s, i) == Cell(signature, i) && Cell(p, i) == Cell(publicKey, i)
    ensures VerifiesDigest(h, d, s, p) ==> VerifiesDigest(h, d, signature, publicKey)
  {
    if VerifiesDigest(h, d, s, p) {
      forall i | 0 <= i < LEN ensures ChainValid(h, d, signature, publicKey, i) {
        assert ChainValid(h, d, s, p, i);
        assert Cell(s, i) == Cell(signature, i);
      }
    }
  }

  /** A public key cell that is cut short matches only a signature cell that is not hashed at all. */
  lemma ShortCellValidIff(h: Sha256, d: Digest, signature: Bytes, publicKey: Bytes, i: nat)
    requires i < LEN && |Cell(publicKey, i)| < N
    ensures ChainValid(h, d, signature, publicKey, i) <==> Chunks(d)[i] == W - 1 && Cell(signature, i) == Cell(publicKey, i)
  {
    var remaining := W - 1 - Chunks(d)[i];
    assert remaining > 0 ==> |Chain(h, Cell(signature, i), remaining)| == N;
  }

  /** A public key without its first checksum cell verifies nothing: that chunk is at most 3. */
  lemma ShortKeyVerifiesNothing(h: Sha256, message: Bytes, signature: Bytes, publicKey: Bytes)
    requires |publicKey| < 65 * N
    ensures !Verifies(h, message, signature, publicKey)
  {
    var d := h(message);
    assert Chunks(d)[64] == ChecksumNibbles(Checksum(Nibbles(d)))[0] <= 3;
    ShortCellValidIff(h, d, signature, publicKey, 64);
    assert !ChainValid(h, d, signature, publicKey, 64);
  }

  // ------------------------------------------------- the Python implementation

  method HashChain(h: Sha256, start: Bytes, iterations: nat) returns (current: Bytes)
    ensures current == Chain(h, start, iterations)
  {
    current := start;
    for k := 0 to iterations
      invariant current == Chain(h, start, k)
    {
      current := h(current);
    }
  }

  method Keygen(h: Sha256, seed: Bytes) returns (privateKey: Bytes, publicKey: Bytes)
    ensures privateKey == PrivateKey(h, seed) && publicKey == PublicKey(h, seed)
  {
    var privateChains: seq<Bytes> := [];
    for i := 0 to LEN
      invariant privateChains == seq(i, k requires 0 <= k < i => ChainSeed(h, seed, k))
    {
      privateChains := privateChains + [h(seed + CHAIN_TAG + Be(i, 8))];
    }
    var publicChains: seq<Bytes> := [];
    for i := 0 to LEN
      invariant publicChains == seq(i, k requires 0 <= k < i => Chain(h, ChainSeed(h, seed, k), W - 1))
    {
      var end := HashChain(h, privateChains[i], W - 1);
      publicChains := publicChains + [end];
    }
    assert privateChains == seq(LEN, i requires 0 <= i < LEN => ChainSeed(h, seed, i));
    assert publicChains == seq(LEN, i requires 0 <= i < LEN => Chain(h, ChainSeed(h, seed, i), W - 1));
    privateKey := Join(privateChains);
    publicKey := Join(publicChains);
  }

  method ComputeChunks(h: Sha256, message: Bytes) returns (chunks: seq<Nibble>)
    ensures chunks == Chunks(h(message))
  {
    var msgHash := h(message);
    chunks := [];
    for i := 0 to 32
      invariant |chunks| == 2 * i
      invariant forall k :: 0 <= k < 2 * i ==> chunks[k] == Nibbles(msgHash)[k]
    {
      chunks := chunks + [msgHash[i] / 16] + [msgHash[i] % 16];
    }
    assert chunks == Nibbles(msgHash);
    var checksum := 0;
    for i := 0 to LEN1
      invariant checksum == Checksum(chunks[..i])
    {
      assert chunks[..i + 1][..i] == chunks[..i];
      checksum := checksum + W - 1 - chunks[i];
    }
    assert chunks[..LEN1] == chunks;
    chunks := chunks + [checksum / 256 % 16, checksum / 16 % 16, checksum % 16];
  }

  method Sign(h: Sha256, message: Bytes, privateKey: Bytes) returns (signature: Bytes)
    ensures signature == Signature(h, h(message), privateKey)
  {
    var chunks := ComputeChunks(h, message);
    var chains: seq<Bytes> := [];
    for i := 0 to LEN
      invariant chains == seq(i, k requires 0 <= k < i => Chain(h, Cell(privateKey, k), chunks[k]))
    {
      var value := HashChain(h, Slice(privateKey, i * N, (i + 1) * N), chunks[i]);
      chains := chains + [value];
    }
    assert chains == seq(LEN, i requires 0 <= i < LEN => Chain(h, Cell(privateKey, i), Chunks(h(message))[i]));
    signature := Join(chains);
  }

  method Verify(h: Sha256, message: Bytes, signature: Bytes, publicKey: Bytes) returns (ok: bool)
    ensures ok == Verifies(h, message, signature, publicKey)
  {
    var chunks := ComputeChunks(h, message);
    for i := 0 to LEN
      invariant forall k :: 0 <= k < i ==> ChainValid(h, h(message), signature, publicKey, k)
    {
      var computed := HashChain(h, Slice(signature, i * N, (i + 1) * N), W - 1 - chunks[i]);
      if computed != Slice(publicKey, i * N, (i + 1) * N) {
        assert !ChainValid(h, h(message), signature, publicKey, i);
        return false;
      }
    }
    return true;
  }
}
