/** Merkle trees: the recursive definition, proofs, binding, and the Python and C builders. */
module Merkle {
  import opened Wrappers
  import opened ByteStrings

  function Pow2(k: nat): (p: nat)
    ensures p > 0
  {
    if k == 0 then 1 else 2 * Pow2(k - 1)
  }

  const PAD_TAG: Bytes := [112, 97, 100]
  const EMPTY_TAG: Bytes := [101, 109, 112, 116, 121]

  function NodeHash(h: Sha256, left: Bytes, right: Bytes): Digest {
    h(left + right)
  }

  // ------------------------------------------------------- the recursive tree

  /** Root of a perfect tree of depth k over its 2^k leaf hashes. */
  function Root(h: Sha256, leaves: seq<Digest>, k: nat): Digest
    requires |leaves| == Pow2(k)
    decreases k, leaves
  {
    if k == 0 then leaves[0]
    else
      var half := Pow2(k - 1);
      NodeHash(h, Root(h, leaves[..half], k - 1), Root(h, leaves[half..], k - 1))
  }

  /** One level up: parents of consecutive pairs. */
  function Up(h: Sha256, level: seq<Digest>): (r: seq<Digest>)
    ensures |r| == |level| / 2
  {
    if |level| < 2 then [] else [NodeHash(h, level[0], level[1])] + Up(h, level[2..])
  }

  lemma {:induction false} UpAt(h: Sha256, level: seq<Digest>, i: nat)
    requires i < |level| / 2
    ensures Up(h, level)[i] == NodeHash(h, level[2 * i], level[2 * i + 1])
  {
    if i > 0 {
      UpAt(h, level[2..], i - 1);
    }
  }

  lemma UpOfHalves(h: Sha256, level: seq<Digest>, half: nat)
    requires |level| == 2 * half && half % 2 == 0
    ensures Up(h, level[..half]) == Up(h, level)[..half / 2]
    ensures Up(h, level[half..]) == Up(h, level)[half / 2..]
  {
    forall i | 0 <= i < half / 2
      ensures Up(h, level[..half])[i] == Up(h, level)[i]
      ensures Up(h, level[half..])[i] == Up(h, level)[half / 2 + i]
    {
      UpAt(h, level[..half], i);
      UpAt(h, level[half..], i);
      UpAt(h, level, i);
      UpAt(h, level, half / 2 + i);
    }
  }

  /** Building by halves and building level by level give the same root. */
  lemma {:induction false} RootOfUp(h: Sha256, level: seq<Digest>, k: nat)
    requires k > 0 && |level| == Pow2(k)
    ensures Root(h, level, k) == Root(h, Up(h, level), k - 1)
    decreases k
  {
    if k > 1 {
      var half := Pow2(k - 1);
      UpOfHalves(h, level, half);
      RootOfUp(h, level[..half], k - 1);
      RootOfUp(h, level[half..], k - 1);
    } else {
      assert Root(h, level[..1], 0) == level[0] && Root(h, level[1..], 0) == level[1];
    }
  }

  // ---------------------------------------------------------------- padding

  /** Python's int.bit_length. */
  function BitLength(m: nat): nat {
    if m == 0 then 0 else 1 + BitLength(m / 2)
  }

  lemma {:induction false} BitLengthBounds(m: nat)
    ensures m < Pow2(BitLength(m))
    ensures m > 0 ==> BitLength(m) > 0 && Pow2(BitLength(m) - 1) <= m
  {
    if m > 0 {
      BitLengthBounds(m / 2);
      if m / 2 > 0 {
        assert Pow2(BitLength(m) - 1) == 2 * Pow2(BitLength(m / 2) - 1);
      }
    }
  }

  /** Depth of the padded tree over n leaves. */
  function Depth(n: nat): nat
    requires n > 0
  {
    BitLength(n - 1)
  }

  /** 2^Depth(n) is the least power of two that is at least n. */
  lemma DepthIsLeast(n: nat, k: nat)
    requires n > 0
    ensures n <= Pow2(k) <==> Depth(n) <= k
  {
    BitLengthBounds(n - 1);
    if Depth(n) <= k {
      Pow2Monotone(Depth(n), k);
    } else {
      Pow2Monotone(k, Depth(n) - 1);
    }
  }

  lemma {:induction false} Pow2Monotone(a: nat, b: nat)
    requires a <= b
    ensures Pow2(a) <= Pow2(b)
    decreases b - a
  {
    if a < b {
      Pow2Monotone(a, b - 1);
    }
  }

  /** The C loop `while (p < n) p <<= 1` finds the size that Python reads off bit_length. */
  method NextPow2(n: nat) returns (p: nat)
    ensures n > 0 ==> p == Pow2(Depth(n))
    ensures n == 0 ==> p == 1
  {
    p := 1;
    ghost var k := 0;
    while p < n
      invariant p == Pow2(k)
      invariant n > 0 ==> k <= Depth(n)
      invariant n == 0 ==> k == 0
      decreases n - p
    {
      DepthIsLeast(n, k);
      p := 2 * p;
      k := k + 1;
    }
    if n > 0 {
      DepthIsLeast(n, k);
    }
  }

  function LeafHashes(h: Sha256, leaves: seq<Bytes>): seq<Digest> {
    seq(|leaves|, i requires 0 <= i < |leaves| => h(leaves[i]))
  }

  /** Leaf hashes followed by pad hashes up to the next power of two. */
  function Padded(h: Sha256, leaves: seq<Bytes>): (r: seq<Digest>)
    requires leaves != []
    ensures |r| == Pow2(Depth(|leaves|))
  {
    DepthIsLeast(|leaves|, Depth(|leaves|));
    LeafHashes(h, leaves) + seq(Pow2(Depth(|leaves|)) - |leaves|, _ => h(PAD_TAG))
  }

  /** The root that commits to a list of raw leaves. */
  function TreeRoot(h: Sha256, leaves: seq<Bytes>): Digest {
    if leaves == [] then h(EMPTY_TAG) else Root(h, Padded(h, leaves), Depth(|leaves|))
  }

  // ----------------------------------------------------------------- proofs

  /** Sibling hash, and whether the current node is the right child. */
  datatype Entry = Entry(sibling: Bytes, isRight: nat)

  type Proof = seq<Entry>

  function Sibling(i: nat): nat {
    if i % 2 == 0 then i + 1 else i - 1
  }

  function Path(h: Sha256, level: seq<Digest>, k: nat, index: nat): (p: Proof)
    requires |level| == Pow2(k) && index < |level|
    ensures |p| == k
    decreases k, level
  {
    if k == 0 then []
    else [Entry(level[Sibling(index)], index % 2)] + Path(h, Up(h, level), k - 1, index / 2)
  }

  /** Python's and C's fold of a proof over a leaf hash. */
  function Fold(h: Sha256, current: Digest, proof: Proof): Digest
    decreases |proof|
  {
    if proof == [] then current
    else Fold(h, Combine(h, current, proof[0]), proof[1..])
  }

  function Combine(h: Sha256, current: Digest, e: Entry): Digest {
    h(Preimage(current, e))
  }

  function Preimage(current: Digest, e: Entry): Bytes {
    if e.isRight != 0 then e.sibling + current else current + e.sibling
  }

  /** verify_proof: a 32-byte leaf is taken as a hash, any other leaf is hashed first. */
  predicate Accepts(h: Sha256, leaf: Bytes, proof: Proof, root: Bytes) {
    Fold(h, if |leaf| == 32 then leaf else h(leaf), proof) == root
  }

  /** The first step of a path leads from a leaf to its parent. */
  lemma PathUnfolds(h: Sha256, level: seq<Digest>, k: nat, index: nat)
    requires k > 0 && |level| == Pow2(k) && index < |level|
    ensures |Up(h, level)| == Pow2(k - 1) && index / 2 < |Up(h, level)|
    ensures var path := Path(h, level, k, index);
            && path[0] == Entry(level[Sibling(index)], index % 2)
            && path[1..] == Path(h, Up(h, level), k - 1, index / 2)
            && Combine(h, level[index], path[0]) == Up(h, level)[index / 2]
  {
    var q := index / 2;
    var parent := Up(h, level)[q];
    UpAt(h, level, q);
    var e := Entry(level[Sibling(index)], index % 2);
    if index % 2 == 0 {
      assert index == 2 * q && Combine(h, level[index], e) == NodeHash(h, level[2 * q], level[2 * q + 1]);
    } else {
      assert index == 2 * q + 1 && Combine(h, level[index], e) == NodeHash(h, level[2 * q], level[2 * q + 1]);
    }
  }

  /** Completeness: every leaf's path folds to the root. */
  lemma {:induction false} PathFoldsToRoot(h: Sha256, level: seq<Digest>, k: nat, index: nat)
    requires |level| == Pow2(k) && index < |level|
    ensures Fold(h, level[index], Path(h, level, k, index)) == Root(h, level, k)
    decreases k
  {
    if k > 0 {
      PathUnfolds(h, level, k, index);
      PathFoldsToRoot(h, Up(h, level), k - 1, index / 2);
      RootOfUp(h, level, k);
    }
  }

  // ---------------------------------------------------------------- binding

  /** The byte strings hashed while a proof is folded. */
  ghost function Hashed(h: Sha256, current: Digest, proof: Proof): set<Bytes>
    decreases |proof|
  {
    if proof == [] then {}
    else {Preimage(current, proof[0])} + Hashed(h, Combine(h, current, proof[0]), proof[1..])
  }

  /** The hash has no collision among the given inputs. */
  ghost predicate CollisionFree(h: Sha256, inputs: set<Bytes>) {
    forall x, y :: x in inputs && y in inputs && h(x) == h(y) ==> x == y
  }

  /** A proof with one 32-byte sibling per level whose direction bits are those of the index. */
  ghost predicate FullDepth(proof: Proof, k: nat, index: nat)
    decreases k
  {
    && |proof| == k
    && (k > 0 ==>
          && |proof[0].sibling| == 32
          && (proof[0].isRight != 0 <==> index % 2 == 1)
          && FullDepth(proof[1..], k - 1, index / 2))
  }

  lemma FewerInputs(h: Sha256, inputs: set<Bytes>, fewer: set<Bytes>)
    requires CollisionFree(h, inputs) && fewer <= inputs
    ensures CollisionFree(h, fewer)
  {
  }

  lemma NoCollision(h: Sha256, inputs: set<Bytes>, x: Bytes, y: Bytes)
    requires CollisionFree(h, inputs) && x in inputs && y in inputs && h(x) == h(y)
    ensures x == y
  {
  }

  /** Equal preimages with equal directions have equal parts. */
  lemma SamePreimage(a: Digest, e: Entry, b: Digest, f: Entry)
    requires |e.sibling| == |f.sibling| == 32
    requires e.isRight != 0 <==> f.isRight != 0
    requires Preimage(a, e) == Preimage(b, f)
    ensures a == b && e.sibling == f.sibling
  {
    if e.isRight != 0 {
      SplitPair(e.sibling, a, f.sibling, b);
    } else {
      SplitPair(a, e.sibling, b, f.sibling);
    }
  }

  ghost predicate SameSiblings(p: Proof, q: Proof) {
    |p| == |q| && forall j :: 0 <= j < |p| ==> p[j].sibling == q[j].sibling
  }

  lemma SameSiblingsCons(p: Proof, q: Proof)
    requires p != [] && q != []
    requires p[0].sibling == q[0].sibling && SameSiblings(p[1..], q[1..])
    ensures SameSiblings(p, q)
  {
    forall j | 0 <= j < |p| ensures p[j].sibling == q[j].sibling {
      if j > 0 {
        assert p[1..][j - 1].sibling == q[1..][j - 1].sibling;
      }
    }
  }

  /** Going up one step leaves fewer hashed inputs, and a collision-free hash tells the children from the parent. */
  lemma BindStep(h: Sha256, x: Digest, p: Proof, y: Digest, q: Proof)
    requires p != [] && q != [] && CollisionFree(h, Hashed(h, x, p) + Hashed(h, y, q))
    ensures CollisionFree(h, Hashed(h, Combine(h, x, p[0]), p[1..]) + Hashed(h, Combine(h, y, q[0]), q[1..]))
    ensures Combine(h, x, p[0]) == Combine(h, y, q[0]) ==> Preimage(x, p[0]) == Preimage(y, q[0])
  {
    var all := Hashed(h, x, p) + Hashed(h, y, q);
    FewerInputs(h, all, Hashed(h, Combine(h, x, p[0]), p[1..]) + Hashed(h, Combine(h, y, q[0]), q[1..]));
    if Combine(h, x, p[0]) == Combine(h, y, q[0]) {
      NoCollision(h, all, Preimage(x, p[0]), Preimage(y, q[0]));
    }
  }

  /** Binding: without collisions among the hashed nodes, an index accepts only its own leaf hash and path. */
  lemma {:induction false} PathBindsLeaf(
      h: Sha256, level: seq<Digest>, k: nat, index: nat, leaf: Digest, proof: Proof)
    requires |level| == Pow2(k) && index < |level|
    requires FullDepth(proof, k, index)
    requires CollisionFree(h, Hashed(h, leaf, proof) + Hashed(h, level[index], Path(h, level, k, index)))
    requires Fold(h, leaf, proof) == Root(h, level, k)
    ensures leaf == level[index] && SameSiblings(proof, Path(h, level, k, index))
    decreases k
  {
    if k > 0 {
      var path, up := Path(h, level, k, index), Up(h, level);
      PathUnfolds(h, level, k, index);
      BindStep(h, leaf, proof, level[index], path);
      RootOfUp(h, level, k);
      PathBindsLeaf(h, up, k - 1, index / 2, Combine(h, leaf, proof[0]), proof[1..]);
      SamePreimage(leaf, proof[0], level[index], path[0]);
      SameSiblingsCons(proof, path);
    }
  }

  lemma SplitPair(a: Bytes, b: Bytes, c: Bytes, d: Bytes)
    requires |a| == |c| && a + b == c + d
    ensures a == c && b == d
  {
    assert a == (a + b)[..|a|] && c == (c + d)[..|c|];
    assert b == (a + b)[|a|..] && d == (c + d)[|c|..];
  }
}
