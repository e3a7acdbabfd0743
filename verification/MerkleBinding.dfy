/** What the root of a list of leaves binds: the list itself, under the conditions that the code leaves to its callers. */
module MerkleBinding {
  import opened ByteStrings
  import opened Merkle
  import P = ParallelMerkle

  /** What a node above the leaves is the hash of. */
  function Pair(l: Bytes, r: Bytes): Bytes {
    l + r
  }

  /** The byte strings hashed above the leaf hashes. */
  ghost function NodeInputs(h: Sha256, level: seq<Digest>, k: nat): set<Bytes>
    requires |level| == Pow2(k)
    decreases k, level
  {
    if k == 0 then {}
    else
      var half := Pow2(k - 1);
      {Pair(Root(h, level[..half], k - 1), Root(h, level[half..], k - 1))}
      + NodeInputs(h, level[..half], k - 1) + NodeInputs(h, level[half..], k - 1)
  }

  lemma Differ(h: Sha256, inputs: set<Bytes>, x: Bytes, y: Bytes)
    requires CollisionFree(h, inputs) && x in inputs && y in inputs && x != y
    ensures h(x) != h(y)
  {
  }

  function Left(level: seq<Digest>, k: nat): (half: seq<Digest>)
    requires k > 0 && |level| == Pow2(k)
    ensures |half| == Pow2(k - 1)
  {
    level[..Pow2(k - 1)]
  }

  function Right(level: seq<Digest>, k: nat): (half: seq<Digest>)
    requires k > 0 && |level| == Pow2(k)
    ensures |half| == Pow2(k - 1)
  {
    level[Pow2(k - 1)..]
  }

  function TopPair(h: Sha256, level: seq<Digest>, k: nat): Bytes
    requires k > 0 && |level| == Pow2(k)
  {
    Pair(Root(h, Left(level, k), k - 1), Root(h, Right(level, k), k - 1))
  }

  /** The root is the hash of a pair, which is among the strings hashed. */
  lemma TopOfTree(h: Sha256, level: seq<Digest>, k: nat)
    requires k > 0 && |level| == Pow2(k)
    ensures Root(h, level, k) == h(TopPair(h, level, k)) && |TopPair(h, level, k)| == 64
    ensures TopPair(h, level, k) in NodeInputs(h, level, k)
  {
  }

  /** Every string hashed above the leaf hashes is in the set. */
  ghost predicate Within(h: Sha256, level: seq<Digest>, k: nat, all: set<Bytes>)
    requires |level| == Pow2(k)
    decreases k
  {
    k > 0 ==>
      && TopPair(h, level, k) in all
      && Within(h, Left(level, k), k - 1, all) && Within(h, Right(level, k), k - 1, all)
  }

  lemma {:induction false} InputsWithin(h: Sha256, level: seq<Digest>, k: nat, all: set<Bytes>)
    requires |level| == Pow2(k) && NodeInputs(h, level, k) <= all
    ensures Within(h, level, k, all)
    decreases k
  {
    if k > 0 {
      TopOfTree(h, level, k);
      InputsWithin(h, Left(level, k), k - 1, all);
      InputsWithin(h, Right(level, k), k - 1, all);
    }
  }

  lemma SameHalves(a: seq<Digest>, b: seq<Digest>, k: nat)
    requires k > 0 && |a| == |b| == Pow2(k) && Left(a, k) == Left(b, k) && Right(a, k) == Right(b, k)
    ensures a == b
  {
    assert a == Left(a, k) + Right(a, k) && b == Left(b, k) + Right(b, k);
  }

  lemma SameParts(h: Sha256, a: seq<Digest>, b: seq<Digest>, k: nat)
    requires k > 0 && |a| == |b| == Pow2(k) && TopPair(h, a, k) == TopPair(h, b, k)
    ensures Root(h, Left(a, k), k - 1) == Root(h, Left(b, k), k - 1)
    ensures Root(h, Right(a, k), k - 1) == Root(h, Right(b, k), k - 1)
  {
    SplitPair(Root(h, Left(a, k), k - 1), Root(h, Right(a, k), k - 1), Root(h, Left(b, k), k - 1), Root(h, Right(b, k), k - 1));
  }

  /** Two perfect trees of one depth and one root have the same leaf hashes. */
  lemma {:induction false} RootBinds(h: Sha256, a: seq<Digest>, b: seq<Digest>, k: nat, all: set<Bytes>)
    requires |a| == |b| == Pow2(k) && Root(h, a, k) == Root(h, b, k)
    requires CollisionFree(h, all) && Within(h, a, k, all) && Within(h, b, k, all)
    ensures a == b
    decreases k
  {
    if k > 0 {
      TopOfTree(h, a, k);
      TopOfTree(h, b, k);
      NoCollision(h, all, TopPair(h, a, k), TopPair(h, b, k));
      SameParts(h, a, b, k);
      RootBinds(h, Left(a, k), Left(b, k), k - 1, all);
      RootBinds(h, Right(a, k), Right(b, k), k - 1, all);
      SameHalves(a, b, k);
    } else {
      assert a == [a[0]] && b == [b[0]];
    }
  }

  /** Every leaf hash is the hash of a string of the set, and none of these is 64 bytes long. */
  ghost predicate HashesOfShort(h: Sha256, level: seq<Digest>, inputs: set<Bytes>) {
    && (forall x :: x in inputs ==> |x| != 64)
    && forall i :: 0 <= i < |level| ==> IsHashOf(h, level[i], inputs)
  }

  ghost predicate IsHashOf(h: Sha256, d: Bytes, inputs: set<Bytes>) {
    exists x :: x in inputs && h(x) == d
  }

  lemma LeftOfShort(h: Sha256, a: seq<Digest>, k: nat, inputs: set<Bytes>)
    requires k > 0 && |a| == Pow2(k) && HashesOfShort(h, a, inputs)
    ensures HashesOfShort(h, Left(a, k), inputs)
  {
    forall i | 0 <= i < |Left(a, k)| ensures IsHashOf(h, Left(a, k)[i], inputs) {
      assert Left(a, k)[i] == a[i];
    }
  }

  lemma LeafIsNoPair(h: Sha256, leaf: Bytes, pair: Bytes, inputs: set<Bytes>, all: set<Bytes>)
    requires IsHashOf(h, leaf, inputs) && (forall x :: x in inputs ==> |x| != 64) && |pair| == 64
    requires CollisionFree(h, all) && inputs <= all && pair in all
    ensures leaf != h(pair)
  {
    var x :| x in inputs && h(x) == leaf;
    Differ(h, all, x, pair);
  }

  lemma LeafDiffers(h: Sha256, a: seq<Digest>, b: seq<Digest>, m: nat, inputs: set<Bytes>, all: set<Bytes>)
    requires |a| == Pow2(0) && |b| == Pow2(m) && 0 < m && HashesOfShort(h, a, inputs)
    requires CollisionFree(h, all) && inputs <= all && Within(h, b, m, all)
    ensures Root(h, a, 0) != Root(h, b, m)
  {
    TopOfTree(h, b, m);
    LeafIsNoPair(h, a[0], TopPair(h, b, m), inputs, all);
  }

  lemma DifferenceRises(h: Sha256, a: seq<Digest>, k: nat, b: seq<Digest>, m: nat, all: set<Bytes>)
    requires k > 0 && m > 0 && |a| == Pow2(k) && |b| == Pow2(m)
    requires CollisionFree(h, all) && Within(h, a, k, all) && Within(h, b, m, all)
    requires Root(h, Left(a, k), k - 1) != Root(h, Left(b, m), m - 1)
    ensures Root(h, a, k) != Root(h, b, m)
  {
    TopOfTree(h, a, k);
    TopOfTree(h, b, m);
    OtherPairs(h, a, k, b, m);
    Differ(h, all, TopPair(h, a, k), TopPair(h, b, m));
  }

  /** Trees of different depths have different roots: a leaf is no pair of hashes. */
  lemma {:induction false} DepthsDiffer(h: Sha256, a: seq<Digest>, k: nat, b: seq<Digest>, m: nat, inputs: set<Bytes>, all: set<Bytes>)
    requires |a| == Pow2(k) && |b| == Pow2(m) && k < m && HashesOfShort(h, a, inputs)
    requires CollisionFree(h, all) && inputs <= all && Within(h, a, k, all) && Within(h, b, m, all)
    ensures Root(h, a, k) != Root(h, b, m)
    decreases k
  {
    if k == 0 {
      LeafDiffers(h, a, b, m, inputs, all);
    } else {
      LeftOfShort(h, a, k, inputs);
      DepthsDiffer(h, Left(a, k), k - 1, Left(b, m), m - 1, inputs, all);
      DifferenceRises(h, a, k, b, m, all);
    }
  }

  lemma OtherPairs(h: Sha256, a: seq<Digest>, k: nat, b: seq<Digest>, m: nat)
    requires k > 0 && m > 0 && |a| == Pow2(k) && |b| == Pow2(m)
    requires Root(h, Left(a, k), k - 1) != Root(h, Left(b, m), m - 1)
    ensures TopPair(h, a, k) != TopPair(h, b, m)
  {
    OtherFirst(Root(h, Left(a, k), k - 1), Root(h, Right(a, k), k - 1), Root(h, Left(b, m), m - 1), Root(h, Right(b, m), m - 1));
  }

  lemma OtherFirst(p: Digest, q: Bytes, l: Digest, r: Bytes)
    requires p != l
    ensures Pair(p, q) != Pair(l, r)
  {
    assert Pair(p, q)[..32] == p && Pair(l, r)[..32] == l;
  }

  // ---------------------------------------------------------------- raw leaves

  function Elements(leaves: seq<Bytes>): set<Bytes> {
    set x | x in leaves
  }

  /** Everything that is hashed to build the tree. */
  ghost function TreeInputs(h: Sha256, leaves: seq<Bytes>): set<Bytes> {
    if leaves == [] then {EMPTY_TAG}
    else Elements(leaves) + {PAD_TAG} + NodeInputs(h, Padded(h, leaves), Depth(|leaves|))
  }

  /** No leaf is the string that pads a list or stands for the empty one, or as long as two hashes. */
  predicate PlainLeaves(leaves: seq<Bytes>) {
    forall x :: x in leaves ==> x != PAD_TAG && x != EMPTY_TAG && |x| != 64
  }

  lemma PaddedHashesShort(h: Sha256, leaves: seq<Bytes>)
    requires leaves != [] && PlainLeaves(leaves)
    ensures HashesOfShort(h, Padded(h, leaves), Elements(leaves) + {PAD_TAG})
  {
    var padded, inputs := Padded(h, leaves), Elements(leaves) + {PAD_TAG};
    forall i | 0 <= i < |padded| ensures IsHashOf(h, padded[i], inputs) {
      if i < |leaves| {
        assert leaves[i] in inputs && h(leaves[i]) == padded[i];
      } else {
        assert PAD_TAG in inputs && h(PAD_TAG) == padded[i];
      }
    }
  }

  /** Lists with one padded form are equal: where one has a leaf, the other has no padding. */
  lemma PaddedBinds(h: Sha256, a: seq<Bytes>, b: seq<Bytes>)
    requires a != [] && b != [] && PlainLeaves(a) && PlainLeaves(b) && Padded(h, a) == Padded(h, b)
    requires CollisionFree(h, Elements(a) + Elements(b) + {PAD_TAG})
    ensures a == b
  {
    if |a| < |b| {
      ShorterDiffers(h, a, b);
    } else if |b| < |a| {
      FewerInputs(h, Elements(a) + Elements(b) + {PAD_TAG}, Elements(b) + Elements(a) + {PAD_TAG});
      ShorterDiffers(h, b, a);
    }
    forall i | 0 <= i < |a| ensures a[i] == b[i] {
      assert Padded(h, a)[i] == h(a[i]) && Padded(h, b)[i] == h(b[i]);
      NoCollision(h, Elements(a) + Elements(b) + {PAD_TAG}, a[i], b[i]);
    }
  }

  lemma ShorterDiffers(h: Sha256, a: seq<Bytes>, b: seq<Bytes>)
    requires 0 < |a| < |b| && PlainLeaves(b) && CollisionFree(h, Elements(a) + Elements(b) + {PAD_TAG})
    ensures Padded(h, a) != Padded(h, b)
  {
    var i := |a|;
    assert b[i] in b;
    Differ(h, Elements(a) + Elements(b) + {PAD_TAG}, b[i], PAD_TAG);
    assert Padded(h, b)[i] == h(b[i]);
    assert i < |Padded(h, a)| ==> Padded(h, a)[i] == h(PAD_TAG);
  }

  lemma EmptyDiffers(h: Sha256, b: seq<Bytes>)
    requires b != [] && PlainLeaves(b) && CollisionFree(h, {EMPTY_TAG} + TreeInputs(h, b))
    ensures TreeRoot(h, b) != h(EMPTY_TAG)
  {
    var padded, k := Padded(h, b), Depth(|b|);
    var all := {EMPTY_TAG} + TreeInputs(h, b);
    if k == 0 {
      assert padded[0] == h(b[0]) && b[0] in b;
      Differ(h, all, b[0], EMPTY_TAG);
    } else {
      TopOfTree(h, padded, k);
      Differ(h, all, TopPair(h, padded, k), EMPTY_TAG);
    }
  }

  lemma SameDepthBinds(h: Sha256, a: seq<Bytes>, b: seq<Bytes>)
    requires a != [] && b != [] && PlainLeaves(a) && PlainLeaves(b) && Depth(|a|) == Depth(|b|)
    requires CollisionFree(h, TreeInputs(h, a) + TreeInputs(h, b)) && TreeRoot(h, a) == TreeRoot(h, b)
    ensures a == b
  {
    var all, k := TreeInputs(h, a) + TreeInputs(h, b), Depth(|a|);
    InputsWithin(h, Padded(h, a), k, all);
    InputsWithin(h, Padded(h, b), k, all);
    RootBinds(h, Padded(h, a), Padded(h, b), k, all);
    FewerInputs(h, all, Elements(a) + Elements(b) + {PAD_TAG});
    PaddedBinds(h, a, b);
  }

  lemma LessDeepDiffers(h: Sha256, a: seq<Bytes>, b: seq<Bytes>)
    requires a != [] && b != [] && PlainLeaves(a) && Depth(|a|) < Depth(|b|)
    requires CollisionFree(h, TreeInputs(h, a) + TreeInputs(h, b))
    ensures TreeRoot(h, a) != TreeRoot(h, b)
  {
    PaddedHashesShort(h, a);
    InputsWithin(h, Padded(h, a), Depth(|a|), TreeInputs(h, a) + TreeInputs(h, b));
    InputsWithin(h, Padded(h, b), Depth(|b|), TreeInputs(h, a) + TreeInputs(h, b));
    DepthsDiffer(h, Padded(h, a), Depth(|a|), Padded(h, b), Depth(|b|), Elements(a) + {PAD_TAG}, TreeInputs(h, a) + TreeInputs(h, b));
  }

  /** The root binds the list: lists of plain leaves with one root are equal, of whatever lengths, short of a collision. */
  lemma TreeRootBinds(h: Sha256, a: seq<Bytes>, b: seq<Bytes>)
    requires PlainLeaves(a) && PlainLeaves(b) && CollisionFree(h, TreeInputs(h, a) + TreeInputs(h, b))
    ensures TreeRoot(h, a) == TreeRoot(h, b) <==> a == b
  {
    if a == [] && b != [] {
      EmptyDiffers(h, b);
    } else if a != [] && b == [] {
      FewerInputs(h, TreeInputs(h, a) + TreeInputs(h, b), {EMPTY_TAG} + TreeInputs(h, a));
      EmptyDiffers(h, a);
    } else if a != [] && TreeRoot(h, a) == TreeRoot(h, b) {
      if Depth(|a|) < Depth(|b|) {
        LessDeepDiffers(h, a, b);
      } else if Depth(|b|) < Depth(|a|) {
        FewerInputs(h, TreeInputs(h, a) + TreeInputs(h, b), TreeInputs(h, b) + TreeInputs(h, a));
        LessDeepDiffers(h, b, a);
      } else {
        SameDepthBinds(h, a, b);
      }
    }
  }

  /** Each of the three exceptions is needed: an empty list, a padded list and a pair have the roots of other lists. */
  lemma OtherListsSameRoot(h: Sha256, a: Bytes, b: Bytes, c: Bytes)
    ensures TreeRoot(h, []) == TreeRoot(h, [EMPTY_TAG])
    ensures TreeRoot(h, [a, b, c]) == TreeRoot(h, [a, b, c, PAD_TAG])
    ensures TreeRoot(h, [a, b]) == TreeRoot(h, [h(a) + h(b)])
  {
    assert Depth(1) == 0 && Depth(2) == 1 && Depth(3) == Depth(4) == 2;
    assert Pow2(1) == 2 && Pow2(2) == 4;
    assert Padded(h, [EMPTY_TAG]) == [h(EMPTY_TAG)];
    assert Padded(h, [a, b, c]) == [h(a), h(b), h(c), h(PAD_TAG)] == Padded(h, [a, b, c, PAD_TAG]);
    var two := Padded(h, [a, b]);
    assert two == [h(a), h(b)] && two[..1] == [h(a)] && two[1..] == [h(b)];
    assert Root(h, two[..1], 0) == h(a) && Root(h, two[1..], 0) == h(b);
    assert Padded(h, [h(a) + h(b)]) == [h(h(a) + h(b))];
  }

  // ----------------------------------------------- the root computed on several workers

  function NodeOf(h: Sha256): (Digest, Digest) -> Digest {
    (l: Digest, r: Digest) => NodeHash(h, l, r)
  }

  lemma {:induction false} PairUpIsUp(h: Sha256, level: seq<Digest>)
    requires |level| % 2 == 0
    ensures P.PairUp(NodeOf(h), level) == Up(h, level)
    decreases |level|
  {
    if level != [] {
      PairUpIsUp(h, level[2..]);
    }
  }

  /** For 2^k leaf hashes the parallel computation and the tree have one root. */
  lemma {:induction false} LevelRootIsRoot(h: Sha256, level: seq<Digest>, k: nat)
    requires |level| == Pow2(k)
    ensures P.LevelRoot(NodeOf(h), level) == Root(h, level, k)
    decreases k
  {
    if k > 0 {
      PairUpIsUp(h, level);
      RootOfUp(h, level, k);
      LevelRootIsRoot(h, Up(h, level), k - 1);
    }
  }

  /** For other counts it repeats the last entry where the tree pads, so a repeated last leaf leaves its root unchanged. */
  lemma RepeatedLastLeaf(h: Sha256, a: Digest, b: Digest, c: Digest)
    ensures P.LevelRoot(NodeOf(h), [a, b, c]) == P.LevelRoot(NodeOf(h), [a, b, c, c])
  {
    assert P.Evened([a, b, c]) == [a, b, c, c] == P.Evened([a, b, c, c]);
  }
}
