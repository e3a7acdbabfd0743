/** The Python tree object and the in-place C builders, proved against the recursive tree. */
module MerkleBuild {
  import opened Wrappers
  import opened ByteStrings
  import opened Merkle

  /** All levels from the padded leaves up to the single root. */
  function Levels(h: Sha256, level: seq<Digest>, k: nat): (r: seq<seq<Digest>>)
    requires |level| == Pow2(k)
    ensures |r| == k + 1 && r[0] == level
    decreases k, level
  {
    if k == 0 then [level] else [level] + Levels(h, Up(h, level), k - 1)
  }

  /** The level reached after j steps up. */
  function UpTimes(h: Sha256, level: seq<Digest>, j: nat): seq<Digest> {
    if j == 0 then level else Up(h, UpTimes(h, level, j - 1))
  }

  lemma {:induction false} UpTimesLength(h: Sha256, level: seq<Digest>, k: nat, j: nat)
    requires |level| == Pow2(k) && j <= k
    ensures |UpTimes(h, level, j)| == Pow2(k - j)
  {
    if j > 0 {
      UpTimesLength(h, level, k, j - 1);
    }
  }

  lemma {:induction false} UpTimesShift(h: Sha256, level: seq<Digest>, j: nat)
    ensures UpTimes(h, Up(h, level), j) == UpTimes(h, level, j + 1)
  {
    if j > 0 {
      UpTimesShift(h, level, j - 1);
    }
  }

  lemma {:induction false} RootOfUpTimes(h: Sha256, level: seq<Digest>, k: nat, j: nat)
    requires |level| == Pow2(k) && j <= k
    ensures |UpTimes(h, level, j)| == Pow2(k - j)
    ensures Root(h, UpTimes(h, level, j), k - j) == Root(h, level, k)
  {
    if j > 0 {
      RootOfUpTimes(h, level, k, j - 1);
      UpTimesLength(h, level, k, j);
      RootOfUp(h, UpTimes(h, level, j - 1), k - j + 1);
    }
  }

  function Shifted(index: nat, j: nat): nat {
    if j == 0 then index else Shifted(index, j - 1) / 2
  }

  lemma {:induction false} ShiftedHalf(index: nat, j: nat)
    ensures Shifted(index / 2, j) == Shifted(index, j + 1)
  {
    if j > 0 {
      ShiftedHalf(index, j - 1);
    }
  }

  lemma {:induction false} ShiftedBound(k: nat, index: nat, j: nat)
    requires index < Pow2(k) && j <= k
    ensures Shifted(index, j) < Pow2(k - j)
    ensures j < k ==> Sibling(Shifted(index, j)) < Pow2(k - j)
  {
    if j > 0 {
      ShiftedBound(k, index, j - 1);
      assert Pow2(k - j + 1) == 2 * Pow2(k - j);
    }
    if j < k {
      assert Pow2(k - j) == 2 * Pow2(k - j - 1);
    }
  }

  /** The proof entry that a node's position calls for at one level. */
  function EntryAt(level: seq<Digest>, index: nat): Entry
    requires Sibling(index) < |level|
  {
    Entry(level[Sibling(index)], index % 2)
  }

  /** Entry j of a path is the sibling at level j. */
  lemma {:induction false} PathEntry(h: Sha256, level: seq<Digest>, k: nat, index: nat, j: nat)
    requires |level| == Pow2(k) && index < |level| && j < k
    ensures |UpTimes(h, level, j)| == Pow2(k - j) && Sibling(Shifted(index, j)) < Pow2(k - j)
    ensures Path(h, level, k, index)[j] == EntryAt(UpTimes(h, level, j), Shifted(index, j))
    decreases j
  {
    UpTimesLength(h, level, k, j);
    ShiftedBound(k, index, j);
    PathUnfolds(h, level, k, index);
    var path := Path(h, level, k, index);
    if j > 0 {
      PathEntry(h, Up(h, level), k - 1, index / 2, j - 1);
      UpTimesShift(h, level, j - 1);
      ShiftedHalf(index, j - 1);
      assert path[j] == path[1..][j - 1];
    } else {
      assert path[0] == EntryAt(level, index);
    }
  }

  lemma {:induction false} LevelEntry(h: Sha256, level: seq<Digest>, k: nat, j: nat)
    requires |level| == Pow2(k) && j <= k
    ensures Levels(h, level, k)[j] == UpTimes(h, level, j)
    decreases j
  {
    if j > 0 {
      LevelEntry(h, Up(h, level), k - 1, j - 1);
      UpTimesShift(h, level, j - 1);
    }
  }

  // ------------------------------------------------------------------ Python

  datatype IndexError = IndexError

  /** From one level of the tree to the next. */
  lemma NextLevel(h: Sha256, padded: seq<Digest>, k: nat, j: nat, level: seq<Digest>)
    requires j <= k && level == UpTimes(h, padded, j) && |level| == Pow2(k - j) > 1
    ensures j < k && Up(h, level) == UpTimes(h, padded, j + 1)
    ensures |level| % 2 == 0 && |level| / 2 == Pow2(k - (j + 1)) == |Up(h, level)|
  {
  }

  /** The inner loop of _build_tree: hash the nodes of one level in pairs. */
  method HashPairs(h: Sha256, current: seq<Digest>) returns (nextLevel: seq<Digest>)
    requires |current| % 2 == 0
    ensures nextLevel == Up(h, current)
  {
    nextLevel := [];
    var i := 0;
    while i < |current|
      invariant i % 2 == 0 && i <= |current|
      invariant |nextLevel| == i / 2
      invariant forall m :: 0 <= m < i / 2 ==> nextLevel[m] == Up(h, current)[m]
    {
      UpAt(h, current, i / 2);
      nextLevel := nextLevel + [NodeHash(h, current[i], current[i + 1])];
      i := i + 2;
    }
  }

  /** State of the level builder after j levels. */
  ghost predicate Collected(h: Sha256, padded: seq<Digest>, k: nat,
                            j: nat, current: seq<Digest>, levels: seq<seq<Digest>>)
    requires |padded| == Pow2(k)
  {
    && j <= k && current == UpTimes(h, padded, j) && |current| == Pow2(k - j)
    && levels == Levels(h, padded, k)[..j + 1]
  }

  lemma CollectedStep(h: Sha256, padded: seq<Digest>, k: nat,
                      j: nat, current: seq<Digest>, levels: seq<seq<Digest>>)
    requires |padded| == Pow2(k) && Collected(h, padded, k, j, current, levels) && |current| > 1
    ensures j < k && |current| % 2 == 0
    ensures Collected(h, padded, k, j + 1, Up(h, current), levels + [Up(h, current)])
  {
    NextLevel(h, padded, k, j, current);
    LevelEntry(h, padded, k, j + 1);
  }

  lemma CollectedDone(h: Sha256, padded: seq<Digest>, k: nat,
                      j: nat, current: seq<Digest>, levels: seq<seq<Digest>>)
    requires |padded| == Pow2(k) && Collected(h, padded, k, j, current, levels) && |current| <= 1
    ensures levels == Levels(h, padded, k)
  {
    LastLevelIsRoot(h, padded, k, j);
  }

  /** _build_tree: pad the leaf hashes to a power of two and collect every level. */
  method BuildLevels(h: Sha256, raw: seq<Bytes>, leaves: seq<Digest>) returns (levels: seq<seq<Digest>>)
    requires raw != [] && leaves == LeafHashes(h, raw)
    ensures levels == Levels(h, Padded(h, raw), Depth(|raw|))
  {
    ghost var k, j := Depth(|raw|), 0;
    ghost var padded := Padded(h, raw);
    var n := |leaves|;
    var nextPow2 := Pow2(BitLength(n - 1));
    DepthIsLeast(n, k);
    var current: seq<Digest> := leaves + seq(nextPow2 - n, _ => h(PAD_TAG));
    levels := [current];
    while |current| > 1
      invariant Collected(h, padded, k, j, current, levels)
      decreases k - j
    {
      CollectedStep(h, padded, k, j, current, levels);
      current := HashPairs(h, current);
      levels := levels + [current];
      j := j + 1;
    }
    CollectedDone(h, padded, k, j, current, levels);
  }

  /** The tree object; its fields are set once by the constructor. */
  class MerkleTree {
    const sha3: Sha256
    const raw: seq<Bytes>
    const leaves: seq<Digest>
    const tree: seq<seq<Digest>>

    ghost predicate Valid() {
      && leaves == LeafHashes(sha3, raw)
      && (raw != [] ==> tree == Levels(sha3, Padded(sha3, raw), Depth(|raw|)))
    }

    constructor (sha3: Sha256, raw: seq<Bytes>)
      ensures Valid() && this.sha3 == sha3 && this.raw == raw
    {
      var hashes := LeafHashes(sha3, raw);
      var levels: seq<seq<Digest>> := [];
      if raw != [] {
        levels := BuildLevels(sha3, raw, hashes);
      }
      this.sha3 := sha3;
      this.raw := raw;
      this.leaves := hashes;
      this.tree := levels;
    }

    /** For an empty tree the code indexes the bytes of H("empty"), so the "root" is one byte. */
    method RootValue() returns (r: Result<Digest, Byte>)
      requires Valid()
      ensures raw == [] ==> r == Err(sha3(EMPTY_TAG)[0])
      ensures raw != [] ==> r == Ok(TreeRoot(sha3, raw))
    {
      if raw == [] {
        return Err(sha3(EMPTY_TAG)[0]);
      }
      ghost var k := Depth(|raw|);
      LevelEntry(sha3, Padded(sha3, raw), k, k);
      RootOfUpTimes(sha3, Padded(sha3, raw), k, k);
      return Ok(tree[|tree| - 1][0]);
    }

    method GetProof(index: nat) returns (r: Result<Proof, IndexError>)
      requires Valid()
      ensures r.Err? <==> index >= |raw|
      ensures r.Ok? ==> r.value == Path(sha3, Padded(sha3, raw), Depth(|raw|), index)
    {
      if index >= |leaves| {
        return Err(IndexError);
      }
      ghost var k := Depth(|raw|);
      ghost var padded := Padded(sha3, raw);
      ghost var path := Path(sha3, padded, k, index);
      var proof: Proof := [];
      var idx := index;
      for j := 0 to |tree| - 1
        invariant idx == Shifted(index, j)
        invariant proof == path[..j]
      {
        LevelEntry(sha3, padded, k, j);
        PathEntry(sha3, padded, k, index, j);
        var sibling := if idx % 2 == 0 then idx + 1 else idx - 1;
        if sibling < |tree[j]| {
          proof := proof + [Entry(tree[j][sibling], idx % 2)];
        }
        idx := idx / 2;
      }
      return Ok(proof);
    }
  }

  /** MerkleTree.verify_proof. */
  method VerifyProof(h: Sha256, leaf: Bytes, proof: Proof, root: Bytes) returns (ok: bool)
    ensures ok == Accepts(h, leaf, proof, root)
  {
    var current: Digest := if |leaf| != 32 then h(leaf) else leaf;
    ghost var start := current;
    for i := 0 to |proof|
      invariant Fold(h, current, proof[i..]) == Fold(h, start, proof)
    {
      assert proof[i..][0] == proof[i] && proof[i..][1..] == proof[i + 1..];
      if proof[i].isRight != 0 {
        current := h(proof[i].sibling + current);
      } else {
        current := h(current + proof[i].sibling);
      }
    }
    return current == root;
  }

  // ----------------------------------------------------------------------- C

  /** Fill cells [0, size) with the hashed leaves followed by the pad hash. */
  method HashLeaves(h: Sha256, leaves: seq<Bytes>, cells: array<Digest>)
    requires leaves != [] && cells.Length >= Pow2(Depth(|leaves|))
    modifies cells
    ensures cells[..Pow2(Depth(|leaves|))] == Padded(h, leaves)
  {
    var padded := Pow2(Depth(|leaves|));
    DepthIsLeast(|leaves|, Depth(|leaves|));
    for i := 0 to |leaves|
      invariant forall j :: 0 <= j < i ==> cells[j] == h(leaves[j])
    {
      cells[i] := h(leaves[i]);
    }
    for i := |leaves| to padded
      invariant forall j :: 0 <= j < i ==> cells[j] == Padded(h, leaves)[j]
    {
      cells[i] := h(PAD_TAG);
    }
  }

  /** Overwrite the front half of a level with the parents of its pairs. */
  method CompressInPlace(h: Sha256, hashes: array<Digest>, levelSize: nat)
    requires levelSize <= hashes.Length
    modifies hashes
    ensures hashes[..levelSize / 2] == Up(h, old(hashes[..levelSize]))
  {
    ghost var level := hashes[..levelSize];
    ghost var up := Up(h, level);
    for i := 0 to levelSize / 2
      invariant forall m :: 0 <= m < i ==> hashes[m] == up[m]
      invariant forall m :: 2 * i <= m < levelSize ==> hashes[m] == level[m]
    {
      UpAt(h, level, i);
      hashes[i] := NodeHash(h, hashes[2 * i], hashes[2 * i + 1]);
    }
  }

  /** merkle_build_root: every level overwrites the front of the same buffer. */
  method BuildRoot(h: Sha256, leaves: seq<Bytes>) returns (root: Digest)
    ensures root == TreeRoot(h, leaves)
  {
    if leaves == [] {
      return h(EMPTY_TAG);
    }
    ghost var k, j := Depth(|leaves|), 0;
    ghost var padded := Padded(h, leaves);
    var paddedSize := NextPow2(|leaves|);
    var hashes := new Digest[paddedSize](_ => ZERO_DIGEST);
    HashLeaves(h, leaves, hashes);
    var levelSize := paddedSize;
    while levelSize > 1
      invariant j <= k && levelSize == Pow2(k - j) <= hashes.Length
      invariant hashes[..levelSize] == UpTimes(h, padded, j)
      decreases k - j
    {
      NextLevel(h, padded, k, j, hashes[..levelSize]);
      CompressInPlace(h, hashes, levelSize);
      levelSize := levelSize / 2;
      j := j + 1;
    }
    LastLevelIsRoot(h, padded, k, j);
    assert hashes[..1][0] == hashes[0];
    return hashes[0];
  }

  /** Once a level has a single node, that node is the root. */
  lemma LastLevelIsRoot(h: Sha256, padded: seq<Digest>, k: nat, j: nat)
    requires |padded| == Pow2(k) && j <= k && Pow2(k - j) <= 1
    ensures j == k && |UpTimes(h, padded, j)| == 1 && UpTimes(h, padded, j)[0] == Root(h, padded, k)
  {
    RootOfUpTimes(h, padded, k, j);
  }

  const MAX_DEPTH: nat := 11

  /** Write the parents of one level into the other buffer. */
  method CompressInto(h: Sha256, level: array<Digest>, levelSize: nat, nextLevel: array<Digest>)
    requires level != nextLevel && levelSize <= level.Length && levelSize / 2 <= nextLevel.Length
    modifies nextLevel
    ensures nextLevel[..levelSize / 2] == Up(h, level[..levelSize])
  {
    ghost var up := Up(h, level[..levelSize]);
    for i := 0 to levelSize / 2
      invariant forall m :: 0 <= m < i ==> nextLevel[m] == up[m]
    {
      UpAt(h, level[..levelSize], i);
      nextLevel[i] := NodeHash(h, level[2 * i], level[2 * i + 1]);
    }
  }

  /** Append the sibling of a node to the proof array, if the level has one. */
  method RecordSibling(level: array<Digest>, levelSize: nat, idx: nat, entries: array<Entry>, depth: nat)
    returns (next: nat)
    requires levelSize <= level.Length && depth < entries.Length
    modifies entries
    ensures next == if Sibling(idx) < levelSize then depth + 1 else depth
    ensures Sibling(idx) < levelSize ==> entries[..next] == old(entries[..depth]) + [EntryAt(level[..levelSize], idx)]
    ensures Sibling(idx) >= levelSize ==> entries[..] == old(entries[..])
  {
    next := depth;
    var sibling := if idx % 2 == 0 then idx + 1 else idx - 1;
    if sibling < levelSize {
      entries[depth] := Entry(level[sibling], idx % 2);
      next := depth + 1;
    }
  }

  /** State of the proof builder after d levels: the level's nodes, the node's position, the proof so far. */
  ghost predicate Building(h: Sha256, padded: seq<Digest>, k: nat, leaf: nat,
                           d: nat, nodes: seq<Digest>, idx: nat, proof: Proof)
    requires |padded| == Pow2(k) && leaf < |padded|
  {
    && d <= k && nodes == UpTimes(h, padded, d) && |nodes| == Pow2(k - d)
    && idx == Shifted(leaf, d) && proof == Path(h, padded, k, leaf)[..d]
  }

  lemma BuildingStep(h: Sha256, padded: seq<Digest>, k: nat, leaf: nat,
                     d: nat, nodes: seq<Digest>, idx: nat, proof: Proof)
    requires |padded| == Pow2(k) && leaf < |padded|
    requires Building(h, padded, k, leaf, d, nodes, idx, proof) && |nodes| > 1
    ensures d < k && Sibling(idx) < |nodes| && |nodes| % 2 == 0
    ensures Building(h, padded, k, leaf, d + 1, Up(h, nodes), idx / 2, proof + [EntryAt(nodes, idx)])
  {
    NextLevel(h, padded, k, d, nodes);
    PathEntry(h, padded, k, leaf, d);
  }

  lemma BuildingDone(h: Sha256, padded: seq<Digest>, k: nat, leaf: nat,
                     d: nat, nodes: seq<Digest>, idx: nat, proof: Proof)
    requires |padded| == Pow2(k) && leaf < |padded|
    requires Building(h, padded, k, leaf, d, nodes, idx, proof) && |nodes| <= 1
    ensures d == k && |nodes| == 1 && nodes[0] == Root(h, padded, k) && proof == Path(h, padded, k, leaf)
  {
    LastLevelIsRoot(h, padded, k, d);
  }

  /** merkle_build_with_proof: two buffers that swap roles, and a proof array with 11 slots. */
  method BuildWithProof(h: Sha256, leaves: seq<Bytes>, leafIndex: nat, entries: array<Entry>)
    returns (root: Digest, depth: nat)
    requires leaves != [] && leafIndex < |leaves|
    requires Depth(|leaves|) <= MAX_DEPTH == entries.Length
    modifies entries
    ensures root == TreeRoot(h, leaves)
    ensures depth == Depth(|leaves|)
    ensures entries[..depth] == Path(h, Padded(h, leaves), depth, leafIndex)
  {
    ghost var k := Depth(|leaves|);
    DepthIsLeast(|leaves|, k);
    ghost var padded := Padded(h, leaves);
    var paddedSize := NextPow2(|leaves|);
    var level := new Digest[paddedSize](_ => ZERO_DIGEST);
    var nextLevel := new Digest[paddedSize / 2 + 1](_ => ZERO_DIGEST);
    HashLeaves(h, leaves, level);
    depth := 0;
    var levelSize, idx := paddedSize, leafIndex;
    while levelSize > 1
      invariant fresh(level) && fresh(nextLevel) && level != nextLevel
      invariant 0 <= levelSize <= level.Length && levelSize / 2 <= paddedSize / 2 < nextLevel.Length
      invariant depth > 0 ==> levelSize <= paddedSize / 2
      invariant paddedSize > 1 ==> paddedSize / 2 < level.Length
      invariant depth <= k
      invariant Building(h, padded, k, leafIndex, depth, level[..levelSize], idx, entries[..depth])
      decreases levelSize
    {
      ghost var nodes := level[..levelSize];
      BuildingStep(h, padded, k, leafIndex, depth, nodes, idx, entries[..depth]);
      depth := RecordSibling(level, levelSize, idx, entries, depth);
      CompressInto(h, level, levelSize, nextLevel);
      level, nextLevel := nextLevel, level;
      levelSize := levelSize / 2;
      idx := idx / 2;
    }
    BuildingDone(h, padded, k, leafIndex, depth, level[..levelSize], idx, entries[..depth]);
    assert level[..levelSize][0] == level[0];
    root := level[0];
  }

  /** merkle_verify_proof. */
  method VerifyEntries(h: Sha256, leafHash: Digest, entries: array<Entry>, depth: nat, root: Digest) returns (ok: bool)
    requires depth <= entries.Length
    ensures ok == Accepts(h, leafHash, entries[..depth], root)
  {
    var current := leafHash;
    ghost var proof := entries[..depth];
    for i := 0 to depth
      invariant Fold(h, current, proof[i..]) == Fold(h, leafHash, proof)
    {
      assert proof[i..][0] == entries[i] && proof[i..][1..] == proof[i + 1..];
      if entries[i].isRight != 0 {
        current := NodeHash(h, entries[i].sibling, current);
      } else {
        current := NodeHash(h, current, entries[i].sibling);
      }
    }
    return current == root;
  }

  /** The path that either builder produces for leaf `index`. */
  function LeafPath(h: Sha256, leaves: seq<Bytes>, index: nat): Proof
    requires index < |leaves|
  {
    Path(h, Padded(h, leaves), Depth(|leaves|), index)
  }

  /** Every leaf's proof is accepted under the root, given the hash of the leaf. */
  lemma ProofsAreAccepted(h: Sha256, leaves: seq<Bytes>, index: nat)
    requires index < |leaves|
    ensures Accepts(h, h(leaves[index]), LeafPath(h, leaves, index), TreeRoot(h, leaves))
  {
    PathFoldsToRoot(h, Padded(h, leaves), Depth(|leaves|), index);
  }

  lemma {:induction false} PathIsFullDepth(h: Sha256, level: seq<Digest>, k: nat, index: nat)
    requires |level| == Pow2(k) && index < |level|
    ensures FullDepth(Path(h, level, k, index), k, index)
    decreases k
  {
    if k > 0 {
      PathUnfolds(h, level, k, index);
      PathIsFullDepth(h, Up(h, level), k - 1, index / 2);
    }
  }

  /**
   * The tree hashes every leaf, verify_proof only those that are not 32 bytes long. Given the leaf itself, its proof
   * is accepted exactly when the leaf has another length or is its own hash, unless a collision shows up on the way.
   */
  lemma RawLeafAcceptedIff(h: Sha256, leaves: seq<Bytes>, index: nat)
    requires index < |leaves|
    requires var leaf, path := leaves[index], LeafPath(h, leaves, index);
             |leaf| == 32 ==> CollisionFree(h, Hashed(h, leaf, path) + Hashed(h, h(leaf), path))
    ensures var leaf := leaves[index];
            Accepts(h, leaf, LeafPath(h, leaves, index), TreeRoot(h, leaves)) <==> |leaf| != 32 || h(leaf) == leaf
  {
    var leaf, padded, k := leaves[index], Padded(h, leaves), Depth(|leaves|);
    ProofsAreAccepted(h, leaves, index);
    if |leaf| == 32 && Accepts(h, leaf, LeafPath(h, leaves, index), TreeRoot(h, leaves)) {
      PathIsFullDepth(h, padded, k, index);
      PathBindsLeaf(h, padded, k, index, leaf, LeafPath(h, leaves, index));
    }
  }
}
