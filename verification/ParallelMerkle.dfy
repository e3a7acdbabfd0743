/** The Merkle root of a large transaction set, chunk by chunk on several workers. */
module ParallelMerkle {
  const MERKLE_BATCH_SIZE: nat := 10000
  const MIN_CHUNK: nat := 1000

  /** Parents of consecutive pairs; a last one without a partner is paired with itself. */
  function PairUp<H>(node: (H, H) -> H, level: seq<H>): (r: seq<H>)
    ensures |r| == (|level| + 1) / 2
  {
    if level == [] then []
    else if |level| == 1 then [node(level[0], level[0])]
    else [node(level[0], level[1])] + PairUp(node, level[2..])
  }

  /** The level as both loops prepare it: the last entry is repeated when the length is odd. */
  function Evened<H>(level: seq<H>): (r: seq<H>)
    ensures |r| % 2 == 0 && |r| == 2 * ((|level| + 1) / 2)
  {
    if |level| % 2 == 1 then level + [level[|level| - 1]] else level
  }

  /** The root level by level. */
  function LevelRoot<H>(node: (H, H) -> H, level: seq<H>): H
    requires level != []
    decreases |level|
  {
    if |level| == 1 then level[0] else LevelRoot(node, PairUp(node, Evened(level)))
  }

  /** Pairing splits at every even position: no pair is torn apart. */
  lemma {:induction false} PairUpSplits<H>(node: (H, H) -> H, a: seq<H>, b: seq<H>)
    requires |a| % 2 == 0
    ensures PairUp(node, a + b) == PairUp(node, a) + PairUp(node, b)
    decreases |a|
  {
    if a == [] {
      assert a + b == b;
    } else {
      assert (a + b)[2..] == a[2..] + b;
      PairUpSplits(node, a[2..], b);
    }
  }

  /** The chunks, from the front. */
  function Chunks<H>(level: seq<H>, w: nat): (r: seq<seq<H>>)
    requires w > 0
    decreases |level|
  {
    if level == [] then []
    else if |level| <= w then [level]
    else [level[..w]] + Chunks(level[w..], w)
  }

  /** next_level.extend over the chunk results, in chunk order. */
  function Flatten<H>(parts: seq<seq<H>>): seq<H> {
    if parts == [] then [] else Flatten(parts[..|parts| - 1]) + parts[|parts| - 1]
  }

  function PairUpEach<H>(node: (H, H) -> H, chunks: seq<seq<H>>): (r: seq<seq<H>>)
    ensures |r| == |chunks| && forall i :: 0 <= i < |r| ==> r[i] == PairUp(node, chunks[i])
  {
    if chunks == [] then [] else PairUpEach(node, chunks[..|chunks| - 1]) + [PairUp(node, chunks[|chunks| - 1])]
  }

  lemma {:induction false} FlattenFront<H>(parts: seq<seq<H>>)
    requires parts != []
    ensures Flatten(parts) == parts[0] + Flatten(parts[1..])
  {
    if |parts| > 1 {
      var n := |parts| - 1;
      FlattenFront(parts[..n]);
      assert parts[..n][1..] == parts[1..][..n - 1] && parts[1..][n - 1] == parts[n];
      assert Flatten(parts) == parts[0] + Flatten(parts[1..][..n - 1]) + parts[n];
    } else {
      assert parts[..0] == [] && parts[1..] == [];
      assert Flatten(parts) == Flatten(parts[..0]) + parts[0];
    }
  }

  lemma OneChunk<H>(node: (H, H) -> H, level: seq<H>)
    ensures Flatten(PairUpEach(node, [level])) == PairUp(node, level)
  {
    var parts := PairUpEach(node, [level]);
    assert parts == [PairUp(node, level)] && parts[..0] == [];
  }

  lemma FirstChunk<H>(node: (H, H) -> H, first: seq<H>, rest: seq<seq<H>>)
    ensures var parts := PairUpEach(node, [first] + rest); parts[0] == PairUp(node, first) && parts[1..] == PairUpEach(node, rest)
  {
    assert ([first] + rest)[1..] == rest;
  }

  /** Hashing even-width chunks separately and joining the results is hashing the level. */
  lemma {:induction false} ChunksPairUp<H>(node: (H, H) -> H, level: seq<H>, w: nat)
    requires w > 0 && w % 2 == 0
    ensures Flatten(PairUpEach(node, Chunks(level, w))) == PairUp(node, level)
    decreases |level|
  {
    if level == [] {
    } else if |level| <= w {
      OneChunk(node, level);
    } else {
      ChunksPairUp(node, level[w..], w);
      PairUpSplits(node, level[..w], level[w..]);
      assert level == level[..w] + level[w..];
      var rest := Chunks(level[w..], w);
      FirstChunk(node, level[..w], rest);
      FlattenFront(PairUpEach(node, [level[..w]] + rest));
    }
  }

  method HashChunk<H>(node: (H, H) -> H, pairs: seq<H>) returns (result: seq<H>)
    ensures result == PairUp(node, pairs)
  {
    result := [];
    var i := 0;
    while i < |pairs|
      invariant 0 <= i <= |pairs| + 1
      invariant i <= |pairs| ==> PairUp(node, pairs) == result + PairUp(node, pairs[i..])
      invariant i == |pairs| + 1 ==> PairUp(node, pairs) == result
    {
      if i + 1 < |pairs| {
        PairUpFrom(node, pairs, i);
        result := result + [node(pairs[i], pairs[i + 1])];
      } else {
        result := result + [node(pairs[i], pairs[i])];
      }
      i := i + 2;
    }
  }

  lemma PairUpFrom<H>(node: (H, H) -> H, level: seq<H>, i: nat)
    requires i + 1 < |level|
    ensures PairUp(node, level[i..]) == [node(level[i], level[i + 1])] + PairUp(node, level[i + 2..])
  {
    assert level[i..][2..] == level[i + 2..];
  }

  /** One level of the sequential loop, for a level of even length. */
  method NextLevel<H>(node: (H, H) -> H, even: seq<H>) returns (nextLevel: seq<H>)
    requires |even| % 2 == 0
    ensures nextLevel == PairUp(node, even)
  {
    nextLevel := [];
    var i := 0;
    while i < |even|
      invariant 0 <= i <= |even| && i % 2 == 0
      invariant PairUp(node, even) == nextLevel + PairUp(node, even[i..])
    {
      PairUpFrom(node, even, i);
      nextLevel := nextLevel + [node(even[i], even[i + 1])];
      i := i + 2;
    }
  }

  /** One level up keeps the root and shortens the level. */
  lemma LevelStep<H>(node: (H, H) -> H, level: seq<H>)
    requires |level| > 1
    ensures var up := PairUp(node, Evened(level));
            up != [] && |up| < |level| && LevelRoot(node, up) == LevelRoot(node, level)
  {
  }

  method RootSequential<H>(node: (H, H) -> H, leaves: seq<H>) returns (root: H)
    requires leaves != []
    ensures root == LevelRoot(node, leaves)
  {
    var current := leaves;
    ghost var goal := LevelRoot(node, leaves);
    while |current| > 1
      invariant current != [] && LevelRoot(node, current) == goal
      decreases |current|
    {
      LevelStep(node, current);
      if |current| % 2 == 1 {
        current := current + [current[|current| - 1]];
      }
      current := NextLevel(node, current);
    }
    root := current[0];
  }

  lemma ChunksStep<H>(level: seq<H>, w: nat, i: nat)
    requires w > 0 && i < |level|
    ensures var hi := if i + w <= |level| then i + w else |level|;
            Chunks(level[i..], w) == [level[i..hi]] + (if i + w < |level| then Chunks(level[i + w..], w) else [])
  {
    var rest := level[i..];
    if i + w < |level| {
      assert rest[..w] == level[i..i + w] && rest[w..] == level[i + w..];
    } else {
      assert rest == level[i..|level|];
    }
  }

  ghost predicate CutSoFar<H>(level: seq<H>, w: nat, chunks: seq<seq<H>>, i: nat)
    requires w > 0
  {
    Chunks(level, w) == chunks + (if i < |level| then Chunks(level[i..], w) else [])
  }

  lemma CutNext<H>(level: seq<H>, w: nat, chunks: seq<seq<H>>, i: nat)
    requires w > 0 && i < |level| && CutSoFar(level, w, chunks, i)
    ensures CutSoFar(level, w, chunks + [level[i..if i + w <= |level| then i + w else |level|]], i + w)
  {
    ChunksStep(level, w, i);
  }

  lemma CutStart<H>(level: seq<H>, w: nat)
    requires w > 0
    ensures CutSoFar(level, w, [], 0)
  {
    assert level[0..] == level;
  }

  /** Cuts the level into chunks of width w. */
  method Cut<H>(level: seq<H>, w: nat) returns (chunks: seq<seq<H>>)
    requires w > 0
    ensures chunks == Chunks(level, w)
  {
    chunks := [];
    var i: nat := 0;
    CutStart(level, w);
    while i < |level|
      invariant CutSoFar(level, w, chunks, i)
      decreases |level| - i
    {
      CutNext(level, w, chunks, i);
      chunks := chunks + [level[i..if i + w <= |level| then i + w else |level|]];
      i := i + w;
    }
  }

  /** max(1000, n // (2 * workers)). */
  method ChunkSize(n: nat, numWorkers: nat) returns (size: nat)
    requires numWorkers >= 1
    ensures size >= MIN_CHUNK
  {
    var share := n / (numWorkers * 2);
    size := if share > MIN_CHUNK then share else MIN_CHUNK;
  }

  function Below(n: nat): (s: set<nat>)
    ensures forall i: nat :: i in s <==> i < n
  {
    if n == 0 then {} else Below(n - 1) + {n - 1}
  }

  ghost predicate Finished<H>(node: (H, H) -> H, chunks: seq<seq<H>>, results: seq<seq<H>>, pending: set<nat>) {
    && |results| == |chunks| && (forall i :: i in pending ==> i < |chunks|)
    && forall i: nat :: i < |chunks| && i !in pending ==> results[i] == PairUp(node, chunks[i])
  }

  /** The workers finish in any order; each result has its own place. */
  method RunWorkers<H(0)>(node: (H, H) -> H, chunks: seq<seq<H>>) returns (results: array<seq<H>>)
    ensures fresh(results) && results[..] == PairUpEach(node, chunks)
  {
    results := new seq<H>[|chunks|](_ => []);
    var pending := Below(|chunks|);
    while pending != {}
      invariant Finished(node, chunks, results[..], pending)
      decreases |pending|
    {
      var i :| i in pending;
      var hashed := HashChunk(node, chunks[i]);
      ghost var before := results[..];
      results[i] := hashed;
      assert results[..] == before[i := hashed];
      pending := pending - {i};
    }
  }

  /** The results are collected in chunk order. */
  method HashAll<H(0)>(node: (H, H) -> H, chunks: seq<seq<H>>) returns (nextLevel: seq<H>)
    ensures nextLevel == Flatten(PairUpEach(node, chunks))
  {
    var results := RunWorkers(node, chunks);
    ghost var parts := results[..];
    nextLevel := [];
    for i := 0 to results.Length
      invariant nextLevel == Flatten(parts[..i]) && results[..] == parts
    {
      assert parts[..i + 1][..i] == parts[..i];
      nextLevel := nextLevel + results[i];
    }
    assert parts[..|parts|] == parts;
  }

  method NextLevelParallel<H(0)>(node: (H, H) -> H, even: seq<H>, numWorkers: nat) returns (nextLevel: seq<H>)
    requires numWorkers >= 1
    ensures nextLevel == PairUp(node, even)
  {
    var chunkSize := ChunkSize(|even|, numWorkers);
    ChunksPairUp(node, even, chunkSize * 2);
    var chunks := Cut(even, chunkSize * 2);
    nextLevel := HashAll(node, chunks);
  }

  method RootParallel<H(0)>(node: (H, H) -> H, leaves: seq<H>, numWorkers: nat) returns (root: H)
    requires leaves != [] && numWorkers >= 1
    ensures root == LevelRoot(node, leaves)
  {
    var current := leaves;
    ghost var goal := LevelRoot(node, leaves);
    while |current| > 1
      invariant current != [] && LevelRoot(node, current) == goal
      decreases |current|
    {
      LevelStep(node, current);
      if |current| % 2 == 1 {
        current := current + [current[|current| - 1]];
      }
      current := NextLevelParallel(node, current, numWorkers);
    }
    root := current[0];
  }

  /** For every non-empty list and every number of workers the root is the level-by-level root. */
  method ComputeRoot<H(0)>(node: (H, H) -> H, zero: H, leaves: seq<H>, numWorkers: nat) returns (root: H)
    requires numWorkers >= 1
    ensures root == if leaves == [] then zero else LevelRoot(node, leaves)
  {
    if |leaves| == 0 {
      return zero;
    }
    if |leaves| == 1 {
      return leaves[0];
    }
    if |leaves| <= MERKLE_BATCH_SIZE {
      root := RootSequential(node, leaves);
    } else {
      root := RootParallel(node, leaves, numWorkers);
    }
  }
}
