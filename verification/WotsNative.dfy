/** The C implementation of WOTS+ over flat buffers, and the CUDA kernels that verify batches. */
module WotsNative {
  import opened ByteStrings
  import opened Wots

  // ------------------------------------------------------------------ wots.c

  /** memcpy of one 32-byte value into cell i of a 67-cell buffer. */
  method WriteCell(buffer: array<Byte>, i: nat, value: Digest)
    requires buffer.Length == SIG_SIZE && i < LEN
    modifies buffer
    ensures Cell(buffer[..], i) == value
    ensures forall j :: 0 <= j < LEN && j != i ==> Cell(buffer[..], j) == old(Cell(buffer[..], j))
  {
    for k := 0 to N
      invariant forall m :: 0 <= m < k ==> buffer[i * N + m] == value[m]
      invariant forall m :: 0 <= m < SIG_SIZE && !(i * N <= m < i * N + k) ==> buffer[m] == old(buffer[m])
    {
      buffer[i * N + k] := value[k];
    }
    forall j | 0 <= j < LEN && j != i ensures Cell(buffer[..], j) == old(Cell(buffer[..], j)) {
      forall m | 0 <= m < N ensures Cell(buffer[..], j)[m] == old(Cell(buffer[..], j))[m] {
        assert Cell(buffer[..], j)[m] == buffer[j * N + m];
      }
    }
  }

  /** wots_keygen: both buffers are filled cell by cell. */
  method KeygenC(h: Sha256, seed: Bytes, privateKey: array<Byte>, publicKey: array<Byte>)
    requires privateKey != publicKey && privateKey.Length == publicKey.Length == SIG_SIZE
    modifies privateKey, publicKey
    ensures privateKey[..] == PrivateKey(h, seed)
    ensures publicKey[..] == PublicKey(h, seed)
  {
    for i := 0 to LEN
      invariant forall j :: 0 <= j < i ==> Cell(privateKey[..], j) == ChainSeed(h, seed, j)
      invariant forall j :: 0 <= j < i ==> Cell(publicKey[..], j) == Chain(h, ChainSeed(h, seed, j), W - 1)
    {
      WriteCell(privateKey, i, ChainSeed(h, seed, i));
      var end := HashChain(h, privateKey[i * N..(i + 1) * N], W - 1);
      WriteCell(publicKey, i, end);
    }
    PrivateKeyCells(h, seed);
    PublicKeyCells(h, seed);
    CellsDetermineBuffer(privateKey[..], PrivateKey(h, seed));
    CellsDetermineBuffer(publicKey[..], PublicKey(h, seed));
  }

  /** compute_chunks, from an already hashed message, into a buffer of 67 chunks. */
  method ComputeChunksC(d: Digest, chunks: array<Nibble>)
    requires chunks.Length == LEN
    modifies chunks
    ensures chunks[..] == Chunks(d)
  {
    for i := 0 to 32
      invariant forall k :: 0 <= k < 2 * i ==> chunks[k] == Nibbles(d)[k]
    {
      chunks[2 * i] := d[i] / 16 % 16;
      chunks[2 * i + 1] := d[i] % 16;
    }
    assert chunks[..LEN1] == Nibbles(d);
    var checksum := 0;
    for i := 0 to LEN1
      invariant chunks[..LEN1] == Nibbles(d)
      invariant checksum == Checksum(Nibbles(d)[..i])
    {
      assert Nibbles(d)[..i + 1][..i] == Nibbles(d)[..i];
      assert chunks[..LEN1][i] == chunks[i];
      checksum := checksum + W - 1 - chunks[i];
    }
    assert Nibbles(d)[..LEN1] == Nibbles(d);
    chunks[64] := checksum / 256 % 16;
    chunks[65] := checksum / 16 % 16;
    chunks[66] := checksum % 16;
    assert chunks[..LEN1] == Nibbles(d);
    assert chunks[..] == chunks[..LEN1] + [chunks[64], chunks[65], chunks[66]];
  }

  /** wots_sign. */
  method SignC(h: Sha256, message: Bytes, privateKey: array<Byte>, signature: array<Byte>)
    requires privateKey != signature && privateKey.Length == signature.Length == SIG_SIZE
    modifies signature
    ensures signature[..] == Signature(h, h(message), privateKey[..])
  {
    var chunks := new Nibble[LEN](_ => 0);
    ComputeChunksC(h(message), chunks);
    assert chunks[..] == Chunks(h(message));
    for i := 0 to LEN
      invariant chunks[..] == Chunks(h(message))
      invariant forall j :: 0 <= j < i ==>
                  Cell(signature[..], j) == Chain(h, Cell(privateKey[..], j), Chunks(h(message))[j])
    {
      assert chunks[i] == chunks[..][i];
      var value := HashChain(h, privateKey[i * N..(i + 1) * N], chunks[i]);
      WriteCell(signature, i, value);
    }
    SignatureCells(h, h(message), privateKey[..]);
    CellsDetermineBuffer(signature[..], Signature(h, h(message), privateKey[..]));
  }

  /** wots_verify. */
  method VerifyC(h: Sha256, message: Bytes, signature: array<Byte>, publicKey: array<Byte>) returns (ok: bool)
    requires signature.Length == publicKey.Length == SIG_SIZE
    ensures ok == Verifies(h, message, signature[..], publicKey[..])
  {
    var chunks := new Nibble[LEN](_ => 0);
    ComputeChunksC(h(message), chunks);
    for i := 0 to LEN
      invariant chunks[..] == Chunks(h(message))
      invariant forall k :: 0 <= k < i ==> ChainValid(h, h(message), signature[..], publicKey[..], k)
    {
      assert chunks[i] == chunks[..][i];
      assert Cell(signature[..], i) == signature[i * N..(i + 1) * N];
      assert Cell(publicKey[..], i) == publicKey[i * N..(i + 1) * N];
      var computed := HashChain(h, signature[i * N..(i + 1) * N], W - 1 - chunks[i]);
      if computed != publicKey[i * N..(i + 1) * N] {
        assert !ChainValid(h, h(message), signature[..], publicKey[..], i);
        return false;
      }
    }
    return true;
  }

  // ---------------------------------------------------------- wots_verify.cu

  /** Transaction t's 2144 bytes of a batch buffer. */
  function Row(buffer: Bytes, t: nat): Bytes
    requires (t + 1) * SIG_SIZE <= |buffer|
  {
    buffer[t * SIG_SIZE..(t + 1) * SIG_SIZE]
  }

  ghost predicate BatchShape(signatures: Bytes, publicKeys: Bytes, hashes: seq<Digest>) {
    |signatures| == |publicKeys| == |hashes| * SIG_SIZE
  }

  lemma RowInBounds(n: nat, t: nat)
    requires t < n
    ensures (t + 1) * SIG_SIZE <= n * SIG_SIZE
  {
  }

  lemma RowCell(buffer: Bytes, t: nat, i: nat)
    requires (t + 1) * SIG_SIZE <= |buffer| && i < LEN
    ensures var start := t * SIG_SIZE + i * N;
            start + N <= |buffer| && Cell(Row(buffer, t), i) == buffer[start..start + N]
  {
    SliceOfSlice(buffer, t * SIG_SIZE, (t + 1) * SIG_SIZE, i * N, i * N + N);
  }

  lemma SliceOfSlice(b: Bytes, lo: nat, hi: nat, x: nat, y: nat)
    requires lo <= hi <= |b| && x <= y <= hi - lo
    ensures b[lo..hi][x..y] == b[lo + x..lo + y]
  {
    var left, right := b[lo..hi][x..y], b[lo + x..lo + y];
    assert |left| == |right| && forall m :: 0 <= m < |left| ==> left[m] == right[m];
  }

  /** The flat thread index splits into a transaction and a chain. */
  lemma SplitIndex(tid: nat, n: nat)
    requires tid < n * LEN
    ensures tid / LEN < n && tid % LEN < LEN && tid == (tid / LEN) * LEN + tid % LEN
  {
  }

  lemma JoinIndex(t: nat, i: nat)
    requires i < LEN
    ensures (t * LEN + i) / LEN == t && (t * LEN + i) % LEN == i
  {
  }

  /** What thread tid should report for its chain. */
  ghost predicate ThreadValid(h: Sha256, signatures: Bytes, publicKeys: Bytes, hashes: seq<Digest>, tid: nat)
    requires BatchShape(signatures, publicKeys, hashes) && tid < |hashes| * LEN
  {
    SplitIndex(tid, |hashes|);
    RowInBounds(|hashes|, tid / LEN);
    ChainValid(h, hashes[tid / LEN], Row(signatures, tid / LEN), Row(publicKeys, tid / LEN), tid % LEN)
  }

  /** wots_verify_kernel as run by one thread: one chain of one transaction. */
  method VerifyThread(h: Sha256, signatures: Bytes, publicKeys: Bytes, hashes: seq<Digest>,
                      chainResults: array<Byte>, tid: nat)
    requires BatchShape(signatures, publicKeys, hashes)
    requires chainResults.Length == |hashes| * LEN
    modifies chainResults
    ensures forall j :: 0 <= j < chainResults.Length && j != tid ==> chainResults[j] == old(chainResults[j])
    ensures tid < chainResults.Length ==>
              chainResults[tid] == if ThreadValid(h, signatures, publicKeys, hashes, tid) then 1 else 0
  {
    var numTxs := |hashes|;
    if tid >= numTxs * LEN {
      return;
    }
    SplitIndex(tid, numTxs);
    var txIdx, chainIdx := tid / LEN, tid % LEN;
    RowInBounds(numTxs, txIdx);
    var start := txIdx * SIG_SIZE + chainIdx * N;
    var sig, pub := signatures[start..start + N], publicKeys[start..start + N];
    RowCell(signatures, txIdx, chainIdx);
    RowCell(publicKeys, txIdx, chainIdx);
    var chunks := new Nibble[LEN](_ => 0);
    ComputeChunksC(hashes[txIdx], chunks);
    assert chunks[chainIdx] == chunks[..][chainIdx];
    var current := HashChain(h, sig, W - 1 - chunks[chainIdx]);
    chainResults[tid] := if current == pub then 1 else 0;
  }

  /** The whole launch: the threads run in any order, possibly more threads than chains. */
  method LaunchVerify(h: Sha256, signatures: Bytes, publicKeys: Bytes, hashes: seq<Digest>,
                      chainResults: array<Byte>, order: seq<nat>)
    requires BatchShape(signatures, publicKeys, hashes)
    requires chainResults.Length == |hashes| * LEN
    requires forall tid :: 0 <= tid < |hashes| * LEN ==> tid in order
    modifies chainResults
    ensures forall tid :: 0 <= tid < chainResults.Length ==>
              chainResults[tid] == if ThreadValid(h, signatures, publicKeys, hashes, tid) then 1 else 0
  {
    for k := 0 to |order|
      invariant forall tid :: 0 <= tid < chainResults.Length && tid in order[..k] ==>
                  chainResults[tid] == if ThreadValid(h, signatures, publicKeys, hashes, tid) then 1 else 0
    {
      VerifyThread(h, signatures, publicKeys, hashes, chainResults, order[k]);
      assert order[..k + 1] == order[..k] + [order[k]];
    }
    assert order[..|order|] == order;
  }

  /** The 67 chain flags of transaction t. */
  function Flags(chainResults: seq<Byte>, t: nat): (f: seq<Byte>)
    requires (t + 1) * LEN <= |chainResults|
    ensures |f| == LEN
  {
    chainResults[t * LEN..(t + 1) * LEN]
  }

  predicate AllSet(flags: seq<Byte>) {
    forall i :: 0 <= i < |flags| ==> flags[i] != 0
  }

  /** reduce_chains_kernel as run by one thread. */
  method ReduceThread(chainResults: array<Byte>, txResults: array<Byte>, txIdx: nat)
    requires chainResults != txResults && chainResults.Length == txResults.Length * LEN
    modifies txResults
    ensures forall j :: 0 <= j < txResults.Length && j != txIdx ==> txResults[j] == old(txResults[j])
    ensures txIdx < txResults.Length ==>
              (txIdx + 1) * LEN <= chainResults.Length &&
              txResults[txIdx] == if AllSet(Flags(chainResults[..], txIdx)) then 1 else 0
  {
    if txIdx >= txResults.Length {
      return;
    }
    assert (txIdx + 1) * LEN <= txResults.Length * LEN;
    var valid := 1;
    ghost var chains := Flags(chainResults[..], txIdx);
    for i := 0 to LEN
      invariant valid == 1
      invariant forall m :: 0 <= m < i ==> chains[m] != 0
    {
      assert chainResults[txIdx * LEN + i] == chains[i];
      if chainResults[txIdx * LEN + i] == 0 {
        valid := 0;
        break;
      }
    }
    txResults[txIdx] := valid;
  }

  method LaunchReduce(chainResults: array<Byte>, txResults: array<Byte>, order: seq<nat>)
    requires chainResults != txResults && chainResults.Length == txResults.Length * LEN
    requires forall t :: 0 <= t < txResults.Length ==> t in order
    modifies txResults
    ensures forall t :: 0 <= t < txResults.Length ==>
              (t + 1) * LEN <= chainResults.Length &&
              txResults[t] == if AllSet(Flags(chainResults[..], t)) then 1 else 0
  {
    for k := 0 to |order|
      invariant forall t :: 0 <= t < txResults.Length && t in order[..k] ==>
                  (t + 1) * LEN <= chainResults.Length &&
                  txResults[t] == if AllSet(Flags(chainResults[..], t)) then 1 else 0
    {
      ReduceThread(chainResults, txResults, order[k]);
      assert order[..k + 1] == order[..k] + [order[k]];
    }
    assert order[..|order|] == order;
  }

  /** All flags of a transaction are set exactly when every chain is valid. */
  lemma FlagsMeanVerified(h: Sha256, signatures: Bytes, publicKeys: Bytes, hashes: seq<Digest>,
                          chainResults: seq<Byte>, t: nat)
    requires BatchShape(signatures, publicKeys, hashes) && |chainResults| == |hashes| * LEN && t < |hashes|
    requires forall tid :: 0 <= tid < |chainResults| ==>
               chainResults[tid] == if ThreadValid(h, signatures, publicKeys, hashes, tid) then 1 else 0
    ensures (t + 1) * LEN <= |chainResults| && (t + 1) * SIG_SIZE <= |signatures|
    ensures AllSet(Flags(chainResults, t))
       <==> VerifiesDigest(h, hashes[t], Row(signatures, t), Row(publicKeys, t))
  {
    RowInBounds(|hashes|, t);
    assert (t + 1) * LEN <= |hashes| * LEN;
    var flags := Flags(chainResults, t);
    forall i | 0 <= i < LEN
      ensures flags[i] != 0 <==> ChainValid(h, hashes[t], Row(signatures, t), Row(publicKeys, t), i)
    {
      JoinIndex(t, i);
      assert flags[i] == chainResults[t * LEN + i];
      assert ThreadValid(h, signatures, publicKeys, hashes, t * LEN + i)
          <==> ChainValid(h, hashes[t], Row(signatures, t), Row(publicKeys, t), i);
    }
  }

  /** Both kernels: a transaction's flag is 1 exactly when sequential verification accepts it. */
  method VerifyBatch(h: Sha256, signatures: Bytes, publicKeys: Bytes, hashes: seq<Digest>,
                     verifyOrder: seq<nat>, reduceOrder: seq<nat>) returns (txResults: array<Byte>)
    requires BatchShape(signatures, publicKeys, hashes)
    requires forall tid :: 0 <= tid < |hashes| * LEN ==> tid in verifyOrder
    requires forall t :: 0 <= t < |hashes| ==> t in reduceOrder
    ensures txResults.Length == |hashes|
    ensures forall t :: 0 <= t < |hashes| ==>
              (t + 1) * SIG_SIZE <= |signatures| &&
              (txResults[t] == 1 <==> VerifiesDigest(h, hashes[t], Row(signatures, t), Row(publicKeys, t)))
  {
    var chainResults := new Byte[|hashes| * LEN](_ => 0);
    txResults := new Byte[|hashes|](_ => 0);
    LaunchVerify(h, signatures, publicKeys, hashes, chainResults, verifyOrder);
    LaunchReduce(chainResults, txResults, reduceOrder);
    forall t | 0 <= t < |hashes|
      ensures (t + 1) * SIG_SIZE <= |signatures| &&
              (txResults[t] == 1 <==> VerifiesDigest(h, hashes[t], Row(signatures, t), Row(publicKeys, t)))
    {
      FlagsMeanVerified(h, signatures, publicKeys, hashes, chainResults[..], t);
    }
  }
}
