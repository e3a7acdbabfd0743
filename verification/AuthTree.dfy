/** Batches of 1024 one-time keys under a Merkle root, and the wallet's chain of batches. */
module AuthTree {
  import opened Wrappers
  import opened ByteStrings
  import opened Wots
  import opened Merkle
  import opened MerkleBuild

  const TOTAL_KEYS: nat := 1024
  const RESERVED: nat := 2
  const USABLE_KEYS: nat := 1022

  const KEY_SEED_TAG: Bytes := [107, 101, 121, 95, 115, 101, 101, 100]
  const BATCH_INITIAL_TAG: Bytes := [98, 97, 116, 99, 104, 95, 105, 110, 105, 116, 105, 97, 108]
  const BATCH_NEXT_TAG: Bytes := [98, 97, 116, 99, 104, 95, 110, 101, 120, 116]

  /** The two hash functions of the system. */
  datatype Hashes = Hashes(h256: Sha256, h512: Sha512)

  const OUTER_TAG: Bytes := [97, 100, 100, 114, 101, 115, 115, 95, 111, 117, 116, 101, 114]

  /** The static address that an inner hash derives to. */
  function AddressOf(hs: Hashes, innerHash: Bytes): Wide {
    hs.h512(AddressInput(innerHash))
  }

  function AddressInput(innerHash: Bytes): Bytes {
    OUTER_TAG + innerHash
  }

  function InitialBatchSeed(hs: Hashes, masterSeed: Bytes): Wide {
    hs.h512(BATCH_INITIAL_TAG + masterSeed)
  }

  function NextBatchSeed(hs: Hashes, seed: Bytes): Wide {
    hs.h512(BATCH_NEXT_TAG + seed)
  }

  /** The byte string that a batch seed is the hash of. */
  function BatchInput(hs: Hashes, masterSeed: Bytes, batch: nat): Bytes {
    if batch == 0 then BATCH_INITIAL_TAG + masterSeed else BATCH_NEXT_TAG + BatchSeed(hs, masterSeed, batch - 1)
  }

  function BatchSeed(hs: Hashes, masterSeed: Bytes, batch: nat): Wide {
    if batch == 0 then InitialBatchSeed(hs, masterSeed)
    else NextBatchSeed(hs, BatchSeed(hs, masterSeed, batch - 1))
  }

  function KeyInput(batchSeed: Bytes, index: nat): Bytes {
    KEY_SEED_TAG + batchSeed + Be(index, 8)
  }

  function KeySeed(hs: Hashes, batchSeed: Bytes, index: nat): Wide {
    hs.h512(KeyInput(batchSeed, index))
  }

  function KeyAt(hs: Hashes, batchSeed: Bytes, index: nat): Bytes {
    PublicKey(hs.h256, KeySeed(hs, batchSeed, index))
  }

  /** The first n public keys of a batch. */
  function KeysBelow(hs: Hashes, batchSeed: Bytes, n: nat): (keys: seq<Bytes>)
    ensures |keys| == n
    decreases n, batchSeed
  {
    if n == 0 then [] else KeysBelow(hs, batchSeed, n - 1) + [KeyAt(hs, batchSeed, n - 1)]
  }

  lemma {:induction false} KeysBelowAt(hs: Hashes, batchSeed: Bytes, n: nat, i: nat)
    requires i < n
    ensures KeysBelow(hs, batchSeed, n)[i] == KeyAt(hs, batchSeed, i)
  {
    if i < n - 1 {
      KeysBelowAt(hs, batchSeed, n - 1, i);
    }
  }

  function BatchKeys(hs: Hashes, batchSeed: Bytes): (keys: seq<Bytes>)
    ensures |keys| == TOTAL_KEYS
  {
    KeysBelow(hs, batchSeed, TOTAL_KEYS)
  }

  function AuthRoot(hs: Hashes, batchSeed: Bytes): Digest {
    TreeRoot(hs.h256, BatchKeys(hs, batchSeed))
  }

  function KeyProof(hs: Hashes, batchSeed: Bytes, index: nat): Proof
    requires index < TOTAL_KEYS
  {
    var keys := BatchKeys(hs, batchSeed);
    DepthIsLeast(|keys|, Depth(|keys|));
    Path(hs.h256, Padded(hs.h256, keys), Depth(|keys|), index)
  }

  datatype Signed = Signed(signature: Bytes, publicKey: Bytes, proof: Proof, index: nat)

  /** What signing `message` with key `index` of a batch yields. */
  function SignedWith(hs: Hashes, batchSeed: Bytes, index: nat, message: Bytes): Signed
    requires index < TOTAL_KEYS
  {
    Signed(Signature(hs.h256, hs.h256(message), PrivateKey(hs.h256, KeySeed(hs, batchSeed, index))),
           KeyAt(hs, batchSeed, index), KeyProof(hs, batchSeed, index), index)
  }

  /** verify_against_root. */
  predicate AuthVerifies(hs: Hashes, message: Bytes, signature: Bytes, publicKey: Bytes, proof: Proof, root: Bytes) {
    Verifies(hs.h256, message, signature, publicKey) && Accepts(hs.h256, hs.h256(publicKey), proof, root)
  }

  /** The proofs of a 1024-key batch have ten entries with 32-byte siblings. */
  lemma KeyProofShape(hs: Hashes, batchSeed: Bytes, index: nat)
    requires index < TOTAL_KEYS
    ensures |KeyProof(hs, batchSeed, index)| == 10
    ensures forall j :: 0 <= j < 10 ==>
              |KeyProof(hs, batchSeed, index)[j].sibling| == 32 && KeyProof(hs, batchSeed, index)[j].isRight < 2
  {
    var keys := BatchKeys(hs, batchSeed);
    BatchDepth();
    PathShape(hs.h256, Padded(hs.h256, keys), 10, index);
  }

  lemma BatchDepth()
    ensures Depth(TOTAL_KEYS) == 10
  {
    assert Pow2(1) == 2;
    assert Pow2(2) == 4;
    assert Pow2(3) == 8;
    assert Pow2(4) == 16;
    assert Pow2(5) == 32;
    assert Pow2(6) == 64;
    assert Pow2(7) == 128;
    assert Pow2(8) == 256;
    assert Pow2(9) == 512;
    assert Pow2(10) == 1024;
    DepthIsLeast(TOTAL_KEYS, 10);
    DepthIsLeast(TOTAL_KEYS, 9);
  }

  lemma {:induction false} PathShape(h: Sha256, level: seq<Digest>, k: nat, index: nat)
    requires |level| == Pow2(k) && index < |level|
    ensures forall j :: 0 <= j < k ==>
              |Path(h, level, k, index)[j].sibling| == 32 && Path(h, level, k, index)[j].isRight < 2
    decreases k
  {
    if k > 0 {
      PathUnfolds(h, level, k, index);
      PathShape(h, Up(h, level), k - 1, index / 2);
      var path := Path(h, level, k, index);
      forall j | 0 <= j < k ensures |path[j].sibling| == 32 && path[j].isRight < 2 {
        if j > 0 {
          assert path[j] == path[1..][j - 1];
        }
      }
    }
  }

  /** Every signature made with any of the 1024 keys verifies against the root of its batch. */
  lemma BatchSignaturesVerify(hs: Hashes, batchSeed: Bytes, index: nat, message: Bytes)
    requires index < TOTAL_KEYS
    ensures var s := SignedWith(hs, batchSeed, index, message);
            AuthVerifies(hs, message, s.signature, s.publicKey, s.proof, AuthRoot(hs, batchSeed))
  {
    SignaturesVerify(hs.h256, KeySeed(hs, batchSeed, index), message);
    KeysBelowAt(hs, batchSeed, TOTAL_KEYS, index);
    ProofsAreAccepted(hs.h256, BatchKeys(hs, batchSeed), index);
  }
}
