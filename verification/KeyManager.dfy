/** The mutable key objects of a wallet and the life of its one-time keys. */
module KeyManager {
  import opened Wrappers
  import opened ByteStrings
  import opened Wots
  import opened Merkle
  import opened MerkleBuild
  import opened AuthTree

  datatype KeyError = NotRegistered | KeysExhausted | RotationKeysExhausted | TreeDestroyed | NotPrepared | LegacyIndexTooLarge

  /** `s` is what key `index` of the batch grown from `seed` makes of `message`. */
  ghost predicate MadeWith(hs: Hashes, seed: Bytes, index: nat, message: Bytes, s: Signed) {
    s.index == index < TOTAL_KEYS && s == SignedWith(hs, seed, s.index, message)
  }

  // -------------------------------------------------------- one batch of keys

  class TemporalAuthTree {
    const hs: Hashes
    var batchSeed: Bytes
    var keyIndex: nat
    var rotationIndex: nat
    var authTree: MerkleTree?

    ghost predicate Valid()
      reads this
    {
      && keyIndex <= USABLE_KEYS && rotationIndex <= RESERVED
      && (authTree != null ==>
            authTree.Valid() && authTree.sha3 == hs.h256 && authTree.raw == BatchKeys(hs, batchSeed))
    }

    constructor (hs: Hashes, batchSeed: Bytes)
      ensures Valid() && authTree != null
      ensures this.hs == hs && this.batchSeed == batchSeed && keyIndex == rotationIndex == 0
    {
      var pubKeys: seq<Bytes> := [];
      for i := 0 to TOTAL_KEYS
        invariant pubKeys == KeysBelow(hs, batchSeed, i)
      {
        var priv, pub := Keygen(hs.h256, KeySeed(hs, batchSeed, i));
        pubKeys := pubKeys + [pub];
      }
      this.hs := hs;
      this.batchSeed := batchSeed;
      keyIndex, rotationIndex := 0, 0;
      authTree := new MerkleTree(hs.h256, pubKeys);
    }

    method GetAuthRoot() returns (root: Digest)
      requires Valid() && authTree != null
      ensures root == AuthRoot(hs, batchSeed)
    {
      var r := authTree.RootValue();
      root := r.value;
    }

    /** The work common to both kinds of signing: derive key idx, sign, look up its proof. */
    method SignWithKey(idx: nat, message: Bytes) returns (s: Signed)
      requires Valid() && authTree != null && idx < TOTAL_KEYS
      ensures MadeWith(hs, batchSeed, idx, message, s)
    {
      var priv, pub := Keygen(hs.h256, KeySeed(hs, batchSeed, idx));
      var signature := Wots.Sign(hs.h256, message, priv);
      var proof := authTree.GetProof(idx);
      s := Signed(signature, pub, proof.value, idx);
    }

    /** Regular signing with the next key in 0..1021. */
    method Sign(message: Bytes) returns (r: Result<Signed, KeyError>)
      requires Valid()
      modifies this
      ensures Valid() && batchSeed == old(batchSeed) && authTree == old(authTree)
      ensures rotationIndex == old(rotationIndex)
      ensures old(keyIndex) >= USABLE_KEYS ==> r == Err(KeysExhausted) && keyIndex == old(keyIndex)
      ensures old(keyIndex) < USABLE_KEYS ==> keyIndex == old(keyIndex) + 1
      ensures old(keyIndex) < USABLE_KEYS ==>
                if authTree == null then r == Err(TreeDestroyed)
                else r.Ok? && MadeWith(hs, batchSeed, old(keyIndex), message, r.value)
    {
      if keyIndex >= USABLE_KEYS {
        return Err(KeysExhausted);
      }
      var idx := keyIndex;
      keyIndex := keyIndex + 1;
      if authTree == null {
        return Err(TreeDestroyed);
      }
      var s := SignWithKey(idx, message);
      return Ok(s);
    }

    /** Rotation signing with key 1022, then 1023. */
    method SignRotation(message: Bytes) returns (r: Result<Signed, KeyError>)
      requires Valid()
      modifies this
      ensures Valid() && batchSeed == old(batchSeed) && authTree == old(authTree)
      ensures keyIndex == old(keyIndex)
      ensures old(rotationIndex) >= RESERVED ==> r == Err(RotationKeysExhausted) && rotationIndex == old(rotationIndex)
      ensures old(rotationIndex) < RESERVED ==> rotationIndex == old(rotationIndex) + 1
      ensures old(rotationIndex) < RESERVED ==>
                if authTree == null then r == Err(TreeDestroyed)
                else r.Ok? && MadeWith(hs, batchSeed, USABLE_KEYS + old(rotationIndex), message, r.value)
    {
      if rotationIndex >= RESERVED {
        return Err(RotationKeysExhausted);
      }
      var idx := USABLE_KEYS + rotationIndex;
      rotationIndex := rotationIndex + 1;
      if authTree == null {
        return Err(TreeDestroyed);
      }
      var s := SignWithKey(idx, message);
      return Ok(s);
    }

    method Destroy()
      modifies this
      ensures authTree == null && keyIndex == old(keyIndex) && rotationIndex == old(rotationIndex)
    {
      if batchSeed != [] {
        batchSeed := seq(64, _ => 0);
      }
      authTree := null;
    }
  }

  /** verify_against_root. */
  method VerifyAgainstRoot(hs: Hashes, message: Bytes, signature: Bytes, publicKey: Bytes, proof: Proof, root: Bytes)
    returns (ok: bool)
    ensures ok == AuthVerifies(hs, message, signature, publicKey, proof, root)
  {
    ok := Wots.Verify(hs.h256, message, signature, publicKey);
    if !ok {
      return false;
    }
    ok := VerifyProof(hs.h256, hs.h256(publicKey), proof, root);
  }

  // -------------------------------------------- the C tree with cached proofs

  method BuildProof(hs: Hashes, batchSeed: Bytes, keys: seq<Bytes>, i: nat) returns (proof: Proof, root: Digest)
    requires keys == BatchKeys(hs, batchSeed) && i < TOTAL_KEYS
    ensures proof == KeyProof(hs, batchSeed, i) && root == AuthRoot(hs, batchSeed)
  {
    BatchDepth();
    var entries := new Entry[MAX_DEPTH](_ => Entry([], 0));
    var depth;
    root, depth := BuildWithProof(hs.h256, keys, i, entries);
    proof := entries[..depth];
  }

  ghost predicate Tabulates<T>(s: seq<T>, f: nat -> T) {
    forall j :: 0 <= j < |s| ==> s[j] == f(j)
  }

  lemma TabulatesNext<T>(s: seq<T>, x: T, f: nat -> T)
    requires Tabulates(s, f) && x == f(|s|)
    ensures Tabulates(s + [x], f)
  {
  }

  ghost function KeyProofs(hs: Hashes, batchSeed: Bytes): nat -> Proof {
    (j: nat) => if j < TOTAL_KEYS then KeyProof(hs, batchSeed, j) else []
  }

  /** Builds the tree once for each key; every build computes the root again, and the first one is kept. */
  method CacheProofs(hs: Hashes, batchSeed: Bytes, keys: seq<Bytes>) returns (cached: seq<Proof>, root: Digest)
    requires keys == BatchKeys(hs, batchSeed)
    ensures root == AuthRoot(hs, batchSeed) && |cached| == TOTAL_KEYS
    ensures Tabulates(cached, KeyProofs(hs, batchSeed))
  {
    cached, root := [], ZERO_DIGEST;
    for i := 0 to TOTAL_KEYS
      invariant |cached| == i
      invariant i > 0 ==> root == AuthRoot(hs, batchSeed)
      invariant Tabulates(cached, KeyProofs(hs, batchSeed))
    {
      var proof, rootTmp := BuildProof(hs, batchSeed, keys, i);
      TabulatesNext(cached, proof, KeyProofs(hs, batchSeed));
      cached := cached + [proof];
      if i == 0 {
        root := rootTmp;
      }
    }
  }

  /** The TemporalAuthTree struct of temporal_auth.c: keys and all 1024 proofs are computed up front. */
  class CachedAuthTree {
    const hs: Hashes
    const batchSeed: Bytes
    const authRoot: Digest
    const pubKeys: seq<Bytes>
    const proofs: seq<Proof>
    var keyIndex: nat
    var rotationIndex: nat

    ghost predicate Valid()
      reads this
    {
      && keyIndex <= USABLE_KEYS && rotationIndex <= RESERVED
      && pubKeys == BatchKeys(hs, batchSeed)
      && authRoot == AuthRoot(hs, batchSeed)
      && |proofs| == TOTAL_KEYS
      && Tabulates(proofs, KeyProofs(hs, batchSeed))
    }

    /** tat_init: the root is taken from the first of the 1024 proof builds. */
    constructor (hs: Hashes, batchSeed: Bytes)
      ensures Valid() && this.hs == hs && this.batchSeed == batchSeed
      ensures keyIndex == rotationIndex == 0
    {
      var keys: seq<Bytes> := [];
      for i := 0 to TOTAL_KEYS
        invariant keys == KeysBelow(hs, batchSeed, i)
      {
        var priv, pub := Keygen(hs.h256, KeySeed(hs, batchSeed, i));
        keys := keys + [pub];
      }
      var cached, root := CacheProofs(hs, batchSeed, keys);
      this.hs := hs;
      this.batchSeed := batchSeed;
      this.authRoot := root;
      this.pubKeys := keys;
      this.proofs := cached;
      keyIndex, rotationIndex := 0, 0;
    }

    /** tat_sign: -1 on exhaustion, otherwise the same signature the Python tree makes. */
    method Sign(message: Bytes) returns (code: int, s: Option<Signed>)
      requires Valid()
      modifies this
      ensures Valid() && rotationIndex == old(rotationIndex)
      ensures old(keyIndex) >= USABLE_KEYS ==> code == -1 && s == None && keyIndex == old(keyIndex)
      ensures old(keyIndex) < USABLE_KEYS ==> code == 0 && keyIndex == old(keyIndex) + 1
      ensures old(keyIndex) < USABLE_KEYS ==>
                s.Some? && MadeWith(hs, batchSeed, old(keyIndex), message, s.value)
    {
      if keyIndex >= USABLE_KEYS {
        return -1, None;
      }
      var idx := keyIndex;
      keyIndex := keyIndex + 1;
      var priv, pub := Keygen(hs.h256, KeySeed(hs, batchSeed, idx));
      var signature := Wots.Sign(hs.h256, message, priv);
      return 0, Some(Signed(signature, pub, proofs[idx], idx));
    }

    /** tat_sign_rotation. */
    method SignRotation(message: Bytes) returns (code: int, s: Option<Signed>)
      requires Valid()
      modifies this
      ensures Valid() && keyIndex == old(keyIndex)
      ensures old(rotationIndex) >= RESERVED ==> code == -1 && s == None && rotationIndex == old(rotationIndex)
      ensures old(rotationIndex) < RESERVED ==> code == 0 && rotationIndex == old(rotationIndex) + 1
      ensures old(rotationIndex) < RESERVED ==>
                s.Some? && MadeWith(hs, batchSeed, USABLE_KEYS + old(rotationIndex), message, s.value)
    {
      if rotationIndex >= RESERVED {
        return -1, None;
      }
      var idx := USABLE_KEYS + rotationIndex;
      rotationIndex := rotationIndex + 1;
      var priv, pub := Keygen(hs.h256, KeySeed(hs, batchSeed, idx));
      var signature := Wots.Sign(hs.h256, message, priv);
      return 0, Some(Signed(signature, pub, proofs[idx], idx));
    }
  }

  // ------------------------------------------------------------- key manager

  /** What decides which key signs next. */
  datatype Keys = Keys(batch: nat, keyIndex: nat, rotationIndex: nat, prepared: bool, registered: bool)

  const INITIAL_KEYS := Keys(0, 0, 0, false, false)

  function KeyFor(k: Keys): (r: Result<nat, KeyError>) {
    if !k.registered then Err(NotRegistered)
    else if k.keyIndex >= USABLE_KEYS then Err(KeysExhausted)
    else Ok(k.keyIndex)
  }

  function RotationKeyFor(k: Keys): (r: Result<nat, KeyError>) {
    if !k.registered then Err(NotRegistered)
    else if k.rotationIndex >= RESERVED then Err(RotationKeysExhausted)
    else Ok(USABLE_KEYS + k.rotationIndex)
  }

  function AfterSign(k: Keys): Keys {
    if KeyFor(k).Ok? then k.(keyIndex := k.keyIndex + 1) else k
  }

  function AfterSignRotation(k: Keys): Keys {
    if RotationKeyFor(k).Ok? then k.(rotationIndex := k.rotationIndex + 1) else k
  }

  function AfterExecute(k: Keys): Keys {
    if k.prepared then Keys(k.batch + 1, 0, 0, false, k.registered) else k
  }

  const INNER_TAG: Bytes := [97, 100, 100, 114, 101, 115, 115, 95, 105, 110, 110, 101, 114]
  const REGISTRATION_TAG: Bytes := [114, 101, 103, 105, 115, 116, 114, 97, 116, 105, 111, 110, 95, 107, 101, 121]

  function InnerHash(hs: Hashes, masterSeed: Bytes): Wide {
    hs.h512(InnerInput(masterSeed))
  }

  function InnerInput(masterSeed: Bytes): Bytes {
    INNER_TAG + masterSeed
  }

  function RegistrationSeed(hs: Hashes, masterSeed: Bytes): Wide {
    hs.h512(RegistrationInput(masterSeed))
  }

  function RegistrationInput(masterSeed: Bytes): Bytes {
    masterSeed + REGISTRATION_TAG
  }

  /** A tree that holds the keys of the batch grown from `seed` and has not been destroyed. */
  ghost predicate Live(t: TemporalAuthTree, hs: Hashes, seed: Bytes)
    reads t
  {
    t.hs == hs && t.batchSeed == seed && t.authTree != null && t.Valid()
  }

  lemma BatchSeedStep(hs: Hashes, masterSeed: Bytes, batch: nat)
    ensures BatchSeed(hs, masterSeed, batch + 1) == NextBatchSeed(hs, BatchSeed(hs, masterSeed, batch))
  {
  }

  class KeyManager {
    const hs: Hashes
    const masterSeed: Bytes
    const innerHash: Wide
    const address: Wide
    var currentBatchSeed: Wide
    var authTree: TemporalAuthTree
    var batchNumber: nat
    var nextBatchSeed: Option<Wide>
    var nextAuthTree: TemporalAuthTree?
    var nextAuthRoot: Option<Digest>
    var isRegistered: bool

    ghost predicate Valid()
      reads this, authTree, nextAuthTree
    {
      && innerHash == InnerHash(hs, masterSeed) && address == AddressOf(hs, innerHash)
      && currentBatchSeed == BatchSeed(hs, masterSeed, batchNumber)
      && Live(authTree, hs, currentBatchSeed)
      && (nextAuthTree != null ==>
            && nextAuthTree != authTree && nextBatchSeed.Some?
            && nextBatchSeed.value == NextBatchSeed(hs, currentBatchSeed)
            && Live(nextAuthTree, hs, nextBatchSeed.value)
            && nextAuthTree.keyIndex == nextAuthTree.rotationIndex == 0
            && nextAuthRoot == Some(AuthRoot(hs, nextBatchSeed.value)))
    }

    ghost function View(): Keys
      reads this, authTree
    {
      Keys(batchNumber, authTree.keyIndex, authTree.rotationIndex, nextAuthTree != null, isRegistered)
    }

    constructor (hs: Hashes, masterSeed: Bytes)
      ensures Valid() && fresh(authTree) && View() == INITIAL_KEYS
      ensures this.hs == hs && this.masterSeed == masterSeed && nextAuthTree == null
    {
      this.hs := hs;
      this.masterSeed := masterSeed;
      innerHash := InnerHash(hs, masterSeed);
      address := AddressOf(hs, InnerHash(hs, masterSeed));
      currentBatchSeed := InitialBatchSeed(hs, masterSeed);
      authTree := new TemporalAuthTree(hs, InitialBatchSeed(hs, masterSeed));
      batchNumber := 0;
      nextBatchSeed, nextAuthTree, nextAuthRoot := None, null, None;
      isRegistered := false;
    }

    method GetAuthRoot() returns (root: Digest)
      requires Valid()
      ensures root == AuthRoot(hs, currentBatchSeed)
    {
      root := authTree.GetAuthRoot();
    }

    method MarkRegistered()
      requires Valid()
      modifies this`isRegistered
      ensures Valid() && View() == old(View()).(registered := true)
    {
      isRegistered := true;
    }

    method TemporalSign(message: Bytes) returns (r: Result<Signed, KeyError>)
      requires Valid()
      modifies authTree
      ensures Valid() && View() == AfterSign(old(View()))
      ensures match KeyFor(old(View()))
              case Err(e) => r == Err(e)
              case Ok(i) => r.Ok? && MadeWith(hs, currentBatchSeed, i, message, r.value)
    {
      if !isRegistered {
        return Err(NotRegistered);
      }
      r := authTree.Sign(message);
    }

    method TemporalSignRotation(message: Bytes) returns (r: Result<Signed, KeyError>)
      requires Valid()
      modifies authTree
      ensures Valid() && View() == AfterSignRotation(old(View()))
      ensures match RotationKeyFor(old(View()))
              case Err(e) => r == Err(e)
              case Ok(i) => r.Ok? && MadeWith(hs, currentBatchSeed, i, message, r.value)
    {
      if !isRegistered {
        return Err(NotRegistered);
      }
      r := authTree.SignRotation(message);
    }

    /** Any number of preparations yields the same root: it depends on the current batch only. */
    method PrepareRotation() returns (root: Digest)
      requires Valid()
      modifies this`nextBatchSeed, this`nextAuthTree, this`nextAuthRoot
      ensures Valid() && View() == old(View()).(prepared := true) && fresh(nextAuthTree)
      ensures root == AuthRoot(hs, NextBatchSeed(hs, currentBatchSeed))
    {
      var seed := NextBatchSeed(hs, currentBatchSeed);
      nextBatchSeed := Some(seed);
      nextAuthTree := new TemporalAuthTree(hs, seed);
      root := nextAuthTree.GetAuthRoot();
      nextAuthRoot := Some(root);
    }

    /** The prepared tree becomes the current one. */
    method TakeOver()
      requires nextAuthTree != null && nextBatchSeed.Some? && Live(nextAuthTree, hs, nextBatchSeed.value)
      modifies this
      ensures authTree == old(nextAuthTree) && currentBatchSeed == old(nextBatchSeed.value)
      ensures Live(authTree, hs, currentBatchSeed) && nextAuthTree == null
      ensures batchNumber == old(batchNumber) + 1 && isRegistered == old(isRegistered)
    {
      batchNumber := batchNumber + 1;
      currentBatchSeed := nextBatchSeed.value;
      authTree := nextAuthTree;
      nextBatchSeed, nextAuthTree, nextAuthRoot := None, null, None;
    }

    /** AfterExecute, field by field: the old tree is destroyed; the prepared one takes over with unused keys. */
    method ExecuteRotation() returns (r: Result<(), KeyError>)
      requires Valid()
      modifies this, authTree
      ensures Valid() && isRegistered == old(isRegistered) && nextAuthTree == null
      ensures r == if old(nextAuthTree) == null then Err(NotPrepared) else Ok(())
      ensures r.Err? ==> View() == old(View())
      ensures r.Ok? ==> authTree == old(nextAuthTree) && old(authTree).authTree == null
      ensures r.Ok? ==> batchNumber == old(batchNumber) + 1 && authTree.keyIndex == authTree.rotationIndex == 0
    {
      if nextAuthTree == null {
        return Err(NotPrepared);
      }
      BatchSeedStep(hs, masterSeed, batchNumber);
      authTree.Destroy();
      TakeOver();
      return Ok(());
    }

    method GetRegistrationKeypair() returns (priv: Bytes, pub: Bytes)
      ensures priv == PrivateKey(hs.h256, RegistrationSeed(hs, masterSeed))
      ensures pub == PublicKey(hs.h256, RegistrationSeed(hs, masterSeed))
    {
      priv, pub := Keygen(hs.h256, RegistrationSeed(hs, masterSeed));
    }
  }

  // ------------------------------------------------- the life of all the keys

  datatype KeyCall = Register | SignMessage(message: Bytes) | SignRotationMessage(message: Bytes) | Prepare | Execute

  /** One signature made during the wallet's life: key `index` of batch `batch` signed `message`. */
  datatype Use = Use(batch: nat, index: nat, message: Bytes)

  function AfterCall(k: Keys, c: KeyCall): Keys {
    match c
    case Register => k.(registered := true)
    case SignMessage(_) => AfterSign(k)
    case SignRotationMessage(_) => AfterSignRotation(k)
    case Prepare => k.(prepared := true)
    case Execute => AfterExecute(k)
  }

  function UsesOfCall(k: Keys, c: KeyCall): seq<Use> {
    var key := if c.SignMessage? then KeyFor(k) else if c.SignRotationMessage? then RotationKeyFor(k) else Err(NotPrepared);
    if key.Ok? then [Use(k.batch, key.value, c.message)] else []
  }

  /** All signatures of a sequence of calls, oldest first. */
  function Uses(k: Keys, calls: seq<KeyCall>): seq<Use>
    decreases |calls|
  {
    if calls == [] then [] else UsesOfCall(k, calls[0]) + Uses(AfterCall(k, calls[0]), calls[1..])
  }

  /** Keys that state k can still use: later batches, or indices not yet reached in its own. */
  ghost predicate StillUnused(k: Keys, u: Use) {
    || u.batch > k.batch
    || (u.batch == k.batch && (if u.index < USABLE_KEYS then k.keyIndex <= u.index else USABLE_KEYS + k.rotationIndex <= u.index))
  }

  lemma {:induction false} UsesAreUnused(k: Keys, calls: seq<KeyCall>, n: nat)
    requires n < |Uses(k, calls)|
    ensures Uses(k, calls)[n].index < TOTAL_KEYS && StillUnused(k, Uses(k, calls)[n])
    decreases |calls|
  {
    var now := UsesOfCall(k, calls[0]);
    if n >= |now| {
      UsesAreUnused(AfterCall(k, calls[0]), calls[1..], n - |now|);
    }
  }

  /** Over the wallet's whole life no (batch, index) pair signs twice. */
  lemma {:induction false} NoKeySignsTwice(k: Keys, calls: seq<KeyCall>, m: nat, n: nat)
    requires m < n < |Uses(k, calls)|
    ensures var us := Uses(k, calls); us[m].batch != us[n].batch || us[m].index != us[n].index
    decreases |calls|
  {
    var now := UsesOfCall(k, calls[0]);
    var next := AfterCall(k, calls[0]);
    if m >= |now| {
      NoKeySignsTwice(next, calls[1..], m - |now|, n - |now|);
    } else {
      UsesAreUnused(next, calls[1..], n - |now|);
    }
  }

  /** The key pair of a use produces a signature that verifies under the root of the use's batch. */
  ghost predicate SignatureVerifies(hs: Hashes, masterSeed: Bytes, u: Use)
    requires u.index < TOTAL_KEYS
  {
    var seed := BatchSeed(hs, masterSeed, u.batch);
    var s := SignedWith(hs, seed, u.index, u.message);
    AuthVerifies(hs, u.message, s.signature, s.publicKey, s.proof, AuthRoot(hs, seed))
  }

  /** Regular messages take indices 0..1021 and rotation messages 1022 and 1023. */
  lemma {:induction false} UsesComeFromCalls(k: Keys, calls: seq<KeyCall>, n: nat)
    requires n < |Uses(k, calls)|
    ensures var u := Uses(k, calls)[n];
            && u.index < TOTAL_KEYS
            && (if u.index < USABLE_KEYS then SignMessage(u.message) in calls else SignRotationMessage(u.message) in calls)
    decreases |calls|
  {
    var now := UsesOfCall(k, calls[0]);
    if n >= |now| {
      UsesComeFromCalls(AfterCall(k, calls[0]), calls[1..], n - |now|);
    }
  }

  /** Every signature of the wallet's life verifies, and is of a message that was to be signed. */
  lemma EverySignatureVerifies(hs: Hashes, masterSeed: Bytes, k: Keys, calls: seq<KeyCall>, n: nat)
    requires n < |Uses(k, calls)|
    ensures var u := Uses(k, calls)[n];
            && u.index < TOTAL_KEYS && SignatureVerifies(hs, masterSeed, u)
            && (if u.index < USABLE_KEYS then SignMessage(u.message) in calls else SignRotationMessage(u.message) in calls)
  {
    UsesComeFromCalls(k, calls, n);
    var u := Uses(k, calls)[n];
    BatchSignaturesVerify(hs, BatchSeed(hs, masterSeed, u.batch), u.index, u.message);
  }
}
