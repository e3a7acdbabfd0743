/** What an accepted transaction guarantees, type by type, and who can have signed it. */
module Acceptance {
  import opened Wrappers
  import opened ByteStrings
  import opened Wots
  import opened Merkle
  import opened MerkleBuild
  import opened AuthTree
  import opened Transactions
  import opened Ledger
  import opened LedgerValue
  import RotationKey

  // --------------------------------------------------------- structure and epoch

  /** The rules on the shape of a transaction, with the numbers of the code. */
  ghost predicate WellBuilt(tx: Tx) {
    && tx.version == 1 && 1 <= |tx.outputs| <= 16 && |tx.inputs| <= 16 && Size(tx) <= 65536
    && (forall i :: 0 <= i < |tx.outputs| ==> tx.outputs[i].value == 0 || tx.outputs[i].value >= 546)
    && (tx.txType != Coinbase ==> |tx.inputs| >= 1 && tx.fee >= Size(tx))
  }

  lemma StructureIff(tx: Tx)
    ensures Structure(tx) == Valid <==> WellBuilt(tx)
  {
    if exists o :: o in tx.outputs && IsDust(o) {
      var o :| o in tx.outputs && IsDust(o);
      var i :| 0 <= i < |tx.outputs| && tx.outputs[i] == o;
      assert tx.outputs[i].value != 0 && tx.outputs[i].value < 546;
    } else {
      forall i | 0 <= i < |tx.outputs| ensures tx.outputs[i].value == 0 || tx.outputs[i].value >= 546 {
        assert tx.outputs[i] in tx.outputs && !IsDust(tx.outputs[i]);
      }
    }
  }

  /** Well built, and for this epoch or the one before. */
  ghost predicate Timely(tx: Tx, epoch: int) {
    WellBuilt(tx) && epoch - 1 <= tx.epoch <= epoch
  }

  lemma ValidIffTypeValid(hs: Hashes, s: State, tx: Tx, epoch: int)
    ensures Validate(hs, s, tx, epoch) == Valid <==> Timely(tx, epoch) && TypeVerdict(hs, s, tx, epoch) == Valid
  {
    StructureIff(tx);
  }

  // ------------------------------------------------------------------ transfers

  /**
   * The input opens its output: it is known, unspent and not locked, the signature is one of the transaction under
   * the key given, and a registered owner's root has accepted a proof for that key.
   */
  ghost predicate Opens(h: Sha256, s: State, i: TxInput, message: Digest, epoch: int) {
    && i.prev in s.utxos && !s.utxos[i.prev].isSpent && s.utxos[i.prev].output.lockEpoch <= epoch
    && Verifies(h, message, i.signature, i.publicKey)
    && (s.utxos[i.prev].output.address in s.registry.registered ==>
          Committed(h, s.registry, s.utxos[i.prev].output.address, i))
  }

  ghost predicate Committed(h: Sha256, reg: Registry, owner: Bytes, i: TxInput) {
    && owner in reg.roots && i.authProof.Some? && i.authProof.value != []
    && Accepts(h, h(i.publicKey), i.authProof.value, reg.roots[owner])
  }

  ghost predicate AllOpen(h: Sha256, s: State, inputs: seq<TxInput>, message: Digest, epoch: int) {
    forall k :: 0 <= k < |inputs| ==> Opens(h, s, inputs[k], message, epoch)
  }

  lemma InputValidIff(h: Sha256, s: State, i: TxInput, message: Digest, epoch: int)
    ensures InputVerdict(h, s, i, message, epoch) == Valid <==> Opens(h, s, i, message, epoch)
  {
  }

  lemma {:induction false} InputsValidIff(h: Sha256, s: State, inputs: seq<TxInput>, message: Digest, epoch: int)
    ensures InputsVerdict(h, s, inputs, message, epoch) == Valid <==> AllOpen(h, s, inputs, message, epoch)
  {
    if inputs != [] {
      InputValidIff(h, s, inputs[0], message, epoch);
      InputsValidIff(h, s, inputs[1..], message, epoch);
      assert AllOpen(h, s, inputs, message, epoch) ==> forall k :: 0 <= k < |inputs[1..]| ==> inputs[1..][k] == inputs[k + 1];
      assert inputs == [inputs[0]] + inputs[1..];
    }
  }

  ghost predicate Pays(s: State, tx: Tx) {
    InputTotal(s.utxos, tx.inputs) >= TotalOutput(tx.outputs) + tx.fee
  }

  /** What every spending of one's own outputs must meet. */
  ghost predicate SpendsOwn(h: Sha256, s: State, tx: Tx, epoch: int) {
    Encodable(tx) && AllOpen(h, s, tx.inputs, TxHash(h, tx), epoch) && Pays(s, tx)
  }

  lemma TransferVerdictIff(h: Sha256, s: State, tx: Tx, epoch: int)
    ensures TransferVerdict(h, s, tx, epoch) == Valid <==> SpendsOwn(h, s, tx, epoch)
  {
    if Encodable(tx) {
      InputsValidIff(h, s, tx.inputs, TxHash(h, tx), epoch);
    }
  }

  /** TRANSFER and UNSTAKE are accepted exactly when every input opens its output and the outputs are paid for. */
  lemma TransferValidIff(hs: Hashes, s: State, tx: Tx, epoch: int)
    requires tx.txType == Transfer || tx.txType == Unstake
    ensures Validate(hs, s, tx, epoch) == Valid <==> Timely(tx, epoch) && SpendsOwn(hs.h256, s, tx, epoch)
  {
    ValidIffTypeValid(hs, s, tx, epoch);
    TransferVerdictIff(hs.h256, s, tx, epoch);
  }

  /** STAKE also needs an output that stays locked, DATA one with a payload. */
  lemma StakeOrDataValidIff(hs: Hashes, s: State, tx: Tx, epoch: int)
    ensures tx.txType == Stake ==>
              (Validate(hs, s, tx, epoch) == Valid
               <==> && Timely(tx, epoch) && SpendsOwn(hs.h256, s, tx, epoch)
                    && exists i :: 0 <= i < |tx.outputs| && tx.outputs[i].lockEpoch > epoch)
    ensures tx.txType == Data ==>
              (Validate(hs, s, tx, epoch) == Valid
               <==> && Timely(tx, epoch) && SpendsOwn(hs.h256, s, tx, epoch)
                    && exists i :: 0 <= i < |tx.outputs| && tx.outputs[i].data != [])
  {
    ValidIffTypeValid(hs, s, tx, epoch);
    TransferVerdictIff(hs.h256, s, tx, epoch);
    HasIff(tx.outputs, (o: TxOutput) => o.lockEpoch > epoch);
    HasIff(tx.outputs, (o: TxOutput) => o.data != []);
  }

  lemma HasIff<T>(outputs: seq<T>, p: T -> bool)
    ensures (exists o :: o in outputs && p(o)) <==> exists i :: 0 <= i < |outputs| && p(outputs[i])
  {
    if o :| o in outputs && p(o) {
      var i :| 0 <= i < |outputs| && outputs[i] == o;
    }
    if i :| 0 <= i < |outputs| && p(outputs[i]) {
      assert outputs[i] in outputs;
    }
  }

  // ------------------------------------------------------------- the other types

  /** The single input of a registration or rotation is known, unspent and not locked. */
  ghost predicate OneUsable(s: State, tx: Tx, epoch: int) {
    && |tx.inputs| == 1 && |tx.outputs| >= 1 && tx.inputs[0].prev in s.utxos
    && !s.utxos[tx.inputs[0].prev].isSpent && s.utxos[tx.inputs[0].prev].output.lockEpoch <= epoch
  }

  /** REGISTER: signed, of an address that the inner hash derives to and that is not registered. */
  lemma RegisterValidIff(hs: Hashes, s: State, tx: Tx, epoch: int)
    requires tx.txType == Register
    ensures Validate(hs, s, tx, epoch) == Valid <==>
            && Timely(tx, epoch) && Encodable(tx) && OneUsable(s, tx, epoch) && Pays(s, tx)
            && |tx.outputs[0].data| == 96 && Verifies(hs.h256, TxHash(hs.h256, tx), tx.inputs[0].signature, tx.inputs[0].publicKey)
            && var owner := s.utxos[tx.inputs[0].prev].output.address;
               owner == AddressOf(hs, tx.outputs[0].data[..64]) && owner !in s.registry.registered
  {
    ValidIffTypeValid(hs, s, tx, epoch);
  }

  /** ROTATE_AUTH: signed with a key that the registered root commits to; the field claims an index of at least 1022. */
  lemma RotateValidIff(hs: Hashes, s: State, tx: Tx, epoch: int)
    requires tx.txType == RotateAuth
    ensures Validate(hs, s, tx, epoch) == Valid <==>
            && Timely(tx, epoch) && Encodable(tx) && OneUsable(s, tx, epoch) && Pays(s, tx) && |tx.outputs[0].data| == 32
            && var owner, field := s.utxos[tx.inputs[0].prev].output.address, RotationKey.Parse(tx.inputs[0].publicKey);
               && owner in s.registry.registered && owner in s.registry.roots && field.Ok? && field.value.keyIndex >= 1022
               && Verifies(hs.h256, TxHash(hs.h256, tx), tx.inputs[0].signature, field.value.publicKey)
               && Accepts(hs.h256, hs.h256(field.value.publicKey), field.value.proof, s.registry.roots[owner])
  {
    ValidIffTypeValid(hs, s, tx, epoch);
  }

  ghost predicate Slashable(h: Sha256, s: State, i: TxInput, message: Digest) {
    && Verifies(h, message, i.signature, i.publicKey)
    && i.prev in s.utxos && !s.utxos[i.prev].isSpent && s.utxos[i.prev].output.lockEpoch != 0
  }

  lemma {:induction false} SlashInputsValidIff(h: Sha256, s: State, inputs: seq<TxInput>, message: Digest)
    ensures SlashInputsVerdict(h, s, inputs, message) == Valid
       <==> forall k :: 0 <= k < |inputs| ==> Slashable(h, s, inputs[k], message)
  {
    if inputs != [] {
      SlashInputsValidIff(h, s, inputs[1..], message);
      assert forall k :: 0 <= k < |inputs[1..]| ==> inputs[1..][k] == inputs[k + 1];
      assert inputs == [inputs[0]] + inputs[1..];
    }
  }

  /** SLASH: evidence in the first output, every input signed and of a staked output; value is not compared. */
  lemma SlashValidIff(hs: Hashes, s: State, tx: Tx, epoch: int)
    requires tx.txType == Slash
    ensures Validate(hs, s, tx, epoch) == Valid <==>
            && Timely(tx, epoch) && Encodable(tx) && |tx.outputs[0].data| >= 32
            && forall k :: 0 <= k < |tx.inputs| ==> Slashable(hs.h256, s, tx.inputs[k], TxHash(hs.h256, tx))
  {
    ValidIffTypeValid(hs, s, tx, epoch);
    SlashInputsValidIff(hs.h256, s, tx.inputs, TxHash(hs.h256, tx));
  }

  lemma CoinbaseValidIff(hs: Hashes, s: State, tx: Tx, epoch: int)
    requires tx.txType == Coinbase
    ensures Validate(hs, s, tx, epoch) == Valid <==> Timely(tx, epoch) && tx.inputs == [] && TotalOutput(tx.outputs) <= 100_00000000
  {
    ValidIffTypeValid(hs, s, tx, epoch);
  }

  // -------------------------------------------------------- who can have signed

  /** The leaf that the direction bits of a proof lead to. */
  function LeafOf(proof: Proof): nat {
    if proof == [] then 0 else (if proof[0].isRight != 0 then 1 else 0) + 2 * LeafOf(proof[1..])
  }

  lemma {:induction false} LeafInRange(proof: Proof)
    requires forall j :: 0 <= j < |proof| ==> |proof[j].sibling| == 32
    ensures LeafOf(proof) < Pow2(|proof|) && FullDepth(proof, |proof|, LeafOf(proof))
  {
    if proof != [] {
      LeafInRange(proof[1..]);
      assert LeafOf(proof) / 2 == LeafOf(proof[1..]) && LeafOf(proof) % 2 == if proof[0].isRight != 0 then 1 else 0;
    }
  }

  /** A ten-entry proof with 32-byte siblings, which is what fits a batch of 1024 keys. */
  ghost predicate FitsBatch(proof: Proof) {
    |proof| == 10 && forall j :: 0 <= j < 10 ==> |proof[j].sibling| == 32
  }

  /** No two of the strings hashed while the proof and the batch's own path to that leaf are folded collide. */
  ghost predicate FoldsApart(hs: Hashes, seed: Bytes, publicKey: Bytes, proof: Proof)
    requires LeafOf(proof) < TOTAL_KEYS
  {
    var own := KeyAt(hs, seed, LeafOf(proof));
    CollisionFree(hs.h256, Hashed(hs.h256, hs.h256(publicKey), proof)
                           + Hashed(hs.h256, hs.h256(own), KeyProof(hs, seed, LeafOf(proof))))
  }

  lemma BatchProofInRange(proof: Proof)
    requires FitsBatch(proof)
    ensures LeafOf(proof) < TOTAL_KEYS && FullDepth(proof, 10, LeafOf(proof))
  {
    LeafInRange(proof);
    BatchSize();
  }

  lemma BatchSize()
    ensures Pow2(10) == TOTAL_KEYS
  {
    assert Pow2(5) == 32;
    assert Pow2(10) == 32 * Pow2(5);
  }

  /** The root of a batch accepts, at a leaf, only the key of the batch that stands there, short of a collision. */
  lemma RootAcceptsOwnKeys(hs: Hashes, seed: Bytes, publicKey: Bytes, proof: Proof)
    requires FitsBatch(proof) && LeafOf(proof) < TOTAL_KEYS && FoldsApart(hs, seed, publicKey, proof)
    requires Accepts(hs.h256, hs.h256(publicKey), proof, AuthRoot(hs, seed))
    ensures publicKey == KeyAt(hs, seed, LeafOf(proof)) || Collides(hs.h256, publicKey, KeyAt(hs, seed, LeafOf(proof)))
  {
    var keys, index := BatchKeys(hs, seed), LeafOf(proof);
    var padded := Padded(hs.h256, keys);
    BatchProofInRange(proof);
    BatchDepth();
    KeysBelowAt(hs, seed, TOTAL_KEYS, index);
    assert padded[index] == hs.h256(KeyAt(hs, seed, index));
    PathBindsLeaf(hs.h256, padded, 10, index, hs.h256(publicKey), proof);
  }

  /**
   * Whoever gets a registered owner's output spent holds a signature of that very transaction under one of the 1024
   * keys of the owner's current batch, short of a collision.
   */
  lemma OnlyBatchKeysSpend(hs: Hashes, s: State, tx: Tx, epoch: int, seed: Bytes, k: nat)
    requires Validate(hs, s, tx, epoch) == Valid && tx.txType in {Transfer, Unstake, Stake, Data} && k < |tx.inputs|
    requires tx.inputs[k].prev in s.utxos ==>
               var owner := s.utxos[tx.inputs[k].prev].output.address;
               owner in s.registry.registered && owner in s.registry.roots && s.registry.roots[owner] == AuthRoot(hs, seed)
    requires tx.inputs[k].authProof.Some? ==>
               var proof := tx.inputs[k].authProof.value;
               FitsBatch(proof) && (LeafOf(proof) < TOTAL_KEYS ==> FoldsApart(hs, seed, tx.inputs[k].publicKey, proof))
    ensures var i := tx.inputs[k];
            && i.authProof.Some? && LeafOf(i.authProof.value) < TOTAL_KEYS
            && Verifies(hs.h256, TxHash(hs.h256, tx), i.signature, i.publicKey)
            && (i.publicKey == KeyAt(hs, seed, LeafOf(i.authProof.value))
                || Collides(hs.h256, i.publicKey, KeyAt(hs, seed, LeafOf(i.authProof.value))))
  {
    ValidIffTypeValid(hs, s, tx, epoch);
    TransferVerdictIff(hs.h256, s, tx, epoch);
    var i := tx.inputs[k];
    assert Opens(hs.h256, s, i, TxHash(hs.h256, tx), epoch);
    BatchProofInRange(i.authProof.value);
    RootAcceptsOwnKeys(hs, seed, i.publicKey, i.authProof.value);
  }

  /** The same of a rotation; which of the 1024 keys it was is claimed in the field and not checked. */
  lemma OnlyBatchKeysRotate(hs: Hashes, s: State, tx: Tx, epoch: int, seed: Bytes, field: RotationKey.RotationProof)
    requires Validate(hs, s, tx, epoch) == Valid && tx.txType == RotateAuth
    requires tx.inputs != [] && RotationKey.Parse(tx.inputs[0].publicKey) == Ok(field)
    requires tx.inputs[0].prev in s.utxos ==>
               var owner := s.utxos[tx.inputs[0].prev].output.address;
               owner in s.registry.roots ==> s.registry.roots[owner] == AuthRoot(hs, seed)
    requires FitsBatch(field.proof) && (LeafOf(field.proof) < TOTAL_KEYS ==> FoldsApart(hs, seed, field.publicKey, field.proof))
    ensures LeafOf(field.proof) < TOTAL_KEYS && field.keyIndex >= FIRST_RESERVED_KEY
    ensures Verifies(hs.h256, TxHash(hs.h256, tx), tx.inputs[0].signature, field.publicKey)
    ensures field.publicKey == KeyAt(hs, seed, LeafOf(field.proof)) || Collides(hs.h256, field.publicKey, KeyAt(hs, seed, LeafOf(field.proof)))
  {
    RotateValidIff(hs, s, tx, epoch);
    BatchProofInRange(field.proof);
    RootAcceptsOwnKeys(hs, seed, field.publicKey, field.proof);
  }
}
