/** Transactions signed with temporal keys, registrations and rotations, and why the validator accepts them. */
module WalletTxs {
  import opened Wrappers
  import opened ByteStrings
  import opened Wots
  import opened Merkle
  import opened AuthTree
  import opened Transactions
  import opened Ledger
  import opened LedgerValue
  import K = KeyManager
  import opened RotationKey
  import opened CoinSelection

  /** An output the wallet knows, with its reference. */
  datatype Coin = Coin(ref: OutRef, utxo: Utxo)

  function CoinValue(): Coin -> int {
    (c: Coin) => c.utxo.output.value
  }

  function SpendableAt(epoch: int): Coin -> bool {
    (c: Coin) => !c.utxo.isSpent && c.utxo.output.lockEpoch <= epoch
  }

  function SelectCoins(coins: seq<Coin>, epoch: int, needed: int): seq<Coin> {
    Selected(coins, SpendableAt(epoch), CoinValue(), needed)
  }

  // ---------------------------------------------------------- temporal signing

  /** A signature made with a batch key verifies under the batch root, with a ten-entry proof. */
  lemma MadeVerifies(hs: Hashes, seed: Bytes, index: nat, message: Bytes, s: Signed)
    requires K.MadeWith(hs, seed, index, message, s)
    ensures AuthVerifies(hs, message, s.signature, s.publicKey, s.proof, AuthRoot(hs, seed))
    ensures |s.proof| == 10 && IsEncodableProof(s.proof) && |s.publicKey| == SIG_SIZE
  {
    BatchSignaturesVerify(hs, seed, index, message);
    KeyProofShape(hs, seed, index);
    PublicKeyCells(hs.h256, KeySeed(hs, seed, index));
  }

  /** Input i carries the signature s of the transaction hash. */
  ghost predicate Carries(i: TxInput, s: Signed) {
    i.signature == s.signature && i.publicKey == s.publicKey && i.authProof == Some(s.proof)
  }

  ghost predicate SignedAt(hs: Hashes, seed: Bytes, tx: Tx, start: nat, signed: seq<Signed>, i: int) {
    && 0 <= i < |tx.inputs| == |signed|
    && Carries(tx.inputs[i], signed[i]) && K.MadeWith(hs, seed, start + i, TxHash(hs.h256, tx), signed[i])
  }

  /** Every input carries the signature made with the next key of the batch, starting from key `start`. */
  ghost predicate SignedByBatch(hs: Hashes, seed: Bytes, tx: Tx, start: nat, signed: seq<Signed>) {
    |signed| == |tx.inputs| && forall i :: 0 <= i < |tx.inputs| ==> SignedAt(hs, seed, tx, start, signed, i)
  }

  /** The chain knows the output as unspent, unlocked and owned by the address. */
  ghost predicate OwnedOnChain(utxos: Utxos, r: OutRef, owner: Bytes, epoch: int) {
    Spendable(utxos, r) && utxos[r].output.address == owner && utxos[r].output.lockEpoch <= epoch
  }

  ghost predicate RegisteredWith(reg: Registry, owner: Bytes, root: Bytes) {
    owner in reg.registered && owner in reg.roots && reg.roots[owner] == root
  }

  lemma SignedInputIsValid(hs: Hashes, s: State, seed: Bytes, owner: Bytes, i: TxInput, sg: Signed, index: nat, message: Digest, epoch: int)
    requires Carries(i, sg) && K.MadeWith(hs, seed, index, message, sg)
    requires OwnedOnChain(s.utxos, i.prev, owner, epoch) && RegisteredWith(s.registry, owner, AuthRoot(hs, seed))
    ensures InputVerdict(hs.h256, s, i, message, epoch) == Valid
  {
    MadeVerifies(hs, seed, index, message, sg);
  }

  /**
   * A transfer signed with the wallet's batch keys validates whenever it passes the structure checks, can be hashed
   * and pays for itself, provided the chain knows its inputs as the wallet's and holds the batch root.
   */
  lemma SignedTransferValidates(hs: Hashes, s: State, tx: Tx, epoch: int, seed: Bytes, owner: Bytes, start: nat, signed: seq<Signed>)
    requires tx.txType == Transfer && tx.epoch == epoch && Structure(tx) == Valid && Encodable(tx)
    requires SignedByBatch(hs, seed, tx, start, signed)
    requires RegisteredWith(s.registry, owner, AuthRoot(hs, seed))
    requires forall i :: 0 <= i < |tx.inputs| ==> OwnedOnChain(s.utxos, tx.inputs[i].prev, owner, epoch)
    ensures Validate(hs, s, tx, epoch) == Valid <==> InputTotal(s.utxos, tx.inputs) >= TotalOutput(tx.outputs) + tx.fee
  {
    forall i | 0 <= i < |tx.inputs| ensures InputVerdict(hs.h256, s, tx.inputs[i], TxHash(hs.h256, tx), epoch) == Valid {
      assert SignedAt(hs, seed, tx, start, signed, i);
      SignedInputIsValid(hs, s, seed, owner, tx.inputs[i], signed[i], start + i, TxHash(hs.h256, tx), epoch);
    }
    InputsVerdictAll(hs.h256, s, tx.inputs, TxHash(hs.h256, tx), epoch);
  }

  // ------------------------------------------------------------ legacy signing

  /** Input i carries a signature made with the pair generated from seeds[i]. */
  ghost predicate LegacySignedAt(hs: Hashes, tx: Tx, seeds: seq<Wide>, i: int) {
    && 0 <= i < |tx.inputs| && i < |seeds|
    && tx.inputs[i].publicKey == PublicKey(hs.h256, seeds[i])
    && tx.inputs[i].signature == Signature(hs.h256, hs.h256(TxHash(hs.h256, tx)), PrivateKey(hs.h256, seeds[i]))
  }

  ghost predicate SignedByPairs(hs: Hashes, tx: Tx, seeds: seq<Wide>) {
    |seeds| == |tx.inputs| && forall i :: 0 <= i < |tx.inputs| ==> LegacySignedAt(hs, tx, seeds, i)
  }

  /** Before the owner is registered, signatures by any key pairs do: nothing binds a key to the address. */
  lemma LegacyTransferIsValid(hs: Hashes, s: State, tx: Tx, epoch: int, owner: Bytes, seeds: seq<Wide>)
    requires tx.txType == Transfer && tx.epoch == epoch && Structure(tx) == Valid && Encodable(tx)
    requires SignedByPairs(hs, tx, seeds) && owner !in s.registry.registered
    requires forall i :: 0 <= i < |tx.inputs| ==> OwnedOnChain(s.utxos, tx.inputs[i].prev, owner, epoch)
    ensures Validate(hs, s, tx, epoch) == Valid <==> InputTotal(s.utxos, tx.inputs) >= TotalOutput(tx.outputs) + tx.fee
  {
    forall i | 0 <= i < |tx.inputs| ensures InputVerdict(hs.h256, s, tx.inputs[i], TxHash(hs.h256, tx), epoch) == Valid {
      assert LegacySignedAt(hs, tx, seeds, i);
      SignaturesVerify(hs.h256, seeds[i], TxHash(hs.h256, tx));
    }
    InputsVerdictAll(hs.h256, s, tx.inputs, TxHash(hs.h256, tx), epoch);
  }

  // -------------------------------------------------------------- registration

  /** The transaction create_registration_tx builds: one input whatever was selected, change from the whole total. */
  function RegistrationOutputs(innerHash: Bytes, root: Bytes, address: Bytes, total: int, fee: int): seq<TxOutput> {
    WithChange(TxOutput(0, address, 0, innerHash + root), total - fee, address)
  }

  function WithChange(first: TxOutput, change: int, address: Bytes): seq<TxOutput> {
    if change >= DUST_THRESHOLD then [first, TxOutput(change, address, 0, [])] else [first]
  }

  lemma ChangeTotal(first: TxOutput, change: int, address: Bytes)
    ensures TotalOutput(WithChange(first, change, address)) == first.value + (if change >= DUST_THRESHOLD then change else 0)
  {
    var outputs := WithChange(first, change, address);
    assert outputs[..1] == [first];
    assert [first][..0] == [];
    assert TotalOutput([first]) == first.value;
  }

  lemma OneInputTotal(utxos: Utxos, inputs: seq<TxInput>)
    requires |inputs| == 1
    ensures InputTotal(utxos, inputs) == ValueAt(utxos, inputs[0].prev)
  {
    assert inputs[..0] == [];
  }

  /** The first selected coin covers the fee, or it does not and more were selected to reach it. */
  ghost predicate SelectedFor(first: int, total: int, fee: int) {
    total >= fee && (first >= fee ==> total == first)
  }

  lemma BalancedIffFirstCovers(s: State, tx: Tx, first: TxOutput, total: int, address: Bytes)
    requires |tx.inputs| == 1 && tx.outputs == WithChange(first, total - tx.fee, address) && first.value == 0
    requires SelectedFor(ValueAt(s.utxos, tx.inputs[0].prev), total, tx.fee)
    ensures Balanced(s, tx) == Valid <==> ValueAt(s.utxos, tx.inputs[0].prev) >= tx.fee
  {
    ChangeTotal(first, total - tx.fee, address);
    OneInputTotal(s.utxos, tx.inputs);
  }

  /**
   * A registration validates exactly when the first selected coin covers the fee, whichever key pair signed it: the
   * data must name the inner hash behind the address, and nothing binds the key to that hash.
   */
  lemma RegistrationValidatesIff(
      hs: Hashes, s: State, inner: Wide, pairSeed: Bytes, root: Digest, tx: Tx, total: int, epoch: int)
    requires tx.txType == Register && tx.epoch == epoch && Structure(tx) == Valid && Encodable(tx) && |tx.inputs| == 1
    requires tx.outputs == RegistrationOutputs(inner, root, AddressOf(hs, inner), total, tx.fee)
    requires OwnedOnChain(s.utxos, tx.inputs[0].prev, AddressOf(hs, inner), epoch)
    requires AddressOf(hs, inner) !in s.registry.registered
    requires tx.inputs[0].publicKey == PublicKey(hs.h256, pairSeed)
    requires tx.inputs[0].signature == Signature(hs.h256, hs.h256(TxHash(hs.h256, tx)), PrivateKey(hs.h256, pairSeed))
    requires SelectedFor(ValueAt(s.utxos, tx.inputs[0].prev), total, tx.fee)
    ensures Validate(hs, s, tx, epoch) == Valid <==> ValueAt(s.utxos, tx.inputs[0].prev) >= tx.fee
  {
    var first := TxOutput(0, AddressOf(hs, inner), 0, inner + root);
    assert first.data[..64] == inner;
    SignaturesVerify(hs.h256, pairSeed, TxHash(hs.h256, tx));
    BalancedIffFirstCovers(s, tx, first, total, AddressOf(hs, inner));
  }

  // ------------------------------------------------------------------ rotation

  /** A rotation signed with a reserved key of the batch on chain validates exactly when the first coin covers the fee. */
  lemma RotationValidatesIff(
      hs: Hashes, s: State, seed: Bytes, index: nat, sg: Signed, owner: Bytes, newRoot: Digest, tx: Tx, total: int, epoch: int)
    requires tx.txType == RotateAuth && tx.epoch == epoch && Structure(tx) == Valid && Encodable(tx) && |tx.inputs| == 1
    requires tx.outputs == WithChange(TxOutput(0, owner, 0, newRoot), total - tx.fee, owner)
    requires OwnedOnChain(s.utxos, tx.inputs[0].prev, owner, epoch) && RegisteredWith(s.registry, owner, AuthRoot(hs, seed))
    requires FIRST_RESERVED_KEY <= index && K.MadeWith(hs, seed, index, TxHash(hs.h256, tx), sg)
    requires tx.inputs[0].signature == sg.signature
    requires tx.inputs[0].publicKey == Encode(RotationProof(sg.publicKey, sg.proof, index))
    requires SelectedFor(ValueAt(s.utxos, tx.inputs[0].prev), total, tx.fee)
    ensures Validate(hs, s, tx, epoch) == Valid <==> ValueAt(s.utxos, tx.inputs[0].prev) >= tx.fee
  {
    MadeVerifies(hs, seed, index, TxHash(hs.h256, tx), sg);
    FieldRoundTrip(RotationProof(sg.publicKey, sg.proof, index));
    BalancedIffFirstCovers(s, tx, TxOutput(0, owner, 0, newRoot), total, owner);
  }

  // ------------------------------------------------------- hash and signatures

  /** Filling in signatures, keys and proofs does not change what was signed. */
  lemma HashIgnoresSignatures(h: Sha256, tx: Tx, inputs: seq<TxInput>)
    requires SameRefs(tx.inputs, inputs)
    ensures TxHash(h, tx.(inputs := inputs)) == TxHash(h, tx)
    ensures Encodable(tx.(inputs := inputs)) == Encodable(tx)
  {
    SameRefsSameBytes(tx.inputs, inputs);
  }
}
