/** How large the transactions of a wallet are, and which fees let them pass the structure checks. */
module WalletFees {
  import opened Wrappers
  import opened ByteStrings
  import opened Wots
  import opened AuthTree
  import opened Transactions
  import opened Ledger
  import opened CoinSelection
  import opened WalletTxs
  import opened WalletObjects
  import opened Acceptance
  import RotationKey
  import K = KeyManager

  // --------------------------------------------------------------------- sizes

  lemma {:induction false} EqualSizes(inputs: seq<TxInput>, size: nat)
    requires forall i :: 0 <= i < |inputs| ==> InputSize(inputs[i]) == size
    ensures InputSizes(inputs) == |inputs| * size
  {
    if inputs != [] {
      var n := |inputs| - 1;
      EqualSizes(inputs[..n], size);
      assert |inputs| * size == n * size + size;
    }
  }

  lemma OutputsSize(outputs: seq<TxOutput>)
    requires 1 <= |outputs| <= 2
    ensures OutputSizes(outputs) == 82 * |outputs| + |outputs[0].data| + if |outputs| == 2 then |outputs[1].data| else 0
  {
    assert outputs[..|outputs| - 1] + [outputs[|outputs| - 1]] == outputs;
    assert outputs[..0] == [] && OutputSizes(outputs[..0]) == 0;
    if |outputs| == 2 {
      assert outputs[..1][..0] == [] && OutputSizes(outputs[..1]) == OutputSize(outputs[0]);
    }
  }

  /** An input signed with a batch key has 4348 bytes: two of 2144, two for each of ten proof entries, and 40. */
  lemma BatchSignedSize(hs: Hashes, seed: Bytes, tx: Tx, start: nat, signed: seq<Signed>, i: nat)
    requires SignedByBatch(hs, seed, tx, start, signed) && i < |tx.inputs|
    ensures InputSize(tx.inputs[i]) == 4348
  {
    assert SignedAt(hs, seed, tx, start, signed, i);
    MadeVerifies(hs, seed, start + i, TxHash(hs.h256, tx), signed[i]);
    MadeSignatureSize(hs, seed, start + i, TxHash(hs.h256, tx), signed[i]);
  }

  lemma MadeSignatureSize(hs: Hashes, seed: Bytes, index: nat, message: Bytes, s: Signed)
    requires K.MadeWith(hs, seed, index, message, s)
    ensures |s.signature| == SIG_SIZE
  {
    PrivateKeyCells(hs.h256, KeySeed(hs, seed, index));
    SignatureCells(hs.h256, hs.h256(message), PrivateKey(hs.h256, KeySeed(hs, seed, index)));
  }

  // ------------------------------------------------------------------ transfers

  /** The outputs of a transfer pass the dust rule. */
  lemma TransferOutputs(tx: Tx, coins: seq<Coin>, epoch: int, owner: Bytes, recipient: Bytes, amount: int, fee: int)
    requires IsTransfer(tx, coins, epoch, owner, recipient, amount, fee) && amount >= DUST_THRESHOLD
    ensures 1 <= |tx.outputs| <= 2 && OutputSizes(tx.outputs) == 82 * |tx.outputs|
    ensures forall i :: 0 <= i < |tx.outputs| ==> tx.outputs[i].value >= 546
  {
    OutputsSize(tx.outputs);
  }

  /**
   * A transfer of a registered wallet passes the structure checks exactly when it has at most 15 inputs and its fee
   * reaches 4348 for each of them, 82 for each output, and 36.
   */
  lemma TransferStructureIff(
      hs: Hashes, tx: Tx, seed: Bytes, start: nat, signed: seq<Signed>, coins: seq<Coin>, epoch: int, owner: Bytes, recipient: Bytes,
      amount: int, fee: int)
    requires IsTransfer(tx, coins, epoch, owner, recipient, amount, fee) && SignedByBatch(hs, seed, tx, start, signed)
    requires amount >= DUST_THRESHOLD
    ensures Structure(tx) == Valid <==> 1 <= |tx.inputs| <= 15 && fee >= 36 + 4348 * |tx.inputs| + 82 * |tx.outputs|
  {
    forall i | 0 <= i < |tx.inputs| ensures InputSize(tx.inputs[i]) == 4348 {
      BatchSignedSize(hs, seed, tx, start, signed, i);
    }
    EqualSizes(tx.inputs, 4348);
    TransferOutputs(tx, coins, epoch, owner, recipient, amount, fee);
    StructureIff(tx);
  }

  /** With the fee the wallet chooses itself, 4858 times its rate: one input is always paid for, more need a higher rate. */
  lemma DefaultFeeIff(
      hs: Hashes, tx: Tx, seed: Bytes, start: nat, signed: seq<Signed>, coins: seq<Coin>, epoch: int, owner: Bytes, recipient: Bytes,
      amount: int, rate: int)
    requires IsTransfer(tx, coins, epoch, owner, recipient, amount, FeeOr(None, TRANSFER_ESTIMATE, rate))
    requires SignedByBatch(hs, seed, tx, start, signed) && amount >= DUST_THRESHOLD && rate >= 1
    ensures |tx.inputs| == 1 ==> Structure(tx) == Valid
    ensures rate == 1 ==> (Structure(tx) == Valid <==> |tx.inputs| == 1)
    ensures rate == 10 ==> (Structure(tx) == Valid <==> 1 <= |tx.inputs| <= 11)
  {
    TransferStructureIff(hs, tx, seed, start, signed, coins, epoch, owner, recipient, amount, TRANSFER_ESTIMATE * rate);
    TransferOutputs(tx, coins, epoch, owner, recipient, amount, TRANSFER_ESTIMATE * rate);
  }

  /** So a transfer built by a registered wallet validates exactly when its inputs are few and its fee covers them. */
  lemma BuiltTransferValidIff(
      hs: Hashes, s: State, tx: Tx, seed: Bytes, start: nat, signed: seq<Signed>, coins: seq<Coin>, epoch: int, owner: Bytes,
      recipient: Bytes, amount: int, fee: int)
    requires IsTransfer(tx, coins, epoch, owner, recipient, amount, fee) && SignedByBatch(hs, seed, tx, start, signed)
    requires Mirrors(s.utxos, coins, owner, epoch) && RegisteredWith(s.registry, owner, AuthRoot(hs, seed))
    requires amount >= DUST_THRESHOLD && Encodable(tx)
    ensures Validate(hs, s, tx, epoch) == Valid <==> 1 <= |tx.inputs| <= 15 && fee >= 36 + 4348 * |tx.inputs| + 82 * |tx.outputs|
  {
    TransferStructureIff(hs, tx, seed, start, signed, coins, epoch, owner, recipient, amount, fee);
    if Structure(tx) == Valid {
      TransferValidates(hs, s, tx, seed, start, signed, coins, epoch, owner, recipient, amount, fee);
    }
  }

  // ----------------------------------------------------- registration and rotation

  lemma SingleOutputs(tx: Tx, txType: TxType, coins: seq<Coin>, epoch: int, fee: int, data: Bytes, owner: Bytes)
    requires IsSingle(tx, txType, coins, epoch, fee, TxOutput(0, owner, 0, data), owner)
    ensures 1 <= |tx.outputs| <= 2 && OutputSizes(tx.outputs) == 82 * |tx.outputs| + |data|
    ensures forall i :: 0 <= i < |tx.outputs| ==> tx.outputs[i].value == 0 || tx.outputs[i].value >= 546
  {
    OutputsSize(tx.outputs);
  }

  lemma OneInputSize(inputs: seq<TxInput>)
    requires |inputs| == 1
    ensures InputSizes(inputs) == InputSize(inputs[0])
  {
    assert inputs[..0] == [] && InputSizes(inputs[..0]) == 0;
  }

  lemma SingleStructureIff(tx: Tx, txType: TxType, coins: seq<Coin>, epoch: int, fee: int, data: Bytes, owner: Bytes)
    requires IsSingle(tx, txType, coins, epoch, fee, TxOutput(0, owner, 0, data), owner) && txType != Coinbase
    requires InputSize(tx.inputs[0]) + |data| <= 65000
    ensures Structure(tx) == Valid <==> fee >= 36 + InputSize(tx.inputs[0]) + |data| + 82 * |tx.outputs|
  {
    SingleOutputs(tx, txType, coins, epoch, fee, data, owner);
    OneInputSize(tx.inputs);
    StructureIff(tx);
  }

  /** A registration passes exactly when its fee reaches 4542, or 4624 with change; the wallet's own fee always does. */
  lemma RegistrationStructureIff(tx: Tx, hs: Hashes, masterSeed: Bytes, root: Digest, coins: seq<Coin>, epoch: int, fee: int)
    requires IsRegistration(tx, hs, masterSeed, root, coins, epoch, fee)
    ensures Structure(tx) == Valid <==> fee >= 4460 + 82 * |tx.outputs|
    ensures forall rate :: rate >= 1 && fee == FeeOr(None, REGISTRATION_ESTIMATE, rate) ==> Structure(tx) == Valid
  {
    var inner := K.InnerHash(hs, masterSeed);
    var seed := K.RegistrationSeed(hs, masterSeed);
    PrivateKeyCells(hs.h256, seed);
    PublicKeyCells(hs.h256, seed);
    SignatureCells(hs.h256, hs.h256(TxHash(hs.h256, tx)), PrivateKey(hs.h256, seed));
    SingleStructureIff(tx, TxType.Register, coins, epoch, fee, inner + root, AddressOf(hs, inner));
    SingleOutputs(tx, TxType.Register, coins, epoch, fee, inner + root, AddressOf(hs, inner));
  }

  /** A rotation passes exactly when its fee reaches 4814, or 4896 with change; the wallet's own fee does not at rate 1. */
  lemma RotationStructureIff(
      tx: Tx, hs: Hashes, batchSeed: Bytes, owner: Bytes, sg: Signed, newRoot: Digest, coins: seq<Coin>, epoch: int, fee: int)
    requires IsSingle(tx, RotateAuth, coins, epoch, fee, TxOutput(0, owner, 0, newRoot), owner)
    requires RotationCarries(tx, sg) && K.MadeWith(hs, batchSeed, sg.index, TxHash(hs.h256, tx), sg)
    ensures Structure(tx) == Valid <==> fee >= 4732 + 82 * |tx.outputs|
    ensures forall rate :: rate >= 1 && fee == FeeOr(None, ROTATION_ESTIMATE, rate) ==> (Structure(tx) == Valid <==> rate >= 2)
  {
    MadeVerifies(hs, batchSeed, sg.index, TxHash(hs.h256, tx), sg);
    MadeSignatureSize(hs, batchSeed, sg.index, TxHash(hs.h256, tx), sg);
    RotationKey.EntryBytesLength(sg.proof);
    SingleStructureIff(tx, RotateAuth, coins, epoch, fee, newRoot, owner);
    SingleOutputs(tx, RotateAuth, coins, epoch, fee, newRoot, owner);
  }
}
