/** The transaction validator: its checking loops and its state changes meet the ledger specification. */
module Validators {
  import opened Wrappers
  import opened ByteStrings
  import opened Merkle
  import opened MerkleBuild
  import opened AuthTree
  import opened Transactions
  import opened Ledger
  import opened LedgerValue
  import opened UtxoSets
  import RotationKey
  import KeyManager
  import Wots

  lemma {:induction false} InputsVerdictPrefix(h: Sha256, s: State, inputs: seq<TxInput>, m: Digest, epoch: int, n: nat)
    requires n < |inputs| && forall k :: 0 <= k < n ==> InputVerdict(h, s, inputs[k], m, epoch) == Valid
    requires InputVerdict(h, s, inputs[n], m, epoch) != Valid
    ensures InputsVerdict(h, s, inputs, m, epoch) == InputVerdict(h, s, inputs[n], m, epoch)
    decreases n
  {
    if n > 0 {
      InputsVerdictPrefix(h, s, inputs[1..], m, epoch, n - 1);
    }
  }

  lemma {:induction false} SlashVerdictPrefix(h: Sha256, s: State, inputs: seq<TxInput>, m: Digest, n: nat)
    requires n < |inputs| && forall k :: 0 <= k < n ==> SlashInputVerdict(h, s, inputs[k], m) == Valid
    requires SlashInputVerdict(h, s, inputs[n], m) != Valid
    ensures SlashInputsVerdict(h, s, inputs, m) == SlashInputVerdict(h, s, inputs[n], m)
    decreases n
  {
    if n > 0 {
      SlashVerdictPrefix(h, s, inputs[1..], m, n - 1);
    }
  }

  lemma {:induction false} SlashVerdictAll(h: Sha256, s: State, inputs: seq<TxInput>, m: Digest)
    requires forall k :: 0 <= k < |inputs| ==> SlashInputVerdict(h, s, inputs[k], m) == Valid
    ensures SlashInputsVerdict(h, s, inputs, m) == Valid
  {
    if inputs != [] {
      SlashVerdictAll(h, s, inputs[1..], m);
    }
  }

  method SumOutputs(outputs: seq<TxOutput>) returns (total: int)
    ensures total == TotalOutput(outputs)
  {
    total := 0;
    for i := 0 to |outputs|
      invariant total == TotalOutput(outputs[..i])
    {
      assert outputs[..i + 1][..i] == outputs[..i];
      total := total + outputs[i].value;
    }
    assert outputs[..|outputs|] == outputs;
  }

  method AnyStake(outputs: seq<TxOutput>, epoch: int) returns (found: bool)
    ensures found == HasStake(outputs, epoch)
  {
    for k := 0 to |outputs|
      invariant forall j :: 0 <= j < k ==> outputs[j].lockEpoch <= epoch
    {
      if outputs[k].lockEpoch > epoch {
        assert outputs[k] in outputs;
        return true;
      }
    }
    return false;
  }

  method AnyPayload(outputs: seq<TxOutput>) returns (found: bool)
    ensures found == HasPayload(outputs)
  {
    for k := 0 to |outputs|
      invariant forall j :: 0 <= j < k ==> outputs[j].data == []
    {
      if |outputs[k].data| > 0 {
        assert outputs[k] in outputs;
        return true;
      }
    }
    return false;
  }

  /** Ok(true), Ok(false) and an exception, as the three outcomes of the specification. */
  function AppliedAs(r: Result<bool, ()>, s: State): Applied {
    if r.Err? then Crashed(s) else if r.value then Done(s) else Stopped(s)
  }

  ghost predicate FreshIfSpent(utxos: Utxos, tx: Tx, txHash: Bytes) {
    SpentCount(utxos, tx.inputs, txHash) == |tx.inputs| ==> FreshKeys(utxos, txHash, |tx.outputs|)
  }

  class TransactionValidator {
    const hs: Hashes
    const utxoSet: UTXOSet
    const authRegistry: AuthRegistry

    constructor (hs: Hashes, utxoSet: UTXOSet, authRegistry: AuthRegistry)
      ensures this.hs == hs && this.utxoSet == utxoSet && this.authRegistry == authRegistry
    {
      this.hs := hs;
      this.utxoSet := utxoSet;
      this.authRegistry := authRegistry;
    }

    ghost function View(): State
      reads utxoSet, authRegistry
    {
      State(utxoSet.utxos, utxoSet.staked, authRegistry.View())
    }

    // --------------------------------------------------------------- checking

    method CheckInput(i: TxInput, signingHash: Digest, currentEpoch: int) returns (v: Verdict)
      ensures v == InputVerdict(hs.h256, View(), i, signingHash, currentEpoch)
    {
      var utxo := utxoSet.GetUtxo(i.prev.txHash, i.prev.index);
      if utxo == None {
        return Invalid(UtxoNotFound);
      }
      if utxo.value.isSpent {
        return Invalid(UtxoSpent);
      }
      if utxo.value.output.lockEpoch > currentEpoch {
        return Invalid(UtxoLocked);
      }
      var signed := Wots.Verify(hs.h256, signingHash, i.signature, i.publicKey);
      if !signed {
        return Invalid(BadSignature);
      }
      var owner := utxo.value.output.address;
      if owner in authRegistry.registeredAddresses {
        if i.authProof.None? || |i.authProof.value| == 0 {
          return Invalid(ProofRequired);
        }
        if owner !in authRegistry.authRoots {
          return Invalid(KeyNotInTree);
        }
        var bound := VerifyProof(hs.h256, hs.h256(i.publicKey), i.authProof.value, authRegistry.authRoots[owner]);
        if !bound {
          return Invalid(KeyNotInTree);
        }
      }
      return Valid;
    }

    method ValidateTransfer(tx: Tx, currentEpoch: int) returns (v: Verdict)
      ensures v == TransferVerdict(hs.h256, View(), tx, currentEpoch)
    {
      if !Encodable(tx) {
        return Raised;
      }
      var totalInput := 0;
      var signingHash := TxHash(hs.h256, tx);
      for k := 0 to |tx.inputs|
        invariant totalInput == InputTotal(utxoSet.utxos, tx.inputs[..k])
        invariant forall j :: 0 <= j < k ==> InputVerdict(hs.h256, View(), tx.inputs[j], signingHash, currentEpoch) == Valid
      {
        v := CheckInput(tx.inputs[k], signingHash, currentEpoch);
        if v != Valid {
          InputsVerdictPrefix(hs.h256, View(), tx.inputs, signingHash, currentEpoch, k);
          return v;
        }
        assert tx.inputs[..k + 1][..k] == tx.inputs[..k];
        totalInput := totalInput + utxoSet.utxos[tx.inputs[k].prev].output.value;
      }
      InputsVerdictAll(hs.h256, View(), tx.inputs, signingHash, currentEpoch);
      assert tx.inputs[..|tx.inputs|] == tx.inputs;
      var outputs := SumOutputs(tx.outputs);
      if totalInput < outputs + tx.fee {
        return Invalid(InsufficientInput);
      }
      return Valid;
    }

    method ValidateStake(tx: Tx, currentEpoch: int) returns (v: Verdict)
      ensures v == StakeVerdict(hs.h256, View(), tx, currentEpoch)
    {
      v := ValidateTransfer(tx, currentEpoch);
      if v != Valid {
        return v;
      }
      var hasStake := AnyStake(tx.outputs, currentEpoch);
      return if hasStake then Valid else Invalid(NoStakingOutput);
    }

    method ValidateData(tx: Tx, currentEpoch: int) returns (v: Verdict)
      ensures v == DataVerdict(hs.h256, View(), tx, currentEpoch)
    {
      v := ValidateTransfer(tx, currentEpoch);
      if v != Valid {
        return v;
      }
      var hasData := AnyPayload(tx.outputs);
      return if hasData then Valid else Invalid(NoPayload);
    }

    method ValidateCoinbase(tx: Tx) returns (v: Verdict)
      ensures v == CoinbaseVerdict(tx)
    {
      if |tx.inputs| != 0 {
        return Invalid(CoinbaseHasInputs);
      }
      if |tx.outputs| == 0 {
        return Invalid(NoOutputs);
      }
      var totalCoinbase := SumOutputs(tx.outputs);
      if totalCoinbase > MAX_COINBASE_VALUE {
        return Invalid(CoinbaseTooLarge);
      }
      return Valid;
    }

    method CheckSlashInput(i: TxInput, signingHash: Digest) returns (v: Verdict)
      ensures v == SlashInputVerdict(hs.h256, View(), i, signingHash)
    {
      var signed := Wots.Verify(hs.h256, signingHash, i.signature, i.publicKey);
      if !signed {
        return Invalid(BadSignature);
      }
      var utxo := utxoSet.GetUtxo(i.prev.txHash, i.prev.index);
      if utxo == None {
        return Invalid(UtxoNotFound);
      }
      if utxo.value.isSpent {
        return Invalid(UtxoSpent);
      }
      if utxo.value.output.lockEpoch == 0 {
        return Invalid(NotStaked);
      }
      return Valid;
    }

    method ValidateSlash(tx: Tx) returns (v: Verdict)
      ensures v == SlashVerdict(hs.h256, View(), tx)
    {
      if |tx.outputs| == 0 {
        return Invalid(NoOutputs);
      }
      if |tx.outputs[0].data| < 32 {
        return Invalid(NoEvidence);
      }
      if |tx.inputs| == 0 {
        return Invalid(NoInputs);
      }
      if !Encodable(tx) {
        return Raised;
      }
      var signingHash := TxHash(hs.h256, tx);
      for k := 0 to |tx.inputs|
        invariant forall j :: 0 <= j < k ==> SlashInputVerdict(hs.h256, View(), tx.inputs[j], signingHash) == Valid
      {
        v := CheckSlashInput(tx.inputs[k], signingHash);
        if v != Valid {
          SlashVerdictPrefix(hs.h256, View(), tx.inputs, signingHash, k);
          return v;
        }
      }
      SlashVerdictAll(hs.h256, View(), tx.inputs, signingHash);
      return Valid;
    }

    /** The single input pays for the outputs and the fee. */
    method CheckBalance(tx: Tx, utxo: Utxo) returns (v: Verdict)
      requires |tx.inputs| == 1 && tx.inputs[0].prev in utxoSet.utxos && utxo == utxoSet.utxos[tx.inputs[0].prev]
      ensures v == Balanced(View(), tx)
    {
      var outputs := SumOutputs(tx.outputs);
      assert tx.inputs[..0] == [] && InputTotal(utxoSet.utxos, tx.inputs[..0]) == 0;
      v := if utxo.output.value < outputs + tx.fee then Invalid(InsufficientInput) else Valid;
    }

    method ValidateRegister(tx: Tx, currentEpoch: int) returns (v: Verdict)
      ensures v == RegisterVerdict(hs, View(), tx, currentEpoch)
    {
      if |tx.inputs| != 1 {
        return Invalid(NotOneInput);
      }
      if |tx.outputs| < 1 {
        return Invalid(NoOutputs);
      }
      var regData := tx.outputs[0].data;
      if |regData| != 96 {
        return Invalid(WrongDataLength);
      }
      var derivedAddress := AddressOf(hs, regData[..64]);
      var i := tx.inputs[0];
      var utxo := utxoSet.GetUtxo(i.prev.txHash, i.prev.index);
      if utxo == None {
        return Invalid(UtxoNotFound);
      }
      if utxo.value.isSpent {
        return Invalid(UtxoSpent);
      }
      if utxo.value.output.address != derivedAddress {
        return Invalid(AddressMismatch);
      }
      if utxo.value.output.lockEpoch > currentEpoch {
        return Invalid(UtxoLocked);
      }
      if !Encodable(tx) {
        return Raised;
      }
      var signed := Wots.Verify(hs.h256, TxHash(hs.h256, tx), i.signature, i.publicKey);
      if !signed {
        return Invalid(BadSignature);
      }
      if derivedAddress in authRegistry.registeredAddresses {
        return Invalid(AlreadyRegistered);
      }
      v := CheckBalance(tx, utxo.value);
    }

    /** Parsing the public_key field, field by field. */
    method ParseField(pkData: Bytes) returns (r: Result<RotationKey.RotationProof, Reason>)
      ensures r == RotationKey.Parse(pkData)
    {
      var wotsPubSize := 67 * 32;
      if |pkData| < wotsPubSize + 6 {
        return Err(FieldTooShort);
      }
      var proofLen := FromBe(pkData[wotsPubSize..wotsPubSize + 2]);
      var proofDataStart := wotsPubSize + 2;
      var proofDataEnd := proofDataStart + proofLen;
      if |pkData| < proofDataEnd + 4 {
        return Err(ProofTooShort);
      }
      var keyIndex := FromBe(pkData[proofDataEnd..proofDataEnd + 4]);
      var proof := RotationKey.ParseEntries(pkData[proofDataStart..proofDataEnd]);
      return Ok(RotationKey.RotationProof(pkData[..wotsPubSize], proof, keyIndex));
    }

    method ValidateRotateAuth(tx: Tx, currentEpoch: int) returns (v: Verdict)
      ensures v == RotateVerdict(hs, View(), tx, currentEpoch)
    {
      if |tx.inputs| != 1 {
        return Invalid(NotOneInput);
      }
      if |tx.outputs| < 1 {
        return Invalid(NoOutputs);
      }
      if |tx.outputs[0].data| != 32 {
        return Invalid(WrongDataLength);
      }
      var i := tx.inputs[0];
      var utxo := utxoSet.GetUtxo(i.prev.txHash, i.prev.index);
      if utxo == None {
        return Invalid(UtxoNotFound);
      }
      if utxo.value.isSpent {
        return Invalid(UtxoSpent);
      }
      var address := utxo.value.output.address;
      if utxo.value.output.lockEpoch > currentEpoch {
        return Invalid(UtxoLocked);
      }
      if address !in authRegistry.registeredAddresses {
        return Invalid(NotRegistered);
      }
      var field := ParseField(i.publicKey);
      if field.Err? {
        return Invalid(field.error);
      }
      if !Encodable(tx) {
        return Raised;
      }
      var authentic := false;
      if address in authRegistry.authRoots {
        authentic := KeyManager.VerifyAgainstRoot(hs, TxHash(hs.h256, tx), i.signature, field.value.publicKey,
                                                  field.value.proof, authRegistry.authRoots[address]);
      }
      if !authentic {
        return Invalid(AuthFailed);
      }
      if field.value.keyIndex < 1022 {
        return Invalid(KeyNotReserved);
      }
      v := CheckBalance(tx, utxo.value);
    }

    method ValidateTransaction(tx: Tx, currentEpoch: int) returns (v: Verdict)
      ensures v == Validate(hs, View(), tx, currentEpoch)
    {
      v := IsValidStructure(tx);
      if v != Valid {
        return v;
      }
      if tx.epoch > currentEpoch {
        return Invalid(FutureEpoch);
      }
      if tx.epoch < currentEpoch - 1 {
        return Invalid(ExpiredEpoch);
      }
      match tx.txType {
        case Coinbase => v := ValidateCoinbase(tx);
        case Transfer => v := ValidateTransfer(tx, currentEpoch);
        case Stake => v := ValidateStake(tx, currentEpoch);
        case Unstake => v := ValidateTransfer(tx, currentEpoch);
        case Slash => v := ValidateSlash(tx);
        case Data => v := ValidateData(tx, currentEpoch);
        case Register => v := ValidateRegister(tx, currentEpoch);
        case RotateAuth => v := ValidateRotateAuth(tx, currentEpoch);
      }
    }

    // --------------------------------------------------------------- applying

    /** Spends the inputs in order and stops at the first that cannot be spent. */
    method SpendInputs(tx: Tx) returns (ok: bool)
      modifies utxoSet
      ensures utxoSet.utxos == AfterSpends(old(utxoSet.utxos), tx.inputs, TxHash(hs.h256, tx))
      ensures ok <==> SpentCount(old(utxoSet.utxos), tx.inputs, TxHash(hs.h256, tx)) == |tx.inputs|
      ensures utxoSet.staked == old(utxoSet.staked)
      ensures old(Indexed(utxoSet.utxos, utxoSet.byAddress)) ==> Indexed(utxoSet.utxos, utxoSet.byAddress)
    {
      var txHash := TxHash(hs.h256, tx);
      ghost var before := utxoSet.utxos;
      assert tx.inputs[0..] == tx.inputs;
      for k := 0 to |tx.inputs|
        invariant AfterSpends(before, tx.inputs, txHash) == AfterSpends(utxoSet.utxos, tx.inputs[k..], txHash)
        invariant SpentCount(before, tx.inputs, txHash) == k + SpentCount(utxoSet.utxos, tx.inputs[k..], txHash)
        invariant utxoSet.staked == old(utxoSet.staked)
        invariant old(Indexed(utxoSet.utxos, utxoSet.byAddress)) ==> Indexed(utxoSet.utxos, utxoSet.byAddress)
      {
        ghost var utxos, index := utxoSet.utxos, utxoSet.byAddress;
        assert tx.inputs[k..][0] == tx.inputs[k] && tx.inputs[k..][1..] == tx.inputs[k + 1..];
        var r := utxoSet.SpendUtxo(tx.inputs[k].prev.txHash, tx.inputs[k].prev.index, txHash);
        if r == None {
          return false;
        }
        if Indexed(utxos, index) {
          SpendKeepsIndex(utxos, index, tx.inputs[k].prev, txHash);
        }
      }
      return true;
    }

    /** Adds the outputs; with fresh keys the address index stays right. */
    method CreateOutputs(tx: Tx)
      modifies utxoSet
      ensures utxoSet.utxos == AddOutputs(old(utxoSet.utxos), TxHash(hs.h256, tx), tx.outputs, tx.epoch)
      ensures utxoSet.staked == old(utxoSet.staked)
      ensures old(Indexed(utxoSet.utxos, utxoSet.byAddress)) && FreshKeys(old(utxoSet.utxos), TxHash(hs.h256, tx), |tx.outputs|) ==>
                Indexed(utxoSet.utxos, utxoSet.byAddress)
    {
      var txHash := TxHash(hs.h256, tx);
      ghost var before := utxoSet.utxos;
      ghost var clean := Indexed(before, utxoSet.byAddress) && FreshKeys(before, txHash, |tx.outputs|);
      for k := 0 to |tx.outputs|
        invariant utxoSet.utxos == AddOutputs(before, txHash, tx.outputs[..k], tx.epoch)
        invariant utxoSet.staked == old(utxoSet.staked)
        invariant clean ==> Indexed(utxoSet.utxos, utxoSet.byAddress)
      {
        ghost var utxos, index := utxoSet.utxos, utxoSet.byAddress;
        assert tx.outputs[..k + 1][..k] == tx.outputs[..k];
        utxoSet.AddUtxo(txHash, k, tx.outputs[k], tx.epoch);
        if clean {
          AddedEntries(before, txHash, tx.outputs[..k], tx.epoch, OutRef(txHash, k));
          AddKeepsIndexIff(utxos, index, OutRef(txHash, k), tx.outputs[k], tx.epoch);
        }
      }
      assert tx.outputs[..|tx.outputs|] == tx.outputs;
    }

    method RecordStakes(tx: Tx)
      modifies utxoSet`staked
      ensures utxoSet.staked == AddStakes(old(utxoSet.staked), tx.outputs, tx.epoch)
    {
      for k := 0 to |tx.outputs|
        invariant utxoSet.staked == AddStakes(old(utxoSet.staked), tx.outputs[..k], tx.epoch)
      {
        assert tx.outputs[..k + 1][..k] == tx.outputs[..k];
        if tx.outputs[k].lockEpoch > tx.epoch {
          utxoSet.AddStake(tx.outputs[k].address, tx.outputs[k].value);
        }
      }
      assert tx.outputs[..|tx.outputs|] == tx.outputs;
    }

    /** The registry part of applying a transaction. */
    method UpdateRegistry(tx: Tx) returns (r: Result<bool, ()>)
      modifies authRegistry
      ensures ApplyRegistry(hs, old(View()), tx) == AppliedAs(r, View())
    {
      if tx.txType == Register {
        if |tx.outputs| == 0 {
          return Err(());
        }
        var regData := tx.outputs[0].data;
        var innerHash, authRoot := Slice(regData, 0, 64), Slice(regData, 64, 96);
        var _ := authRegistry.RegisterViaTx(AddressOf(hs, innerHash), authRoot);
      }
      if tx.txType == RotateAuth {
        if |tx.outputs| == 0 || |tx.inputs| == 0 {
          return Err(());
        }
        var newAuthRoot := Slice(tx.outputs[0].data, 0, 32);
        var utxo := utxoSet.GetUtxo(tx.inputs[0].prev.txHash, tx.inputs[0].prev.index);
        if utxo == None {
          return Ok(false);
        }
        var _ := authRegistry.RotateViaTx(utxo.value.output.address, newAuthRoot);
      }
      return Ok(true);
    }

    /**
     * apply_transaction: Err stands for an exception, and the state reached by then stays. The address index
     * stays right unless all inputs are spent and an output key was taken.
     */
    method ApplyTransaction(tx: Tx) returns (r: Result<bool, ()>)
      modifies utxoSet, authRegistry
      ensures Apply(hs, old(View()), tx) == AppliedAs(r, View())
      ensures old(Indexed(utxoSet.utxos, utxoSet.byAddress)) && old(FreshIfSpent(utxoSet.utxos, tx, TxHash(hs.h256, tx))) ==>
                Indexed(utxoSet.utxos, utxoSet.byAddress)
    {
      if !Encodable(tx) && (|tx.inputs| > 0 || |tx.outputs| > 0) {
        return Err(());
      }
      SpendsMarkLongestPrefix(utxoSet.utxos, tx.inputs, TxHash(hs.h256, tx));
      var ok := SpendInputs(tx);
      if !ok {
        return Ok(false);
      }
      CreateOutputs(tx);
      if tx.txType == Stake {
        RecordStakes(tx);
      }
      r := UpdateRegistry(tx);
    }
  }
}
