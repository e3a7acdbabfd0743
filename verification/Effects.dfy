/** What applying a transaction does to the ledger: output records, stakes, the auth registry, balances. */
module Effects {
  import opened Wrappers
  import opened ByteStrings
  import opened Sums
  import opened AuthTree
  import opened Transactions
  import opened Ledger
  import opened LedgerValue
  import opened LedgerRuns
  import opened UtxoSets
  import opened Blocks
  import opened Acceptance
  import opened CoinSelection
  import opened WalletTxs
  import opened WalletObjects
  import opened WalletPayments
  import K = KeyManager

  // ------------------------------------------------------------------- records

  /** The record at a reference after a complete application, field by field. */
  lemma RecordsAfter(hs: Hashes, s: State, tx: Tx, r: OutRef)
    requires tx.outputs != [] && (tx.txType == RotateAuth ==> tx.inputs != []) && Apply(hs, s, tx).Done?
    ensures var after, txHash := Apply(hs, s, tx).state.utxos, TxHash(hs.h256, tx);
            if r.txHash == txHash && 0 <= r.index < |tx.outputs| then
              && r in after && after[r].output == tx.outputs[r.index] && after[r].epochCreated == tx.epoch
              && !after[r].isSpent && after[r].spentBy == None
            else if exists i :: 0 <= i < |tx.inputs| && tx.inputs[i].prev == r then
              && r in s.utxos && !s.utxos[r].isSpent && r in after && after[r].output == s.utxos[r].output
              && after[r].epochCreated == s.utxos[r].epochCreated && after[r].isSpent && after[r].spentBy == Some(txHash)
            else (r in after <==> r in s.utxos) && (r in s.utxos ==> after[r] == s.utxos[r])
  {
    ApplyChanges(hs, s, tx);
    EntryAfter(s.utxos, Apply(hs, s, tx).state.utxos, tx, TxHash(hs.h256, tx), Completed, r);
  }

  // -------------------------------------------------------------------- stakes

  /** Value of the outputs to an address that stay locked beyond the epoch. */
  function LockedTo(outputs: seq<TxOutput>, address: Bytes, epoch: int): int {
    if outputs == [] then 0
    else
      var o := outputs[|outputs| - 1];
      LockedTo(outputs[..|outputs| - 1], address, epoch) + if o.address == address && o.lockEpoch > epoch then o.value else 0
  }

  lemma {:induction false} StakesGrow(staked: Stakes, outputs: seq<TxOutput>, epoch: int, address: Bytes)
    ensures StakeOf(AddStakes(staked, outputs, epoch), address) == StakeOf(staked, address) + LockedTo(outputs, address, epoch)
  {
    if outputs != [] {
      StakesGrow(staked, outputs[..|outputs| - 1], epoch, address);
    }
  }

  /** A complete STAKE raises each address's stake by its outputs locked beyond the transaction's epoch; nothing else does. */
  lemma StakesAfter(hs: Hashes, s: State, tx: Tx, address: Bytes)
    requires Apply(hs, s, tx).Done?
    ensures StakeOf(Apply(hs, s, tx).state.staked, address)
            == StakeOf(s.staked, address) + if tx.txType == TxType.Stake then LockedTo(tx.outputs, address, tx.epoch) else 0
  {
    StakesGrow(s.staked, tx.outputs, tx.epoch, address);
  }

  // ------------------------------------------------------------------ registry

  /** A single input is applied whenever it was valid. */
  lemma OneInputApplies(hs: Hashes, s: State, tx: Tx, epoch: int)
    requires Validate(hs, s, tx, epoch) == Valid && |tx.inputs| == 1 && tx.txType != Coinbase
    ensures Apply(hs, s, tx).Done? && tx.outputs != []
  {
    ValidIsEncodable(hs, s, tx, epoch);
    ValidApplies(hs, s, tx, epoch);
    ValidStructure(tx);
  }

  /** A valid registration binds the owner of the output it spends to the announced root, and changes no other entry. */
  lemma RegistrationTakesEffect(hs: Hashes, s: State, tx: Tx, epoch: int)
    requires tx.txType == Register && Validate(hs, s, tx, epoch) == Valid
    ensures Apply(hs, s, tx).Done? && |tx.inputs| == 1 && tx.inputs[0].prev in s.utxos && |tx.outputs| > 0 && |tx.outputs[0].data| == 96
    ensures var owner := s.utxos[tx.inputs[0].prev].output.address;
            && owner !in s.registry.registered
            && Apply(hs, s, tx).state.registry
               == Registry(s.registry.roots[owner := tx.outputs[0].data[64..]], s.registry.registered + {owner}, s.registry.rotations[owner := 0])
  {
    RegisterValidIff(hs, s, tx, epoch);
    OneInputApplies(hs, s, tx, epoch);
    var data := tx.outputs[0].data;
    assert data[64..96] == data[64..];
  }

  /** A valid rotation replaces the owner's root and counts, unless the transaction spends an output of its own hash. */
  lemma RotationTakesEffect(hs: Hashes, s: State, tx: Tx, epoch: int)
    requires tx.txType == RotateAuth && Validate(hs, s, tx, epoch) == Valid
    requires tx.inputs != [] ==> tx.inputs[0].prev.txHash != TxHash(hs.h256, tx)
    ensures Apply(hs, s, tx).Done? && |tx.inputs| == 1 && tx.inputs[0].prev in s.utxos && |tx.outputs| > 0
    ensures var owner, reg, after := s.utxos[tx.inputs[0].prev].output.address, s.registry, Apply(hs, s, tx).state.registry;
            && owner in reg.registered && after.registered == reg.registered && after.roots == reg.roots[owner := tx.outputs[0].data]
            && after.rotations == reg.rotations[owner := (if owner in reg.rotations then reg.rotations[owner] else 0) + 1]
  {
    RotateValidIff(hs, s, tx, epoch);
    OneInputApplies(hs, s, tx, epoch);
    RecordsAfter(hs, s, tx, tx.inputs[0].prev);
    RotationRegistry(hs, s, tx);
    assert tx.outputs[0].data[0..32] == tx.outputs[0].data;
  }

  lemma RotationRegistry(hs: Hashes, s: State, tx: Tx)
    requires tx.txType == RotateAuth && |tx.inputs| == 1 && tx.outputs != [] && Apply(hs, s, tx).Done?
    ensures var after := Apply(hs, s, tx).state;
            && tx.inputs[0].prev in after.utxos
            && after.registry == RotateVia(s.registry, after.utxos[tx.inputs[0].prev].output.address, Slice(tx.outputs[0].data, 0, 32))
  {
  }

  /** No other type touches the registry. */
  lemma RegistryStays(hs: Hashes, s: State, tx: Tx)
    requires tx.txType !in {Register, RotateAuth}
    ensures Apply(hs, s, tx).state.registry == s.registry
  {
  }

  /** The registration that the wallet built, once valid, leaves the chain with the root of the wallet's batch. */
  lemma BuiltRegistrationBinds(
      hs: Hashes, s: State, tx: Tx, masterSeed: Bytes, seed: Bytes, coins: seq<Coin>, epoch: int, fee: int)
    requires IsRegistration(tx, hs, masterSeed, AuthRoot(hs, seed), coins, epoch, fee) && Validate(hs, s, tx, epoch) == Valid
    ensures Apply(hs, s, tx).Done?
    ensures RegisteredWith(Apply(hs, s, tx).state.registry, AddressOf(hs, K.InnerHash(hs, masterSeed)), AuthRoot(hs, seed))
  {
    RegistrationTakesEffect(hs, s, tx, epoch);
    RegisterValidIff(hs, s, tx, epoch);
    var inner, root := K.InnerHash(hs, masterSeed), AuthRoot(hs, seed);
    assert tx.outputs[0].data == inner + root;
    assert tx.outputs[0].data[..64] == inner && tx.outputs[0].data[64..] == root;
  }

  /** The rotation that the wallet built, once valid, leaves the chain with the root it announced. */
  lemma BuiltRotationBinds(hs: Hashes, s: State, tx: Tx, owner: Bytes, newRoot: Digest, coins: seq<Coin>, epoch: int, fee: int)
    requires IsSingle(tx, RotateAuth, coins, epoch, fee, TxOutput(0, owner, 0, newRoot), owner) && Validate(hs, s, tx, epoch) == Valid
    requires Mirrors(s.utxos, coins, owner, epoch) && tx.inputs[0].prev.txHash != TxHash(hs.h256, tx)
    ensures Apply(hs, s, tx).Done? && RegisteredWith(Apply(hs, s, tx).state.registry, owner, newRoot)
  {
    RotationTakesEffect(hs, s, tx, epoch);
    ChosenAreMirrored(s.utxos, coins, owner, epoch, fee, 0);
  }

  // ------------------------------------------------------------------ balances

  /** The balance is what an address can spend: outputs that a transfer would find known, unspent and unlocked. */
  lemma BalanceIsWorth(utxos: Utxos, address: Bytes, epoch: int)
    ensures Balance(utxos, address, epoch) == Worth(utxos, MaturedTo(address, epoch))
  {
    SumCongruent(utxos.Keys, BalanceShare(utxos, address, epoch), WorthAt(utxos, MaturedTo(address, epoch)));
  }

  /** What counts towards a balance is what validation lets an input refer to. */
  lemma MaturedIsUsable(h: Sha256, s: State, i: TxInput, message: Digest, epoch: int)
    ensures Matured(s.utxos, i.prev, epoch)
       <==> InputVerdict(h, s, i, message, epoch) !in {Invalid(UtxoNotFound), Invalid(UtxoSpent), Invalid(UtxoLocked)}
  {
  }

  /** A complete application with fresh output keys moves each balance by what it spends and creates of it. */
  lemma BalanceAfter(hs: Hashes, s: State, tx: Tx, address: Bytes, epoch: int)
    requires tx.outputs != [] && (tx.txType == RotateAuth ==> tx.inputs != []) && Apply(hs, s, tx).Done?
    requires FreshKeys(s.utxos, TxHash(hs.h256, tx), |tx.outputs|)
    ensures var m := MaturedTo(address, epoch);
            Balance(Apply(hs, s, tx).state.utxos, address, epoch)
            == Balance(s.utxos, address, epoch) - InputsMeasure(s.utxos, tx.inputs, m) + OutputsMeasure(tx.outputs, m)
  {
    var m, txHash := MaturedTo(address, epoch), TxHash(hs.h256, tx);
    ApplyChanges(hs, s, tx);
    assert tx.inputs[..|tx.inputs|] == tx.inputs;
    var marked := Marked(s.utxos, Refs(tx.inputs), txHash);
    SpendingDistinctLowers(s.utxos, tx.inputs, txHash, m);
    AddingRaises(marked, txHash, tx.outputs, tx.epoch, m);
    assert marked.Keys == s.utxos.Keys;
    FreshOverwritesNothing(marked, txHash, |tx.outputs|, m);
    BalanceIsWorth(s.utxos, address, epoch);
    BalanceIsWorth(Apply(hs, s, tx).state.utxos, address, epoch);
  }

  lemma {:induction false} OwnedMeasure(utxos: Utxos, inputs: seq<TxInput>, owner: Bytes, epoch: int, address: Bytes)
    requires forall i :: 0 <= i < |inputs| ==> OwnedOnChain(utxos, inputs[i].prev, owner, epoch)
    ensures InputsMeasure(utxos, inputs, MaturedTo(address, epoch)) == if address == owner then InputTotal(utxos, inputs) else 0
  {
    if inputs != [] {
      var n := |inputs| - 1;
      assert OwnedOnChain(utxos, inputs[n].prev, owner, epoch);
      OwnedMeasure(utxos, inputs[..n], owner, epoch, address);
    }
  }

  lemma {:induction false} PaidMeasure(outputs: seq<TxOutput>, address: Bytes, epoch: int)
    requires epoch >= 0 && forall o :: o in outputs ==> o.lockEpoch == 0
    ensures OutputsMeasure(outputs, MaturedTo(address, epoch)) == PaidTo(outputs, address)
  {
    if outputs != [] {
      var n := |outputs| - 1;
      assert outputs[n] in outputs && forall o :: o in outputs[..n] ==> o in outputs;
      PaidMeasure(outputs[..n], address, epoch);
    }
  }

  lemma SelectedTotal(utxos: Utxos, tx: Tx, coins: seq<Coin>, epoch: int, owner: Bytes, recipient: Bytes, amount: int, fee: int)
    requires IsTransfer(tx, coins, epoch, owner, recipient, amount, fee) && Mirrors(utxos, coins, owner, epoch)
    ensures forall i :: 0 <= i < |tx.inputs| ==> OwnedOnChain(utxos, tx.inputs[i].prev, owner, epoch)
    ensures InputTotal(utxos, tx.inputs) == TotalValue(SelectCoins(coins, epoch, amount + fee), CoinValue())
  {
    var chosen := SelectCoins(coins, epoch, amount + fee);
    forall i | 0 <= i < |chosen| ensures SpendableAt(epoch)(chosen[i]) && MirrorsCoin(utxos, chosen[i], owner, epoch) {
      ChosenAreMirrored(utxos, coins, owner, epoch, amount + fee, i);
    }
    CoinsTotal(utxos, tx.inputs, chosen, owner, epoch);
    TransferIsMirrored(utxos, tx, coins, epoch, owner, recipient, amount, fee);
  }

  /**
   * A payment the wallet built, once applied, raises the recipient's balance by exactly the amount, leaves the wallet
   * what its selected coins hold over amount and fee in place of the coins, and changes no other balance.
   */
  lemma PaymentMovesAmount(
      hs: Hashes, s: State, tx: Tx, coins: seq<Coin>, epoch: int, owner: Bytes, recipient: Bytes, amount: int, fee: int, address: Bytes)
    requires IsTransfer(tx, coins, epoch, owner, recipient, amount, fee) && Mirrors(s.utxos, coins, owner, epoch)
    requires Encodable(tx) && Apply(hs, s, tx).Done? && FreshKeys(s.utxos, TxHash(hs.h256, tx), |tx.outputs|)
    ensures var change := Balance(Apply(hs, s, tx).state.utxos, address, epoch) - Balance(s.utxos, address, epoch);
            var selected, left := TotalValue(SelectCoins(coins, epoch, amount + fee), CoinValue()), LeftOver(coins, epoch, amount + fee);
            change == (if address == recipient then amount else 0) + (if address == owner then left - selected else 0)
  {
    BalanceAfter(hs, s, tx, address, epoch);
    SelectedTotal(s.utxos, tx, coins, epoch, owner, recipient, amount, fee);
    OwnedMeasure(s.utxos, tx.inputs, owner, epoch, address);
    TransferPaysRecipient(tx, coins, epoch, owner, recipient, amount, fee);
    PaidMeasure(tx.outputs, address, epoch);
    PaidToOthers(tx, coins, epoch, owner, recipient, amount, fee, address);
  }

  lemma {:induction false} NothingTo(outputs: seq<TxOutput>, address: Bytes)
    requires forall o :: o in outputs ==> o.address != address
    ensures PaidTo(outputs, address) == 0
  {
    if outputs != [] {
      var n := |outputs| - 1;
      assert outputs[n] in outputs && forall o :: o in outputs[..n] ==> o in outputs;
      NothingTo(outputs[..n], address);
    }
  }

  lemma PaidToOthers(tx: Tx, coins: seq<Coin>, epoch: int, owner: Bytes, recipient: Bytes, amount: int, fee: int, address: Bytes)
    requires TransferPays(tx, coins, epoch, owner, recipient, amount, fee)
    ensures PaidTo(tx.outputs, address)
            == (if address == recipient then amount else 0) + (if address == owner then LeftOver(coins, epoch, amount + fee) else 0)
  {
    if address != recipient && address != owner {
      NothingTo(tx.outputs, address);
    }
  }
}
