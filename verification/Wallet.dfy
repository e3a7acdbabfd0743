/** The wallet object: its coins, and the builders of transfers, registrations and rotations. */
module WalletObjects {
  import opened Wrappers
  import opened ByteStrings
  import opened Wots
  import opened Merkle
  import opened AuthTree
  import opened Transactions
  import opened Ledger
  import opened LedgerValue
  import opened KeyManager
  import opened LegacyKeys
  import opened RotationKey
  import opened CoinSelection
  import opened WalletTxs

  const INPUT_ESTIMATE: int := 2144 + 2144 + 320 + 40
  const TRANSFER_ESTIMATE: int := 50 + INPUT_ESTIMATE + 2 * 80
  const REGISTRATION_ESTIMATE: int := 50 + 4400 + 80 + 128
  const ROTATION_ESTIMATE: int := 50 + 4400 + 80 + 64

  /** Why a builder raises instead of returning. */
  datatype BuildError = Hashing | NoCoin | Key(error: KeyError)

  /** Position of a reference in the coin list, which keeps the order in which coins became known. */
  function Find(coins: seq<Coin>, r: OutRef): (i: nat)
    ensures i <= |coins| && (i < |coins| ==> coins[i].ref == r)
    ensures forall j :: 0 <= j < i ==> coins[j].ref != r
  {
    if coins == [] then 0
    else
      var n := |coins| - 1;
      var i := Find(coins[..n], r);
      if i < n || coins[n].ref == r then i else n + 1
  }

  function WithCoin(coins: seq<Coin>, c: Coin): seq<Coin> {
    var i := Find(coins, c.ref);
    if i < |coins| then coins[i := c] else coins + [c]
  }

  function Unsigned(coins: seq<Coin>): (r: seq<TxInput>)
    ensures |r| == |coins| && forall i :: 0 <= i < |r| ==> r[i] == TxInput(coins[i].ref, [], [], None, -1)
  {
    if coins == [] then []
    else Unsigned(coins[..|coins| - 1]) + [TxInput(coins[|coins| - 1].ref, [], [], None, -1)]
  }

  function FeeOr(fee: Option<int>, estimate: int, rate: int): int {
    if fee.Some? then fee.value else estimate * rate
  }

  /** A key-manager signature placed into an input. */
  function WithSignature(i: TxInput, s: Signed): TxInput {
    i.(signature := s.signature, publicKey := s.publicKey, authProof := Some(s.proof), keyIndex := s.index)
  }

  ghost predicate SignedSoFar(hs: Hashes, seed: Bytes, message: Bytes, start: nat, before: seq<TxInput>, after: seq<TxInput>, signed: seq<Signed>) {
    && |after| == |signed| <= |before|
    && forall i :: 0 <= i < |signed| ==> SignedOne(hs, seed, message, start, before, after, signed, i)
  }

  ghost predicate SignedOne(
      hs: Hashes, seed: Bytes, message: Bytes, start: nat, before: seq<TxInput>, after: seq<TxInput>, signed: seq<Signed>, i: int) {
    && 0 <= i < |after| && i < |before| && i < |signed|
    && after[i].prev == before[i].prev && Carries(after[i], signed[i]) && MadeWith(hs, seed, start + i, message, signed[i])
  }

  lemma SignNext(
      hs: Hashes, seed: Bytes, message: Bytes, start: nat, before: seq<TxInput>, after: seq<TxInput>, signed: seq<Signed>, s: Signed)
    requires SignedSoFar(hs, seed, message, start, before, after, signed) && |signed| < |before|
    requires MadeWith(hs, seed, start + |signed|, message, s)
    ensures SignedSoFar(hs, seed, message, start, before, after + [WithSignature(before[|signed|], s)], signed + [s])
  {
    var more, all := after + [WithSignature(before[|signed|], s)], signed + [s];
    forall i | 0 <= i < |all| ensures SignedOne(hs, seed, message, start, before, more, all, i) {
      assert i < |signed| ==> SignedOne(hs, seed, message, start, before, after, signed, i);
    }
  }

  lemma AllSigned(hs: Hashes, seed: Bytes, start: nat, tx: Tx, after: seq<TxInput>, signed: seq<Signed>)
    requires SignedSoFar(hs, seed, TxHash(hs.h256, tx), start, tx.inputs, after, signed) && |after| == |tx.inputs|
    ensures SignedByBatch(hs, seed, tx.(inputs := after), start, signed) && SameRefs(tx.inputs, after)
    ensures Encodable(tx.(inputs := after)) == Encodable(tx)
  {
    forall i | 0 <= i < |after| ensures tx.inputs[i].prev == after[i].prev {
      assert SignedOne(hs, seed, TxHash(hs.h256, tx), start, tx.inputs, after, signed, i);
    }
    HashIgnoresSignatures(hs.h256, tx, after);
    forall i | 0 <= i < |after| ensures SignedAt(hs, seed, tx.(inputs := after), start, signed, i) {
      assert SignedOne(hs, seed, TxHash(hs.h256, tx), start, tx.inputs, after, signed, i);
    }
  }

  /** A legacy signature placed into an input. */
  function WithPair(i: TxInput, pair: (Bytes, Bytes)): TxInput {
    i.(publicKey := pair.0, signature := pair.1)
  }

  ghost predicate PairSoFar(hs: Hashes, message: Bytes, before: seq<TxInput>, after: seq<TxInput>, seeds: seq<Wide>) {
    && |after| == |seeds| <= |before|
    && forall i :: 0 <= i < |seeds| ==> PairOne(hs, message, before, after, seeds, i)
  }

  ghost predicate PairOne(hs: Hashes, message: Bytes, before: seq<TxInput>, after: seq<TxInput>, seeds: seq<Wide>, i: int) {
    && 0 <= i < |after| && i < |before| && i < |seeds| && after[i].prev == before[i].prev
    && after[i].publicKey == PublicKey(hs.h256, seeds[i])
    && after[i].signature == Signature(hs.h256, hs.h256(message), PrivateKey(hs.h256, seeds[i]))
  }

  lemma PairNext(
      hs: Hashes, message: Bytes, before: seq<TxInput>, after: seq<TxInput>, seeds: seq<Wide>, pair: (Bytes, Bytes), seed: Wide)
    requires PairSoFar(hs, message, before, after, seeds) && |seeds| < |before|
    requires pair == (PublicKey(hs.h256, seed), Signature(hs.h256, hs.h256(message), PrivateKey(hs.h256, seed)))
    ensures PairSoFar(hs, message, before, after + [WithPair(before[|seeds|], pair)], seeds + [seed])
  {
    var more, all := after + [WithPair(before[|seeds|], pair)], seeds + [seed];
    forall i | 0 <= i < |all| ensures PairOne(hs, message, before, more, all, i) {
      assert i < |seeds| ==> PairOne(hs, message, before, after, seeds, i);
    }
  }

  lemma AllPairs(hs: Hashes, tx: Tx, after: seq<TxInput>, seeds: seq<Wide>)
    requires PairSoFar(hs, TxHash(hs.h256, tx), tx.inputs, after, seeds) && |after| == |tx.inputs|
    ensures SignedByPairs(hs, tx.(inputs := after), seeds) && SameRefs(tx.inputs, after)
    ensures Encodable(tx.(inputs := after)) == Encodable(tx)
  {
    forall i | 0 <= i < |after| ensures tx.inputs[i].prev == after[i].prev {
      assert PairOne(hs, TxHash(hs.h256, tx), tx.inputs, after, seeds, i);
    }
    HashIgnoresSignatures(hs.h256, tx, after);
    forall i | 0 <= i < |after| ensures LegacySignedAt(hs, tx.(inputs := after), seeds, i) {
      assert PairOne(hs, TxHash(hs.h256, tx), tx.inputs, after, seeds, i);
    }
  }

  class Wallet {
    const feeRate: int
    const keyManager: KeyManager
    const legacy: LegacyKeyring
    var coins: seq<Coin>
    var currentEpoch: int

    constructor (keyManager: KeyManager, feeRate: int)
      ensures this.keyManager == keyManager && this.feeRate == feeRate && coins == [] && currentEpoch == 0
      ensures fresh(legacy) && legacy.hs == keyManager.hs && legacy.keyCache == map[] && legacy.keyIndex == 0
    {
      this.keyManager := keyManager;
      legacy := new LegacyKeyring(keyManager.hs);
      this.feeRate := feeRate;
      coins, currentEpoch := [], 0;
    }

    method AddUtxo(r: OutRef, output: TxOutput, epoch: int)
      modifies this`coins
      ensures coins == WithCoin(old(coins), Coin(r, Created(output, epoch)))
    {
      var i := Find(coins, r);
      if i < |coins| {
        coins := coins[i := Coin(r, Created(output, epoch))];
      } else {
        coins := coins + [Coin(r, Created(output, epoch))];
      }
    }

    method SpendUtxo(r: OutRef, spender: Bytes) returns (ok: bool)
      modifies this`coins
      ensures var i := Find(old(coins), r);
              && ok == (i < |old(coins)| && !old(coins)[i].utxo.isSpent)
              && coins == if ok then old(coins)[i := Coin(r, old(coins)[i].utxo.(isSpent := true, spentBy := Some(spender)))]
                          else old(coins)
    {
      var i := Find(coins, r);
      if i == |coins| || coins[i].utxo.isSpent {
        return false;
      }
      coins := coins[i := Coin(r, coins[i].utxo.(isSpent := true, spentBy := Some(spender)))];
      return true;
    }

    method SelectUtxos(target: int, feeEstimate: int) returns (selected: seq<Coin>, total: int)
      ensures selected == SelectCoins(coins, currentEpoch, target + feeEstimate)
      ensures total == TotalValue(selected, CoinValue())
    {
      var spendable: seq<Coin> := [];
      for k := 0 to |coins|
        invariant spendable == Passing(coins[..k], SpendableAt(currentEpoch))
      {
        assert coins[..k + 1][..k] == coins[..k];
        if !coins[k].utxo.isSpent {
          if coins[k].utxo.output.lockEpoch <= currentEpoch {
            spendable := spendable + [coins[k]];
          }
        }
      }
      assert coins[..|coins|] == coins;
      selected, total := Take(LargestFirst(spendable, CoinValue()), target + feeEstimate, CoinValue());
    }

    /** Registered: the next key of the batch for every input; keys may run out on the way. */
    method SignTemporal(message: Digest, inputs: seq<TxInput>) returns (r: Result<seq<TxInput>, KeyError>, ghost signed: seq<Signed>)
      requires keyManager.Valid() && keyManager.isRegistered
      modifies keyManager.authTree
      ensures keyManager.Valid()
      ensures r.Ok? <==> old(keyManager.authTree.keyIndex) + |inputs| <= USABLE_KEYS
      ensures r.Err? ==> r.error == KeysExhausted
      ensures r.Ok? ==> |r.value| == |inputs|
      ensures r.Ok? ==>
                SignedSoFar(keyManager.hs, keyManager.currentBatchSeed, message, old(keyManager.authTree.keyIndex), inputs, r.value, signed)
      ensures keyManager.authTree.keyIndex ==
                Min(old(keyManager.authTree.keyIndex) + |inputs|, USABLE_KEYS)
      ensures keyManager.authTree.rotationIndex == old(keyManager.authTree.rotationIndex)
    {
      ghost var seed, start := keyManager.currentBatchSeed, keyManager.authTree.keyIndex;
      var done: seq<TxInput> := [];
      signed := [];
      for k := 0 to |inputs|
        invariant keyManager.Valid() && |signed| == k
        invariant keyManager.authTree.keyIndex == start + k <= USABLE_KEYS
        invariant keyManager.authTree.rotationIndex == old(keyManager.authTree.rotationIndex)
        invariant SignedSoFar(keyManager.hs, seed, message, start, inputs, done, signed)
      {
        var s := keyManager.TemporalSign(message);
        if s.Err? {
          return Err(s.error), signed;
        }
        SignNext(keyManager.hs, seed, message, start, inputs, done, signed, s.value);
        done := done + [WithSignature(inputs[k], s.value)];
        signed := signed + [s.value];
      }
      return Ok(done), signed;
    }

    /** Not registered: an unused key pair of the epoch for every input, each used up by it. */
    method SignLegacy(message: Digest, inputs: seq<TxInput>) returns (r: Result<seq<TxInput>, KeyError>, ghost seeds: seq<Wide>)
      requires InU64(currentEpoch) && legacy.hs == keyManager.hs
      modifies legacy
      ensures r.Err? ==> r.error == LegacyIndexTooLarge && old(legacy.keyIndex) + |inputs| > U64
      ensures r.Ok? ==> |r.value| == |inputs| && PairSoFar(keyManager.hs, message, inputs, r.value, seeds)
      ensures UsedStay(PairsAt(old(legacy.keyCache), currentEpoch), PairsAt(legacy.keyCache, currentEpoch))
      ensures r.Ok? ==>
                UsedCount(PairsAt(legacy.keyCache, currentEpoch)) == UsedCount(PairsAt(old(legacy.keyCache), currentEpoch)) + |inputs|
    {
      var done: seq<TxInput> := [];
      seeds := [];
      for k := 0 to |inputs|
        invariant |seeds| == k && PairSoFar(keyManager.hs, message, inputs, done, seeds)
        invariant legacy.keyIndex <= old(legacy.keyIndex) + k
        invariant UsedStay(PairsAt(old(legacy.keyCache), currentEpoch), PairsAt(legacy.keyCache, currentEpoch))
        invariant UsedCount(PairsAt(legacy.keyCache, currentEpoch)) == UsedCount(PairsAt(old(legacy.keyCache), currentEpoch)) + k
      {
        ghost var seed;
        var pair;
        pair, seed := legacy.SignOnce(keyManager.currentBatchSeed, message, currentEpoch);
        if pair.Err? {
          return Err(LegacyIndexTooLarge), seeds;
        }
        PairNext(keyManager.hs, message, inputs, done, seeds, pair.value, seed);
        done := done + [WithPair(inputs[k], pair.value)];
        seeds := seeds + [seed];
      }
      return Ok(done), seeds;
    }

    /** The unsigned transfer, or nothing when the coins do not cover it. */
    method DraftTransfer(recipient: Bytes, amount: int, fee: int, timestamp: int, nonce: Bytes) returns (r: Option<Tx>)
      ensures r.None? <==> !Covers(coins, currentEpoch, amount + fee)
      ensures r.Some? ==> IsTransfer(r.value, coins, currentEpoch, keyManager.address, recipient, amount, fee)
    {
      var utxos, totalInput := SelectUtxos(amount, fee);
      if totalInput < amount + fee {
        return None;
      }
      var outputs := WithChange(TxOutput(amount, recipient, 0, []), totalInput - amount - fee, keyManager.address);
      return Some(Tx(1, Transfer, Unsigned(utxos), outputs, currentEpoch, timestamp, fee, nonce));
    }

    /** _sign_inputs on a draft: hashing may raise, and so may running out of keys. */
    method SignInputs(draft: Tx) returns (r: Result<Option<Tx>, BuildError>, ghost signed: seq<Signed>, ghost seeds: seq<Wide>)
      requires keyManager.Valid() && legacy.hs == keyManager.hs && draft.epoch == currentEpoch
      modifies keyManager.authTree, legacy
      ensures keyManager.Valid() && (r.Ok? ==> r.value.Some? && IsSignedFrom(draft, r.value.value))
      ensures r.Ok? ==> Encodable(draft)
      ensures Encodable(draft) && keyManager.isRegistered ==>
                (r.Ok? <==> old(keyManager.authTree.keyIndex) + |draft.inputs| <= USABLE_KEYS)
      ensures Encodable(draft) && !keyManager.isRegistered && old(legacy.keyIndex) + |draft.inputs| <= U64 ==> r.Ok?
      ensures r.Ok? && keyManager.isRegistered ==>
                SignedByBatch(keyManager.hs, keyManager.currentBatchSeed, r.value.value, old(keyManager.authTree.keyIndex), signed)
      ensures r.Ok? && !keyManager.isRegistered ==>
                SignedByPairs(keyManager.hs, r.value.value, seeds) && keyManager.View() == old(keyManager.View())
    {
      signed, seeds := [], [];
      if !Encodable(draft) {
        return Err(Hashing), signed, seeds;
      }
      var inputs;
      if keyManager.isRegistered {
        inputs, signed := SignTemporal(TxHash(keyManager.hs.h256, draft), draft.inputs);
        if inputs.Ok? {
          AllSigned(keyManager.hs, keyManager.currentBatchSeed, old(keyManager.authTree.keyIndex), draft, inputs.value, signed);
        }
      } else {
        inputs, seeds := SignLegacy(TxHash(keyManager.hs.h256, draft), draft.inputs);
        if inputs.Ok? {
          AllPairs(keyManager.hs, draft, inputs.value, seeds);
        }
      }
      if inputs.Err? {
        return Err(Key(inputs.error)), signed, seeds;
      }
      return Ok(Some(draft.(inputs := inputs.value))), signed, seeds;
    }

    /** None when the amount is dust or not covered; the transaction built and signed otherwise. */
    method CreateTransfer(recipient: Bytes, amount: int, feeChoice: Option<int>, timestamp: int, nonce: Bytes)
      returns (r: Result<Option<Tx>, BuildError>, fee: int, ghost signed: seq<Signed>, ghost seeds: seq<Wide>)
      requires keyManager.Valid() && legacy.hs == keyManager.hs
      modifies keyManager.authTree, legacy
      ensures fee == FeeOr(feeChoice, TRANSFER_ESTIMATE, feeRate)
      ensures keyManager.Valid()
      ensures r.Ok? && r.value.None? <==>
                amount < DUST_THRESHOLD || !Covers(coins, currentEpoch, amount + fee)
      ensures r.Ok? && r.value.Some? ==> Encodable(r.value.value)
      ensures r.Ok? && r.value.Some? ==>
                IsTransfer(r.value.value, coins, currentEpoch, keyManager.address, recipient, amount,
                           fee)
      ensures r.Ok? && r.value.Some? ==>
                TransferPays(r.value.value, coins, currentEpoch, keyManager.address, recipient, amount, fee)
      ensures r.Ok? && r.value.Some? && keyManager.isRegistered ==>
                SignedByBatch(keyManager.hs, keyManager.currentBatchSeed, r.value.value, old(keyManager.authTree.keyIndex), signed)
      ensures r.Ok? && r.value.Some? && !keyManager.isRegistered ==> SignedByPairs(keyManager.hs, r.value.value, seeds)
    {
      signed, seeds := [], [];
      fee := FeeOr(feeChoice, TRANSFER_ESTIMATE, feeRate);
      if amount < DUST_THRESHOLD {
        return Ok(None), fee, [], [];
      }
      var draft := DraftTransfer(recipient, amount, fee, timestamp, nonce);
      if draft.None? {
        return Ok(None), fee, [], [];
      }
      r, signed, seeds := SignInputs(draft.value);
      if r.Ok? && r.value.Some? {
        SignedKeepsTransfer(draft.value, r.value.value.inputs, coins, currentEpoch, keyManager.address, recipient, amount, fee);
        TransferPaysRecipient(r.value.value, coins, currentEpoch, keyManager.address, recipient, amount, fee);
      }
    }

    /** One unsigned input whatever was selected, and the change from everything that was. */
    method DraftSingle(txType: TxType, first: TxOutput, fee: int, timestamp: int, nonce: Bytes)
      returns (r: Result<Option<Tx>, BuildError>)
      ensures r.Ok? && r.value.None? <==> !Covers(coins, currentEpoch, fee)
      ensures r.Ok? && r.value.Some? ==>
                Encodable(r.value.value) && IsSingle(r.value.value, txType, coins, currentEpoch, fee, first, keyManager.address)
    {
      var utxos, totalInput := SelectUtxos(0, fee);
      if totalInput < fee {
        return Ok(None);
      }
      if |utxos| == 0 {
        return Err(NoCoin);
      }
      var outputs := WithChange(first, totalInput - fee, keyManager.address);
      var tx := Tx(1, txType, [TxInput(utxos[0].ref, [], [], None, -1)], outputs, currentEpoch, timestamp, fee, nonce);
      return if Encodable(tx) then Ok(Some(tx)) else Err(Hashing);
    }

    /** None when registered already or when the coins do not cover the fee. */
    method CreateRegistrationTx(feeChoice: Option<int>, timestamp: int, nonce: Bytes) returns (r: Result<Option<Tx>, BuildError>, fee: int)
      requires keyManager.Valid()
      ensures fee == FeeOr(feeChoice, REGISTRATION_ESTIMATE, feeRate)
      ensures r.Ok? && r.value.None? <==>
                keyManager.isRegistered || !Covers(coins, currentEpoch, fee)
      ensures r.Ok? && r.value.Some? ==> Encodable(r.value.value)
      ensures r.Ok? && r.value.Some? ==>
                IsRegistration(r.value.value, keyManager.hs, keyManager.masterSeed, AuthRoot(keyManager.hs, keyManager.currentBatchSeed),
                               coins, currentEpoch, fee)
    {
      fee := FeeOr(feeChoice, REGISTRATION_ESTIMATE, feeRate);
      if keyManager.isRegistered {
        return Ok(None), fee;
      }
      var authRoot := keyManager.GetAuthRoot();
      var first := TxOutput(0, keyManager.address, 0, keyManager.innerHash + authRoot);
      r := DraftSingle(TxType.Register, first, fee, timestamp, nonce);
      if r.Ok? && r.value.Some? {
        var tx := SignRegistration(r.value.value);
        SingleKeepsShape(r.value.value, tx, TxType.Register, coins, currentEpoch, fee, first, keyManager.address);
        r := Ok(Some(tx));
      }
    }

    /** Fills in the registration key and its signature. */
    method SignRegistration(tx: Tx) returns (signedTx: Tx)
      requires |tx.inputs| == 1
      ensures signedTx == tx.(inputs := signedTx.inputs) && SameRefs(tx.inputs, signedTx.inputs)
      ensures signedTx.inputs[0].authProof == tx.inputs[0].authProof
      ensures Encodable(signedTx) == Encodable(tx)
      ensures RegistrationSigned(keyManager.hs, keyManager.masterSeed, signedTx)
    {
      var regPriv, regPub := keyManager.GetRegistrationKeypair();
      var signature := Wots.Sign(keyManager.hs.h256, TxHash(keyManager.hs.h256, tx), regPriv);
      var inputs := [tx.inputs[0].(publicKey := regPub, signature := signature)];
      HashIgnoresSignatures(keyManager.hs.h256, tx, inputs);
      signedTx := tx.(inputs := inputs);
    }

    /** Fills in the signature and the public_key field made of a reserved key's signature. */
    method SignRotation(tx: Tx, s: Signed) returns (signedTx: Tx)
      requires |tx.inputs| == 1
      ensures signedTx == tx.(inputs := signedTx.inputs) && SameRefs(tx.inputs, signedTx.inputs)
      ensures signedTx.inputs[0].authProof == tx.inputs[0].authProof
      ensures Encodable(signedTx) == Encodable(tx) && TxHash(keyManager.hs.h256, signedTx) == TxHash(keyManager.hs.h256, tx)
      ensures RotationCarries(signedTx, s)
    {
      var proofBytes := WriteEntries(s.proof);
      var pkField := s.publicKey + (Be(|proofBytes|, 2) + (proofBytes + Be(s.index, 4)));
      var inputs := [tx.inputs[0].(signature := s.signature, publicKey := pkField)];
      HashIgnoresSignatures(keyManager.hs.h256, tx, inputs);
      signedTx := tx.(inputs := inputs);
    }

    /** Prepares the next batch, then signs with a reserved key; the preparation stays when building fails. */
    method CreateRotationTx(feeChoice: Option<int>, timestamp: int, nonce: Bytes)
      returns (r: Result<Option<Tx>, BuildError>, fee: int, ghost sg: Option<Signed>)
      requires keyManager.Valid()
      modifies keyManager, keyManager.authTree
      ensures fee == FeeOr(feeChoice, ROTATION_ESTIMATE, feeRate)
      ensures keyManager.Valid() && keyManager.currentBatchSeed == old(keyManager.currentBatchSeed)
      ensures r.Ok? && r.value.None? <==>
                !old(keyManager.isRegistered) || !Covers(coins, currentEpoch, fee)
      ensures r.Ok? && r.value.Some? ==> sg.Some? && Encodable(r.value.value) && RotationCarries(r.value.value, sg.value)
      ensures r.Ok? && r.value.Some? ==>
                MadeWith(keyManager.hs, keyManager.currentBatchSeed, USABLE_KEYS + old(keyManager.authTree.rotationIndex),
                         TxHash(keyManager.hs.h256, r.value.value), sg.value)
      ensures r.Ok? && r.value.Some? ==>
                IsSingle(r.value.value, RotateAuth, coins, currentEpoch, fee,
                         TxOutput(0, keyManager.address, 0, AuthRoot(keyManager.hs, NextBatchSeed(keyManager.hs, keyManager.currentBatchSeed))),
                         keyManager.address)
      ensures old(keyManager.isRegistered) ==> keyManager.nextAuthTree != null
    {
      fee := FeeOr(feeChoice, ROTATION_ESTIMATE, feeRate);
      if !keyManager.isRegistered {
        return Ok(None), fee, None;
      }
      var newAuthRoot := keyManager.PrepareRotation();
      var first := TxOutput(0, keyManager.address, 0, newAuthRoot);
      r := DraftSingle(RotateAuth, first, fee, timestamp, nonce);
      if r.Err? || r.value.None? {
        sg := None;
        return;
      }
      var s := keyManager.TemporalSignRotation(TxHash(keyManager.hs.h256, r.value.value));
      if s.Err? {
        return Err(Key(s.error)), fee, None;
      }
      var tx := SignRotation(r.value.value, s.value);
      SingleKeepsShape(r.value.value, tx, RotateAuth, coins, currentEpoch, fee, first, keyManager.address);
      return Ok(Some(tx)), fee, Some(s.value);
    }

    method ConfirmRotation() returns (r: Result<(), KeyError>)
      requires keyManager.Valid()
      modifies keyManager, keyManager.authTree
      ensures keyManager.Valid()
      ensures r.Ok? <==> old(keyManager.View()).prepared
      ensures r.Ok? ==> keyManager.batchNumber == old(keyManager.batchNumber) + 1 && keyManager.View().keyIndex == 0
    {
      r := keyManager.ExecuteRotation();
    }
  }

  // ------------------------------------------------------ what was built, and why it is accepted

  /** The draft with its inputs signed. */
  ghost predicate IsSignedFrom(draft: Tx, tx: Tx) {
    Encodable(tx) && tx == draft.(inputs := tx.inputs) && SameRefs(draft.inputs, tx.inputs)
  }

  /** The spendable coins cover the amount. */
  predicate Covers(coins: seq<Coin>, epoch: int, amount: int) {
    TotalValue(SelectCoins(coins, epoch, amount), CoinValue()) >= amount
  }

  ghost predicate UsesCoins(inputs: seq<TxInput>, chosen: seq<Coin>) {
    |inputs| == |chosen| && forall i :: 0 <= i < |inputs| ==> inputs[i].prev == chosen[i].ref
  }

  ghost predicate IsTransfer(tx: Tx, coins: seq<Coin>, epoch: int, address: Bytes, recipient: Bytes, amount: int, fee: int) {
    var chosen := SelectCoins(coins, epoch, amount + fee);
    var total := TotalValue(chosen, CoinValue());
    && tx.version == 1 && tx.txType == Transfer && tx.epoch == epoch && tx.fee == fee
    && UsesCoins(tx.inputs, chosen) && total >= amount + fee
    && tx.outputs == WithChange(TxOutput(amount, recipient, 0, []), total - amount - fee, address)
  }

  /** What the outputs pay to an address. */
  function PaidTo(outputs: seq<TxOutput>, address: Bytes): int {
    if outputs == [] then 0
    else
      var last := outputs[|outputs| - 1];
      PaidTo(outputs[..|outputs| - 1], address) + if last.address == address then last.value else 0
  }

  /** What the coins selected for a sum leave over it, nothing when that is dust. */
  function LeftOver(coins: seq<Coin>, epoch: int, needed: int): int {
    var left := TotalValue(SelectCoins(coins, epoch, needed), CoinValue()) - needed;
    if left >= DUST_THRESHOLD then left else 0
  }

  lemma PaidByTwo(a: TxOutput, b: TxOutput, address: Bytes)
    ensures PaidTo([a], address) == if a.address == address then a.value else 0
    ensures PaidTo([a, b], address) == PaidTo([a], address) + if b.address == address then b.value else 0
  {
    assert [a, b][..1] == [a] && [a][..0] == [];
  }

  /** Who is paid: the recipient the amount, the wallet what is left over, and no one else. */
  ghost predicate TransferPays(tx: Tx, coins: seq<Coin>, epoch: int, address: Bytes, recipient: Bytes, amount: int, fee: int) {
    var left := LeftOver(coins, epoch, amount + fee);
    && (recipient != address ==> PaidTo(tx.outputs, recipient) == amount && PaidTo(tx.outputs, address) == left)
    && (recipient == address ==> PaidTo(tx.outputs, address) == amount + left)
    && (forall o :: o in tx.outputs ==> (o.address == recipient || o.address == address) && o.lockEpoch == 0 && o.data == [])
  }

  lemma TransferPaysRecipient(tx: Tx, coins: seq<Coin>, epoch: int, address: Bytes, recipient: Bytes, amount: int, fee: int)
    requires IsTransfer(tx, coins, epoch, address, recipient, amount, fee)
    ensures TransferPays(tx, coins, epoch, address, recipient, amount, fee)
  {
    var left := TotalValue(SelectCoins(coins, epoch, amount + fee), CoinValue()) - amount - fee;
    PaidByTwo(TxOutput(amount, recipient, 0, []), TxOutput(left, address, 0, []), recipient);
    PaidByTwo(TxOutput(amount, recipient, 0, []), TxOutput(left, address, 0, []), address);
  }

  /** A registration or rotation pays the wallet what is left over the fee and no one else, and carries its data once. */
  lemma SinglePaysOwner(tx: Tx, txType: TxType, coins: seq<Coin>, epoch: int, fee: int, data: Bytes, address: Bytes)
    requires IsSingle(tx, txType, coins, epoch, fee, TxOutput(0, address, 0, data), address)
    ensures PaidTo(tx.outputs, address) == LeftOver(coins, epoch, fee)
    ensures forall o :: o in tx.outputs ==> o.address == address && o.lockEpoch == 0
    ensures tx.outputs != [] && tx.outputs[0].data == data && forall i :: 0 < i < |tx.outputs| ==> tx.outputs[i].data == []
  {
    var left := TotalValue(SelectCoins(coins, epoch, fee), CoinValue()) - fee;
    PaidByTwo(TxOutput(0, address, 0, data), TxOutput(left, address, 0, []), address);
  }

  lemma SignedKeepsTransfer(
      tx: Tx, inputs: seq<TxInput>, coins: seq<Coin>, epoch: int, address: Bytes, recipient: Bytes, amount: int, fee: int)
    requires IsTransfer(tx, coins, epoch, address, recipient, amount, fee) && SameRefs(tx.inputs, inputs)
    ensures IsTransfer(tx.(inputs := inputs), coins, epoch, address, recipient, amount, fee)
  {
  }

  /** One input, the first coin selected; the change is what all selected coins leave over the fee. */
  ghost predicate IsSingle(tx: Tx, txType: TxType, coins: seq<Coin>, epoch: int, fee: int, first: TxOutput, address: Bytes) {
    var chosen := SelectCoins(coins, epoch, fee);
    var total := TotalValue(chosen, CoinValue());
    && tx.version == 1 && tx.txType == txType && tx.epoch == epoch && tx.fee == fee
    && chosen != [] && |tx.inputs| == 1 && tx.inputs[0].prev == chosen[0].ref && tx.inputs[0].authProof.None? && total >= fee
    && tx.outputs == WithChange(first, total - fee, address)
  }

  lemma SingleKeepsShape(
      tx: Tx, signedTx: Tx, txType: TxType, coins: seq<Coin>, epoch: int, fee: int, first: TxOutput, address: Bytes)
    requires IsSingle(tx, txType, coins, epoch, fee, first, address)
    requires signedTx == tx.(inputs := signedTx.inputs) && SameRefs(tx.inputs, signedTx.inputs)
    requires signedTx.inputs[0].authProof.None?
    ensures IsSingle(signedTx, txType, coins, epoch, fee, first, address)
  {
  }

  ghost predicate RegistrationSigned(hs: Hashes, masterSeed: Bytes, tx: Tx) {
    var seed := RegistrationSeed(hs, masterSeed);
    && |tx.inputs| == 1 && tx.inputs[0].publicKey == PublicKey(hs.h256, seed)
    && tx.inputs[0].signature == Signature(hs.h256, hs.h256(TxHash(hs.h256, tx)), PrivateKey(hs.h256, seed))
  }

  ghost predicate IsRegistration(tx: Tx, hs: Hashes, masterSeed: Bytes, root: Digest, coins: seq<Coin>, epoch: int, fee: int) {
    var inner := InnerHash(hs, masterSeed);
    var address := AddressOf(hs, inner);
    && RegistrationSigned(hs, masterSeed, tx)
    && IsSingle(tx, TxType.Register, coins, epoch, fee, TxOutput(0, address, 0, inner + root), address)
  }

  ghost predicate RotationCarries(tx: Tx, sg: Signed) {
    && |tx.inputs| == 1 && tx.inputs[0].signature == sg.signature
    && tx.inputs[0].publicKey == Encode(RotationProof(sg.publicKey, sg.proof, sg.index))
  }

  ghost predicate MirrorsCoin(utxos: Utxos, c: Coin, owner: Bytes, epoch: int) {
    SpendableAt(epoch)(c) ==> OwnedOnChain(utxos, c.ref, owner, epoch) && utxos[c.ref].output == c.utxo.output
  }

  /** Every spendable coin of the wallet is on chain as the wallet knows it. */
  ghost predicate Mirrors(utxos: Utxos, coins: seq<Coin>, owner: Bytes, epoch: int) {
    forall c :: c in coins ==> MirrorsCoin(utxos, c, owner, epoch)
  }

  lemma {:induction false} CoinsTotal(utxos: Utxos, inputs: seq<TxInput>, chosen: seq<Coin>, owner: Bytes, epoch: int)
    requires UsesCoins(inputs, chosen)
    requires forall i :: 0 <= i < |chosen| ==> SpendableAt(epoch)(chosen[i]) && MirrorsCoin(utxos, chosen[i], owner, epoch)
    ensures InputTotal(utxos, inputs) == TotalValue(chosen, CoinValue())
  {
    if inputs != [] {
      var n := |inputs| - 1;
      CoinsTotal(utxos, inputs[..n], chosen[..n], owner, epoch);
      assert MirrorsCoin(utxos, chosen[n], owner, epoch);
    }
  }

  lemma ChosenAreMirrored(utxos: Utxos, coins: seq<Coin>, owner: Bytes, epoch: int, needed: int, i: nat)
    requires Mirrors(utxos, coins, owner, epoch) && i < |SelectCoins(coins, epoch, needed)|
    ensures var c := SelectCoins(coins, epoch, needed)[i]; SpendableAt(epoch)(c) && MirrorsCoin(utxos, c, owner, epoch)
  {
    var c := SelectCoins(coins, epoch, needed)[i];
    SelectsLargest(coins, SpendableAt(epoch), CoinValue(), needed, c, c);
  }

  /** A transfer the wallet builds passes validation whenever it passes the structure checks. */
  lemma TransferValidates(
      hs: Hashes, s: State, tx: Tx, seed: Bytes, start: nat, signed: seq<Signed>, coins: seq<Coin>, epoch: int,
      owner: Bytes, recipient: Bytes, amount: int, fee: int)
    requires IsTransfer(tx, coins, epoch, owner, recipient, amount, fee) && SignedByBatch(hs, seed, tx, start, signed)
    requires Mirrors(s.utxos, coins, owner, epoch) && RegisteredWith(s.registry, owner, AuthRoot(hs, seed))
    requires Structure(tx) == Valid && Encodable(tx)
    ensures Validate(hs, s, tx, epoch) == Valid
  {
    TransferIsMirrored(s.utxos, tx, coins, epoch, owner, recipient, amount, fee);
    SignedTransferValidates(hs, s, tx, epoch, seed, owner, start, signed);
  }

  /** So does a transfer built before the wallet is registered. */
  lemma LegacyTransferValidates(
      hs: Hashes, s: State, tx: Tx, seeds: seq<Wide>, coins: seq<Coin>, epoch: int, owner: Bytes, recipient: Bytes, amount: int, fee: int)
    requires IsTransfer(tx, coins, epoch, owner, recipient, amount, fee) && SignedByPairs(hs, tx, seeds)
    requires Mirrors(s.utxos, coins, owner, epoch) && owner !in s.registry.registered
    requires Structure(tx) == Valid && Encodable(tx)
    ensures Validate(hs, s, tx, epoch) == Valid
  {
    TransferIsMirrored(s.utxos, tx, coins, epoch, owner, recipient, amount, fee);
    LegacyTransferIsValid(hs, s, tx, epoch, owner, seeds);
  }

  /** On chain, the transfer spends the owner's outputs and they pay for it. */
  lemma TransferIsMirrored(
      utxos: Utxos, tx: Tx, coins: seq<Coin>, epoch: int, owner: Bytes, recipient: Bytes, amount: int, fee: int)
    requires IsTransfer(tx, coins, epoch, owner, recipient, amount, fee) && Mirrors(utxos, coins, owner, epoch)
    ensures forall i :: 0 <= i < |tx.inputs| ==> OwnedOnChain(utxos, tx.inputs[i].prev, owner, epoch)
    ensures InputTotal(utxos, tx.inputs) >= TotalOutput(tx.outputs) + tx.fee
    ensures tx.txType == Transfer && tx.epoch == epoch
  {
    var chosen := SelectCoins(coins, epoch, amount + fee);
    forall i | 0 <= i < |chosen|
      ensures SpendableAt(epoch)(chosen[i]) && MirrorsCoin(utxos, chosen[i], owner, epoch)
    {
      ChosenAreMirrored(utxos, coins, owner, epoch, amount + fee, i);
    }
    CoinsTotal(utxos, tx.inputs, chosen, owner, epoch);
    ChangeTotal(TxOutput(amount, recipient, 0, []), TotalValue(chosen, CoinValue()) - amount - fee, owner);
  }

  lemma FirstCoinDecides(coins: seq<Coin>, epoch: int, fee: int)
    requires SelectCoins(coins, epoch, fee) != []
    ensures var chosen := SelectCoins(coins, epoch, fee);
            TotalValue(chosen, CoinValue()) >= fee ==>
              SelectedFor(CoinValue()(chosen[0]), TotalValue(chosen, CoinValue()), fee)
  {
    var chosen := SelectCoins(coins, epoch, fee);
    assert chosen[..1] == [chosen[0]] && [chosen[0]][..0] == [];
    assert TotalValue([chosen[0]], CoinValue()) == CoinValue()(chosen[0]);
    SelectsNoMoreThanNeeded(coins, SpendableAt(epoch), CoinValue(), fee, 1, chosen[0]);
    assert |chosen| == 1 ==> chosen == [chosen[0]];
  }

  lemma FirstIsMirrored(utxos: Utxos, tx: Tx, txType: TxType, coins: seq<Coin>, epoch: int, fee: int, first: TxOutput, owner: Bytes)
    returns (total: int)
    requires IsSingle(tx, txType, coins, epoch, fee, first, owner) && Mirrors(utxos, coins, owner, epoch)
    ensures OwnedOnChain(utxos, tx.inputs[0].prev, owner, epoch)
    ensures ValueAt(utxos, tx.inputs[0].prev) == CoinValue()(SelectCoins(coins, epoch, fee)[0])
    ensures tx.fee == fee && tx.outputs == WithChange(first, total - tx.fee, owner)
    ensures SelectedFor(ValueAt(utxos, tx.inputs[0].prev), total, tx.fee)
  {
    total := TotalValue(SelectCoins(coins, epoch, fee), CoinValue());
    ChosenAreMirrored(utxos, coins, owner, epoch, fee, 0);
    FirstCoinDecides(coins, epoch, fee);
  }

  /** A registration the wallet builds passes exactly when its largest coin covers the fee. */
  lemma RegistrationValidates(hs: Hashes, s: State, tx: Tx, masterSeed: Bytes, root: Digest, coins: seq<Coin>, epoch: int, fee: int)
    requires IsRegistration(tx, hs, masterSeed, root, coins, epoch, fee) && Structure(tx) == Valid && Encodable(tx)
    requires var owner := AddressOf(hs, InnerHash(hs, masterSeed));
             Mirrors(s.utxos, coins, owner, epoch) && owner !in s.registry.registered
    ensures Validate(hs, s, tx, epoch) == Valid <==> ValueAt(s.utxos, tx.inputs[0].prev) >= tx.fee
  {
    var owner := AddressOf(hs, InnerHash(hs, masterSeed));
    var total := FirstIsMirrored(s.utxos, tx, TxType.Register, coins, epoch, fee, TxOutput(0, owner, 0, InnerHash(hs, masterSeed) + root), owner);
    RegistrationValidatesIff(hs, s, InnerHash(hs, masterSeed), RegistrationSeed(hs, masterSeed), root, tx, total, epoch);
  }

  /** A rotation the wallet builds passes exactly when its largest coin covers the fee. */
  lemma RotationValidates(
      hs: Hashes, s: State, tx: Tx, batchSeed: Bytes, owner: Bytes, sg: Signed, newRoot: Digest, coins: seq<Coin>, epoch: int, fee: int)
    requires IsSingle(tx, RotateAuth, coins, epoch, fee, TxOutput(0, owner, 0, newRoot), owner)
    requires RotationCarries(tx, sg) && sg.index >= USABLE_KEYS && MadeWith(hs, batchSeed, sg.index, TxHash(hs.h256, tx), sg)
    requires Structure(tx) == Valid && Encodable(tx)
    requires Mirrors(s.utxos, coins, owner, epoch) && RegisteredWith(s.registry, owner, AuthRoot(hs, batchSeed))
    ensures Validate(hs, s, tx, epoch) == Valid <==> ValueAt(s.utxos, tx.inputs[0].prev) >= tx.fee
  {
    var total := FirstIsMirrored(s.utxos, tx, RotateAuth, coins, epoch, fee, TxOutput(0, owner, 0, newRoot), owner);
    RotationValidatesIff(hs, s, batchSeed, sg.index, sg, owner, newRoot, tx, total, epoch);
  }
}
