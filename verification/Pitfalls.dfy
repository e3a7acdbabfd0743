/** Transactions that are let in, or built, and then fail: the inputs that the exact conditions shut out do occur. */
module Pitfalls {
  import opened Wrappers
  import opened ByteStrings
  import opened Wots
  import opened Merkle
  import opened AuthTree
  import opened Transactions
  import opened Ledger
  import opened LedgerValue
  import opened LedgerRuns
  import opened Pools
  import opened Mempools
  import opened Blocks
  import opened Producers
  import opened CoinSelection
  import opened WalletTxs
  import opened WalletObjects
  import K = KeyManager

  // ----------------------------------------------------- one reference listed twice

  const PAYMENT: int := 10000

  /** A payment that lists one output twice, before it is signed. */
  function TwiceUnsigned(r: OutRef, recipient: Bytes, epoch: int, timestamp: int, nonce: Bytes): Tx {
    Tx(1, Transfer, [TxInput(r, [], [], None, -1), TxInput(r, [], [], None, -1)], [TxOutput(PAYMENT, recipient, 0, [])],
       epoch, timestamp, PAYMENT, nonce)
  }

  function SignedInput(r: OutRef, s: Signed): TxInput {
    TxInput(r, s.signature, s.publicKey, Some(s.proof), s.index)
  }

  /** The same, signed with the first two keys of the batch. */
  function Twice(hs: Hashes, seed: Bytes, r: OutRef, recipient: Bytes, epoch: int, timestamp: int, nonce: Bytes): Tx {
    var draft := TwiceUnsigned(r, recipient, epoch, timestamp, nonce);
    var m := TxHash(hs.h256, draft);
    draft.(inputs := [SignedInput(r, SignedWith(hs, seed, 0, m)), SignedInput(r, SignedWith(hs, seed, 1, m))])
  }

  lemma SignedInputSize(hs: Hashes, seed: Bytes, r: OutRef, index: nat, m: Digest)
    requires index < TOTAL_KEYS
    ensures InputSize(SignedInput(r, SignedWith(hs, seed, index, m))) == 4348
  {
    var keySeed := KeySeed(hs, seed, index);
    PrivateKeyCells(hs.h256, keySeed);
    PublicKeyCells(hs.h256, keySeed);
    SignatureCells(hs.h256, hs.h256(m), PrivateKey(hs.h256, keySeed));
    KeyProofShape(hs, seed, index);
  }

  lemma TwoInputs(a: TxInput, b: TxInput)
    ensures InputSizes([a, b]) == InputSize(a) + InputSize(b)
    ensures forall utxos :: InputTotal(utxos, [a, b]) == ValueAt(utxos, a.prev) + ValueAt(utxos, b.prev)
  {
    assert [a, b][..1] == [a] && [a][..0] == [];
    assert InputSizes([a]) == InputSize(a);
    forall utxos ensures InputTotal(utxos, [a, b]) == ValueAt(utxos, a.prev) + ValueAt(utxos, b.prev) {
      assert InputTotal(utxos, [a]) == ValueAt(utxos, a.prev);
    }
  }

  lemma OneOutput(o: TxOutput)
    ensures OutputSizes([o]) == OutputSize(o) && TotalOutput([o]) == o.value
  {
    assert [o][..0] == [];
  }

  lemma TwiceIsSized(hs: Hashes, seed: Bytes, r: OutRef, recipient: Bytes, epoch: int, timestamp: int, nonce: Bytes)
    ensures Size(Twice(hs, seed, r, recipient, epoch, timestamp, nonce)) == 8814
  {
    var tx := Twice(hs, seed, r, recipient, epoch, timestamp, nonce);
    var m := TxHash(hs.h256, TwiceUnsigned(r, recipient, epoch, timestamp, nonce));
    SignedInputSize(hs, seed, r, 0, m);
    SignedInputSize(hs, seed, r, 1, m);
    TwoInputs(tx.inputs[0], tx.inputs[1]);
    OneOutput(tx.outputs[0]);
  }

  lemma TwiceIsSigned(hs: Hashes, seed: Bytes, r: OutRef, recipient: Bytes, epoch: int, timestamp: int, nonce: Bytes)
    returns (signed: seq<Signed>)
    ensures SignedByBatch(hs, seed, Twice(hs, seed, r, recipient, epoch, timestamp, nonce), 0, signed)
  {
    var draft := TwiceUnsigned(r, recipient, epoch, timestamp, nonce);
    var tx, m := Twice(hs, seed, r, recipient, epoch, timestamp, nonce), TxHash(hs.h256, draft);
    HashIgnoresSignatures(hs.h256, draft, tx.inputs);
    signed := [SignedWith(hs, seed, 0, m), SignedWith(hs, seed, 1, m)];
    forall i | 0 <= i < |tx.inputs| ensures SignedAt(hs, seed, tx, 0, signed, i) {
      assert i == 0 || i == 1;
    }
  }

  /** Validation counts the output twice and lets the payment through. */
  lemma TwiceIsValid(hs: Hashes, s: State, seed: Bytes, owner: Bytes, r: OutRef, recipient: Bytes, epoch: int, timestamp: int, nonce: Bytes)
    requires OwnedOnChain(s.utxos, r, owner, epoch) && RegisteredWith(s.registry, owner, AuthRoot(hs, seed))
    requires s.utxos[r].output.value >= PAYMENT && InU64(r.index) && InU64(epoch) && InU64(timestamp)
    ensures var tx := Twice(hs, seed, r, recipient, epoch, timestamp, nonce);
            Encodable(tx) && Validate(hs, s, tx, epoch) == Valid && !DistinctInputs(tx.inputs)
  {
    var tx := Twice(hs, seed, r, recipient, epoch, timestamp, nonce);
    TwiceIsSized(hs, seed, r, recipient, epoch, timestamp, nonce);
    var signed := TwiceIsSigned(hs, seed, r, recipient, epoch, timestamp, nonce);
    TwoInputs(tx.inputs[0], tx.inputs[1]);
    OneOutput(tx.outputs[0]);
    SignedTransferValidates(hs, s, tx, epoch, seed, owner, 0, signed);
  }

  function EmptyPool<T>(): Pool<T> { Pool(map[], 0, [], {}) }

  /** An empty pool takes any transaction that fits, and then selects it for the next block. */
  lemma OnlyOneInPool<T>(rules: Rules<T>, tx: T, k: Bytes, maxSize: int)
    requires rules.hashOf(tx) == Some(k) && rules.sizeOf(tx) <= maxSize
    ensures Good(rules, EmptyPool(), maxSize) && AddAnswer(rules, EmptyPool(), tx, maxSize) == Accepted
    ensures var p := Added(rules, EmptyPool(), tx, k);
            Good(rules, p, maxSize) && p.transactions == map[k := tx] && p.priority == [RankOf(rules, tx, k)]
  {
    EmptyIsGood(rules, maxSize);
    AddKeepsGood(rules, EmptyPool(), tx, maxSize);
    var ranks := EmptyPool<T>().priority + [RankOf(rules, tx, k)];
    assert ranks == [RankOf(rules, tx, k)];
    SortOne(RankOf(rules, tx, k));
  }

  lemma EmptyIsGood<T>(rules: Rules<T>, maxSize: int)
    requires 0 <= maxSize
    ensures Good(rules, EmptyPool(), maxSize)
  {
    var none: map<Bytes, T> := map[];
    assert RanksOf(rules, none) == {};
  }

  lemma SortOne(e: Rank)
    ensures SortDescending([e]) == [e]
  {
    assert [e][..0] == [];
  }

  lemma OnlyOneSelected<T>(rules: Rules<T>, tx: T, k: Bytes, e: Rank, limit: nat)
    requires e.hash == k && rules.sizeOf(tx) <= limit
    ensures Selection(rules, map[k := tx], [e], limit) == [tx]
  {
    var txs := map[k := tx];
    var list := InOrder(txs, [e]);
    InOrderAt(txs, [e], 0);
    SizesAt(rules, list, 0);
    var sizes := Sizes(rules, list);
    PickedIffFits(sizes, limit, 0);
    PicksFit(sizes, limit);
    var picks := Picks(sizes, limit);
    assert sizes[..0] == [];
    assert 0 in picks;
    assert picks == [0];
  }

  /**
   * A payment listing one output twice is validated, accepted into the pool, selected and filled into a template;
   * the block then fails to apply.
   */
  lemma TwiceFailsInBlock(hs: Hashes, s: State, seed: Bytes, owner: Bytes, r: OutRef, recipient: Bytes, epoch: int, timestamp: int,
                          nonce: Bytes, rate: Rate, maxSize: int, reward: Tx)
    requires OwnedOnChain(s.utxos, r, owner, epoch) && RegisteredWith(s.registry, owner, AuthRoot(hs, seed))
    requires s.utxos[r].output.value >= PAYMENT && InU64(r.index) && InU64(epoch) && InU64(timestamp)
    requires maxSize >= MAX_BLOCK_SIZE && Encodable(reward) && IsReward(reward)
    ensures var tx, rules := Twice(hs, seed, r, recipient, epoch, timestamp, nonce), TxRules(hs.h256, rate);
            var p := Added(rules, EmptyPool(), tx, TxHash(hs.h256, tx));
            && AddAnswer(rules, EmptyPool(), tx, maxSize) == Accepted && (forall e :: e in p.priority ==> e.hash in p.transactions)
            && var candidates := Selection(rules, p.transactions, p.priority, MAX_BLOCK_SIZE);
               var txs := Fill(Checker(hs, s, epoch), candidates, Filling([], [])).transactions;
               txs == [tx] && !ApplyAll(hs, s, [reward] + txs).Done?
  {
    var tx, rules := Twice(hs, seed, r, recipient, epoch, timestamp, nonce), TxRules(hs.h256, rate);
    var k := TxHash(hs.h256, tx);
    TwiceIsSized(hs, seed, r, recipient, epoch, timestamp, nonce);
    TwiceIsValid(hs, s, seed, owner, r, recipient, epoch, timestamp, nonce);
    OnlyOneInPool(rules, tx, k, maxSize);
    OnlyOneSelected(rules, tx, k, RankOf(rules, tx, k), MAX_BLOCK_SIZE);
    FillsWith(Checker(hs, s, epoch), tx);
    var p := Added(rules, EmptyPool(), tx, k);
    FilledBlockApplies(hs, s, epoch, rate, p, maxSize, reward);
    assert tx in [tx];
  }

  lemma FillsWith(check: Tx -> Verdict, tx: Tx)
    requires check(tx) == Valid && Size(tx) <= MAX_BLOCK_SIZE
    ensures Fill(check, [tx], Filling([], [])).transactions == [tx]
  {
    assert [tx][1..] == [];
    assert Fill(check, [tx], Filling([], [])) == Fill(check, [], Filling([] + [tx], []));
  }

  // ------------------------------------------- a first coin that does not cover the fee

  const ENOUGH: int := 5000

  function Registration(hs: Hashes, masterSeed: Bytes, root: Digest, coins: seq<Coin>, epoch: int, fee: int, timestamp: int, nonce: Bytes): Tx
    requires SelectCoins(coins, epoch, fee) != []
  {
    var inner, seed := K.InnerHash(hs, masterSeed), K.RegistrationSeed(hs, masterSeed);
    var chosen := SelectCoins(coins, epoch, fee);
    var outputs := RegistrationOutputs(inner, root, AddressOf(hs, inner), TotalValue(chosen, CoinValue()), fee);
    var draft := Tx(1, TxType.Register, [TxInput(chosen[0].ref, [], [], None, -1)], outputs, epoch, timestamp, fee, nonce);
    var signature := Signature(hs.h256, hs.h256(TxHash(hs.h256, draft)), PrivateKey(hs.h256, seed));
    draft.(inputs := [TxInput(chosen[0].ref, signature, PublicKey(hs.h256, seed), None, -1)])
  }

  lemma RegistrationIsBuilt(hs: Hashes, masterSeed: Bytes, root: Digest, coins: seq<Coin>, epoch: int, fee: int, timestamp: int, nonce: Bytes)
    requires SelectCoins(coins, epoch, fee) != [] && Covers(coins, epoch, fee)
    ensures IsRegistration(Registration(hs, masterSeed, root, coins, epoch, fee, timestamp, nonce), hs, masterSeed, root, coins, epoch, fee)
  {
    var tx := Registration(hs, masterSeed, root, coins, epoch, fee, timestamp, nonce);
    var draft := tx.(inputs := [TxInput(tx.inputs[0].prev, [], [], None, -1)]);
    HashIgnoresSignatures(hs.h256, draft, tx.inputs);
  }

  lemma OneOrTwoOutputs(outputs: seq<TxOutput>)
    requires 1 <= |outputs| <= 2 && |outputs[0].data| == 96 && (|outputs| == 2 ==> outputs[1].data == [])
    ensures OutputSizes(outputs) <= 260
  {
    OneOutput(outputs[0]);
    if |outputs| == 2 {
      assert outputs[..1] == [outputs[0]];
    } else {
      assert outputs == [outputs[0]];
    }
  }

  lemma RegistrationSize(hs: Hashes, masterSeed: Bytes, root: Digest, coins: seq<Coin>, epoch: int, fee: int, timestamp: int, nonce: Bytes)
    requires SelectCoins(coins, epoch, fee) != []
    ensures Size(Registration(hs, masterSeed, root, coins, epoch, fee, timestamp, nonce)) <= 4624
  {
    var tx := Registration(hs, masterSeed, root, coins, epoch, fee, timestamp, nonce);
    var seed := K.RegistrationSeed(hs, masterSeed);
    PrivateKeyCells(hs.h256, seed);
    PublicKeyCells(hs.h256, seed);
    var draft := tx.(inputs := [TxInput(tx.inputs[0].prev, [], [], None, -1)]);
    SignatureCells(hs.h256, hs.h256(TxHash(hs.h256, draft)), PrivateKey(hs.h256, seed));
    assert tx.inputs[..0] == [] && InputSizes(tx.inputs) == 4328;
    OneOrTwoOutputs(tx.outputs);
  }

  /**
   * Whenever no single coin covers the fee but the coins together do, the wallet builds a registration that passes
   * the structure checks and the validator refuses.
   */
  lemma RegistrationRefused(
      hs: Hashes, s: State, masterSeed: Bytes, root: Digest, coins: seq<Coin>, epoch: int, fee: int, timestamp: int, nonce: Bytes)
    requires SelectCoins(coins, epoch, fee) != [] && Covers(coins, epoch, fee) && fee >= ENOUGH
    requires CoinValue()(SelectCoins(coins, epoch, fee)[0]) < fee && InU64(SelectCoins(coins, epoch, fee)[0].ref.index)
    requires TotalValue(SelectCoins(coins, epoch, fee), CoinValue()) < U64 && InU64(epoch) && InU64(timestamp)
    requires var owner := AddressOf(hs, K.InnerHash(hs, masterSeed));
             Mirrors(s.utxos, coins, owner, epoch) && owner !in s.registry.registered
    ensures var tx := Registration(hs, masterSeed, root, coins, epoch, fee, timestamp, nonce);
            && IsRegistration(tx, hs, masterSeed, root, coins, epoch, fee) && Structure(tx) == Valid && Encodable(tx)
            && Validate(hs, s, tx, epoch) != Valid
  {
    var tx := Registration(hs, masterSeed, root, coins, epoch, fee, timestamp, nonce);
    RegistrationIsBuilt(hs, masterSeed, root, coins, epoch, fee, timestamp, nonce);
    RegistrationSize(hs, masterSeed, root, coins, epoch, fee, timestamp, nonce);
    var inner := K.InnerHash(hs, masterSeed);
    var total := FirstIsMirrored(s.utxos, tx, TxType.Register, coins, epoch, fee, TxOutput(0, AddressOf(hs, inner), 0, inner + root), AddressOf(hs, inner));
    RegistrationValidates(hs, s, tx, masterSeed, root, coins, epoch, fee);
  }
}
