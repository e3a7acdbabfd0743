/** From the coins a wallet knows to a payment that the chain applies. */
module WalletPayments {
  import opened Wrappers
  import opened ByteStrings
  import opened AuthTree
  import opened Transactions
  import opened Ledger
  import opened LedgerValue
  import opened LedgerRuns
  import opened Blocks
  import opened CoinSelection
  import opened WalletTxs
  import opened WalletObjects

  // ------------------------------------------------------------ distinct coins

  /** The wallet lists no reference twice. */
  ghost predicate DistinctCoins(coins: seq<Coin>) {
    forall i, j :: 0 <= i < j < |coins| ==> coins[i].ref != coins[j].ref
  }

  /** Learning of an output keeps the list free of repetitions. */
  lemma WithCoinKeepsDistinct(coins: seq<Coin>, c: Coin)
    requires DistinctCoins(coins)
    ensures DistinctCoins(WithCoin(coins, c))
  {
  }

  lemma {:induction false} OnceIsDistinct<T>(s: seq<T>, i: nat, j: nat)
    requires i < j < |s| && s[i] == s[j]
    ensures multiset(s)[s[i]] >= 2
  {
    assert s == s[..j] + s[j..];
    assert s[i] == s[..j][i] && s[j] == s[j..][0];
    assert s[i] in multiset(s[..j]) && s[j] in multiset(s[j..]);
    assert multiset(s) == multiset(s[..j]) + multiset(s[j..]);
  }

  lemma {:induction false} DistinctIsOnce<T>(s: seq<T>, x: T)
    requires forall i, j :: 0 <= i < j < |s| ==> s[i] != s[j]
    ensures multiset(s)[x] <= 1
  {
    if s != [] {
      var n := |s| - 1;
      DistinctIsOnce(s[..n], x);
      assert s == s[..n] + [s[n]];
      if x == s[n] {
        assert x !in s[..n];
      }
    }
  }

  lemma {:induction false} PassingLosesOnly<C>(coins: seq<C>, ok: C -> bool, x: C)
    ensures multiset(Passing(coins, ok))[x] <= multiset(coins)[x]
  {
    if coins != [] {
      var n := |coins| - 1;
      PassingLosesOnly(coins[..n], ok, x);
      assert coins == coins[..n] + [coins[n]];
    }
  }

  /** Selection does not pick a coin twice. */
  lemma SelectedAreDistinct(coins: seq<Coin>, epoch: int, needed: int)
    requires DistinctCoins(coins)
    ensures DistinctCoins(SelectCoins(coins, epoch, needed))
  {
    var ok, value := SpendableAt(epoch), CoinValue();
    var sorted := LargestFirst(Passing(coins, ok), value);
    LargestFirstSorts(Passing(coins, ok), value);
    forall i, j | 0 <= i < j < |sorted| ensures sorted[i].ref != sorted[j].ref {
      if sorted[i] == sorted[j] {
        OnceIsDistinct(sorted, i, j);
        DistinctIsOnce(coins, sorted[i]);
        PassingLosesOnly(coins, ok, sorted[i]);
        assert false;
      }
      SortedPassing(coins, ok, value, sorted[i]);
      SortedPassing(coins, ok, value, sorted[j]);
      assert sorted[i] in coins && sorted[j] in coins;
    }
  }

  lemma DistinctCoinsDistinctInputs(inputs: seq<TxInput>, chosen: seq<Coin>)
    requires UsesCoins(inputs, chosen) && DistinctCoins(chosen)
    ensures DistinctInputs(inputs)
  {
  }

  lemma ValidApplies(hs: Hashes, s: State, tx: Tx, epoch: int)
    requires Encodable(tx) && Validate(hs, s, tx, epoch) == Valid && DistinctInputs(tx.inputs)
    ensures Apply(hs, s, tx).Done?
  {
    LetInIsAcceptable(hs, s, Event(tx, epoch, 0));
    AcceptableApplies(hs, s, tx);
  }

  lemma BuiltIsDistinct(tx: Tx, coins: seq<Coin>, epoch: int, owner: Bytes, recipient: Bytes, amount: int, fee: int)
    requires IsTransfer(tx, coins, epoch, owner, recipient, amount, fee) && DistinctCoins(coins)
    ensures DistinctInputs(tx.inputs)
  {
    SelectedAreDistinct(coins, epoch, amount + fee);
    DistinctCoinsDistinctInputs(tx.inputs, SelectCoins(coins, epoch, amount + fee));
  }

  /** A payment the wallet builds is not only validated but also applied completely. */
  lemma BuiltTransferApplies(
      hs: Hashes, s: State, tx: Tx, seed: Bytes, start: nat, signed: seq<Signed>, coins: seq<Coin>, epoch: int,
      owner: Bytes, recipient: Bytes, amount: int, fee: int)
    requires IsTransfer(tx, coins, epoch, owner, recipient, amount, fee) && SignedByBatch(hs, seed, tx, start, signed)
    requires Mirrors(s.utxos, coins, owner, epoch) && RegisteredWith(s.registry, owner, AuthRoot(hs, seed))
    requires Structure(tx) == Valid && Encodable(tx) && DistinctCoins(coins)
    ensures Validate(hs, s, tx, epoch) == Valid && DistinctInputs(tx.inputs) && Apply(hs, s, tx).Done?
  {
    TransferValidates(hs, s, tx, seed, start, signed, coins, epoch, owner, recipient, amount, fee);
    BuiltIsDistinct(tx, coins, epoch, owner, recipient, amount, fee);
    ValidApplies(hs, s, tx, epoch);
  }
}
