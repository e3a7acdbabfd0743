/** The UTXO set with its address index and its stake table, and the auth registry, as mutable objects. */
module UtxoSets {
  import opened Wrappers
  import opened ByteStrings
  import opened Sums
  import opened Transactions
  import opened Ledger

  type Index = map<Bytes, set<OutRef>>

  function IndexAt(index: Index, address: Bytes): set<OutRef> {
    if address in index then index[address] else {}
  }

  function IndexWith(index: Index, address: Bytes, r: OutRef): Index {
    index[address := IndexAt(index, address) + {r}]
  }

  function IndexWithout(index: Index, address: Bytes, r: OutRef): Index {
    index[address := IndexAt(index, address) - {r}]
  }

  /** The index holds exactly the unspent outputs of each address. */
  ghost predicate Indexed(utxos: Utxos, index: Index) {
    forall a, r :: r in IndexAt(index, a) <==> Spendable(utxos, r) && utxos[r].output.address == a
  }

  /** Adding keeps the index right exactly when it does not replace an unspent output of another address. */
  lemma AddKeepsIndexIff(utxos: Utxos, index: Index, r: OutRef, o: TxOutput, epoch: int)
    requires Indexed(utxos, index)
    ensures Indexed(utxos[r := Created(o, epoch)], IndexWith(index, o.address, r))
            <==> (Spendable(utxos, r) ==> utxos[r].output.address == o.address)
  {
    var newUtxos, newIndex := utxos[r := Created(o, epoch)], IndexWith(index, o.address, r);
    if Spendable(utxos, r) && utxos[r].output.address != o.address {
      assert r in IndexAt(index, utxos[r].output.address);
      assert r in IndexAt(newIndex, utxos[r].output.address) && newUtxos[r].output.address == o.address;
      assert !Indexed(newUtxos, newIndex);
    } else {
      forall a, x
        ensures x in IndexAt(newIndex, a) <==> Spendable(newUtxos, x) && newUtxos[x].output.address == a
      {
        assert x in IndexAt(index, a) <==> Spendable(utxos, x) && utxos[x].output.address == a;
      }
    }
  }

  lemma SpendKeepsIndex(utxos: Utxos, index: Index, r: OutRef, spender: Bytes)
    requires Indexed(utxos, index) && Spendable(utxos, r)
    ensures Indexed(Spend(utxos, r, spender), IndexWithout(index, utxos[r].output.address, r))
  {
    var newUtxos, newIndex := Spend(utxos, r, spender), IndexWithout(index, utxos[r].output.address, r);
    forall a, x
      ensures x in IndexAt(newIndex, a) <==> Spendable(newUtxos, x) && newUtxos[x].output.address == a
    {
      assert x in IndexAt(index, a) <==> Spendable(utxos, x) && utxos[x].output.address == a;
    }
  }

  // ------------------------------------------------------------------- balance

  predicate Matured(utxos: Utxos, r: OutRef, epoch: int) {
    Spendable(utxos, r) && utxos[r].output.lockEpoch <= epoch
  }

  ghost function MaturedValue(utxos: Utxos, epoch: int): OutRef -> int {
    r => if Matured(utxos, r, epoch) then utxos[r].output.value else 0
  }

  ghost function BalanceShare(utxos: Utxos, address: Bytes, epoch: int): OutRef -> int {
    r => if Matured(utxos, r, epoch) && utxos[r].output.address == address then utxos[r].output.value else 0
  }

  /** The balance as a scan of the whole table defines it. */
  ghost function Balance(utxos: Utxos, address: Bytes, epoch: int): int {
    Sum(utxos.Keys, BalanceShare(utxos, address, epoch))
  }

  /** Summing over the index of an address is scanning the whole table. */
  lemma IndexedBalance(utxos: Utxos, index: Index, address: Bytes, epoch: int)
    requires Indexed(utxos, index)
    ensures Sum(IndexAt(index, address), MaturedValue(utxos, epoch)) == Balance(utxos, address, epoch)
  {
    var mine := IndexAt(index, address);
    var share := BalanceShare(utxos, address, epoch);
    assert mine <= utxos.Keys;
    SumUnion(mine, utxos.Keys - mine, share);
    assert mine + (utxos.Keys - mine) == utxos.Keys;
    SumOfZeros(utxos.Keys - mine, share);
    SumCongruent(mine, share, MaturedValue(utxos, epoch));
  }

  class UTXOSet {
    var utxos: Utxos
    var byAddress: Index
    var staked: Stakes

    constructor ()
      ensures utxos == map[] && byAddress == map[] && staked == map[]
    {
      utxos, byAddress, staked := map[], map[], map[];
    }

    method AddUtxo(txHash: Bytes, outputIndex: int, output: TxOutput, epoch: int)
      modifies this`utxos, this`byAddress
      ensures utxos == old(utxos)[OutRef(txHash, outputIndex) := Created(output, epoch)]
      ensures byAddress == IndexWith(old(byAddress), output.address, OutRef(txHash, outputIndex))
    {
      var key := OutRef(txHash, outputIndex);
      utxos := utxos[key := Utxo(output, epoch, false, None)];
      byAddress := byAddress[output.address := IndexAt(byAddress, output.address) + {key}];
    }

    method SpendUtxo(txHash: Bytes, outputIndex: int, spender: Bytes) returns (r: Option<Utxo>)
      modifies this`utxos, this`byAddress
      ensures r.Some? <==> Spendable(old(utxos), OutRef(txHash, outputIndex))
      ensures r.None? ==> utxos == old(utxos) && byAddress == old(byAddress)
      ensures r.Some? ==>
                var key := OutRef(txHash, outputIndex);
                && utxos == Spend(old(utxos), key, spender) && r.value == utxos[key]
                && byAddress == IndexWithout(old(byAddress), r.value.output.address, key)
    {
      var key := OutRef(txHash, outputIndex);
      if key !in utxos {
        return None;
      }
      if utxos[key].isSpent {
        return None;
      }
      utxos := utxos[key := utxos[key].(isSpent := true, spentBy := Some(spender))];
      var address := utxos[key].output.address;
      byAddress := byAddress[address := IndexAt(byAddress, address) - {key}];
      return Some(utxos[key]);
    }

    method GetUtxo(txHash: Bytes, outputIndex: int) returns (r: Option<Utxo>)
      ensures r == if OutRef(txHash, outputIndex) in utxos then Some(utxos[OutRef(txHash, outputIndex)]) else None
    {
      var key := OutRef(txHash, outputIndex);
      r := if key in utxos then Some(utxos[key]) else None;
    }

    /** The loop over the address index yields the balance of the full scan. */
    method GetBalance(address: Bytes, currentEpoch: int) returns (total: int)
      ensures total == Sum(IndexAt(byAddress, address), MaturedValue(utxos, currentEpoch))
      ensures Indexed(utxos, byAddress) ==> total == Balance(utxos, address, currentEpoch)
    {
      ghost var f := MaturedValue(utxos, currentEpoch);
      var keys := IndexAt(byAddress, address);
      total := 0;
      while keys != {}
        invariant total + Sum(keys, f) == Sum(IndexAt(byAddress, address), f)
        decreases |keys|
      {
        var key :| key in keys;
        SumRemove(keys, key, f);
        if key in utxos && !utxos[key].isSpent {
          if utxos[key].output.lockEpoch <= currentEpoch {
            total := total + utxos[key].output.value;
          }
        }
        keys := keys - {key};
      }
      if Indexed(utxos, byAddress) {
        IndexedBalance(utxos, byAddress, address, currentEpoch);
      }
    }

    /** The spendable outputs of an address, each once, in no particular order. */
    method GetUtxosForAddress(address: Bytes, currentEpoch: int) returns (result: seq<OutRef>)
      ensures forall i, j :: 0 <= i < j < |result| ==> result[i] != result[j]
      ensures forall r :: r in result <==> r in IndexAt(byAddress, address) && Matured(utxos, r, currentEpoch)
    {
      var all := IndexAt(byAddress, address);
      var keys := all;
      result := [];
      while keys != {}
        invariant keys <= all
        invariant forall i, j :: 0 <= i < j < |result| ==> result[i] != result[j]
        invariant forall r :: r in result <==> r in all && r !in keys && Matured(utxos, r, currentEpoch)
        decreases |keys|
      {
        var key :| key in keys;
        if key in utxos && !utxos[key].isSpent {
          if utxos[key].output.lockEpoch <= currentEpoch {
            result := result + [key];
          }
        }
        keys := keys - {key};
      }
    }

    method AddStake(address: Bytes, amount: int)
      modifies this`staked
      ensures staked == old(staked)[address := StakeOf(old(staked), address) + amount]
    {
      staked := staked[address := StakeOf(staked, address) + amount];
    }

    /** Reading the table creates the entry, also when the withdrawal is refused. */
    method RemoveStake(address: Bytes, amount: int) returns (ok: bool)
      modifies this`staked
      ensures ok <==> StakeOf(old(staked), address) >= amount
      ensures staked == old(staked)[address := StakeOf(old(staked), address) - (if ok then amount else 0)]
    {
      staked := staked[address := StakeOf(staked, address)];
      if staked[address] < amount {
        return false;
      }
      staked := staked[address := staked[address] - amount];
      return true;
    }
  }

  class AuthRegistry {
    var authRoots: map<Bytes, Bytes>
    var registeredAddresses: set<Bytes>
    var rotationCounts: map<Bytes, nat>

    ghost function View(): Registry
      reads this
    {
      Registry(authRoots, registeredAddresses, rotationCounts)
    }

    constructor ()
      ensures View() == Registry(map[], {}, map[])
    {
      authRoots, registeredAddresses, rotationCounts := map[], {}, map[];
    }

    /** One time only: a registered address keeps its root. */
    method RegisterViaTx(address: Bytes, authRoot: Bytes) returns (ok: bool)
      modifies this
      ensures ok <==> address !in old(registeredAddresses)
      ensures View() == RegisterVia(old(View()), address, authRoot)
    {
      if address in registeredAddresses {
        return false;
      }
      registeredAddresses := registeredAddresses + {address};
      authRoots := authRoots[address := authRoot];
      rotationCounts := rotationCounts[address := 0];
      return true;
    }

    method RotateViaTx(address: Bytes, newAuthRoot: Bytes) returns (ok: bool)
      modifies this
      ensures ok <==> address in old(registeredAddresses)
      ensures View() == RotateVia(old(View()), address, newAuthRoot)
    {
      if address !in registeredAddresses {
        return false;
      }
      authRoots := authRoots[address := newAuthRoot];
      rotationCounts := rotationCounts[address := (if address in rotationCounts then rotationCounts[address] else 0) + 1];
      return true;
    }
  }
}
