/** The sharded UTXO set run by one thread: it answers exactly as the plain UTXO set does. */
module Sharded {
  import opened Wrappers
  import opened ByteStrings
  import opened Sums
  import opened Transactions
  import opened Ledger
  import opened UtxoSets

  const NUM_SHARDS: nat := 256

  function ShardOf(txHash: Bytes): (i: nat)
    ensures i < NUM_SHARDS
  {
    if txHash == [] then 0 else txHash[0]
  }

  function Lookup(utxos: Utxos, r: OutRef): Option<Utxo> {
    if r in utxos then Some(utxos[r]) else None
  }

  /** The shards hold together what one table holds, each key in the shard of its hash. */
  ghost predicate Partitions<V>(shards: seq<map<OutRef, V>>, table: map<OutRef, V>) {
    && |shards| == NUM_SHARDS
    && (forall r :: r in table <==> r in shards[ShardOf(r.txHash)])
    && (forall r :: r in table ==> table[r] == shards[ShardOf(r.txHash)][r])
    && (forall i, r :: 0 <= i < NUM_SHARDS && r in shards[i] ==> ShardOf(r.txHash) == i)
  }

  lemma UpdateKeepsPartition<V>(shards: seq<map<OutRef, V>>, table: map<OutRef, V>, r: OutRef, v: V)
    requires Partitions(shards, table)
    ensures var i := ShardOf(r.txHash); Partitions(shards[i := shards[i][r := v]], table[r := v])
  {
  }

  /** The positions of a reference list, grouped by shard. */
  ghost predicate Grouped(groups: map<nat, seq<nat>>, refs: seq<OutRef>, n: nat) {
    && n <= |refs|
    && (forall g, j :: g in groups && 0 <= j < |groups[g]| ==> groups[g][j] < n && ShardOf(refs[groups[g][j]].txHash) == g)
    && (forall i :: 0 <= i < n ==> ShardOf(refs[i].txHash) in groups && i in groups[ShardOf(refs[i].txHash)])
  }

  class ShardedUTXOSet {
    var shards: seq<Utxos>
    var byAddress: Index
    /** What the shards hold together. */
    ghost var table: Utxos

    ghost predicate Valid()
      reads this
    {
      Partitions(shards, table)
    }

    constructor ()
      ensures Valid() && table == map[] && byAddress == map[]
    {
      shards := seq(NUM_SHARDS, _ => map[]);
      byAddress := map[];
      table := map[];
    }

    method AddUtxo(txHash: Bytes, outputIndex: int, output: TxOutput, epoch: int)
      requires Valid()
      modifies this
      ensures Valid() && table == old(table)[OutRef(txHash, outputIndex) := Created(output, epoch)]
      ensures byAddress == IndexWith(old(byAddress), output.address, OutRef(txHash, outputIndex))
    {
      var shardId, key := ShardOf(txHash), OutRef(txHash, outputIndex);
      UpdateKeepsPartition(shards, table, key, Created(output, epoch));
      shards := shards[shardId := shards[shardId][key := Utxo(output, epoch, false, None)]];
      table := table[key := Created(output, epoch)];
      byAddress := byAddress[output.address := IndexAt(byAddress, output.address) + {key}];
    }

    method GetUtxo(txHash: Bytes, outputIndex: int) returns (r: Option<Utxo>)
      requires Valid()
      ensures r == Lookup(table, OutRef(txHash, outputIndex))
    {
      var shardId, key := ShardOf(txHash), OutRef(txHash, outputIndex);
      r := Lookup(shards[shardId], key);
    }

    method SpendUtxo(txHash: Bytes, outputIndex: int, spender: Bytes) returns (r: Option<Utxo>)
      requires Valid()
      modifies this
      ensures Valid() && (r.Some? <==> Spendable(old(table), OutRef(txHash, outputIndex)))
      ensures r.None? ==> table == old(table) && byAddress == old(byAddress)
      ensures r.Some? ==>
                var key := OutRef(txHash, outputIndex);
                && table == Spend(old(table), key, spender) && r.value == table[key]
                && byAddress == IndexWithout(old(byAddress), r.value.output.address, key)
    {
      var shardId, key := ShardOf(txHash), OutRef(txHash, outputIndex);
      var utxo := Lookup(shards[shardId], key);
      if utxo.None? || utxo.value.isSpent {
        return None;
      }
      var spent := utxo.value.(isSpent := true, spentBy := Some(spender));
      UpdateKeepsPartition(shards, table, key, spent);
      shards := shards[shardId := shards[shardId][key := spent]];
      table := table[key := spent];
      byAddress := byAddress[spent.output.address := IndexAt(byAddress, spent.output.address) - {key}];
      return Some(spent);
    }

    /** Groups the references by shard, then visits the shards in any order. */
    method BatchLookup(refs: seq<OutRef>) returns (results: seq<Option<Utxo>>)
      requires Valid()
      ensures |results| == |refs| && forall i :: 0 <= i < |refs| ==> results[i] == Lookup(table, refs[i])
    {
      var groups: map<nat, seq<nat>> := map[];
      for i := 0 to |refs|
        invariant Grouped(groups, refs, i)
      {
        var g := ShardOf(refs[i].txHash);
        var items := (if g in groups then groups[g] else []) + [i];
        assert items[|items| - 1] == i;
        groups := groups[g := items];
      }
      var found := new Option<Utxo>[|refs|](_ => None);
      var rest := groups.Keys;
      while rest != {}
        invariant rest <= groups.Keys
        invariant forall i :: 0 <= i < |refs| && ShardOf(refs[i].txHash) !in rest ==> found[i] == Lookup(table, refs[i])
        decreases |rest|
      {
        var shardId :| shardId in rest;
        var items := groups[shardId];
        for j := 0 to |items|
          invariant forall i :: 0 <= i < |refs| && ShardOf(refs[i].txHash) !in rest ==> found[i] == Lookup(table, refs[i])
          invariant forall k :: 0 <= k < j ==> items[k] < |refs| && found[items[k]] == Lookup(table, refs[items[k]])
        {
          found[items[j]] := Lookup(shards[shardId], refs[items[j]]);
        }
        rest := rest - {shardId};
      }
      results := found[..];
    }

    method GetBalance(address: Bytes, currentEpoch: int) returns (total: int)
      requires Valid()
      ensures total == Sum(IndexAt(byAddress, address), MaturedValue(table, currentEpoch))
      ensures Indexed(table, byAddress) ==> total == Balance(table, address, currentEpoch)
    {
      ghost var f := MaturedValue(table, currentEpoch);
      var keys := IndexAt(byAddress, address);
      total := 0;
      while keys != {}
        invariant total + Sum(keys, f) == Sum(IndexAt(byAddress, address), f)
        decreases |keys|
      {
        var key :| key in keys;
        SumRemove(keys, key, f);
        var utxo := GetUtxo(key.txHash, key.index);
        if utxo.Some? && !utxo.value.isSpent {
          if utxo.value.output.lockEpoch <= currentEpoch {
            total := total + utxo.value.output.value;
          }
        }
        keys := keys - {key};
      }
      if Indexed(table, byAddress) {
        IndexedBalance(table, byAddress, address, currentEpoch);
      }
    }
  }

  // -------------------------------------------------------------- refinement

  datatype Call =
    | Add(key: OutRef, output: TxOutput, epoch: int)
    | SpendOne(key: OutRef, spender: Bytes)
    | AskBalance(address: Bytes, currentEpoch: int)
    | Look(key: OutRef)

  /** Both sets side by side: one call made on each gives the same answer and keeps table and index equal. */
  method CallBoth(plain: UTXOSet, sharded: ShardedUTXOSet, c: Call)
    returns (a: Option<Utxo>, b: Option<Utxo>, x: int, y: int)
    requires sharded.Valid() && sharded.table == plain.utxos && sharded.byAddress == plain.byAddress
    modifies plain, sharded
    ensures sharded.Valid() && sharded.table == plain.utxos && sharded.byAddress == plain.byAddress
    ensures a == b && x == y
  {
    a, b, x, y := None, None, 0, 0;
    match c {
      case Add(key, output, epoch) =>
        plain.AddUtxo(key.txHash, key.index, output, epoch);
        sharded.AddUtxo(key.txHash, key.index, output, epoch);
      case SpendOne(key, spender) =>
        a := plain.SpendUtxo(key.txHash, key.index, spender);
        b := sharded.SpendUtxo(key.txHash, key.index, spender);
      case AskBalance(address, currentEpoch) =>
        x := plain.GetBalance(address, currentEpoch);
        y := sharded.GetBalance(address, currentEpoch);
      case Look(key) =>
        a := plain.GetUtxo(key.txHash, key.index);
        b := sharded.GetUtxo(key.txHash, key.index);
    }
  }
}
