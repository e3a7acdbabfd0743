/** The storage manager object: its tables, and the loops that store blocks and rebuild the UTXO set. */
module StorageManagers {
  import opened Wrappers
  import opened ByteStrings
  import opened Transactions
  import opened Ledger
  import opened UtxoSets
  import opened Storage

  /** The transaction hash as a function of the transaction. */
  function Ids(h: Sha256): Tx -> Bytes {
    tx => TxHash(h, tx)
  }

  lemma IdsAreHashes(h: Sha256)
    ensures IsTxHash(Ids(h), h)
  {
  }

  /** One past the highest epoch of the block table, 0 when it is empty. */
  ghost predicate IsTop(blocks: map<nat, BlockRow>, top: nat) {
    (forall e: nat :: e in blocks ==> e < top) && (top > 0 ==> top - 1 in blocks)
  }

  class StorageManager {
    const id: Tx -> Bytes
    var transactions: set<Bytes>
    var inputs: map<Bytes, seq<OutRef>>
    var outputs: map<Bytes, seq<Row>>
    var blocks: map<nat, BlockRow>
    var blockTxs: map<nat, seq<Bytes>>
    var currentEpoch: nat
    var utxoSet: UTXOSet

    ghost function View(): Db
      reads this
    {
      Db(transactions, inputs, outputs, blocks, blockTxs, currentEpoch)
    }

    constructor (h: Sha256)
      ensures id == Ids(h) && View() == EMPTY_DB && fresh(utxoSet) && utxoSet.utxos == map[]
    {
      id := Ids(h);
      transactions, inputs, outputs, blocks, blockTxs, currentEpoch := {}, map[], map[], map[], map[], 0;
      utxoSet := new UTXOSet();
    }

    /** A refused transaction leaves the tables as they were. */
    method StoreTransaction(tx: Tx) returns (ok: bool)
      modifies this`transactions, this`inputs, this`outputs
      ensures ok <==> Storable(tx)
      ensures View() == StoreTx(old(View()), id(tx), tx)
    {
      if !Storable(tx) {
        return false;
      }
      var txHash := id(tx);
      transactions := transactions + {txHash};
      inputs := inputs[txHash := Upsert(At(inputs, txHash), RefList(tx.inputs))];
      outputs := outputs[txHash := Upsert(At(outputs, txHash), RowsOf(tx.outputs))];
      return true;
    }

    method MarkOutputSpent(r: OutRef, spender: Bytes)
      modifies this`outputs
      ensures outputs == MarkRow(old(outputs), r, spender)
    {
      if r.txHash in outputs && 0 <= r.index < |outputs[r.txHash]| {
        var rows := outputs[r.txHash];
        outputs := outputs[r.txHash := rows[r.index := rows[r.index].(spent := true, spentBy := Some(spender))]];
      }
    }

    /** Store one transaction of a block and mark what it spends. */
    method Record(tx: Tx)
      modifies this`transactions, this`inputs, this`outputs
      ensures View() == RecordTx(old(View()), id, tx)
    {
      var _ := StoreTransaction(tx);
      ghost var stored := View();
      for k := 0 to |tx.inputs|
        invariant View() == stored.(outputs := MarkRows(stored.outputs, tx.inputs[..k], id(tx)))
      {
        assert tx.inputs[..k + 1][..k] == tx.inputs[..k];
        MarkOutputSpent(tx.inputs[k].prev, id(tx));
      }
      assert tx.inputs[..|tx.inputs|] == tx.inputs;
    }

    /** SELECT MAX(epoch), as one past it. */
    method TopEpoch() returns (top: nat)
      ensures IsTop(blocks, top)
    {
      top := 0;
      var rest := blocks.Keys;
      while rest != {}
        invariant rest <= blocks.Keys
        invariant forall e: nat :: e in blocks && e !in rest ==> e < top
        invariant top > 0 ==> top - 1 in blocks
        decreases |rest|
      {
        var e :| e in rest;
        if e >= top {
          top := e + 1;
        }
        rest := rest - {e};
      }
    }

    /** The hash the next block links to. */
    method PreviousHash() returns (prevHash: Bytes)
      ensures LinksTo(blocks, prevHash)
    {
      var top := TopEpoch();
      if top == 0 {
        NoBlocks(blocks);
        return ZERO_DIGEST;
      }
      assert top - 1 in blocks.Keys;
      prevHash := OrZeros(blocks[top - 1].blockHash);
      assert LinksToEpoch(blocks, top - 1, prevHash);
    }

    method InsertBlockRow(epoch: nat, row: BlockRow, hashes: seq<Bytes>) returns (ok: bool)
      modifies this`blocks, this`blockTxs
      ensures View() == InsertBlock(old(View()), epoch, row, hashes)
    {
      if epoch !in blocks && HashTaken(blocks, row.blockHash) {
        return false;
      }
      if epoch !in blocks {
        blocks := blocks[epoch := row];
      }
      blockTxs := blockTxs[epoch := Upsert(At(blockTxs, epoch), hashes)];
      return true;
    }

    /** False, with the tables partly written, when a transaction cannot be hashed. */
    method StoreBlockWithTransactions(b: ChainBlock<Tx>) returns (ok: bool, ghost prev: Bytes)
      modifies this
      ensures ok <==> forall tx :: tx in b.txs ==> Encodable(tx)
      ensures ok ==> LinksTo(old(blocks), prev) && View() == StoreBlock(old(View()), id, b, prev)
      ensures utxoSet == old(utxoSet)
    {
      prev := [];
      var hashes: seq<Bytes> := [];
      for k := 0 to |b.txs|
        invariant forall j :: 0 <= j < k ==> Encodable(b.txs[j])
        invariant View() == RecordTxs(old(View()), id, b.txs[..k]) && blocks == old(blocks)
        invariant hashes == TxHashes(id, b.txs[..k]) && utxoSet == old(utxoSet)
      {
        assert b.txs[..k + 1][..k] == b.txs[..k];
        assert b.txs[k] in b.txs;
        if !Encodable(b.txs[k]) {
          return false, [];
        }
        Record(b.txs[k]);
        hashes := hashes + [id(b.txs[k])];
      }
      assert b.txs[..|b.txs|] == b.txs;
      var prevHash := PreviousHash();
      prev := prevHash;
      var _ := InsertBlockRow(b.epoch, BlockRow(b.blockHash, prevHash, |b.txs|), hashes);
      currentEpoch := b.epoch;
      ok := true;
    }

    /** Replays one stored transaction: outputs, then inputs. */
    method Replay(target: UTXOSet, txHash: Bytes, epoch: nat)
      modifies target
      ensures target.utxos == RebuildTx(View(), old(target.utxos), txHash, epoch)
    {
      if txHash !in transactions {
        return;
      }
      var outs := StoredOutputs(At(outputs, txHash));
      ghost var before := target.utxos;
      for k := 0 to |outs|
        invariant target.utxos == AddOutputs(before, txHash, outs[..k], epoch)
      {
        assert outs[..k + 1][..k] == outs[..k];
        target.AddUtxo(txHash, k, outs[k], epoch);
      }
      assert outs[..|outs|] == outs;
      var refs := At(inputs, txHash);
      ghost var added := target.utxos;
      for k := 0 to |refs|
        invariant target.utxos == SpendEach(added, refs[..k], txHash)
      {
        assert refs[..k + 1][..k] == refs[..k];
        var _ := target.SpendUtxo(refs[k].txHash, refs[k].index, txHash);
      }
      assert refs[..|refs|] == refs;
    }

    method ReplayBlock(target: UTXOSet, hashes: seq<Bytes>, epoch: nat)
      modifies target
      ensures target.utxos == RebuildTxs(View(), old(target.utxos), hashes, epoch)
    {
      for k := 0 to |hashes|
        invariant target.utxos == RebuildTxs(View(), old(target.utxos), hashes[..k], epoch)
      {
        assert hashes[..k + 1][..k] == hashes[..k];
        Replay(target, hashes[k], epoch);
      }
      assert hashes[..|hashes|] == hashes;
    }

    /** rebuild_utxo_set: the epochs 0..height are replayed into a new set. */
    method RebuildUtxoSet() returns (ghost top: nat)
      modifies this`utxoSet
      ensures fresh(utxoSet) && IsTop(blocks, top) && utxoSet.utxos == Rebuild(View(), top)
    {
      var rebuilt := new UTXOSet();
      var end := TopEpoch();
      for epoch := 0 to end
        invariant rebuilt.utxos == Rebuild(View(), epoch)
      {
        if epoch in blocks {
          ReplayBlock(rebuilt, At(blockTxs, epoch), epoch);
        }
      }
      utxoSet := rebuilt;
      top := end;
    }
  }

  lemma NoBlocks(blocks: map<nat, BlockRow>)
    requires forall e: nat :: e !in blocks
    ensures |blocks| == 0
  {
    assert blocks.Keys == {};
  }
}
