/** Crash recovery: after any chain of stored blocks the rebuilt set and the SQL flags agree with the live set. */
module Recovery {
  import opened Wrappers
  import opened ByteStrings
  import opened Merkle
  import opened AuthTree
  import opened Transactions
  import opened Ledger
  import opened Blocks
  import opened Storage

  /** Blocks applied to the live state and stored in the tables one after the other. */
  datatype History = History(hs: Hashes, blocks: seq<ChainBlock<Tx>>, live: seq<State>, dbs: seq<Db>, prevs: seq<Bytes>)

  ghost predicate StoredAt(hist: History, id: Tx -> Bytes, i: int) {
    && 0 <= i < |hist.blocks| == |hist.prevs| && |hist.live| == |hist.dbs| == |hist.blocks| + 1
    && ApplyAll(hist.hs, hist.live[i], hist.blocks[i].txs) == Done(hist.live[i + 1])
    && LinksTo(hist.dbs[i].blocks, hist.prevs[i])
    && hist.dbs[i + 1] == StoreBlock(hist.dbs[i], id, hist.blocks[i], hist.prevs[i])
  }

  ghost predicate IsHistory(hist: History, id: Tx -> Bytes) {
    && |hist.prevs| == |hist.blocks| && |hist.live| == |hist.dbs| == |hist.blocks| + 1
    && hist.live[0] == EMPTY && hist.dbs[0] == EMPTY_DB
    && forall i :: 0 <= i < |hist.blocks| ==> StoredAt(hist, id, i)
  }

  /** Hashes of the transactions of the first n blocks. */
  function HashesBefore<T>(id: T -> Bytes, blocks: seq<ChainBlock<T>>, n: nat): set<Bytes>
    requires n <= |blocks|
    decreases n
  {
    if n == 0 then {} else HashesBefore(id, blocks, n - 1) + HashSet(id, blocks[n - 1].txs)
  }

  /** Increasing epochs and different block hashes. */
  ghost predicate InOrder<T>(blocks: seq<ChainBlock<T>>) {
    && (forall i, j :: 0 <= i < j < |blocks| ==> blocks[i].epoch < blocks[j].epoch)
    && (forall i, j :: 0 <= i < j < |blocks| ==> blocks[i].blockHash != blocks[j].blockHash)
  }

  /** All transactions of the blocks. */
  function TxsOf(blocks: seq<ChainBlock<Tx>>): set<Tx> {
    set b, tx | b in blocks && tx in b.txs :: tx
  }

  /**
   * In order, with storable transactions and without a collision among the hashes taken of them. A transaction may
   * occur more than once.
   */
  ghost predicate IsChain(h: Sha256, blocks: seq<ChainBlock<Tx>>) {
    && InOrder(blocks) && (forall tx :: tx in TxsOf(blocks) ==> Storable(tx) && WellFormed(tx))
    && CollisionFree(h, HashedOf(blocks))
  }

  function HashedOf(blocks: seq<ChainBlock<Tx>>): set<Bytes> {
    set tx | tx in TxsOf(blocks) :: TxPreimage(tx)
  }

  lemma ChainIsCoherent(id: Tx -> Bytes, h: Sha256, blocks: seq<ChainBlock<Tx>>)
    requires IsTxHash(id, h) && IsChain(h, blocks)
    ensures Coherent(id, TxsOf(blocks))
  {
    var all := TxsOf(blocks);
    forall a, b | a in all && b in all && id(a) == id(b) ensures SameRecord(a, b) {
      assert TxHash(h, a) == id(a) && TxHash(h, b) == id(b);
      SameHashSameBody(h, a, b, HashedOf(blocks));
      BodyGivesRecord(a, b);
    }
  }

  lemma BodyGivesRecord(a: Tx, b: Tx)
    requires SameBody(a, b)
    ensures SameRecord(a, b)
  {
    assert RefList(a.inputs) == RefList(b.inputs);
  }

  lemma BlockIsAmong(blocks: seq<ChainBlock<Tx>>, i: nat)
    requires i < |blocks|
    ensures AreAmong(blocks[i].txs, TxsOf(blocks))
  {
    forall j | 0 <= j < |blocks[i].txs| ensures blocks[i].txs[j] in TxsOf(blocks) {
      assert blocks[i] in blocks && blocks[i].txs[j] in blocks[i].txs;
    }
  }

  // ---------------------------------------------------------------- block rows

  function PrevOf<T>(blocks: seq<ChainBlock<T>>, i: nat): Bytes
    requires i < |blocks|
  {
    if i == 0 then ZERO_DIGEST else OrZeros(blocks[i - 1].blockHash)
  }

  type BlockTable = map<nat, BlockRow>

  type TxLists = map<nat, seq<Bytes>>

  ghost predicate RowHolds<T>(table: BlockTable, lists: TxLists, id: T -> Bytes, blocks: seq<ChainBlock<T>>, i: nat)
    requires i < |blocks|
  {
    && blocks[i].epoch in table
    && table[blocks[i].epoch] == BlockRow(blocks[i].blockHash, PrevOf(blocks, i), |blocks[i].txs|)
    && At(lists, blocks[i].epoch) == TxHashes(id, blocks[i].txs)
  }

  ghost predicate HasEpoch<T>(blocks: seq<ChainBlock<T>>, n: nat, e: nat, i: int) {
    0 <= i < n && i < |blocks| && blocks[i].epoch == e
  }

  ghost predicate IsKnownEpoch<T>(blocks: seq<ChainBlock<T>>, n: nat, e: nat) {
    exists i :: HasEpoch(blocks, n, e, i)
  }

  /** The block tables hold exactly the first n blocks. */
  ghost predicate BlocksHold<T>(table: BlockTable, lists: TxLists, id: T -> Bytes, blocks: seq<ChainBlock<T>>, n: nat) {
    && n <= |blocks|
    && (forall i :: 0 <= i < n ==> RowHolds(table, lists, id, blocks, i))
    && (forall e: nat :: e in table || e in lists ==> IsKnownEpoch(blocks, n, e))
  }

  lemma {:induction false} RecordingKeepsBlocks(id: Tx -> Bytes, dbs: seq<Db>, txs: seq<Tx>, n: nat)
    requires Records(id, dbs, txs) && n <= |txs|
    ensures dbs[n].blocks == dbs[0].blocks && dbs[n].blockTxs == dbs[0].blockTxs
    decreases n
  {
    if n > 0 {
      RecordingKeepsBlocks(id, dbs, txs, n - 1);
      assert RecordsAt(id, dbs, txs, n - 1);
    }
  }

  lemma NoBlocksYet<T>(table: BlockTable, blocks: seq<ChainBlock<T>>)
    requires forall e: nat :: e in table ==> IsKnownEpoch(blocks, 0, e)
    ensures |table| == 0
  {
    if e: nat :| e in table {
      assert false;
    }
  }

  /** The latest stored block is the one before. */
  lemma LinkIsPrevious<T>(table: BlockTable, lists: TxLists, id: T -> Bytes, blocks: seq<ChainBlock<T>>, n: nat, prevHash: Bytes)
    requires InOrder(blocks) && n < |blocks| && BlocksHold(table, lists, id, blocks, n) && LinksTo(table, prevHash)
    ensures prevHash == PrevOf(blocks, n)
  {
    if n == 0 {
      NoBlocksYet(table, blocks);
    } else {
      assert RowHolds(table, lists, id, blocks, n - 1);
      var last := blocks[n - 1].epoch;
      assert last in table.Keys;
      var e :| LinksToEpoch(table, e, prevHash);
      assert IsKnownEpoch(blocks, n, e);
      var i :| HasEpoch(blocks, n, e, i);
      assert i == n - 1;
    }
  }

  lemma InsertKeepsBlocks<T>(table: BlockTable, lists: TxLists, id: T -> Bytes, blocks: seq<ChainBlock<T>>, n: nat)
    requires InOrder(blocks) && n < |blocks| && BlocksHold(table, lists, id, blocks, n)
    ensures var b := blocks[n];
            && b.epoch !in table && !HashTaken(table, b.blockHash) && At(lists, b.epoch) == []
            && BlocksHold(table[b.epoch := BlockRow(b.blockHash, PrevOf(blocks, n), |b.txs|)],
                          lists[b.epoch := TxHashes(id, b.txs)], id, blocks, n + 1)
  {
    var b := blocks[n];
    EpochIsNew(table, lists, id, blocks, n);
    var newTable := table[b.epoch := BlockRow(b.blockHash, PrevOf(blocks, n), |b.txs|)];
    var newLists := lists[b.epoch := TxHashes(id, b.txs)];
    forall i | 0 <= i < n + 1 ensures RowHolds(newTable, newLists, id, blocks, i) {
      assert i < n ==> RowHolds(table, lists, id, blocks, i);
    }
    forall e: nat | e in newTable || e in newLists ensures IsKnownEpoch(blocks, n + 1, e) {
      MoreEpochs(blocks, n, e);
      assert e == b.epoch || IsKnownEpoch(blocks, n, e);
    }
  }

  lemma MoreEpochs<T>(blocks: seq<ChainBlock<T>>, n: nat, e: nat)
    requires n < |blocks| && (e == blocks[n].epoch || IsKnownEpoch(blocks, n, e))
    ensures IsKnownEpoch(blocks, n + 1, e)
  {
    if e == blocks[n].epoch {
      assert HasEpoch(blocks, n + 1, e, n);
    } else {
      var i :| HasEpoch(blocks, n, e, i);
      assert HasEpoch(blocks, n + 1, e, i);
    }
  }

  lemma EpochIsNew<T>(table: BlockTable, lists: TxLists, id: T -> Bytes, blocks: seq<ChainBlock<T>>, n: nat)
    requires InOrder(blocks) && n < |blocks| && BlocksHold(table, lists, id, blocks, n)
    ensures blocks[n].epoch !in table && blocks[n].epoch !in lists && !HashTaken(table, blocks[n].blockHash)
  {
    forall e: nat | e in table || e in lists
      ensures e != blocks[n].epoch && (e in table ==> table[e].blockHash != blocks[n].blockHash)
    {
      assert IsKnownEpoch(blocks, n, e);
      var i :| HasEpoch(blocks, n, e, i);
      assert RowHolds(table, lists, id, blocks, i);
    }
  }

  lemma InsertOf(recorded: Db, epoch: nat, row: BlockRow, hashes: seq<Bytes>)
    requires epoch !in recorded.blocks && !HashTaken(recorded.blocks, row.blockHash) && At(recorded.blockTxs, epoch) == []
    ensures var after := InsertBlock(recorded, epoch, row, hashes);
            && after.blocks == recorded.blocks[epoch := row] && after.blockTxs == recorded.blockTxs[epoch := hashes]
            && after.outputs == recorded.outputs && after.inputs == recorded.inputs && after.transactions == recorded.transactions
  {
    assert hashes + [] == hashes;
  }

  // --------------------------------------------------------------- the invariant

  ghost predicate BlockStored(db: Db, id: Tx -> Bytes, blocks: seq<ChainBlock<Tx>>, i: int) {
    0 <= i < |blocks| && forall tx :: tx in blocks[i].txs ==> TxStored(db, id, tx)
  }

  ghost predicate InStep(hist: History, id: Tx -> Bytes, n: nat)
    requires n < |hist.live| && n < |hist.dbs| && n <= |hist.blocks|
  {
    && InStepAt(hist.live[n].utxos, hist.dbs[n], id, TxsOf(hist.blocks), HashesBefore(id, hist.blocks, n))
    && BlocksHold(hist.dbs[n].blocks, hist.dbs[n].blockTxs, id, hist.blocks, n)
  }

  lemma {:induction false} HashIsBefore(id: Tx -> Bytes, blocks: seq<ChainBlock<Tx>>, n: nat, i: nat, tx: Tx)
    requires i < n <= |blocks| && tx in blocks[i].txs
    ensures id(tx) in HashesBefore(id, blocks, n)
    decreases n
  {
    if i < n - 1 {
      HashIsBefore(id, blocks, n - 1, i, tx);
    } else {
      var j :| 0 <= j < |blocks[i].txs| && blocks[i].txs[j] == tx;
    }
  }

  /** With all blocks stored, every transaction is found again. */
  lemma EveryBlockStored(hist: History, id: Tx -> Bytes, i: nat)
    requires InStepHolds(hist, id) && i < |hist.blocks|
    ensures BlockStored(hist.dbs[|hist.blocks|], id, hist.blocks, i)
  {
    var n := |hist.blocks|;
    BlockIsAmong(hist.blocks, i);
    forall tx | tx in hist.blocks[i].txs ensures TxStored(hist.dbs[n], id, tx) {
      HashIsBefore(id, hist.blocks, n, i, tx);
    }
  }

  ghost predicate AllBlocksStored(db: Db, id: Tx -> Bytes, blocks: seq<ChainBlock<Tx>>) {
    forall i :: 0 <= i < |blocks| ==> BlockStored(db, id, blocks, i)
  }

  ghost predicate InStepHolds(hist: History, id: Tx -> Bytes) {
    |hist.live| == |hist.dbs| == |hist.blocks| + 1 && InStep(hist, id, |hist.blocks|)
  }

  /** What storing block m adds to the block tables. */
  lemma StoreAddsRow(hist: History, id: Tx -> Bytes, m: nat, dbs: seq<Db>)
    requires IsHistory(hist, id) && IsChain(hist.hs.h256, hist.blocks) && m < |hist.blocks|
    requires BlocksHold(hist.dbs[m].blocks, hist.dbs[m].blockTxs, id, hist.blocks, m)
    requires Records(id, dbs, hist.blocks[m].txs) && dbs[0] == hist.dbs[m]
    requires dbs[|hist.blocks[m].txs|] == RecordTxs(hist.dbs[m], id, hist.blocks[m].txs)
    ensures BlocksHold(hist.dbs[m + 1].blocks, hist.dbs[m + 1].blockTxs, id, hist.blocks, m + 1)
    ensures var recorded, after := dbs[|hist.blocks[m].txs|], hist.dbs[m + 1];
            after.outputs == recorded.outputs && after.inputs == recorded.inputs && after.transactions == recorded.transactions
  {
    var b, table, lists := hist.blocks[m], hist.dbs[m].blocks, hist.dbs[m].blockTxs;
    assert StoredAt(hist, id, m);
    RecordingKeepsBlocks(id, dbs, b.txs, |b.txs|);
    LinkIsPrevious(table, lists, id, hist.blocks, m, hist.prevs[m]);
    InsertKeepsBlocks(table, lists, id, hist.blocks, m);
    InsertOf(dbs[|b.txs|], b.epoch, BlockRow(b.blockHash, PrevOf(hist.blocks, m), |b.txs|), TxHashes(id, b.txs));
  }

  lemma StepInStep(hist: History, id: Tx -> Bytes, m: nat)
    requires IsTxHash(id, hist.hs.h256) && IsHistory(hist, id) && IsChain(hist.hs.h256, hist.blocks) && m < |hist.blocks|
    requires InStep(hist, id, m)
    ensures InStep(hist, id, m + 1)
  {
    var txs := hist.blocks[m].txs;
    assert StoredAt(hist, id, m);
    var states := StatesOf(hist.hs, hist.live[m], txs);
    var dbs := TablesOf(hist.dbs[m], id, txs);
    ChainIsCoherent(id, hist.hs.h256, hist.blocks);
    BlockIsAmong(hist.blocks, m);
    BlockKeepsStep(hist.hs, id, states, dbs, txs, |txs|, TxsOf(hist.blocks), HashesBefore(id, hist.blocks, m));
    assert txs[..|txs|] == txs;
    StoreAddsRow(hist, id, m, dbs);
    SameTables(hist.live[m + 1].utxos, dbs[|txs|], hist.dbs[m + 1], id, TxsOf(hist.blocks), HashesBefore(id, hist.blocks, m + 1));
  }

  lemma SameTables(live: Utxos, recorded: Db, after: Db, id: Tx -> Bytes, all: set<Tx>, known: set<Bytes>)
    requires after.outputs == recorded.outputs && after.inputs == recorded.inputs && after.transactions == recorded.transactions
    requires InStepAt(live, recorded, id, all, known)
    ensures InStepAt(live, after, id, all, known)
  {
    forall tx | tx in all && id(tx) in known ensures TxStored(after, id, tx) {
      assert TxStored(recorded, id, tx);
    }
  }

  lemma {:induction false} StaysInStep(hist: History, id: Tx -> Bytes, n: nat)
    requires IsTxHash(id, hist.hs.h256) && IsHistory(hist, id) && IsChain(hist.hs.h256, hist.blocks) && n <= |hist.blocks|
    ensures InStep(hist, id, n)
    decreases n
  {
    if n > 0 {
      StaysInStep(hist, id, n - 1);
      StepInStep(hist, id, n - 1);
    }
  }

  // ------------------------------------------------------------------- rebuild

  /** Blocks 0..n-1 are exactly those of epochs below e. */
  ghost predicate Reached<T>(blocks: seq<ChainBlock<T>>, n: nat, e: nat) {
    && n <= |blocks| && (forall i :: 0 <= i < n ==> blocks[i].epoch < e) && (n < |blocks| ==> blocks[n].epoch >= e)
  }

  lemma RebuildBlock(hist: History, id: Tx -> Bytes, db: Db, u: Utxos, n: nat)
    requires IsTxHash(id, hist.hs.h256) && IsHistory(hist, id) && IsChain(hist.hs.h256, hist.blocks) && n < |hist.blocks|
    requires BlockStored(db, id, hist.blocks, n) && SetsAgree(hist.live[n].utxos, u)
    ensures SetsAgree(hist.live[n + 1].utxos, RebuildTxs(db, u, TxHashes(id, hist.blocks[n].txs), hist.blocks[n].epoch))
  {
    var txs := hist.blocks[n].txs;
    StaysInStep(hist, id, n);
    assert StoredAt(hist, id, n);
    var states := StatesOf(hist.hs, hist.live[n], txs);
    assert txs[..|txs|] == txs;
    ChainIsCoherent(id, hist.hs.h256, hist.blocks);
    BlockIsAmong(hist.blocks, n);
    BlockRebuild(hist.hs, id, states, u, db, txs, |txs|, TxsOf(hist.blocks), HashesBefore(id, hist.blocks, n), hist.blocks[n].epoch);
  }

  lemma NoBlockAt<T>(table: BlockTable, lists: TxLists, id: T -> Bytes, blocks: seq<ChainBlock<T>>, n: nat, e: nat)
    requires InOrder(blocks) && BlocksHold(table, lists, id, blocks, |blocks|)
    requires Reached(blocks, n, e + 1) && (n > 0 ==> blocks[n - 1].epoch != e)
    ensures e !in table && Reached(blocks, n, e)
  {
    if e in table {
      assert IsKnownEpoch(blocks, |blocks|, e);
      var i :| HasEpoch(blocks, |blocks|, e, i);
      assert false;
    }
  }

  ghost predicate ReplaysAt(db: Db, sets: seq<Utxos>, e: int) {
    && 0 <= e < |sets| - 1
    && sets[e + 1] == if e in db.blocks then RebuildTxs(db, sets[e], At(db.blockTxs, e), e) else sets[e]
  }

  /** The sets that rebuilding goes through, one per epoch. */
  ghost predicate Replays(db: Db, sets: seq<Utxos>) {
    |sets| > 0 && sets[0] == map[] && forall e :: 0 <= e < |sets| - 1 ==> ReplaysAt(db, sets, e)
  }

  lemma {:induction false} SetsOf(db: Db, n: nat) returns (sets: seq<Utxos>)
    ensures |sets| == n + 1 && Replays(db, sets) && sets[n] == Rebuild(db, n)
  {
    if n == 0 {
      sets := [map[]];
    } else {
      var before := SetsOf(db, n - 1);
      sets := before + [Rebuild(db, n)];
      forall e | 0 <= e < n ensures ReplaysAt(db, sets, e) {
        assert e < n - 1 ==> ReplaysAt(db, before, e);
      }
    }
  }

  /** One more epoch: its block, if it has one, is replayed. */
  lemma RebuildOneEpoch(hist: History, id: Tx -> Bytes, db: Db, sets: seq<Utxos>, n: nat, e: nat)
    requires IsTxHash(id, hist.hs.h256) && IsHistory(hist, id) && IsChain(hist.hs.h256, hist.blocks) && n < |hist.blocks|
    requires BlocksHold(db.blocks, db.blockTxs, id, hist.blocks, |hist.blocks|)
    requires AllBlocksStored(db, id, hist.blocks) && Replays(db, sets) && e + 1 < |sets|
    requires hist.blocks[n].epoch == e && SetsAgree(hist.live[n].utxos, sets[e])
    ensures SetsAgree(hist.live[n + 1].utxos, sets[e + 1])
  {
    assert ReplaysAt(db, sets, e);
    assert RowHolds(db.blocks, db.blockTxs, id, hist.blocks, n) && BlockStored(db, id, hist.blocks, n);
    RebuildBlock(hist, id, db, sets[e], n);
  }

  lemma ReachedBefore<T>(blocks: seq<ChainBlock<T>>, n: nat, e: nat)
    requires InOrder(blocks) && Reached(blocks, n, e)
    ensures e == 0 ==> n == 0
    ensures e > 0 && n > 0 && blocks[n - 1].epoch == e - 1 ==> Reached(blocks, n - 1, e - 1)
  {
    assert n > 0 ==> blocks[0].epoch < e;
  }

  lemma {:induction false} RebuildReaches(hist: History, id: Tx -> Bytes, db: Db, sets: seq<Utxos>, n: nat, e: nat)
    requires IsTxHash(id, hist.hs.h256) && IsHistory(hist, id) && IsChain(hist.hs.h256, hist.blocks)
    requires BlocksHold(db.blocks, db.blockTxs, id, hist.blocks, |hist.blocks|)
    requires AllBlocksStored(db, id, hist.blocks) && Replays(db, sets) && e < |sets|
    requires Reached(hist.blocks, n, e)
    ensures SetsAgree(hist.live[n].utxos, sets[e])
    decreases e
  {
    ReachedBefore(hist.blocks, n, e);
    if e > 0 {
      if n > 0 && hist.blocks[n - 1].epoch == e - 1 {
        RebuildReaches(hist, id, db, sets, n - 1, e - 1);
        RebuildOneEpoch(hist, id, db, sets, n - 1, e - 1);
      } else {
        NoBlockAt(db.blocks, db.blockTxs, id, hist.blocks, n, e - 1);
        RebuildReaches(hist, id, db, sets, n, e - 1);
        assert ReplaysAt(db, sets, e - 1);
      }
    }
  }

  /** One past the highest stored epoch. */
  function Height<T>(blocks: seq<ChainBlock<T>>): nat {
    if blocks == [] then 0 else blocks[|blocks| - 1].epoch + 1
  }

  /**
   * After any chain of blocks applied completely from the empty ledger: the set rebuilt from the tables (outputs
   * before inputs) and the spent flags of the SQL rows (set as blocks are stored) say about every output what the
   * live set (inputs before outputs) says, and every stored block links to the one before it.
   */
  lemma RecoveryAgrees(hist: History, id: Tx -> Bytes)
    requires IsTxHash(id, hist.hs.h256) && IsHistory(hist, id) && IsChain(hist.hs.h256, hist.blocks)
    ensures var n := |hist.blocks|;
            && SetsAgree(hist.live[n].utxos, Rebuild(hist.dbs[n], Height(hist.blocks)))
            && SqlAgrees(hist.live[n].utxos, hist.dbs[n].outputs)
            && forall i :: 0 <= i < n ==> RowHolds(hist.dbs[n].blocks, hist.dbs[n].blockTxs, id, hist.blocks, i)
  {
    var n := |hist.blocks|;
    StaysInStep(hist, id, n);
    forall i | 0 <= i < n ensures BlockStored(hist.dbs[n], id, hist.blocks, i) {
      EveryBlockStored(hist, id, i);
    }
    var sets := SetsOf(hist.dbs[n], Height(hist.blocks));
    RebuildReaches(hist, id, hist.dbs[n], sets, n, Height(hist.blocks));
  }
}
