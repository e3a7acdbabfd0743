/** The SQL tables as maps, storing a block, and rebuilding the UTXO set from the tables. */
module Storage {
  import opened Wrappers
  import opened ByteStrings
  import opened AuthTree
  import opened Transactions
  import opened Ledger
  import opened LedgerValue
  import opened LedgerRuns
  import opened Blocks

  // -------------------------------------------------------------------- tables

  /** A row of tx_outputs; the payload of an output is not stored. */
  datatype Row = Row(value: int, address: Bytes, lockEpoch: int, spent: bool, spentBy: Option<Bytes>)

  datatype BlockRow = BlockRow(blockHash: Bytes, prevHash: Bytes, txCount: nat)

  /** Rows with a composite key (hash, index) or (epoch, index) are kept as one sequence per first part. */
  datatype Db = Db(
    transactions: set<Bytes>, inputs: map<Bytes, seq<OutRef>>, outputs: map<Bytes, seq<Row>>,
    blocks: map<nat, BlockRow>, blockTxs: map<nat, seq<Bytes>>, currentEpoch: nat)

  const EMPTY_DB := Db({}, map[], map[], map[], map[], 0)

  function At<K, V>(m: map<K, seq<V>>, k: K): seq<V> {
    if k in m then m[k] else []
  }

  /** INSERT OR REPLACE of rows 0..n-1: rows beyond stay. */
  function Upsert<T>(before: seq<T>, rows: seq<T>): seq<T> {
    rows + (if |before| > |rows| then before[|rows|..] else [])
  }

  function RowOf(o: TxOutput): Row {
    Row(o.value, o.address, o.lockEpoch, false, None)
  }

  function RowsOf(outputs: seq<TxOutput>): (r: seq<Row>)
    ensures |r| == |outputs| && forall i :: 0 <= i < |r| ==> r[i] == RowOf(outputs[i])
  {
    if outputs == [] then [] else RowsOf(outputs[..|outputs| - 1]) + [RowOf(outputs[|outputs| - 1])]
  }

  function RefList(inputs: seq<TxInput>): (r: seq<OutRef>)
    ensures |r| == |inputs| && forall i :: 0 <= i < |r| ==> r[i] == inputs[i].prev
  {
    if inputs == [] then [] else RefList(inputs[..|inputs| - 1]) + [inputs[|inputs| - 1].prev]
  }

  const I64: nat := 0x8000_0000_0000_0000

  predicate InI64(x: int) { 0 <= x < I64 }

  /** Neither to_bytes nor SQLite's 64-bit integers refuse the transaction. */
  predicate Storable(tx: Tx) {
    && Encodable(tx) && tx.version < 256 && |tx.inputs| < 256 && |tx.outputs| < 256
    && InI64(tx.epoch) && InI64(tx.timestamp) && InI64(tx.fee)
    && (forall i :: 0 <= i < |tx.inputs| ==>
          InI64(tx.inputs[i].prev.index) && |tx.inputs[i].signature| < U16 && |tx.inputs[i].publicKey| < U16)
    && (forall i :: 0 <= i < |tx.outputs| ==> InI64(tx.outputs[i].value) && InI64(tx.outputs[i].lockEpoch))
  }

  /** store_transaction: one SQL transaction, rolled back when anything fails. */
  function StoreTx(db: Db, txHash: Bytes, tx: Tx): Db {
    if !Storable(tx) then db
    else
      db.(transactions := db.transactions + {txHash},
          inputs := db.inputs[txHash := Upsert(At(db.inputs, txHash), RefList(tx.inputs))],
          outputs := db.outputs[txHash := Upsert(At(db.outputs, txHash), RowsOf(tx.outputs))])
  }

  /** UPDATE tx_outputs SET spent = 1, spent_by = ? of one row, if it exists. */
  function MarkRow(outputs: map<Bytes, seq<Row>>, r: OutRef, spender: Bytes): map<Bytes, seq<Row>> {
    if r.txHash in outputs && 0 <= r.index < |outputs[r.txHash]| then
      outputs[r.txHash := outputs[r.txHash][r.index := outputs[r.txHash][r.index].(spent := true, spentBy := Some(spender))]]
    else outputs
  }

  function MarkRows(outputs: map<Bytes, seq<Row>>, inputs: seq<TxInput>, spender: Bytes): map<Bytes, seq<Row>> {
    if inputs == [] then outputs
    else MarkRow(MarkRows(outputs, inputs[..|inputs| - 1], spender), inputs[|inputs| - 1].prev, spender)
  }

  /** Store a transaction and mark the outputs it spends. */
  function RecordTx(db: Db, id: Tx -> Bytes, tx: Tx): Db {
    var stored := StoreTx(db, id(tx), tx);
    stored.(outputs := MarkRows(stored.outputs, tx.inputs, id(tx)))
  }

  function RecordTxs(db: Db, id: Tx -> Bytes, txs: seq<Tx>): Db {
    if txs == [] then db else RecordTx(RecordTxs(db, id, txs[..|txs| - 1]), id, txs[|txs| - 1])
  }

  function TxHashes<T>(id: T -> Bytes, txs: seq<T>): (r: seq<Bytes>)
    ensures |r| == |txs| && forall i :: 0 <= i < |r| ==> r[i] == id(txs[i])
  {
    if txs == [] then [] else TxHashes(id, txs[..|txs| - 1]) + [id(txs[|txs| - 1])]
  }

  ghost predicate IsLatest(blocks: map<nat, BlockRow>, e: nat) {
    e in blocks && forall f :: f in blocks ==> f <= e
  }

  /** `prev_block_hash or 32 zero bytes`. */
  function OrZeros(hash: Bytes): Bytes {
    if hash == [] then ZERO_DIGEST else hash
  }

  ghost predicate LinksToEpoch(blocks: map<nat, BlockRow>, e: nat, prevHash: Bytes) {
    IsLatest(blocks, e) && prevHash == OrZeros(blocks[e].blockHash)
  }

  /** The hash that the next stored block links to. */
  ghost predicate LinksTo(blocks: map<nat, BlockRow>, prevHash: Bytes) {
    if |blocks| == 0 then prevHash == ZERO_DIGEST else exists e :: LinksToEpoch(blocks, e, prevHash)
  }

  predicate HashTaken(blocks: map<nat, BlockRow>, blockHash: Bytes) {
    exists e :: e in blocks && blocks[e].blockHash == blockHash
  }

  /** An epoch already stored keeps its row; a block hash stored under another epoch aborts the insertion. */
  function InsertBlock(db: Db, epoch: nat, row: BlockRow, hashes: seq<Bytes>): Db {
    if epoch !in db.blocks && HashTaken(db.blocks, row.blockHash) then db
    else
      db.(blocks := if epoch in db.blocks then db.blocks else db.blocks[epoch := row],
          blockTxs := db.blockTxs[epoch := Upsert(At(db.blockTxs, epoch), hashes)])
  }

  datatype ChainBlock<T> = ChainBlock(epoch: nat, blockHash: Bytes, txs: seq<T>)

  /** store_block_with_transactions, for transactions that can be hashed. */
  function StoreBlock(db: Db, id: Tx -> Bytes, b: ChainBlock<Tx>, prevHash: Bytes): Db {
    var recorded := RecordTxs(db, id, b.txs);
    InsertBlock(recorded, b.epoch, BlockRow(b.blockHash, prevHash, |b.txs|), TxHashes(id, b.txs)).(currentEpoch := b.epoch)
  }

  // ------------------------------------------------------------------- rebuild

  function OutputFrom(row: Row): TxOutput {
    TxOutput(row.value, row.address, row.lockEpoch, [])
  }

  function StoredOutputs(rows: seq<Row>): (r: seq<TxOutput>)
    ensures |r| == |rows| && forall i :: 0 <= i < |r| ==> r[i] == OutputFrom(rows[i])
  {
    if rows == [] then [] else StoredOutputs(rows[..|rows| - 1]) + [OutputFrom(rows[|rows| - 1])]
  }

  /** spend_utxo for each reference; those that cannot be spent are passed over. */
  function SpendEach(utxos: Utxos, refs: seq<OutRef>, spender: Bytes): Utxos {
    if refs == [] then utxos
    else
      var before, r := SpendEach(utxos, refs[..|refs| - 1], spender), refs[|refs| - 1];
      if Spendable(before, r) then Spend(before, r, spender) else before
  }

  /** Outputs before inputs: the reverse of what apply_transaction does. */
  function RebuildTx(db: Db, utxos: Utxos, txHash: Bytes, epoch: nat): Utxos {
    if txHash !in db.transactions then utxos
    else SpendEach(AddOutputs(utxos, txHash, StoredOutputs(At(db.outputs, txHash)), epoch), At(db.inputs, txHash), txHash)
  }

  function RebuildTxs(db: Db, utxos: Utxos, hashes: seq<Bytes>, epoch: nat): Utxos {
    if hashes == [] then utxos
    else RebuildTx(db, RebuildTxs(db, utxos, hashes[..|hashes| - 1], epoch), hashes[|hashes| - 1], epoch)
  }

  /** The set rebuilt from the blocks of epochs 0..n-1. */
  function Rebuild(db: Db, n: nat): Utxos {
    if n == 0 then map[]
    else if n - 1 in db.blocks then RebuildTxs(db, Rebuild(db, n - 1), At(db.blockTxs, n - 1), n - 1)
    else Rebuild(db, n - 1)
  }

  ghost predicate WithoutPayload(utxos: Utxos) {
    forall r :: r in utxos ==> utxos[r].output.data == []
  }

  lemma {:induction false} SpendEachKeepsOutputs(utxos: Utxos, refs: seq<OutRef>, spender: Bytes)
    requires WithoutPayload(utxos)
    ensures WithoutPayload(SpendEach(utxos, refs, spender))
  {
    if refs != [] {
      SpendEachKeepsOutputs(utxos, refs[..|refs| - 1], spender);
    }
  }

  lemma RebuildTxForgets(db: Db, utxos: Utxos, txHash: Bytes, epoch: nat)
    requires WithoutPayload(utxos)
    ensures WithoutPayload(RebuildTx(db, utxos, txHash, epoch))
  {
    var outputs := StoredOutputs(At(db.outputs, txHash));
    var added := AddOutputs(utxos, txHash, outputs, epoch);
    forall r | r in added ensures added[r].output.data == [] {
      AddedEntries(utxos, txHash, outputs, epoch, r);
    }
    SpendEachKeepsOutputs(added, At(db.inputs, txHash), txHash);
  }

  lemma {:induction false} RebuildTxsForgets(db: Db, utxos: Utxos, hashes: seq<Bytes>, epoch: nat)
    requires WithoutPayload(utxos)
    ensures WithoutPayload(RebuildTxs(db, utxos, hashes, epoch))
  {
    if hashes != [] {
      var n := |hashes| - 1;
      RebuildTxsForgets(db, utxos, hashes[..n], epoch);
      RebuildTxForgets(db, RebuildTxs(db, utxos, hashes[..n], epoch), hashes[n], epoch);
    }
  }

  /** The tables do not hold payloads: no output of a rebuilt set has one. */
  lemma {:induction false} RebuildForgetsPayloads(db: Db, n: nat)
    ensures WithoutPayload(Rebuild(db, n))
  {
    if n > 0 {
      RebuildForgetsPayloads(db, n - 1);
      RebuildTxsForgets(db, Rebuild(db, n - 1), At(db.blockTxs, n - 1), n - 1);
    }
  }

  // ---------------------------------------------- three ways to keep the record

  /** What the live set says about an output. */
  function LineOf(utxos: Utxos, r: OutRef): Option<Row> {
    if r in utxos then
      var u := utxos[r];
      Some(Row(u.output.value, u.output.address, u.output.lockEpoch, u.isSpent, u.spentBy))
    else None
  }

  /** What the SQL table says about an output. */
  function SqlLine(outputs: map<Bytes, seq<Row>>, r: OutRef): Option<Row> {
    if r.txHash in outputs && 0 <= r.index < |outputs[r.txHash]| then Some(outputs[r.txHash][r.index]) else None
  }

  /** What one transaction makes of the line of an output. */
  function LineAfter(line: Option<Row>, tx: Tx, txHash: Bytes, r: OutRef): Option<Row> {
    if r.txHash == txHash && 0 <= r.index < |tx.outputs| then Some(RowOf(tx.outputs[r.index]))
    else if r in Refs(tx.inputs) && line.Some? then Some(line.value.(spent := true, spentBy := Some(txHash)))
    else line
  }

  /** All inputs of the transaction can be spent, and none is an output of its own. */
  ghost predicate IsNext(utxos: Utxos, tx: Tx, txHash: Bytes) {
    forall r :: r in Refs(tx.inputs) ==> Spendable(utxos, r) && r.txHash != txHash
  }

  lemma DoneSpendsAll(hs: Hashes, s: State, tx: Tx)
    requires Encodable(tx) && Apply(hs, s, tx).Done?
    ensures Changes(s.utxos, Apply(hs, s, tx).state.utxos, tx, TxHash(hs.h256, tx), Completed)
    ensures forall r :: r in Refs(tx.inputs) ==> Spendable(s.utxos, r)
  {
    SpendsMarkLongestPrefix(s.utxos, tx.inputs, TxHash(hs.h256, tx));
    assert tx.inputs[..|tx.inputs|] == tx.inputs;
  }

  /** The live set: inputs first, then outputs. */
  lemma LiveStep(hs: Hashes, s: State, tx: Tx, r: OutRef)
    requires Encodable(tx) && Apply(hs, s, tx).Done?
    ensures LineOf(Apply(hs, s, tx).state.utxos, r) == LineAfter(LineOf(s.utxos, r), tx, TxHash(hs.h256, tx), r)
  {
    DoneSpendsAll(hs, s, tx);
    EntryAfter(s.utxos, Apply(hs, s, tx).state.utxos, tx, TxHash(hs.h256, tx), Completed, r);
  }

  lemma {:induction false} SpendEachEntry(utxos: Utxos, refs: seq<OutRef>, spender: Bytes, r: OutRef)
    ensures var after := SpendEach(utxos, refs, spender);
            && (r in after <==> r in utxos)
            && (r in utxos ==> after[r] == if r in refs && !utxos[r].isSpent then utxos[r].(isSpent := true, spentBy := Some(spender)) else utxos[r])
  {
    if refs != [] {
      var n := |refs| - 1;
      SpendEachEntry(utxos, refs[..n], spender, r);
      assert refs == refs[..n] + [refs[n]];
    }
  }

  lemma RefListHolds(inputs: seq<TxInput>, r: OutRef)
    ensures r in RefList(inputs) <==> r in Refs(inputs)
  {
    if r in RefList(inputs) {
      var i :| 0 <= i < |inputs| && RefList(inputs)[i] == r;
      assert inputs[i].prev == r;
    }
    if r in Refs(inputs) {
      var i :| 0 <= i < |inputs| && inputs[i].prev == r;
      assert RefList(inputs)[i] == r;
    }
  }

  /** The tables hold the transaction as it was stored, whatever its outputs' spent flags. */
  ghost predicate TxStored(db: Db, id: Tx -> Bytes, tx: Tx) {
    && id(tx) in db.transactions && At(db.inputs, id(tx)) == RefList(tx.inputs)
    && SameOutputs(At(db.outputs, id(tx)), tx.outputs)
  }

  ghost predicate SameOutputs(rows: seq<Row>, outputs: seq<TxOutput>) {
    |rows| == |outputs| && forall i :: 0 <= i < |rows| ==> SameOutput(rows[i], outputs[i])
  }

  predicate SameOutput(row: Row, o: TxOutput) {
    row.value == o.value && row.address == o.address && row.lockEpoch == o.lockEpoch
  }

  /** The rebuilt set: outputs first, then inputs, with the same effect. */
  lemma RebuildStep(db: Db, id: Tx -> Bytes, utxos: Utxos, tx: Tx, epoch: nat, r: OutRef)
    requires TxStored(db, id, tx) && IsNext(utxos, tx, id(tx))
    ensures LineOf(RebuildTx(db, utxos, id(tx), epoch), r) == LineAfter(LineOf(utxos, r), tx, id(tx), r)
  {
    var txHash := id(tx);
    var outputs := StoredOutputs(At(db.outputs, txHash));
    AddedEntries(utxos, txHash, outputs, epoch, r);
    SpendEachEntry(AddOutputs(utxos, txHash, outputs, epoch), RefList(tx.inputs), txHash, r);
    RefListHolds(tx.inputs, r);
    if r.txHash == txHash && 0 <= r.index < |tx.outputs| {
      assert r !in Refs(tx.inputs);
      assert SameOutput(At(db.outputs, txHash)[r.index], tx.outputs[r.index]);
    }
  }

  lemma {:induction false} MarkedLines(outputs: map<Bytes, seq<Row>>, inputs: seq<TxInput>, spender: Bytes, r: OutRef)
    ensures var line := SqlLine(outputs, r);
            SqlLine(MarkRows(outputs, inputs, spender), r)
            == if r in Refs(inputs) && line.Some? then Some(line.value.(spent := true, spentBy := Some(spender))) else line
  {
    if inputs != [] {
      var n := |inputs| - 1;
      MarkedLines(outputs, inputs[..n], spender, r);
      assert r in Refs(inputs) <==> r in Refs(inputs[..n]) || r == inputs[n].prev by {
        RefListHolds(inputs, r);
        RefListHolds(inputs[..n], r);
      }
    }
  }

  /** The SQL table: rows inserted or replaced, then the flags of the inputs set. */
  lemma SqlStep(db: Db, id: Tx -> Bytes, tx: Tx, r: OutRef)
    requires Storable(tx) && |At(db.outputs, id(tx))| <= |tx.outputs|
    requires forall x :: x in Refs(tx.inputs) ==> x.txHash != id(tx)
    ensures SqlLine(RecordTx(db, id, tx).outputs, r) == LineAfter(SqlLine(db.outputs, r), tx, id(tx), r)
  {
    var txHash := id(tx);
    var stored := StoreTx(db, txHash, tx);
    MarkedLines(stored.outputs, tx.inputs, txHash, r);
  }

  // ------------------------------------------------------------- whole blocks

  /** All references known to the table come from the given transactions. */
  ghost predicate KnownTo(utxos: Utxos, known: set<Bytes>) {
    forall r :: r in utxos ==> r.txHash in known
  }

  ghost predicate DbKnownTo(db: Db, known: set<Bytes>) {
    db.outputs.Keys <= known && db.inputs.Keys <= known
  }

  function HashSet<T>(id: T -> Bytes, txs: seq<T>): set<Bytes> {
    set i | 0 <= i < |txs| :: id(txs[i])
  }

  /** Equal hashes mean equal references and outputs: what a collision-free hash gives. */
  ghost predicate Coherent(id: Tx -> Bytes, all: set<Tx>) {
    && (forall tx :: tx in all ==> Storable(tx))
    && forall a, b :: a in all && b in all && id(a) == id(b) ==> SameRecord(a, b)
  }

  ghost predicate SameRecord(a: Tx, b: Tx) {
    RefList(a.inputs) == RefList(b.inputs) && a.outputs == b.outputs
  }

  ghost predicate NamesOthers(id: Tx -> Bytes, tx: Tx) {
    forall x :: x in Refs(tx.inputs) ==> x.txHash != id(tx)
  }

  /** No transaction with a known hash spends an output of its own. */
  ghost predicate Clean(id: Tx -> Bytes, all: set<Tx>, known: set<Bytes>) {
    forall tx :: tx in all && id(tx) in known ==> NamesOthers(id, tx)
  }

  /** Every transaction with a known hash is in the tables. */
  ghost predicate AllStored(db: Db, id: Tx -> Bytes, all: set<Tx>, known: set<Bytes>) {
    forall tx :: tx in all && id(tx) in known ==> TxStored(db, id, tx)
  }

  ghost predicate SqlAgrees(utxos: Utxos, outputs: map<Bytes, seq<Row>>) {
    forall r :: SqlLine(outputs, r) == LineOf(utxos, r)
  }

  ghost predicate SetsAgree(live: Utxos, rebuilt: Utxos) {
    forall r :: LineOf(rebuilt, r) == LineOf(live, r)
  }

  /** Transaction i leads from state i to state i + 1. */
  ghost predicate AppliesAt(hs: Hashes, states: seq<State>, txs: seq<Tx>, i: int) {
    && 0 <= i < |txs| && |states| == |txs| + 1
    && Apply(hs, states[i], txs[i]) == Done(states[i + 1])
  }

  ghost predicate Applies(hs: Hashes, states: seq<State>, txs: seq<Tx>) {
    |states| == |txs| + 1 && forall i :: 0 <= i < |txs| ==> AppliesAt(hs, states, txs, i)
  }

  /** The states a block passes through when it applies completely. */
  lemma {:induction false} StatesOf(hs: Hashes, s: State, txs: seq<Tx>) returns (states: seq<State>)
    requires ApplyAll(hs, s, txs).Done?
    ensures Applies(hs, states, txs) && states[0] == s && states[|txs|] == ApplyAll(hs, s, txs).state
    decreases |txs|
  {
    if txs == [] {
      states := [s];
    } else {
      var t := Apply(hs, s, txs[0]).state;
      var rest := StatesOf(hs, t, txs[1..]);
      states := [s] + rest;
      forall i | 0 <= i < |txs| ensures AppliesAt(hs, states, txs, i) {
        assert i > 0 ==> AppliesAt(hs, rest, txs[1..], i - 1);
      }
    }
  }

  /** `id` is the transaction hash, known only by name where its bytes do not matter. */
  ghost predicate IsTxHash(id: Tx -> Bytes, h: Sha256) {
    forall tx {:trigger TxHash(h, tx)} :: id(tx) == TxHash(h, tx)
  }

  /** What applying the next transaction of a block does to the line of an output. */
  lemma NextLine(hs: Hashes, id: Tx -> Bytes, states: seq<State>, txs: seq<Tx>, n: nat, r: OutRef)
    requires IsTxHash(id, hs.h256) && Applies(hs, states, txs) && n < |txs| && Storable(txs[n])
    ensures LineOf(states[n + 1].utxos, r) == LineAfter(LineOf(states[n].utxos, r), txs[n], id(txs[n]), r)
    ensures forall x :: x in Refs(txs[n].inputs) ==> Spendable(states[n].utxos, x)
  {
    assert AppliesAt(hs, states, txs, n);
    LiveStep(hs, states[n], txs[n], r);
    DoneSpendsAll(hs, states[n], txs[n]);
  }

  lemma SameRecordNames(id: Tx -> Bytes, a: Tx, b: Tx)
    requires SameRecord(a, b) && id(a) == id(b) && NamesOthers(id, a)
    ensures NamesOthers(id, b)
  {
    forall x | x in Refs(b.inputs) ensures x.txHash != id(b) {
      RefListHolds(a.inputs, x);
      RefListHolds(b.inputs, x);
    }
  }

  /**
   * The next transaction does not spend an output of its own: such an output would stem from an earlier transaction of
   * the same hash, which would have spent it as well.
   */
  lemma NextNamesOthers(id: Tx -> Bytes, utxos: Utxos, tx: Tx, all: set<Tx>, known: set<Bytes>)
    requires tx in all && Coherent(id, all) && KnownTo(utxos, known) && Clean(id, all, known)
    requires forall x :: x in Refs(tx.inputs) ==> Spendable(utxos, x)
    ensures IsNext(utxos, tx, id(tx)) && Clean(id, all, known + {id(tx)})
  {
    forall x | x in Refs(tx.inputs) ensures x.txHash != id(tx) {
      assert x.txHash in known;
      assert id(tx) in known ==> NamesOthers(id, tx);
    }
    forall other | other in all && id(other) in known + {id(tx)} ensures NamesOthers(id, other) {
      if id(other) !in known {
        SameRecordNames(id, tx, other);
      }
    }
  }

  lemma HashSetSnoc(id: Tx -> Bytes, txs: seq<Tx>, n: nat)
    requires n < |txs|
    ensures HashSet(id, txs[..n + 1]) == HashSet(id, txs[..n]) + {id(txs[n])}
  {
    assert forall i :: 0 <= i < n ==> txs[..n + 1][i] == txs[..n][i];
    assert txs[..n + 1][n] == txs[n];
    forall x | x in HashSet(id, txs[..n]) ensures x in HashSet(id, txs[..n + 1]) {
      var i :| 0 <= i < n && id(txs[..n][i]) == x;
      assert txs[..n + 1][i] == txs[..n][i];
    }
  }

  lemma LiveKnownNext(hs: Hashes, id: Tx -> Bytes, s: State, tx: Tx, all: set<Tx>, known: set<Bytes>)
    requires IsTxHash(id, hs.h256) && Apply(hs, s, tx).Done? && tx in all && Coherent(id, all)
    requires KnownTo(s.utxos, known) && Clean(id, all, known)
    ensures IsNext(s.utxos, tx, id(tx))
    ensures KnownTo(Apply(hs, s, tx).state.utxos, known + {id(tx)}) && Clean(id, all, known + {id(tx)})
  {
    DoneSpendsAll(hs, s, tx);
    NextNamesOthers(id, s.utxos, tx, all, known);
    assert TxHash(hs.h256, tx) == id(tx);
    forall r | r in Apply(hs, s, tx).state.utxos ensures r.txHash in known + {id(tx)} {
      LiveStep(hs, s, tx, r);
    }
  }

  /** The live references after the first n transactions come from known transactions or from those. */
  lemma {:induction false} LiveKnown(
      hs: Hashes, id: Tx -> Bytes, states: seq<State>, txs: seq<Tx>, n: nat, all: set<Tx>, known: set<Bytes>)
    requires IsTxHash(id, hs.h256) && n <= |txs| && Applies(hs, states, txs) && Coherent(id, all) && AreAmong(txs, all)
    requires KnownTo(states[0].utxos, known) && Clean(id, all, known)
    ensures KnownTo(states[n].utxos, known + HashSet(id, txs[..n])) && Clean(id, all, known + HashSet(id, txs[..n]))
    decreases n
  {
    if n == 0 {
      assert known + HashSet(id, txs[..0]) == known;
    } else {
      LiveKnown(hs, id, states, txs, n - 1, all, known);
      var now := known + HashSet(id, txs[..n - 1]);
      HashSetSnoc(id, txs, n - 1);
      assert known + HashSet(id, txs[..n]) == now + {id(txs[n - 1])};
      assert AppliesAt(hs, states, txs, n - 1);
      LiveKnownNext(hs, id, states[n - 1], txs[n - 1], all, now);
    }
  }

  ghost predicate AreAmong(txs: seq<Tx>, all: set<Tx>) {
    forall i :: 0 <= i < |txs| ==> txs[i] in all
  }

  lemma RecordKeepsKnown(db: Db, id: Tx -> Bytes, tx: Tx, known: set<Bytes>)
    requires DbKnownTo(db, known)
    ensures DbKnownTo(RecordTx(db, id, tx), known + {id(tx)})
  {
    var stored := StoreTx(db, id(tx), tx);
    MarkKeepsKeys(stored.outputs, tx.inputs, id(tx));
  }

  lemma {:induction false} MarkKeepsKeys(outputs: map<Bytes, seq<Row>>, inputs: seq<TxInput>, spender: Bytes)
    ensures MarkRows(outputs, inputs, spender).Keys == outputs.Keys
  {
    if inputs != [] {
      MarkKeepsKeys(outputs, inputs[..|inputs| - 1], spender);
    }
  }

  lemma {:induction false} MarkKeepsOutputs(outputs: map<Bytes, seq<Row>>, inputs: seq<TxInput>, spender: Bytes, k: Bytes, tos: seq<TxOutput>)
    requires SameOutputs(At(outputs, k), tos)
    ensures SameOutputs(At(MarkRows(outputs, inputs, spender), k), tos)
  {
    if inputs != [] {
      MarkKeepsOutputs(outputs, inputs[..|inputs| - 1], spender, k, tos);
    }
  }

  /** A transaction just recorded is there, and those recorded before stay. */
  lemma RecordStores(db: Db, id: Tx -> Bytes, tx: Tx, other: Tx)
    requires Storable(tx) && |At(db.outputs, id(tx))| <= |tx.outputs| && |At(db.inputs, id(tx))| <= |tx.inputs|
    requires if id(other) == id(tx) then SameRecord(tx, other) else TxStored(db, id, other)
    ensures TxStored(RecordTx(db, id, tx), id, other)
  {
    var stored := StoreTx(db, id(tx), tx);
    MarkKeepsOutputs(stored.outputs, tx.inputs, id(tx), id(other), other.outputs);
  }

  /** The tables have no row of the transaction, or those of an equal one. */
  lemma RowsFit(db: Db, id: Tx -> Bytes, tx: Tx, all: set<Tx>, known: set<Bytes>)
    requires tx in all && DbKnownTo(db, known) && AllStored(db, id, all, known)
    ensures |At(db.outputs, id(tx))| <= |tx.outputs| && |At(db.inputs, id(tx))| <= |tx.inputs|
  {
    if id(tx) in known {
      assert TxStored(db, id, tx);
    }
  }

  lemma RecordStoresAll(db: Db, id: Tx -> Bytes, tx: Tx, all: set<Tx>, known: set<Bytes>)
    requires tx in all && Coherent(id, all) && DbKnownTo(db, known) && AllStored(db, id, all, known)
    ensures AllStored(RecordTx(db, id, tx), id, all, known + {id(tx)})
  {
    RowsFit(db, id, tx, all, known);
    forall other | other in all && id(other) in known + {id(tx)} ensures TxStored(RecordTx(db, id, tx), id, other) {
      if id(other) != id(tx) {
        assert TxStored(db, id, other);
      }
      RecordStores(db, id, tx, other);
    }
  }

  ghost predicate RecordsAt(id: Tx -> Bytes, dbs: seq<Db>, txs: seq<Tx>, i: int) {
    0 <= i < |txs| && |dbs| == |txs| + 1 && dbs[i + 1] == RecordTx(dbs[i], id, txs[i])
  }

  ghost predicate Records(id: Tx -> Bytes, dbs: seq<Db>, txs: seq<Tx>) {
    |dbs| == |txs| + 1 && forall i :: 0 <= i < |txs| ==> RecordsAt(id, dbs, txs, i)
  }

  /** The tables after each transaction of a block. */
  lemma {:induction false} TablesOf(db: Db, id: Tx -> Bytes, txs: seq<Tx>) returns (dbs: seq<Db>)
    ensures Records(id, dbs, txs) && dbs[0] == db && dbs[|txs|] == RecordTxs(db, id, txs)
    decreases |txs|
  {
    if txs == [] {
      dbs := [db];
    } else {
      var n := |txs| - 1;
      var before := TablesOf(db, id, txs[..n]);
      dbs := before + [RecordTx(before[n], id, txs[n])];
      forall i | 0 <= i < |txs| ensures RecordsAt(id, dbs, txs, i) {
        assert i < n ==> RecordsAt(id, before, txs[..n], i);
      }
    }
  }

  /** The live set and the tables, after the transactions with the known hashes. */
  ghost predicate InStepAt(live: Utxos, db: Db, id: Tx -> Bytes, all: set<Tx>, known: set<Bytes>) {
    && KnownTo(live, known) && Clean(id, all, known)
    && DbKnownTo(db, known) && AllStored(db, id, all, known) && SqlAgrees(live, db.outputs)
  }

  /** One transaction applied and recorded keeps the live set and the tables in step, new or not. */
  lemma TxKeepsStep(hs: Hashes, id: Tx -> Bytes, s: State, db: Db, tx: Tx, all: set<Tx>, known: set<Bytes>)
    requires IsTxHash(id, hs.h256) && Apply(hs, s, tx).Done? && tx in all && Coherent(id, all)
    requires InStepAt(s.utxos, db, id, all, known)
    ensures InStepAt(Apply(hs, s, tx).state.utxos, RecordTx(db, id, tx), id, all, known + {id(tx)})
  {
    LiveKnownNext(hs, id, s, tx, all, known);
    RecordKeepsKnown(db, id, tx, known);
    RecordStoresAll(db, id, tx, all, known);
    RowsFit(db, id, tx, all, known);
    assert TxHash(hs.h256, tx) == id(tx);
    forall r ensures SqlLine(RecordTx(db, id, tx).outputs, r) == LineOf(Apply(hs, s, tx).state.utxos, r) {
      SqlStep(db, id, tx, r);
      LiveStep(hs, s, tx, r);
      assert SqlLine(db.outputs, r) == LineOf(s.utxos, r);
    }
  }

  /** The tables follow the live set through a block. */
  lemma {:induction false} BlockKeepsStep(
      hs: Hashes, id: Tx -> Bytes, states: seq<State>, dbs: seq<Db>, txs: seq<Tx>, n: nat, all: set<Tx>, known: set<Bytes>)
    requires IsTxHash(id, hs.h256) && n <= |txs| && Applies(hs, states, txs) && Coherent(id, all) && AreAmong(txs, all)
    requires Records(id, dbs, txs) && InStepAt(states[0].utxos, dbs[0], id, all, known)
    ensures InStepAt(states[n].utxos, dbs[n], id, all, known + HashSet(id, txs[..n]))
    decreases n
  {
    if n == 0 {
      assert known + HashSet(id, txs[..0]) == known;
    } else {
      BlockKeepsStep(hs, id, states, dbs, txs, n - 1, all, known);
      var now := known + HashSet(id, txs[..n - 1]);
      HashSetSnoc(id, txs, n - 1);
      assert known + HashSet(id, txs[..n]) == now + {id(txs[n - 1])};
      assert AppliesAt(hs, states, txs, n - 1) && RecordsAt(id, dbs, txs, n - 1);
      TxKeepsStep(hs, id, states[n - 1], dbs[n - 1], txs[n - 1], all, now);
    }
  }

  lemma TakeTake<T>(s: seq<T>, n: nat)
    requires n < |s|
    ensures s[..n + 1][..n] == s[..n]
  {
  }

  /** Rebuilding a block from the tables follows the live set through it. */
  lemma {:induction false} BlockRebuild(
      hs: Hashes, id: Tx -> Bytes, states: seq<State>, u: Utxos, db: Db, txs: seq<Tx>, n: nat, all: set<Tx>, known: set<Bytes>, epoch: nat)
    requires IsTxHash(id, hs.h256) && n <= |txs| && Applies(hs, states, txs) && Coherent(id, all) && AreAmong(txs, all)
    requires KnownTo(states[0].utxos, known) && Clean(id, all, known)
    requires SetsAgree(states[0].utxos, u) && forall tx :: tx in txs ==> TxStored(db, id, tx)
    ensures SetsAgree(states[n].utxos, RebuildTxs(db, u, TxHashes(id, txs[..n]), epoch))
    decreases n
  {
    if n > 0 {
      BlockRebuild(hs, id, states, u, db, txs, n - 1, all, known, epoch);
      LiveKnown(hs, id, states, txs, n - 1, all, known);
      NextIsNext(hs, id, states, txs, n - 1, all, known + HashSet(id, txs[..n - 1]));
      assert txs[n - 1] in txs;
      var rebuilt := RebuildTxs(db, u, TxHashes(id, txs[..n - 1]), epoch);
      RebuildNext(hs, id, states, rebuilt, db, txs, n - 1, epoch);
      TakeTake(txs, n - 1);
      RebuildSnoc(db, u, id, txs, n - 1, epoch);
    }
  }

  lemma NextIsNext(hs: Hashes, id: Tx -> Bytes, states: seq<State>, txs: seq<Tx>, n: nat, all: set<Tx>, known: set<Bytes>)
    requires IsTxHash(id, hs.h256) && n < |txs| && Applies(hs, states, txs) && Coherent(id, all) && AreAmong(txs, all)
    requires KnownTo(states[n].utxos, known) && Clean(id, all, known)
    ensures IsNext(states[n].utxos, txs[n], id(txs[n])) && Storable(txs[n])
  {
    assert AppliesAt(hs, states, txs, n);
    LiveKnownNext(hs, id, states[n], txs[n], all, known);
  }

  lemma RebuildSnoc(db: Db, u: Utxos, id: Tx -> Bytes, txs: seq<Tx>, n: nat, epoch: nat)
    requires n < |txs|
    ensures RebuildTxs(db, u, TxHashes(id, txs[..n + 1]), epoch)
            == RebuildTx(db, RebuildTxs(db, u, TxHashes(id, txs[..n]), epoch), id(txs[n]), epoch)
  {
    TakeTake(txs, n);
    var hashes := TxHashes(id, txs[..n + 1]);
    assert hashes[..n] == TxHashes(id, txs[..n]);
  }

  lemma RebuildNext(hs: Hashes, id: Tx -> Bytes, states: seq<State>, rebuilt: Utxos, db: Db, txs: seq<Tx>, n: nat, epoch: nat)
    requires IsTxHash(id, hs.h256) && Applies(hs, states, txs) && n < |txs| && Storable(txs[n]) && TxStored(db, id, txs[n])
    requires SetsAgree(states[n].utxos, rebuilt) && IsNext(states[n].utxos, txs[n], id(txs[n]))
    ensures SetsAgree(states[n + 1].utxos, RebuildTx(db, rebuilt, id(txs[n]), epoch))
  {
    var tx, txHash := txs[n], id(txs[n]);
    NextCarriesOver(states[n].utxos, rebuilt, tx, txHash);
    forall r ensures LineOf(RebuildTx(db, rebuilt, txHash, epoch), r) == LineOf(states[n + 1].utxos, r) {
      RebuildStep(db, id, rebuilt, tx, epoch, r);
      NextLine(hs, id, states, txs, n, r);
      assert LineOf(rebuilt, r) == LineOf(states[n].utxos, r);
    }
  }

  lemma NextCarriesOver(live: Utxos, rebuilt: Utxos, tx: Tx, txHash: Bytes)
    requires SetsAgree(live, rebuilt) && IsNext(live, tx, txHash)
    ensures IsNext(rebuilt, tx, txHash)
  {
    forall r | r in Refs(tx.inputs) ensures Spendable(rebuilt, r) && r.txHash != txHash {
      assert LineOf(rebuilt, r) == LineOf(live, r);
    }
  }
}
