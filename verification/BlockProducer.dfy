/** Filling block templates from the mempool, the coinbase, and applying finished blocks. */
module Blocks {
  import opened Wrappers
  import opened ByteStrings
  import opened Merkle
  import opened MerkleBuild
  import opened AuthTree
  import opened Transactions
  import opened Ledger
  import opened LedgerValue
  import opened LedgerRuns

  const MAX_BLOCK_SIZE: nat := 4 * 1024 * 1024
  const MAX_TXS_PER_BLOCK: nat := 1000
  const COINBASE_REWARD: int := 50_00000000

  // ---------------------------------------------------------- applying a block

  /** Apply the transactions in order; stop at the first that is not applied completely. */
  function ApplyAll(hs: Hashes, s: State, txs: seq<Tx>): Applied
    decreases |txs|
  {
    if txs == [] then Done(s)
    else match Apply(hs, s, txs[0])
         case Done(t) => ApplyAll(hs, t, txs[1..])
         case Stopped(t) => Stopped(t)
         case Crashed(t) => Crashed(t)
  }

  /** What a transaction that was let in satisfies in the state it was checked against. */
  ghost predicate Acceptable(utxos: Utxos, tx: Tx) {
    && Encodable(tx) && tx.outputs != [] && (tx.txType == RotateAuth ==> tx.inputs != [])
    && forall r :: r in Refs(tx.inputs) ==> Spendable(utxos, r)
  }

  lemma LetInIsAcceptable(hs: Hashes, s: State, e: Event)
    requires Encodable(e.tx) && IsLetIn(hs, s, e)
    ensures Acceptable(s.utxos, e.tx)
  {
    LetInPaysForItself(hs, s, e);
  }

  /** An acceptable transaction is applied completely exactly when it repeats no input. */
  lemma AcceptableApplies(hs: Hashes, s: State, tx: Tx)
    requires Acceptable(s.utxos, tx)
    ensures Apply(hs, s, tx).Done? <==> DistinctInputs(tx.inputs)
    ensures var txHash := TxHash(hs.h256, tx);
            Apply(hs, s, tx).Done? ==> Changes(s.utxos, Apply(hs, s, tx).state.utxos, tx, txHash, Completed)
  {
    var txHash := TxHash(hs.h256, tx);
    var n := SpentCount(s.utxos, tx.inputs, txHash);
    ApplyChanges(hs, s, tx);
    SpendsMarkLongestPrefix(s.utxos, tx.inputs, txHash);
    if n < |tx.inputs| {
      assert tx.inputs[n].prev in Refs(tx.inputs);
      var i :| 0 <= i < n && tx.inputs[..n][i].prev == tx.inputs[n].prev;
      assert tx.inputs[i].prev == tx.inputs[n].prev;
    } else {
      assert tx.inputs[..n] == tx.inputs;
      FullSpendIsDone(hs, s, tx);
    }
  }

  lemma FullSpendIsDone(hs: Hashes, s: State, tx: Tx)
    requires Acceptable(s.utxos, tx) && SpentCount(s.utxos, tx.inputs, TxHash(hs.h256, tx)) == |tx.inputs|
    ensures Apply(hs, s, tx).Done?
  {
    var txHash := TxHash(hs.h256, tx);
    SpendsMarkLongestPrefix(s.utxos, tx.inputs, txHash);
    if tx.inputs != [] {
      assert tx.inputs[0].prev in Refs(tx.inputs);
      AddedEntries(AfterSpends(s.utxos, tx.inputs, txHash), txHash, tx.outputs, tx.epoch, tx.inputs[0].prev);
    }
  }

  /** A transaction with other inputs stays acceptable: new outputs only make more references spendable. */
  lemma AcceptableStays(before: Utxos, after: Utxos, tx: Tx, txHash: Bytes, other: Tx)
    requires Acceptable(before, other) && Refs(tx.inputs) !! Refs(other.inputs)
    requires Changes(before, after, tx, txHash, Completed)
    ensures Acceptable(after, other)
  {
    forall r | r in Refs(other.inputs) ensures Spendable(after, r) {
      EntryAfter(before, after, tx, txHash, Completed, r);
    }
  }

  ghost predicate DisjointTxs(txs: seq<Tx>) {
    forall i, j :: 0 <= i < j < |txs| ==> Refs(txs[i].inputs) !! Refs(txs[j].inputs)
  }

  /**
   * Transactions with pairwise disjoint inputs, each checked only against the state before the block, apply
   * completely one after the other exactly when none of them repeats an input.
   */
  lemma {:induction false} BlockAppliesIff(hs: Hashes, s: State, txs: seq<Tx>)
    requires DisjointTxs(txs) && forall tx :: tx in txs ==> Acceptable(s.utxos, tx)
    ensures ApplyAll(hs, s, txs).Done? <==> forall tx :: tx in txs ==> DistinctInputs(tx.inputs)
    decreases |txs|
  {
    if txs != [] {
      var first := txs[0];
      assert first in txs;
      AcceptableApplies(hs, s, first);
      if DistinctInputs(first.inputs) {
        var t := Apply(hs, s, first).state;
        forall tx | tx in txs[1..] ensures Acceptable(t.utxos, tx) {
          var i :| 0 <= i < |txs[1..]| && txs[1..][i] == tx;
          assert tx == txs[i + 1] && tx in txs;
          AcceptableStays(s.utxos, t.utxos, first, TxHash(hs.h256, first), tx);
        }
        BlockAppliesIff(hs, t, txs[1..]);
        assert txs == [first] + txs[1..];
      }
    }
  }

  // ------------------------------------------------------------ a block in a run

  /**
   * Events m..n are a block: a reward that can be hashed, then transactions checked against the state before the
   * block.
   */
  ghost predicate IsBlock(run: Run, m: nat, n: nat)
    requires m < n <= |run.events| && n < |run.states|
  {
    && IsReward(run.events[m].tx) && Encodable(run.events[m].tx)
    && (forall i :: m < i < n ==> InBlock(run, m, i))
    && (forall i, j :: m < i < j < n ==> Refs(run.events[i].tx.inputs) !! Refs(run.events[j].tx.inputs))
  }

  ghost predicate InBlock(run: Run, m: nat, i: int)
    requires m < |run.states|
  {
    && 0 <= i < |run.events| && run.events[i].checkedAt == m
    && Validate(run.hs, run.states[m], run.events[i].tx, run.events[i].epoch) == Valid
    && run.events[i].tx.txType !in {Coinbase, Slash} && DistinctInputs(run.events[i].tx.inputs)
  }

  /** Every type but COINBASE hashes the transaction before it can answer that it is valid. */
  lemma ValidIsEncodable(hs: Hashes, s: State, tx: Tx, epoch: int)
    requires Validate(hs, s, tx, epoch) == Valid && tx.txType != Coinbase
    ensures Encodable(tx)
  {
  }

  lemma LetInCompletes(hs: Hashes, checked: State, s: State, e: Event)
    requires IsLetIn(hs, checked, e) && Acceptable(s.utxos, e.tx) && DistinctInputs(e.tx.inputs)
    ensures EffectOf(hs, checked, s, e) == Completed
  {
    AcceptableApplies(hs, s, e.tx);
  }

  lemma CompletesAt(run: Run, m: nat, n: nat, k: nat)
    requires Admissible(run) && m <= k < n <= |run.events| && IsBlock(run, m, n)
    requires Acceptable(run.states[k].utxos, run.events[k].tx)
    ensures run.effects[k] == Completed
  {
    assert k > m ==> InBlock(run, m, k);
    assert Moves(run, k);
    LetInCompletes(run.hs, run.states[run.events[k].checkedAt], run.states[k], run.events[k]);
  }

  lemma AcceptableAtFirst(run: Run, m: nat, n: nat, i: nat)
    requires Admissible(run) && m <= i < n <= |run.events| && IsBlock(run, m, n)
    ensures Acceptable(run.states[m].utxos, run.events[i].tx)
  {
    assert i > m ==> InBlock(run, m, i);
    if i > m {
      ValidIsEncodable(run.hs, run.states[m], run.events[i].tx, run.events[i].epoch);
    }
    LetInIsAcceptable(run.hs, run.states[m], run.events[i]);
  }

  lemma StillAcceptable(run: Run, m: nat, n: nat, k: nat, i: nat)
    requires Admissible(run) && m <= k < i < n <= |run.events| && IsBlock(run, m, n)
    requires run.effects[k] == Completed && Acceptable(run.states[k].utxos, run.events[i].tx)
    ensures Acceptable(run.states[k + 1].utxos, run.events[i].tx)
  {
    RunChanges(run, k);
    AcceptableStays(run.states[k].utxos, run.states[k + 1].utxos, run.events[k].tx, HashAt(run, k), run.events[i].tx);
  }

  /** Every transaction of such a block is applied completely. */
  lemma {:induction false} BlockCompletes(run: Run, m: nat, n: nat, k: nat)
    requires Admissible(run) && m <= k <= n <= |run.events| && m < n && IsBlock(run, m, n)
    ensures forall i :: m <= i < k ==> run.effects[i] == Completed
    ensures forall i :: k <= i < n ==> Acceptable(run.states[k].utxos, run.events[i].tx)
    decreases k
  {
    if k == m {
      forall i | m <= i < n ensures Acceptable(run.states[m].utxos, run.events[i].tx) {
        AcceptableAtFirst(run, m, n, i);
      }
    } else {
      BlockCompletes(run, m, n, k - 1);
      CompletesAt(run, m, n, k - 1);
      forall i | k <= i < n ensures Acceptable(run.states[k].utxos, run.events[i].tx) {
        StillAcceptable(run, m, n, k - 1, i);
      }
    }
  }

  /** Fees of events a..b. */
  function Fees(run: Run, a: nat, b: nat): int
    requires b <= |run.events|
    decreases b
  {
    if b <= a then 0 else Fees(run, a, b - 1) + run.events[b - 1].tx.fee
  }

  lemma StepInBlock(run: Run, m: nat, n: nat, k: nat)
    requires Admissible(run) && m <= k < n <= |run.events| && IsBlock(run, m, n) && run.effects[k] == Completed
    ensures k == m ==> Unspent(run.states[k + 1].utxos) == Unspent(run.states[k].utxos) + TotalOutput(run.events[m].tx.outputs)
    ensures k > m ==> Unspent(run.states[k + 1].utxos) <= Unspent(run.states[k].utxos) - run.events[k].tx.fee
  {
    StepOverwritesNothing(run, k);
    RunChanges(run, k);
    ChangeConserves(run.states[k].utxos, run.states[k + 1].utxos, run.events[k].tx, HashAt(run, k), run.effects[k]);
    if k > m {
      assert InBlock(run, m, k);
      AlwaysNonNegative(run, k);
      RunBurns(run, k);
    }
  }

  lemma {:induction false} BlockValue(run: Run, m: nat, n: nat, k: nat)
    requires Admissible(run) && m < k <= n <= |run.events| && IsBlock(run, m, n)
    ensures Unspent(run.states[k].utxos) <= Unspent(run.states[m].utxos) + TotalOutput(run.events[m].tx.outputs) - Fees(run, m + 1, k)
    decreases k
  {
    BlockCompletes(run, m, n, k);
    StepInBlock(run, m, n, k - 1);
    if k > m + 1 {
      BlockValue(run, m, n, k - 1);
    }
  }

  /** A block whose coinbase pays the base reward plus its fees raises the unspent value by at most the base reward. */
  lemma BlockRaisesAtMostReward(run: Run, m: nat, n: nat)
    requires Admissible(run) && m < n <= |run.events| && IsBlock(run, m, n)
    requires TotalOutput(run.events[m].tx.outputs) == COINBASE_REWARD + Fees(run, m + 1, n)
    ensures Unspent(run.states[n].utxos) <= Unspent(run.states[m].utxos) + COINBASE_REWARD
    ensures forall i :: m <= i < n ==> run.effects[i] == Completed
  {
    BlockValue(run, m, n, n);
    BlockCompletes(run, m, n, n);
  }
}

/** The template and producer objects. */
module Producers {
  import opened Wrappers
  import opened ByteStrings
  import opened Merkle
  import opened MerkleBuild
  import opened AuthTree
  import opened Transactions
  import opened Ledger
  import opened LedgerValue
  import opened LedgerRuns
  import opened Pools
  import opened Mempools
  import opened UtxoSets
  import opened Validators
  import opened Blocks

  function FeeSum(txs: seq<Tx>): int {
    if txs == [] then 0 else FeeSum(txs[..|txs| - 1]) + txs[|txs| - 1].fee
  }

  function SizeSum(txs: seq<Tx>): nat {
    if txs == [] then 0 else SizeSum(txs[..|txs| - 1]) + Size(txs[|txs| - 1])
  }

  function HashesOf(h: Sha256, txs: seq<Tx>): (r: seq<Bytes>)
    ensures |r| == |txs|
  {
    if txs == [] then [] else HashesOf(h, txs[..|txs| - 1]) + [TxHash(h, txs[|txs| - 1])]
  }

  method HashAll(h: Sha256, txs: seq<Tx>) returns (hashes: seq<Bytes>)
    ensures hashes == HashesOf(h, txs)
  {
    hashes := [];
    for i := 0 to |txs|
      invariant hashes == HashesOf(h, txs[..i])
    {
      assert txs[..i + 1][..i] == txs[..i];
      hashes := hashes + [TxHash(h, txs[i])];
    }
    assert txs[..|txs|] == txs;
  }

  predicate HasRoom(txs: seq<Tx>, tx: Tx) {
    |txs| < MAX_TXS_PER_BLOCK && SizeSum(txs) + Size(tx) <= MAX_BLOCK_SIZE
  }

  class BlockTemplate {
    const epoch: int
    var transactions: seq<Tx>
    var totalFees: int
    var totalSize: nat

    ghost predicate Valid()
      reads this
    {
      && totalFees == FeeSum(transactions) && totalSize == SizeSum(transactions)
      && |transactions| <= MAX_TXS_PER_BLOCK && totalSize <= MAX_BLOCK_SIZE
    }

    constructor (epoch: int)
      ensures Valid() && this.epoch == epoch && transactions == []
    {
      this.epoch := epoch;
      transactions, totalFees, totalSize := [], 0, 0;
    }

    method AddTransaction(tx: Tx) returns (ok: bool)
      requires Valid()
      modifies this
      ensures Valid() && ok == HasRoom(old(transactions), tx)
      ensures transactions == if ok then old(transactions) + [tx] else old(transactions)
    {
      if |transactions| >= MAX_TXS_PER_BLOCK {
        return false;
      }
      if totalSize + Size(tx) > MAX_BLOCK_SIZE {
        return false;
      }
      assert (transactions + [tx])[..|transactions|] == transactions;
      transactions := transactions + [tx];
      totalFees := totalFees + tx.fee;
      totalSize := totalSize + Size(tx);
      return true;
    }
  }

  /** What filling a template makes of a list of candidates. */
  datatype Filling = Filling(transactions: seq<Tx>, rejected: seq<Tx>)

  /** The check every candidate gets: against the same state, whatever was picked before. */
  function Checker(hs: Hashes, s: State, epoch: int): Tx -> Verdict {
    tx => Validate(hs, s, tx, epoch)
  }

  /** Keeps what passes the check and fits; the walk ends when the block is full. */
  function Fill(check: Tx -> Verdict, candidates: seq<Tx>, f: Filling): Filling
    decreases |candidates|
  {
    if candidates == [] then f
    else
      var tx := candidates[0];
      if check(tx) != Valid then Fill(check, candidates[1..], f.(rejected := f.rejected + [tx]))
      else if HasRoom(f.transactions, tx) then Fill(check, candidates[1..], f.(transactions := f.transactions + [tx]))
      else f
  }

  ghost predicate AllValid(check: Tx -> Verdict, txs: seq<Tx>) {
    forall tx :: tx in txs ==> Encodable(tx) && check(tx) == Valid
  }

  ghost predicate NotTakenYet(txs: seq<Tx>, rest: seq<Tx>) {
    forall i, j :: 0 <= i < |txs| && 0 <= j < |rest| ==> Refs(txs[i].inputs) !! Refs(rest[j].inputs)
  }

  /** The filled template holds valid transactions with pairwise disjoint inputs. */
  lemma {:induction false} FillKeepsDisjoint(check: Tx -> Verdict, candidates: seq<Tx>, f: Filling)
    requires DisjointTxs(candidates) && (forall tx :: tx in candidates ==> Encodable(tx))
    requires DisjointTxs(f.transactions) && NotTakenYet(f.transactions, candidates) && AllValid(check, f.transactions)
    ensures var g := Fill(check, candidates, f); DisjointTxs(g.transactions) && AllValid(check, g.transactions)
    decreases |candidates|
  {
    if candidates != [] {
      var tx, rest := candidates[0], candidates[1..];
      assert tx in candidates;
      assert DisjointTxs(rest) && forall t :: t in rest ==> t in candidates;
      if check(tx) != Valid {
        FillKeepsDisjoint(check, rest, f.(rejected := f.rejected + [tx]));
      } else if HasRoom(f.transactions, tx) {
        FillKeepsDisjoint(check, rest, f.(transactions := f.transactions + [tx]));
      }
    }
  }

  /** The candidates that pass the check, and those that fail it. */
  function Sifted(check: Tx -> Verdict, candidates: seq<Tx>, pass: bool): seq<Tx> {
    if candidates == [] then []
    else (if (check(candidates[0]) == Valid) == pass then [candidates[0]] else []) + Sifted(check, candidates[1..], pass)
  }

  lemma SiftedFront(check: Tx -> Verdict, candidates: seq<Tx>, n: nat, pass: bool)
    requires 0 < n <= |candidates|
    ensures Sifted(check, candidates[..n], pass)
            == (if (check(candidates[0]) == Valid) == pass then [candidates[0]] else []) + Sifted(check, candidates[1..][..n - 1], pass)
  {
    assert candidates[..n][1..] == candidates[1..][..n - 1];
  }

  /** The block is full for a candidate. */
  ghost predicate Full(txs: seq<Tx>, tx: Tx) {
    |txs| >= 1000 || SizeSum(txs) + Size(tx) > 4194304
  }

  /** From f to g the first n candidates were sifted, and the walk stopped there only because the block was full. */
  ghost predicate Filled(check: Tx -> Verdict, candidates: seq<Tx>, f: Filling, g: Filling, n: nat) {
    && n <= |candidates|
    && g.transactions == f.transactions + Sifted(check, candidates[..n], true)
    && g.rejected == f.rejected + Sifted(check, candidates[..n], false)
    && (n < |candidates| ==> check(candidates[n]) == Valid && Full(g.transactions, candidates[n]))
  }

  /** Filling takes the valid ones among the first n candidates in their order and rejects the others of these. */
  lemma {:induction false} FillTakesValid(check: Tx -> Verdict, candidates: seq<Tx>, f: Filling) returns (n: nat)
    ensures Filled(check, candidates, f, Fill(check, candidates, f), n)
    decreases |candidates|
  {
    if candidates == [] || (check(candidates[0]) == Valid && !HasRoom(f.transactions, candidates[0])) {
      n := 0;
    } else {
      var tx, rest := candidates[0], candidates[1..];
      var next := if check(tx) != Valid then f.(rejected := f.rejected + [tx]) else f.(transactions := f.transactions + [tx]);
      var k := FillTakesValid(check, rest, next);
      n := k + 1;
      FilledNext(check, candidates, f, next, Fill(check, rest, next), k);
    }
  }

  lemma FilledNext(check: Tx -> Verdict, candidates: seq<Tx>, f: Filling, next: Filling, g: Filling, k: nat)
    requires candidates != [] && Filled(check, candidates[1..], next, g, k)
    requires next == if check(candidates[0]) != Valid then f.(rejected := f.rejected + [candidates[0]])
                     else f.(transactions := f.transactions + [candidates[0]])
    ensures Filled(check, candidates, f, g, k + 1)
  {
    SiftedFront(check, candidates, k + 1, true);
    SiftedFront(check, candidates, k + 1, false);
  }

  /** The filled template respects both limits. */
  lemma {:induction false} FillFits(check: Tx -> Verdict, candidates: seq<Tx>, f: Filling)
    requires |f.transactions| <= 1000 && SizeSum(f.transactions) <= 4194304
    ensures var g := Fill(check, candidates, f); |g.transactions| <= 1000 && SizeSum(g.transactions) <= 4194304
    decreases |candidates|
  {
    if candidates != [] {
      var tx := candidates[0];
      if check(tx) != Valid {
        FillFits(check, candidates[1..], f.(rejected := f.rejected + [tx]));
      } else if HasRoom(f.transactions, tx) {
        assert (f.transactions + [tx])[..|f.transactions|] == f.transactions;
        FillFits(check, candidates[1..], f.(transactions := f.transactions + [tx]));
      }
    }
  }

  /** The coinbase pays the producer 50 tokens and the fees of the block, locked for 100 epochs, and no one else. */
  lemma RewardPaysProducer(epoch: int, txs: seq<Tx>, address: Bytes, timestamp: int, nonce: Bytes)
    ensures var tx := RewardTx(epoch, FeeSum(txs), address, timestamp, nonce);
            && tx.txType == Coinbase && tx.inputs == [] && |tx.outputs| == 1 && tx.outputs[0].address == address
            && TotalOutput(tx.outputs) == 5_000_000_000 + FeeSum(txs)
            && tx.outputs[0].lockEpoch == epoch + 100 && tx.epoch == epoch && tx.fee == 0
  {
    var tx := RewardTx(epoch, FeeSum(txs), address, timestamp, nonce);
    assert TotalOutput(tx.outputs[..0]) == 0;
  }

  /** The coinbase that build_block puts before the transactions. */
  function RewardTx(epoch: int, totalFees: int, address: Bytes, timestamp: int, nonce: Bytes): Tx {
    Tx(1, Coinbase, [], [TxOutput(COINBASE_REWARD + totalFees, address, epoch + 100, [])], epoch, timestamp, 0, nonce)
  }

  /**
   * Main result on templates: filled from a good mempool and put behind its coinbase, a block applies completely
   * if and only if none of its transactions repeats an input.
   */
  lemma FilledBlockApplies(hs: Hashes, s: State, epoch: int, rate: Rate, p: Pool<Tx>, maxSize: int, reward: Tx)
    requires Good(TxRules(hs.h256, rate), p, maxSize)
    requires Encodable(reward) && IsReward(reward)
    ensures forall e :: e in p.priority ==> e.hash in p.transactions
    ensures var candidates := Selection(TxRules(hs.h256, rate), p.transactions, p.priority, MAX_BLOCK_SIZE);
            var txs := Fill(Checker(hs, s, epoch), candidates, Filling([], [])).transactions;
            ApplyAll(hs, s, [reward] + txs).Done? <==> forall tx :: tx in txs ==> DistinctInputs(tx.inputs)
  {
    SelectionIsDisjoint(TxRules(hs.h256, rate), p, maxSize, MAX_BLOCK_SIZE);
    var candidates := Selection(TxRules(hs.h256, rate), p.transactions, p.priority, MAX_BLOCK_SIZE);
    var txs := Fill(Checker(hs, s, epoch), candidates, Filling([], [])).transactions;
    CandidatesDisjoint(hs.h256, rate, candidates);
    FillKeepsDisjoint(Checker(hs, s, epoch), candidates, Filling([], []));
    BlockWithReward(hs, s, epoch, reward, txs);
  }

  lemma CandidatesDisjoint(h: Sha256, rate: Rate, candidates: seq<Tx>)
    requires PairwiseDisjoint(TxRules(h, rate), candidates)
    requires forall t :: t in candidates ==> TxRules(h, rate).hashOf(t).Some?
    ensures DisjointTxs(candidates) && forall t :: t in candidates ==> Encodable(t)
  {
    forall i, j | 0 <= i < j < |candidates| ensures Refs(candidates[i].inputs) !! Refs(candidates[j].inputs) {
      assert TxRules(h, rate).refsOf(candidates[i]) !! TxRules(h, rate).refsOf(candidates[j]);
    }
  }

  lemma BlockWithReward(hs: Hashes, s: State, epoch: int, reward: Tx, txs: seq<Tx>)
    requires Encodable(reward) && IsReward(reward)
    requires DisjointTxs(txs) && AllValid(Checker(hs, s, epoch), txs)
    ensures ApplyAll(hs, s, [reward] + txs).Done? <==> forall tx :: tx in txs ==> DistinctInputs(tx.inputs)
  {
    var all := [reward] + txs;
    forall tx | tx in all ensures Acceptable(s.utxos, tx) {
      LetInIsAcceptable(hs, s, Event(tx, epoch, 0));
    }
    BlockAppliesIff(hs, s, all);
    assert all[0] == reward && all[1..] == txs;
    assert forall tx :: tx in all <==> tx == reward || tx in txs;
  }

  // ------------------------------------------------------- value of built blocks

  /** Events m..n of a run are the given transactions, each checked against the state before the block. */
  ghost predicate RunsBlock(run: Run, m: nat, n: nat, epoch: int, block: seq<Tx>) {
    && m <= n <= |run.events| && n - m == |block|
    && forall i :: m <= i < n ==> run.events[i] == Event(block[i - m], epoch, m)
  }

  lemma {:induction false} FeesAreSum(run: Run, m: nat, k: nat, epoch: int, txs: seq<Tx>)
    requires k <= |txs| && m + 1 + |txs| <= |run.events|
    requires forall i :: 0 <= i < |txs| ==> run.events[m + 1 + i].tx == txs[i]
    ensures Fees(run, m + 1, m + 1 + k) == FeeSum(txs[..k])
  {
    if k > 0 {
      FeesAreSum(run, m, k - 1, epoch, txs);
      assert txs[..k][..k - 1] == txs[..k - 1];
    }
  }

  lemma FilledInBlock(run: Run, m: nat, n: nat, epoch: int, reward: Tx, txs: seq<Tx>, i: nat)
    requires IsRun(run) && RunsBlock(run, m, n, epoch, [reward] + txs) && m < i < n
    requires AllValid(Checker(run.hs, run.states[m], epoch), txs)
    requires forall tx :: tx in txs ==> tx.txType !in {Coinbase, Slash} && DistinctInputs(tx.inputs)
    ensures InBlock(run, m, i) && run.events[i].tx == txs[i - m - 1]
  {
    var tx := txs[i - m - 1];
    assert ([reward] + txs)[i - m] == tx;
    assert run.events[i] == Event(tx, epoch, m);
    assert tx in txs;
  }

  /** What filling yields is a block in the sense of the run theorems. */
  lemma FilledIsBlock(run: Run, m: nat, n: nat, epoch: int, reward: Tx, txs: seq<Tx>)
    requires IsRun(run) && RunsBlock(run, m, n, epoch, [reward] + txs) && IsReward(reward) && Encodable(reward)
    requires DisjointTxs(txs) && AllValid(Checker(run.hs, run.states[m], epoch), txs)
    requires forall tx :: tx in txs ==> tx.txType !in {Coinbase, Slash} && DistinctInputs(tx.inputs)
    ensures IsBlock(run, m, n)
  {
    forall i | m < i < n ensures InBlock(run, m, i) && run.events[i].tx == txs[i - m - 1] {
      FilledInBlock(run, m, n, epoch, reward, txs, i);
    }
    assert run.events[m] == Event(([reward] + txs)[0], epoch, m);
  }

  lemma {:induction false} FeesNotNegative(check: Tx -> Verdict, hs: Hashes, s: State, epoch: int, txs: seq<Tx>)
    requires check == Checker(hs, s, epoch) && AllValid(check, txs) && forall tx :: tx in txs ==> tx.txType != Coinbase
    ensures FeeSum(txs) >= 0
  {
    if txs != [] {
      var n := |txs| - 1;
      FeesNotNegative(check, hs, s, epoch, txs[..n]);
      assert txs[n] in txs && check(txs[n]) == Validate(hs, s, txs[n], epoch);
      ValidStructure(txs[n]);
    }
  }

  /**
   * The block that a producer builds from its pool, coinbase included, raises the unspent value by at most the base
   * reward, whatever it contains but slashings, coinbases and transactions that repeat an input. That the coinbase can
   * be hashed is what it takes for build_block not to raise.
   */
  lemma BuiltBlockRaisesAtMostReward(
      run: Run, m: nat, n: nat, rate: Rate, p: Pool<Tx>, maxSize: int, epoch: int, address: Bytes, timestamp: int, nonce: Bytes, txs: seq<Tx>)
    requires Admissible(run) && m < |run.states| && Good(TxRules(run.hs.h256, rate), p, maxSize)
    requires forall e :: e in p.priority ==> e.hash in p.transactions
    requires var candidates := Selection(TxRules(run.hs.h256, rate), p.transactions, p.priority, MAX_BLOCK_SIZE);
             txs == Fill(Checker(run.hs, run.states[m], epoch), candidates, Filling([], [])).transactions
    requires forall tx :: tx in txs ==> tx.txType !in {Coinbase, Slash} && DistinctInputs(tx.inputs)
    requires var reward := RewardTx(epoch, FeeSum(txs), address, timestamp, nonce);
             Encodable(reward) && RunsBlock(run, m, n, epoch, [reward] + txs)
    ensures Unspent(run.states[n].utxos) <= Unspent(run.states[m].utxos) + COINBASE_REWARD
    ensures forall i :: m <= i < n ==> run.effects[i] == Completed
  {
    var rules, check := TxRules(run.hs.h256, rate), Checker(run.hs, run.states[m], epoch);
    var reward := RewardTx(epoch, FeeSum(txs), address, timestamp, nonce);
    SelectionIsDisjoint(rules, p, maxSize, MAX_BLOCK_SIZE);
    var candidates := Selection(rules, p.transactions, p.priority, MAX_BLOCK_SIZE);
    CandidatesDisjoint(run.hs.h256, rate, candidates);
    FillKeepsDisjoint(check, candidates, Filling([], []));
    FeesNotNegative(check, run.hs, run.states[m], epoch, txs);
    FilledIsBlock(run, m, n, epoch, reward, txs);
    RewardPays(run, m, n, epoch, reward, txs);
    BlockRaisesAtMostReward(run, m, n);
  }

  lemma RewardPays(run: Run, m: nat, n: nat, epoch: int, reward: Tx, txs: seq<Tx>)
    requires RunsBlock(run, m, n, epoch, [reward] + txs) && reward.outputs != [] && |reward.outputs| == 1
    requires reward.outputs[0].value == COINBASE_REWARD + FeeSum(txs)
    ensures m < n && TotalOutput(run.events[m].tx.outputs) == COINBASE_REWARD + Fees(run, m + 1, n)
  {
    var block := [reward] + txs;
    assert run.events[m] == Event(block[0], epoch, m);
    assert reward.outputs[..0] == [];
    forall i | 0 <= i < |txs| ensures run.events[m + 1 + i].tx == txs[i] {
      assert run.events[m + 1 + i] == Event(block[1 + i], epoch, m);
    }
    FeesAreSum(run, m, |txs|, epoch, txs);
    assert txs[..|txs|] == txs;
  }

  /** Along the application of a block no output key is taken already. */
  ghost predicate FreshAll(hs: Hashes, s: State, txs: seq<Tx>)
    decreases |txs|
  {
    txs != [] ==>
      && FreshIfSpent(s.utxos, txs[0], TxHash(hs.h256, txs[0]))
      && (Apply(hs, s, txs[0]).Done? ==> FreshAll(hs, Apply(hs, s, txs[0]).state, txs[1..]))
  }

  /** After k transactions, the rest of the block is to be applied to the state `now`. */
  ghost predicate Remains(hs: Hashes, start: State, txs: seq<Tx>, k: nat, now: State)
    requires k <= |txs|
  {
    && ApplyAll(hs, start, txs) == ApplyAll(hs, now, txs[k..])
    && (FreshAll(hs, start, txs) ==> FreshAll(hs, now, txs[k..]))
  }

  lemma RemainsNext(hs: Hashes, start: State, txs: seq<Tx>, k: nat, now: State)
    requires k < |txs| && Remains(hs, start, txs, k, now)
    ensures FreshAll(hs, start, txs) ==> FreshIfSpent(now.utxos, txs[k], TxHash(hs.h256, txs[k]))
    ensures match Apply(hs, now, txs[k])
            case Done(t) => Remains(hs, start, txs, k + 1, t)
            case other => ApplyAll(hs, start, txs) == other
  {
    assert txs[k..][0] == txs[k] && txs[k..][1..] == txs[k + 1..];
  }

  predicate AllEncodable(txs: seq<Tx>) {
    forall tx :: tx in txs ==> Encodable(tx)
  }

  /** Progress of the walk: k candidates seen, `now` gathered; `full` once one did not fit. */
  ghost predicate FilledSoFar(check: Tx -> Verdict, candidates: seq<Tx>, start: Filling, k: nat, full: bool, now: Filling) {
    && k <= |candidates|
    && Fill(check, candidates, start) == if full then now else Fill(check, candidates[k..], now)
  }

  lemma FillNext(check: Tx -> Verdict, candidates: seq<Tx>, start: Filling, k: nat, now: Filling)
    requires FilledSoFar(check, candidates, start, k, false, now) && k < |candidates|
    ensures var tx := candidates[k];
            if check(tx) != Valid
            then FilledSoFar(check, candidates, start, k + 1, false, now.(rejected := now.rejected + [tx]))
            else if HasRoom(now.transactions, tx)
            then FilledSoFar(check, candidates, start, k + 1, false, now.(transactions := now.transactions + [tx]))
            else FilledSoFar(check, candidates, start, k, true, now)
  {
    assert candidates[k..][0] == candidates[k] && candidates[k..][1..] == candidates[k + 1..];
  }

  datatype Considered = Included | NoRoom | Dropped

  class BlockProducer {
    const hs: Hashes
    const rate: Rate
    const mempool: Mempool
    const txValidator: TransactionValidator
    var blocksProduced: nat
    var txsIncluded: nat
    var txsRejected: nat

    ghost predicate Valid()
      reads mempool
    {
      mempool.Valid() && mempool.rules == TxRules(hs.h256, rate) && txValidator.hs == hs
    }

    constructor (hs: Hashes, rate: Rate, mempool: Mempool, txValidator: TransactionValidator)
      requires mempool.Valid() && mempool.rules == TxRules(hs.h256, rate) && txValidator.hs == hs
      ensures Valid() && this.mempool == mempool && this.txValidator == txValidator && this.hs == hs && this.rate == rate
    {
      this.hs := hs;
      this.rate := rate;
      this.mempool := mempool;
      this.txValidator := txValidator;
      blocksProduced, txsIncluded, txsRejected := 0, 0, 0;
    }

    ghost function Chain(): State
      reads txValidator.utxoSet, txValidator.authRegistry
    {
      txValidator.View()
    }

    /** Drops an invalid candidate from the mempool. */
    method Reject(tx: Tx)
      requires Valid()
      modifies mempool
      ensures Valid() && mempool.transactions == old(mempool.transactions) - {TxHash(hs.h256, tx)}
    {
      var txHash := TxHash(hs.h256, tx);
      assert mempool.transactions - {txHash} == if txHash in mempool.transactions then mempool.transactions - {txHash} else mempool.transactions;
      var _ := mempool.RemoveTransaction(txHash);
    }

    /** One candidate: drop it if invalid, add it if it fits. */
    method Consider(template: BlockTemplate, tx: Tx, ghost check: Tx -> Verdict) returns (c: Considered)
      requires Valid() && template.Valid()
      requires check(tx) == Validate(hs, Chain(), tx, template.epoch)
      modifies mempool, template
      ensures Valid() && template.Valid()
      ensures c == if check(tx) != Transactions.Valid then Dropped
                   else if HasRoom(old(template.transactions), tx) then Included else NoRoom
      ensures template.transactions == old(template.transactions) + (if c == Included then [tx] else [])
      ensures c == Dropped ==> mempool.transactions == old(mempool.transactions) - {TxHash(hs.h256, tx)}
      ensures c != Dropped ==> mempool.transactions == old(mempool.transactions)
    {
      var v := txValidator.ValidateTransaction(tx, template.epoch);
      if v != Transactions.Valid {
        Reject(tx);
        return Dropped;
      }
      var ok := template.AddTransaction(tx);
      return if ok then Included else NoRoom;
    }

    /** The walk over the mempool's selection, before the counters move. */
    method WalkSelection(template: BlockTemplate) returns (added: nat, rejectedCount: nat, ghost f: Filling)
      requires Valid() && template.Valid()
      modifies mempool, template
      ensures Valid() && template.Valid()
      ensures forall e :: e in old(mempool.priority) ==> e.hash in old(mempool.transactions)
      ensures f == Fill(Checker(hs, old(Chain()), template.epoch),
                        Selection(mempool.rules, old(mempool.transactions), old(mempool.priority), MAX_BLOCK_SIZE),
                        Filling(old(template.transactions), []))
      ensures template.transactions == f.transactions
      ensures mempool.transactions == old(mempool.transactions) - Elems(HashesOf(hs.h256, f.rejected))
      ensures added == |f.transactions| - |old(template.transactions)| && rejectedCount == |f.rejected|
    {
      var candidates := mempool.GetTransactionsForBlock(MAX_BLOCK_SIZE);
      added, rejectedCount, f := Walk(template, candidates, Checker(hs, Chain(), template.epoch));
    }

    /** The loop of fill_template. */
    method Walk(template: BlockTemplate, candidates: seq<Tx>, ghost check: Tx -> Verdict)
      returns (added: nat, rejectedCount: nat, ghost f: Filling)
      requires Valid() && template.Valid()
      requires forall t {:trigger Validate(hs, Chain(), t, template.epoch)} :: check(t) == Validate(hs, Chain(), t, template.epoch)
      modifies mempool, template
      ensures Valid() && template.Valid()
      ensures f == Fill(check, candidates, Filling(old(template.transactions), []))
      ensures template.transactions == f.transactions
      ensures mempool.transactions == old(mempool.transactions) - Elems(HashesOf(hs.h256, f.rejected))
      ensures added == |f.transactions| - |old(template.transactions)| && rejectedCount == |f.rejected|
    {
      ghost var before, start := mempool.transactions, Filling(template.transactions, []);
      f := start;
      added, rejectedCount := 0, 0;
      var k: nat, full := 0, false;
      assert candidates[0..] == candidates;
      while k < |candidates| && !full
        invariant Valid() && template.Valid() && template.transactions == f.transactions
        invariant FilledSoFar(check, candidates, start, k, full, f)
        invariant AreDropped(hs.h256, before, mempool.transactions, f.rejected)
        invariant rejectedCount == |f.rejected| && |f.transactions| == |start.transactions| + added
        decreases |candidates| - k, !full
      {
        var tx := candidates[k];
        FillNext(check, candidates, start, k, f);
        RejectNext(hs.h256, before, mempool.transactions, f.rejected, tx);
        var c := Consider(template, tx, check);
        match c {
          case Included =>
            f := f.(transactions := f.transactions + [tx]);
            added, k := added + 1, k + 1;
          case NoRoom =>
            full := true;
          case Dropped =>
            f := f.(rejected := f.rejected + [tx]);
            rejectedCount, k := rejectedCount + 1, k + 1;
        }
      }
    }

    method FillTemplate(template: BlockTemplate) returns (added: nat)
      requires Valid() && template.Valid()
      modifies this, mempool, template
      ensures Valid() && template.Valid() && blocksProduced == old(blocksProduced)
      ensures forall e :: e in old(mempool.priority) ==> e.hash in old(mempool.transactions)
      ensures var candidates := Selection(mempool.rules, old(mempool.transactions), old(mempool.priority), MAX_BLOCK_SIZE);
              var f := Fill(Checker(hs, old(Chain()), template.epoch), candidates, Filling(old(template.transactions), []));
              && template.transactions == f.transactions
              && mempool.transactions == old(mempool.transactions) - Elems(HashesOf(hs.h256, f.rejected))
              && added == |f.transactions| - |old(template.transactions)|
              && txsIncluded == old(txsIncluded) + added && txsRejected == old(txsRejected) + |f.rejected|
    {
      var rejectedCount;
      ghost var f;
      added, rejectedCount, f := WalkSelection(template);
      txsIncluded := txsIncluded + added;
      txsRejected := txsRejected + rejectedCount;
    }

    /** Err stands for the struct.error raised when the reward does not fit in eight bytes. */
    method BuildBlock(template: BlockTemplate, rewardAddress: Bytes, timestamp: int, nonce: Bytes)
      returns (r: Result<(seq<Tx>, Digest), ()>)
      requires template.Valid()
      modifies this`blocksProduced
      ensures var reward := RewardTx(template.epoch, FeeSum(template.transactions), rewardAddress, timestamp, nonce);
              var all := [reward] + template.transactions;
              if AllEncodable(all)
              then r == Ok((all, TreeRoot(hs.h256, HashesOf(hs.h256, all)))) && blocksProduced == old(blocksProduced) + 1
              else r == Err(()) && blocksProduced == old(blocksProduced)
    {
      var coinbase := RewardTx(template.epoch, template.totalFees, rewardAddress, timestamp, nonce);
      var allTxs := [coinbase] + template.transactions;
      if !AllEncodable(allTxs) {
        return Err(());
      }
      var txHashes := HashAll(hs.h256, allTxs);
      var txTree := new MerkleTree(hs.h256, txHashes);
      var root := txTree.RootValue();
      blocksProduced := blocksProduced + 1;
      return Ok((allTxs, root.value));
    }

    /** Transaction k of a block; an exception counts as failure. */
    method ApplyNext(txs: seq<Tx>, k: nat, ghost start: State) returns (ok: bool)
      requires Valid() && k < |txs| && Remains(hs, start, txs, k, Chain())
      modifies txValidator.utxoSet, txValidator.authRegistry
      ensures ok ==> Remains(hs, start, txs, k + 1, Chain())
      ensures !ok ==> !ApplyAll(hs, start, txs).Done? && ApplyAll(hs, start, txs).state == Chain()
      ensures old(Indexed(txValidator.utxoSet.utxos, txValidator.utxoSet.byAddress)) && FreshAll(hs, start, txs) ==>
                Indexed(txValidator.utxoSet.utxos, txValidator.utxoSet.byAddress)
    {
      RemainsNext(hs, start, txs, k, Chain());
      var r := txValidator.ApplyTransaction(txs[k]);
      ok := r == Ok(true);
    }

    /** Applies the transactions of a finished block; exceptions count as failure. */
    method ApplyTransactions(txs: seq<Tx>) returns (ok: bool)
      requires Valid()
      modifies txValidator.utxoSet, txValidator.authRegistry
      ensures ok == ApplyAll(hs, old(Chain()), txs).Done? && Chain() == ApplyAll(hs, old(Chain()), txs).state
      ensures old(Indexed(txValidator.utxoSet.utxos, txValidator.utxoSet.byAddress)) && FreshAll(hs, old(Chain()), txs) ==>
                Indexed(txValidator.utxoSet.utxos, txValidator.utxoSet.byAddress)
    {
      ghost var start := Chain();
      assert txs[0..] == txs;
      for k := 0 to |txs|
        invariant Remains(hs, start, txs, k, Chain())
        invariant old(Indexed(txValidator.utxoSet.utxos, txValidator.utxoSet.byAddress)) && FreshAll(hs, start, txs) ==>
                    Indexed(txValidator.utxoSet.utxos, txValidator.utxoSet.byAddress)
      {
        ok := ApplyNext(txs, k, start);
        if !ok {
          return false;
        }
      }
      return true;
    }

    /** apply_block: on success the block's transactions leave the mempool; on failure part of them stay applied. */
    method ApplyBlock(txs: seq<Tx>) returns (ok: bool)
      requires Valid()
      modifies txValidator.utxoSet, txValidator.authRegistry, mempool
      ensures Valid() && Chain() == ApplyAll(hs, old(Chain()), txs).state
      ensures ok <==> ApplyAll(hs, old(Chain()), txs).Done? && AllEncodable(txs)
      ensures mempool.transactions ==
                if ok then old(mempool.transactions) - Elems(HashesOf(hs.h256, txs)) else old(mempool.transactions)
    {
      ok := ApplyTransactions(txs);
      if !ok || !AllEncodable(txs) {
        return false;
      }
      var hashes := HashAll(hs.h256, txs);
      var _ := mempool.ClearConfirmed(Elems(hashes));
    }
  }

  ghost predicate AreDropped(h: Sha256, before: map<Bytes, Tx>, now: map<Bytes, Tx>, rejected: seq<Tx>) {
    now == before - Elems(HashesOf(h, rejected))
  }

  lemma RejectNext(h: Sha256, before: map<Bytes, Tx>, now: map<Bytes, Tx>, rejected: seq<Tx>, tx: Tx)
    requires AreDropped(h, before, now, rejected)
    ensures AreDropped(h, before, now - {TxHash(h, tx)}, rejected + [tx])
  {
    assert (rejected + [tx])[..|rejected|] == rejected;
    assert Elems(HashesOf(h, rejected + [tx])) == Elems(HashesOf(h, rejected)) + {TxHash(h, tx)};
  }
}
