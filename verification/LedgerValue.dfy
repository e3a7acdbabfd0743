/** What spending inputs and adding outputs do to the table of outputs and to its unspent value. */
module LedgerValue {
  import opened Wrappers
  import opened ByteStrings
  import opened Sums
  import opened Transactions
  import opened Ledger

  /** What is counted: every output, or those an address can spend at an epoch. */
  datatype Measure = AnyOutput | MaturedTo(address: Bytes, epoch: int)

  function Measured(m: Measure, o: TxOutput): int {
    match m
    case AnyOutput => o.value
    case MaturedTo(address, epoch) => if o.address == address && o.lockEpoch <= epoch then o.value else 0
  }

  /** What an unspent output is worth under a measure of outputs; spent ones are worth nothing. */
  ghost function WorthAt(utxos: Utxos, m: Measure): OutRef -> int {
    r => if Spendable(utxos, r) then Measured(m, utxos[r].output) else 0
  }

  ghost function Worth(utxos: Utxos, m: Measure): int {
    Sum(utxos.Keys, WorthAt(utxos, m))
  }

  ghost function OutputWorth(utxos: Utxos, m: Measure): OutRef -> int {
    r => if r in utxos then Measured(m, utxos[r].output) else 0
  }

  /** The measure of the referenced outputs, and of a list of outputs. */
  function InputsMeasure(utxos: Utxos, inputs: seq<TxInput>, m: Measure): int {
    if inputs == [] then 0
    else
      var r := inputs[|inputs| - 1].prev;
      InputsMeasure(utxos, inputs[..|inputs| - 1], m) + if r in utxos then Measured(m, utxos[r].output) else 0
  }

  function OutputsMeasure(outputs: seq<TxOutput>, m: Measure): int {
    if outputs == [] then 0 else OutputsMeasure(outputs[..|outputs| - 1], m) + Measured(m, outputs[|outputs| - 1])
  }

  /** Total value of the outputs that are not spent. */
  ghost function Unspent(utxos: Utxos): int {
    Worth(utxos, AnyOutput)
  }

  lemma {:induction false} TotalsAreMeasures(utxos: Utxos, inputs: seq<TxInput>, outputs: seq<TxOutput>)
    ensures InputsMeasure(utxos, inputs, AnyOutput) == InputTotal(utxos, inputs)
    ensures OutputsMeasure(outputs, AnyOutput) == TotalOutput(outputs)
    decreases |inputs| + |outputs|
  {
    if inputs != [] {
      TotalsAreMeasures(utxos, inputs[..|inputs| - 1], []);
    }
    if outputs != [] {
      TotalsAreMeasures(utxos, [], outputs[..|outputs| - 1]);
    }
  }

  function Refs(inputs: seq<TxInput>): set<OutRef> {
    set i | 0 <= i < |inputs| :: inputs[i].prev
  }

  /** No two inputs name the same output. */
  ghost predicate DistinctInputs(inputs: seq<TxInput>) {
    forall i, j :: 0 <= i < j < |inputs| ==> inputs[i].prev != inputs[j].prev
  }

  function Marked(utxos: Utxos, refs: set<OutRef>, spender: Bytes): Utxos {
    map r | r in utxos :: if r in refs then utxos[r].(isSpent := true, spentBy := Some(spender)) else utxos[r]
  }

  lemma RefsFront(inputs: seq<TxInput>)
    requires inputs != []
    ensures Refs(inputs) == {inputs[0].prev} + Refs(inputs[1..])
  {
    forall r | r in Refs(inputs) ensures r in {inputs[0].prev} + Refs(inputs[1..]) {
      var i :| 0 <= i < |inputs| && inputs[i].prev == r;
      if i > 0 {
        assert inputs[1..][i - 1].prev == r;
      }
    }
    forall r | r in Refs(inputs[1..]) ensures r in Refs(inputs) {
      var i :| 0 <= i < |inputs[1..]| && inputs[1..][i].prev == r;
      assert inputs[i + 1].prev == r;
    }
  }

  /**
   * Spending in order marks exactly a prefix of the inputs: the longest one whose references are distinct
   * and spendable at the start.
   */
  lemma {:induction false} SpendsMarkLongestPrefix(utxos: Utxos, inputs: seq<TxInput>, spender: Bytes)
    ensures var n := SpentCount(utxos, inputs, spender);
            && AfterSpends(utxos, inputs, spender) == Marked(utxos, Refs(inputs[..n]), spender)
            && DistinctInputs(inputs[..n])
            && (forall r :: r in Refs(inputs[..n]) ==> Spendable(utxos, r))
            && (n < |inputs| ==> !Spendable(utxos, inputs[n].prev) || inputs[n].prev in Refs(inputs[..n]))
    decreases |inputs|
  {
    var n := SpentCount(utxos, inputs, spender);
    if n == 0 {
      assert Marked(utxos, Refs(inputs[..0]), spender) == utxos;
    } else {
      var first := inputs[0].prev;
      var next := Spend(utxos, first, spender);
      SpendsMarkLongestPrefix(next, inputs[1..], spender);
      assert inputs[..n][1..] == inputs[1..][..n - 1];
      RefsFront(inputs[..n]);
      var rest := Refs(inputs[1..][..n - 1]);
      assert first !in rest;
      forall i, j | 0 <= i < j < n ensures inputs[i].prev != inputs[j].prev {
        assert inputs[j].prev == inputs[1..][..n - 1][j - 1].prev && inputs[j].prev in rest;
        if i > 0 {
          assert inputs[1..][..n - 1][i - 1].prev == inputs[i].prev;
        }
      }
    }
  }

  lemma MarkingLowers(utxos: Utxos, refs: set<OutRef>, spender: Bytes, m: Measure)
    requires forall r :: r in refs ==> Spendable(utxos, r)
    ensures Worth(Marked(utxos, refs, spender), m) == Worth(utxos, m) - Sum(refs, OutputWorth(utxos, m))
  {
    var marked, rest := Marked(utxos, refs, spender), utxos.Keys - refs;
    assert utxos.Keys == refs + rest && marked.Keys == utxos.Keys;
    SumUnion(refs, rest, WorthAt(utxos, m));
    SumUnion(refs, rest, WorthAt(marked, m));
    SumCongruent(rest, WorthAt(utxos, m), WorthAt(marked, m));
    SumCongruent(refs, WorthAt(utxos, m), OutputWorth(utxos, m));
    SumOfZeros(refs, WorthAt(marked, m));
  }

  lemma {:induction false} DistinctTotal(utxos: Utxos, inputs: seq<TxInput>, m: Measure)
    requires DistinctInputs(inputs)
    ensures InputsMeasure(utxos, inputs, m) == Sum(Refs(inputs), OutputWorth(utxos, m))
  {
    if inputs != [] {
      var n := |inputs| - 1;
      DistinctTotal(utxos, inputs[..n], m);
      assert Refs(inputs) == Refs(inputs[..n]) + {inputs[n].prev};
      assert inputs[n].prev !in Refs(inputs[..n]);
      SumAdd(Refs(inputs[..n]), inputs[n].prev, OutputWorth(utxos, m));
    }
  }

  /** Exactly the worth of the inputs spent leaves the table. */
  lemma SpendingDistinctLowers(utxos: Utxos, inputs: seq<TxInput>, spender: Bytes, m: Measure)
    requires DistinctInputs(inputs) && forall r :: r in Refs(inputs) ==> Spendable(utxos, r)
    ensures Worth(Marked(utxos, Refs(inputs), spender), m) == Worth(utxos, m) - InputsMeasure(utxos, inputs, m)
  {
    MarkingLowers(utxos, Refs(inputs), spender, m);
    DistinctTotal(utxos, inputs, m);
  }

  /** None of the first n output keys of the transaction is taken. */
  ghost predicate FreshKeys(utxos: Utxos, txHash: Bytes, n: nat) {
    forall i :: 0 <= i < n ==> OutRef(txHash, i) !in utxos
  }

  /** The entries after outputs have been added. */
  lemma {:induction false} AddedEntries(utxos: Utxos, txHash: Bytes, outputs: seq<TxOutput>, epoch: int, r: OutRef)
    ensures var added := AddOutputs(utxos, txHash, outputs, epoch);
            if r.txHash == txHash && 0 <= r.index < |outputs| then r in added && added[r] == Created(outputs[r.index], epoch)
            else (r in added <==> r in utxos) && (r in utxos ==> added[r] == utxos[r])
  {
    if outputs != [] {
      var n := |outputs| - 1;
      AddedEntries(utxos, txHash, outputs[..n], epoch, r);
    }
  }

  /** What is unspent at the first n output keys of the transaction: what adding its outputs replaces. */
  ghost function Overwritten(utxos: Utxos, txHash: Bytes, n: nat, m: Measure): int {
    if n == 0 then 0 else Overwritten(utxos, txHash, n - 1, m) + WorthAt(utxos, m)(OutRef(txHash, n - 1))
  }

  lemma {:induction false} FreshOverwritesNothing(utxos: Utxos, txHash: Bytes, n: nat, m: Measure)
    requires FreshKeys(utxos, txHash, n)
    ensures Overwritten(utxos, txHash, n, m) == 0
  {
    if n > 0 {
      FreshOverwritesNothing(utxos, txHash, n - 1, m);
    }
  }

  lemma PuttingRaises(before: Utxos, r: OutRef, u: Utxo, m: Measure)
    requires !u.isSpent
    ensures Worth(before[r := u], m) == Worth(before, m) + Measured(m, u.output) - WorthAt(before, m)(r)
  {
    var after, rest := before[r := u], before.Keys - {r};
    assert after.Keys - {r} == rest;
    SumRemove(after.Keys, r, WorthAt(after, m));
    SumCongruent(rest, WorthAt(before, m), WorthAt(after, m));
    if r in before {
      SumRemove(before.Keys, r, WorthAt(before, m));
    } else {
      assert rest == before.Keys;
    }
  }

  /** Adding outputs raises the worth by theirs, less what was unspent at their keys. */
  lemma {:induction false} AddingRaises(utxos: Utxos, txHash: Bytes, outputs: seq<TxOutput>, epoch: int, m: Measure)
    ensures Worth(AddOutputs(utxos, txHash, outputs, epoch), m)
            == Worth(utxos, m) + OutputsMeasure(outputs, m) - Overwritten(utxos, txHash, |outputs|, m)
  {
    if outputs != [] {
      var n := |outputs| - 1;
      AddingRaises(utxos, txHash, outputs[..n], epoch, m);
      var before, r := AddOutputs(utxos, txHash, outputs[..n], epoch), OutRef(txHash, n);
      AddedEntries(utxos, txHash, outputs[..n], epoch, r);
      PuttingRaises(before, r, Created(outputs[n], epoch), m);
    }
  }
}
