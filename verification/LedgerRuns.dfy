/** Whole runs of validate-then-apply, also block-wise: no double spend, and conservation of value. */
module LedgerRuns {
  import opened Wrappers
  import opened ByteStrings
  import opened Sums
  import opened Merkle
  import opened AuthTree
  import opened Transactions
  import opened Ledger
  import opened LedgerValue

  /**
   * A transaction submitted at `epoch` and checked against state number `checkedAt` of the run: the current
   * one when it is validated on its own, the one before the block when it is part of a block.
   */
  datatype Event = Event(tx: Tx, epoch: int, checkedAt: nat)

  /** Turned down, applied completely, or stopped after spending some inputs. */
  datatype Effect = Refused | Completed | Partial(spent: nat)

  /** The shape of the coinbase that a producer puts first in its block; it is applied without validation. */
  predicate IsReward(tx: Tx) {
    tx.txType == Coinbase && tx.inputs == [] && |tx.outputs| == 1 && tx.outputs[0].value >= 0
  }

  predicate IsLetIn(hs: Hashes, checked: State, e: Event) {
    IsReward(e.tx) || Validate(hs, checked, e.tx, e.epoch) == Valid
  }

  /** Apply what was let in, whatever the application then answers. */
  function Step(hs: Hashes, checked: State, s: State, e: Event): State {
    if IsLetIn(hs, checked, e) then Apply(hs, s, e.tx).state else s
  }

  function EffectOf(hs: Hashes, checked: State, s: State, e: Event): Effect {
    if !IsLetIn(hs, checked, e) then Refused
    else match Apply(hs, s, e.tx)
         case Done(_) => Completed
         case Stopped(_) => Partial(SpentCount(s.utxos, e.tx.inputs, TxHash(hs.h256, e.tx)))
         case Crashed(_) => Refused
  }

  // ------------------------------------------------------------------ one step

  /** What being let in establishes about the inputs and the values moved; `utxos` is the table checked. */
  ghost predicate PaysForItself(utxos: Utxos, tx: Tx) {
    && (tx.txType == Coinbase <==> tx.inputs == [])
    && (forall o :: o in tx.outputs ==> o.value >= 0)
    && (forall r :: r in Refs(tx.inputs) ==> Spendable(utxos, r))
    && (tx.txType != Coinbase && tx.txType != Slash ==>
          InputTotal(utxos, tx.inputs) >= TotalOutput(tx.outputs) + tx.fee && tx.fee >= Size(tx))
  }

  /** The first n inputs are distinct and can be spent. */
  ghost predicate CanSpend(utxos: Utxos, inputs: seq<TxInput>, n: nat) {
    n <= |inputs| && DistinctInputs(inputs[..n]) && forall r :: r in Refs(inputs[..n]) ==> Spendable(utxos, r)
  }

  /** The change of the output table, in terms that no longer mention how it is carried out. */
  ghost predicate Changes(before: Utxos, after: Utxos, tx: Tx, txHash: Bytes, effect: Effect) {
    match effect
    case Refused => after == before
    case Completed =>
      && CanSpend(before, tx.inputs, |tx.inputs|)
      && after == AddOutputs(Marked(before, Refs(tx.inputs), txHash), txHash, tx.outputs, tx.epoch)
    case Partial(n) =>
      && CanSpend(before, tx.inputs, n) && n < |tx.inputs|
      && (!Spendable(before, tx.inputs[n].prev) || tx.inputs[n].prev in Refs(tx.inputs[..n]))
      && after == Marked(before, Refs(tx.inputs[..n]), txHash)
  }

  lemma {:induction false} ValidInputsSpendable(h: Sha256, s: State, inputs: seq<TxInput>, m: Digest, epoch: int)
    requires InputsVerdict(h, s, inputs, m, epoch) == Valid
    ensures forall r :: r in Refs(inputs) ==> Spendable(s.utxos, r)
  {
    if inputs != [] {
      ValidInputsSpendable(h, s, inputs[1..], m, epoch);
      RefsFront(inputs);
    }
  }

  lemma {:induction false} SlashInputsSpendable(h: Sha256, s: State, inputs: seq<TxInput>, m: Digest)
    requires SlashInputsVerdict(h, s, inputs, m) == Valid
    ensures forall r :: r in Refs(inputs) ==> Spendable(s.utxos, r)
  {
    if inputs != [] {
      SlashInputsSpendable(h, s, inputs[1..], m);
      RefsFront(inputs);
    }
  }

  /** A transaction of any type validates only if all its inputs can be spent. */
  lemma ValidMeansSpendable(hs: Hashes, s: State, tx: Tx, epoch: int)
    requires TypeVerdict(hs, s, tx, epoch) == Valid
    ensures forall r :: r in Refs(tx.inputs) ==> Spendable(s.utxos, r)
  {
    match tx.txType
    case Coinbase =>
    case Slash => SlashInputsSpendable(hs.h256, s, tx.inputs, TxHash(hs.h256, tx));
    case Register =>
    case RotateAuth =>
    case _ => ValidInputsSpendable(hs.h256, s, tx.inputs, TxHash(hs.h256, tx), epoch);
  }

  /** Every type but SLASH checks that its inputs pay for its outputs and its fee. */
  lemma ValidMeansBalanced(hs: Hashes, s: State, tx: Tx, epoch: int)
    requires TypeVerdict(hs, s, tx, epoch) == Valid && tx.txType != Coinbase && tx.txType != Slash
    ensures InputTotal(s.utxos, tx.inputs) >= TotalOutput(tx.outputs) + tx.fee
  {
  }

  lemma ValidStructure(tx: Tx)
    requires Structure(tx) == Valid
    ensures (tx.inputs == [] ==> tx.txType == Coinbase) && tx.outputs != []
    ensures forall o :: o in tx.outputs ==> o.value >= 0
    ensures tx.txType != Coinbase ==> tx.fee >= Size(tx)
  {
    forall o | o in tx.outputs ensures o.value >= 0 {
      assert !IsDust(o);
    }
  }

  lemma LetInPaysForItself(hs: Hashes, checked: State, e: Event)
    requires IsLetIn(hs, checked, e)
    ensures PaysForItself(checked.utxos, e.tx) && e.tx.outputs != []
  {
    if !IsReward(e.tx) {
      ValidStructure(e.tx);
      ValidMeansSpendable(hs, checked, e.tx, e.epoch);
      if e.tx.txType != Coinbase && e.tx.txType != Slash {
        ValidMeansBalanced(hs, checked, e.tx, e.epoch);
      }
    }
  }

  /** What applying a transaction with outputs does to the table. */
  lemma ApplyChanges(hs: Hashes, s: State, tx: Tx)
    requires tx.outputs != [] && (tx.txType == RotateAuth ==> tx.inputs != [])
    ensures var a, txHash := Apply(hs, s, tx), TxHash(hs.h256, tx);
            var n := SpentCount(s.utxos, tx.inputs, txHash);
            Changes(s.utxos, a.state.utxos, tx, txHash, if a.Done? then Completed else if a.Stopped? then Partial(n) else Refused)
  {
    var txHash := TxHash(hs.h256, tx);
    SpendsMarkLongestPrefix(s.utxos, tx.inputs, txHash);
    assert tx.inputs[..|tx.inputs|] == tx.inputs;
    if tx.inputs != [] {
      AddedEntries(AfterSpends(s.utxos, tx.inputs, txHash), txHash, tx.outputs, tx.epoch, tx.inputs[0].prev);
    }
  }

  /** A step has one of three effects: nothing, all, or the longest spendable prefix of the inputs. */
  lemma StepChanges(hs: Hashes, checked: State, s: State, e: Event)
    ensures Changes(s.utxos, Step(hs, checked, s, e).utxos, e.tx, TxHash(hs.h256, e.tx), EffectOf(hs, checked, s, e))
    ensures EffectOf(hs, checked, s, e) != Refused ==> PaysForItself(checked.utxos, e.tx)
  {
    if IsLetIn(hs, checked, e) {
      LetInPaysForItself(hs, checked, e);
      ApplyChanges(hs, s, e.tx);
    }
  }

  // --------------------------------------------------------------------- runs

  /** State i + 1 and effect i are what event i makes of state i; the first state is the empty ledger. */
  datatype Run = Run(hs: Hashes, events: seq<Event>, states: seq<State>, effects: seq<Effect>)

  ghost predicate Moves(run: Run, i: int) {
    && 0 <= i < |run.events| == |run.effects| && |run.states| == |run.events| + 1
    && run.events[i].checkedAt <= i
    && var checked := run.states[run.events[i].checkedAt];
       && run.states[i + 1] == Step(run.hs, checked, run.states[i], run.events[i])
       && run.effects[i] == EffectOf(run.hs, checked, run.states[i], run.events[i])
  }

  ghost predicate IsRun(run: Run) {
    && |run.states| == |run.events| + 1 && |run.effects| == |run.events| && run.states[0] == EMPTY
    && (forall i :: 0 <= i < |run.events| ==> Moves(run, i))
  }

  /** The byte strings hashed for the completed events. */
  ghost function Preimages(run: Run): set<Bytes> {
    set i | 0 <= i < |run.events| && IsCompleted(run, i) :: TxPreimage(run.events[i].tx)
  }

  predicate IsCompleted(run: Run, i: int) {
    0 <= i < |run.effects| && run.effects[i] == Completed
  }

  function HashAt(run: Run, i: nat): Digest
    requires i < |run.events|
  {
    TxHash(run.hs.h256, run.events[i].tx)
  }

  predicate IsCoinbase(run: Run, i: nat)
    requires i < |run.events|
  {
    run.events[i].tx.txType == Coinbase
  }

  /**
   * Among the completed events, no SHA3-256 collision and no coinbase twice. Nothing is asked of submissions that
   * are turned down, raise, or stop part way.
   */
  ghost predicate Admissible(run: Run) {
    && IsRun(run) && CollisionFree(run.hs.h256, Preimages(run))
    && (forall i, j :: 0 <= i < j < |run.events| && IsCompleted(run, i) && IsCompleted(run, j) && IsCoinbase(run, i) && IsCoinbase(run, j)
          ==> HashAt(run, i) != HashAt(run, j))
  }

  ghost predicate ChangesAt(run: Run, i: nat)
    requires i < |run.events| == |run.effects| && |run.states| == |run.events| + 1
  {
    Changes(run.states[i].utxos, run.states[i + 1].utxos, run.events[i].tx, HashAt(run, i), run.effects[i])
  }

  lemma RunChanges(run: Run, i: nat)
    requires IsRun(run) && i < |run.events|
    ensures ChangesAt(run, i) && run.events[i].checkedAt <= i
    ensures run.effects[i] != Refused ==> PaysForItself(run.states[run.events[i].checkedAt].utxos, run.events[i].tx)
  {
    assert Moves(run, i);
    StepChanges(run.hs, run.states[run.events[i].checkedAt], run.states[i], run.events[i]);
  }

  // ------------------------------------------------------------- the invariant

  ghost predicate CreatedBy(run: Run, n: nat, r: OutRef, i: int) {
    && 0 <= i < n && i < |run.events| == |run.effects| && run.effects[i] == Completed
    && r.txHash == HashAt(run, i) && 0 <= r.index < |run.events[i].tx.outputs|
  }

  /** Every record was created by an event completed before n. */
  ghost predicate RecordsHaveCreators(run: Run, n: nat)
    requires n < |run.states|
  {
    forall r :: r in run.states[n].utxos ==> exists i :: CreatedBy(run, n, r, i)
  }

  predicate IsSpent(utxos: Utxos, r: OutRef) {
    r in utxos && utxos[r].isSpent
  }

  /** If event i was completed, its inputs are spent in state n. */
  ghost predicate InputsSpent(run: Run, i: int, n: nat)
    requires n < |run.states|
  {
    0 <= i < |run.events| && i < |run.effects| && run.effects[i] == Completed ==>
      forall r :: r in Refs(run.events[i].tx.inputs) ==> IsSpent(run.states[n].utxos, r)
  }

  ghost predicate InputsStaySpent(run: Run, n: nat)
    requires n < |run.states|
  {
    forall i :: 0 <= i < n ==> InputsSpent(run, i, n)
  }

  ghost predicate Fresh(run: Run, n: nat)
    requires n < |run.events| == |run.effects| && |run.states| == |run.events| + 1
  {
    run.effects[n] == Completed ==> FreshKeys(run.states[n].utxos, HashAt(run, n), |run.events[n].tx.outputs|)
  }

  /** What is applied completely could be hashed. */
  lemma CompletedIsEncodable(run: Run, i: nat)
    requires IsRun(run) && i < |run.events| && run.effects[i] == Completed
    ensures Encodable(run.events[i].tx)
  {
    assert Moves(run, i);
    LetInPaysForItself(run.hs, run.states[run.events[i].checkedAt], run.events[i]);
  }

  /** References that the table knows are transaction hashes. */
  lemma KnownRefsAre32(run: Run, n: nat, inputs: seq<TxInput>)
    requires n < |run.states| && RecordsHaveCreators(run, n) && forall r :: r in Refs(inputs) ==> r in run.states[n].utxos
    ensures RefsAre32(inputs)
  {
    forall i | 0 <= i < |inputs| ensures |inputs[i].prev.txHash| == 32 {
      assert inputs[i].prev in Refs(inputs);
      var k :| CreatedBy(run, n, inputs[i].prev, k);
    }
  }

  lemma CompletedRefsAre32(run: Run, i: nat, n: nat)
    requires IsRun(run) && i <= n < |run.events| && run.effects[i] == Completed
    requires RecordsHaveCreators(run, n) && InputsStaySpent(run, n)
    ensures RefsAre32(run.events[i].tx.inputs)
  {
    var inputs := run.events[i].tx.inputs;
    if i < n {
      assert InputsSpent(run, i, n);
    } else {
      RunChanges(run, n);
      assert inputs[..|inputs|] == inputs;
    }
    KnownRefsAre32(run, n, inputs);
  }

  lemma SameHashSameHead(run: Run, i: nat, n: nat)
    requires Admissible(run) && i < n < |run.events| && IsCompleted(run, i) && IsCompleted(run, n)
    requires HashAt(run, i) == HashAt(run, n)
    ensures TxPreimage(run.events[i].tx) == TxPreimage(run.events[n].tx)
  {
    NoCollision(run.hs.h256, Preimages(run), TxPreimage(run.events[i].tx), TxPreimage(run.events[n].tx));
  }

  /** Completed events of the same hash have the same type and inputs. */
  lemma SameInputsAgain(run: Run, i: nat, n: nat)
    requires Admissible(run) && i < n < |run.events| && run.effects[i] == Completed && run.effects[n] == Completed
    requires RecordsHaveCreators(run, n) && InputsStaySpent(run, n) && HashAt(run, i) == HashAt(run, n)
    ensures IsCoinbase(run, i) == IsCoinbase(run, n)
    ensures var a, b := run.events[i].tx.inputs, run.events[n].tx.inputs;
            b != [] ==> b[0].prev in Refs(a) && b[0].prev in Refs(b)
  {
    CompletedIsEncodable(run, i);
    CompletedIsEncodable(run, n);
    CompletedRefsAre32(run, i, n);
    CompletedRefsAre32(run, n, n);
    SameHashSameHead(run, i, n);
    SameHeadSameFirst(run.events[i].tx, run.events[n].tx);
  }

  lemma SameHeadSameFirst(a: Tx, b: Tx)
    requires Encodable(a) && Encodable(b) && RefsAre32(a.inputs) && RefsAre32(b.inputs) && TxPreimage(a) == TxPreimage(b)
    ensures a.txType == b.txType && (b.inputs != [] ==> b.inputs[0].prev in Refs(a.inputs) && b.inputs[0].prev in Refs(b.inputs))
  {
    SplitHead(a, b);
    if b.inputs != [] {
      assert a.inputs[0].prev == b.inputs[0].prev;
    }
  }

  /** A transaction that produced the same keys before had the same inputs, and those are spent by now. */
  lemma KeysAreFresh(run: Run, n: nat)
    requires Admissible(run) && n < |run.events|
    requires RecordsHaveCreators(run, n) && InputsStaySpent(run, n)
    ensures Fresh(run, n)
  {
    var s, tx := run.states[n], run.events[n].tx;
    if run.effects[n] == Completed {
      RunChanges(run, n);
      forall k | 0 <= k < |tx.outputs| ensures OutRef(HashAt(run, n), k) !in s.utxos {
        var r := OutRef(HashAt(run, n), k);
        if r in s.utxos {
          var i :| CreatedBy(run, n, r, i);
          SameInputsAgain(run, i, n);
          ReplayIsBlocked(run, i, n);
        }
      }
    }
  }

  lemma ReplayIsBlocked(run: Run, i: nat, n: nat)
    requires Admissible(run) && i < n < |run.events|
    requires InputsStaySpent(run, n) && run.effects[i] == Completed && run.effects[n] == Completed
    requires IsCoinbase(run, i) == IsCoinbase(run, n)
    requires var a, b := run.events[i].tx.inputs, run.events[n].tx.inputs;
             b != [] ==> b[0].prev in Refs(a) && b[0].prev in Refs(b)
    ensures HashAt(run, i) != HashAt(run, n)
  {
    RunChanges(run, n);
    var b := run.events[n].tx.inputs;
    assert b[..|b|] == b;
    assert InputsSpent(run, i, n);
  }

  /** The entry at r after a step: an output just created, an input just spent, or what it was. */
  lemma EntryAfter(before: Utxos, after: Utxos, tx: Tx, txHash: Bytes, effect: Effect, r: OutRef)
    requires Changes(before, after, tx, txHash, effect)
    ensures if effect == Completed && r.txHash == txHash && 0 <= r.index < |tx.outputs|
            then r in after && after[r] == Created(tx.outputs[r.index], tx.epoch)
            else if r in SpentRefs(tx, effect)
            then Spendable(before, r) && r in after && after[r] == before[r].(isSpent := true, spentBy := Some(txHash))
            else (r in after <==> r in before) && (r in before ==> after[r] == before[r])
  {
    assert tx.inputs[..|tx.inputs|] == tx.inputs;
    if effect == Completed {
      AddedEntries(Marked(before, Refs(tx.inputs), txHash), txHash, tx.outputs, tx.epoch, r);
    }
  }

  /** The outputs an event spends, also when it stops part way. */
  ghost function SpentRefs(tx: Tx, effect: Effect): set<OutRef> {
    match effect
    case Refused => {}
    case Completed => Refs(tx.inputs)
    case Partial(n) => if n <= |tx.inputs| then Refs(tx.inputs[..n]) else {}
  }

  /** The record at r stays: its output is fixed, and once spent it never changes again. */
  ghost predicate Kept(before: Utxos, after: Utxos, r: OutRef) {
    r in before ==> r in after && after[r].output == before[r].output && (before[r].isSpent ==> after[r] == before[r])
  }

  lemma FreshStepKeeps(run: Run, n: nat, r: OutRef)
    requires IsRun(run) && n < |run.events| && Fresh(run, n)
    ensures Kept(run.states[n].utxos, run.states[n + 1].utxos, r)
    ensures r in SpentRefs(run.events[n].tx, run.effects[n]) ==>
              Spendable(run.states[n].utxos, r) && IsSpent(run.states[n + 1].utxos, r)
  {
    RunChanges(run, n);
    EntryAfter(run.states[n].utxos, run.states[n + 1].utxos, run.events[n].tx, HashAt(run, n), run.effects[n], r);
    if r in SpentRefs(run.events[n].tx, run.effects[n]) {
      assert run.events[n].tx.inputs[..|run.events[n].tx.inputs|] == run.events[n].tx.inputs;
    }
  }

  lemma CreatorsStep(run: Run, m: nat, n: nat, r: OutRef)
    requires IsRun(run) && m < |run.events| && n == m + 1
    requires RecordsHaveCreators(run, m) && r in run.states[n].utxos
    ensures exists i :: CreatedBy(run, n, r, i)
  {
    if r in run.states[m].utxos {
      var i :| CreatedBy(run, m, r, i);
      assert CreatedBy(run, n, r, i);
    } else {
      RunChanges(run, m);
      EntryAfter(run.states[m].utxos, run.states[n].utxos, run.events[m].tx, HashAt(run, m), run.effects[m], r);
      assert CreatedBy(run, n, r, m);
    }
  }

  lemma SpentStep(run: Run, m: nat, i: nat)
    requires IsRun(run) && m < |run.events| && i <= m && Fresh(run, m) && InputsStaySpent(run, m)
    ensures InputsSpent(run, i, m + 1)
  {
    if run.effects[i] == Completed {
      forall r | r in Refs(run.events[i].tx.inputs) ensures IsSpent(run.states[m + 1].utxos, r) {
        FreshStepKeeps(run, m, r);
        if i < m {
          assert InputsSpent(run, i, m);
        }
      }
    }
  }

  lemma {:induction false} RunInvariant(run: Run, n: nat)
    requires Admissible(run) && n < |run.states|
    ensures RecordsHaveCreators(run, n) && InputsStaySpent(run, n)
    decreases n
  {
    if n > 0 {
      RunInvariant(run, n - 1);
      KeysAreFresh(run, n - 1);
      forall r | r in run.states[n].utxos ensures exists i :: CreatedBy(run, n, r, i) {
        CreatorsStep(run, n - 1, n, r);
      }
      forall i | 0 <= i < n ensures InputsSpent(run, i, n) {
        SpentStep(run, n - 1, i);
      }
    }
  }

  lemma AlwaysFresh(run: Run, n: nat)
    requires Admissible(run) && n < |run.events|
    ensures Fresh(run, n)
  {
    RunInvariant(run, n);
    KeysAreFresh(run, n);
  }

  // --------------------------------------------------------------- main results

  /** A complete application had distinct, unspent inputs and fresh output keys. */
  lemma SuccessIsClean(run: Run, n: nat)
    requires Admissible(run) && n < |run.events| && run.effects[n] == Completed
    ensures var tx := run.events[n].tx;
            && DistinctInputs(tx.inputs) && (forall r :: r in Refs(tx.inputs) ==> Spendable(run.states[n].utxos, r))
            && FreshKeys(run.states[n].utxos, HashAt(run, n), |tx.outputs|)
  {
    RunChanges(run, n);
    AlwaysFresh(run, n);
    assert run.events[n].tx.inputs[..|run.events[n].tx.inputs|] == run.events[n].tx.inputs;
  }

  /** No two complete applications of a run have the same transaction hash: nothing is applied twice. */
  lemma NeverAppliedTwice(run: Run, i: nat, n: nat)
    requires Admissible(run) && i < n < |run.events| && run.effects[i] == Completed && run.effects[n] == Completed
    ensures HashAt(run, i) != HashAt(run, n) && run.events[i].tx != run.events[n].tx
  {
    RunInvariant(run, n);
    if HashAt(run, i) == HashAt(run, n) {
      SameInputsAgain(run, i, n);
      ReplayIsBlocked(run, i, n);
      assert false;
    }
  }

  /** A record, once spent, never changes again; an unspent one can only become spent. */
  lemma {:induction false} SpentStaysSpent(run: Run, m: nat, n: nat, r: OutRef)
    requires Admissible(run) && m <= n < |run.states|
    ensures Kept(run.states[m].utxos, run.states[n].utxos, r)
    decreases n
  {
    if m < n {
      SpentStaysSpent(run, m, n - 1, r);
      AlwaysFresh(run, n - 1);
      FreshStepKeeps(run, n - 1, r);
    }
  }

  /** No output is spent by two events of a run, counting those that stop part way. */
  lemma NoKeySpentTwice(run: Run, i: nat, j: nat)
    requires Admissible(run) && i < j < |run.events|
    ensures SpentRefs(run.events[i].tx, run.effects[i]) !! SpentRefs(run.events[j].tx, run.effects[j])
  {
    AlwaysFresh(run, i);
    AlwaysFresh(run, j);
    forall r | r in SpentRefs(run.events[i].tx, run.effects[i])
      ensures r !in SpentRefs(run.events[j].tx, run.effects[j])
    {
      FreshStepKeeps(run, i, r);
      SpentStaysSpent(run, i + 1, j, r);
      FreshStepKeeps(run, j, r);
    }
  }

  // --------------------------------------------------------------- conservation

  /** Value created by an event: only a coinbase creates any. */
  function MintedBy(tx: Tx, effect: Effect): int {
    if effect == Completed && tx.txType == Coinbase then TotalOutput(tx.outputs) else 0
  }

  /** Value destroyed: inputs minus outputs of a complete application, or the inputs spent before it stopped. */
  function BurnedBy(before: Utxos, tx: Tx, effect: Effect): int {
    match effect
    case Refused => 0
    case Completed => if tx.txType == Coinbase then 0 else InputTotal(before, tx.inputs) - TotalOutput(tx.outputs)
    case Partial(n) => if n <= |tx.inputs| then InputTotal(before, tx.inputs[..n]) else 0
  }

  ghost function Minted(run: Run, n: nat): int
    requires IsRun(run) && n < |run.states|
  {
    if n == 0 then 0 else Minted(run, n - 1) + MintedBy(run.events[n - 1].tx, run.effects[n - 1])
  }

  ghost function Burned(run: Run, n: nat): int
    requires IsRun(run) && n < |run.states|
  {
    if n == 0 then 0
    else Burned(run, n - 1) + BurnedBy(run.states[n - 1].utxos, run.events[n - 1].tx, run.effects[n - 1])
  }

  /** Unspent value at the keys of its own outputs when a complete application adds them: it is replaced. */
  ghost function OverwrittenBy(before: Utxos, tx: Tx, txHash: Bytes, effect: Effect): int {
    if effect == Completed then Overwritten(Marked(before, Refs(tx.inputs), txHash), txHash, |tx.outputs|, AnyOutput) else 0
  }

  ghost function ReplacedAt(run: Run, n: nat): int
    requires IsRun(run) && n < |run.events|
  {
    OverwrittenBy(run.states[n].utxos, run.events[n].tx, HashAt(run, n), run.effects[n])
  }

  ghost function Replaced(run: Run, n: nat): int
    requires IsRun(run) && n < |run.states|
  {
    if n == 0 then 0 else Replaced(run, n - 1) + ReplacedAt(run, n - 1)
  }

  lemma SpendingLowers(before: Utxos, tx: Tx, txHash: Bytes, n: nat)
    requires CanSpend(before, tx.inputs, n)
    ensures Unspent(Marked(before, Refs(tx.inputs[..n]), txHash)) == Unspent(before) - InputTotal(before, tx.inputs[..n])
  {
    SpendingDistinctLowers(before, tx.inputs[..n], txHash, AnyOutput);
    TotalsAreMeasures(before, tx.inputs[..n], []);
  }

  lemma ChangeConserves(before: Utxos, after: Utxos, tx: Tx, txHash: Bytes, effect: Effect)
    requires Changes(before, after, tx, txHash, effect)
    requires effect == Completed && tx.txType == Coinbase ==> tx.inputs == []
    ensures Unspent(after) + BurnedBy(before, tx, effect) + OverwrittenBy(before, tx, txHash, effect)
            == Unspent(before) + MintedBy(tx, effect)
  {
    assert tx.inputs[..|tx.inputs|] == tx.inputs;
    match effect
    case Refused =>
    case Partial(n) => SpendingLowers(before, tx, txHash, n);
    case Completed =>
      SpendingLowers(before, tx, txHash, |tx.inputs|);
      AddingRaises(Marked(before, Refs(tx.inputs), txHash), txHash, tx.outputs, tx.epoch, AnyOutput);
      TotalsAreMeasures(before, [], tx.outputs);
  }

  lemma StepOverwritesNothing(run: Run, n: nat)
    requires Admissible(run) && n < |run.events|
    ensures ReplacedAt(run, n) == 0
  {
    var before, tx := run.states[n].utxos, run.events[n].tx;
    AlwaysFresh(run, n);
    if run.effects[n] == Completed {
      FreshOverwritesNothing(Marked(before, Refs(tx.inputs), HashAt(run, n)), HashAt(run, n), |tx.outputs|, AnyOutput);
    }
  }

  /** In every run whatever: unspent, burned and overwritten value together equal the minted value. */
  lemma {:induction false} AccountIsExact(run: Run, n: nat)
    requires IsRun(run) && n < |run.states|
    ensures Unspent(run.states[n].utxos) + Burned(run, n) + Replaced(run, n) == Minted(run, n)
    decreases n
  {
    if n > 0 {
      var m := n - 1;
      AccountIsExact(run, m);
      RunChanges(run, m);
      ChangeConserves(run.states[m].utxos, run.states[n].utxos, run.events[m].tx, HashAt(run, m), run.effects[m]);
    }
  }

  lemma {:induction false} NothingReplaced(run: Run, n: nat)
    requires IsRun(run) && n < |run.states| && forall m :: 0 <= m < n ==> ReplacedAt(run, m) == 0
    ensures Replaced(run, n) == 0
    decreases n
  {
    if n > 0 {
      NothingReplaced(run, n - 1);
    }
  }

  /** Unspent value plus burned value equals minted value after every prefix of an admissible run. */
  lemma ValueIsConserved(run: Run, n: nat)
    requires Admissible(run) && n < |run.states|
    ensures Unspent(run.states[n].utxos) + Burned(run, n) == Minted(run, n)
  {
    forall m | 0 <= m < n ensures ReplacedAt(run, m) == 0 {
      StepOverwritesNothing(run, m);
    }
    NothingReplaced(run, n);
    AccountIsExact(run, n);
  }

  /** One reward submitted twice at the start. */
  function TwiceRewarded(hs: Hashes, reward: Tx): Run {
    var events := [Event(reward, 0, 0), Event(reward, 0, 0)];
    var one := Step(hs, EMPTY, EMPTY, events[0]);
    Run(hs, events, [EMPTY, one, Step(hs, EMPTY, one, events[1])],
        [EffectOf(hs, EMPTY, EMPTY, events[0]), EffectOf(hs, EMPTY, one, events[1])])
  }

  lemma RewardStep(hs: Hashes, s: State, reward: Tx)
    requires IsReward(reward) && Encodable(reward)
    ensures EffectOf(hs, EMPTY, s, Event(reward, 0, 0)) == Completed
    ensures Step(hs, EMPTY, s, Event(reward, 0, 0)).utxos
            == s.utxos[OutRef(TxHash(hs.h256, reward), 0) := Created(reward.outputs[0], reward.epoch)]
  {
    assert AddOutputs(s.utxos, TxHash(hs.h256, reward), reward.outputs[..0], reward.epoch) == s.utxos;
  }

  lemma TwiceIsRun(hs: Hashes, reward: Tx)
    requires IsReward(reward) && Encodable(reward)
    ensures var run := TwiceRewarded(hs, reward);
            && IsRun(run) && run.effects == [Completed, Completed] && run.states[2].utxos == run.states[1].utxos
            && Unspent(run.states[1].utxos) == reward.outputs[0].value
  {
    var run := TwiceRewarded(hs, reward);
    RewardStep(hs, EMPTY, reward);
    RewardStep(hs, run.states[1], reward);
    assert Moves(run, 0) && Moves(run, 1);
    PuttingRaises(map[], OutRef(TxHash(hs.h256, reward), 0), Created(reward.outputs[0], reward.epoch), AnyOutput);
  }

  /** A reward applied twice is minted twice and leaves one output: the second application replaces the first. */
  lemma RepeatedRewardReplaces(hs: Hashes, reward: Tx)
    requires IsReward(reward) && Encodable(reward)
    ensures var run := TwiceRewarded(hs, reward); var value := reward.outputs[0].value;
            && IsRun(run) && run.effects == [Completed, Completed]
            && Minted(run, 2) == 2 * value && Unspent(run.states[2].utxos) == value && Replaced(run, 2) == value
  {
    var run := TwiceRewarded(hs, reward);
    TwiceIsRun(hs, reward);
    assert TotalOutput(reward.outputs) == TotalOutput(reward.outputs[..0]) + reward.outputs[0].value;
    assert Minted(run, 1) == Minted(run, 0) + reward.outputs[0].value;
    assert Burned(run, 1) == Burned(run, 0) == 0;
    AccountIsExact(run, 2);
  }

  /** Values in the table are never negative. */
  ghost predicate NonNegative(utxos: Utxos) {
    forall r :: r in utxos ==> utxos[r].output.value >= 0
  }

  lemma {:induction false} TotalNonNegative(utxos: Utxos, inputs: seq<TxInput>)
    requires NonNegative(utxos)
    ensures InputTotal(utxos, inputs) >= 0
  {
    if inputs != [] {
      TotalNonNegative(utxos, inputs[..|inputs| - 1]);
    }
  }

  lemma ChangeKeepsNonNegative(before: Utxos, after: Utxos, tx: Tx, txHash: Bytes, effect: Effect)
    requires Changes(before, after, tx, txHash, effect) && NonNegative(before)
    requires effect == Completed ==> forall o :: o in tx.outputs ==> o.value >= 0
    ensures NonNegative(after)
  {
    forall r | r in after ensures after[r].output.value >= 0 {
      EntryAfter(before, after, tx, txHash, effect, r);
    }
  }

  lemma {:induction false} SameTotal(a: Utxos, b: Utxos, inputs: seq<TxInput>)
    requires forall r :: r in Refs(inputs) ==> r in a && r in b && a[r].output == b[r].output
    ensures InputTotal(a, inputs) == InputTotal(b, inputs)
  {
    if inputs != [] {
      var n := |inputs| - 1;
      assert inputs[n].prev in Refs(inputs);
      assert Refs(inputs[..n]) <= Refs(inputs);
      SameTotal(a, b, inputs[..n]);
    }
  }

  /** What an event pays for when it was checked it still pays for when it is applied. */
  lemma TotalUnchangedSinceCheck(run: Run, m: nat)
    requires Admissible(run) && m < |run.events| && run.effects[m] != Refused
    ensures run.events[m].checkedAt <= m
    ensures InputTotal(run.states[run.events[m].checkedAt].utxos, run.events[m].tx.inputs)
            == InputTotal(run.states[m].utxos, run.events[m].tx.inputs)
  {
    RunChanges(run, m);
    var c := run.events[m].checkedAt;
    forall r | r in Refs(run.events[m].tx.inputs)
      ensures r in run.states[m].utxos && run.states[m].utxos[r].output == run.states[c].utxos[r].output
    {
      SpentStaysSpent(run, c, m, r);
    }
    SameTotal(run.states[c].utxos, run.states[m].utxos, run.events[m].tx.inputs);
  }

  lemma CompletionBurnsFee(checked: Utxos, before: Utxos, tx: Tx)
    requires PaysForItself(checked, tx) && InputTotal(checked, tx.inputs) == InputTotal(before, tx.inputs)
    ensures tx.txType == Coinbase ==> BurnedBy(before, tx, Completed) == 0
    ensures tx.txType !in {Coinbase, Slash} ==> BurnedBy(before, tx, Completed) >= tx.fee >= 0
  {
  }

  /** Outside SLASH no step destroys a negative amount, and a completed one destroys at least its fee. */
  lemma RunBurns(run: Run, m: nat)
    requires Admissible(run) && m < |run.events| && NonNegative(run.states[m].utxos)
    ensures NonNegative(run.states[m + 1].utxos)
    ensures run.events[m].tx.txType != Slash ==> BurnedBy(run.states[m].utxos, run.events[m].tx, run.effects[m]) >= 0
    ensures run.events[m].tx.txType !in {Coinbase, Slash} && run.effects[m] == Completed ==>
              BurnedBy(run.states[m].utxos, run.events[m].tx, run.effects[m]) >= run.events[m].tx.fee
  {
    RunChanges(run, m);
    ChangeKeepsNonNegative(run.states[m].utxos, run.states[m + 1].utxos, run.events[m].tx, HashAt(run, m), run.effects[m]);
    match run.effects[m]
    case Refused =>
    case Partial(n) => TotalNonNegative(run.states[m].utxos, run.events[m].tx.inputs[..n]);
    case Completed =>
      TotalUnchangedSinceCheck(run, m);
      CompletionBurnsFee(run.states[run.events[m].checkedAt].utxos, run.states[m].utxos, run.events[m].tx);
  }

  lemma {:induction false} AlwaysNonNegative(run: Run, n: nat)
    requires Admissible(run) && n < |run.states|
    ensures NonNegative(run.states[n].utxos)
    decreases n
  {
    if n > 0 {
      AlwaysNonNegative(run, n - 1);
      RunBurns(run, n - 1);
    }
  }

  /** Without SLASH nothing but a coinbase raises the unspent value. */
  lemma {:induction false} NoInflation(run: Run, n: nat)
    requires Admissible(run) && n < |run.states|
    requires forall i :: 0 <= i < n ==> run.events[i].tx.txType != Slash
    ensures Burned(run, n) >= 0
    ensures Unspent(run.states[n].utxos) <= Minted(run, n)
    decreases n
  {
    ValueIsConserved(run, n);
    if n > 0 {
      NoInflation(run, n - 1);
      AlwaysNonNegative(run, n - 1);
      RunBurns(run, n - 1);
    }
  }
}
