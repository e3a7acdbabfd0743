/** The mempool's bookkeeping for any kind of transaction: who spends what, total size, priority order. */
module Pools {
  import opened Wrappers
  import opened ByteStrings
  import opened Sums
  import opened Order
  import opened Transactions

  // ------------------------------------------------------------------ priority

  datatype Rank = Rank(feeRate: real, timestamp: int, hash: Bytes)

  /** Descending tuple order. */
  predicate Precedes(a: Rank, b: Rank) {
    || a.feeRate > b.feeRate
    || (a.feeRate == b.feeRate && (a.timestamp > b.timestamp || (a.timestamp == b.timestamp && LexLess(b.hash, a.hash))))
  }

  lemma PrecedesTotal(a: Rank, b: Rank)
    ensures Precedes(a, b) || a == b || Precedes(b, a)
  {
    LexTotal(a.hash, b.hash);
  }

  lemma PrecedesTransitive(a: Rank, b: Rank, c: Rank)
    requires Precedes(a, b) && Precedes(b, c)
    ensures Precedes(a, c)
  {
    if a.feeRate == b.feeRate == c.feeRate && a.timestamp == b.timestamp == c.timestamp {
      LexTransitive(c.hash, b.hash, a.hash);
    }
  }

  lemma PrecedesIrreflexive(a: Rank)
    ensures !Precedes(a, a)
  {
    LexIrreflexive(a.hash);
  }

  ghost predicate Descending(s: seq<Rank>) {
    forall i, j :: 0 <= i < j < |s| ==> Precedes(s[i], s[j])
  }

  function Elems<T>(s: seq<T>): set<T> {
    set x | x in s
  }

  function Insert(e: Rank, s: seq<Rank>): seq<Rank> {
    if s == [] then [e]
    else if Precedes(e, s[0]) then [e] + s
    else [s[0]] + Insert(e, s[1..])
  }

  /** list.sort(reverse=True). */
  function SortDescending(s: seq<Rank>): seq<Rank> {
    if s == [] then [] else Insert(s[|s| - 1], SortDescending(s[..|s| - 1]))
  }

  lemma {:induction false} InsertKeepsOrder(e: Rank, s: seq<Rank>)
    requires Descending(s) && e !in s
    ensures Descending(Insert(e, s)) && Elems(Insert(e, s)) == Elems(s) + {e}
    decreases |s|
  {
    if s != [] {
      if Precedes(e, s[0]) {
        var r := [e] + s;
        forall j | 0 < j < |r| ensures Precedes(r[0], r[j]) {
          if j > 1 {
            PrecedesTransitive(e, s[0], s[j - 1]);
          }
        }
      } else {
        InsertKeepsOrder(e, s[1..]);
        PrecedesTotal(e, s[0]);
        var tail := Insert(e, s[1..]);
        assert Elems(s) == {s[0]} + Elems(s[1..]);
        forall j | 0 <= j < |tail| ensures Precedes(s[0], tail[j]) {
          assert tail[j] in Elems(tail);
          if tail[j] != e {
            var k :| 0 <= k < |s[1..]| && s[1..][k] == tail[j];
            assert s[1..][k] == s[k + 1];
          }
        }
      }
    }
  }

  ghost predicate Distinct<T(!new)>(s: seq<T>) {
    forall i, j :: 0 <= i < j < |s| ==> s[i] != s[j]
  }

  lemma {:induction false} SortSorts(s: seq<Rank>)
    requires Distinct(s)
    ensures Descending(SortDescending(s)) && Elems(SortDescending(s)) == Elems(s)
  {
    if s != [] {
      var n := |s| - 1;
      SortSorts(s[..n]);
      assert s[n] !in Elems(SortDescending(s[..n]));
      InsertKeepsOrder(s[n], SortDescending(s[..n]));
      assert Elems(s) == Elems(s[..n]) + {s[n]};
    }
  }

  lemma DescendingIsDistinct(s: seq<Rank>)
    requires Descending(s)
    ensures Distinct(s)
  {
    forall i, j | 0 <= i < j < |s| ensures s[i] != s[j] {
      PrecedesIrreflexive(s[i]);
    }
  }

  /** A descending list is determined by its elements. */
  lemma {:induction false} DescendingUnique(a: seq<Rank>, b: seq<Rank>)
    requires Descending(a) && Descending(b) && Elems(a) == Elems(b)
    ensures a == b
    decreases |a|
  {
    assert b != [] ==> b[0] in Elems(b);
    if a != [] {
      assert a[0] in Elems(b);
      assert b != [] && b[0] in Elems(a);
      HeadsAgree(a, b);
      DescendingIsDistinct(a);
      DescendingIsDistinct(b);
      ElemsTail(a);
      ElemsTail(b);
      DescendingUnique(a[1..], b[1..]);
      assert a == [a[0]] + a[1..] && b == [b[0]] + b[1..];
    }
  }

  lemma ElemsTail(a: seq<Rank>)
    requires a != [] && Distinct(a)
    ensures Elems(a[1..]) == Elems(a) - {a[0]}
  {
    forall x | x in Elems(a) - {a[0]} ensures x in Elems(a[1..]) {
      var k :| 0 <= k < |a| && a[k] == x;
      assert a[1..][k - 1] == x;
    }
  }

  lemma HeadsAgree(a: seq<Rank>, b: seq<Rank>)
    requires Descending(a) && Descending(b) && Elems(a) == Elems(b) && a != [] && b != []
    ensures a[0] == b[0]
  {
    assert a[0] in Elems(b) && b[0] in Elems(a);
    var i :| 0 <= i < |b| && b[i] == a[0];
    var j :| 0 <= j < |a| && a[j] == b[0];
    if i > 0 && j > 0 {
      PrecedesTransitive(a[0], b[0], a[0]);
      PrecedesIrreflexive(a[0]);
    }
  }

  function Without(s: seq<Rank>, hash: Bytes): seq<Rank> {
    if s == [] then []
    else if s[|s| - 1].hash == hash then Without(s[..|s| - 1], hash)
    else Without(s[..|s| - 1], hash) + [s[|s| - 1]]
  }

  lemma {:induction false} WithoutKeepsOrder(s: seq<Rank>, hash: Bytes)
    requires Descending(s)
    ensures Descending(Without(s, hash))
    ensures Elems(Without(s, hash)) == set e | e in s && e.hash != hash
  {
    if s != [] {
      var n := |s| - 1;
      WithoutKeepsOrder(s[..n], hash);
      assert Elems(s) == Elems(s[..n]) + {s[n]};
      var rest := Without(s[..n], hash);
      forall i | 0 <= i < |rest| ensures Precedes(rest[i], s[n]) {
        assert rest[i] in Elems(rest);
        var k :| 0 <= k < n && s[..n][k] == rest[i];
      }
      forall e ensures e in Elems(Without(s, hash)) <==> e in s && e.hash != hash {
        assert e in Elems(s) <==> e in Elems(s[..n]) || e == s[n];
        assert e in Elems(rest) <==> e in s[..n] && e.hash != hash;
      }
    }
  }

  // ---------------------------------------------------------------- invariants

  /** What the pool needs to know about a transaction; hashing may raise, which is None. */
  datatype Rules<!T> = Rules(
    hashOf: T -> Option<Bytes>, rateOf: T -> real, timeOf: T -> int, sizeOf: T -> nat, refsOf: T -> set<OutRef>)

  datatype Pool<T> = Pool(transactions: map<Bytes, T>, currentSize: int, priority: seq<Rank>, spentOutputs: set<OutRef>)

  function RankOf<T>(rules: Rules<T>, tx: T, hash: Bytes): Rank {
    Rank(rules.rateOf(tx), rules.timeOf(tx), hash)
  }

  function RanksOf<T>(rules: Rules<T>, txs: map<Bytes, T>): set<Rank> {
    set k | k in txs :: RankOf(rules, txs[k], k)
  }

  ghost function SizeAt<T>(rules: Rules<T>, txs: map<Bytes, T>): Bytes -> int {
    k => if k in txs then rules.sizeOf(txs[k]) else 0
  }

  predicate Uses<T>(rules: Rules<T>, txs: map<Bytes, T>, k: Bytes, r: OutRef) {
    k in txs && r in rules.refsOf(txs[k])
  }

  /** No output is an input of two transactions of the pool. */
  ghost predicate DisjointInputs<T>(rules: Rules<T>, txs: map<Bytes, T>) {
    forall k, l, r :: Uses(rules, txs, k, r) && Uses(rules, txs, l, r) ==> k == l
  }

  ghost predicate TracksSpent<T>(rules: Rules<T>, txs: map<Bytes, T>, spent: set<OutRef>) {
    forall r :: r in spent <==> exists k :: Uses(rules, txs, k, r)
  }

  ghost predicate Ranked<T>(rules: Rules<T>, txs: map<Bytes, T>, priority: seq<Rank>) {
    Descending(priority) && Elems(priority) == RanksOf(rules, txs)
  }

  ghost predicate Keyed<T>(rules: Rules<T>, txs: map<Bytes, T>) {
    forall k :: k in txs ==> rules.hashOf(txs[k]) == Some(k)
  }

  ghost predicate Good<T>(rules: Rules<T>, p: Pool<T>, maxSize: int) {
    && Keyed(rules, p.transactions) && DisjointInputs(rules, p.transactions)
    && TracksSpent(rules, p.transactions, p.spentOutputs)
    && p.currentSize == Sum(p.transactions.Keys, SizeAt(rules, p.transactions)) && p.currentSize <= maxSize
    && Ranked(rules, p.transactions, p.priority)
  }

  /** The set of transactions determines the spent outputs, the size and the priority order. */
  lemma PoolIsDetermined<T>(rules: Rules<T>, p: Pool<T>, q: Pool<T>, maxSize: int)
    requires Good(rules, p, maxSize) && Good(rules, q, maxSize) && p.transactions == q.transactions
    ensures p == q
  {
    DescendingUnique(p.priority, q.priority);
    assert p.spentOutputs == q.spentOutputs;
  }

  datatype AddOutcome = Accepted | AlreadyInPool | PoolFull | DoubleSpend | HashRaised

  /** What add_transaction answers. */
  function AddAnswer<T>(rules: Rules<T>, p: Pool<T>, tx: T, maxSize: int): AddOutcome {
    if rules.hashOf(tx).None? then HashRaised
    else if rules.hashOf(tx).value in p.transactions then AlreadyInPool
    else if p.currentSize + rules.sizeOf(tx) > maxSize then PoolFull
    else if rules.refsOf(tx) !! p.spentOutputs then Accepted
    else DoubleSpend
  }

  function Added<T>(rules: Rules<T>, p: Pool<T>, tx: T, k: Bytes): Pool<T> {
    Pool(p.transactions[k := tx], p.currentSize + rules.sizeOf(tx),
         SortDescending(p.priority + [RankOf(rules, tx, k)]), p.spentOutputs + rules.refsOf(tx))
  }

  function Removed<T>(rules: Rules<T>, p: Pool<T>, k: Bytes): Pool<T> {
    if k !in p.transactions then p
    else
      var tx := p.transactions[k];
      Pool(p.transactions - {k}, p.currentSize - rules.sizeOf(tx), Without(p.priority, k), p.spentOutputs - rules.refsOf(tx))
  }

  lemma AddKeepsGood<T>(rules: Rules<T>, p: Pool<T>, tx: T, maxSize: int)
    requires Good(rules, p, maxSize) && AddAnswer(rules, p, tx, maxSize) == Accepted
    ensures Good(rules, Added(rules, p, tx, rules.hashOf(tx).value), maxSize)
  {
    var k := rules.hashOf(tx).value;
    AddKeepsSize(rules, p.transactions, tx, k);
    AddKeepsRanks(rules, p.transactions, p.priority, tx, k);
    AddKeepsDisjoint(rules, p.transactions, p.spentOutputs, tx, k);
  }

  lemma RemoveKeepsGood<T>(rules: Rules<T>, p: Pool<T>, k: Bytes, maxSize: int)
    requires Good(rules, p, maxSize)
    ensures Good(rules, Removed(rules, p, k), maxSize)
  {
    if k in p.transactions {
      RemoveKeepsSize(rules, p.transactions, k);
      RemoveKeepsRanks(rules, p.transactions, p.priority, k);
      RemoveKeepsDisjoint(rules, p.transactions, p.spentOutputs, k);
    }
  }

  /** A transaction is accepted exactly when it is new, fits beside the pooled ones, and shares no input with any of them. */
  lemma AcceptedIff<T>(rules: Rules<T>, p: Pool<T>, tx: T, maxSize: int)
    requires Good(rules, p, maxSize)
    ensures AddAnswer(rules, p, tx, maxSize) == Accepted <==>
            && rules.hashOf(tx).Some? && rules.hashOf(tx).value !in p.transactions
            && Sum(p.transactions.Keys, SizeAt(rules, p.transactions)) + rules.sizeOf(tx) <= maxSize
            && forall k :: k in p.transactions ==> rules.refsOf(p.transactions[k]) !! rules.refsOf(tx)
  {
    if r :| r in rules.refsOf(tx) && r in p.spentOutputs {
      var k :| Uses(rules, p.transactions, k, r);
      assert r in rules.refsOf(p.transactions[k]);
    }
    if k, r :| k in p.transactions && r in rules.refsOf(p.transactions[k]) && r in rules.refsOf(tx) {
      assert Uses(rules, p.transactions, k, r);
    }
  }

  lemma AddedThenRemoved<T>(txs: map<Bytes, T>, tx: T, k: Bytes)
    requires k !in txs
    ensures txs[k := tx] - {k} == txs
  {
  }

  /** Removing what was just added restores the pool. */
  lemma RemoveUndoesAdd<T>(rules: Rules<T>, p: Pool<T>, tx: T, maxSize: int)
    requires Good(rules, p, maxSize) && AddAnswer(rules, p, tx, maxSize) == Accepted
    ensures var k := rules.hashOf(tx).value; Removed(rules, Added(rules, p, tx, k), k) == p
  {
    var k := rules.hashOf(tx).value;
    AddKeepsGood(rules, p, tx, maxSize);
    RemoveKeepsGood(rules, Added(rules, p, tx, k), k, maxSize);
    AddedThenRemoved(p.transactions, tx, k);
    PoolIsDetermined(rules, Removed(rules, Added(rules, p, tx, k), k), p, maxSize);
  }

  lemma AddKeepsSize<T>(rules: Rules<T>, txs: map<Bytes, T>, tx: T, k: Bytes)
    requires k !in txs
    ensures Sum(txs[k := tx].Keys, SizeAt(rules, txs[k := tx])) == Sum(txs.Keys, SizeAt(rules, txs)) + rules.sizeOf(tx)
  {
    var more := txs[k := tx];
    assert more.Keys == txs.Keys + {k};
    SumAdd(txs.Keys, k, SizeAt(rules, more));
    SumCongruent(txs.Keys, SizeAt(rules, txs), SizeAt(rules, more));
  }

  lemma RemoveKeepsSize<T>(rules: Rules<T>, txs: map<Bytes, T>, k: Bytes)
    requires k in txs
    ensures Sum((txs - {k}).Keys, SizeAt(rules, txs - {k})) == Sum(txs.Keys, SizeAt(rules, txs)) - rules.sizeOf(txs[k])
  {
    var less := txs - {k};
    assert less.Keys == txs.Keys - {k};
    SumRemove(txs.Keys, k, SizeAt(rules, txs));
    SumCongruent(less.Keys, SizeAt(rules, txs), SizeAt(rules, less));
  }

  lemma AddKeepsRanks<T>(rules: Rules<T>, txs: map<Bytes, T>, priority: seq<Rank>, tx: T, k: Bytes)
    requires Ranked(rules, txs, priority) && k !in txs
    ensures Ranked(rules, txs[k := tx], SortDescending(priority + [RankOf(rules, tx, k)]))
  {
    var e := RankOf(rules, tx, k);
    DescendingIsDistinct(priority);
    assert e in priority ==> e in Elems(priority);
    SortSorts(priority + [e]);
    assert Elems(priority + [e]) == Elems(priority) + {e};
    forall x | x in RanksOf(rules, txs) + {e} ensures x in RanksOf(rules, txs[k := tx]) {
      if x != e {
        var l :| l in txs && x == RankOf(rules, txs[l], l);
        assert l in txs[k := tx] && txs[k := tx][l] == txs[l];
      } else {
        assert k in txs[k := tx] && txs[k := tx][k] == tx;
      }
    }
    assert RanksOf(rules, txs[k := tx]) == RanksOf(rules, txs) + {e};
  }

  lemma AddKeepsDisjoint<T>(rules: Rules<T>, txs: map<Bytes, T>, spent: set<OutRef>, tx: T, k: Bytes)
    requires DisjointInputs(rules, txs) && TracksSpent(rules, txs, spent) && k !in txs && rules.refsOf(tx) !! spent
    ensures DisjointInputs(rules, txs[k := tx]) && TracksSpent(rules, txs[k := tx], spent + rules.refsOf(tx))
  {
    var more := txs[k := tx];
    forall l, r | Uses(rules, more, l, r) ensures l == k || (Uses(rules, txs, l, r) && r in spent) {
      assert l != k ==> Uses(rules, txs, l, r);
    }
    forall r ensures r in spent + rules.refsOf(tx) <==> exists l :: Uses(rules, more, l, r) {
      if r in spent {
        var l :| Uses(rules, txs, l, r);
        assert Uses(rules, more, l, r);
      } else if r in rules.refsOf(tx) {
        assert Uses(rules, more, k, r);
      }
    }
  }

  lemma RemoveKeepsRanks<T>(rules: Rules<T>, txs: map<Bytes, T>, priority: seq<Rank>, k: Bytes)
    requires Ranked(rules, txs, priority) && k in txs
    ensures Ranked(rules, txs - {k}, Without(priority, k))
  {
    var less := txs - {k};
    WithoutKeepsOrder(priority, k);
    forall e | e in RanksOf(rules, less) ensures e in Elems(Without(priority, k)) {
      var l :| l in less && e == RankOf(rules, less[l], l);
      assert l in txs && e in RanksOf(rules, txs);
      assert e in Elems(priority);
    }
    forall e | e in Elems(Without(priority, k)) ensures e in RanksOf(rules, less) {
      assert e in Elems(priority);
      var l :| l in txs && e == RankOf(rules, txs[l], l);
      assert l in less && less[l] == txs[l];
    }
  }

  lemma RemoveKeepsDisjoint<T>(rules: Rules<T>, txs: map<Bytes, T>, spent: set<OutRef>, k: Bytes)
    requires DisjointInputs(rules, txs) && TracksSpent(rules, txs, spent) && k in txs
    ensures DisjointInputs(rules, txs - {k}) && TracksSpent(rules, txs - {k}, spent - rules.refsOf(txs[k]))
  {
    var less := txs - {k};
    forall l, r ensures Uses(rules, less, l, r) <==> l != k && Uses(rules, txs, l, r) {
    }
    forall r | r in spent - rules.refsOf(txs[k]) ensures exists l :: Uses(rules, less, l, r) {
      var l :| Uses(rules, txs, l, r);
      assert l != k;
      assert Uses(rules, less, l, r);
    }
    forall l, r | Uses(rules, less, l, r) ensures r in spent - rules.refsOf(txs[k]) {
      assert Uses(rules, txs, l, r);
      assert r in rules.refsOf(txs[k]) ==> Uses(rules, txs, k, r);
    }
  }

  // ------------------------------------------------------------ block selection

  function Total(sizes: seq<nat>, positions: seq<nat>): nat {
    if positions == [] then 0
    else
      var p := positions[|positions| - 1];
      Total(sizes, positions[..|positions| - 1]) + (if p < |sizes| then sizes[p] else 0)
  }

  /** The positions a greedy walk takes: each one that still fits after those taken before it. */
  function Picks(sizes: seq<nat>, limit: int): seq<nat> {
    if sizes == [] then []
    else
      var n := |sizes| - 1;
      var before := Picks(sizes[..n], limit);
      if Total(sizes[..n], before) + sizes[n] > limit then before else before + [n]
  }

  ghost predicate Increasing(positions: seq<nat>, n: nat) {
    && (forall i :: 0 <= i < |positions| ==> positions[i] < n)
    && (forall i, j :: 0 <= i < j < |positions| ==> positions[i] < positions[j])
  }

  lemma {:induction false} TotalOfPrefix(sizes: seq<nat>, n: nat, positions: seq<nat>)
    requires n <= |sizes| && forall p :: p in positions ==> p < n
    ensures Total(sizes, positions) == Total(sizes[..n], positions)
  {
    if positions != [] {
      var m := |positions| - 1;
      assert positions[m] in positions;
      assert forall p :: p in positions[..m] ==> p in positions;
      TotalOfPrefix(sizes, n, positions[..m]);
      assert positions[m] < n;
    }
  }

  /** Picks come in order, and together respect the limit. */
  lemma {:induction false} PicksFit(sizes: seq<nat>, limit: nat)
    ensures Increasing(Picks(sizes, limit), |sizes|) && Total(sizes, Picks(sizes, limit)) <= limit
  {
    if sizes != [] {
      var n := |sizes| - 1;
      var before := Picks(sizes[..n], limit);
      PicksFit(sizes[..n], limit);
      TotalOfPrefix(sizes, n, before);
      assert (before + [n])[..|before|] == before;
    }
  }

  lemma PicksNext(sizes: seq<nat>, limit: nat, k: nat)
    requires k < |sizes|
    ensures var before := Picks(sizes[..k], limit);
            && Total(sizes[..k + 1], before) == Total(sizes[..k], before)
            && Total(sizes[..k + 1], before + [k]) == Total(sizes[..k], before) + sizes[k]
            && Picks(sizes[..k + 1], limit) == if Total(sizes[..k], before) + sizes[k] > limit then before else before + [k]
  {
    var before := Picks(sizes[..k], limit);
    PicksFit(sizes[..k], limit);
    assert sizes[..k + 1][..k] == sizes[..k];
    TotalOfPrefix(sizes[..k + 1], k, before);
    assert (before + [k])[..|before|] == before;
  }

  /** Position j is picked exactly when it fits after the picks among the positions before it. */
  lemma {:induction false} PickedIffFits(sizes: seq<nat>, limit: nat, j: nat)
    requires j < |sizes|
    ensures Picks(sizes[..j], limit) <= Picks(sizes, limit)
    ensures j in Picks(sizes, limit) <==> Total(sizes[..j], Picks(sizes[..j], limit)) + sizes[j] <= limit
    decreases |sizes|
  {
    var n := |sizes| - 1;
    assert sizes[..n + 1] == sizes;
    PicksNext(sizes, limit, n);
    if j < n {
      PickedIffFits(sizes[..n], limit, j);
      assert sizes[..n][..j] == sizes[..j];
    } else {
      PicksFit(sizes[..n], limit);
    }
  }

  /** The transactions of the pool in priority order. */
  function InOrder<T>(txs: map<Bytes, T>, priority: seq<Rank>): (r: seq<T>)
    requires forall e :: e in priority ==> e.hash in txs
    ensures |r| == |priority|
  {
    if priority == [] then []
    else InOrder(txs, priority[..|priority| - 1]) + [txs[priority[|priority| - 1].hash]]
  }

  lemma {:induction false} InOrderAt<T>(txs: map<Bytes, T>, priority: seq<Rank>, i: nat)
    requires (forall e :: e in priority ==> e.hash in txs) && i < |priority|
    ensures InOrder(txs, priority)[i] == txs[priority[i].hash]
  {
    if i < |priority| - 1 {
      InOrderAt(txs, priority[..|priority| - 1], i);
    } else {
      assert priority[i] in priority;
    }
  }

  function Sizes<T>(rules: Rules<T>, list: seq<T>): (r: seq<nat>)
    ensures |r| == |list|
  {
    if list == [] then [] else Sizes(rules, list[..|list| - 1]) + [rules.sizeOf(list[|list| - 1])]
  }

  lemma {:induction false} SizesAt<T>(rules: Rules<T>, list: seq<T>, i: nat)
    requires i < |list|
    ensures Sizes(rules, list)[i] == rules.sizeOf(list[i])
  {
    if i < |list| - 1 {
      SizesAt(rules, list[..|list| - 1], i);
    }
  }

  function Select<T>(list: seq<T>, positions: seq<nat>): (r: seq<T>)
    requires forall i :: 0 <= i < |positions| ==> positions[i] < |list|
    ensures |r| == |positions| && forall i :: 0 <= i < |r| ==> r[i] == list[positions[i]]
  {
    if positions == [] then []
    else Select(list, positions[..|positions| - 1]) + [list[positions[|positions| - 1]]]
  }

  /** Progress of the walk: the picks, transactions and size among the first k positions. */
  ghost predicate Walked<T>(list: seq<T>, sizes: seq<nat>, limit: nat, k: nat, picks: seq<nat>, result: seq<T>, total: nat) {
    && k <= |sizes| == |list| && picks == Picks(sizes[..k], limit)
    && (forall i :: 0 <= i < |picks| ==> picks[i] < k)
    && result == Select(list, picks) && total == Total(sizes[..k], picks)
  }

  lemma WalkNext<T>(list: seq<T>, sizes: seq<nat>, limit: nat, k: nat, picks: seq<nat>, result: seq<T>, total: nat)
    requires Walked(list, sizes, limit, k, picks, result, total) && k < |sizes|
    ensures if total + sizes[k] <= limit
            then Walked(list, sizes, limit, k + 1, picks + [k], result + [list[k]], total + sizes[k])
            else Walked(list, sizes, limit, k + 1, picks, result, total)
  {
    PicksNext(sizes, limit, k);
    assert (picks + [k])[..|picks|] == picks;
  }

  /** Every ranked hash is in the pool, under the rank of its transaction. */
  lemma RankedIsListed<T>(rules: Rules<T>, txs: map<Bytes, T>, priority: seq<Rank>)
    requires Ranked(rules, txs, priority)
    ensures forall e :: e in priority ==> e.hash in txs && e == RankOf(rules, txs[e.hash], e.hash)
    ensures forall k :: k in txs ==> RankOf(rules, txs[k], k) in priority
  {
    forall e | e in priority ensures e.hash in txs && e == RankOf(rules, txs[e.hash], e.hash) {
      assert e in Elems(priority);
    }
    forall k | k in txs ensures RankOf(rules, txs[k], k) in priority {
      assert RankOf(rules, txs[k], k) in RanksOf(rules, txs);
      assert RankOf(rules, txs[k], k) in Elems(priority);
    }
  }

  /** What get_transactions_for_block returns. */
  function Selection<T>(rules: Rules<T>, txs: map<Bytes, T>, priority: seq<Rank>, limit: nat): seq<T>
    requires forall e :: e in priority ==> e.hash in txs
  {
    var list := InOrder(txs, priority);
    PicksFit(Sizes(rules, list), limit);
    Select(list, Picks(Sizes(rules, list), limit))
  }

  ghost predicate Listed<T>(txs: map<Bytes, T>, priority: seq<Rank>) {
    forall e :: e in priority ==> e.hash in txs
  }

  /** The walk over the first k hashes of the priority list. */
  ghost predicate Visited<T>(rules: Rules<T>, txs: map<Bytes, T>, priority: seq<Rank>, limit: nat,
                             k: nat, picks: seq<nat>, result: seq<T>, total: nat)
  {
    && Listed(txs, priority)
    && Walked(InOrder(txs, priority), Sizes(rules, InOrder(txs, priority)), limit, k, picks, result, total)
  }

  lemma VisitNext<T>(rules: Rules<T>, txs: map<Bytes, T>, priority: seq<Rank>, limit: nat,
                     k: nat, picks: seq<nat>, result: seq<T>, total: nat)
    requires Visited(rules, txs, priority, limit, k, picks, result, total) && k < |priority|
    ensures priority[k].hash in txs
    ensures var tx := txs[priority[k].hash];
            if total + rules.sizeOf(tx) <= limit
            then Visited(rules, txs, priority, limit, k + 1, picks + [k], result + [tx], total + rules.sizeOf(tx))
            else Visited(rules, txs, priority, limit, k + 1, picks, result, total)
  {
    assert priority[k] in priority;
    var list := InOrder(txs, priority);
    InOrderAt(txs, priority, k);
    SizesAt(rules, list, k);
    WalkNext(list, Sizes(rules, list), limit, k, picks, result, total);
  }

  lemma VisitedAll<T>(rules: Rules<T>, txs: map<Bytes, T>, priority: seq<Rank>, limit: nat,
                      picks: seq<nat>, result: seq<T>, total: nat)
    requires Visited(rules, txs, priority, limit, |priority|, picks, result, total)
    ensures result == Selection(rules, txs, priority, limit)
  {
    var sizes := Sizes(rules, InOrder(txs, priority));
    assert sizes[..|sizes|] == sizes;
  }

  /** The loop over the priority list, for any kind of transaction. */
  method PickForBlock<T>(rules: Rules<T>, txs: map<Bytes, T>, priority: seq<Rank>, limit: nat) returns (result: seq<T>)
    requires Listed(txs, priority)
    ensures result == Selection(rules, txs, priority, limit)
  {
    ghost var picks: seq<nat> := [];
    result := [];
    var totalSize: nat := 0;
    for k := 0 to |priority|
      invariant Visited(rules, txs, priority, limit, k, picks, result, totalSize)
    {
      VisitNext(rules, txs, priority, limit, k, picks, result, totalSize);
      var tx := txs[priority[k].hash];
      if totalSize + rules.sizeOf(tx) <= limit {
        result := result + [tx];
        totalSize := totalSize + rules.sizeOf(tx);
        picks := picks + [k];
      }
    }
    VisitedAll(rules, txs, priority, limit, picks, result, totalSize);
  }

  ghost predicate PairwiseDisjoint<T>(rules: Rules<T>, list: seq<T>) {
    forall i, j :: 0 <= i < j < |list| ==> rules.refsOf(list[i]) !! rules.refsOf(list[j])
  }

  /** The selection lists transactions of the pool, no two of which share an input. */
  lemma SelectionIsDisjoint<T>(rules: Rules<T>, p: Pool<T>, maxSize: int, limit: nat)
    requires Good(rules, p, maxSize)
    ensures forall e :: e in p.priority ==> e.hash in p.transactions
    ensures PairwiseDisjoint(rules, Selection(rules, p.transactions, p.priority, limit))
    ensures forall t :: t in Selection(rules, p.transactions, p.priority, limit) ==>
              rules.hashOf(t).Some? && rules.hashOf(t).value in p.transactions && p.transactions[rules.hashOf(t).value] == t
  {
    RankedIsListed(rules, p.transactions, p.priority);
    var list := InOrder(p.transactions, p.priority);
    var picks := Picks(Sizes(rules, list), limit);
    PicksFit(Sizes(rules, list), limit);
    forall i, j | 0 <= i < j < |list| ensures rules.refsOf(list[i]) !! rules.refsOf(list[j]) {
      InOrderAt(p.transactions, p.priority, i);
      InOrderAt(p.transactions, p.priority, j);
      PrecedesIrreflexive(p.priority[i]);
      DifferentHashes(rules, p, i, j);
      NotShared(rules, p.transactions, p.priority[i].hash, p.priority[j].hash);
    }
    forall i | 0 <= i < |list|
      ensures rules.hashOf(list[i]).Some? && rules.hashOf(list[i]).value in p.transactions
              && p.transactions[rules.hashOf(list[i]).value] == list[i]
    {
      InOrderAt(p.transactions, p.priority, i);
      assert p.priority[i] in p.priority;
    }
  }

  /** The i-th selected transaction comes from the i-th position picked, and carries the rank listed there. */
  lemma SelectedRank<T>(rules: Rules<T>, p: Pool<T>, maxSize: int, limit: nat, i: nat) returns (at: nat)
    requires Good(rules, p, maxSize) && Listed(p.transactions, p.priority)
    requires i < |Selection(rules, p.transactions, p.priority, limit)|
    ensures var picks := Picks(Sizes(rules, InOrder(p.transactions, p.priority)), limit);
            i < |picks| && at == picks[i] && at < |p.priority|
    ensures var tx := Selection(rules, p.transactions, p.priority, limit)[i];
            rules.hashOf(tx).Some? && p.priority[at] == RankOf(rules, tx, rules.hashOf(tx).value)
  {
    var list := InOrder(p.transactions, p.priority);
    PicksFit(Sizes(rules, list), limit);
    at := Picks(Sizes(rules, list), limit)[i];
    RankedIsListed(rules, p.transactions, p.priority);
    InOrderAt(p.transactions, p.priority, at);
    assert p.priority[at] in p.priority;
  }

  /** The best-paying come first: a strictly higher fee rate stands before a lower one, whatever else they carry. */
  lemma HigherRateFirst<T>(rules: Rules<T>, p: Pool<T>, maxSize: int, limit: nat, i: nat, j: nat)
    requires Good(rules, p, maxSize) && Listed(p.transactions, p.priority)
    requires var selection := Selection(rules, p.transactions, p.priority, limit);
             i < |selection| && j < |selection| && rules.rateOf(selection[i]) > rules.rateOf(selection[j])
    ensures i < j
  {
    if j < i {
      EqualRateOrder(rules, p, maxSize, limit, j, i);
    }
  }

  /** Among equal rates the later timestamp stands first, and among equal timestamps the larger hash. */
  lemma EqualRateOrder<T>(rules: Rules<T>, p: Pool<T>, maxSize: int, limit: nat, i: nat, j: nat)
    requires Good(rules, p, maxSize) && Listed(p.transactions, p.priority)
    requires i < j < |Selection(rules, p.transactions, p.priority, limit)|
    ensures var s, t := Selection(rules, p.transactions, p.priority, limit)[i], Selection(rules, p.transactions, p.priority, limit)[j];
            && rules.hashOf(s).Some? && rules.hashOf(t).Some? && rules.rateOf(s) >= rules.rateOf(t)
            && (rules.rateOf(s) == rules.rateOf(t) ==>
                  || rules.timeOf(s) > rules.timeOf(t)
                  || (rules.timeOf(s) == rules.timeOf(t) && LexLess(rules.hashOf(t).value, rules.hashOf(s).value)))
  {
    var a := SelectedRank(rules, p, maxSize, limit, i);
    var b := SelectedRank(rules, p, maxSize, limit, j);
    PicksFit(Sizes(rules, InOrder(p.transactions, p.priority)), limit);
    assert Precedes(p.priority[a], p.priority[b]);
  }

  lemma NotShared<T>(rules: Rules<T>, txs: map<Bytes, T>, k: Bytes, l: Bytes)
    requires DisjointInputs(rules, txs) && k in txs && l in txs && k != l
    ensures rules.refsOf(txs[k]) !! rules.refsOf(txs[l])
  {
    forall r ensures !(r in rules.refsOf(txs[k]) && r in rules.refsOf(txs[l])) {
      assert Uses(rules, txs, k, r) <==> r in rules.refsOf(txs[k]);
      assert Uses(rules, txs, l, r) <==> r in rules.refsOf(txs[l]);
    }
  }

  lemma DifferentHashes<T>(rules: Rules<T>, p: Pool<T>, i: nat, j: nat)
    requires Ranked(rules, p.transactions, p.priority) && i < j < |p.priority|
    ensures p.priority[i].hash != p.priority[j].hash
  {
    RankedIsListed(rules, p.transactions, p.priority);
    PrecedesIrreflexive(p.priority[i]);
    assert p.priority[i] in p.priority && p.priority[j] in p.priority;
  }
}

/** The mempool object. */
module Mempools {
  import opened Wrappers
  import opened ByteStrings
  import opened Transactions
  import opened LedgerValue
  import opened Pools

  /** The fee per byte as computed from fee and size; the results hold for any rounding of the quotient. */
  type Rate = (int, nat) -> real

  function TxRules(h: Sha256, rate: Rate): Rules<Tx> {
    Rules((tx: Tx) => if Encodable(tx) then Some(TxHash(h, tx)) else None, (tx: Tx) => rate(tx.fee, Size(tx)), (tx: Tx) => tx.timestamp,
          (tx: Tx) => Size(tx), (tx: Tx) => Refs(tx.inputs))
  }

  /** Of two transactions selected for a block the one with the strictly higher fee per byte stands first. */
  lemma HigherFeeFirst(h: Sha256, rate: Rate, p: Pool<Tx>, maxSize: int, limit: nat, i: nat, j: nat)
    requires Good(TxRules(h, rate), p, maxSize) && Listed(p.transactions, p.priority)
    requires var selection := Selection(TxRules(h, rate), p.transactions, p.priority, limit);
             && i < |selection| && j < |selection|
             && rate(selection[i].fee, Size(selection[i])) > rate(selection[j].fee, Size(selection[j]))
    ensures i < j
  {
    HigherRateFirst(TxRules(h, rate), p, maxSize, limit, i, j);
  }

  lemma RefsSnoc(inputs: seq<TxInput>, k: nat)
    requires k < |inputs|
    ensures Refs(inputs[..k + 1]) == Refs(inputs[..k]) + {inputs[k].prev}
  {
    assert inputs[..k + 1] == inputs[..k] + [inputs[k]];
  }

  ghost predicate Grows<K>(s: set<K>, k: K) { |s + {k}| == |s| + 1 }

  ghost predicate Shrinks<K>(s: set<K>, k: K) { |s - {k}| < |s| }

  lemma CountsChange<K>(hit: set<K>, rest: set<K>, k: K)
    requires k in rest && hit !! rest
    ensures Grows(hit, k) && Shrinks(rest, k)
  {
  }

  /** The keys outside `rest` have been taken out of a map; `hit` are those that were in it. */
  ghost predicate Cleared<K, V>(before: map<K, V>, now: map<K, V>, all: set<K>, rest: set<K>, hit: set<K>) {
    rest <= all && now == before - (all - rest) && hit == before.Keys * (all - rest)
  }

  lemma ClearedNext<K, V>(before: map<K, V>, now: map<K, V>, all: set<K>, rest: set<K>, hit: set<K>, k: K)
    requires Cleared(before, now, all, rest, hit) && k in rest
    ensures if k in now then Cleared(before, now - {k}, all, rest - {k}, hit + {k})
            else Cleared(before, now, all, rest - {k}, hit)
  {
    assert all - (rest - {k}) == all - rest + {k};
  }

  lemma ClearedAll<K, V>(before: map<K, V>, now: map<K, V>, all: set<K>, hit: set<K>)
    requires Cleared(before, now, all, {}, hit)
    ensures now == before - all && hit == before.Keys * all
  {
    assert all - {} == all;
  }

  class Mempool {
    const rules: Rules<Tx>
    const maxSize: nat
    var currentSize: int
    var transactions: map<Bytes, Tx>
    var priority: seq<Rank>
    var spentOutputs: set<OutRef>

    ghost function View(): Pool<Tx>
      reads this
    {
      Pool(transactions, currentSize, priority, spentOutputs)
    }

    ghost predicate Valid()
      reads this
    {
      (forall tx: Tx :: rules.refsOf(tx) == Refs(tx.inputs)) && Good(rules, View(), maxSize)
    }

    constructor (h: Sha256, rate: Rate, maxSizeMb: nat)
      ensures Valid() && rules == TxRules(h, rate) && maxSize == maxSizeMb * 1024 * 1024 && transactions == map[]
    {
      rules := TxRules(h, rate);
      maxSize := maxSizeMb * 1024 * 1024;
      currentSize, transactions, priority, spentOutputs := 0, map[], [], {};
    }

    /** Is some input already spent by a transaction of the pool? */
    method Conflicts(tx: Tx) returns (found: bool)
      ensures found <==> !(Refs(tx.inputs) !! spentOutputs)
    {
      for k := 0 to |tx.inputs|
        invariant forall j :: 0 <= j < k ==> tx.inputs[j].prev !in spentOutputs
      {
        if tx.inputs[k].prev in spentOutputs {
          assert tx.inputs[k].prev in Refs(tx.inputs);
          return true;
        }
      }
      return false;
    }

    method Track(inputs: seq<TxInput>)
      modifies this`spentOutputs
      ensures spentOutputs == old(spentOutputs) + Refs(inputs)
    {
      for k := 0 to |inputs|
        invariant spentOutputs == old(spentOutputs) + Refs(inputs[..k])
      {
        RefsSnoc(inputs, k);
        spentOutputs := spentOutputs + {inputs[k].prev};
      }
      assert inputs[..|inputs|] == inputs;
    }

    method Untrack(inputs: seq<TxInput>)
      modifies this`spentOutputs
      ensures spentOutputs == old(spentOutputs) - Refs(inputs)
    {
      for k := 0 to |inputs|
        invariant spentOutputs == old(spentOutputs) - Refs(inputs[..k])
      {
        RefsSnoc(inputs, k);
        spentOutputs := spentOutputs - {inputs[k].prev};
      }
      assert inputs[..|inputs|] == inputs;
    }

    method AddTransaction(tx: Tx) returns (r: AddOutcome)
      requires Valid()
      modifies this
      ensures Valid() && r == AddAnswer(rules, old(View()), tx, maxSize)
      ensures View() == if r == Accepted then Added(rules, old(View()), tx, rules.hashOf(tx).value) else old(View())
    {
      var txHash := rules.hashOf(tx);
      if txHash.None? {
        return HashRaised;
      }
      if txHash.value in transactions {
        return AlreadyInPool;
      }
      if currentSize + rules.sizeOf(tx) > maxSize {
        return PoolFull;
      }
      var conflict := Conflicts(tx);
      if conflict {
        return DoubleSpend;
      }
      AddKeepsGood(rules, View(), tx, maxSize);
      transactions := transactions[txHash.value := tx];
      currentSize := currentSize + rules.sizeOf(tx);
      Track(tx.inputs);
      priority := SortDescending(priority + [RankOf(rules, tx, txHash.value)]);
      return Accepted;
    }

    method RemoveTransaction(txHash: Bytes) returns (r: Option<Tx>)
      requires Valid()
      modifies this
      ensures Valid() && View() == Removed(rules, old(View()), txHash)
      ensures r == if txHash in old(transactions) then Some(old(transactions)[txHash]) else None
    {
      if txHash !in transactions {
        return None;
      }
      RemoveKeepsGood(rules, View(), txHash, maxSize);
      var tx := transactions[txHash];
      transactions := transactions - {txHash};
      currentSize := currentSize - rules.sizeOf(tx);
      Untrack(tx.inputs);
      priority := Without(priority, txHash);
      return Some(tx);
    }

    method GetTransactionsForBlock(limit: nat) returns (result: seq<Tx>)
      requires Valid()
      ensures forall e :: e in priority ==> e.hash in transactions
      ensures result == Selection(rules, transactions, priority, limit)
    {
      RankedIsListed(rules, transactions, priority);
      result := PickForBlock(rules, transactions, priority, limit);
    }

    /** The order in which the confirmed hashes are taken does not matter: all are gone afterwards. */
    method ClearConfirmed(confirmed: set<Bytes>) returns (removed: nat)
      requires Valid()
      modifies this
      ensures Valid() && transactions == old(transactions) - confirmed
      ensures removed == |old(transactions).Keys * confirmed|
    {
      removed := 0;
      ghost var before := transactions;
      var rest := confirmed;
      ghost var hit: set<Bytes> := {};
      while rest != {}
        invariant Valid()
        invariant Cleared(before, transactions, confirmed, rest, hit) && removed == |hit|
        decreases |rest|
      {
        var txHash :| txHash in rest;
        CountsChange(hit, rest, txHash);
        ClearedNext(before, transactions, confirmed, rest, hit, txHash);
        var r := RemoveTransaction(txHash);
        if r != None {
          removed := removed + 1;
          hit := hit + {txHash};
        }
        rest := rest - {txHash};
      }
      ClearedAll(before, transactions, confirmed, hit);
    }
  }
}
