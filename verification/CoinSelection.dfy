/** Coin selection, for any kind of coin. */
module CoinSelection {
  /** The coins that pass the filter, in order. */
  function Passing<C>(coins: seq<C>, ok: C -> bool): seq<C> {
    if coins == [] then []
    else
      var before, c := Passing(coins[..|coins| - 1], ok), coins[|coins| - 1];
      if ok(c) then before + [c] else before
  }

  function TotalValue<C>(coins: seq<C>, value: C -> int): int {
    if coins == [] then 0 else TotalValue(coins[..|coins| - 1], value) + value(coins[|coins| - 1])
  }

  /** Stable: after all coins of at least the same value. */
  function InsertCoin<C>(c: C, sorted: seq<C>, value: C -> int): seq<C> {
    if sorted == [] then [c]
    else if value(sorted[0]) < value(c) then [c] + sorted
    else [sorted[0]] + InsertCoin(c, sorted[1..], value)
  }

  /** sort(key=value, reverse=True). */
  function LargestFirst<C>(coins: seq<C>, value: C -> int): seq<C> {
    if coins == [] then [] else InsertCoin(coins[|coins| - 1], LargestFirst(coins[..|coins| - 1], value), value)
  }

  /** How many coins are taken, going on from `taken`: up to the first prefix that covers what is needed, else all. */
  function TakeCount<C>(sorted: seq<C>, taken: nat, needed: int, value: C -> int): (n: nat)
    requires taken <= |sorted|
    ensures taken <= n <= |sorted|
    decreases |sorted| - taken
  {
    if taken == |sorted| then taken
    else if TotalValue(sorted[..taken + 1], value) >= needed then taken + 1
    else TakeCount(sorted, taken + 1, needed, value)
  }

  function Selected<C>(coins: seq<C>, ok: C -> bool, value: C -> int, needed: int): seq<C> {
    var sorted := LargestFirst(Passing(coins, ok), value);
    sorted[..TakeCount(sorted, 0, needed, value)]
  }

  lemma {:induction false} PassingOnly<C>(coins: seq<C>, ok: C -> bool, c: C)
    ensures c in Passing(coins, ok) <==> c in coins && ok(c)
  {
    if coins != [] {
      PassingOnly(coins[..|coins| - 1], ok, c);
      assert coins == coins[..|coins| - 1] + [coins[|coins| - 1]];
    }
  }

  ghost predicate Descending<C>(s: seq<C>, value: C -> int) {
    forall i, j :: 0 <= i < j < |s| ==> value(s[i]) >= value(s[j])
  }

  lemma {:induction false} InsertSorts<C>(c: C, sorted: seq<C>, value: C -> int)
    requires Descending(sorted, value)
    ensures Descending(InsertCoin(c, sorted, value), value)
    ensures multiset(InsertCoin(c, sorted, value)) == multiset(sorted) + multiset{c}
  {
    if sorted != [] {
      assert sorted == [sorted[0]] + sorted[1..];
      if value(sorted[0]) >= value(c) {
        InsertSorts(c, sorted[1..], value);
        var rest := InsertCoin(c, sorted[1..], value);
        forall j | 0 <= j < |rest| ensures value(sorted[0]) >= value(rest[j]) {
          assert rest[j] in multiset(rest);
          assert rest[j] == c || rest[j] in multiset(sorted[1..]);
        }
      }
    }
  }

  /** Sorting keeps the coins and puts larger ones first. */
  lemma {:induction false} LargestFirstSorts<C>(coins: seq<C>, value: C -> int)
    ensures Descending(LargestFirst(coins, value), value) && multiset(LargestFirst(coins, value)) == multiset(coins)
  {
    if coins != [] {
      var n := |coins| - 1;
      LargestFirstSorts(coins[..n], value);
      InsertSorts(coins[n], LargestFirst(coins[..n], value), value);
      assert coins == coins[..n] + [coins[n]];
    }
  }

  lemma {:induction false} TakeIsShortest<C>(sorted: seq<C>, taken: nat, needed: int, value: C -> int)
    requires taken <= |sorted| && forall k :: 0 < k <= taken ==> TotalValue(sorted[..k], value) < needed
    ensures var n := TakeCount(sorted, taken, needed, value);
            && (forall k :: 0 < k < n ==> TotalValue(sorted[..k], value) < needed)
            && (n < |sorted| ==> n > 0 && TotalValue(sorted[..n], value) >= needed)
    decreases |sorted| - taken
  {
    if taken < |sorted| && TotalValue(sorted[..taken + 1], value) < needed {
      TakeIsShortest(sorted, taken + 1, needed, value);
    }
  }

  lemma SortedPassing<C>(coins: seq<C>, ok: C -> bool, value: C -> int, c: C)
    ensures c in LargestFirst(Passing(coins, ok), value) <==> c in coins && ok(c)
  {
    var spendable := Passing(coins, ok);
    LargestFirstSorts(spendable, value);
    PassingOnly(coins, ok, c);
    assert c in LargestFirst(spendable, value) <==> c in multiset(LargestFirst(spendable, value));
    assert c in spendable <==> c in multiset(spendable);
  }

  /** Coins left out are no larger than coins taken. */
  lemma LeftOutIsSmaller<C>(sorted: seq<C>, n: nat, value: C -> int, c: C, d: C)
    requires Descending(sorted, value) && n <= |sorted| && c in sorted && c !in sorted[..n] && d in sorted[..n]
    ensures value(d) >= value(c)
  {
    assert forall k :: 0 <= k < n ==> sorted[k] in sorted[..n];
    var i :| 0 <= i < |sorted| && sorted[i] == c;
    var j :| 0 <= j < n && sorted[..n][j] == d;
    assert sorted[j] == d;
  }

  /** The coins selected pass, come largest first, and no coin left out is larger. */
  lemma SelectsLargest<C>(coins: seq<C>, ok: C -> bool, value: C -> int, needed: int, c: C, d: C)
    requires d in Selected(coins, ok, value, needed)
    ensures d in coins && ok(d) && Descending(Selected(coins, ok, value, needed), value)
    ensures c in coins && ok(c) && c !in Selected(coins, ok, value, needed) ==> value(d) >= value(c)
  {
    var sorted := LargestFirst(Passing(coins, ok), value);
    LargestFirstSorts(Passing(coins, ok), value);
    SortedPassing(coins, ok, value, c);
    SortedPassing(coins, ok, value, d);
    assert d in sorted;
    if c in coins && ok(c) && c !in Selected(coins, ok, value, needed) {
      LeftOutIsSmaller(sorted, TakeCount(sorted, 0, needed, value), value, c, d);
    }
  }

  /** Fewer of the selected coins do not reach the amount needed; when all of them do not, no coin was left out. */
  lemma SelectsNoMoreThanNeeded<C>(coins: seq<C>, ok: C -> bool, value: C -> int, needed: int, k: nat, c: C)
    ensures var chosen := Selected(coins, ok, value, needed);
            && (0 < k < |chosen| ==> TotalValue(chosen[..k], value) < needed)
            && (TotalValue(chosen, value) < needed && c in coins && ok(c) ==> c in chosen)
            && (c in coins && ok(c) ==> |chosen| > 0)
  {
    var sorted := LargestFirst(Passing(coins, ok), value);
    var n := TakeCount(sorted, 0, needed, value);
    TakeIsShortest(sorted, 0, needed, value);
    SortedPassing(coins, ok, value, c);
    assert n == |sorted| ==> sorted[..n] == sorted;
    assert 0 < k < n ==> sorted[..n][..k] == sorted[..k];
  }

  /** The loop over the sorted coins. */
  method Take<C>(sorted: seq<C>, needed: int, value: C -> int) returns (selected: seq<C>, total: int)
    ensures selected == sorted[..TakeCount(sorted, 0, needed, value)] && total == TotalValue(selected, value)
  {
    selected, total := [], 0;
    for k := 0 to |sorted|
      invariant selected == sorted[..k] && total == TotalValue(selected, value)
      invariant TakeCount(sorted, 0, needed, value) == TakeCount(sorted, k, needed, value)
    {
      assert sorted[..k + 1][..k] == sorted[..k];
      selected := selected + [sorted[k]];
      assert selected == sorted[..k + 1];
      total := total + value(sorted[k]);
      if total >= needed {
        return selected, total;
      }
    }
  }
}
