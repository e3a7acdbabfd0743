/**
 * The sharded UTXO set as a state machine: every lock-protected block of the code is one atomic step, and the
 * steps of any number of threads interleave freely. Keys, addresses and spenders are arbitrary types.
 */
module ShardedSteps {
  import opened Wrappers
  import opened Sums

  datatype Cell<A, S> = Cell(address: A, value: int, lockEpoch: int, spender: Option<S>)

  /** Where a thread stands between its lock-protected blocks. */
  datatype Local<K, A> =
    | Idle
    | Adding(key: K, address: A)
    | Discarding(key: K, address: A)
    | Reading(of: A, epoch: int, rest: set<K>, total: int)

  datatype Machine<K, A, S> = Machine(
    table: map<K, Cell<A, S>>, index: map<A, set<K>>, threads: map<nat, Local<K, A>>, spends: seq<(K, S)>)

  datatype Action<K, A, S> =
    | AddShard(t: nat, key: K, address: A, value: int, lockEpoch: int)
    | AddIndex(t: nat)
    | SpendShard(t: nat, key: K, spender: S)
    | SpendIndex(t: nat)
    | BalanceStart(t: nat, address: A, epoch: int)
    | BalanceRead(t: nat, key: K)
    | BalanceEnd(t: nat)

  function LocalOf<K, A, S>(m: Machine<K, A, S>, t: nat): Local<K, A> {
    if t in m.threads then m.threads[t] else Idle
  }

  function IndexAt<K, A>(index: map<A, set<K>>, a: A): set<K> {
    if a in index then index[a] else {}
  }

  predicate Unspent<K, A, S>(table: map<K, Cell<A, S>>, k: K) {
    k in table && table[k].spender.None?
  }

  /** A step a thread can take; keys are added once. */
  predicate Enabled<K, A, S>(m: Machine<K, A, S>, a: Action<K, A, S>) {
    match a
    case AddShard(t, k, _, value, _) => LocalOf(m, t).Idle? && k !in m.table && value >= 0
    case AddIndex(t) => LocalOf(m, t).Adding?
    case SpendShard(t, _, _) => LocalOf(m, t).Idle?
    case SpendIndex(t) => LocalOf(m, t).Discarding?
    case BalanceStart(t, _, _) => LocalOf(m, t).Idle?
    case BalanceRead(t, k) => LocalOf(m, t).Reading? && k in LocalOf(m, t).rest
    case BalanceEnd(t) => LocalOf(m, t).Reading? && LocalOf(m, t).rest == {}
  }

  function MaturedAt<K, A, S>(table: map<K, Cell<A, S>>, epoch: int, k: K): int {
    if Unspent(table, k) && table[k].lockEpoch <= epoch then table[k].value else 0
  }

  function Do<K, A, S>(m: Machine<K, A, S>, a: Action<K, A, S>): Machine<K, A, S>
    requires Enabled(m, a)
  {
    match a
    case AddShard(t, k, address, value, lock) =>
      m.(table := m.table[k := Cell(address, value, lock, None)], threads := m.threads[t := Adding(k, address)])
    case AddIndex(t) =>
      var l := LocalOf(m, t);
      m.(index := m.index[l.address := IndexAt(m.index, l.address) + {l.key}], threads := m.threads[t := Idle])
    case SpendShard(t, k, s) =>
      if Unspent(m.table, k) then
        m.(table := m.table[k := m.table[k].(spender := Some(s))], spends := m.spends + [(k, s)],
           threads := m.threads[t := Discarding(k, m.table[k].address)])
      else m
    case SpendIndex(t) =>
      var l := LocalOf(m, t);
      m.(index := m.index[l.address := IndexAt(m.index, l.address) - {l.key}], threads := m.threads[t := Idle])
    case BalanceStart(t, address, epoch) =>
      m.(threads := m.threads[t := Reading(address, epoch, IndexAt(m.index, address), 0)])
    case BalanceRead(t, k) =>
      var l := LocalOf(m, t);
      m.(threads := m.threads[t := Reading(l.of, l.epoch, l.rest - {k}, l.total + MaturedAt(m.table, l.epoch, k))])
    case BalanceEnd(t) => m.(threads := m.threads[t := Idle])
  }

  // ------------------------------------------------------------------ invariant

  ghost predicate Logged<K(!new), A(!new), S>(m: Machine<K, A, S>, j: int) {
    0 <= j < |m.spends| && m.spends[j].0 in m.table && m.table[m.spends[j].0].spender == Some(m.spends[j].1)
  }

  /** No key is spent successfully twice, and the table remembers the one spender. */
  ghost predicate SpendsAgree<K(!new), A(!new), S>(m: Machine<K, A, S>) {
    && (forall j :: 0 <= j < |m.spends| ==> Logged(m, j))
    && (forall i, j :: 0 <= i < j < |m.spends| ==> m.spends[i].0 != m.spends[j].0)
    && (forall k :: k in m.table && m.table[k].spender.Some? ==> (k, m.table[k].spender.value) in m.spends)
  }

  ghost predicate IsAdding<K(!new), A(!new), S>(m: Machine<K, A, S>, t: nat, k: K) {
    LocalOf(m, t).Adding? && LocalOf(m, t).key == k
  }

  /** Index entries are right except that spent keys may linger; unspent keys are there or about to be. */
  ghost predicate IndexAgrees<K(!new), A(!new), S>(m: Machine<K, A, S>) {
    && (forall a, k :: k in IndexAt(m.index, a) ==> k in m.table && m.table[k].address == a)
    && (forall k :: Unspent(m.table, k) && k !in IndexAt(m.index, m.table[k].address) ==> exists t :: IsAdding(m, t, k))
  }

  ghost predicate LocalAgrees<K(!new), A(!new), S>(m: Machine<K, A, S>, t: nat) {
    match LocalOf(m, t)
    case Idle => true
    case Adding(k, a) => k in m.table && m.table[k].address == a
    case Discarding(k, a) => k in m.table && m.table[k].address == a && m.table[k].spender.Some?
    case Reading(a, _, rest, _) => forall k :: k in rest ==> k in m.table && m.table[k].address == a
  }

  ghost predicate Inv<K(!new), A(!new), S>(m: Machine<K, A, S>) {
    && SpendsAgree(m) && IndexAgrees(m) && (forall t: nat :: LocalAgrees(m, t))
    && (forall k :: k in m.table ==> m.table[k].value >= 0)
  }

  lemma StepKeepsSpends<K(!new), A(!new), S>(m: Machine<K, A, S>, a: Action<K, A, S>)
    requires SpendsAgree(m) && Enabled(m, a)
    ensures SpendsAgree(Do(m, a))
  {
    var n := Do(m, a);
    forall j | 0 <= j < |n.spends| ensures Logged(n, j) {
      assert j < |m.spends| ==> Logged(m, j);
    }
    forall i, j | 0 <= i < j < |n.spends| ensures n.spends[i].0 != n.spends[j].0 {
      assert Logged(m, i);
    }
    forall k | k in n.table && n.table[k].spender.Some? ensures (k, n.table[k].spender.value) in n.spends {
      if k in m.table && m.table[k].spender.Some? {
        assert (k, m.table[k].spender.value) in m.spends;
      } else {
        assert n.spends[|n.spends| - 1] == (k, n.table[k].spender.value);
      }
    }
  }

  lemma StepKeepsLocals<K(!new), A(!new), S>(m: Machine<K, A, S>, a: Action<K, A, S>, t: nat)
    requires Inv(m) && Enabled(m, a)
    ensures LocalAgrees(Do(m, a), t)
  {
    assert LocalAgrees(m, t);
    assert LocalAgrees(m, a.t);
  }

  lemma StepKeepsIndex<K(!new), A(!new), S>(m: Machine<K, A, S>, a: Action<K, A, S>)
    requires Inv(m) && Enabled(m, a)
    ensures IndexAgrees(Do(m, a))
  {
    var n := Do(m, a);
    assert LocalAgrees(m, a.t);
    forall b, k | k in IndexAt(n.index, b) ensures k in n.table && n.table[k].address == b {
      assert k in IndexAt(m.index, b) || (a.AddIndex? && LocalOf(m, a.t) == Adding(k, b));
    }
    forall k | Unspent(n.table, k) && k !in IndexAt(n.index, n.table[k].address) ensures exists t :: IsAdding(n, t, k) {
      if a.AddShard? && k == a.key {
        assert IsAdding(n, a.t, k);
      } else {
        assert Unspent(m.table, k);
        var t :| IsAdding(m, t, k);
        assert t != a.t;
        assert IsAdding(n, t, k);
      }
    }
  }

  lemma StepKeepsInv<K(!new), A(!new), S>(m: Machine<K, A, S>, a: Action<K, A, S>)
    requires Inv(m) && Enabled(m, a)
    ensures Inv(Do(m, a))
  {
    StepKeepsSpends(m, a);
    StepKeepsIndex(m, a);
    forall t: nat ensures LocalAgrees(Do(m, a), t) {
      StepKeepsLocals(m, a, t);
    }
  }

  // ----------------------------------------------------------------------- runs

  ghost predicate IsRun<K(!new), A(!new), S>(states: seq<Machine<K, A, S>>, actions: seq<Action<K, A, S>>) {
    && |states| == |actions| + 1
    && forall i :: 0 <= i < |actions| ==> Enabled(states[i], actions[i]) && states[i + 1] == Do(states[i], actions[i])
  }

  ghost predicate IsEmpty<K(!new), A(!new), S>(m: Machine<K, A, S>) {
    m == Machine(map[], map[], map[], [])
  }

  lemma {:induction false} RunKeepsInv<K(!new), A(!new), S>(states: seq<Machine<K, A, S>>, actions: seq<Action<K, A, S>>, n: nat)
    requires IsRun(states, actions) && n < |states| && Inv(states[0])
    ensures Inv(states[n])
    decreases n
  {
    if n > 0 {
      RunKeepsInv(states, actions, n - 1);
      StepKeepsInv(states[n - 1], actions[n - 1]);
    }
  }

  /** In every interleaving each key has at most one successful spender, the one the table names. */
  lemma AtMostOneSpender<K(!new), A(!new), S>(states: seq<Machine<K, A, S>>, actions: seq<Action<K, A, S>>, n: nat, i: nat, j: nat)
    requires IsRun(states, actions) && IsEmpty(states[0]) && n < |states|
    requires i < |states[n].spends| && j < |states[n].spends| && states[n].spends[i].0 == states[n].spends[j].0
    ensures i == j
    ensures states[n].spends[i].0 in states[n].table
    ensures states[n].table[states[n].spends[i].0].spender == Some(states[n].spends[i].1)
  {
    RunKeepsInv(states, actions, n);
    assert Logged(states[n], i);
  }

  // -------------------------------------------------------------------- balances

  ghost function Matured<K(!new), A(!new), S>(table: map<K, Cell<A, S>>, epoch: int): K -> int {
    k => MaturedAt(table, epoch, k)
  }

  ghost function Share<K(!new), A(!new), S>(table: map<K, Cell<A, S>>, a: A, epoch: int): K -> int {
    k => if k in table && table[k].address == a then MaturedAt(table, epoch, k) else 0
  }

  /** The balance of address a as the full scan of the table gives it. */
  ghost function Balance<K(!new), A(!new), S>(table: map<K, Cell<A, S>>, a: A, epoch: int): int {
    Sum(table.Keys, Share(table, a, epoch))
  }

  /** Summing over any keys of address a that include all its unspent ones gives the full-scan balance. */
  lemma CoveringKeys<K(!new), A(!new), S>(table: map<K, Cell<A, S>>, a: A, epoch: int, keys: set<K>)
    requires forall k :: k in keys ==> k in table && table[k].address == a
    requires forall k :: Unspent(table, k) && table[k].address == a ==> k in keys
    ensures Sum(keys, Matured(table, epoch)) == Balance(table, a, epoch)
  {
    var share := Share(table, a, epoch);
    assert keys <= table.Keys;
    assert keys + (table.Keys - keys) == table.Keys;
    SumUnion(keys, table.Keys - keys, share);
    SumOfZeros(table.Keys - keys, share);
    SumCongruent(keys, share, Matured(table, epoch));
  }

  /** When no thread is between its two steps, the index yields the full-scan balance, whatever races happened. */
  lemma QuiescentBalance<K(!new), A(!new), S>(states: seq<Machine<K, A, S>>, actions: seq<Action<K, A, S>>, n: nat, a: A, epoch: int)
    requires IsRun(states, actions) && IsEmpty(states[0]) && n < |states|
    requires forall t: nat :: LocalOf(states[n], t).Idle?
    ensures Sum(IndexAt(states[n].index, a), Matured(states[n].table, epoch)) == Balance(states[n].table, a, epoch)
  {
    var m := states[n];
    RunKeepsInv(states, actions, n);
    forall k | Unspent(m.table, k) && m.table[k].address == a ensures k in IndexAt(m.index, a) {
      assert forall t: nat :: !IsAdding(m, t, k);
    }
    CoveringKeys(m.table, a, epoch, IndexAt(m.index, a));
  }

  // ------------------------------------------------------- reads during spends

  predicate IsAdd<K(!new), A(!new), S>(a: Action<K, A, S>) {
    a.AddShard? || a.AddIndex?
  }

  /** Thread t's read so far: at most the balance it started from, and with what is left at least the current one. */
  ghost predicate Bracketed<K(!new), A(!new), S>(m: Machine<K, A, S>, t: nat, a: A, epoch: int, atStart: int) {
    && LocalOf(m, t).Reading? && LocalOf(m, t).of == a && LocalOf(m, t).epoch == epoch
    && var l := LocalOf(m, t);
       var bound := l.total + Sum(l.rest, Matured(m.table, epoch));
       Balance(m.table, a, epoch) <= bound <= atStart
  }

  lemma SpendLowersSums<K(!new), A(!new), S>(table: map<K, Cell<A, S>>, k: K, s: S, epoch: int, a: A, rest: set<K>)
    requires Unspent(table, k) && (forall x :: x in table ==> table[x].value >= 0)
    ensures var after := table[k := table[k].(spender := Some(s))];
            var drop := if table[k].address == a then MaturedAt(table, epoch, k) else 0;
            && Balance(after, a, epoch) == Balance(table, a, epoch) - drop
            && Sum(rest, Matured(after, epoch)) == Sum(rest, Matured(table, epoch)) - (if k in rest then MaturedAt(table, epoch, k) else 0)
  {
    var after := table[k := table[k].(spender := Some(s))];
    assert after.Keys == table.Keys;
    SumRemove(table.Keys, k, Share(table, a, epoch));
    SumRemove(table.Keys, k, Share(after, a, epoch));
    SumCongruent(table.Keys - {k}, Share(table, a, epoch), Share(after, a, epoch));
    if k in rest {
      SumRemove(rest, k, Matured(table, epoch));
      SumRemove(rest, k, Matured(after, epoch));
    }
    SumCongruent(rest - {k}, Matured(table, epoch), Matured(after, epoch));
    assert k !in rest ==> rest - {k} == rest;
  }

  lemma StepKeepsBracket<K(!new), A(!new), S>(m: Machine<K, A, S>, act: Action<K, A, S>, t: nat, a: A, epoch: int, atStart: int)
    requires Inv(m) && Enabled(m, act) && !IsAdd(act) && act != BalanceEnd(t)
    requires Bracketed(m, t, a, epoch, atStart)
    ensures Bracketed(Do(m, act), t, a, epoch, atStart)
  {
    var l := LocalOf(m, t);
    assert LocalAgrees(m, t);
    if act.SpendShard? && Unspent(m.table, act.key) {
      SpendLowersSums(m.table, act.key, act.spender, epoch, a, l.rest);
    } else if act.BalanceRead? && act.t == t {
      SumRemove(l.rest, act.key, Matured(m.table, epoch));
    }
  }

  /**
   * A balance read that starts with no add under way and overlaps only with spends and other reads answers
   * something between the balance when it ends and the balance when it started.
   */
  lemma {:induction false} ReadIsBetween<K(!new), A(!new), S>(
      states: seq<Machine<K, A, S>>, actions: seq<Action<K, A, S>>, from: nat, n: nat, t: nat, a: A, epoch: int)
    requires IsRun(states, actions) && Inv(states[0]) && from < n < |states|
    requires actions[from] == BalanceStart(t, a, epoch)
    requires forall u: nat :: !LocalOf(states[from], u).Adding?
    requires forall i :: from < i < n ==> !IsAdd(actions[i]) && actions[i] != BalanceEnd(t)
    ensures Bracketed(states[n], t, a, epoch, Balance(states[from].table, a, epoch))
    ensures var l := LocalOf(states[n], t);
            l.rest == {} ==> Balance(states[n].table, a, epoch) <= l.total <= Balance(states[from].table, a, epoch)
    decreases n
  {
    RunKeepsInv(states, actions, n - 1);
    if n == from + 1 {
      var m := states[from];
      forall k | Unspent(m.table, k) && m.table[k].address == a ensures k in IndexAt(m.index, a) {
        assert forall u: nat :: !IsAdding(m, u, k);
      }
      CoveringKeys(m.table, a, epoch, IndexAt(m.index, a));
    } else {
      ReadIsBetween(states, actions, from, n - 1, t, a, epoch);
      StepKeepsBracket(states[n - 1], actions[n - 1], t, a, epoch, Balance(states[from].table, a, epoch));
    }
  }

  // ------------------------------------------------------- which spent keys linger

  /** Step i enters key k into the index: the second step of its add. */
  ghost predicate EntersAt<K(!new), A(!new), S>(states: seq<Machine<K, A, S>>, actions: seq<Action<K, A, S>>, i: int, k: K) {
    && 0 <= i < |actions| && i < |states| && actions[i].AddIndex?
    && LocalOf(states[i], actions[i].t).Adding? && LocalOf(states[i], actions[i].t).key == k
  }

  /** Step i discards key k from the index: the second step of its spend. */
  ghost predicate LeavesAt<K(!new), A(!new), S>(states: seq<Machine<K, A, S>>, actions: seq<Action<K, A, S>>, i: int, k: K) {
    0 <= i < |actions| && i < |states| && actions[i].SpendIndex? && IsDiscarding(states[i], actions[i].t, k)
  }

  ghost predicate IsDiscarding<K(!new), A(!new), S>(m: Machine<K, A, S>, t: nat, k: K) {
    LocalOf(m, t).Discarding? && LocalOf(m, t).key == k
  }

  ghost predicate InIndex<K(!new), A(!new), S>(m: Machine<K, A, S>, k: K) {
    k in m.table && k in IndexAt(m.index, m.table[k].address)
  }

  ghost predicate IsSpent<K(!new), A(!new), S>(m: Machine<K, A, S>, k: K) {
    k in m.table && m.table[k].spender.Some?
  }

  /** Key k entered at step j and has not left since. */
  ghost predicate StaysFrom<K(!new), A(!new), S>(
      states: seq<Machine<K, A, S>>, actions: seq<Action<K, A, S>>, j: int, n: nat, k: K)
  {
    j < n && EntersAt(states, actions, j, k) && forall i :: j < i < n ==> !LeavesAt(states, actions, i, k)
  }

  /** The index is what the steps so far have made of it, for key k. */
  ghost predicate IndexHistory<K(!new), A(!new), S>(states: seq<Machine<K, A, S>>, actions: seq<Action<K, A, S>>, n: nat, k: K)
    requires n < |states|
  {
    InIndex(states[n], k) <==> exists j :: StaysFrom(states, actions, j, n, k)
  }

  /** A spent key has left or is about to leave, and does so once. */
  ghost predicate SpendHistory<K(!new), A(!new), S>(states: seq<Machine<K, A, S>>, actions: seq<Action<K, A, S>>, n: nat, k: K)
    requires n < |states|
  {
    && (IsSpent(states[n], k) ==>
          (exists t :: IsDiscarding(states[n], t, k)) || (exists i :: i < n && LeavesAt(states, actions, i, k)))
    && (forall i :: i < n && LeavesAt(states, actions, i, k) ==>
          IsSpent(states[n], k) && forall t: nat :: !IsDiscarding(states[n], t, k))
    && (forall t: nat, u: nat :: IsDiscarding(states[n], t, k) && IsDiscarding(states[n], u, k) ==> t == u)
    && (forall i, j :: i < n && j < n && LeavesAt(states, actions, i, k) && LeavesAt(states, actions, j, k) ==> i == j)
  }

  lemma StepExtendsIndexHistory<K(!new), A(!new), S>(states: seq<Machine<K, A, S>>, actions: seq<Action<K, A, S>>, n: nat, k: K)
    requires IsRun(states, actions) && n < |actions| && Inv(states[n]) && IndexHistory(states, actions, n, k)
    ensures IndexHistory(states, actions, n + 1, k)
  {
    var m, act, end := states[n], actions[n], n + 1;
    assert LocalAgrees(m, act.t);
    if EntersAt(states, actions, n, k) {
      assert StaysFrom(states, actions, n, end, k);
    } else if LeavesAt(states, actions, n, k) {
      assert forall j :: !StaysFrom(states, actions, j, end, k);
    } else {
      assert InIndex(states[end], k) <==> InIndex(m, k);
      if j :| StaysFrom(states, actions, j, n, k) {
        assert StaysFrom(states, actions, j, end, k);
      }
      if j :| StaysFrom(states, actions, j, end, k) {
        assert StaysFrom(states, actions, j, n, k);
      }
    }
  }

  lemma StepExtendsSpendHistory<K(!new), A(!new), S>(states: seq<Machine<K, A, S>>, actions: seq<Action<K, A, S>>, n: nat, k: K)
    requires IsRun(states, actions) && n < |actions| && Inv(states[n]) && SpendHistory(states, actions, n, k)
    ensures SpendHistory(states, actions, n + 1, k)
  {
    var m, act, next := states[n], actions[n], states[n + 1];
    assert LocalAgrees(m, act.t);
    if IsSpent(next, k) {
      if IsSpent(m, k) {
        if t :| IsDiscarding(m, t, k) {
          assert IsDiscarding(next, t, k) || LeavesAt(states, actions, n, k);
        }
      } else {
        assert IsDiscarding(next, act.t, k);
      }
    }
    forall t: nat | IsDiscarding(next, t, k) ensures IsDiscarding(m, t, k) || (t == act.t && !IsSpent(m, k)) {
    }
    forall t: nat | IsDiscarding(m, t, k) ensures IsSpent(m, k) {
      assert LocalAgrees(m, t);
    }
  }

  lemma NoHistoryYet<K(!new), A(!new), S>(states: seq<Machine<K, A, S>>, actions: seq<Action<K, A, S>>, k: K)
    requires states != [] && IsEmpty(states[0])
    ensures IndexHistory(states, actions, 0, k) && SpendHistory(states, actions, 0, k)
  {
    assert forall t: nat :: !IsDiscarding(states[0], t, k);
  }

  lemma {:induction false} HistoryHolds<K(!new), A(!new), S>(states: seq<Machine<K, A, S>>, actions: seq<Action<K, A, S>>, n: nat, k: K)
    requires IsRun(states, actions) && IsEmpty(states[0]) && n < |states|
    ensures IndexHistory(states, actions, n, k) && SpendHistory(states, actions, n, k)
    decreases n
  {
    if n == 0 {
      NoHistoryYet(states, actions, k);
    } else {
      HistoryHolds(states, actions, n - 1, k);
      RunKeepsInv(states, actions, n - 1);
      StepExtendsIndexHistory(states, actions, n - 1, k);
      StepExtendsSpendHistory(states, actions, n - 1, k);
    }
  }

  /** The two second steps of key k ran in the wrong order: it left the index before it entered. */
  ghost predicate Overtaken<K(!new), A(!new), S>(
      states: seq<Machine<K, A, S>>, actions: seq<Action<K, A, S>>, n: nat, k: K)
  {
    exists i, j :: i < j < n && LeavesAt(states, actions, i, k) && EntersAt(states, actions, j, k)
  }

  /**
   * When no thread is between its two steps, a spent key is still in the index exactly when its discard ran before the
   * index step of its add.
   */
  lemma SpentKeyLingersIff<K(!new), A(!new), S>(states: seq<Machine<K, A, S>>, actions: seq<Action<K, A, S>>, n: nat, k: K)
    requires IsRun(states, actions) && IsEmpty(states[0]) && n < |states|
    requires (forall t: nat :: LocalOf(states[n], t).Idle?) && IsSpent(states[n], k)
    ensures k in IndexAt(states[n].index, states[n].table[k].address) <==> Overtaken(states, actions, n, k)
  {
    HistoryHolds(states, actions, n, k);
    if InIndex(states[n], k) {
      var j :| StaysFrom(states, actions, j, n, k);
      var i :| i < n && LeavesAt(states, actions, i, k);
      assert i < j < n;
    }
    if i, j :| i < j < n && LeavesAt(states, actions, i, k) && EntersAt(states, actions, j, k) {
      assert StaysFrom(states, actions, j, n, k);
    }
  }

  /** The index lists exactly the unspent keys of each address. */
  ghost predicate IsExact<K(!new), A(!new), S>(m: Machine<K, A, S>) {
    forall a, k :: k in IndexAt(m.index, a) <==> Unspent(m.table, k) && m.table[k].address == a
  }

  /** With all threads idle the index is exact if and only if no key was overtaken. */
  lemma IndexIsExactIff<K(!new), A(!new), S>(states: seq<Machine<K, A, S>>, actions: seq<Action<K, A, S>>, n: nat)
    requires IsRun(states, actions) && IsEmpty(states[0]) && n < |states|
    requires forall t: nat :: LocalOf(states[n], t).Idle?
    ensures IsExact(states[n]) <==> forall k :: !Overtaken(states, actions, n, k)
  {
    var m := states[n];
    RunKeepsInv(states, actions, n);
    if IsExact(m) {
      forall k ensures !Overtaken(states, actions, n, k) {
        HistoryHolds(states, actions, n, k);
        if Overtaken(states, actions, n, k) {
          SpentKeyLingersIff(states, actions, n, k);
        }
      }
    }
    if forall k :: !Overtaken(states, actions, n, k) {
      forall a, k ensures k in IndexAt(m.index, a) <==> Unspent(m.table, k) && m.table[k].address == a {
        assert forall t: nat :: !IsAdding(m, t, k);
        assert !Overtaken(states, actions, n, k);
        if IsSpent(m, k) {
          SpentKeyLingersIff(states, actions, n, k);
        }
      }
    }
  }

  /** The race that leaves a spent key in the index: the add's index step runs after the spend's discard. */
  lemma SpentKeyMayLinger(k: int, a: int)
    ensures exists states: seq<Machine<int, int, int>>, actions: seq<Action<int, int, int>> ::
              && IsRun(states, actions) && |states| == 5 && IsEmpty(states[0])
              && k in IndexAt(states[4].index, a) && !Unspent(states[4].table, k)
              && (forall t: nat :: LocalOf(states[4], t).Idle?)
  {
    var m0: Machine<int, int, int> := Machine(map[], map[], map[], []);
    var actions: seq<Action<int, int, int>> := [AddShard(0, k, a, 5, 0), SpendShard(1, k, 7), SpendIndex(1), AddIndex(0)];
    var m1 := Do(m0, actions[0]);
    var m2 := Do(m1, actions[1]);
    var m3 := Do(m2, actions[2]);
    var m4 := Do(m3, actions[3]);
    var states := [m0, m1, m2, m3, m4];
    assert IsRun(states, actions);
    assert k in IndexAt(states[4].index, a) && !Unspent(states[4].table, k);
  }
}
