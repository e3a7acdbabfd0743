/** Stake-weighted proposer selection: intervals of targets owned by validators. */
module Proposer {
  import opened ByteStrings
  import opened Sums
  import opened Order
  import opened Votes

  lemma {:induction false} GreatestExists(ids: set<Bytes>) returns (v: Bytes)
    requires ids != {}
    ensures v in ids && Before(ids, v) == ids - {v}
  {
    var x :| x in ids;
    LexIrreflexive(x);
    if ids == {x} {
      v := x;
    } else {
      var w := GreatestExists(ids - {x});
      LexIrreflexive(w);
      LexTotal(x, w);
      v := if LexLess(x, w) then w else x;
      forall u | u in ids - {v} ensures LexLess(u, v) {
        if u != x && u != w {
          assert u in Before(ids - {x}, w);
          if v == x {
            LexTransitive(u, w, x);
          }
        }
      }
    }
  }

  /** Everything up to and including `u` sorts before a later `v`. */
  lemma IntervalsOrdered(reg: Registry, u: Bytes, v: Bytes)
    requires u in reg && v in reg && LexLess(u, v)
    ensures StakeBefore(reg, u) + reg[u] <= StakeBefore(reg, v)
  {
    LexIrreflexive(u);
    var below := Before(reg.Keys, u);
    forall w | w in below + {u} ensures w in Before(reg.Keys, v) {
      if w in below {
        LexTransitive(w, u, v);
      }
    }
    SumAdd(below, u, StakeOf(reg));
    SumMonotone(below + {u}, Before(reg.Keys, v), StakeOf(reg));
  }

  lemma OwnerIsUnique(reg: Registry, u: Bytes, v: Bytes, target: int)
    requires Owns(reg, u, target) && Owns(reg, v, target)
    ensures u == v
  {
    LexTotal(u, v);
    if LexLess(u, v) {
      IntervalsOrdered(reg, u, v);
    } else if LexLess(v, u) {
      IntervalsOrdered(reg, v, u);
    }
  }

  ghost predicate Reaches(reg: Registry, v: Bytes, target: int)
    requires v in reg
  {
    target < StakeBefore(reg, v) + reg[v]
  }

  /** For every target below the total some registered validator is selected. */
  lemma OwnerExists(reg: Registry, target: nat) returns (v: Bytes)
    requires target < TotalStake(reg)
    ensures Owns(reg, v, target)
  {
    assert reg.Keys != {};
    var last := GreatestExists(reg.Keys);
    SumRemove(reg.Keys, last, StakeOf(reg));
    var reaching := set w | w in reg && Reaches(reg, w, target);
    assert last in reaching;
    v := LeastExists(reaching);
    var below := Before(reg.Keys, v);
    if below != {} {
      var u := GreatestExists(below);
      assert u in below;
      forall w ensures w in below - {u} <==> w in Before(reg.Keys, u) {
        if w in below - {u} {
          assert w in Before(below, u);
        } else if w in Before(reg.Keys, u) {
          LexTransitive(w, u, v);
          LexIrreflexive(u);
        }
      }
      assert Before(reg.Keys, u) == below - {u};
      SumRemove(below, u, StakeOf(reg));
      assert u !in reaching by {
        assert u !in Before(reaching, v);
      }
    }
  }

  /** Exactly one validator is selected: the partition of the targets by stake. */
  lemma ExactlyOneProposer(reg: Registry, target: nat) returns (v: Bytes)
    requires target < TotalStake(reg)
    ensures forall u :: Owns(reg, u, target) <==> u == v
  {
    v := OwnerExists(reg, target);
    forall u | Owns(reg, u, target) ensures u == v {
      OwnerIsUnique(reg, u, v, target);
    }
  }

  ghost function TargetsOf(reg: Registry, v: Bytes): set<int> {
    set t | 0 <= t < TotalStake(reg) && Owns(reg, v, t)
  }

  /** The integers from lo up to but not including hi. */
  ghost function Interval(lo: int, hi: int): (s: set<int>)
    requires lo <= hi
    ensures forall t :: t in s <==> lo <= t < hi
    ensures |s| == hi - lo
    decreases hi - lo
  {
    if lo == hi then {} else Interval(lo, hi - 1) + {hi - 1}
  }

  /** Selection is fair: `v` is selected for exactly stake(v) of the targets. */
  lemma SelectionProportionalToStake(reg: Registry, v: Bytes)
    requires v in reg
    ensures |TargetsOf(reg, v)| == reg[v]
  {
    var lo := StakeBefore(reg, v);
    LexIrreflexive(v);
    SumAdd(Before(reg.Keys, v), v, StakeOf(reg));
    SumMonotone(Before(reg.Keys, v) + {v}, reg.Keys, StakeOf(reg));
    assert lo + reg[v] <= TotalStake(reg);
    forall t ensures t in TargetsOf(reg, v) <==> t in Interval(lo, lo + reg[v]) {
    }
    assert TargetsOf(reg, v) == Interval(lo, lo + reg[v]);
  }
}
