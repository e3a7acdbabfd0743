/** The lexicographic order in which Python sorts byte strings. */
module Order {
  import opened ByteStrings

  predicate LexLess(a: Bytes, b: Bytes) {
    if b == [] then false
    else if a == [] then true
    else if a[0] != b[0] then a[0] < b[0]
    else LexLess(a[1..], b[1..])
  }

  lemma {:induction false} LexTotal(a: Bytes, b: Bytes)
    ensures LexLess(a, b) || a == b || LexLess(b, a)
  {
    if a != [] && b != [] && a[0] == b[0] {
      LexTotal(a[1..], b[1..]);
      assert a == [a[0]] + a[1..] && b == [b[0]] + b[1..];
    }
  }

  lemma {:induction false} LexTransitive(a: Bytes, b: Bytes, c: Bytes)
    requires LexLess(a, b) && LexLess(b, c)
    ensures LexLess(a, c)
  {
    if a != [] && a[0] == b[0] && b[0] == c[0] {
      LexTransitive(a[1..], b[1..], c[1..]);
    }
  }

  lemma {:induction false} LexIrreflexive(a: Bytes)
    ensures !LexLess(a, a)
  {
    if a != [] {
      LexIrreflexive(a[1..]);
    }
  }

  /** The registered ids that sort before `v`. */
  ghost function Before(ids: set<Bytes>, v: Bytes): set<Bytes> {
    set u | u in ids && LexLess(u, v)
  }

  lemma {:induction false} LeastExists(ids: set<Bytes>) returns (v: Bytes)
    requires ids != {}
    ensures v in ids && Before(ids, v) == {}
  {
    var x :| x in ids;
    LexIrreflexive(x);
    if ids == {x} {
      v := x;
    } else {
      var w := LeastExists(ids - {x});
      LexTotal(x, w);
      LexIrreflexive(w);
      v := if LexLess(x, w) then x else w;
      forall u | u in Before(ids, v) ensures u in Before(ids - {x}, w) {
        if v == x {
          LexTransitive(u, x, w);
        }
      }
    }
  }
}
