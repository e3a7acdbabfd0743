/** Option and Result values used instead of None and of Python exceptions. */
module Wrappers {
  datatype Option<+T> = None | Some(value: T)

  datatype Result<+T, +E> = Ok(value: T) | Err(error: E)
}

/** Byte strings, Python slicing, and the big-endian fields written by struct.pack. */
module ByteStrings {
  type Byte = x: int | 0 <= x < 256

  type Bytes = seq<Byte>

  /** A SHA3-256 value. */
  type Digest = d: Bytes | |d| == 32 witness seq(32, _ => 0)

  /** A SHA3-512 value. */
  type Wide = d: Bytes | |d| == 64 witness seq(64, _ => 0)

  /** The hash functions stay arbitrary: every result holds for each choice of them. */
  type Sha256 = Bytes -> Digest

  type Sha512 = Bytes -> Wide

  /** Two different inputs of one hash value. */
  predicate Collides<R(==)>(h: Bytes -> R, x: Bytes, y: Bytes) {
    x != y && h(x) == h(y)
  }

  const ZERO_DIGEST: Digest := Be(0, 32)

  function Min(a: int, b: int): int { if a < b then a else b }

  function Max(a: int, b: int): int { if a < b then b else a }

  /** Python's `data[lo:hi]` for non-negative bounds: out-of-range bounds are clamped. */
  function Slice<T>(data: seq<T>, lo: nat, hi: nat): seq<T> {
    var h := Min(hi, |data|);
    if lo <= h then data[lo..h] else []
  }

  lemma Middle<T>(pre: seq<T>, mid: seq<T>, post: seq<T>)
    ensures (pre + (mid + post))[|pre|..|pre| + |mid|] == mid
  {
  }

  lemma SplitAt<T>(s: seq<T>, lo: nat, mid: nat, hi: nat)
    requires lo <= mid <= hi <= |s|
    ensures s[lo..hi] == s[lo..mid] + s[mid..hi]
  {
  }

  function Pow256(n: nat): (p: nat)
    ensures p > 0
  {
    if n == 0 then 1 else 256 * Pow256(n - 1)
  }

  /** Big-endian encoding on `width` bytes, as struct.pack('>H' | '>I' | '>Q') writes it. */
  function Be(value: nat, width: nat): (r: Bytes)
    ensures |r| == width
    decreases width, value
  {
    if width == 0 then [] else Be(value / 256, width - 1) + [value % 256]
  }

  function FromBe(data: Bytes): nat {
    if data == [] then 0 else 256 * FromBe(data[..|data| - 1]) + data[|data| - 1]
  }

  lemma {:induction false} FromBeInvertsBe(value: nat, width: nat)
    requires value < Pow256(width)
    ensures FromBe(Be(value, width)) == value
  {
    if width > 0 {
      FromBeInvertsBe(value / 256, width - 1);
      assert Be(value, width)[..width - 1] == Be(value / 256, width - 1);
    }
  }

  lemma BeInjective(a: nat, b: nat, width: nat)
    requires a < Pow256(width) && b < Pow256(width)
    requires Be(a, width) == Be(b, width)
    ensures a == b
  {
    FromBeInvertsBe(a, width);
    FromBeInvertsBe(b, width);
  }

  lemma Pow256Values()
    ensures Pow256(1) == 0x100
    ensures Pow256(2) == 0x1_0000
    ensures Pow256(4) == 0x1_0000_0000
    ensures Pow256(8) == 0x1_0000_0000_0000_0000
  {
    assert Pow256(1) == 256 * Pow256(0);
    assert Pow256(2) == 256 * Pow256(1);
    assert Pow256(3) == 256 * Pow256(2);
    assert Pow256(4) == 256 * Pow256(3);
    assert Pow256(5) == 256 * Pow256(4);
    assert Pow256(6) == 256 * Pow256(5);
    assert Pow256(7) == 256 * Pow256(6);
    assert Pow256(8) == 256 * Pow256(7);
  }

  const U16: nat := 0x1_0000
  const U32: nat := 0x1_0000_0000
  const U64: nat := 0x1_0000_0000_0000_0000

  lemma {:induction false} FromBeFits(data: Bytes)
    ensures FromBe(data) < Pow256(|data|)
  {
    if data != [] {
      FromBeFits(data[..|data| - 1]);
    }
  }

  lemma {:induction false} BeInvertsFromBe(data: Bytes)
    ensures Be(FromBe(data), |data|) == data
  {
    if data != [] {
      BeInvertsFromBe(data[..|data| - 1]);
      var n := |data|;
      var v := FromBe(data);
      var v0 := FromBe(data[..n - 1]);
      assert v / 256 == v0 && v % 256 == data[n - 1];
      assert data == data[..n - 1] + [data[n - 1]];
    }
  }
}

/** Sums of an integer weight over a finite set. */
module Sums {
  ghost function Sum<K>(s: set<K>, f: K -> int): int
  {
    if s == {} then 0 else var x :| x in s; f(x) + Sum(s - {x}, f)
  }

  lemma {:induction false} SumRemove<K>(s: set<K>, x: K, f: K -> int)
    requires x in s
    ensures Sum(s, f) == f(x) + Sum(s - {x}, f)
  {
    var y :| y in s && Sum(s, f) == f(y) + Sum(s - {y}, f);
    if y != x {
      SumRemove(s - {y}, x, f);
      SumRemove(s - {x}, y, f);
      assert s - {y} - {x} == s - {x} - {y};
    }
  }

  lemma SumAdd<K>(s: set<K>, x: K, f: K -> int)
    requires x !in s
    ensures Sum(s + {x}, f) == f(x) + Sum(s, f)
  {
    SumRemove(s + {x}, x, f);
    assert s + {x} - {x} == s;
  }

  lemma {:induction false} SumCongruent<K>(s: set<K>, f: K -> int, g: K -> int)
    requires forall x :: x in s ==> f(x) == g(x)
    ensures Sum(s, f) == Sum(s, g)
  {
    if s != {} {
      var x :| x in s;
      SumRemove(s, x, f);
      SumRemove(s, x, g);
      SumCongruent(s - {x}, f, g);
    }
  }

  lemma {:induction false} SumUnion<K>(a: set<K>, b: set<K>, f: K -> int)
    requires a !! b
    ensures Sum(a + b, f) == Sum(a, f) + Sum(b, f)
  {
    if a == {} {
      assert a + b == b;
    } else {
      var x :| x in a;
      SumRemove(a, x, f);
      SumRemove(a + b, x, f);
      assert a + b - {x} == (a - {x}) + b;
      SumUnion(a - {x}, b, f);
    }
  }

  lemma {:induction false} SumOfZeros<K>(s: set<K>, f: K -> int)
    requires forall x :: x in s ==> f(x) == 0
    ensures Sum(s, f) == 0
  {
    if s != {} {
      var x :| x in s;
      SumRemove(s, x, f);
      SumOfZeros(s - {x}, f);
    }
  }

  lemma {:induction false} SumNonNegative<K>(s: set<K>, f: K -> int)
    requires forall x :: x in s ==> f(x) >= 0
    ensures Sum(s, f) >= 0
  {
    if s != {} {
      var x :| x in s;
      SumRemove(s, x, f);
      SumNonNegative(s - {x}, f);
    }
  }

  lemma SumMonotone<K>(a: set<K>, b: set<K>, f: K -> int)
    requires a <= b
    requires forall x :: x in b ==> f(x) >= 0
    ensures Sum(a, f) <= Sum(b, f)
  {
    SumUnion(a, b - a, f);
    SumNonNegative(b - a, f);
    assert a + (b - a) == b;
  }

  lemma {:induction false} SumBelow<K>(s: set<K>, f: K -> int, g: K -> int)
    requires forall x :: x in s ==> f(x) <= g(x)
    ensures Sum(s, f) <= Sum(s, g)
  {
    if s != {} {
      var x :| x in s;
      SumRemove(s, x, f);
      SumRemove(s, x, g);
      SumBelow(s - {x}, f, g);
    }
  }

  /** Sum over the union and the intersection of two sets. */
  lemma SumInclusionExclusion<K>(a: set<K>, b: set<K>, f: K -> int)
    ensures Sum(a + b, f) + Sum(a * b, f) == Sum(a, f) + Sum(b, f)
  {
    SumUnion(a, b - a, f);
    SumUnion(a * b, b - a, f);
    assert a + (b - a) == a + b;
    assert a * b + (b - a) == b;
  }
}
