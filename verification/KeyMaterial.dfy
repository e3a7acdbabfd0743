/** Different keys of a wallet are different key pairs: equal ones exhibit a collision between strings that are hashed. */
module KeyMaterial {
  import opened Wrappers
  import opened ByteStrings
  import opened Wots
  import opened AuthTree
  import opened KeyManager
  import opened LegacyKeys

  // ------------------------------------------------------------ inside one key

  lemma ChainInputsEqualIff(s: Wide, i: nat, t: Wide, j: nat)
    requires i < U64 && j < U64
    ensures ChainInput(s, i) == ChainInput(t, j) <==> s == t && i == j
  {
    Pow256Values();
    var x, y := ChainInput(s, i), ChainInput(t, j);
    assert x[..64] == s && y[..64] == t && x[74..82] == Be(i, 8) && y[74..82] == Be(j, 8);
    if x == y {
      BeInjective(i, j, 8);
    }
  }

  /** The 67 secret chain starts of one key differ, and those of two keys do, short of a collision. */
  lemma ChainSeedsDiffer(h: Sha256, s: Wide, i: nat, t: Wide, j: nat)
    requires i < LEN && j < LEN
    ensures ChainSeed(h, s, i) == ChainSeed(h, t, j)
       <==> (s == t && i == j) || Collides(h, ChainInput(s, i), ChainInput(t, j))
  {
    ChainInputsEqualIff(s, i, t, j);
  }

  /** Where two key pairs with different seeds and one public key meet. */
  ghost predicate ChainsCollide(h: Sha256, s: Bytes, t: Bytes) {
    || Collides(h, ChainInput(s, 0), ChainInput(t, 0))
    || WalksCollide(h, ChainSeed(h, s, 0), ChainSeed(h, t, 0), W - 1)
  }

  /** Key pairs of different seeds have different public keys, short of a collision. */
  lemma PublicKeysDiffer(h: Sha256, s: Wide, t: Wide)
    requires PublicKey(h, s) == PublicKey(h, t)
    ensures s == t || ChainsCollide(h, s, t)
  {
    PublicKeyCells(h, s);
    PublicKeyCells(h, t);
    assert Cell(PublicKey(h, s), 0) == Cell(PublicKey(h, t), 0);
    SameEnd(h, ChainSeed(h, s, 0), ChainSeed(h, t, 0), W - 1);
    ChainSeedsDiffer(h, s, 0, t, 0);
  }

  // --------------------------------------------------------------- key seeds

  lemma KeyInputsEqualIff(b: Wide, i: nat, c: Wide, j: nat)
    requires i < U64 && j < U64
    ensures KeyInput(b, i) == KeyInput(c, j) <==> b == c && i == j
  {
    Pow256Values();
    var x, y := KeyInput(b, i), KeyInput(c, j);
    assert x[8..72] == b && y[8..72] == c && x[72..80] == Be(i, 8) && y[72..80] == Be(j, 8);
    if x == y {
      BeInjective(i, j, 8);
    }
  }

  /** The seeds of the keys of one batch and of different batches differ, short of a collision. */
  lemma KeySeedsDiffer(hs: Hashes, b: Wide, i: nat, c: Wide, j: nat)
    requires i < TOTAL_KEYS && j < TOTAL_KEYS
    ensures KeySeed(hs, b, i) == KeySeed(hs, c, j) <==> (b == c && i == j) || Collides(hs.h512, KeyInput(b, i), KeyInput(c, j))
  {
    KeyInputsEqualIff(b, i, c, j);
  }

  /** Two strings hashed on the way to the seeds of batches b and c, k batches before them, collide. */
  predicate BatchesCollideAt(hs: Hashes, masterSeed: Bytes, b: nat, c: nat, k: nat) {
    k <= b && k <= c && Collides(hs.h512, BatchInput(hs, masterSeed, b - k), BatchInput(hs, masterSeed, c - k))
  }

  lemma BatchSeedIsHash(hs: Hashes, masterSeed: Bytes, b: nat)
    ensures BatchSeed(hs, masterSeed, b) == hs.h512(BatchInput(hs, masterSeed, b))
  {
  }

  lemma TagsDiffer(x: Bytes, y: Bytes)
    ensures BATCH_INITIAL_TAG + x != BATCH_NEXT_TAG + y
  {
    assert (BATCH_INITIAL_TAG + x)[6] == BATCH_INITIAL_TAG[6] && (BATCH_NEXT_TAG + y)[6] == BATCH_NEXT_TAG[6];
  }

  /** The seeds of different batches differ, short of a collision. */
  lemma {:induction false} BatchSeedsDiffer(hs: Hashes, masterSeed: Bytes, b: nat, c: nat) returns (k: nat)
    requires b != c && BatchSeed(hs, masterSeed, b) == BatchSeed(hs, masterSeed, c)
    ensures BatchesCollideAt(hs, masterSeed, b, c, k)
    decreases b
  {
    BatchSeedIsHash(hs, masterSeed, b);
    BatchSeedIsHash(hs, masterSeed, c);
    var x, y := BatchInput(hs, masterSeed, b), BatchInput(hs, masterSeed, c);
    if x != y {
      k := 0;
    } else if b == 0 {
      TagsDiffer(masterSeed, BatchSeed(hs, masterSeed, c - 1));
      assert false;
    } else if c == 0 {
      TagsDiffer(masterSeed, BatchSeed(hs, masterSeed, b - 1));
      assert false;
    } else {
      assert x[10..] == BatchSeed(hs, masterSeed, b - 1) && y[10..] == BatchSeed(hs, masterSeed, c - 1);
      k := BatchSeedsDiffer(hs, masterSeed, b - 1, c - 1);
      k := k + 1;
    }
  }

  // -------------------------------------------------------- the life of a wallet

  /** The collision that two uses with one public key exhibit: among chains, key seeds or batch seeds. */
  ghost predicate UsesCollide(hs: Hashes, masterSeed: Bytes, u: Use, v: Use) {
    var b, c := BatchSeed(hs, masterSeed, u.batch), BatchSeed(hs, masterSeed, v.batch);
    || ChainsCollide(hs.h256, KeySeed(hs, b, u.index), KeySeed(hs, c, v.index))
    || Collides(hs.h512, KeyInput(b, u.index), KeyInput(c, v.index))
    || exists k :: BatchesCollideAt(hs, masterSeed, u.batch, v.batch, k)
  }

  function PublicKeyOf(hs: Hashes, masterSeed: Bytes, u: Use): Bytes
    requires u.index < TOTAL_KEYS
  {
    SignedWith(hs, BatchSeed(hs, masterSeed, u.batch), u.index, u.message).publicKey
  }

  lemma SamePublicKey(hs: Hashes, masterSeed: Bytes, u: Use, v: Use)
    requires u.index < TOTAL_KEYS && v.index < TOTAL_KEYS && (u.batch != v.batch || u.index != v.index)
    requires PublicKeyOf(hs, masterSeed, u) == PublicKeyOf(hs, masterSeed, v)
    ensures UsesCollide(hs, masterSeed, u, v)
  {
    var b, c := BatchSeed(hs, masterSeed, u.batch), BatchSeed(hs, masterSeed, v.batch);
    PublicKeysDiffer(hs.h256, KeySeed(hs, b, u.index), KeySeed(hs, c, v.index));
    KeySeedsDiffer(hs, b, u.index, c, v.index);
    if b == c && u.batch != v.batch {
      var k := BatchSeedsDiffer(hs, masterSeed, u.batch, v.batch);
    }
  }

  /** Over the wallet's whole life no public key signs twice: two signatures under one key exhibit a collision. */
  lemma NoPublicKeySignsTwice(hs: Hashes, masterSeed: Bytes, k: Keys, calls: seq<KeyCall>, m: nat, n: nat)
    requires m < n < |Uses(k, calls)|
    ensures var u, v := Uses(k, calls)[m], Uses(k, calls)[n];
            && u.index < TOTAL_KEYS && v.index < TOTAL_KEYS
            && (PublicKeyOf(hs, masterSeed, u) == PublicKeyOf(hs, masterSeed, v) ==> UsesCollide(hs, masterSeed, u, v))
  {
    var u, v := Uses(k, calls)[m], Uses(k, calls)[n];
    UsesAreUnused(k, calls, m);
    UsesAreUnused(k, calls, n);
    NoKeySignsTwice(k, calls, m, n);
    if PublicKeyOf(hs, masterSeed, u) == PublicKeyOf(hs, masterSeed, v) {
      SamePublicKey(hs, masterSeed, u, v);
    }
  }

  // --------------------------------------------------- keys for other purposes

  lemma {:induction false} LeadingZero(i: nat, width: nat)
    requires width > 0 && i < Pow256(width - 1)
    ensures Be(i, width)[0] == 0
    decreases width
  {
    if width > 1 {
      LeadingZero(i / 256, width - 1);
    }
  }

  /** The registration key is no key of any batch, short of a collision. */
  lemma RegistrationKeyIsSeparate(hs: Hashes, masterSeed: Bytes, b: Wide, i: nat)
    requires i < TOTAL_KEYS
    ensures RegistrationInput(masterSeed) != KeyInput(b, i)
    ensures RegistrationSeed(hs, masterSeed) == KeySeed(hs, b, i) <==> Collides(hs.h512, RegistrationInput(masterSeed), KeyInput(b, i))
  {
    Pow256Values();
    assert Pow256(7) >= Pow256(2);
    LeadingZero(i, 8);
    var x, y := RegistrationInput(masterSeed), KeyInput(b, i);
    assert y[|y| - 8] == Be(i, 8)[0] == 0;
    assert x[|x| - 8] == REGISTRATION_TAG[8];
  }

  /** The key pairs of a wallet not yet registered differ in epoch or count, and none is a key of a batch. */
  lemma LegacySeedsDiffer(hs: Hashes, b: Wide, e: nat, i: nat, c: Wide, f: nat, j: nat)
    requires e < U64 && i < U64 && f < U64 && j < U64
    ensures LegacySeed(hs, b, e, i) == LegacySeed(hs, c, f, j)
       <==> (b == c && e == f && i == j) || Collides(hs.h512, LegacyInput(b, e, i), LegacyInput(c, f, j))
    ensures LegacySeed(hs, b, e, i) == KeySeed(hs, c, j) <==> Collides(hs.h512, LegacyInput(b, e, i), KeyInput(c, j))
  {
    Pow256Values();
    var x, y := LegacyInput(b, e, i), LegacyInput(c, f, j);
    assert |x| == 94 && |KeyInput(c, j)| == 80;
    assert x[..64] == b && y[..64] == c && x[78..86] == Be(e, 8) && y[78..86] == Be(f, 8) && x[86..94] == Be(i, 8) && y[86..94] == Be(j, 8);
    if x == y {
      BeInjective(e, f, 8);
      BeInjective(i, j, 8);
    }
  }

  /** An address binds the master seed, short of a collision. */
  lemma AddressBindsSeed(hs: Hashes, masterSeed: Bytes, other: Bytes)
    ensures AddressOf(hs, InnerHash(hs, masterSeed)) == AddressOf(hs, InnerHash(hs, other))
       <==> || masterSeed == other || Collides(hs.h512, InnerInput(masterSeed), InnerInput(other))
            || Collides(hs.h512, AddressInput(InnerHash(hs, masterSeed)), AddressInput(InnerHash(hs, other)))
  {
    var x, y := InnerHash(hs, masterSeed), InnerHash(hs, other);
    assert AddressInput(x)[13..] == x && AddressInput(y)[13..] == y;
    assert InnerInput(masterSeed)[13..] == masterSeed && InnerInput(other)[13..] == other;
  }
}
