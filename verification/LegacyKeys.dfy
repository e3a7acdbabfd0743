/** The key pairs with which a wallet signs before it is registered: made on demand, used once. */
module LegacyKeys {
  import opened Wrappers
  import opened ByteStrings
  import opened Wots
  import opened Merkle
  import opened AuthTree

  const LEGACY_TAG: Bytes := [108, 101, 103, 97, 99, 121, 95, 107, 101, 121, 112, 97, 105, 114]

  /** A key pair, known by the seed both keys are generated from. */
  datatype KeyPair = KeyPair(seed: Wide, used: bool)

  function LegacyInput(batchSeed: Bytes, epoch: nat, index: nat): Bytes {
    batchSeed + LEGACY_TAG + Be(epoch, 8) + Be(index, 8)
  }

  function LegacySeed(hs: Hashes, batchSeed: Bytes, epoch: nat, index: nat): Wide {
    hs.h512(LegacyInput(batchSeed, epoch, index))
  }

  datatype LegacyError = IndexTooLarge | Reused

  function PairsAt(cache: map<nat, seq<KeyPair>>, epoch: nat): seq<KeyPair> {
    if epoch in cache then cache[epoch] else []
  }

  function UsedCount(pairs: seq<KeyPair>): nat {
    if pairs == [] then 0 else UsedCount(pairs[..|pairs| - 1]) + (if pairs[|pairs| - 1].used then 1 else 0)
  }

  lemma {:induction false} UsingCounts(pairs: seq<KeyPair>, i: nat)
    requires i < |pairs| && !pairs[i].used
    ensures UsedCount(pairs[i := pairs[i].(used := true)]) == UsedCount(pairs) + 1
  {
    var n := |pairs| - 1;
    var after := pairs[i := pairs[i].(used := true)];
    if i < n {
      UsingCounts(pairs[..n], i);
      assert after[..n] == pairs[..n][i := pairs[i].(used := true)];
    } else {
      assert after[..n] == pairs[..n];
    }
  }

  /** A used pair stays where it is and stays used. */
  ghost predicate UsedStay(before: seq<KeyPair>, after: seq<KeyPair>) {
    |before| <= |after| && forall i :: 0 <= i < |before| ==> after[i].seed == before[i].seed && (before[i].used ==> after[i].used)
  }

  class LegacyKeyring {
    const hs: Hashes
    var keyCache: map<nat, seq<KeyPair>>
    var keyIndex: nat

    constructor (hs: Hashes)
      ensures this.hs == hs && keyCache == map[] && keyIndex == 0
    {
      this.hs := hs;
      keyCache, keyIndex := map[], 0;
    }

    /** A new unused pair at the end of the epoch's list. */
    method GenerateKeypair(batchSeed: Bytes, epoch: nat) returns (r: Result<nat, LegacyError>)
      modifies this
      ensures r.Err? <==> epoch >= U64 || old(keyIndex) >= U64
      ensures r.Err? ==> r.error == IndexTooLarge && keyCache == old(keyCache) && keyIndex == old(keyIndex)
      ensures r.Ok? ==> keyIndex == old(keyIndex) + 1 && r.value == |PairsAt(old(keyCache), epoch)|
      ensures r.Ok? ==>
                keyCache == old(keyCache)[epoch := PairsAt(old(keyCache), epoch) + [KeyPair(LegacySeed(hs, batchSeed, epoch, old(keyIndex)), false)]]
    {
      if epoch >= U64 || keyIndex >= U64 {
        return Err(IndexTooLarge);
      }
      var seed := LegacySeed(hs, batchSeed, epoch, keyIndex);
      keyIndex := keyIndex + 1;
      var position := |PairsAt(keyCache, epoch)|;
      keyCache := keyCache[epoch := PairsAt(keyCache, epoch) + [KeyPair(seed, false)]];
      return Ok(position);
    }

    /** The first unused pair of the epoch, or a new one. */
    method GetUnusedKeypair(batchSeed: Bytes, epoch: nat) returns (r: Result<nat, LegacyError>)
      modifies this
      ensures UsedStay(PairsAt(old(keyCache), epoch), PairsAt(keyCache, epoch))
      ensures UsedCount(PairsAt(keyCache, epoch)) == UsedCount(PairsAt(old(keyCache), epoch)) && keyIndex <= old(keyIndex) + 1
      ensures r.Err? <==> (epoch >= U64 || old(keyIndex) >= U64) && forall i :: 0 <= i < |PairsAt(old(keyCache), epoch)| ==> PairsAt(old(keyCache), epoch)[i].used
      ensures r.Ok? ==> r.value < |PairsAt(keyCache, epoch)| && !PairsAt(keyCache, epoch)[r.value].used
      ensures r.Ok? ==> forall i :: 0 <= i < r.value ==> PairsAt(keyCache, epoch)[i].used
    {
      var pairs := PairsAt(keyCache, epoch);
      for i := 0 to |pairs|
        invariant forall j :: 0 <= j < i ==> pairs[j].used
      {
        if !pairs[i].used {
          return Ok(i);
        }
      }
      r := GenerateKeypair(batchSeed, epoch);
      if r.Ok? {
        var more := PairsAt(keyCache, epoch);
        assert more[..|pairs|] == pairs;
      }
    }

    /** Signing with a pair marks it as used; a used one is refused. */
    method Sign(message: Bytes, epoch: nat, position: nat) returns (r: Result<Bytes, LegacyError>)
      requires position < |PairsAt(keyCache, epoch)|
      modifies this`keyCache
      ensures var pair := PairsAt(old(keyCache), epoch)[position];
              && (r.Err? <==> pair.used)
              && (r.Err? ==> r.error == Reused && keyCache == old(keyCache))
              && (r.Ok? ==> r.value == Signature(hs.h256, hs.h256(message), PrivateKey(hs.h256, pair.seed)))
              && (r.Ok? ==> keyCache == old(keyCache)[epoch := PairsAt(old(keyCache), epoch)[position := pair.(used := true)]])
    {
      var pairs := PairsAt(keyCache, epoch);
      if pairs[position].used {
        return Err(Reused);
      }
      var priv, pub := Keygen(hs.h256, pairs[position].seed);
      var signature := Wots.Sign(hs.h256, message, priv);
      keyCache := keyCache[epoch := pairs[position := pairs[position].(used := true)]];
      return Ok(signature);
    }

    /** What _sign_inputs does for one input of an unregistered wallet: a pair is taken, and is used up. */
    method SignOnce(batchSeed: Bytes, message: Bytes, epoch: nat) returns (r: Result<(Bytes, Bytes), LegacyError>, ghost seed: Wide)
      modifies this
      ensures UsedStay(PairsAt(old(keyCache), epoch), PairsAt(keyCache, epoch))
      ensures keyIndex <= old(keyIndex) + 1
      ensures r.Err? ==> r.error == IndexTooLarge && (epoch >= U64 || old(keyIndex) >= U64)
      ensures r.Ok? ==> r.value == (PublicKey(hs.h256, seed), Signature(hs.h256, hs.h256(message), PrivateKey(hs.h256, seed)))
      ensures UsedCount(PairsAt(keyCache, epoch)) == UsedCount(PairsAt(old(keyCache), epoch)) + if r.Ok? then 1 else 0
    {
      var position := GetUnusedKeypair(batchSeed, epoch);
      if position.Err? {
        seed := LegacySeed(hs, batchSeed, epoch, 0);
        return Err(IndexTooLarge), seed;
      }
      var pairs := PairsAt(keyCache, epoch);
      seed := pairs[position.value].seed;
      UsingCounts(pairs, position.value);
      var priv, pub := Keygen(hs.h256, pairs[position.value].seed);
      var signature := Sign(message, epoch, position.value);
      return Ok((pub, signature.value)), seed;
    }
  }
}
