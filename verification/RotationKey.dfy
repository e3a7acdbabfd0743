/** The public_key field of a rotation input: key, proof length, proof entries, key index. */
module RotationKey {
  import opened Wrappers
  import opened ByteStrings
  import opened Merkle
  import opened Wots
  import opened Transactions

  datatype RotationProof = RotationProof(publicKey: Bytes, proof: Proof, keyIndex: nat)

  const ENTRY_SIZE: nat := 33

  function EntryBytes(proof: Proof): Bytes {
    if proof == [] then []
    else EntryBytes(proof[..|proof| - 1]) + (proof[|proof| - 1].sibling + Be(proof[|proof| - 1].isRight, 1))
  }

  /** Reads whole 33-byte entries; a shorter rest is ignored. */
  function ReadEntries(data: Bytes): Proof
    decreases |data|
  {
    if |data| < ENTRY_SIZE then [] else [Entry(data[..32], data[32])] + ReadEntries(data[ENTRY_SIZE..])
  }

  function Encode(r: RotationProof): Bytes {
    r.publicKey + (Be(|EntryBytes(r.proof)|, 2) + (EntryBytes(r.proof) + Be(r.keyIndex, 4)))
  }

  function Parse(field: Bytes): (r: Result<RotationProof, Reason>) {
    if |field| < SIG_SIZE + 6 then Err(FieldTooShort)
    else
      var proofLen := FromBe(field[SIG_SIZE..SIG_SIZE + 2]);
      var end := SIG_SIZE + 2 + proofLen;
      if |field| < end + 4 then Err(ProofTooShort)
      else Ok(RotationProof(field[..SIG_SIZE], ReadEntries(field[SIG_SIZE + 2..end]), FromBe(field[end..end + 4])))
  }

  predicate IsEncodableProof(proof: Proof) {
    forall j :: 0 <= j < |proof| ==> |proof[j].sibling| == 32 && proof[j].isRight < 256
  }

  lemma {:induction false} EntryBytesLength(proof: Proof)
    requires IsEncodableProof(proof)
    ensures |EntryBytes(proof)| == ENTRY_SIZE * |proof|
  {
    if proof != [] {
      EntryBytesLength(proof[..|proof| - 1]);
    }
  }

  lemma {:induction false} ReadAppended(data: Bytes, sibling: Bytes, isRight: nat)
    requires |data| % ENTRY_SIZE == 0 && |sibling| == 32 && isRight < 256
    ensures ReadEntries(data + (sibling + Be(isRight, 1))) == ReadEntries(data) + [Entry(sibling, isRight)]
    decreases |data|
  {
    var last := sibling + Be(isRight, 1);
    Pow256Values();
    assert Be(isRight, 1) == Be(isRight / 256, 0) + [isRight % 256] == [isRight];
    if data == [] {
      assert data + last == last && last[..32] == sibling && last[32] == isRight;
      assert ReadEntries(last[ENTRY_SIZE..]) == [];
    } else {
      ReadAppended(data[ENTRY_SIZE..], sibling, isRight);
      assert (data + last)[..32] == data[..32];
      assert (data + last)[ENTRY_SIZE..] == data[ENTRY_SIZE..] + last;
    }
  }

  lemma {:induction false} EntriesRoundTrip(proof: Proof)
    requires IsEncodableProof(proof)
    ensures ReadEntries(EntryBytes(proof)) == proof
  {
    if proof != [] {
      var n := |proof| - 1;
      EntryBytesLength(proof[..n]);
      EntriesRoundTrip(proof[..n]);
      ReadAppended(EntryBytes(proof[..n]), proof[n].sibling, proof[n].isRight);
      assert proof == proof[..n] + [proof[n]];
    }
  }

  /** The field written by the wallet parses in the validator to the same key, proof and index. */
  lemma FieldRoundTrip(r: RotationProof)
    requires |r.publicKey| == SIG_SIZE && IsEncodableProof(r.proof)
    requires ENTRY_SIZE * |r.proof| < U16 && r.keyIndex < U32
    ensures Parse(Encode(r)) == Ok(r)
  {
    var entries, field := EntryBytes(r.proof), Encode(r);
    EntryBytesLength(r.proof);
    EntriesRoundTrip(r.proof);
    Pow256Values();
    FromBeInvertsBe(|entries|, 2);
    FromBeInvertsBe(r.keyIndex, 4);
    var end := SIG_SIZE + 2 + |entries|;
    var length, index := Be(|entries|, 2), Be(r.keyIndex, 4);
    assert field[..SIG_SIZE] == r.publicKey;
    Middle(r.publicKey, length, entries + index);
    assert field == (r.publicKey + length) + (entries + index);
    Middle(r.publicKey + length, entries, index);
    assert field == (r.publicKey + length + entries) + (index + []);
    Middle(r.publicKey + length + entries, index, []);
    assert field[end..end + 4] == index;
  }

  /** The wallet's loop over the proof. */
  method WriteEntries(proof: Proof) returns (data: Bytes)
    ensures data == EntryBytes(proof)
  {
    data := [];
    for i := 0 to |proof|
      invariant data == EntryBytes(proof[..i])
    {
      assert proof[..i + 1][..i] == proof[..i];
      data := data + (proof[i].sibling + Be(proof[i].isRight, 1));
    }
    assert proof[..|proof|] == proof;
  }

  /** The validator's loop over the proof bytes. */
  method ParseEntries(data: Bytes) returns (proof: Proof)
    ensures proof == ReadEntries(data)
  {
    proof := [];
    var offset := 0;
    while offset + ENTRY_SIZE <= |data|
      invariant offset <= |data|
      invariant ReadEntries(data) == proof + ReadEntries(data[offset..])
    {
      var sibling, isRight := data[offset..offset + 32], data[offset + 32];
      assert data[offset..][..32] == sibling && data[offset..][ENTRY_SIZE..] == data[offset + ENTRY_SIZE..];
      proof := proof + [Entry(sibling, isRight)];
      offset := offset + ENTRY_SIZE;
    }
  }
}
