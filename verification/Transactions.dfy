/** Transactions, the byte string that is hashed to identify and sign one, and the output codec. */
module Transactions {
  import opened Wrappers
  import opened ByteStrings
  import opened Merkle

  const TX_VERSION: int := 1
  const MAX_TX_SIZE: int := 65536
  const MAX_INPUTS: nat := 16
  const MAX_OUTPUTS: nat := 16
  const MIN_FEE_PER_BYTE: int := 1
  const DUST_THRESHOLD: int := 546

  datatype TxType = Transfer | Stake | Unstake | Slash | Coinbase | Data | Register | RotateAuth

  function TypeCode(t: TxType): nat {
    match t
    case Transfer => 0
    case Stake => 1
    case Unstake => 2
    case Slash => 3
    case Coinbase => 4
    case Data => 5
    case Register => 6
    case RotateAuth => 7
  }

  /** Key of an output: the hash of its transaction and its position there. */
  datatype OutRef = OutRef(txHash: Bytes, index: int)

  datatype TxInput = TxInput(prev: OutRef, signature: Bytes, publicKey: Bytes, authProof: Option<Proof>, keyIndex: int)

  datatype TxOutput = TxOutput(value: int, address: Bytes, lockEpoch: int, data: Bytes)

  datatype Tx = Tx(
    version: int, txType: TxType, inputs: seq<TxInput>, outputs: seq<TxOutput>,
    epoch: int, timestamp: int, fee: int, nonce: Bytes)

  // ------------------------------------------------------------------ encoding

  predicate InU64(x: int) { 0 <= x < U64 }

  /** struct.pack('>Q', x); a value it refuses is excluded by Encodable below. */
  function Be8(x: int): (r: Bytes)
    ensures |r| == 8
  {
    Be(Max(x, 0), 8)
  }

  function RefBytes(r: OutRef): Bytes {
    r.txHash + Be8(r.index)
  }

  function RefsBytes(inputs: seq<TxInput>): Bytes {
    if inputs == [] then [] else RefBytes(inputs[0].prev) + RefsBytes(inputs[1..])
  }

  function OutputBytes(o: TxOutput): Bytes {
    Be8(o.value) + (o.address + (Be8(o.lockEpoch) + (Be(|o.data|, 2) + o.data)))
  }

  function OutputsBytes(outputs: seq<TxOutput>): Bytes {
    if outputs == [] then [] else OutputBytes(outputs[0]) + OutputsBytes(outputs[1..])
  }

  function TailBytes(tx: Tx): Bytes {
    Be8(tx.epoch) + (Be8(tx.timestamp) + (Be8(tx.fee) + tx.nonce))
  }

  /** What tx_hash and signing_hash feed to SHA3-256: everything but signatures, keys and proofs. */
  function TxPreimage(tx: Tx): Bytes {
    Be8(tx.version) + (Be8(TypeCode(tx.txType)) + (Be8(|tx.inputs|) + (RefsBytes(tx.inputs)
      + (Be8(|tx.outputs|) + (OutputsBytes(tx.outputs) + TailBytes(tx))))))
  }

  function TxHash(h: Sha256, tx: Tx): Digest {
    h(TxPreimage(tx))
  }

  predicate EncodableOutput(o: TxOutput) {
    InU64(o.value) && InU64(o.lockEpoch) && |o.data| < U16
  }

  /** No struct.pack call made by tx_hash fails. */
  predicate Encodable(tx: Tx) {
    && InU64(tx.version) && |tx.inputs| < U64 && |tx.outputs| < U64
    && InU64(tx.epoch) && InU64(tx.timestamp) && InU64(tx.fee)
    && (forall i :: 0 <= i < |tx.inputs| ==> InU64(tx.inputs[i].prev.index))
    && (forall i :: 0 <= i < |tx.outputs| ==> EncodableOutput(tx.outputs[i]))
  }

  /** Encodable, with references by 32-byte hashes and outputs to 64-byte addresses. */
  predicate WellFormed(tx: Tx) {
    && Encodable(tx)
    && (forall i :: 0 <= i < |tx.inputs| ==> |tx.inputs[i].prev.txHash| == 32)
    && (forall i :: 0 <= i < |tx.outputs| ==> |tx.outputs[i].address| == 64)
  }

  // -------------------------------------------------------- unique decodability

  lemma SplitBe8(a: int, x: Bytes, b: int, y: Bytes)
    requires InU64(a) && InU64(b)
    requires Be8(a) + x == Be8(b) + y
    ensures a == b && x == y
  {
    SplitPair(Be8(a), x, Be8(b), y);
    Pow256Values();
    BeInjective(a, b, 8);
  }

  predicate SameRefs(a: seq<TxInput>, b: seq<TxInput>) {
    |a| == |b| && forall i :: 0 <= i < |a| ==> a[i].prev == b[i].prev
  }

  lemma {:induction false} SplitRefs(a: seq<TxInput>, x: Bytes, b: seq<TxInput>, y: Bytes)
    requires |a| == |b|
    requires forall i :: 0 <= i < |a| ==> |a[i].prev.txHash| == 32 && InU64(a[i].prev.index)
    requires forall i :: 0 <= i < |b| ==> |b[i].prev.txHash| == 32 && InU64(b[i].prev.index)
    requires RefsBytes(a) + x == RefsBytes(b) + y
    ensures SameRefs(a, b) && x == y
  {
    if a == [] {
      assert RefsBytes(a) + x == x && RefsBytes(b) + y == y;
    } else {
      var p, q := a[0].prev, b[0].prev;
      var restA, restB := RefsBytes(a[1..]) + x, RefsBytes(b[1..]) + y;
      assert RefsBytes(a) + x == p.txHash + (Be8(p.index) + restA);
      assert RefsBytes(b) + y == q.txHash + (Be8(q.index) + restB);
      SplitPair(p.txHash, Be8(p.index) + restA, q.txHash, Be8(q.index) + restB);
      SplitBe8(p.index, restA, q.index, restB);
      SplitRefs(a[1..], x, b[1..], y);
      forall i | 0 <= i < |a| ensures a[i].prev == b[i].prev {
        if i > 0 {
          assert a[i] == a[1..][i - 1] && b[i] == b[1..][i - 1];
        }
      }
    }
  }

  lemma SplitOutput(a: TxOutput, x: Bytes, b: TxOutput, y: Bytes)
    requires EncodableOutput(a) && EncodableOutput(b) && |a.address| == |b.address| == 64
    requires OutputBytes(a) + x == OutputBytes(b) + y
    ensures a == b && x == y
  {
    var a3, b3 := Be(|a.data|, 2) + (a.data + x), Be(|b.data|, 2) + (b.data + y);
    var a2, b2 := Be8(a.lockEpoch) + a3, Be8(b.lockEpoch) + b3;
    assert OutputBytes(a) + x == Be8(a.value) + (a.address + a2);
    assert OutputBytes(b) + y == Be8(b.value) + (b.address + b2);
    SplitBe8(a.value, a.address + a2, b.value, b.address + b2);
    SplitPair(a.address, a2, b.address, b2);
    SplitBe8(a.lockEpoch, a3, b.lockEpoch, b3);
    SplitPair(Be(|a.data|, 2), a.data + x, Be(|b.data|, 2), b.data + y);
    Pow256Values();
    BeInjective(|a.data|, |b.data|, 2);
    SplitPair(a.data, x, b.data, y);
  }

  lemma {:induction false} SplitOutputs(a: seq<TxOutput>, x: Bytes, b: seq<TxOutput>, y: Bytes)
    requires |a| == |b|
    requires forall i :: 0 <= i < |a| ==> EncodableOutput(a[i]) && |a[i].address| == 64
    requires forall i :: 0 <= i < |b| ==> EncodableOutput(b[i]) && |b[i].address| == 64
    requires OutputsBytes(a) + x == OutputsBytes(b) + y
    ensures a == b && x == y
  {
    if a == [] {
      assert OutputsBytes(a) + x == x && OutputsBytes(b) + y == y;
    } else {
      var restA, restB := OutputsBytes(a[1..]) + x, OutputsBytes(b[1..]) + y;
      assert OutputsBytes(a) + x == OutputBytes(a[0]) + restA;
      assert OutputsBytes(b) + y == OutputBytes(b[0]) + restB;
      SplitOutput(a[0], restA, b[0], restB);
      SplitOutputs(a[1..], x, b[1..], y);
      assert a == [a[0]] + a[1..] && b == [b[0]] + b[1..];
    }
  }

  lemma TypeCodeInjective(a: TxType, b: TxType)
    requires TypeCode(a) == TypeCode(b)
    ensures a == b
  {
  }

  /** All that a preimage says about a transaction. */
  predicate SameBody(a: Tx, b: Tx) {
    && a.version == b.version && a.txType == b.txType && SameRefs(a.inputs, b.inputs) && a.outputs == b.outputs
    && a.epoch == b.epoch && a.timestamp == b.timestamp && a.fee == b.fee && a.nonce == b.nonce
  }

  predicate RefsAre32(inputs: seq<TxInput>) {
    forall i :: 0 <= i < |inputs| ==> |inputs[i].prev.txHash| == 32
  }

  /** The front of a preimage: equal ones have equal types and references, and the same bytes of outputs and rest. */
  lemma SplitHead(a: Tx, b: Tx)
    requires Encodable(a) && Encodable(b) && RefsAre32(a.inputs) && RefsAre32(b.inputs) && TxPreimage(a) == TxPreimage(b)
    ensures a.version == b.version && a.txType == b.txType && SameRefs(a.inputs, b.inputs) && |a.outputs| == |b.outputs|
    ensures OutputsBytes(a.outputs) + TailBytes(a) == OutputsBytes(b.outputs) + TailBytes(b)
  {
    var a5, b5 := OutputsBytes(a.outputs) + TailBytes(a), OutputsBytes(b.outputs) + TailBytes(b);
    var a4, b4 := Be8(|a.outputs|) + a5, Be8(|b.outputs|) + b5;
    var a3, b3 := RefsBytes(a.inputs) + a4, RefsBytes(b.inputs) + b4;
    var a2, b2 := Be8(|a.inputs|) + a3, Be8(|b.inputs|) + b3;
    var a1, b1 := Be8(TypeCode(a.txType)) + a2, Be8(TypeCode(b.txType)) + b2;
    SplitBe8(a.version, a1, b.version, b1);
    SplitBe8(TypeCode(a.txType), a2, TypeCode(b.txType), b2);
    TypeCodeInjective(a.txType, b.txType);
    SplitBe8(|a.inputs|, a3, |b.inputs|, b3);
    SplitRefs(a.inputs, a4, b.inputs, b4);
    SplitBe8(|a.outputs|, a5, |b.outputs|, b5);
  }

  /** The hashed byte string is uniquely decodable. */
  lemma PreimageInjective(a: Tx, b: Tx)
    requires WellFormed(a) && WellFormed(b)
    ensures TxPreimage(a) == TxPreimage(b) <==> SameBody(a, b)
  {
    if TxPreimage(a) == TxPreimage(b) {
      SplitHead(a, b);
      SplitOutputs(a.outputs, TailBytes(a), b.outputs, TailBytes(b));
      SplitTail(a, b);
    } else if SameBody(a, b) {
      SameRefsSameBytes(a.inputs, b.inputs);
    }
  }

  lemma SplitTail(a: Tx, b: Tx)
    requires InU64(a.epoch) && InU64(a.timestamp) && InU64(a.fee) && InU64(b.epoch) && InU64(b.timestamp) && InU64(b.fee)
    requires TailBytes(a) == TailBytes(b)
    ensures a.epoch == b.epoch && a.timestamp == b.timestamp && a.fee == b.fee && a.nonce == b.nonce
  {
    var a1, b1 := Be8(a.fee) + a.nonce, Be8(b.fee) + b.nonce;
    SplitBe8(a.epoch, Be8(a.timestamp) + a1, b.epoch, Be8(b.timestamp) + b1);
    SplitBe8(a.timestamp, a1, b.timestamp, b1);
    SplitBe8(a.fee, a.nonce, b.fee, b.nonce);
  }

  lemma {:induction false} SameRefsSameBytes(a: seq<TxInput>, b: seq<TxInput>)
    requires SameRefs(a, b)
    ensures RefsBytes(a) == RefsBytes(b)
  {
    if a != [] {
      SameRefsSameBytes(a[1..], b[1..]);
    }
  }

  /** Without a collision between their preimages, equal transaction hashes mean equal bodies. */
  lemma SameHashSameBody(h: Sha256, a: Tx, b: Tx, inputs: set<Bytes>)
    requires WellFormed(a) && WellFormed(b)
    requires CollisionFree(h, inputs) && TxPreimage(a) in inputs && TxPreimage(b) in inputs
    ensures TxHash(h, a) == TxHash(h, b) <==> SameBody(a, b)
  {
    PreimageInjective(a, b);
    if TxHash(h, a) == TxHash(h, b) {
      NoCollision(h, inputs, TxPreimage(a), TxPreimage(b));
    }
  }

  // --------------------------------------------------------------- output codec

  /** struct.error raised by an unpack of too few bytes. */
  datatype DecodeError = TooShort

  /** TxOutput.from_bytes: fixed fields must be present, address and payload are sliced with clamping. */
  function DecodeOutput(data: Bytes, offset: nat): (r: Result<(TxOutput, nat), DecodeError>)
    ensures r.Err? <==> |data| < offset + 82
  {
    if |data| < offset + 82 then Err(TooShort)
    else
      var dataLen := FromBe(data[offset + 80..offset + 82]);
      Ok((TxOutput(FromBe(data[offset..offset + 8]), data[offset + 8..offset + 72], FromBe(data[offset + 72..offset + 80]),
                   Slice(data, offset + 82, offset + 82 + dataLen)),
          offset + 82 + dataLen))
  }

  lemma Be8Decodes(x: int)
    requires InU64(x)
    ensures FromBe(Be8(x)) == x
  {
    Pow256Values();
    FromBeInvertsBe(x, 8);
  }

  /** from_bytes inverts to_bytes wherever the encoding stands inside other bytes. */
  lemma OutputRoundTrip(pre: Bytes, o: TxOutput, post: Bytes)
    requires EncodableOutput(o) && |o.address| == 64
    ensures |OutputBytes(o)| == 82 + |o.data|
    ensures DecodeOutput(pre + OutputBytes(o) + post, |pre|) == Ok((o, |pre| + |OutputBytes(o)|))
  {
    var data, k := pre + OutputBytes(o) + post, |pre|;
    Pow256Values();
    Be8Decodes(o.value);
    Be8Decodes(o.lockEpoch);
    FromBeInvertsBe(|o.data|, 2);
    assert data[k..k + 8] == Be8(o.value);
    assert data[k + 8..k + 72] == o.address;
    assert data[k + 72..k + 80] == Be8(o.lockEpoch);
    assert data[k + 80..k + 82] == Be(|o.data|, 2);
    assert data[k + 82..k + 82 + |o.data|] == o.data;
  }

  /** Whatever decodes without running off the end re-encodes to the bytes it was read from. */
  lemma DecodedOutputReencodes(data: Bytes, offset: nat)
    requires var r := DecodeOutput(data, offset); r.Ok? && r.value.1 <= |data|
    ensures var r := DecodeOutput(data, offset);
            EncodableOutput(r.value.0) && OutputBytes(r.value.0) == data[offset..r.value.1]
  {
    var r := DecodeOutput(data, offset);
    var o := r.value.0;
    var f1, f2, f3 := data[offset..offset + 8], data[offset + 72..offset + 80], data[offset + 80..offset + 82];
    Pow256Values();
    FromBeFits(f1);
    FromBeFits(f2);
    FromBeFits(f3);
    BeInvertsFromBe(f1);
    BeInvertsFromBe(f2);
    BeInvertsFromBe(f3);
    assert o.data == data[offset + 82..r.value.1];
    SplitAt(data, offset + 80, offset + 82, r.value.1);
    SplitAt(data, offset + 72, offset + 80, r.value.1);
    SplitAt(data, offset + 8, offset + 72, r.value.1);
    SplitAt(data, offset, offset + 8, r.value.1);
  }

  // -------------------------------------------------------------------- sizes

  /** The size of a proof counts 2 per entry: each entry is a (hash, is_right) pair. */
  function InputSize(i: TxInput): nat {
    32 + 4 + |i.signature| + |i.publicKey| + (if i.authProof.Some? then 2 * |i.authProof.value| else 0) + 4
  }

  function InputSizes(inputs: seq<TxInput>): nat {
    if inputs == [] then 0 else InputSizes(inputs[..|inputs| - 1]) + InputSize(inputs[|inputs| - 1])
  }

  function OutputSize(o: TxOutput): nat {
    82 + |o.data|
  }

  function OutputSizes(outputs: seq<TxOutput>): nat {
    if outputs == [] then 0 else OutputSizes(outputs[..|outputs| - 1]) + OutputSize(outputs[|outputs| - 1])
  }

  function Size(tx: Tx): nat {
    36 + InputSizes(tx.inputs) + OutputSizes(tx.outputs)
  }

  function TotalOutput(outputs: seq<TxOutput>): int {
    if outputs == [] then 0 else TotalOutput(outputs[..|outputs| - 1]) + outputs[|outputs| - 1].value
  }

  // ---------------------------------------------------------------- structure

  /** Why a transaction is refused. */
  datatype Reason =
    | InvalidVersion | NoInputs | TooManyInputs | NoOutputs | TooManyOutputs | TooLarge | DustOutput | FeeTooLow
    | FutureEpoch | ExpiredEpoch
    | UtxoNotFound | UtxoSpent | UtxoLocked | BadSignature | KeyNotInTree | ProofRequired | InsufficientInput
    | NoStakingOutput | CoinbaseHasInputs | CoinbaseTooLarge | NoEvidence | NotStaked | NoPayload
    | NotOneInput | WrongDataLength | AddressMismatch | AlreadyRegistered | NotRegistered
    | FieldTooShort | ProofTooShort | AuthFailed | KeyNotReserved

  /** Raised stands for a struct.error raised while hashing. */
  datatype Verdict = Valid | Invalid(reason: Reason) | Raised

  predicate IsDust(o: TxOutput) {
    o.value < DUST_THRESHOLD && o.value != 0
  }

  function Structure(tx: Tx): Verdict {
    if tx.version != TX_VERSION then Invalid(InvalidVersion)
    else if tx.inputs == [] && tx.txType != Coinbase then Invalid(NoInputs)
    else if |tx.inputs| > MAX_INPUTS then Invalid(TooManyInputs)
    else if tx.outputs == [] then Invalid(NoOutputs)
    else if |tx.outputs| > MAX_OUTPUTS then Invalid(TooManyOutputs)
    else if Size(tx) > MAX_TX_SIZE then Invalid(TooLarge)
    else if exists o :: o in tx.outputs && IsDust(o) then Invalid(DustOutput)
    else if tx.fee < Size(tx) * MIN_FEE_PER_BYTE && tx.txType != Coinbase then Invalid(FeeTooLow)
    else Valid
  }

  method IsValidStructure(tx: Tx) returns (r: Verdict)
    ensures r == Structure(tx)
  {
    if tx.version != TX_VERSION {
      return Invalid(InvalidVersion);
    }
    if |tx.inputs| == 0 && tx.txType != Coinbase {
      return Invalid(NoInputs);
    }
    if |tx.inputs| > MAX_INPUTS {
      return Invalid(TooManyInputs);
    }
    if |tx.outputs| == 0 {
      return Invalid(NoOutputs);
    }
    if |tx.outputs| > MAX_OUTPUTS {
      return Invalid(TooManyOutputs);
    }
    if Size(tx) > MAX_TX_SIZE {
      return Invalid(TooLarge);
    }
    for i := 0 to |tx.outputs|
      invariant forall k :: 0 <= k < i ==> !IsDust(tx.outputs[k])
    {
      var o := tx.outputs[i];
      if o.value < DUST_THRESHOLD && o.value != 0 {
        assert o in tx.outputs && IsDust(o);
        return Invalid(DustOutput);
      }
    }
    if tx.fee < Size(tx) * MIN_FEE_PER_BYTE && tx.txType != Coinbase {
      return Invalid(FeeTooLow);
    }
    return Valid;
  }
}
