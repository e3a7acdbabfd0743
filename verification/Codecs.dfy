/** Message framing, peer lists and the wire forms of commitments, proposals and votes. */
module Codecs {
  import opened Wrappers
  import opened ByteStrings
  import opened Votes
  import opened Proposals

  lemma U32Decodes(x: nat)
    requires x < U32
    ensures FromBe(Be(x, 4)) == x
  {
    Pow256Values();
    FromBeInvertsBe(x, 4);
  }

  lemma U64Decodes(x: nat)
    requires x < U64
    ensures FromBe(Be(x, 8)) == x
  {
    Pow256Values();
    FromBeInvertsBe(x, 8);
  }

  lemma U16Decodes(x: nat)
    requires x < U16
    ensures FromBe(Be(x, 2)) == x
  {
    Pow256Values();
    FromBeInvertsBe(x, 2);
  }

  /** struct.pack('>i') and its inverse: two's complement on four bytes. */
  function SignedBytes(z: int): (r: Bytes)
    ensures |r| == 4
  {
    Be(z % 0x1_0000_0000, 4)
  }

  function FromSigned(data: Bytes): int {
    var v := FromBe(data);
    if v >= 0x8000_0000 then v - 0x1_0000_0000 else v
  }

  predicate InI32(z: int) { -0x8000_0000 <= z < 0x8000_0000 }

  lemma SignedDecodes(z: int)
    requires InI32(z)
    ensures FromSigned(SignedBytes(z)) == z
  {
    U32Decodes(z % 0x1_0000_0000);
  }

  /** The encodings of a list, one after the other. */
  function Flat<T>(encode: T -> Bytes, items: seq<T>): Bytes {
    if items == [] then [] else Flat(encode, items[..|items| - 1]) + encode(items[|items| - 1])
  }

  lemma {:induction false} FlatFront<T>(encode: T -> Bytes, items: seq<T>)
    requires items != []
    ensures Flat(encode, items) == encode(items[0]) + Flat(encode, items[1..])
  {
    var n := |items| - 1;
    if n > 0 {
      FlatFront(encode, items[..n]);
      assert items[..n][1..] == items[1..][..n - 1] && items[1..][n - 1] == items[n];
      assert Flat(encode, items) == encode(items[0]) + Flat(encode, items[1..][..n - 1]) + encode(items[n]);
    } else {
      assert items[..0] == [] && items[1..] == [];
    }
  }

  // -------------------------------------------------------------------- framing

  const MAX_MESSAGE_SIZE: nat := 16 * 1024 * 1024
  const HEADER_SIZE: nat := 5
  const LAST_TYPE: nat := 11

  datatype Message = Message(msgType: Byte, payload: Bytes)

  /** Why reading stops with an exception. */
  datatype ReadError = EndOfStream | TooLarge | UnknownType

  function EncodeMessage(m: Message): Bytes {
    Be(|m.payload|, 4) + [m.msgType] + m.payload
  }

  /** One message, and what the stream still holds. */
  function ReadMessage(stream: Bytes): (r: Result<(Message, Bytes), ReadError>)
    ensures r.Ok? ==> |r.value.1| < |stream|
  {
    if |stream| < HEADER_SIZE then Err(EndOfStream)
    else
      var length, kind := FromBe(stream[..4]), stream[4];
      if length > MAX_MESSAGE_SIZE then Err(TooLarge)
      else if kind > LAST_TYPE then Err(UnknownType)
      else if |stream| < HEADER_SIZE + length then Err(EndOfStream)
      else Ok((Message(kind, stream[HEADER_SIZE..HEADER_SIZE + length]), stream[HEADER_SIZE + length..]))
  }

  /** Reads until the stream is used up. */
  function ReadAll(stream: Bytes): Result<seq<Message>, ReadError>
    decreases |stream|
  {
    if stream == [] then Ok([])
    else
      var r := ReadMessage(stream);
      if r.Err? then Err(r.error)
      else
        var rest := ReadAll(r.value.1);
        if rest.Err? then rest else Ok([r.value.0] + rest.value)
  }

  function EncodeAll(ms: seq<Message>): Bytes {
    if ms == [] then [] else EncodeMessage(ms[0]) + EncodeAll(ms[1..])
  }

  predicate Sendable(m: Message) {
    |m.payload| <= MAX_MESSAGE_SIZE && m.msgType <= LAST_TYPE
  }

  lemma FirstMessageReads(m: Message, rest: Bytes)
    requires Sendable(m)
    ensures ReadMessage(EncodeMessage(m) + rest) == Ok((m, rest))
  {
    var stream := EncodeMessage(m) + rest;
    U32Decodes(|m.payload|);
    assert stream[..4] == Be(|m.payload|, 4);
    assert stream[HEADER_SIZE..HEADER_SIZE + |m.payload|] == m.payload;
    assert stream[HEADER_SIZE + |m.payload|..] == rest;
  }

  /** Any concatenation of framed messages reads back as the same sequence. */
  lemma {:induction false} StreamRoundTrip(ms: seq<Message>)
    requires forall m :: m in ms ==> Sendable(m)
    ensures ReadAll(EncodeAll(ms)) == Ok(ms)
  {
    if ms != [] {
      FirstMessageReads(ms[0], EncodeAll(ms[1..]));
      StreamRoundTrip(ms[1..]);
      assert ms == [ms[0]] + ms[1..];
    }
  }

  /** What was read is what the stream starts with: no two messages share a framed form. */
  lemma ReadIsPrefix(stream: Bytes)
    requires ReadMessage(stream).Ok?
    ensures var (m, rest) := ReadMessage(stream).value;
            Sendable(m) && stream == EncodeMessage(m) + rest
  {
    var n := FromBe(stream[..4]);
    BeInvertsFromBe(stream[..4]);
    assert stream == stream[..4] + [stream[4]] + stream[HEADER_SIZE..HEADER_SIZE + n] + stream[HEADER_SIZE + n..];
  }

  // ------------------------------------------------------------------ peer lists

  datatype Peer = Peer(host: Bytes, port: nat, validatorId: Bytes, zone: int, stake: nat)

  predicate EncodablePeer(p: Peer) {
    |p.host| < U16 && p.port < U16 && |p.validatorId| == 32 && InI32(p.zone) && p.stake < U64
  }

  function EncodePeer(p: Peer): Bytes {
    Be(|p.host|, 2) + (p.host + (Be(p.port, 2) + (p.validatorId + (SignedBytes(p.zone) + Be(p.stake, 8)))))
  }

  function EncodePeers(peers: seq<Peer>): Bytes {
    Flat(EncodePeer, peers)
  }

  /** struct.error on a short field. */
  datatype ShortField = ShortField

  /** One entry of a peer list and the number of bytes it takes. */
  function DecodePeer(data: Bytes): (r: Result<(Peer, nat), ShortField>)
    requires |data| >= 2
    ensures r.Ok? ==> 0 < r.value.1 <= |data|
  {
    var h := FromBe(data[..2]);
    if |data| < h + 48 then Err(ShortField)
    else
      Ok((Peer(data[2..2 + h], FromBe(data[2 + h..4 + h]), data[4 + h..36 + h],
               FromSigned(data[36 + h..40 + h]), FromBe(data[40 + h..48 + h])), h + 48))
  }

  /** A last odd byte ends the list silently; a cut entry raises. */
  function DecodePeers(data: Bytes): Result<seq<Peer>, ShortField>
    decreases |data|
  {
    if |data| < 2 then Ok([])
    else
      var r := DecodePeer(data);
      if r.Err? then Err(r.error)
      else
        var rest := DecodePeers(data[r.value.1..]);
        if rest.Err? then rest else Ok([r.value.0] + rest.value)
  }

  lemma FirstPeerDecodes(p: Peer, rest: Bytes)
    requires EncodablePeer(p)
    ensures |EncodePeer(p)| == |p.host| + 48
    ensures DecodePeer(EncodePeer(p) + rest) == Ok((p, |p.host| + 48))
  {
    var data, h := EncodePeer(p) + rest, |p.host|;
    U16Decodes(h);
    U16Decodes(p.port);
    SignedDecodes(p.zone);
    U64Decodes(p.stake);
    assert data[..2] == Be(h, 2);
    assert data[2..2 + h] == p.host;
    assert data[2 + h..4 + h] == Be(p.port, 2);
    assert data[4 + h..36 + h] == p.validatorId;
    assert data[36 + h..40 + h] == SignedBytes(p.zone);
    assert data[40 + h..48 + h] == Be(p.stake, 8);
  }

  /** Peer lists of any length decode to the list that was encoded. */
  lemma {:induction false} PeersRoundTrip(peers: seq<Peer>)
    requires forall p :: p in peers ==> EncodablePeer(p)
    ensures DecodePeers(EncodePeers(peers)) == Ok(peers)
  {
    if peers != [] {
      var rest := EncodePeers(peers[1..]);
      FlatFront(EncodePeer, peers);
      FirstPeerDecodes(peers[0], rest);
      PeersRoundTrip(peers[1..]);
      assert (EncodePeer(peers[0]) + rest)[|peers[0].host| + 48..] == rest;
      assert peers == [peers[0]] + peers[1..];
    }
  }

  /** encode_peer_list: the parts are collected in a list. */
  method WritePeers(peers: seq<Peer>) returns (data: Bytes)
    ensures data == EncodePeers(peers)
  {
    data := [];
    for i := 0 to |peers|
      invariant data == EncodePeers(peers[..i])
    {
      assert peers[..i + 1][..i] == peers[..i];
      var p := peers[i];
      data := data + (Be(|p.host|, 2) + (p.host + (Be(p.port, 2) + (p.validatorId + (SignedBytes(p.zone) + Be(p.stake, 8))))));
    }
    assert peers[..|peers|] == peers;
  }

  /** Entries read before the rest, unless the rest raises. */
  function After(peers: seq<Peer>, rest: Result<seq<Peer>, ShortField>): Result<seq<Peer>, ShortField> {
    if rest.Err? then rest else Ok(peers + rest.value)
  }

  lemma AfterNext(peers: seq<Peer>, data: Bytes, offset: nat)
    requires offset + 2 <= |data| && DecodePeer(data[offset..]).Ok?
    ensures var (p, n) := DecodePeer(data[offset..]).value;
            After(peers, DecodePeers(data[offset..])) == After(peers + [p], DecodePeers(data[offset + n..]))
  {
    var (p, n) := DecodePeer(data[offset..]).value;
    assert data[offset..][n..] == data[offset + n..];
    var rest := DecodePeers(data[offset + n..]);
    assert rest.Ok? ==> peers + ([p] + rest.value) == peers + [p] + rest.value;
  }

  /** decode_peer_list: an offset moves through the data. */
  method ReadPeers(data: Bytes) returns (r: Result<seq<Peer>, ShortField>)
    ensures r == DecodePeers(data)
  {
    var peers: seq<Peer> := [];
    var offset := 0;
    ghost var whole := DecodePeers(data);
    assert data[0..] == data;
    assert whole.Ok? ==> [] + whole.value == whole.value;
    while offset < |data|
      invariant 0 <= offset <= |data|
      invariant whole == After(peers, DecodePeers(data[offset..]))
      decreases |data| - offset
    {
      if offset + 2 > |data| {
        break;
      }
      var entry := DecodePeer(data[offset..]);
      if entry.Err? {
        return Err(entry.error);
      }
      AfterNext(peers, data, offset);
      peers := peers + [entry.value.0];
      offset := offset + entry.value.1;
    }
    assert peers + [] == peers;
    return Ok(peers);
  }

  // ------------------------------------------------------------------- handshake

  datatype SelfInfo = SelfInfo(validatorId: Bytes, zone: int, stake: nat, listenPort: nat)

  function EncodeSelfInfo(i: SelfInfo): Bytes {
    i.validatorId + (SignedBytes(i.zone) + (Be(i.stake, 8) + Be(i.listenPort, 2)))
  }

  /** Bytes after the 46 of the record are ignored. */
  function DecodeSelfInfo(data: Bytes): (r: Result<SelfInfo, ShortField>)
    ensures r.Err? <==> |data| < 46
  {
    if |data| < 46 then Err(ShortField)
    else Ok(SelfInfo(data[..32], FromSigned(data[32..36]), FromBe(data[36..44]), FromBe(data[44..46])))
  }

  lemma SelfInfoRoundTrip(i: SelfInfo, rest: Bytes)
    requires |i.validatorId| == 32 && InI32(i.zone) && i.stake < U64 && i.listenPort < U16
    ensures DecodeSelfInfo(EncodeSelfInfo(i) + rest) == Ok(i)
  {
    var data := EncodeSelfInfo(i) + rest;
    SignedDecodes(i.zone);
    U64Decodes(i.stake);
    U16Decodes(i.listenPort);
    assert data[..32] == i.validatorId;
    assert data[32..36] == SignedBytes(i.zone);
    assert data[36..44] == Be(i.stake, 8);
    assert data[44..46] == Be(i.listenPort, 2);
  }

  // ----------------------------------------------------------------- commitments

  datatype Commitment = Commitment(validatorId: Bytes, epoch: nat, targets: seq<Bytes>, hash: Bytes, timestamp: nat)

  function TargetsBytes(targets: seq<Bytes>): Bytes {
    if targets == [] then [] else TargetsBytes(targets[..|targets| - 1]) + targets[|targets| - 1]
  }

  function EncodeCommitment(c: Commitment): Bytes {
    c.validatorId + (Be(c.epoch, 8) + (Be(|c.targets|, 4) + (TargetsBytes(c.targets) + (c.hash + Be(c.timestamp, 8)))))
  }

  /** n slices of 32 bytes from an offset on, clamped at the end of the data. */
  function ReadTargets(data: Bytes, offset: nat, n: nat): (r: seq<Bytes>)
    ensures |r| == n
    decreases n, offset
  {
    if n == 0 then [] else ReadTargets(data, offset, n - 1) + [Slice(data, offset + 32 * (n - 1), offset + 32 * n)]
  }

  /** None stands for the exception of a short field, which the code turns into None. */
  function DecodeCommitment(data: Bytes): Option<Commitment> {
    if |data| < 44 then None
    else
      var n := FromBe(data[40..44]);
      var off := 44 + 32 * n;
      if |data| < off + 40 then None
      else Some(Commitment(data[..32], FromBe(data[32..40]), ReadTargets(data, 44, n), data[off..off + 32], FromBe(data[off + 32..off + 40])))
  }

  predicate EncodableCommitment(c: Commitment) {
    && |c.validatorId| == 32 && c.epoch < U64 && |c.targets| < U32 && |c.hash| == 32 && c.timestamp < U64
    && forall i :: 0 <= i < |c.targets| ==> |c.targets[i]| == 32
  }

  lemma {:induction false} TargetsRead(pre: Bytes, targets: seq<Bytes>, post: Bytes, n: nat)
    requires n <= |targets| && forall i :: 0 <= i < |targets| ==> |targets[i]| == 32
    ensures |TargetsBytes(targets[..n])| == 32 * n
    ensures TargetsBytes(targets[..n]) <= TargetsBytes(targets)
    ensures ReadTargets(pre + TargetsBytes(targets) + post, |pre|, n) == targets[..n]
    decreases n
  {
    TargetsGrow(targets, n);
    if n > 0 {
      TargetsRead(pre, targets, post, n - 1);
      TargetsGrow(targets, n - 1);
      TargetsSnoc(targets, n);
      PieceAt(pre, TargetsBytes(targets[..n - 1]), targets[n - 1], TargetsBytes(targets), post);
    }
  }

  lemma TargetsSnoc(targets: seq<Bytes>, n: nat)
    requires 0 < n <= |targets|
    ensures TargetsBytes(targets[..n]) == TargetsBytes(targets[..n - 1]) + targets[n - 1]
    ensures targets[..n] == targets[..n - 1] + [targets[n - 1]]
  {
    assert targets[..n][..n - 1] == targets[..n - 1];
  }

  lemma PieceAt(pre: Bytes, front: Bytes, piece: Bytes, all: Bytes, post: Bytes)
    requires front + piece <= all
    ensures var data, at := pre + all + post, |pre| + |front|;
            at + |piece| <= |data| && data[at..at + |piece|] == piece
  {
    var rest := all[|front| + |piece|..];
    assert all == front + piece + rest;
    assert pre + all + post == (pre + front) + (piece + (rest + post));
    Middle(pre + front, piece, rest + post);
  }

  lemma {:induction false} TargetsGrow(targets: seq<Bytes>, n: nat)
    requires n <= |targets| && forall i :: 0 <= i < |targets| ==> |targets[i]| == 32
    ensures |TargetsBytes(targets[..n])| == 32 * n && TargetsBytes(targets[..n]) <= TargetsBytes(targets)
    decreases |targets|
  {
    var m := |targets| - 1;
    if n == |targets| {
      assert targets[..n] == targets;
      if n > 0 {
        TargetsGrow(targets[..m], m);
        assert targets[..m][..m] == targets[..m];
      }
    } else {
      TargetsGrow(targets[..m], n);
      assert targets[..m][..n] == targets[..n];
      PrefixStays(TargetsBytes(targets[..n]), TargetsBytes(targets[..m]), targets[m]);
    }
  }

  lemma PrefixStays(a: Bytes, b: Bytes, c: Bytes)
    requires a <= b
    ensures a <= b + c
  {
  }

  /** Commitments to any number of targets decode to what was encoded. */
  lemma CommitmentRoundTrip(c: Commitment)
    requires EncodableCommitment(c)
    ensures DecodeCommitment(EncodeCommitment(c)) == Some(c)
  {
    var n := |c.targets|;
    var pre, post := c.validatorId + Be(c.epoch, 8) + Be(n, 4), c.hash + Be(c.timestamp, 8);
    assert c.targets[..n] == c.targets;
    TargetsRead(pre, c.targets, post, n);
    CommitmentSlices(c);
    Regroup(c.validatorId, Be(c.epoch, 8), Be(n, 4), TargetsBytes(c.targets), post);
    DecodesFields(EncodeCommitment(c), c);
  }

  lemma DecodesFields(data: Bytes, c: Commitment)
    requires EncodableCommitment(c) && StandsIn(data, c) && ReadTargets(data, 44, |c.targets|) == c.targets
    ensures DecodeCommitment(data) == Some(c)
  {
    U64Decodes(c.epoch);
    U32Decodes(|c.targets|);
    U64Decodes(c.timestamp);
  }

  lemma Regroup(a: Bytes, b: Bytes, c: Bytes, d: Bytes, e: Bytes)
    ensures a + (b + (c + (d + e))) == a + b + c + d + e
  {
  }

  /** Where the fields of an encoded commitment stand, but for the targets. */
  predicate StandsIn(data: Bytes, c: Commitment) {
    var off := 44 + 32 * |c.targets|;
    && |data| == off + 40
    && data[..32] == c.validatorId && data[32..40] == Be(c.epoch, 8) && data[40..44] == Be(|c.targets|, 4)
    && data[off..off + 32] == c.hash && data[off + 32..off + 40] == Be(c.timestamp, 8)
  }

  lemma CommitmentSlices(c: Commitment)
    requires EncodableCommitment(c)
    ensures StandsIn(EncodeCommitment(c), c)
  {
    var n := |c.targets|;
    assert c.targets[..n] == c.targets;
    TargetsGrow(c.targets, n);
    FieldSlices(c.validatorId, Be(c.epoch, 8), Be(n, 4), TargetsBytes(c.targets), c.hash, Be(c.timestamp, 8));
  }

  lemma FieldSlices(a: Bytes, b: Bytes, c: Bytes, d: Bytes, e: Bytes, f: Bytes)
    requires |a| == 32 && |b| == 8 && |c| == 4 && |e| == 32 && |f| == 8
    ensures var data, off := a + (b + (c + (d + (e + f)))), 44 + |d|;
            && |data| == off + 40 && data[..32] == a && data[32..40] == b && data[40..44] == c
            && data[off..off + 32] == e && data[off + 32..off + 40] == f
  {
  }

  // ---------------------------------------------------------- proposals and votes

  /** An empty root goes out as 32 zero bytes. */
  function RootOrZeros(root: Bytes): Bytes {
    if root == [] then ZERO_DIGEST else root
  }

  function EncodeProposal(p: Proposal): Bytes {
    p.proposer + (Be(p.epoch, 8) + (Be(p.round, 4) + (p.measurementRoot
      + (RootOrZeros(p.transactionRoot) + (RootOrZeros(p.stateRoot) + Be(p.timestamp, 8))))))
  }

  function DecodeProposal(data: Bytes): (r: Option<Proposal>)
    ensures r.None? <==> |data| < 148
  {
    if |data| < 148 then None
    else
      Some(Proposal(data[..32], FromBe(data[32..40]), FromBe(data[40..44]), data[44..76], data[76..108], data[108..140],
                        FromBe(data[140..148])))
  }

  predicate IsRoot(root: Bytes) {
    |root| == 0 || |root| == 32
  }

  predicate EncodableProposal(p: Proposal) {
    && |p.proposer| == 32 && p.epoch < U64 && p.round < U32 && |p.measurementRoot| == 32
    && IsRoot(p.transactionRoot) && IsRoot(p.stateRoot) && p.timestamp < U64
  }

  lemma ProposalDecodes(p: Proposal)
    requires EncodableProposal(p)
    ensures DecodeProposal(EncodeProposal(p))
            == Some(p.(transactionRoot := RootOrZeros(p.transactionRoot), stateRoot := RootOrZeros(p.stateRoot)))
  {
    var data := EncodeProposal(p);
    U64Decodes(p.epoch);
    U32Decodes(p.round);
    U64Decodes(p.timestamp);
    assert data[..32] == p.proposer;
    assert data[32..40] == Be(p.epoch, 8);
    assert data[40..44] == Be(p.round, 4);
    assert data[44..76] == p.measurementRoot;
    assert data[76..108] == RootOrZeros(p.transactionRoot);
    assert data[108..140] == RootOrZeros(p.stateRoot);
    assert data[140..148] == Be(p.timestamp, 8);
  }

  /** A proposal survives the wire exactly when both optional roots are present. */
  lemma ProposalRoundTripIff(p: Proposal)
    requires EncodableProposal(p)
    ensures DecodeProposal(EncodeProposal(p)) == Some(p) <==> p.transactionRoot != [] && p.stateRoot != []
  {
    ProposalDecodes(p);
  }

  /** A proposal with an empty root hashes a different string at the receiver: votes of the two sides cannot meet. */
  lemma EmptyRootChangesHash(p: Proposal)
    requires EncodableProposal(p)
    ensures ProposalPreimage(DecodeProposal(EncodeProposal(p)).value) == ProposalPreimage(p)
            <==> p.transactionRoot != [] && p.stateRoot != []
  {
    ProposalDecodes(p);
    var q := DecodeProposal(EncodeProposal(p)).value;
    assert |ProposalPreimage(q)| == 144 && |ProposalPreimage(p)| == 80 + |p.transactionRoot| + |p.stateRoot|;
  }

  /** Whatever comes off the wire has full-width fields and both roots, so its hash commits to all of them. */
  lemma DecodedHashCommits(sha3: Sha256, data: Bytes, other: Bytes)
    requires DecodeProposal(data).Some? && DecodeProposal(other).Some?
    ensures var p, q := DecodeProposal(data).value, DecodeProposal(other).value;
            && FixedWidth(p) && HasBothRoots(p)
            && (ProposalHash(sha3, p) == ProposalHash(sha3, q)
                <==> SameContent(p, q) || Collides(sha3, ProposalPreimage(p), ProposalPreimage(q)))
  {
    DecodedFits(data);
    DecodedFits(other);
    HashCommits(sha3, DecodeProposal(data).value, DecodeProposal(other).value);
  }

  lemma DecodedFits(data: Bytes)
    requires DecodeProposal(data).Some?
    ensures var p := DecodeProposal(data).value; FixedWidth(p) && HasBothRoots(p)
  {
    Pow256Values();
    FromBeFits(data[32..40]);
    FromBeFits(data[40..44]);
  }

  datatype WireVote = WireVote(voterId: Bytes, epoch: nat, round: nat, proposalHash: Bytes, stake: nat, timestamp: nat)

  function EncodeVote(v: WireVote): Bytes {
    v.voterId + (Be(v.epoch, 8) + (Be(v.round, 4) + (v.proposalHash + (Be(v.stake, 8) + Be(v.timestamp, 8)))))
  }

  function DecodeVote(data: Bytes): (r: Option<WireVote>)
    ensures r.None? <==> |data| < 92
  {
    if |data| < 92 then None
    else
      Some(WireVote(data[..32], FromBe(data[32..40]), FromBe(data[40..44]), data[44..76], FromBe(data[76..84]), FromBe(data[84..92])))
  }

  lemma VoteRoundTrip(v: WireVote)
    requires |v.voterId| == 32 && v.epoch < U64 && v.round < U32 && |v.proposalHash| == 32 && v.stake < U64 && v.timestamp < U64
    ensures DecodeVote(EncodeVote(v)) == Some(v)
  {
    var data := EncodeVote(v);
    U64Decodes(v.epoch);
    U32Decodes(v.round);
    U64Decodes(v.stake);
    U64Decodes(v.timestamp);
    assert data[..32] == v.voterId;
    assert data[32..40] == Be(v.epoch, 8);
    assert data[40..44] == Be(v.round, 4);
    assert data[44..76] == v.proposalHash;
    assert data[76..84] == Be(v.stake, 8);
    assert data[84..92] == Be(v.timestamp, 8);
  }

  /** What decodes re-encodes to the bytes it was read from. */
  lemma DecodedVoteReencodes(data: Bytes)
    requires |data| == 92
    ensures EncodeVote(DecodeVote(data).value) == data
  {
    BeInvertsFromBe(data[32..40]);
    BeInvertsFromBe(data[40..44]);
    BeInvertsFromBe(data[76..84]);
    BeInvertsFromBe(data[84..92]);
    assert data == data[..32] + (data[32..40] + (data[40..44] + (data[44..76] + (data[76..84] + data[84..92]))));
  }
}
