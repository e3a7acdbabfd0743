/** The network driver: one round of voting per epoch among validators that all know each other. */
module Networks {
  import opened Wrappers
  import opened ByteStrings
  import opened Sums
  import opened Order
  import opened Votes
  import opened Proposer
  import opened Consensus

  // ------------------------------------------------------------- single nodes

  /** Node `id` knows the registry. */
  ghost predicate Knows(n: Node, id: Bytes, reg: Registry) {
    n.id == id && n.validators == reg && n.totalStake == TotalStake(reg)
  }

  /** Node `id` is in round 0 of the epoch and has heard nothing. */
  ghost predicate Started(n: Node, id: Bytes, reg: Registry, epoch: nat) {
    && Knows(n, id, reg) && n.epoch == epoch && n.round == 0
    && n.preVotes == map[] && n.preCommits == map[] && n.preVoteChoices == map[] && n.preCommitChoices == map[]
  }

  ghost predicate Has(n: Node, h: Bytes, p: Proposal) {
    h in n.received && n.received[h] == p
  }

  /** All votes a node has counted are for `h`: pre-votes of `pre`, pre-commits of `com`. */
  ghost predicate Counted(n: Node, id: Bytes, reg: Registry, p: Proposal, h: Bytes, pre: set<Bytes>, com: set<Bytes>) {
    && Knows(n, id, reg) && n.epoch == p.epoch && n.round == 0 && Has(n, h, p)
    && Voters(VotesFor(n.preVotes, h)) == pre && Voters(VotesFor(n.preCommits, h)) == com
    && (forall w :: w in n.preVoteChoices ==> n.preVoteChoices[w] == h)
    && (forall w :: w in n.preCommitChoices ==> n.preCommitChoices[w] == h)
  }

  lemma AcceptsProposal(sha3: Sha256, n: Node, id: Bytes, reg: Registry, p: Proposal)
    requires Started(n, id, reg, p.epoch) && p.round == 0 && OwnsEpoch(sha3, p.epoch, reg, p.proposer) && p.proposer in reg
    ensures Started(ReceivedProposal(sha3, n, p), id, reg, p.epoch)
    ensures Has(ReceivedProposal(sha3, n, p), ProposalHash(sha3, p), p)
    ensures ReceivedProposal(sha3, n, p).finalized == n.finalized
  {
    SelectedOwns(sha3, n, id, reg, p.epoch, p.proposer);
  }

  lemma StartIsEmpty(n: Node, id: Bytes, reg: Registry, p: Proposal, h: Bytes)
    requires Started(n, id, reg, p.epoch) && Has(n, h, p)
    ensures Counted(n, id, reg, p, h, {}, {})
  {
  }

  lemma VotersSnoc(votes: seq<Vote>, v: Vote)
    ensures Voters(votes + [v]) == Voters(votes) + {v.voter}
  {
    assert forall u :: u in votes + [v] <==> u in votes || u == v;
  }

  lemma OwnPreVoteCounts(n: Node, id: Bytes, reg: Registry, p: Proposal, h: Bytes, pre: set<Bytes>)
    requires Counted(n, id, reg, p, h, pre, {})
    ensures Counted(CreatedPreVote(n, h), id, reg, p, h, pre + {id}, {})
    ensures OwnVote(n, h, PreVote).voter == id && OwnVote(n, h, PreVote).epoch == p.epoch
  {
    VotersSnoc(VotesFor(n.preVotes, h), OwnVote(n, h, PreVote));
  }

  lemma PreVoteCounts(n: Node, id: Bytes, reg: Registry, p: Proposal, h: Bytes, pre: set<Bytes>, v: Vote)
    requires Counted(n, id, reg, p, h, pre, {}) && IsVote(v, PreVote, p, h) && v.voter in reg
    ensures Counted(ReceivedPreVote(n, v), id, reg, p, h, pre + {v.voter}, {})
  {
    VotersSnoc(VotesFor(n.preVotes, h), v.(stake := reg[v.voter]));
  }

  ghost predicate IsVote(v: Vote, kind: VoteKind, p: Proposal, h: Bytes) {
    v.kind == kind && v.epoch == p.epoch && v.hash == h
  }

  lemma OwnPreCommitCounts(n: Node, id: Bytes, reg: Registry, p: Proposal, h: Bytes, com: set<Bytes>)
    requires Counted(n, id, reg, p, h, reg.Keys, com) && TotalStake(reg) > 0
    ensures PreVoteQuorum(n, h) && Counted(CreatedPreCommit(n, h), id, reg, p, h, reg.Keys, com + {id})
  {
    VotersSnoc(VotesFor(n.preCommits, h), OwnVote(n, h, PreCommit));
  }

  lemma PreCommitCounts(n: Node, id: Bytes, reg: Registry, p: Proposal, h: Bytes, com: set<Bytes>, v: Vote)
    requires Counted(n, id, reg, p, h, reg.Keys, com) && IsVote(v, PreCommit, p, h) && v.voter in reg
    ensures Counted(ReceivedPreCommit(n, v), id, reg, p, h, reg.Keys, com + {v.voter})
  {
    VotersSnoc(VotesFor(n.preCommits, h), v.(stake := reg[v.voter]));
  }

  /** A block that the whole stake supports, for a proposal of the validator selected for the epoch. */
  ghost predicate IsFullBlock(sha3: Sha256, b: Block, epoch: nat, reg: Registry) {
    && b.epoch == b.proposal.epoch == epoch && b.round == b.proposal.round == 0
    && b.totalStake == b.supportingStake == TotalStake(reg) > 0
    && Voters(b.votes) == reg.Keys
    && IsSelected(sha3, epoch, reg, b.proposal.proposer)
  }

  /** Every epoch below n ended in such a block. */
  ghost predicate AllFull(sha3: Sha256, blocks: map<nat, Block>, n: nat, reg: Registry) {
    forall e: nat :: e < n ==> e in blocks && IsFullBlock(sha3, blocks[e], e, reg)
  }

  lemma FullNext(sha3: Sha256, blocks: map<nat, Block>, n: nat, b: Block, reg: Registry)
    requires AllFull(sha3, blocks, n, reg) && IsFullBlock(sha3, b, n, reg)
    ensures AllFull(sha3, blocks[n := b], n + 1, reg)
  {
  }

  /** The target of round 0 of the epoch falls to v. */
  ghost predicate OwnsEpoch(sha3: Sha256, epoch: nat, reg: Registry, v: Bytes) {
    TotalStake(reg) > 0 && Owns(reg, v, SelectionValue(sha3, epoch, 0) % TotalStake(reg))
  }

  /** The one validator selected for round 0 of an epoch. */
  ghost predicate IsSelected(sha3: Sha256, epoch: nat, reg: Registry, v: Bytes) {
    TotalStake(reg) > 0 && forall u :: Owns(reg, u, SelectionValue(sha3, epoch, 0) % TotalStake(reg)) <==> u == v
  }

  lemma SomeoneIsSelected(sha3: Sha256, epoch: nat, reg: Registry) returns (v: Bytes)
    requires TotalStake(reg) > 0
    ensures v in reg && IsSelected(sha3, epoch, reg, v)
    ensures forall u :: IsSelected(sha3, epoch, reg, u) ==> u == v
  {
    var target := SelectionValue(sha3, epoch, 0) % TotalStake(reg);
    v := ExactlyOneProposer(reg, target);
    assert Owns(reg, v, target);
    assert IsSelected(sha3, epoch, reg, v);
    forall u | IsSelected(sha3, epoch, reg, u) ensures u == v {
      assert Owns(reg, v, target) <==> v == u;
    }
  }

  lemma SelectedOwns(sha3: Sha256, n: Node, id: Bytes, reg: Registry, epoch: nat, v: Bytes)
    requires Started(n, id, reg, epoch) && TotalStake(reg) > 0
    ensures Owns(reg, v, Target(sha3, n)) <==> IsSelected(sha3, epoch, reg, v)
  {
    var u := SomeoneIsSelected(sha3, epoch, reg);
  }

  lemma AllFinalize(sha3: Sha256, n: Node, id: Bytes, reg: Registry, p: Proposal, h: Bytes)
    requires Counted(n, id, reg, p, h, reg.Keys, reg.Keys) && TotalStake(reg) > 0 && p.round == 0
    requires IsSelected(sha3, p.epoch, reg, p.proposer)
    ensures Finalizes(n, h) && IsFullBlock(sha3, FinalBlock(n, h), p.epoch, reg)
  {
    var pre, com := VotesFor(n.preVotes, h), VotesFor(n.preCommits, h);
    forall w ensures w in Voters(pre + com) <==> w in reg.Keys {
      assert Voters(pre + com) == Voters(pre) + Voters(com);
    }
  }

  // -------------------------------------------------------- stages of an epoch

  /**
   * What node i has been through. When polling it has counted its own vote and those of the first `heard` ids;
   * all pre-votes are counted before the first pre-commit.
   */
  datatype Stage =
    | Joined(reg: Registry)
    | Waiting(reg: Registry, epoch: nat)
    | Offered(reg: Registry, p: Proposal, h: Bytes)
    | Informed(reg: Registry, p: Proposal, h: Bytes)
    | PreVotes(reg: Registry, p: Proposal, h: Bytes, heard: int)
    | Decided(reg: Registry, p: Proposal, h: Bytes)
    | PreCommits(reg: Registry, p: Proposal, h: Bytes, heard: int)

  ghost predicate At(n: Node, ids: seq<Bytes>, i: nat, st: Stage)
    requires i < |ids|
  {
    match st
    case Joined(reg) => Knows(n, ids[i], reg)
    case Waiting(reg, epoch) => Started(n, ids[i], reg, epoch)
    case Offered(reg, p, h) => Started(n, ids[i], reg, p.epoch) && (ids[i] == p.proposer ==> Has(n, h, p))
    case Informed(reg, p, h) => Started(n, ids[i], reg, p.epoch) && Has(n, h, p)
    case PreVotes(reg, p, h, heard) => Counted(n, ids[i], reg, p, h, Heard(ids, heard, i), {})
    case Decided(reg, p, h) => Counted(n, ids[i], reg, p, h, reg.Keys, {})
    case PreCommits(reg, p, h, heard) => Counted(n, ids[i], reg, p, h, reg.Keys, Heard(ids, heard, i))
  }

  type Finals = map<nat, Block>

  ghost predicate AtIndex(vs: seq<Node>, ids: seq<Bytes>, fins: seq<Finals>, before: Stage, after: Stage, k: nat, i: int) {
    && 0 <= i < |vs| && i < |ids| && i < |fins|
    && At(vs[i], ids, i, if i < k then after else before) && vs[i].finalized == fins[i]
  }

  /** The first k nodes have moved on to the next stage; none has finalized anything new. */
  ghost predicate AllAt(vs: seq<Node>, ids: seq<Bytes>, fins: seq<Finals>, before: Stage, after: Stage, k: nat) {
    |vs| == |ids| == |fins| && forall i :: 0 <= i < |ids| ==> AtIndex(vs, ids, fins, before, after, k, i)
  }

  lemma Here(vs: seq<Node>, ids: seq<Bytes>, fins: seq<Finals>, before: Stage, after: Stage, i: nat)
    requires i < |ids| && AllAt(vs, ids, fins, before, after, i)
    ensures i < |vs| == |fins| && At(vs[i], ids, i, before) && vs[i].finalized == fins[i]
  {
    assert AtIndex(vs, ids, fins, before, after, i, i);
  }

  /** Only node i has moved, to stage st, and it has finalized nothing. */
  ghost predicate Moves(vs: seq<Node>, ws: seq<Node>, ids: seq<Bytes>, i: nat, st: Stage) {
    && |vs| == |ws| == |ids| && i < |ids| && ws == vs[i := ws[i]]
    && At(ws[i], ids, i, st) && ws[i].finalized == vs[i].finalized
  }

  lemma Advance(vs: seq<Node>, ws: seq<Node>, ids: seq<Bytes>, fins: seq<Finals>, before: Stage, after: Stage, i: nat)
    requires AllAt(vs, ids, fins, before, after, i) && Moves(vs, ws, ids, i, after)
    ensures AllAt(ws, ids, fins, before, after, i + 1)
  {
    var k := i + 1;
    forall j | 0 <= j < |ids| ensures AtIndex(ws, ids, fins, before, after, k, j) {
      assert AtIndex(vs, ids, fins, before, after, i, j);
    }
  }

  /** When all have moved on, the next loop begins. */
  lemma Turn(vs: seq<Node>, ids: seq<Bytes>, fins: seq<Finals>, before: Stage, now: Stage, next: Stage)
    requires AllAt(vs, ids, fins, before, now, |ids|)
    ensures AllAt(vs, ids, fins, now, next, 0)
  {
    forall j | 0 <= j < |ids| ensures AtIndex(vs, ids, fins, now, next, 0, j) {
      assert AtIndex(vs, ids, fins, before, now, |ids|, j);
    }
  }

  lemma Begin(vs: seq<Node>, ids: seq<Bytes>, fins: seq<Finals>, now: Stage, other: Stage, next: Stage)
    requires AllAt(vs, ids, fins, now, other, 0)
    ensures AllAt(vs, ids, fins, now, next, 0)
  {
    forall j | 0 <= j < |ids| ensures AtIndex(vs, ids, fins, now, next, 0, j) {
      assert AtIndex(vs, ids, fins, now, other, 0, j);
    }
  }

  lemma StillJoined(vs: seq<Node>, ids: seq<Bytes>, fins: seq<Finals>, reg: Registry, epoch: nat)
    requires AllAt(vs, ids, fins, Joined(reg), Waiting(reg, epoch), |ids|)
    ensures AllAt(vs, ids, fins, Joined(reg), Joined(reg), 0)
  {
    forall j | 0 <= j < |ids| ensures AtIndex(vs, ids, fins, Joined(reg), Joined(reg), 0, j) {
      assert AtIndex(vs, ids, fins, Joined(reg), Waiting(reg, epoch), |ids|, j);
    }
  }

  /** With all pre-votes counted everywhere, the decision to pre-commit is due. */
  lemma PreVotesAreIn(vs: seq<Node>, ids: seq<Bytes>, fins: seq<Finals>, reg: Registry, p: Proposal, h: Bytes, other: Stage, next: Stage)
    requires AllAt(vs, ids, fins, PreVotes(reg, p, h, |ids|), other, 0) && Ids(ids) == reg.Keys
    ensures AllAt(vs, ids, fins, Decided(reg, p, h), next, 0)
  {
    forall j | 0 <= j < |ids| ensures AtIndex(vs, ids, fins, Decided(reg, p, h), next, 0, j) {
      HeardEnds(ids, j);
      assert AtIndex(vs, ids, fins, PreVotes(reg, p, h, |ids|), other, 0, j);
    }
  }

  lemma NowOffered(vs: seq<Node>, ws: seq<Node>, ids: seq<Bytes>, fins: seq<Finals>, reg: Registry, p: Proposal, h: Bytes, k: nat)
    requires AllAt(vs, ids, fins, Joined(reg), Waiting(reg, p.epoch), |ids|) && NoRepeats(ids) && k < |ids| && p.proposer == ids[k]
    requires Moves(vs, ws, ids, k, Informed(reg, p, h))
    ensures AllAt(ws, ids, fins, Offered(reg, p, h), Informed(reg, p, h), 0)
  {
    forall j | 0 <= j < |ids| ensures AtIndex(ws, ids, fins, Offered(reg, p, h), Informed(reg, p, h), 0, j) {
      Different(ids, k);
      assert AtIndex(vs, ids, fins, Joined(reg), Waiting(reg, p.epoch), |ids|, j);
    }
  }

  /** Only the first node records the block. */
  ghost function Recorded(fins: seq<Finals>, epoch: nat, b: Block): seq<Finals>
    requires fins != []
  {
    var f: Finals := fins[0][epoch := b];
    fins[0 := f]
  }

  /** Node 0 has finalized; apart from that everyone only knows the registry still. */
  lemma Finished(vs: seq<Node>, ws: seq<Node>, ids: seq<Bytes>, fins: seq<Finals>, reg: Registry, p: Proposal, h: Bytes, b: Block)
    requires ids != [] && AllAt(vs, ids, fins, PreCommits(reg, p, h, |ids|), PreCommits(reg, p, h, |ids| + 1), 0)
    requires Finalizes(vs[0], h) && b == FinalBlock(vs[0], h) && ws == vs[0 := TriedFinalize(vs[0], h)]
    ensures AllAt(ws, ids, Recorded(fins, p.epoch, b), Joined(reg), Joined(reg), 0)
  {
    var gins := Recorded(fins, p.epoch, b);
    forall j | 0 <= j < |ids| ensures AtIndex(ws, ids, gins, Joined(reg), Joined(reg), 0, j) {
      assert AtIndex(vs, ids, fins, PreCommits(reg, p, h, |ids|), PreCommits(reg, p, h, |ids| + 1), 0, j);
    }
  }

  ghost function Heard(ids: seq<Bytes>, a: int, i: nat): set<Bytes>
    requires i < |ids|
  {
    Ids(if 0 <= a <= |ids| then ids[..a] else ids) + {ids[i]}
  }

  lemma HeardNext(ids: seq<Bytes>, a: nat, i: nat)
    requires a < |ids| && i < |ids|
    ensures Heard(ids, a + 1, i) == Heard(ids, a, i) + {ids[a]}
    ensures ids[i] in Heard(ids, a, i)
  {
    IdsSnoc(ids, a);
  }

  lemma HeardEnds(ids: seq<Bytes>, i: nat)
    requires i < |ids|
    ensures Heard(ids, |ids|, i) == Ids(ids) && Heard(ids, 0, i) == {ids[i]}
  {
    assert ids[..|ids|] == ids && ids[i] in ids;
  }

  ghost predicate AreVotes(votes: seq<Vote>, ids: seq<Bytes>, kind: VoteKind, p: Proposal, h: Bytes) {
    |votes| == |ids| && forall i :: 0 <= i < |votes| ==> IsVote(votes[i], kind, p, h) && votes[i].voter == ids[i]
  }

  lemma VotesNext(votes: seq<Vote>, ids: seq<Bytes>, i: nat, v: Vote, kind: VoteKind, p: Proposal, h: Bytes)
    requires i < |ids| && AreVotes(votes, ids[..i], kind, p, h) && IsVote(v, kind, p, h) && v.voter == ids[i]
    ensures AreVotes(votes + [v], ids[..i + 1], kind, p, h)
  {
  }

  /** The vote that every node counts next. */
  ghost predicate IsDue(v: Vote, ids: seq<Bytes>, c: Stage) {
    && (c.PreVotes? || c.PreCommits?) && 0 <= c.heard < |ids| && v.voter == ids[c.heard] && v.voter in c.reg
    && IsVote(v, if c.PreVotes? then PreVote else PreCommit, c.p, c.h)
  }

  ghost function OneMore(c: Stage): Stage {
    match c
    case PreVotes(reg, p, h, heard) => PreVotes(reg, p, h, heard + 1)
    case PreCommits(reg, p, h, heard) => PreCommits(reg, p, h, heard + 1)
    case _ => c
  }

  lemma VoteIsDue(votes: seq<Vote>, ids: seq<Bytes>, kind: VoteKind, a: nat, c: Stage)
    requires (c.PreVotes? && kind.PreVote?) || (c.PreCommits? && kind.PreCommit?)
    requires AreVotes(votes, ids, kind, c.p, c.h) && a < |ids| && c.heard == a && Ids(ids) == c.reg.Keys
    ensures IsDue(votes[a], ids, c)
  {
    assert ids[a] in Ids(ids) && IsVote(votes[a], kind, c.p, c.h);
  }

  // -------------------------------------------------------------- the network

  /** What the measurements of the epoch amount to in a proposal. */
  datatype Roots = Roots(measurements: Bytes, transactions: Bytes, state: Bytes, timestamp: nat)

  datatype EpochError = NoValidators | NoStake

  ghost predicate Differ<T>(s: seq<T>, i: int, j: int) {
    0 <= i < j < |s| && s[i] != s[j]
  }

  ghost predicate NoRepeats<T>(s: seq<T>) {
    forall i, j :: 0 <= i < j < |s| ==> Differ(s, i, j)
  }

  lemma Different<T>(s: seq<T>, i: nat)
    requires NoRepeats(s) && i < |s|
    ensures forall j :: 0 <= j < |s| && j != i ==> s[j] != s[i]
  {
    forall j | 0 <= j < |s| && j != i ensures s[j] != s[i] {
      assert if i < j then Differ(s, i, j) else Differ(s, j, i);
    }
  }

  /** A prefix of a list without repeats has none, and its last element is new to it. */
  lemma FrontHasNoRepeats<T>(s: seq<T>)
    requires NoRepeats(s) && s != []
    ensures NoRepeats(s[..|s| - 1])
  {
    var t := s[..|s| - 1];
    forall i, j | 0 <= i < j < |t| ensures Differ(t, i, j) {
      assert Differ(s, i, j);
    }
  }

  lemma SnocHasNoRepeats<T>(s: seq<T>, x: T)
    requires NoRepeats(s) && x !in s
    ensures NoRepeats(s + [x])
  {
    var t := s + [x];
    forall i, j | 0 <= i < j < |t| ensures Differ(t, i, j) {
      assert j < |s| ==> Differ(s, i, j);
    }
  }

  lemma RegistryHas(ids: seq<Bytes>, reg: Registry, i: nat)
    requires Ids(ids) == reg.Keys && i < |ids|
    ensures ids[i] in reg
  {
    assert ids[i] in Ids(ids);
  }

  class SimNetwork {
    const sha3: Sha256
    const ids: seq<Bytes>
    const nodes: seq<BFTConsensus>
    var finalizedBlocks: map<nat, Block>

    /** The dictionary of validators: one consensus object for each id. */
    ghost predicate Valid() {
      && |nodes| == |ids| && NoRepeats(ids) && NoRepeats(nodes)
      && forall i :: 0 <= i < |nodes| ==> HasHash(i)
    }

    ghost predicate HasHash(i: int) {
      0 <= i < |nodes| && nodes[i].sha3 == sha3
    }

    ghost function Views(): (vs: seq<Node>)
      reads nodes
      ensures |vs| == |nodes| && forall i :: 0 <= i < |nodes| ==> vs[i] == nodes[i].View()
    {
      seq(|nodes|, i requires 0 <= i < |nodes| reads nodes => nodes[i].View())
    }

    /** The first k nodes are at stage `after`, the others at stage `before`. */
    ghost predicate Stand(fins: seq<Finals>, before: Stage, after: Stage, k: nat)
      reads nodes
    {
      AllAt(Views(), ids, fins, before, after, k)
    }

    twostate lemma OneMoved(i: nat)
      requires Valid() && i < |nodes| && forall j :: 0 <= j < |nodes| && j != i ==> nodes[j].View() == old(nodes[j].View())
      ensures Views() == old(Views())[i := nodes[i].View()]
    {
    }

    lemma StandsAt(i: nat, fins: seq<Finals>, before: Stage, after: Stage)
      requires i < |ids| && Stand(fins, before, after, i)
      ensures i < |nodes| && |fins| == |nodes| && At(Views()[i], ids, i, before) && Views()[i].finalized == fins[i]
    {
      Here(Views(), ids, fins, before, after, i);
    }

    method StartOne(i: nat, epoch: nat, ghost reg: Registry)
      requires Valid() && i < |ids| && At(Views()[i], ids, i, Joined(reg))
      modifies nodes[i]
      ensures Moves(old(Views()), Views(), ids, i, Waiting(reg, epoch))
    {
      Different(nodes, i);
      nodes[i].StartRound(epoch, 0);
      OneMoved(i);
    }

    method StartAll(epoch: nat, ghost reg: Registry, ghost fins: seq<Finals>)
      requires Valid() && Stand(fins, Joined(reg), Waiting(reg, epoch), 0)
      modifies nodes
      ensures Stand(fins, Joined(reg), Waiting(reg, epoch), |ids|)
    {
      for i := 0 to |nodes|
        invariant Stand(fins, Joined(reg), Waiting(reg, epoch), i)
      {
        StandsAt(i, fins, Joined(reg), Waiting(reg, epoch));
        ghost var vs := Views();
        StartOne(i, epoch, reg);
        Advance(vs, Views(), ids, fins, Joined(reg), Waiting(reg, epoch), i);
      }
    }

    /** The first validator that finds itself selected; with stake in the network there always is one. */
    method FindProposer(ghost epoch: nat, ghost reg: Registry, ghost fins: seq<Finals>) returns (r: Result<nat, EpochError>)
      requires Valid() && Stand(fins, Joined(reg), Waiting(reg, epoch), |ids|) && Ids(ids) == reg.Keys
      ensures r == Err(NoValidators) <==> ids == []
      ensures r == Err(NoStake) <==> ids != [] && TotalStake(reg) == 0
      ensures r.Ok? ==> r.value < |ids| && IsSelected(sha3, epoch, reg, ids[r.value])
    {
      for i := 0 to |nodes|
        invariant i > 0 ==> TotalStake(reg) > 0
        invariant forall j :: 0 <= j < i ==> !IsSelected(sha3, epoch, reg, ids[j])
      {
        RegistryHas(ids, reg, i);
        assert AtIndex(Views(), ids, fins, Joined(reg), Waiting(reg, epoch), |ids|, i);
        var mine := AskSelected(i, epoch, reg);
        if mine.Err? {
          return Err(NoStake);
        }
        if mine.value {
          return Ok(i);
        }
      }
      if |nodes| == 0 {
        return Err(NoValidators);
      }
      var v := SomeoneIsSelected(sha3, epoch, reg);
      assert false;
    }

    method AskSelected(i: nat, ghost epoch: nat, ghost reg: Registry) returns (r: Result<bool, EpochError>)
      requires Valid() && i < |ids| && ids[i] in reg && At(Views()[i], ids, i, Waiting(reg, epoch))
      ensures r.Err? <==> TotalStake(reg) == 0
      ensures r.Ok? ==> (r.value <==> IsSelected(sha3, epoch, reg, ids[i]))
    {
      assert HasHash(i);
      var mine := nodes[i].AmIProposer();
      if mine.Err? {
        return Err(NoStake);
      }
      SelectedOwns(sha3, nodes[i].View(), ids[i], reg, epoch, ids[i]);
      return Ok(mine.value);
    }

    /** The proposer keeps its proposal. */
    method Propose(k: nat, roots: Roots, ghost epoch: nat, ghost reg: Registry, ghost fins: seq<Finals>) returns (p: Proposal)
      requires Valid() && k < |ids| && Stand(fins, Joined(reg), Waiting(reg, epoch), |ids|)
      modifies nodes[k]
      ensures p.proposer == ids[k] && p.epoch == epoch && p.round == 0
      ensures var h := ProposalHash(sha3, p); Stand(fins, Offered(reg, p, h), Informed(reg, p, h), 0)
    {
      assert AtIndex(Views(), ids, fins, Joined(reg), Waiting(reg, epoch), |ids|, k);
      ghost var vs := Views();
      Different(nodes, k);
      assert HasHash(k);
      p := nodes[k].CreateProposal(roots.measurements, roots.transactions, roots.state, roots.timestamp);
      OneMoved(k);
      NowOffered(vs, Views(), ids, fins, reg, p, ProposalHash(sha3, p), k);
    }

    method Offer(i: nat, p: Proposal, ghost reg: Registry)
      requires Valid() && i < |ids| && p.round == 0 && p.proposer in reg && OwnsEpoch(sha3, p.epoch, reg, p.proposer)
      requires At(Views()[i], ids, i, Offered(reg, p, ProposalHash(sha3, p)))
      modifies nodes[i]
      ensures Moves(old(Views()), Views(), ids, i, Informed(reg, p, ProposalHash(sha3, p)))
    {
      Different(nodes, i);
      if nodes[i].validatorId != p.proposer {
        assert HasHash(i);
        AcceptsProposal(sha3, nodes[i].View(), ids[i], reg, p);
        var r := nodes[i].ReceiveProposal(p);
      }
      OneMoved(i);
    }

    method OfferNext(i: nat, p: Proposal, ghost h: Bytes, ghost reg: Registry, ghost fins: seq<Finals>)
      requires Valid() && i < |ids| && p.round == 0 && p.proposer in reg && OwnsEpoch(sha3, p.epoch, reg, p.proposer)
      requires h == ProposalHash(sha3, p) && Stand(fins, Offered(reg, p, h), Informed(reg, p, h), i)
      modifies nodes[i]
      ensures Stand(fins, Offered(reg, p, h), Informed(reg, p, h), i + 1)
    {
      ghost var vs := Views();
      StandsAt(i, fins, Offered(reg, p, h), Informed(reg, p, h));
      Offer(i, p, reg);
      Advance(vs, Views(), ids, fins, Offered(reg, p, h), Informed(reg, p, h), i);
    }

    /** Everyone else accepts it. */
    method BroadcastProposal(p: Proposal, ghost h: Bytes, ghost reg: Registry, ghost fins: seq<Finals>)
      requires p.round == 0 && p.proposer in reg && OwnsEpoch(sha3, p.epoch, reg, p.proposer)
      requires Valid() && h == ProposalHash(sha3, p) && Stand(fins, Offered(reg, p, h), Informed(reg, p, h), 0)
      modifies nodes
      ensures Stand(fins, Offered(reg, p, h), Informed(reg, p, h), |ids|)
    {
      ghost var before, after := Offered(reg, p, h), Informed(reg, p, h);
      for i := 0 to |nodes|
        invariant Stand(fins, before, after, i)
      {
        OfferNext(i, p, h, reg, fins);
      }
    }

    method CastPreVote(i: nat, hash: Bytes, ghost reg: Registry, ghost p: Proposal) returns (v: Vote)
      requires Valid() && i < |ids| && At(Views()[i], ids, i, Informed(reg, p, hash))
      modifies nodes[i]
      ensures IsVote(v, PreVote, p, hash) && v.voter == ids[i]
      ensures Moves(old(Views()), Views(), ids, i, PreVotes(reg, p, hash, 0))
    {
      Different(nodes, i);
      HeardEnds(ids, i);
      StartIsEmpty(nodes[i].View(), ids[i], reg, p, hash);
      OwnPreVoteCounts(nodes[i].View(), ids[i], reg, p, hash, {});
      v := nodes[i].CreatePreVote(hash);
      OneMoved(i);
    }

    method PreVoteAll(hash: Bytes, ghost p: Proposal, ghost reg: Registry, ghost fins: seq<Finals>) returns (votes: seq<Vote>)
      requires Valid() && Stand(fins, Informed(reg, p, hash), PreVotes(reg, p, hash, 0), 0)
      modifies nodes
      ensures Stand(fins, Informed(reg, p, hash), PreVotes(reg, p, hash, 0), |ids|) && AreVotes(votes, ids, PreVote, p, hash)
    {
      ghost var before, after := Informed(reg, p, hash), PreVotes(reg, p, hash, 0);
      votes := [];
      for i := 0 to |nodes|
        invariant Stand(fins, before, after, i) && AreVotes(votes, ids[..i], PreVote, p, hash)
      {
        StandsAt(i, fins, before, after);
        ghost var vs := Views();
        var v := CastPreVote(i, hash, reg, p);
        Advance(vs, Views(), ids, fins, before, after, i);
        VotesNext(votes, ids, i, v, PreVote, p, hash);
        votes := votes + [v];
      }
      assert ids[..|ids|] == ids;
    }

    /** One pre-vote for one node, unless it is its own. */
    method DeliverPreVote(i: nat, v: Vote, ghost c: Stage)
      requires Valid() && i < |ids| && c.PreVotes? && IsDue(v, ids, c) && At(Views()[i], ids, i, c)
      modifies nodes[i]
      ensures Moves(old(Views()), Views(), ids, i, OneMore(c))
    {
      Different(nodes, i);
      HeardNext(ids, c.heard, i);
      if nodes[i].validatorId != v.voter {
        PreVoteCounts(nodes[i].View(), ids[i], c.reg, c.p, c.h, Heard(ids, c.heard, i), v);
        var r := nodes[i].ReceivePreVote(v);
      } else {
        assert Heard(ids, c.heard, i) + {v.voter} == Heard(ids, c.heard, i);
      }
      OneMoved(i);
    }

    method DeliverPreVoteNext(i: nat, v: Vote, ghost c: Stage, ghost fins: seq<Finals>)
      requires Valid() && i < |ids| && c.PreVotes? && IsDue(v, ids, c) && Stand(fins, c, OneMore(c), i)
      modifies nodes[i]
      ensures Stand(fins, c, OneMore(c), i + 1)
    {
      ghost var vs := Views();
      StandsAt(i, fins, c, OneMore(c));
      DeliverPreVote(i, v, c);
      Advance(vs, Views(), ids, fins, c, OneMore(c), i);
    }

    /** One pre-vote goes to every node but its voter. */
    method SpreadPreVote(v: Vote, ghost c: Stage, ghost fins: seq<Finals>)
      requires Valid() && c.PreVotes? && IsDue(v, ids, c) && Stand(fins, c, OneMore(c), 0)
      modifies nodes
      ensures Stand(fins, c, OneMore(c), |ids|)
    {
      for i := 0 to |nodes|
        invariant Stand(fins, c, OneMore(c), i)
      {
        DeliverPreVoteNext(i, v, c, fins);
      }
    }

    method DistributePreVotes(votes: seq<Vote>, ghost h: Bytes, ghost p: Proposal, ghost reg: Registry, ghost fins: seq<Finals>)
      requires AreVotes(votes, ids, PreVote, p, h) && Ids(ids) == reg.Keys
      requires Valid() && Stand(fins, PreVotes(reg, p, h, 0), PreVotes(reg, p, h, 1), 0)
      modifies nodes
      ensures Stand(fins, PreVotes(reg, p, h, |ids|), PreVotes(reg, p, h, |ids| + 1), 0)
    {
      ghost var c := PreVotes(reg, p, h, 0);
      for a := 0 to |votes|
        invariant c == PreVotes(reg, p, h, a) && Stand(fins, c, OneMore(c), 0)
      {
        VoteIsDue(votes, ids, PreVote, a, c);
        SpreadPreVote(votes[a], c, fins);
        Turn(Views(), ids, fins, c, OneMore(c), OneMore(OneMore(c)));
        c := OneMore(c);
      }
    }

    /** A node that has seen all pre-votes pre-commits. */
    method CastPreCommit(i: nat, hash: Bytes, ghost p: Proposal, ghost reg: Registry) returns (v: Option<Vote>)
      requires Valid() && i < |ids| && At(Views()[i], ids, i, Decided(reg, p, hash)) && TotalStake(reg) > 0
      modifies nodes[i]
      ensures v.Some? && IsVote(v.value, PreCommit, p, hash) && v.value.voter == ids[i]
      ensures Moves(old(Views()), Views(), ids, i, PreCommits(reg, p, hash, 0))
    {
      Different(nodes, i);
      HeardEnds(ids, i);
      OwnPreCommitCounts(nodes[i].View(), ids[i], reg, p, hash, {});
      v := nodes[i].CreatePreCommit(hash);
      OneMoved(i);
    }

    method CastPreCommitNext(i: nat, hash: Bytes, ghost p: Proposal, ghost reg: Registry, ghost fins: seq<Finals>) returns (v: Option<Vote>)
      requires Valid() && i < |ids| && Stand(fins, Decided(reg, p, hash), PreCommits(reg, p, hash, 0), i) && TotalStake(reg) > 0
      modifies nodes[i]
      ensures v.Some? && IsVote(v.value, PreCommit, p, hash) && v.value.voter == ids[i]
      ensures Stand(fins, Decided(reg, p, hash), PreCommits(reg, p, hash, 0), i + 1)
    {
      ghost var vs := Views();
      StandsAt(i, fins, Decided(reg, p, hash), PreCommits(reg, p, hash, 0));
      v := CastPreCommit(i, hash, p, reg);
      Advance(vs, Views(), ids, fins, Decided(reg, p, hash), PreCommits(reg, p, hash, 0), i);
    }

    method PreCommitAll(hash: Bytes, ghost p: Proposal, ghost reg: Registry, ghost fins: seq<Finals>) returns (votes: seq<Vote>)
      requires Valid() && Stand(fins, Decided(reg, p, hash), PreCommits(reg, p, hash, 0), 0) && TotalStake(reg) > 0
      modifies nodes
      ensures Stand(fins, Decided(reg, p, hash), PreCommits(reg, p, hash, 0), |ids|) && AreVotes(votes, ids, PreCommit, p, hash)
    {
      ghost var before, after := Decided(reg, p, hash), PreCommits(reg, p, hash, 0);
      votes := [];
      for i := 0 to |nodes|
        invariant Stand(fins, before, after, i) && AreVotes(votes, ids[..i], PreCommit, p, hash)
      {
        var v := CastPreCommitNext(i, hash, p, reg, fins);
        if v.Some? {
          VotesNext(votes, ids, i, v.value, PreCommit, p, hash);
          votes := votes + [v.value];
        }
      }
      assert ids[..|ids|] == ids;
    }

    /** One pre-commit for one node, unless it is its own. */
    method DeliverPreCommit(i: nat, v: Vote, ghost c: Stage)
      requires Valid() && i < |ids| && c.PreCommits? && IsDue(v, ids, c) && At(Views()[i], ids, i, c)
      modifies nodes[i]
      ensures Moves(old(Views()), Views(), ids, i, OneMore(c))
    {
      Different(nodes, i);
      HeardNext(ids, c.heard, i);
      if nodes[i].validatorId != v.voter {
        PreCommitCounts(nodes[i].View(), ids[i], c.reg, c.p, c.h, Heard(ids, c.heard, i), v);
        var r := nodes[i].ReceivePreCommit(v);
      } else {
        assert Heard(ids, c.heard, i) + {v.voter} == Heard(ids, c.heard, i);
      }
      OneMoved(i);
    }

    method DeliverPreCommitNext(i: nat, v: Vote, ghost c: Stage, ghost fins: seq<Finals>)
      requires Valid() && i < |ids| && c.PreCommits? && IsDue(v, ids, c) && Stand(fins, c, OneMore(c), i)
      modifies nodes[i]
      ensures Stand(fins, c, OneMore(c), i + 1)
    {
      ghost var vs := Views();
      StandsAt(i, fins, c, OneMore(c));
      DeliverPreCommit(i, v, c);
      Advance(vs, Views(), ids, fins, c, OneMore(c), i);
    }

    /** One pre-commit goes to every node but its voter. */
    method SpreadPreCommit(v: Vote, ghost c: Stage, ghost fins: seq<Finals>)
      requires Valid() && c.PreCommits? && IsDue(v, ids, c) && Stand(fins, c, OneMore(c), 0)
      modifies nodes
      ensures Stand(fins, c, OneMore(c), |ids|)
    {
      for i := 0 to |nodes|
        invariant Stand(fins, c, OneMore(c), i)
      {
        DeliverPreCommitNext(i, v, c, fins);
      }
    }

    method DistributePreCommits(votes: seq<Vote>, ghost h: Bytes, ghost p: Proposal, ghost reg: Registry, ghost fins: seq<Finals>)
      requires AreVotes(votes, ids, PreCommit, p, h) && Ids(ids) == reg.Keys
      requires Valid() && Stand(fins, PreCommits(reg, p, h, 0), PreCommits(reg, p, h, 1), 0)
      modifies nodes
      ensures Stand(fins, PreCommits(reg, p, h, |ids|), PreCommits(reg, p, h, |ids| + 1), 0)
    {
      ghost var c := PreCommits(reg, p, h, 0);
      for a := 0 to |votes|
        invariant c == PreCommits(reg, p, h, a) && Stand(fins, c, OneMore(c), 0)
      {
        VoteIsDue(votes, ids, PreCommit, a, c);
        SpreadPreCommit(votes[a], c, fins);
        Turn(Views(), ids, fins, c, OneMore(c), OneMore(OneMore(c)));
        c := OneMore(c);
      }
    }

    /** The first node that can finalizes; it is the very first, and no other records the block. */
    method FinalizeFirst(hash: Bytes, epoch: nat, ghost p: Proposal, ghost reg: Registry, ghost fins: seq<Finals>)
      returns (b: Option<Block>)
      requires Valid() && ids != [] && Ids(ids) == reg.Keys && TotalStake(reg) > 0
      requires Stand(fins, PreCommits(reg, p, hash, |ids|), PreCommits(reg, p, hash, |ids| + 1), 0)
      requires p.epoch == epoch && p.round == 0 && IsSelected(sha3, epoch, reg, p.proposer)
      modifies this, nodes[0]
      ensures b.Some? && IsFullBlock(sha3, b.value, epoch, reg)
      ensures finalizedBlocks == old(finalizedBlocks)[epoch := b.value]
      ensures AllAt(Views(), ids, Recorded(fins, epoch, b.value), Joined(reg), Joined(reg), 0)
    {
      b := None;
      for i := 0 to |nodes|
        invariant i == 0 && Views() == old(Views()) && finalizedBlocks == old(finalizedBlocks)
      {
        b := FinalizeOne(i, hash, p, reg, fins);
        if b.Some? {
          finalizedBlocks := finalizedBlocks[epoch := b.value];
          return;
        }
      }
      assert false;
    }

    method FinalizeOne(i: nat, hash: Bytes, ghost p: Proposal, ghost reg: Registry, ghost fins: seq<Finals>) returns (b: Option<Block>)
      requires Valid() && ids != [] && Ids(ids) == reg.Keys && TotalStake(reg) > 0 && i == 0
      requires Stand(fins, PreCommits(reg, p, hash, |ids|), PreCommits(reg, p, hash, |ids| + 1), 0)
      requires p.round == 0 && IsSelected(sha3, p.epoch, reg, p.proposer)
      modifies nodes[i]
      ensures b.Some? && IsFullBlock(sha3, b.value, p.epoch, reg)
      ensures AllAt(Views(), ids, Recorded(fins, p.epoch, b.value), Joined(reg), Joined(reg), 0)
    {
      ghost var vs := Views();
      StandsAt(i, fins, PreCommits(reg, p, hash, |ids|), PreCommits(reg, p, hash, |ids| + 1));
      HeardEnds(ids, i);
      AllFinalize(sha3, nodes[i].View(), ids[i], reg, p, hash);
      Different(nodes, i);
      b := nodes[i].TryFinalize(hash);
      OneMoved(i);
      Finished(vs, Views(), ids, fins, reg, p, hash, b.value);
    }

    ghost function Finalized(): (fins: seq<Finals>)
      reads nodes
      ensures |fins| == |nodes| && forall i :: 0 <= i < |nodes| ==> fins[i] == nodes[i].finalizedBlocks
    {
      seq(|nodes|, i requires 0 <= i < |nodes| reads nodes => nodes[i].finalizedBlocks)
    }

    /** Everybody knows one registry, which lists everybody. */
    ghost predicate Connected(reg: Registry)
      reads nodes
    {
      Valid() && Ids(ids) == reg.Keys && Stand(Finalized(), Joined(reg), Joined(reg), 0)
    }

    lemma FinalizedAre(fins: seq<Finals>, reg: Registry)
      requires Valid() && AllAt(Views(), ids, fins, Joined(reg), Joined(reg), 0)
      ensures Finalized() == fins
    {
      forall i | 0 <= i < |fins| ensures Finalized()[i] == fins[i] {
        assert AtIndex(Views(), ids, fins, Joined(reg), Joined(reg), 0, i);
      }
    }

    /** Everyone gets to know the proposal. */
    method Announce(k: nat, ghost epoch: nat, roots: Roots, ghost reg: Registry, ghost fins: seq<Finals>) returns (p: Proposal, hash: Bytes)
      requires Valid() && k < |ids| && Ids(ids) == reg.Keys && TotalStake(reg) > 0 && IsSelected(sha3, epoch, reg, ids[k])
      requires Stand(fins, Joined(reg), Waiting(reg, epoch), |ids|)
      modifies nodes
      ensures p.proposer == ids[k] && p.epoch == epoch && p.round == 0
      ensures Stand(fins, Informed(reg, p, hash), PreVotes(reg, p, hash, 0), 0)
    {
      RegistryHas(ids, reg, k);
      p := Propose(k, roots, epoch, reg, fins);
      hash := ProposalHash(sha3, p);
      BroadcastProposal(p, hash, reg, fins);
      Turn(Views(), ids, fins, Offered(reg, p, hash), Informed(reg, p, hash), PreVotes(reg, p, hash, 0));
    }

    /** Proposal, pre-votes, pre-commits: every vote is cast and delivered, and the first node finalizes. */
    method Vote(k: nat, epoch: nat, roots: Roots, ghost reg: Registry, ghost fins: seq<Finals>) returns (b: Option<Block>)
      requires Valid() && k < |ids| && Ids(ids) == reg.Keys && TotalStake(reg) > 0 && IsSelected(sha3, epoch, reg, ids[k])
      requires Stand(fins, Joined(reg), Waiting(reg, epoch), |ids|)
      modifies this, nodes
      ensures b.Some? && IsFullBlock(sha3, b.value, epoch, reg)
      ensures finalizedBlocks == old(finalizedBlocks)[epoch := b.value]
      ensures |fins| == |ids| && AllAt(Views(), ids, Recorded(fins, epoch, b.value), Joined(reg), Joined(reg), 0)
    {
      var p, hash := Announce(k, epoch, roots, reg, fins);
      var votes := PreVoteAll(hash, p, reg, fins);
      Turn(Views(), ids, fins, Informed(reg, p, hash), PreVotes(reg, p, hash, 0), PreVotes(reg, p, hash, 1));
      DistributePreVotes(votes, hash, p, reg, fins);
      PreVotesAreIn(Views(), ids, fins, reg, p, hash, PreVotes(reg, p, hash, |ids| + 1), PreCommits(reg, p, hash, 0));
      b := Commit(hash, epoch, p, reg, fins);
    }

    method Commit(hash: Bytes, epoch: nat, ghost p: Proposal, ghost reg: Registry, ghost fins: seq<Finals>) returns (b: Option<Block>)
      requires Valid() && ids != [] && Ids(ids) == reg.Keys && TotalStake(reg) > 0
      requires Stand(fins, Decided(reg, p, hash), PreCommits(reg, p, hash, 0), 0)
      requires p.epoch == epoch && p.round == 0 && IsSelected(sha3, epoch, reg, p.proposer)
      modifies this, nodes
      ensures b.Some? && IsFullBlock(sha3, b.value, epoch, reg)
      ensures finalizedBlocks == old(finalizedBlocks)[epoch := b.value]
      ensures AllAt(Views(), ids, Recorded(fins, epoch, b.value), Joined(reg), Joined(reg), 0)
    {
      var commits := PreCommitAll(hash, p, reg, fins);
      Turn(Views(), ids, fins, Decided(reg, p, hash), PreCommits(reg, p, hash, 0), PreCommits(reg, p, hash, 1));
      DistributePreCommits(commits, hash, p, reg, fins);
      b := FinalizeFirst(hash, epoch, p, reg, fins);
    }

    /**
     * run_epoch: with any stake in the network the epoch ends in a block that everyone voted for, proposed by
     * the validator selected, and recorded by the network and by its first validator only.
     */
    method RunEpoch(epoch: nat, roots: Roots, ghost reg: Registry) returns (r: Result<Option<Block>, EpochError>)
      requires Connected(reg)
      modifies this, nodes
      ensures Connected(reg)
      ensures r == Err(NoValidators) <==> ids == []
      ensures r == Err(NoStake) <==> ids != [] && TotalStake(reg) == 0
      ensures r.Ok? ==> ids != [] && r.value.Some? && IsFullBlock(sha3, r.value.value, epoch, reg)
      ensures r.Ok? ==> Finalized() == Recorded(old(Finalized()), epoch, r.value.value)
      ensures finalizedBlocks == if r.Ok? then old(finalizedBlocks)[epoch := r.value.value] else old(finalizedBlocks)
    {
      ghost var fins := Finalized();
      Begin(Views(), ids, fins, Joined(reg), Joined(reg), Waiting(reg, epoch));
      StartAll(epoch, reg, fins);
      var proposer := FindProposer(epoch, reg, fins);
      if proposer.Err? {
        StillJoined(Views(), ids, fins, reg, epoch);
        FinalizedAre(fins, reg);
        return Err(proposer.error);
      }
      var b := Vote(proposer.value, epoch, roots, reg, fins);
      FinalizedAre(Recorded(fins, epoch, b.value), reg);
      return Ok(b);
    }

    /** run: every epoch of a run is finalized, whatever the measurements say. */
    method Run(roots: seq<Roots>, ghost reg: Registry) returns (r: Result<(), EpochError>)
      requires Connected(reg)
      modifies this, nodes
      ensures Connected(reg)
      ensures r.Err? <==> roots != [] && (ids == [] || TotalStake(reg) == 0)
      ensures r.Ok? ==> AllFull(sha3, finalizedBlocks, |roots|, reg)
    {
      for epoch := 0 to |roots|
        invariant Connected(reg)
        invariant epoch > 0 ==> ids != [] && TotalStake(reg) > 0
        invariant AllFull(sha3, finalizedBlocks, epoch, reg)
      {
        ghost var blocks := finalizedBlocks;
        var b := RunEpoch(epoch, roots[epoch], reg);
        if b.Err? {
          assert b.error.NoValidators? || b.error.NoStake?;
          return Err(b.error);
        }
        FullNext(sha3, blocks, epoch, b.value.value, reg);
      }
      return Ok(());
    }

    /** Creates the validators and makes everyone a peer of everyone else. */
    constructor (sha3: Sha256, ids: seq<Bytes>, stakes: seq<nat>)
      requires |ids| == |stakes| && NoRepeats(ids)
      ensures this.sha3 == sha3 && this.ids == ids && finalizedBlocks == map[] && fresh(nodes)
      ensures Connected(RegistryOf(ids, stakes))
    {
      var created := CreateNodes(sha3, ids, stakes);
      ConnectAll(created, ids, stakes);
      this.sha3, this.ids, this.nodes := sha3, ids, created;
      finalizedBlocks := map[];
      new;
      RegistryKeys(ids, stakes);
      ghost var reg := RegistryOf(ids, stakes);
      forall i | 0 <= i < |ids| ensures AtIndex(Views(), ids, Finalized(), Joined(reg), Joined(reg), 0, i) {
        assert Knows(nodes[i].View(), ids[i], reg);
      }
    }
  }

  method CreateNodes(sha3: Sha256, ids: seq<Bytes>, stakes: seq<nat>) returns (nodes: seq<BFTConsensus>)
    requires |ids| == |stakes|
    ensures |nodes| == |ids| && NoRepeats(nodes) && fresh(nodes)
    ensures forall i :: 0 <= i < |nodes| ==> nodes[i].sha3 == sha3 && nodes[i].View() == Fresh(ids[i], stakes[i])
  {
    nodes := [];
    for i := 0 to |ids|
      invariant |nodes| == i && NoRepeats(nodes) && fresh(nodes)
      invariant forall j :: 0 <= j < i ==> nodes[j].sha3 == sha3 && nodes[j].View() == Fresh(ids[j], stakes[j])
    {
      var node := new BFTConsensus(sha3, ids[i], stakes[i]);
      SnocHasNoRepeats(nodes, node);
      nodes := nodes + [node];
    }
  }

  /** The registry that listing all validators yields. */
  ghost function RegistryOf(ids: seq<Bytes>, stakes: seq<nat>): Registry
    requires |ids| == |stakes|
  {
    if ids == [] then map[]
    else var n := |ids| - 1; RegistryOf(ids[..n], stakes[..n])[ids[n] := stakes[n]]
  }

  lemma {:induction false} RegistryKeys(ids: seq<Bytes>, stakes: seq<nat>)
    requires |ids| == |stakes|
    ensures RegistryOf(ids, stakes).Keys == Ids(ids)
  {
    if ids != [] {
      var n := |ids| - 1;
      RegistryKeys(ids[..n], stakes[..n]);
      IdsSnoc(ids, n);
      assert ids[..n + 1] == ids;
    }
  }

  lemma {:induction false} RegistryHolds(ids: seq<Bytes>, stakes: seq<nat>, i: nat)
    requires |ids| == |stakes| && NoRepeats(ids) && i < |ids|
    ensures ids[i] in RegistryOf(ids, stakes) && RegistryOf(ids, stakes)[ids[i]] == stakes[i]
  {
    var n := |ids| - 1;
    if i < n {
      FrontHasNoRepeats(ids);
      RegistryHolds(ids[..n], stakes[..n], i);
      Different(ids, i);
    }
  }

  /** The part of the registry that covers the given ids. */
  ghost function Part(reg: Registry, covered: set<Bytes>): Registry {
    map id | id in covered && id in reg :: reg[id]
  }

  lemma PartSnoc(reg: Registry, ids: set<Bytes>, id: Bytes)
    requires id in reg
    ensures Part(reg, ids)[id := reg[id]] == Part(reg, ids + {id})
  {
  }

  /** The node has been told of the given ids. */
  ghost predicate Told(n: Node, id: Bytes, reg: Registry, covered: set<Bytes>) {
    n.id == id && n.validators == Part(reg, covered) && n.totalStake == TotalStake(n.validators)
  }

  lemma ToldAll(n: Node, id: Bytes, reg: Registry)
    requires Told(n, id, reg, reg.Keys)
    ensures Knows(n, id, reg)
  {
    assert Part(reg, reg.Keys) == reg;
  }

  method AddPeer(node: BFTConsensus, peer: Bytes, stake: nat, ghost id: Bytes, ghost reg: Registry, ghost covered: set<Bytes>)
    requires Told(node.View(), id, reg, covered) && peer in reg && reg[peer] == stake && id in covered
    modifies node
    ensures Told(node.View(), id, reg, covered + {peer})
  {
    if peer != node.validatorId {
      PartSnoc(reg, covered, peer);
      node.RegisterValidator(peer, stake);
    } else {
      assert covered + {peer} == covered;
    }
  }

  /** Node i hears of everyone else. */
  method ConnectOne(node: BFTConsensus, ids: seq<Bytes>, stakes: seq<nat>, i: nat)
    requires |ids| == |stakes| && NoRepeats(ids) && i < |ids| && node.View() == Fresh(ids[i], stakes[i])
    modifies node
    ensures Knows(node.View(), ids[i], RegistryOf(ids, stakes))
  {
    ghost var reg := RegistryOf(ids, stakes);
    FreshIsTold(ids, stakes, i);
    for j := 0 to |ids|
      invariant Told(node.View(), ids[i], reg, Heard(ids, j, i))
    {
      HeardNext(ids, j, i);
      RegistryHolds(ids, stakes, j);
      AddPeer(node, ids[j], stakes[j], ids[i], reg, Heard(ids, j, i));
    }
    HeardEnds(ids, i);
    RegistryKeys(ids, stakes);
    ToldAll(node.View(), ids[i], reg);
  }

  lemma FreshIsTold(ids: seq<Bytes>, stakes: seq<nat>, i: nat)
    requires |ids| == |stakes| && NoRepeats(ids) && i < |ids|
    ensures Told(Fresh(ids[i], stakes[i]), ids[i], RegistryOf(ids, stakes), Heard(ids, 0, i))
  {
    RegistryHolds(ids, stakes, i);
    HeardEnds(ids, i);
  }

  method ConnectAll(nodes: seq<BFTConsensus>, ids: seq<Bytes>, stakes: seq<nat>)
    requires |nodes| == |ids| == |stakes| && NoRepeats(ids) && NoRepeats(nodes)
    requires forall i :: 0 <= i < |nodes| ==> nodes[i].View() == Fresh(ids[i], stakes[i])
    modifies nodes
    ensures forall i :: 0 <= i < |nodes| ==> Knows(nodes[i].View(), ids[i], RegistryOf(ids, stakes))
  {
    for i := 0 to |nodes|
      invariant forall j :: 0 <= j < i ==> Knows(nodes[j].View(), ids[j], RegistryOf(ids, stakes))
      invariant forall j :: i <= j < |nodes| ==> nodes[j].View() == Fresh(ids[j], stakes[j])
    {
      Different(nodes, i);
      ConnectOne(nodes[i], ids, stakes, i);
    }
  }
}
