/** The consensus engine of one validator and the validator that drives it, as mutable objects. */
module Consensus {
  import opened Wrappers
  import opened ByteStrings
  import opened Sums
  import opened Order
  import opened Votes
  import opened Proposer

  function Ids(ids: seq<Bytes>): set<Bytes> {
    set id | id in ids
  }

  lemma IdsSnoc(ids: seq<Bytes>, i: nat)
    requires i < |ids|
    ensures Ids(ids[..i + 1]) == Ids(ids[..i]) + {ids[i]}
  {
    assert ids[..i + 1] == ids[..i] + [ids[i]];
  }

  /** The keys in ascending order, as Python's sorted(dict.items()) yields them. */
  ghost predicate SortedIds(ids: seq<Bytes>, keys: set<Bytes>) {
    && Ids(ids) == keys
    && Ascending(ids)
  }

  predicate IsLeast(v: Bytes, ids: set<Bytes>) {
    v in ids && forall u :: u in ids ==> !LexLess(u, v)
  }

  lemma HasLeast(ids: set<Bytes>)
    requires ids != {}
    ensures exists v :: v in ids && IsLeast(v, ids)
  {
    var v := LeastExists(ids);
    forall u | u in ids ensures !LexLess(u, v) {
      assert u !in Before(ids, v);
    }
    assert IsLeast(v, ids);
  }

  lemma LeastIsBelow(v: Bytes, ids: set<Bytes>)
    requires IsLeast(v, ids)
    ensures forall u :: u in ids - {v} ==> LexLess(v, u)
  {
    forall u | u in ids - {v} ensures LexLess(v, u) {
      LexTotal(u, v);
    }
  }

  ghost predicate Ascending(ids: seq<Bytes>) {
    forall i, j :: 0 <= i < j < |ids| ==> LexLess(ids[i], ids[j])
  }

  ghost predicate AllBelow(low: set<Bytes>, high: set<Bytes>) {
    forall a, b :: a in low && b in high ==> LexLess(a, b)
  }

  ghost predicate SortedSoFar(ids: seq<Bytes>, rest: set<Bytes>, keys: set<Bytes>) {
    rest <= keys && Ids(ids) == keys - rest && Ascending(ids) && AllBelow(Ids(ids), rest)
  }

  lemma SnocLeast(ids: seq<Bytes>, v: Bytes, rest: set<Bytes>, keys: set<Bytes>)
    requires SortedSoFar(ids, rest, keys) && IsLeast(v, rest)
    ensures SortedSoFar(ids + [v], rest - {v}, keys)
  {
    LeastIsBelow(v, rest);
    var more := ids + [v];
    assert more[..|ids|] == ids && more[..|ids| + 1] == more;
    IdsSnoc(more, |ids|);
    forall i, j | 0 <= i < j < |more| ensures LexLess(more[i], more[j]) {
      assert ids[i] in Ids(ids);
      if j < |ids| {
        assert LexLess(ids[i], ids[j]);
      }
    }
  }

  method SortIds(keys: set<Bytes>) returns (ids: seq<Bytes>)
    ensures SortedIds(ids, keys)
  {
    ids := [];
    var rest := keys;
    while rest != {}
      invariant SortedSoFar(ids, rest, keys)
      decreases |rest|
    {
      HasLeast(rest);
      var v :| v in rest && IsLeast(v, rest);
      SnocLeast(ids, v, rest, keys);
      ids := ids + [v];
      rest := rest - {v};
    }
  }

  lemma PrefixIsBefore(ids: seq<Bytes>, keys: set<Bytes>, i: nat)
    requires SortedIds(ids, keys) && i < |ids|
    ensures Ids(ids[..i]) == Before(keys, ids[i])
  {
    forall v ensures v in ids[..i] <==> v in Before(keys, ids[i]) {
      if v in ids[..i] {
        var k :| 0 <= k < i && ids[k] == v;
        assert v in keys;
      } else if v in Before(keys, ids[i]) {
        assert v in Ids(ids);
        var k :| 0 <= k < |ids| && ids[k] == v;
        LexIrreflexive(v);
        if i < k {
          LexTransitive(v, ids[i], v);
        }
      }
    }
  }

  class BFTConsensus {
    const sha3: Sha256
    const validatorId: Bytes
    const stake: nat
    var epoch: nat
    var round: nat
    var phase: Phase
    var currentProposal: Option<Proposal>
    var receivedProposals: map<Bytes, Proposal>
    var preVotes: VoteTable
    var preCommits: VoteTable
    var preVoteChoices: map<Bytes, Bytes>
    var preCommitChoices: map<Bytes, Bytes>
    var validators: Registry
    var totalStake: nat
    var finalizedBlocks: map<nat, Block>

    ghost function View(): Node
      reads this
    {
      Node(validatorId, stake, epoch, round, phase, currentProposal, receivedProposals, preVotes, preCommits,
           preVoteChoices, preCommitChoices, validators, totalStake, finalizedBlocks)
    }

    /** The cached total is the sum over the registry. */
    ghost predicate Valid()
      reads this
    {
      totalStake == TotalStake(validators)
    }

    constructor (sha3: Sha256, validatorId: Bytes, stake: nat)
      ensures Valid() && View() == Fresh(validatorId, stake)
      ensures this.sha3 == sha3
    {
      this.sha3 := sha3;
      this.validatorId := validatorId;
      this.stake := stake;
      epoch, round, phase := 0, 0, Idle;
      currentProposal, receivedProposals := None, map[];
      preVotes, preCommits, preVoteChoices, preCommitChoices := map[], map[], map[], map[];
      validators, totalStake, finalizedBlocks := map[], 0, map[];
      new;
      RegisterValidator(validatorId, stake);
    }

    method RegisterValidator(id: Bytes, stake: nat)
      modifies this
      ensures Valid() && View() == Registered(old(View()), id, stake)
    {
      validators := validators[id := stake];
      totalStake := SumStakes(validators);
    }

    /** sum(d.values()) for a dictionary of stakes. */
    static method SumStakes(stakes: map<Bytes, nat>) returns (total: nat)
      ensures total == TotalStake(stakes)
    {
      total := 0;
      var rest := stakes.Keys;
      while rest != {}
        invariant rest <= stakes.Keys
        invariant total + StakeSum(stakes, rest) == TotalStake(stakes)
        decreases |rest|
      {
        var v :| v in rest;
        SumRemove(rest, v, StakeOf(stakes));
        total := total + stakes[v];
        rest := rest - {v};
      }
    }

    method StartRound(epoch: nat, round: nat)
      requires Valid()
      modifies this
      ensures Valid() && View() == StartedRound(old(View()), epoch, round)
    {
      assert TotalStake(validators) == totalStake;
      this.epoch := epoch;
      this.round := round;
      phase := Propose;
      currentProposal := None;
      receivedProposals := map[];
      preVotes, preCommits := map[], map[];
      preVoteChoices, preCommitChoices := map[], map[];
    }

    /** The id whose interval of the sorted stakes contains the target; None only for an empty registry. */
    method ExpectedProposer() returns (r: Result<Option<Bytes>, Outcome>)
      requires Valid()
      ensures r.Err? <==> validators != map[] && totalStake == 0
      ensures r.Err? ==> r.error == DivisionByZero
      ensures r.Ok? && validators == map[] ==> r.value == None
      ensures r.Ok? && validators != map[] ==>
                r.value.Some? && forall u :: Owns(validators, u, Target(sha3, View())) <==> u == r.value.value
    {
      if validators == map[] {
        return Ok(None);
      }
      var selection := FromBe(sha3(PROPOSER_TAG + Be(epoch, 8) + Be(round, 8))[..8]);
      if totalStake == 0 {
        return Err(DivisionByZero);
      }
      var target := selection % totalStake;
      var ids := SortIds(validators.Keys);
      assert ids[..|ids|] == ids;
      var cumulative := 0;
      for i := 0 to |ids|
        invariant cumulative == StakeSum(validators, Ids(ids[..i]))
        invariant cumulative <= target
      {
        assert ids[i] in validators.Keys;
        PrefixIsBefore(ids, validators.Keys, i);
        LexIrreflexive(ids[i]);
        SumAdd(Before(validators.Keys, ids[i]), ids[i], StakeOf(validators));
        IdsSnoc(ids, i);
        cumulative := cumulative + validators[ids[i]];
        if cumulative > target {
          assert Owns(validators, ids[i], target);
          forall u | Owns(validators, u, target) ensures u == ids[i] {
            OwnerIsUnique(validators, u, ids[i], target);
          }
          return Ok(Some(ids[i]));
        }
      }
      assert false;
    }

    /** The same walk, ending with a comparison; true for exactly the one selected validator. */
    method AmIProposer() returns (r: Result<bool, Outcome>)
      requires Valid()
      ensures r.Err? <==> validators != map[] && totalStake == 0
      ensures r.Err? ==> r.error == DivisionByZero
      ensures r.Ok? ==> (r.value <==> validators == map[] || Owns(validators, validatorId, Target(sha3, View())))
    {
      if validators == map[] {
        return Ok(true);
      }
      var selection := FromBe(sha3(PROPOSER_TAG + Be(epoch, 8) + Be(round, 8))[..8]);
      if totalStake == 0 {
        return Err(DivisionByZero);
      }
      var target := selection % totalStake;
      var ids := SortIds(validators.Keys);
      assert ids[..|ids|] == ids;
      var cumulative := 0;
      for i := 0 to |ids|
        invariant cumulative == StakeSum(validators, Ids(ids[..i]))
        invariant cumulative <= target
      {
        assert ids[i] in validators.Keys;
        PrefixIsBefore(ids, validators.Keys, i);
        LexIrreflexive(ids[i]);
        SumAdd(Before(validators.Keys, ids[i]), ids[i], StakeOf(validators));
        IdsSnoc(ids, i);
        cumulative := cumulative + validators[ids[i]];
        if cumulative > target {
          if Owns(validators, validatorId, target) {
            OwnerIsUnique(validators, validatorId, ids[i], target);
          }
          return Ok(ids[i] == validatorId);
        }
      }
      return Ok(false);
    }

    method CreateProposal(measurementRoot: Bytes, transactionRoot: Bytes, stateRoot: Bytes, timestamp: nat)
      returns (p: Proposal)
      requires Valid()
      modifies this
      ensures p == OwnProposal(old(View()), measurementRoot, transactionRoot, stateRoot, timestamp)
      ensures Valid() && View() == Proposed(sha3, old(View()), p)
    {
      p := Proposal(validatorId, epoch, round, measurementRoot, transactionRoot, stateRoot, timestamp);
      currentProposal := Some(p);
      receivedProposals := receivedProposals[ProposalHash(sha3, p) := p];
      phase := PreVoting;
    }

    method ReceiveProposal(p: Proposal) returns (r: Outcome)
      requires Valid()
      modifies this
      ensures r == ProposalOutcome(sha3, old(View()), p)
      ensures Valid() && View() == ReceivedProposal(sha3, old(View()), p)
    {
      if p.epoch != epoch {
        return Rejected(WrongEpoch);
      }
      if p.round != round {
        return Rejected(WrongRound);
      }
      if p.proposer !in validators {
        return Rejected(UnknownProposer);
      }
      var expected := ExpectedProposer();
      if expected.Err? {
        return expected.error;
      }
      assert Owns(validators, p.proposer, Target(sha3, View())) <==> p.proposer == expected.value.value;
      if expected.value.Some? && p.proposer != expected.value.value {
        return Rejected(NotSelected);
      }
      receivedProposals := receivedProposals[ProposalHash(sha3, p) := p];
      return Accepted;
    }

    method CreatePreVote(hash: Bytes) returns (v: Vote)
      requires Valid()
      modifies this
      ensures v == OwnVote(old(View()), hash, PreVote)
      ensures Valid() && View() == CreatedPreVote(old(View()), hash)
    {
      v := Vote(validatorId, epoch, round, hash, PreVote, stake);
      preVotes := preVotes[hash := VotesFor(preVotes, hash) + [v]];
    }

    method ReceivePreVote(v: Vote) returns (r: Outcome)
      requires Valid()
      modifies this
      ensures r == PreVoteOutcome(old(View()), v)
      ensures Valid() && View() == ReceivedPreVote(old(View()), v)
    {
      if v.epoch != epoch {
        return Rejected(WrongEpoch);
      }
      if v.kind != PreVote {
        return Rejected(WrongVoteType);
      }
      if v.voter !in validators {
        return Rejected(UnknownVoter);
      }
      var counted := v.(stake := validators[v.voter]);
      if v.voter in preVoteChoices && preVoteChoices[v.voter] != v.hash {
        return Rejected(Equivocation);
      }
      preVoteChoices := preVoteChoices[v.voter := v.hash];
      preVotes := preVotes[v.hash := VotesFor(preVotes, v.hash) + [counted]];
      return Accepted;
    }

    /** Registered stake of the distinct voters in a list. */
    method SupportingStake(votes: seq<Vote>) returns (s: nat)
      ensures s == Support(validators, votes)
    {
      var voterStakes: map<Bytes, nat> := map[];
      for i := 0 to |votes|
        invariant voterStakes.Keys == Voters(votes[..i])
        invariant forall u :: u in voterStakes ==> voterStakes[u] == StakeOf(validators)(u)
      {
        var u := votes[i].voter;
        voterStakes := voterStakes[u := if u in validators then validators[u] else 0];
        assert votes[..i + 1] == votes[..i] + [votes[i]];
        assert Voters(votes[..i + 1]) == Voters(votes[..i]) + {u};
      }
      assert votes[..|votes|] == votes;
      s := SumStakes(voterStakes);
      SumCongruent(voterStakes.Keys, StakeOf(voterStakes), StakeOf(validators));
    }

    method CheckPreVoteThreshold(hash: Bytes) returns (met: bool)
      ensures met == PreVoteQuorum(View(), hash)
    {
      var supporting := SupportingStake(VotesFor(preVotes, hash));
      met := AtLeast67(supporting, totalStake);
    }

    method CreatePreCommit(hash: Bytes) returns (v: Option<Vote>)
      requires Valid()
      modifies this
      ensures v == if PreVoteQuorum(old(View()), hash) then Some(OwnVote(old(View()), hash, PreCommit)) else None
      ensures Valid() && View() == CreatedPreCommit(old(View()), hash)
    {
      var met := CheckPreVoteThreshold(hash);
      if !met {
        return None;
      }
      var own := Vote(validatorId, epoch, round, hash, PreCommit, stake);
      preCommits := preCommits[hash := VotesFor(preCommits, hash) + [own]];
      phase := PreCommitting;
      return Some(own);
    }

    method ReceivePreCommit(v: Vote) returns (r: Outcome)
      requires Valid()
      modifies this
      ensures r == PreCommitOutcome(old(View()), v)
      ensures Valid() && View() == ReceivedPreCommit(old(View()), v)
    {
      if v.epoch != epoch {
        return Rejected(WrongEpoch);
      }
      if v.kind != PreCommit {
        return Rejected(WrongVoteType);
      }
      if v.voter !in validators {
        return Rejected(UnknownVoter);
      }
      var counted := v.(stake := validators[v.voter]);
      if v.voter in preCommitChoices && preCommitChoices[v.voter] != v.hash {
        return Rejected(Equivocation);
      }
      preCommitChoices := preCommitChoices[v.voter := v.hash];
      preCommits := preCommits[v.hash := VotesFor(preCommits, v.hash) + [counted]];
      return Accepted;
    }

    method CheckPreCommitThreshold(hash: Bytes) returns (met: bool)
      ensures met == PreCommitQuorum(View(), hash)
    {
      var supporting := SupportingStake(VotesFor(preCommits, hash));
      met := AtLeast67(supporting, totalStake);
    }

    method TryFinalize(hash: Bytes) returns (b: Option<Block>)
      requires Valid()
      modifies this
      ensures b == if Finalizes(old(View()), hash) then Some(FinalBlock(old(View()), hash)) else None
      ensures Valid() && View() == TriedFinalize(old(View()), hash)
    {
      var met := CheckPreCommitThreshold(hash);
      if !met || hash !in receivedProposals {
        return None;
      }
      var votes := VotesFor(preVotes, hash) + VotesFor(preCommits, hash);
      var supporting := SupportingStake(VotesFor(preCommits, hash));
      var block := Block(epoch, round, receivedProposals[hash], votes, totalStake, supporting);
      finalizedBlocks := finalizedBlocks[epoch := block];
      phase := Finalized;
      return Some(block);
    }
  }

  /** A proposal or vote addressed to a peer. */
  datatype Message = ProposalTo(peer: Bytes, p: Proposal) | VoteTo(peer: Bytes, v: Vote)

  function Broadcast(peers: seq<Bytes>, v: Vote): (out: seq<Message>)
    ensures |out| == |peers|
    ensures forall i :: 0 <= i < |peers| ==> out[i] == VoteTo(peers[i], v)
  {
    seq(|peers|, i requires 0 <= i < |peers| => VoteTo(peers[i], v))
  }

  class ValidatorNode {
    const consensus: BFTConsensus
    var peers: seq<Bytes>
    var outbox: seq<Message>
    var votesCast: nat

    constructor (consensus: BFTConsensus)
      ensures this.consensus == consensus && peers == [] && outbox == [] && votesCast == 0
    {
      this.consensus := consensus;
      peers, outbox, votesCast := [], [], 0;
    }

    method BroadcastVote(v: Vote)
      modifies this`outbox
      ensures outbox == old(outbox) + Broadcast(peers, v)
    {
      for i := 0 to |peers|
        invariant outbox == old(outbox) + Broadcast(peers, v)[..i]
      {
        outbox := outbox + [VoteTo(peers[i], v)];
      }
    }

    method ReceiveProposal(p: Proposal) returns (r: Outcome)
      requires consensus.Valid()
      modifies this`outbox, this`votesCast, consensus
      ensures consensus.Valid() && consensus.View() == HandledProposal(consensus.sha3, old(consensus.View()), p)
      ensures r == ProposalOutcome(consensus.sha3, old(consensus.View()), p)
      ensures outbox == old(outbox) +
                if r.Accepted? then
                  Broadcast(peers, OwnVote(old(consensus.View()), ProposalHash(consensus.sha3, p), PreVote))
                else []
    {
      r := consensus.ReceiveProposal(p);
      if r.Accepted? {
        var v := consensus.CreatePreVote(ProposalHash(consensus.sha3, p));
        BroadcastVote(v);
        votesCast := votesCast + 1;
      }
    }

    /** A pre-commit leaves the node only together with the table entry that records it. */
    method ReceiveVote(v: Vote) returns (r: Outcome, finalized: Option<Block>)
      requires consensus.Valid()
      modifies this`outbox, this`votesCast, consensus
      ensures consensus.Valid() && consensus.View() == HandledVote(old(consensus.View()), v)
      ensures var n := old(consensus.View());
              && r == (if v.kind.PreVote? then PreVoteOutcome(n, v) else PreCommitOutcome(n, v))
              && outbox == old(outbox) +
                   (if v.kind.PreVote? && r.Accepted? && PreVoteQuorum(ReceivedPreVote(n, v), v.hash) then
                      Broadcast(peers, OwnVote(n, v.hash, PreCommit))
                    else [])
              && finalized ==
                   (if !v.kind.PreVote? && r.Accepted? && Finalizes(ReceivedPreCommit(n, v), v.hash) then
                      Some(FinalBlock(ReceivedPreCommit(n, v), v.hash))
                    else None)
    {
      finalized := None;
      if v.kind == PreVote {
        r := consensus.ReceivePreVote(v);
        if r.Accepted? {
          var met := consensus.CheckPreVoteThreshold(v.hash);
          if met {
            var c := consensus.CreatePreCommit(v.hash);
            if c.Some? {
              BroadcastVote(c.value);
              votesCast := votesCast + 1;
            }
          }
        }
      } else {
        r := consensus.ReceivePreCommit(v);
        if r.Accepted? {
          var met := consensus.CheckPreCommitThreshold(v.hash);
          if met {
            finalized := consensus.TryFinalize(v.hash);
          }
        }
      }
    }
  }
}
