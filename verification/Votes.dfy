/** What one consensus node holds, and what each of its operations does to it. */
module Votes {
  import opened Wrappers
  import opened ByteStrings
  import opened Sums
  import opened Order

  datatype Phase = Idle | Propose | PreVoting | PreCommitting | Committing | Finalized

  /** The `vote_type` string; anything but the two known strings is Unknown. */
  datatype VoteKind = PreVote | PreCommit | Unknown

  datatype Proposal = Proposal(
    proposer: Bytes, epoch: nat, round: nat,
    measurementRoot: Bytes, transactionRoot: Bytes, stateRoot: Bytes, timestamp: nat)

  datatype Vote = Vote(voter: Bytes, epoch: nat, round: nat, hash: Bytes, kind: VoteKind, stake: nat)

  datatype Block = Block(
    epoch: nat, round: nat, proposal: Proposal, votes: seq<Vote>, totalStake: nat, supportingStake: nat)

  type Registry = map<Bytes, nat>

  type VoteTable = map<Bytes, seq<Vote>>

  /** Why a proposal or a vote is turned down. */
  datatype Reason = WrongEpoch | WrongRound | UnknownProposer | NotSelected | WrongVoteType | UnknownVoter | Equivocation

  datatype Outcome = Accepted | Rejected(reason: Reason) | DivisionByZero

  datatype Node = Node(
    id: Bytes, stake: nat, epoch: nat, round: nat, phase: Phase,
    currentProposal: Option<Proposal>, received: map<Bytes, Proposal>,
    preVotes: VoteTable, preCommits: VoteTable,
    preVoteChoices: map<Bytes, Bytes>, preCommitChoices: map<Bytes, Bytes>,
    validators: Registry, totalStake: nat, finalized: map<nat, Block>)

  /** The byte string that a proposal's hash is taken of; it leaves out the timestamp. */
  function ProposalPreimage(p: Proposal): Bytes {
    p.proposer + Be(p.epoch, 8) + Be(p.round, 8) + p.measurementRoot + p.transactionRoot + p.stateRoot
  }

  /** The hash votes refer to. */
  function ProposalHash(sha3: Sha256, p: Proposal): Digest {
    sha3(ProposalPreimage(p))
  }

  // ------------------------------------------------------------------ stake

  ghost function StakeOf(reg: Registry): Bytes -> int {
    v => if v in reg then reg[v] else 0
  }

  ghost function StakeSum(reg: Registry, ids: set<Bytes>): (s: nat)
  {
    SumNonNegative(ids, StakeOf(reg));
    Sum(ids, StakeOf(reg))
  }

  ghost function TotalStake(reg: Registry): nat {
    StakeSum(reg, reg.Keys)
  }

  /** At least 67% of a positive total. */
  predicate AtLeast67(stake: int, total: int) {
    total > 0 && 100 * stake >= 67 * total
  }

  function VotesFor(table: VoteTable, hash: Bytes): seq<Vote> {
    if hash in table then table[hash] else []
  }

  function Append(table: VoteTable, hash: Bytes, v: Vote): VoteTable {
    table[hash := VotesFor(table, hash) + [v]]
  }

  function Voters(votes: seq<Vote>): set<Bytes> {
    set v | v in votes :: v.voter
  }

  /** Registered stake behind a list of votes, each voter counted once. */
  ghost function Support(reg: Registry, votes: seq<Vote>): nat {
    StakeSum(reg, Voters(votes))
  }

  ghost predicate PreVoteQuorum(n: Node, hash: Bytes) {
    AtLeast67(Support(n.validators, VotesFor(n.preVotes, hash)), n.totalStake)
  }

  ghost predicate PreCommitQuorum(n: Node, hash: Bytes) {
    AtLeast67(Support(n.validators, VotesFor(n.preCommits, hash)), n.totalStake)
  }

  // ------------------------------------------------------- proposer selection

  /** Stake of the registered validators that sort before `v`. */
  ghost function StakeBefore(reg: Registry, v: Bytes): nat {
    StakeSum(reg, Before(reg.Keys, v))
  }

  /** `v` owns the interval of targets that its stake covers. */
  ghost predicate Owns(reg: Registry, v: Bytes, target: int) {
    v in reg && StakeBefore(reg, v) <= target < StakeBefore(reg, v) + reg[v]
  }

  /** The pseudo-random 64-bit value drawn for an epoch and round. */
  function SelectionValue(sha3: Sha256, epoch: nat, round: nat): nat {
    FromBe(sha3(SelectionPreimage(epoch, round))[..8])
  }

  function SelectionPreimage(epoch: nat, round: nat): Bytes {
    PROPOSER_TAG + Be(epoch, 8) + Be(round, 8)
  }

  const PROPOSER_TAG: Bytes := [112, 114, 111, 112, 111, 115, 101, 114]

  ghost function Target(sha3: Sha256, n: Node): nat
    requires n.totalStake > 0
  {
    SelectionValue(sha3, n.epoch, n.round) % n.totalStake
  }

  // --------------------------------------------------------------- operations

  ghost function Registered(n: Node, id: Bytes, stake: nat): Node {
    var reg := n.validators[id := stake];
    n.(validators := reg, totalStake := TotalStake(reg))
  }

  ghost function Fresh(id: Bytes, stake: nat): Node {
    Registered(Node(id, stake, 0, 0, Idle, None, map[], map[], map[], map[], map[], map[], 0, map[]), id, stake)
  }

  function StartedRound(n: Node, epoch: nat, round: nat): Node {
    n.(epoch := epoch, round := round, phase := Propose, currentProposal := None, received := map[],
       preVotes := map[], preCommits := map[], preVoteChoices := map[], preCommitChoices := map[])
  }

  function OwnProposal(n: Node, measurementRoot: Bytes, transactionRoot: Bytes, stateRoot: Bytes, timestamp: nat): Proposal {
    Proposal(n.id, n.epoch, n.round, measurementRoot, transactionRoot, stateRoot, timestamp)
  }

  function Proposed(sha3: Sha256, n: Node, p: Proposal): Node {
    n.(currentProposal := Some(p), received := n.received[ProposalHash(sha3, p) := p], phase := PreVoting)
  }

  ghost function ProposalOutcome(sha3: Sha256, n: Node, p: Proposal): Outcome {
    if p.epoch != n.epoch then Rejected(WrongEpoch)
    else if p.round != n.round then Rejected(WrongRound)
    else if p.proposer !in n.validators then Rejected(UnknownProposer)
    else if n.totalStake == 0 then DivisionByZero
    else if !Owns(n.validators, p.proposer, Target(sha3, n)) then Rejected(NotSelected)
    else Accepted
  }

  ghost function ReceivedProposal(sha3: Sha256, n: Node, p: Proposal): Node {
    if ProposalOutcome(sha3, n, p).Accepted? then n.(received := n.received[ProposalHash(sha3, p) := p]) else n
  }

  function OwnVote(n: Node, hash: Bytes, kind: VoteKind): Vote {
    Vote(n.id, n.epoch, n.round, hash, kind, n.stake)
  }

  /** A node's own pre-vote goes straight into the table, past the choice map. */
  function CreatedPreVote(n: Node, hash: Bytes): Node {
    n.(preVotes := Append(n.preVotes, hash, OwnVote(n, hash, PreVote)))
  }

  function VoteOutcome(n: Node, v: Vote, kind: VoteKind, choices: map<Bytes, Bytes>): Outcome {
    if v.epoch != n.epoch then Rejected(WrongEpoch)
    else if v.kind != kind then Rejected(WrongVoteType)
    else if v.voter !in n.validators then Rejected(UnknownVoter)
    else if v.voter in choices && choices[v.voter] != v.hash then Rejected(Equivocation)
    else Accepted
  }

  function PreVoteOutcome(n: Node, v: Vote): Outcome {
    VoteOutcome(n, v, PreVote, n.preVoteChoices)
  }

  function ReceivedPreVote(n: Node, v: Vote): Node {
    if PreVoteOutcome(n, v).Accepted? then
      n.(preVoteChoices := n.preVoteChoices[v.voter := v.hash],
         preVotes := Append(n.preVotes, v.hash, v.(stake := n.validators[v.voter])))
    else n
  }

  ghost function CreatedPreCommit(n: Node, hash: Bytes): Node {
    if PreVoteQuorum(n, hash) then
      n.(preCommits := Append(n.preCommits, hash, OwnVote(n, hash, PreCommit)), phase := PreCommitting)
    else n
  }

  function PreCommitOutcome(n: Node, v: Vote): Outcome {
    VoteOutcome(n, v, PreCommit, n.preCommitChoices)
  }

  function ReceivedPreCommit(n: Node, v: Vote): Node {
    if PreCommitOutcome(n, v).Accepted? then
      n.(preCommitChoices := n.preCommitChoices[v.voter := v.hash],
         preCommits := Append(n.preCommits, v.hash, v.(stake := n.validators[v.voter])))
    else n
  }

  ghost predicate Finalizes(n: Node, hash: Bytes) {
    PreCommitQuorum(n, hash) && hash in n.received
  }

  ghost function FinalBlock(n: Node, hash: Bytes): Block
    requires hash in n.received
  {
    Block(n.epoch, n.round, n.received[hash],
          VotesFor(n.preVotes, hash) + VotesFor(n.preCommits, hash),
          n.totalStake, Support(n.validators, VotesFor(n.preCommits, hash)))
  }

  ghost function TriedFinalize(n: Node, hash: Bytes): Node {
    if Finalizes(n, hash) then
      n.(finalized := n.finalized[n.epoch := FinalBlock(n, hash)], phase := Finalized)
    else n
  }

  // ------------------------------------------------- the validator's handlers

  /** validator.py: a valid proposal is pre-voted at once. */
  ghost function HandledProposal(sha3: Sha256, n: Node, p: Proposal): Node {
    var m := ReceivedProposal(sha3, n, p);
    if ProposalOutcome(sha3, n, p).Accepted? then CreatedPreVote(m, ProposalHash(sha3, p)) else m
  }

  /** validator.py: a counted pre-vote may trigger a pre-commit, a counted pre-commit a finalization. */
  ghost function HandledVote(n: Node, v: Vote): Node {
    if v.kind.PreVote? then
      var m := ReceivedPreVote(n, v);
      if PreVoteOutcome(n, v).Accepted? then CreatedPreCommit(m, v.hash) else m
    else
      var m := ReceivedPreCommit(n, v);
      if PreCommitOutcome(n, v).Accepted? then TriedFinalize(m, v.hash) else m
  }
}
