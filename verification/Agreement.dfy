/** Safety of the voting protocol over every run of a network with Byzantine voters. */
module Agreement {
  import opened Wrappers
  import opened ByteStrings
  import opened Sums
  import opened Votes

  // ------------------------------------------------------- quorum arithmetic

  /** Two 67% quorums share at least 34% of the stake. */
  lemma QuorumIntersection(reg: Registry, a: set<Bytes>, b: set<Bytes>)
    requires AtLeast67(StakeSum(reg, a), TotalStake(reg))
    requires AtLeast67(StakeSum(reg, b), TotalStake(reg))
    ensures 100 * StakeSum(reg, a * b) >= 34 * TotalStake(reg)
  {
    SumInclusionExclusion(a, b, StakeOf(reg));
    UnregisteredWeighNothing(reg, a + b);
  }

  lemma UnregisteredWeighNothing(reg: Registry, ids: set<Bytes>)
    ensures StakeSum(reg, ids) == StakeSum(reg, ids * reg.Keys) <= TotalStake(reg)
  {
    var inside, outside := ids * reg.Keys, ids - reg.Keys;
    SumUnion(inside, outside, StakeOf(reg));
    assert inside + outside == ids;
    SumOfZeros(outside, StakeOf(reg));
    SumMonotone(inside, reg.Keys, StakeOf(reg));
  }

  /** No honesty assumed: two finalizing nodes share 34% of the stake among their pre-committers. */
  lemma ConflictNeedsOverlap(a: Node, b: Node, h1: Bytes, h2: Bytes)
    requires a.validators == b.validators
    requires a.totalStake == b.totalStake == TotalStake(a.validators)
    requires Finalizes(a, h1) && Finalizes(b, h2)
    ensures var both := Voters(VotesFor(a.preCommits, h1)) * Voters(VotesFor(b.preCommits, h2));
            100 * StakeSum(a.validators, both) >= 34 * a.totalStake
  {
    QuorumIntersection(a.validators, Voters(VotesFor(a.preCommits, h1)), Voters(VotesFor(b.preCommits, h2)));
  }

  // --------------------------------------------------- one node, one round

  /** Every vote that did not come from the node itself sits under the voter's recorded choice. */
  ghost predicate ChoicesBindPreVotes(n: Node) {
    forall h, k :: h in n.preVotes && 0 <= k < |n.preVotes[h]| && n.preVotes[h][k].voter != n.id ==>
      n.preVotes[h][k].voter in n.preVoteChoices && n.preVoteChoices[n.preVotes[h][k].voter] == h
  }

  /** A node holding less than 34% of the stake never sees two pre-vote quorums in a round. */
  lemma NoTwoPreVoteQuorums(n: Node, h1: Bytes, h2: Bytes)
    requires ChoicesBindPreVotes(n)
    requires n.totalStake == TotalStake(n.validators)
    requires 100 * StakeOf(n.validators)(n.id) < 34 * n.totalStake
    requires PreVoteQuorum(n, h1) && PreVoteQuorum(n, h2)
    ensures h1 == h2
  {
    if h1 != h2 {
      var reg := n.validators;
      var a, b := Voters(VotesFor(n.preVotes, h1)), Voters(VotesFor(n.preVotes, h2));
      forall v | v in a * b ensures v == n.id {
        var k1 :| 0 <= k1 < |VotesFor(n.preVotes, h1)| && VotesFor(n.preVotes, h1)[k1].voter == v;
        var k2 :| 0 <= k2 < |VotesFor(n.preVotes, h2)| && VotesFor(n.preVotes, h2)[k2].voter == v;
        assert n.preVotes[h1][k1].voter == n.preVotes[h2][k2].voter == v;
      }
      SumMonotone(a * b, {n.id}, StakeOf(reg));
      SumRemove({n.id}, n.id, StakeOf(reg));
      assert {n.id} - {n.id} == {};
      QuorumIntersection(reg, a, b);
    }
  }

  lemma PreVoteQuorumGrows(n: Node, v: Vote, h: Bytes, m: Node)
    requires PreVoteQuorum(n, h)
    requires m.preVotes == Append(n.preVotes, v.hash, v)
    requires m.validators == n.validators && m.totalStake == n.totalStake
    ensures PreVoteQuorum(m, h)
  {
    var old', new' := VotesFor(n.preVotes, h), VotesFor(m.preVotes, h);
    forall x | x in Voters(old') ensures x in Voters(new') {
      var k :| 0 <= k < |old'| && old'[k].voter == x;
      assert new'[k] == old'[k];
    }
    SumMonotone(Voters(old'), Voters(new'), StakeOf(n.validators));
  }

  // ------------------------------------------------------------ the network

  /**
   * The honest nodes, the epochs each has started, and two histories:
   * who pre-committed to what in which epoch, and who finalized what.
   * Registered validators that are not in `nodes` are Byzantine.
   */
  datatype Net = Net(
    nodes: map<Bytes, Node>,
    started: map<Bytes, set<nat>>,
    preCommitted: set<(Bytes, nat, Bytes)>,
    finals: set<(Bytes, nat, Bytes)>)

  /** One call on the consensus object of an honest node. */
  datatype Call =
    | StartRound(epoch: nat, round: nat)
    | CreateProposal(measurementRoot: Bytes, transactionRoot: Bytes, stateRoot: Bytes, timestamp: nat)
    | ReceiveProposal(p: Proposal)
    | CreatePreVote(hash: Bytes)
    | ReceivePreVote(v: Vote)
    | CreatePreCommit(hash: Bytes)
    | ReceivePreCommit(v: Vote)
    | TryFinalize(hash: Bytes)

  ghost function After(sha3: Sha256, n: Node, c: Call): Node {
    match c
    case StartRound(e, r) => StartedRound(n, e, r)
    case CreateProposal(m, t, s, time) => Proposed(sha3, n, OwnProposal(n, m, t, s, time))
    case ReceiveProposal(p) => ReceivedProposal(sha3, n, p)
    case CreatePreVote(h) => CreatedPreVote(n, h)
    case ReceivePreVote(v) => ReceivedPreVote(n, v)
    case CreatePreCommit(h) => CreatedPreCommit(n, h)
    case ReceivePreCommit(v) => ReceivedPreCommit(n, v)
    case TryFinalize(h) => TriedFinalize(n, h)
  }

  ghost function AfterAll(sha3: Sha256, n: Node, cs: seq<Call>): Node
    decreases |cs|
  {
    if cs == [] then n else AfterAll(sha3, After(sha3, n, cs[0]), cs[1..])
  }

  /** The calls that the validator's proposal handler makes. */
  ghost function ProposalCalls(sha3: Sha256, n: Node, p: Proposal): seq<Call> {
    if ProposalOutcome(sha3, n, p).Accepted? then [ReceiveProposal(p), CreatePreVote(ProposalHash(sha3, p))]
    else [ReceiveProposal(p)]
  }

  /** The calls that the validator's vote handler makes. */
  ghost function VoteCalls(n: Node, v: Vote): seq<Call> {
    if v.kind.PreVote? then
      if PreVoteOutcome(n, v).Accepted? then [ReceivePreVote(v), CreatePreCommit(v.hash)] else [ReceivePreVote(v)]
    else
      if PreCommitOutcome(n, v).Accepted? then [ReceivePreCommit(v), TryFinalize(v.hash)] else [ReceivePreCommit(v)]
  }

  lemma AfterTwo(sha3: Sha256, n: Node, c: Call, d: Call)
    ensures AfterAll(sha3, n, [c]) == After(sha3, n, c)
    ensures AfterAll(sha3, n, [c, d]) == After(sha3, After(sha3, n, c), d)
  {
    var m := After(sha3, n, c);
    assert [c][1..] == [];
    assert [c, d][1..] == [d];
    assert [d][1..] == [];
    assert AfterAll(sha3, m, [d]) == AfterAll(sha3, After(sha3, m, d), []);
    assert AfterAll(sha3, n, [c, d]) == AfterAll(sha3, m, [d]);
  }

  /** The validator's proposal handler is a sequence of the calls that a run is made of. */
  lemma ProposalHandlerIsCalls(sha3: Sha256, n: Node, p: Proposal)
    ensures HandledProposal(sha3, n, p) == AfterAll(sha3, n, ProposalCalls(sha3, n, p))
  {
    AfterTwo(sha3, n, ReceiveProposal(p), CreatePreVote(ProposalHash(sha3, p)));
  }

  /** So is its vote handler. */
  lemma VoteHandlerIsCalls(sha3: Sha256, n: Node, v: Vote)
    ensures HandledVote(n, v) == AfterAll(sha3, n, VoteCalls(n, v))
  {
    if v.kind.PreVote? {
      AfterTwo(sha3, n, ReceivePreVote(v), CreatePreCommit(v.hash));
    } else {
      AfterTwo(sha3, n, ReceivePreCommit(v), TryFinalize(v.hash));
    }
  }

  /**
   * An epoch is started at most once per node, nothing is voted before the first start, and a
   * pre-commit carrying an honest voter's name was sent by that voter. Pre-votes may be forged.
   */
  ghost predicate Enabled(net: Net, i: Bytes, c: Call) {
    i in net.nodes && i in net.started &&
    match c
    case StartRound(e, _) => e !in net.started[i]
    case ReceivePreCommit(v) =>
      && net.started[i] != {}
      && (v.kind.PreCommit? && v.voter in net.nodes ==> (v.voter, v.epoch, v.hash) in net.preCommitted)
    case _ => net.started[i] != {}
  }

  ghost function Step(sha3: Sha256, net: Net, i: Bytes, c: Call): Net
    requires Enabled(net, i, c)
  {
    var n := net.nodes[i];
    Net(net.nodes[i := After(sha3, n, c)],
        if c.StartRound? then net.started[i := net.started[i] + {c.epoch}] else net.started,
        if c.CreatePreCommit? && PreVoteQuorum(n, c.hash) then net.preCommitted + {(i, n.epoch, c.hash)}
        else net.preCommitted,
        if c.TryFinalize? && Finalizes(n, c.hash) then net.finals + {(i, n.epoch, c.hash)} else net.finals)
  }

  ghost predicate Initial(net: Net, reg: Registry) {
    && net.preCommitted == {} && net.finals == {}
    && net.started.Keys == net.nodes.Keys
    && (forall i :: i in net.nodes ==>
          && net.started[i] == {}
          && net.nodes[i] == Fresh(i, net.nodes[i].stake).(validators := reg, totalStake := TotalStake(reg)))
  }

  ghost predicate IsRun(sha3: Sha256, net: Net, events: seq<(Bytes, Call)>)
    decreases |events|
  {
    events == [] ||
    (Enabled(net, events[0].0, events[0].1) &&
     IsRun(sha3, Step(sha3, net, events[0].0, events[0].1), events[1..]))
  }

  ghost function Reached(sha3: Sha256, net: Net, events: seq<(Bytes, Call)>): Net
    requires IsRun(sha3, net, events)
    decreases |events|
  {
    if events == [] then net
    else Reached(sha3, Step(sha3, net, events[0].0, events[0].1), events[1..])
  }

  // ---------------------------------------------------------- the invariant

  ghost predicate PreCommitsBacked(net: Net, n: Node) {
    forall h, k :: h in n.preCommits && 0 <= k < |n.preCommits[h]| && n.preCommits[h][k].voter in net.nodes ==>
      (n.preCommits[h][k].voter, n.epoch, h) in net.preCommitted
  }

  ghost predicate NamesOk(sha3: Sha256, net: Net, reg: Registry, i: Bytes, n: Node) {
    && n.id == i && n.validators == reg && n.totalStake == TotalStake(reg)
    && (forall h :: h in n.received ==> ProposalHash(sha3, n.received[h]) == h)
    && (forall e :: e in n.finalized ==> (i, e, ProposalHash(sha3, n.finalized[e].proposal)) in net.finals)
  }

  ghost predicate NodeOk(sha3: Sha256, net: Net, reg: Registry, i: Bytes)
    requires i in net.nodes && i in net.started
  {
    var n := net.nodes[i];
    && NamesOk(sha3, net, reg, i, n)
    && (net.started[i] != {} ==> n.epoch in net.started[i] && ChoicesBindPreVotes(n) && PreCommitsBacked(net, n))
  }

  ghost predicate EmissionsOk(net: Net) {
    forall i, e, h :: (i, e, h) in net.preCommitted ==>
      && i in net.nodes && i in net.started && e in net.started[i]
      && (e == net.nodes[i].epoch ==> PreVoteQuorum(net.nodes[i], h))
  }

  ghost predicate OnePreCommitPerEpoch(net: Net) {
    forall i, e, h1, h2 :: (i, e, h1) in net.preCommitted && (i, e, h2) in net.preCommitted ==> h1 == h2
  }

  ghost predicate BackedQuorum(net: Net, reg: Registry, q: set<Bytes>, e: nat, h: Bytes) {
    && AtLeast67(StakeSum(reg, q), TotalStake(reg))
    && (forall v :: v in q && v in net.nodes ==> (v, e, h) in net.preCommitted)
  }

  ghost predicate FinalsOk(net: Net, reg: Registry) {
    forall i, e, h :: (i, e, h) in net.finals ==> exists q :: BackedQuorum(net, reg, q, e, h)
  }

  ghost predicate Inv(sha3: Sha256, net: Net, reg: Registry) {
    && net.started.Keys == net.nodes.Keys
    && (forall i :: i in net.nodes ==> NodeOk(sha3, net, reg, i))
    && EmissionsOk(net)
    && OnePreCommitPerEpoch(net)
    && FinalsOk(net, reg)
  }

  /** Every honest node's own registered stake is under 34%. */
  ghost predicate SmallHolders(net: Net, reg: Registry) {
    forall i :: i in net.nodes ==> 100 * StakeOf(reg)(i) < 34 * TotalStake(reg)
  }

  lemma InitialInv(sha3: Sha256, net: Net, reg: Registry)
    requires Initial(net, reg)
    ensures Inv(sha3, net, reg)
  {
  }

  lemma AppendKeepsChoices(n: Node, m: Node, h: Bytes, v: Vote)
    requires ChoicesBindPreVotes(n)
    requires m.id == n.id && m.preVotes == Append(n.preVotes, h, v)
    requires forall w :: w in n.preVoteChoices ==> w in m.preVoteChoices && m.preVoteChoices[w] == n.preVoteChoices[w]
    requires v.voter != n.id ==> v.voter in m.preVoteChoices && m.preVoteChoices[v.voter] == h
    ensures ChoicesBindPreVotes(m)
  {
    forall g, k | g in m.preVotes && 0 <= k < |m.preVotes[g]| && m.preVotes[g][k].voter != m.id
      ensures m.preVotes[g][k].voter in m.preVoteChoices && m.preVoteChoices[m.preVotes[g][k].voter] == g
    {
      if g in n.preVotes && k < |n.preVotes[g]| {
        assert m.preVotes[g][k] == n.preVotes[g][k];
      }
    }
  }

  ghost predicate SamePreVotes(n: Node, m: Node) {
    && m.preVotes == n.preVotes && m.preVoteChoices == n.preVoteChoices && m.id == n.id
    && m.validators == n.validators && m.totalStake == n.totalStake
  }

  lemma ProposalsKeepPreVotes(sha3: Sha256, n: Node, c: Call)
    requires c.CreateProposal? || c.ReceiveProposal?
    ensures SamePreVotes(n, After(sha3, n, c))
  {
  }

  lemma PreCommitsKeepPreVotes(sha3: Sha256, n: Node, c: Call)
    requires c.CreatePreCommit? || c.ReceivePreCommit? || c.TryFinalize?
    ensures SamePreVotes(n, After(sha3, n, c))
  {
  }

  /** Only the two pre-vote operations and a new round touch the pre-vote tables. */
  lemma OtherCallsKeepPreVotes(sha3: Sha256, n: Node, c: Call)
    requires !c.StartRound? && !c.CreatePreVote?
    requires c.ReceivePreVote? ==> !PreVoteOutcome(n, c.v).Accepted?
    ensures SamePreVotes(n, After(sha3, n, c))
  {
    if c.CreateProposal? || c.ReceiveProposal? {
      ProposalsKeepPreVotes(sha3, n, c);
    } else if !c.ReceivePreVote? {
      PreCommitsKeepPreVotes(sha3, n, c);
    }
  }

  lemma CallKeepsChoices(sha3: Sha256, n: Node, c: Call)
    requires ChoicesBindPreVotes(n) && !c.StartRound?
    ensures ChoicesBindPreVotes(After(sha3, n, c))
  {
    var m := After(sha3, n, c);
    if c.CreatePreVote? {
      AppendKeepsChoices(n, m, c.hash, OwnVote(n, c.hash, PreVote));
    } else if c.ReceivePreVote? && PreVoteOutcome(n, c.v).Accepted? {
      AppendKeepsChoices(n, m, c.v.hash, c.v.(stake := n.validators[c.v.voter]));
    } else {
      OtherCallsKeepPreVotes(sha3, n, c);
    }
  }

  lemma AppendKeepsBacking(net: Net, net': Net, n: Node, m: Node, h: Bytes, v: Vote)
    requires PreCommitsBacked(net, n)
    requires net'.nodes.Keys == net.nodes.Keys && net.preCommitted <= net'.preCommitted
    requires m.epoch == n.epoch && m.preCommits == Append(n.preCommits, h, v)
    requires v.voter in net.nodes ==> (v.voter, n.epoch, h) in net'.preCommitted
    ensures PreCommitsBacked(net', m)
  {
    forall g, k | g in m.preCommits && 0 <= k < |m.preCommits[g]| && m.preCommits[g][k].voter in net'.nodes
      ensures (m.preCommits[g][k].voter, m.epoch, g) in net'.preCommitted
    {
      if g in n.preCommits && k < |n.preCommits[g]| {
        assert m.preCommits[g][k] == n.preCommits[g][k];
      }
    }
  }

  lemma CallKeepsBacking(sha3: Sha256, net: Net, reg: Registry, i: Bytes, c: Call)
    requires Enabled(net, i, c) && !c.StartRound?
    requires net.nodes[i].id == i
    requires PreCommitsBacked(net, net.nodes[i])
    ensures PreCommitsBacked(Step(sha3, net, i, c), After(sha3, net.nodes[i], c))
  {
    var n := net.nodes[i];
    var m := After(sha3, n, c);
    var net' := Step(sha3, net, i, c);
    assert net'.nodes.Keys == net.nodes.Keys;
    if c.CreatePreCommit? && PreVoteQuorum(n, c.hash) {
      AppendKeepsBacking(net, net', n, m, c.hash, OwnVote(n, c.hash, PreCommit));
    } else if c.ReceivePreCommit? && PreCommitOutcome(n, c.v).Accepted? {
      AppendKeepsBacking(net, net', n, m, c.v.hash, c.v.(stake := n.validators[c.v.voter]));
    } else {
      assert m.preCommits == n.preCommits && m.epoch == n.epoch && net.preCommitted <= net'.preCommitted;
    }
  }

  lemma StartClearsTables(sha3: Sha256, net: Net, n: Node, epoch: nat, round: nat)
    ensures ChoicesBindPreVotes(StartedRound(n, epoch, round))
    ensures PreCommitsBacked(net, StartedRound(n, epoch, round))
  {
  }

  lemma CallKeepsNames(sha3: Sha256, net: Net, reg: Registry, i: Bytes, c: Call)
    requires Enabled(net, i, c) && NamesOk(sha3, net, reg, i, net.nodes[i])
    ensures NamesOk(sha3, Step(sha3, net, i, c), reg, i, After(sha3, net.nodes[i], c))
  {
  }

  lemma StepKeepsNode(sha3: Sha256, net: Net, reg: Registry, i: Bytes, c: Call)
    requires Inv(sha3, net, reg) && Enabled(net, i, c)
    ensures NodeOk(sha3, Step(sha3, net, i, c), reg, i)
  {
    var n := net.nodes[i];
    assert NodeOk(sha3, net, reg, i);
    CallKeepsNames(sha3, net, reg, i, c);
    if c.StartRound? {
      StartClearsTables(sha3, Step(sha3, net, i, c), n, c.epoch, c.round);
    } else {
      CallKeepsChoices(sha3, n, c);
      CallKeepsBacking(sha3, net, reg, i, c);
      assert After(sha3, n, c).epoch == n.epoch;
    }
  }

  lemma StepKeepsOthers(sha3: Sha256, net: Net, reg: Registry, i: Bytes, c: Call, j: Bytes)
    requires Inv(sha3, net, reg) && Enabled(net, i, c)
    requires j in net.nodes && j != i
    ensures NodeOk(sha3, Step(sha3, net, i, c), reg, j)
  {
    var net' := Step(sha3, net, i, c);
    assert NodeOk(sha3, net, reg, j);
    assert net'.nodes.Keys == net.nodes.Keys;
    assert net'.nodes[j] == net.nodes[j];
  }

  lemma CallKeepsQuorum(sha3: Sha256, n: Node, c: Call, h: Bytes)
    requires PreVoteQuorum(n, h) && !c.StartRound?
    ensures PreVoteQuorum(After(sha3, n, c), h)
  {
    var m := After(sha3, n, c);
    if c.CreatePreVote? {
      PreVoteQuorumGrows(n, OwnVote(n, c.hash, PreVote), h, m);
    } else if c.ReceivePreVote? && PreVoteOutcome(n, c.v).Accepted? {
      PreVoteQuorumGrows(n, c.v.(stake := n.validators[c.v.voter]), h, m);
    } else {
      OtherCallsKeepPreVotes(sha3, n, c);
    }
  }

  lemma StepKeepsEmissions(sha3: Sha256, net: Net, reg: Registry, i: Bytes, c: Call)
    requires Inv(sha3, net, reg) && Enabled(net, i, c)
    ensures EmissionsOk(Step(sha3, net, i, c))
  {
    var n := net.nodes[i];
    assert NodeOk(sha3, net, reg, i);
    var net' := Step(sha3, net, i, c);
    assert !c.StartRound? ==> net'.nodes[i].epoch == n.epoch;
    forall j, e, h | (j, e, h) in net'.preCommitted
      ensures j in net'.nodes && j in net'.started && e in net'.started[j]
      ensures e == net'.nodes[j].epoch ==> PreVoteQuorum(net'.nodes[j], h)
    {
      if j == i && !c.StartRound? && e == n.epoch {
        assert PreVoteQuorum(n, h);
        CallKeepsQuorum(sha3, n, c, h);
      }
    }
  }

  lemma StepKeepsUniqueness(sha3: Sha256, net: Net, reg: Registry, i: Bytes, c: Call)
    requires Inv(sha3, net, reg) && Enabled(net, i, c) && SmallHolders(net, reg)
    ensures OnePreCommitPerEpoch(Step(sha3, net, i, c))
  {
    var n := net.nodes[i];
    var net' := Step(sha3, net, i, c);
    if c.CreatePreCommit? && PreVoteQuorum(n, c.hash) {
      forall h | (i, n.epoch, h) in net.preCommitted ensures h == c.hash {
        assert NodeOk(sha3, net, reg, i);
        NoTwoPreVoteQuorums(n, h, c.hash);
      }
    }
  }

  lemma StepKeepsFinals(sha3: Sha256, net: Net, reg: Registry, i: Bytes, c: Call)
    requires Inv(sha3, net, reg) && Enabled(net, i, c)
    ensures FinalsOk(Step(sha3, net, i, c), reg)
  {
    var n := net.nodes[i];
    var net' := Step(sha3, net, i, c);
    assert net'.nodes.Keys == net.nodes.Keys;
    forall j, e, h | (j, e, h) in net'.finals
      ensures exists q :: BackedQuorum(net', reg, q, e, h)
    {
      if (j, e, h) in net.finals {
        var q :| BackedQuorum(net, reg, q, e, h);
        assert BackedQuorum(net', reg, q, e, h);
      } else {
        assert NodeOk(sha3, net, reg, i);
        var votes := VotesFor(n.preCommits, h);
        var q := Voters(votes);
        forall v | v in q && v in net'.nodes ensures (v, e, h) in net'.preCommitted {
          var k :| 0 <= k < |votes| && votes[k].voter == v;
          assert n.preCommits[h][k].voter in net.nodes;
        }
        assert BackedQuorum(net', reg, q, e, h);
      }
    }
  }

  lemma StepKeepsHonest(sha3: Sha256, net: Net, i: Bytes, c: Call)
    requires Enabled(net, i, c) && net.started.Keys == net.nodes.Keys
    ensures Step(sha3, net, i, c).nodes.Keys == net.nodes.Keys == Step(sha3, net, i, c).started.Keys == net.started.Keys
  {
  }

  lemma StepKeepsInv(sha3: Sha256, net: Net, reg: Registry, i: Bytes, c: Call)
    requires Inv(sha3, net, reg) && Enabled(net, i, c) && SmallHolders(net, reg)
    ensures Inv(sha3, Step(sha3, net, i, c), reg) && SmallHolders(Step(sha3, net, i, c), reg)
    ensures Step(sha3, net, i, c).nodes.Keys == net.nodes.Keys
  {
    StepKeepsHonest(sha3, net, i, c);
    StepKeepsNode(sha3, net, reg, i, c);
    forall j | j in net.nodes && j != i ensures NodeOk(sha3, Step(sha3, net, i, c), reg, j) {
      StepKeepsOthers(sha3, net, reg, i, c, j);
    }
    StepKeepsEmissions(sha3, net, reg, i, c);
    StepKeepsUniqueness(sha3, net, reg, i, c);
    StepKeepsFinals(sha3, net, reg, i, c);
  }

  lemma {:induction false} RunKeepsInv(sha3: Sha256, net: Net, reg: Registry, events: seq<(Bytes, Call)>)
    requires Inv(sha3, net, reg) && SmallHolders(net, reg) && IsRun(sha3, net, events)
    ensures Inv(sha3, Reached(sha3, net, events), reg)
    ensures Reached(sha3, net, events).nodes.Keys == net.nodes.Keys
    decreases |events|
  {
    if events != [] {
      StepKeepsInv(sha3, net, reg, events[0].0, events[0].1);
      RunKeepsInv(sha3, Step(sha3, net, events[0].0, events[0].1), reg, events[1..]);
    }
  }

  // --------------------------------------------------------- main theorems

  /** No honest node ever pre-commits to two hashes in one epoch. */
  lemma HonestNodesPreCommitOnce(sha3: Sha256, net: Net, reg: Registry, events: seq<(Bytes, Call)>,
                                 i: Bytes, e: nat, h1: Bytes, h2: Bytes)
    requires Initial(net, reg) && SmallHolders(net, reg) && IsRun(sha3, net, events)
    requires (i, e, h1) in Reached(sha3, net, events).preCommitted
    requires (i, e, h2) in Reached(sha3, net, events).preCommitted
    ensures h1 == h2
  {
    InitialInv(sha3, net, reg);
    RunKeepsInv(sha3, net, reg, events);
  }

  /** The Byzantine validators hold less than 34% of the stake. */
  ghost predicate ByzantineMinority(net: Net, reg: Registry) {
    100 * StakeSum(reg, reg.Keys - net.nodes.Keys) < 34 * TotalStake(reg)
  }

  /** The honest holders of two backed quorums for an epoch overlap unless the hashes agree. */
  lemma BackedQuorumsAgree(net: Net, reg: Registry, a: set<Bytes>, b: set<Bytes>, e: nat, h1: Bytes, h2: Bytes)
    requires OnePreCommitPerEpoch(net) && ByzantineMinority(net, reg)
    requires BackedQuorum(net, reg, a, e, h1) && BackedQuorum(net, reg, b, e, h2)
    ensures h1 == h2
  {
    QuorumIntersection(reg, a, b);
    if v :| v in a * b * net.nodes.Keys {
      assert (v, e, h1) in net.preCommitted && (v, e, h2) in net.preCommitted;
    } else {
      assert a * b * net.nodes.Keys == {};
      forall v | v in a * b * reg.Keys ensures v in reg.Keys - net.nodes.Keys {
        assert v !in a * b * net.nodes.Keys;
      }
      UnregisteredWeighNothing(reg, a * b);
      SumMonotone(a * b * reg.Keys, reg.Keys - net.nodes.Keys, StakeOf(reg));
    }
  }

  /** Agreement: all finalizations of an epoch, by whichever honest nodes, are of one hash. */
  lemma FinalizationsAgree(sha3: Sha256, net: Net, reg: Registry, events: seq<(Bytes, Call)>,
                           i: Bytes, j: Bytes, e: nat, h1: Bytes, h2: Bytes)
    requires Initial(net, reg) && SmallHolders(net, reg) && ByzantineMinority(net, reg)
    requires IsRun(sha3, net, events)
    requires (i, e, h1) in Reached(sha3, net, events).finals
    requires (j, e, h2) in Reached(sha3, net, events).finals
    ensures h1 == h2
  {
    InitialInv(sha3, net, reg);
    RunKeepsInv(sha3, net, reg, events);
    var last := Reached(sha3, net, events);
    var a :| BackedQuorum(last, reg, a, e, h1);
    var b :| BackedQuorum(last, reg, b, e, h2);
    BackedQuorumsAgree(last, reg, a, b, e, h1, h2);
  }

  /** The blocks that honest nodes record for an epoch carry the same proposal hash. */
  lemma RecordedBlocksAgree(sha3: Sha256, net: Net, reg: Registry, events: seq<(Bytes, Call)>,
                            i: Bytes, j: Bytes, e: nat)
    requires Initial(net, reg) && SmallHolders(net, reg) && ByzantineMinority(net, reg)
    requires IsRun(sha3, net, events)
    requires var last := Reached(sha3, net, events);
             && i in last.nodes && e in last.nodes[i].finalized
             && j in last.nodes && e in last.nodes[j].finalized
    ensures var last := Reached(sha3, net, events);
            ProposalHash(sha3, last.nodes[i].finalized[e].proposal)
            == ProposalHash(sha3, last.nodes[j].finalized[e].proposal)
  {
    InitialInv(sha3, net, reg);
    RunKeepsInv(sha3, net, reg, events);
    var last := Reached(sha3, net, events);
    assert NodeOk(sha3, last, reg, i) && NodeOk(sha3, last, reg, j);
    FinalizationsAgree(sha3, net, reg, events, i, j, e,
                       ProposalHash(sha3, last.nodes[i].finalized[e].proposal),
                       ProposalHash(sha3, last.nodes[j].finalized[e].proposal));
  }

  // ------------------------------------------- the own-stake bound is needed

  /** A registry of three with stakes 34, 33 and 33. */
  function ThreeHolders(id: Bytes, b: Bytes, c: Bytes): Registry {
    map[id := 34, b := 33, c := 33]
  }

  lemma ThreeHoldersStake(id: Bytes, b: Bytes, c: Bytes)
    requires id != b && id != c && b != c
    ensures var reg := ThreeHolders(id, b, c);
            TotalStake(reg) == 100 && StakeSum(reg, {id, b}) == 67 && StakeSum(reg, {id, c}) == 67
  {
    var f := StakeOf(ThreeHolders(id, b, c));
    var empty: set<Bytes> := {};
    assert Sum(empty, f) == 0;
    SumAdd(empty, b, f);
    SumAdd(empty, c, f);
    SumAdd(empty + {b}, id, f);
    SumAdd(empty + {c}, id, f);
    SumAdd(empty + {b} + {id}, c, f);
    assert empty + {b} + {id} == {id, b} && empty + {c} + {id} == {id, c};
    assert {id, b} + {c} == ThreeHolders(id, b, c).Keys;
  }

  /** The calls by which the 34% holder votes for both hashes and hears one other vote for each. */
  function SplitVoteCalls(b: Bytes, c: Bytes, h1: Bytes, h2: Bytes): seq<Call> {
    [CreatePreVote(h1), CreatePreVote(h2), ReceivePreVote(Vote(b, 0, 0, h1, PreVote, 33)),
     ReceivePreVote(Vote(c, 0, 0, h2, PreVote, 33))]
  }

  /** Two pre-votes of a node's own, then one counted pre-vote for each of the two hashes. */
  lemma FourPreVotes(n: Node, h1: Bytes, h2: Bytes, vb: Vote, vc: Vote)
    requires n.preVotes == map[] && h1 != h2 && vb.hash == h1 && vc.hash == h2
    requires var m := CreatedPreVote(CreatedPreVote(n, h1), h2);
             PreVoteOutcome(m, vb).Accepted? && PreVoteOutcome(ReceivedPreVote(m, vb), vc).Accepted?
    ensures var m := ReceivedPreVote(ReceivedPreVote(CreatedPreVote(CreatedPreVote(n, h1), h2), vb), vc);
            && m.validators == n.validators && m.totalStake == n.totalStake
            && Voters(VotesFor(m.preVotes, h1)) == {n.id, vb.voter}
            && Voters(VotesFor(m.preVotes, h2)) == {n.id, vc.voter}
  {
    var m := ReceivedPreVote(ReceivedPreVote(CreatedPreVote(CreatedPreVote(n, h1), h2), vb), vc);
    var o1, o2 := OwnVote(n, h1, PreVote), OwnVote(n, h2, PreVote);
    var r1, r2 := vb.(stake := n.validators[vb.voter]), vc.(stake := n.validators[vc.voter]);
    assert m.preVotes[h1] == [o1] + [r1];
    assert m.preVotes[h2] == [o2] + [r2];
    PairVoters(o1, r1);
    PairVoters(o2, r2);
  }

  lemma SplitVoteTables(sha3: Sha256, start: Node, id: Bytes, b: Bytes, c: Bytes, h1: Bytes, h2: Bytes)
    requires id != b && id != c && b != c && h1 != h2
    requires start == Fresh(id, 34).(validators := ThreeHolders(id, b, c), totalStake := 100)
    ensures var n := AfterAll(sha3, start, SplitVoteCalls(b, c, h1, h2));
            && n.validators == start.validators && n.totalStake == 100
            && Voters(VotesFor(n.preVotes, h1)) == {id, b} && Voters(VotesFor(n.preVotes, h2)) == {id, c}
  {
    var vb, vc := Vote(b, 0, 0, h1, PreVote, 33), Vote(c, 0, 0, h2, PreVote, 33);
    FourPreVotes(start, h1, h2, vb, vc);
    SplitVoteRun(sha3, start, b, c, h1, h2);
  }

  lemma SplitVoteRun(sha3: Sha256, start: Node, b: Bytes, c: Bytes, h1: Bytes, h2: Bytes)
    ensures AfterAll(sha3, start, SplitVoteCalls(b, c, h1, h2))
         == ReceivedPreVote(ReceivedPreVote(CreatedPreVote(CreatedPreVote(start, h1), h2),
              Vote(b, 0, 0, h1, PreVote, 33)), Vote(c, 0, 0, h2, PreVote, 33))
  {
    var vb, vc := Vote(b, 0, 0, h1, PreVote, 33), Vote(c, 0, 0, h2, PreVote, 33);
    var own, others := [CreatePreVote(h1), CreatePreVote(h2)], [ReceivePreVote(vb), ReceivePreVote(vc)];
    AfterTwo(sha3, start, own[0], own[1]);
    AfterTwo(sha3, AfterAll(sha3, start, own), others[0], others[1]);
    AfterConcat(sha3, start, own, others);
    assert SplitVoteCalls(b, c, h1, h2) == own + others;
  }

  lemma PairVoters(u: Vote, v: Vote)
    ensures Voters([u, v]) == {u.voter, v.voter}
  {
    assert u in [u, v] && v in [u, v];
  }

  /**
   * A node holding exactly 34% does see two quorums: its own pre-votes skip the choice map, so they
   * count for both hashes, next to 33% of other stake each.
   */
  lemma OwnStakeOf34SeesTwoQuorums(sha3: Sha256, start: Node, id: Bytes, b: Bytes, c: Bytes, h1: Bytes, h2: Bytes)
    requires id != b && id != c && b != c && h1 != h2
    requires start == Fresh(id, 34).(validators := ThreeHolders(id, b, c), totalStake := 100)
    ensures var n := AfterAll(sha3, start, SplitVoteCalls(b, c, h1, h2));
            n.totalStake == TotalStake(n.validators) && PreVoteQuorum(n, h1) && PreVoteQuorum(n, h2)
  {
    ThreeHoldersStake(id, b, c);
    SplitVoteTables(sha3, start, id, b, c, h1, h2);
  }

  lemma {:induction false} AfterConcat(sha3: Sha256, n: Node, a: seq<Call>, b: seq<Call>)
    ensures AfterAll(sha3, n, a + b) == AfterAll(sha3, AfterAll(sha3, n, a), b)
    decreases |a|
  {
    if a == [] {
      assert a + b == b;
    } else {
      assert (a + b)[1..] == a[1..] + b;
      AfterConcat(sha3, After(sha3, n, a[0]), a[1..], b);
    }
  }
}
