/** Both bounds of agreement are sharp: at 34% two honest nodes can finalize different proposals for one epoch. */
module Disagreement {
  import opened ByteStrings
  import opened Sums
  import opened Votes
  import opened Agreement

  // ------------------------------------------------------------- single nodes

  /** A node in round 0 of an epoch, and whose pre-votes and pre-commits it has counted for others. */
  datatype Book = Book(id: Bytes, reg: Registry, epoch: nat, heard: set<Bytes>, heardCommits: set<Bytes>)

  /** What a node has for one hash: perhaps the proposal, and the voters counted. */
  datatype Tally = Tally(known: bool, pre: set<Bytes>, com: set<Bytes>)

  ghost predicate Keeps(n: Node, k: Book) {
    && n.id == k.id && n.validators == k.reg && n.totalStake == TotalStake(k.reg) && n.epoch == k.epoch && n.round == 0
    && n.preVoteChoices.Keys == k.heard && n.preCommitChoices.Keys == k.heardCommits
  }

  ghost predicate Counts(n: Node, h: Bytes, t: Tally) {
    && (t.known ==> h in n.received)
    && Voters(VotesFor(n.preVotes, h)) == t.pre && Voters(VotesFor(n.preCommits, h)) == t.com
  }

  /** The node's book, and its tallies for two hashes. */
  ghost predicate Holds(n: Node, k: Book, h: Bytes, t: Tally, g: Bytes, u: Tally) {
    h != g && forall x :: x == h || x == g ==> HoldsFor(n, k, h, t, u, x)
  }

  ghost predicate HoldsFor(n: Node, k: Book, h: Bytes, t: Tally, u: Tally, x: Bytes) {
    Keeps(n, k) && Counts(n, x, if x == h then t else u)
  }

  lemma Holding(n: Node, k: Book, h: Bytes, t: Tally, g: Bytes, u: Tally)
    ensures Holds(n, k, h, t, g, u) <==> h != g && Keeps(n, k) && Counts(n, h, t) && Counts(n, g, u)
  {
    if Holds(n, k, h, t, g, u) {
      assert HoldsFor(n, k, h, t, u, h) && HoldsFor(n, k, h, t, u, g);
    }
  }

  const NOTHING := Tally(false, {}, {})

  lemma OneMoreVoter(votes: seq<Vote>, v: Vote)
    ensures Voters(votes + [v]) == Voters(votes) + {v.voter}
  {
    assert forall u :: u in votes + [v] <==> u in votes || u == v;
  }

  lemma Starts(n: Node, reg: Registry, epoch: nat, h: Bytes, g: Bytes)
    requires n.validators == reg && n.totalStake == TotalStake(reg) && h != g
    ensures Holds(StartedRound(n, epoch, 0), Book(n.id, reg, epoch, {}, {}), h, NOTHING, g, NOTHING)
  {
    Holding(StartedRound(n, epoch, 0), Book(n.id, reg, epoch, {}, {}), h, NOTHING, g, NOTHING);
  }

  lemma Learns(sha3: Sha256, n: Node, p: Proposal, k: Book, t: Tally, g: Bytes, u: Tally)
    requires Holds(n, k, ProposalHash(sha3, p), t, g, u) && ProposalOutcome(sha3, n, p).Accepted?
    ensures Holds(ReceivedProposal(sha3, n, p), k, ProposalHash(sha3, p), t.(known := true), g, u)
  {
    Holding(n, k, ProposalHash(sha3, p), t, g, u);
    Holding(ReceivedProposal(sha3, n, p), k, ProposalHash(sha3, p), t.(known := true), g, u);
  }

  lemma PreVotes(n: Node, k: Book, h: Bytes, t: Tally, g: Bytes, u: Tally)
    requires Holds(n, k, h, t, g, u)
    ensures Holds(CreatedPreVote(n, h), k, h, t.(pre := t.pre + {k.id}), g, u)
  {
    OneMoreVoter(VotesFor(n.preVotes, h), OwnVote(n, h, PreVote));
    Holding(n, k, h, t, g, u);
    Holding(CreatedPreVote(n, h), k, h, t.(pre := t.pre + {k.id}), g, u);
  }

  lemma HearsPreVote(n: Node, v: Vote, k: Book, t: Tally, g: Bytes, u: Tally)
    requires Holds(n, k, v.hash, t, g, u) && v.kind == PreVote && v.epoch == k.epoch && v.voter in k.reg && v.voter !in k.heard
    ensures Holds(ReceivedPreVote(n, v), k.(heard := k.heard + {v.voter}), v.hash, t.(pre := t.pre + {v.voter}), g, u)
  {
    OneMoreVoter(VotesFor(n.preVotes, v.hash), v.(stake := k.reg[v.voter]));
    Holding(n, k, v.hash, t, g, u);
    Holding(ReceivedPreVote(n, v), k.(heard := k.heard + {v.voter}), v.hash, t.(pre := t.pre + {v.voter}), g, u);
  }

  lemma PreCommits(n: Node, k: Book, h: Bytes, t: Tally, g: Bytes, u: Tally)
    requires Holds(n, k, h, t, g, u) && AtLeast67(StakeSum(k.reg, t.pre), TotalStake(k.reg))
    ensures PreVoteQuorum(n, h) && Holds(CreatedPreCommit(n, h), k, h, t.(com := t.com + {k.id}), g, u)
  {
    OneMoreVoter(VotesFor(n.preCommits, h), OwnVote(n, h, PreCommit));
    Holding(n, k, h, t, g, u);
    Holding(CreatedPreCommit(n, h), k, h, t.(com := t.com + {k.id}), g, u);
  }

  lemma HearsPreCommit(n: Node, v: Vote, k: Book, t: Tally, g: Bytes, u: Tally)
    requires Holds(n, k, v.hash, t, g, u) && v.kind == PreCommit && v.epoch == k.epoch && v.voter in k.reg && v.voter !in k.heardCommits
    ensures Holds(ReceivedPreCommit(n, v), k.(heardCommits := k.heardCommits + {v.voter}), v.hash, t.(com := t.com + {v.voter}), g, u)
  {
    OneMoreVoter(VotesFor(n.preCommits, v.hash), v.(stake := k.reg[v.voter]));
    Holding(n, k, v.hash, t, g, u);
    Holding(ReceivedPreCommit(n, v), k.(heardCommits := k.heardCommits + {v.voter}), v.hash, t.(com := t.com + {v.voter}), g, u);
  }

  lemma CanFinalize(n: Node, k: Book, h: Bytes, t: Tally, g: Bytes, u: Tally)
    requires Holds(n, k, h, t, g, u) && t.known && AtLeast67(StakeSum(k.reg, t.com), TotalStake(k.reg))
    ensures Finalizes(n, h)
  {
    Holding(n, k, h, t, g, u);
  }

  // --------------------------------------------------------------------- runs

  ghost predicate Leads(sha3: Sha256, start: Net, events: seq<(Bytes, Call)>, net: Net) {
    IsRun(sha3, start, events) && Reached(sha3, start, events) == net
  }

  lemma LeadsFrom(sha3: Sha256, start: Net, j: Bytes, d: Call, rest: seq<(Bytes, Call)>, net: Net)
    requires Enabled(start, j, d) && Leads(sha3, Step(sha3, start, j, d), rest, net)
    ensures Leads(sha3, start, [(j, d)] + rest, net)
  {
    assert ([(j, d)] + rest)[1..] == rest;
  }

  /** A run can be extended by any call that is enabled at its end. */
  lemma {:induction false} LeadsOn(sha3: Sha256, start: Net, events: seq<(Bytes, Call)>, net: Net, i: Bytes, c: Call)
    requires Leads(sha3, start, events, net) && Enabled(net, i, c)
    ensures Leads(sha3, start, events + [(i, c)], Step(sha3, net, i, c))
    decreases |events|
  {
    if events == [] {
      LeadsFrom(sha3, start, i, c, [], Step(sha3, net, i, c));
      assert events + [(i, c)] == [(i, c)] + [];
    } else {
      var (j, d) := events[0];
      LeadsOn(sha3, Step(sha3, start, j, d), events[1..], net, i, c);
      LeadsFrom(sha3, start, j, d, events[1..] + [(i, c)], Step(sha3, net, i, c));
      assert events + [(i, c)] == [(j, d)] + (events[1..] + [(i, c)]);
    }
  }

  /** Two honest nodes i and j that have both started the epoch. */
  ghost predicate Running(net: Net, i: Bytes, j: Bytes, ni: Node, nj: Node) {
    && net.nodes.Keys == net.started.Keys == {i, j} && net.nodes[i] == ni && net.nodes[j] == nj
    && net.started[i] != {} && net.started[j] != {}
  }

  /** The network at the end of a run, with the node that acts next and the other one. */
  datatype Scene = Scene(net: Net, actor: Node, other: Node)

  ghost predicate IsScene(sha3: Sha256, start: Net, i: Bytes, j: Bytes, s: Scene) {
    i != j && Running(s.net, i, j, s.actor, s.other) && exists events :: Leads(sha3, start, events, s.net)
  }

  /** The same network when it is the other node's turn. */
  function Turned(s: Scene): Scene {
    Scene(s.net, s.other, s.actor)
  }

  lemma TurnedIsScene(sha3: Sha256, start: Net, i: Bytes, j: Bytes, s: Scene)
    requires IsScene(sha3, start, i, j, s)
    ensures IsScene(sha3, start, j, i, Turned(s))
  {
    var events :| Leads(sha3, start, events, s.net);
  }

  ghost predicate Grows(before: Net, after: Net) {
    before.preCommitted <= after.preCommitted && before.finals <= after.finals
  }

  /** What a call adds to the histories of the network. */
  ghost predicate Records(n: Node, i: Bytes, c: Call, after: Net) {
    && (c.CreatePreCommit? && PreVoteQuorum(n, c.hash) ==> (i, n.epoch, c.hash) in after.preCommitted)
    && (c.TryFinalize? && Finalizes(n, c.hash) ==> (i, n.epoch, c.hash) in after.finals)
  }

  ghost predicate MayReceive(net: Net, i: Bytes, j: Bytes, c: Call) {
    !c.StartRound? && (c.ReceivePreCommit? && c.v.voter in {i, j} ==> (c.v.voter, c.v.epoch, c.v.hash) in net.preCommitted)
  }

  lemma MayStep(net: Net, i: Bytes, j: Bytes, ni: Node, nj: Node, c: Call)
    requires i != j && Running(net, i, j, ni, nj) && MayReceive(net, i, j, c)
    ensures Enabled(net, i, c)
  {
  }

  lemma StepAdds(sha3: Sha256, net: Net, i: Bytes, c: Call)
    requires Enabled(net, i, c)
    ensures Grows(net, Step(sha3, net, i, c)) && Records(net.nodes[i], i, c, Step(sha3, net, i, c))
  {
  }

  lemma StepMoves(sha3: Sha256, net: Net, i: Bytes, j: Bytes, ni: Node, nj: Node, c: Call)
    requires i != j && Running(net, i, j, ni, nj) && Enabled(net, i, c) && !c.StartRound?
    ensures Running(Step(sha3, net, i, c), i, j, After(sha3, ni, c), nj)
  {
  }

  lemma Acts(sha3: Sha256, start: Net, i: Bytes, j: Bytes, s: Scene, c: Call) returns (t: Scene)
    requires IsScene(sha3, start, i, j, s) && MayReceive(s.net, i, j, c)
    ensures IsScene(sha3, start, i, j, t) && t.actor == After(sha3, s.actor, c) && t.other == s.other
    ensures Grows(s.net, t.net) && Records(s.actor, i, c, t.net)
  {
    MayStep(s.net, i, j, s.actor, s.other, c);
    StepAdds(sha3, s.net, i, c);
    StepMoves(sha3, s.net, i, j, s.actor, s.other, c);
    var events :| Leads(sha3, start, events, s.net);
    LeadsOn(sha3, start, events, s.net, i, c);
    t := Scene(Step(sha3, s.net, i, c), After(sha3, s.actor, c), s.other);
  }

  // ---------------------------------------------------------------- the start

  ghost function StartNode(id: Bytes, reg: Registry): Node
    requires id in reg
  {
    Fresh(id, reg[id]).(validators := reg, totalStake := TotalStake(reg))
  }

  /** The first two validators are honest, whoever else is registered. */
  ghost function StartNet(a: Bytes, b: Bytes, reg: Registry): Net
    requires a in reg && b in reg
  {
    Net(map[a := StartNode(a, reg), b := StartNode(b, reg)], map[a := {}, b := {}], {}, {})
  }

  lemma StartEvent(sha3: Sha256, start: Net, events: seq<(Bytes, Call)>, net: Net, i: Bytes, e: nat) returns (next: Net)
    requires Leads(sha3, start, events, net) && i in net.nodes && i in net.started && net.started[i] == {}
    ensures Leads(sha3, start, events + [(i, StartRound(e, 0))], next)
    ensures next.nodes == net.nodes[i := StartedRound(net.nodes[i], e, 0)] && next.started == net.started[i := net.started[i] + {e}]
  {
    LeadsOn(sha3, start, events, net, i, StartRound(e, 0));
    next := Step(sha3, net, i, StartRound(e, 0));
  }

  lemma StartRunning(sha3: Sha256, start: Net, a: Bytes, b: Bytes, e: nat) returns (events: seq<(Bytes, Call)>, net: Net)
    requires a != b && start.nodes.Keys == start.started.Keys == {a, b} && start.started[a] == start.started[b] == {}
    ensures Leads(sha3, start, events, net)
    ensures Running(net, a, b, StartedRound(start.nodes[a], e, 0), StartedRound(start.nodes[b], e, 0))
  {
    assert Leads(sha3, start, [], start);
    var one := StartEvent(sha3, start, [], start, a, e);
    events := [] + [(a, StartRound(e, 0))];
    net := StartEvent(sha3, start, events, one, b, e);
    events := events + [(b, StartRound(e, 0))];
  }

  lemma BothStart(sha3: Sha256, a: Bytes, b: Bytes, reg: Registry, e: nat, h1: Bytes, h2: Bytes) returns (s: Scene)
    requires a != b && a in reg && b in reg && h1 != h2
    ensures IsScene(sha3, StartNet(a, b, reg), a, b, s)
    ensures Holds(s.actor, Book(a, reg, e, {}, {}), h1, NOTHING, h2, NOTHING)
    ensures Holds(s.other, Book(b, reg, e, {}, {}), h1, NOTHING, h2, NOTHING)
  {
    var events, net := StartRunning(sha3, StartNet(a, b, reg), a, b, e);
    s := Scene(net, StartedRound(StartNode(a, reg), e, 0), StartedRound(StartNode(b, reg), e, 0));
    Starts(StartNode(a, reg), reg, e, h1, h2);
    Starts(StartNode(b, reg), reg, e, h1, h2);
  }

  lemma StartIsInitial(a: Bytes, b: Bytes, reg: Registry)
    requires a != b && a in reg && b in reg
    ensures Initial(StartNet(a, b, reg), reg) && StartNet(a, b, reg).nodes.Keys == {a, b}
  {
  }

  // --------------------------------------------------------- handlers of a node

  /** A proposal that every node in round 0 of the epoch accepts. */
  ghost predicate FromSelected(sha3: Sha256, p: Proposal, reg: Registry, e: nat) {
    p.epoch == e && p.round == 0 && TotalStake(reg) > 0 && Owns(reg, p.proposer, SelectionValue(sha3, e, 0) % TotalStake(reg))
  }

  lemma Accepts(sha3: Sha256, n: Node, p: Proposal, k: Book)
    requires Keeps(n, k) && FromSelected(sha3, p, k.reg, k.epoch)
    ensures ProposalOutcome(sha3, n, p).Accepted?
  {
  }

  lemma HoldsKeeps(n: Node, k: Book, h: Bytes, t: Tally, g: Bytes, u: Tally)
    requires Holds(n, k, h, t, g, u)
    ensures Keeps(n, k) && Holds(n, k, g, u, h, t)
  {
    Holding(n, k, h, t, g, u);
    Holding(n, k, g, u, h, t);
  }

  /** The proposal handler: learn the proposal, and pre-vote for it whatever was pre-voted before. */
  lemma ActorHandles(
      sha3: Sha256, start: Net, i: Bytes, j: Bytes, s: Scene, p: Proposal, k: Book, t: Tally, after: Tally, g: Bytes, u: Tally) returns (z: Scene)
    requires IsScene(sha3, start, i, j, s) && FromSelected(sha3, p, k.reg, k.epoch)
    requires Holds(s.actor, k, ProposalHash(sha3, p), t, g, u)
    requires after.known && after.pre == t.pre + {k.id} && after.com == t.com
    ensures IsScene(sha3, start, i, j, z) && z.other == s.other && Grows(s.net, z.net)
    ensures Holds(z.actor, k, ProposalHash(sha3, p), after, g, u)
  {
    var h := ProposalHash(sha3, p);
    HoldsKeeps(s.actor, k, h, t, g, u);
    Accepts(sha3, s.actor, p, k);
    Learns(sha3, s.actor, p, k, t, g, u);
    var y := Acts(sha3, start, i, j, s, ReceiveProposal(p));
    PreVotes(y.actor, k, h, t.(known := true), g, u);
    z := Acts(sha3, start, i, j, y, CreatePreVote(h));
  }

  lemma ActorHears(
      sha3: Sha256, start: Net, i: Bytes, j: Bytes, s: Scene, v: Vote, k: Book, l: Book, t: Tally, after: Tally, g: Bytes, u: Tally) returns (z: Scene)
    requires IsScene(sha3, start, i, j, s) && Holds(s.actor, k, v.hash, t, g, u)
    requires v.kind == PreVote && v.epoch == k.epoch && v.voter in k.reg && v.voter !in k.heard
    requires l == k.(heard := l.heard) && l.heard == k.heard + {v.voter}
    requires after == t.(pre := after.pre) && after.pre == t.pre + {v.voter}
    ensures IsScene(sha3, start, i, j, z) && z.other == s.other && Grows(s.net, z.net) && Holds(z.actor, l, v.hash, after, g, u)
  {
    HearsPreVote(s.actor, v, k, t, g, u);
    z := Acts(sha3, start, i, j, s, ReceivePreVote(v));
  }

  lemma ActorPreCommits(
      sha3: Sha256, start: Net, i: Bytes, j: Bytes, s: Scene, h: Bytes, k: Book, t: Tally, after: Tally, g: Bytes, u: Tally) returns (z: Scene)
    requires IsScene(sha3, start, i, j, s) && k.id == i && Holds(s.actor, k, h, t, g, u)
    requires AtLeast67(StakeSum(k.reg, t.pre), TotalStake(k.reg))
    requires after == t.(com := after.com) && after.com == t.com + {i}
    ensures IsScene(sha3, start, i, j, z) && z.other == s.other && Grows(s.net, z.net) && (i, k.epoch, h) in z.net.preCommitted
    ensures Holds(z.actor, k, h, after, g, u)
  {
    HoldsKeeps(s.actor, k, h, t, g, u);
    PreCommits(s.actor, k, h, t, g, u);
    z := Acts(sha3, start, i, j, s, CreatePreCommit(h));
  }

  /** The vote handler for a pre-vote that completes a quorum: count it, and pre-commit. */
  lemma ActorCommits(
      sha3: Sha256, start: Net, i: Bytes, j: Bytes, s: Scene, v: Vote, k: Book, l: Book, t: Tally, after: Tally, g: Bytes, u: Tally) returns (z: Scene)
    requires IsScene(sha3, start, i, j, s) && k.id == i && Holds(s.actor, k, v.hash, t, g, u)
    requires v.kind == PreVote && v.epoch == k.epoch && v.voter in k.reg && v.voter !in k.heard
    requires AtLeast67(StakeSum(k.reg, after.pre), TotalStake(k.reg))
    requires l == k.(heard := l.heard) && l.heard == k.heard + {v.voter}
    requires after.known == t.known && after.pre == t.pre + {v.voter} && after.com == t.com + {i}
    ensures IsScene(sha3, start, i, j, z) && z.other == s.other && Grows(s.net, z.net) && (i, k.epoch, v.hash) in z.net.preCommitted
    ensures Holds(z.actor, l, v.hash, after, g, u)
  {
    var mid := t.(pre := after.pre);
    z := ActorHears(sha3, start, i, j, s, v, k, l, t, mid, g, u);
    z := ActorPreCommits(sha3, start, i, j, z, v.hash, l, mid, after, g, u);
  }

  /** The vote handler for a pre-commit that completes a quorum: count it, and finalize. */
  lemma ActorFinalizes(sha3: Sha256, start: Net, i: Bytes, j: Bytes, s: Scene, v: Vote, k: Book, t: Tally, g: Bytes, u: Tally) returns (z: Scene)
    requires IsScene(sha3, start, i, j, s) && k.id == i && Holds(s.actor, k, v.hash, t, g, u) && t.known
    requires v.kind == PreCommit && v.epoch == k.epoch && v.voter in k.reg && v.voter !in k.heardCommits
    requires v.voter in {i, j} ==> (v.voter, v.epoch, v.hash) in s.net.preCommitted
    requires AtLeast67(StakeSum(k.reg, t.com + {v.voter}), TotalStake(k.reg))
    ensures IsScene(sha3, start, i, j, z) && z.other == s.other && Grows(s.net, z.net) && (i, k.epoch, v.hash) in z.net.finals
  {
    HoldsKeeps(s.actor, k, v.hash, t, g, u);
    HearsPreCommit(s.actor, v, k, t, g, u);
    var y := Acts(sha3, start, i, j, s, ReceivePreCommit(v));
    CanFinalize(y.actor, k.(heardCommits := k.heardCommits + {v.voter}), v.hash, t.(com := t.com + {v.voter}), g, u);
    z := Acts(sha3, start, i, j, y, TryFinalize(v.hash));
  }

  // ------------------------------------------------- an honest node that holds 34%

  /** The 34% node handles both proposals and pre-votes for both; the other honest node handles the second. */
  lemma BothPreVote(
      sha3: Sha256, start: Net, a: Bytes, b: Bytes, reg: Registry, p1: Proposal, p2: Proposal, e: nat, s: Scene) returns (z: Scene)
    requires FromSelected(sha3, p1, reg, e) && FromSelected(sha3, p2, reg, e) && IsScene(sha3, start, a, b, s)
    requires var h1, h2 := ProposalHash(sha3, p1), ProposalHash(sha3, p2);
             && Holds(s.actor, Book(a, reg, e, {}, {}), h1, NOTHING, h2, NOTHING)
             && Holds(s.other, Book(b, reg, e, {}, {}), h1, NOTHING, h2, NOTHING)
    ensures IsScene(sha3, start, a, b, z)
    ensures var h1, h2 := ProposalHash(sha3, p1), ProposalHash(sha3, p2);
            && Holds(z.actor, Book(a, reg, e, {}, {}), h1, Tally(true, {a}, {}), h2, Tally(true, {a}, {}))
            && Holds(z.other, Book(b, reg, e, {}, {}), h2, Tally(true, {b}, {}), h1, NOTHING)
  {
    var h1, h2 := ProposalHash(sha3, p1), ProposalHash(sha3, p2);
    var k, voted := Book(a, reg, e, {}, {}), Tally(true, {a}, {});
    z := ActorHandles(sha3, start, a, b, s, p1, k, NOTHING, voted, h2, NOTHING);
    HoldsKeeps(z.actor, k, h1, voted, h2, NOTHING);
    z := ActorHandles(sha3, start, a, b, z, p2, k, NOTHING, voted, h1, voted);
    HoldsKeeps(z.actor, k, h2, voted, h1, voted);
    var l := Book(b, reg, e, {}, {});
    HoldsKeeps(z.other, l, h1, NOTHING, h2, NOTHING);
    TurnedIsScene(sha3, start, a, b, z);
    z := ActorHandles(sha3, start, b, a, Turned(z), p2, l, NOTHING, Tally(true, {b}, {}), h1, NOTHING);
    TurnedIsScene(sha3, start, b, a, z);
    z := Turned(z);
  }

  /** Either of the last two together with the first makes a quorum. */
  ghost predicate IsTrio(reg: Registry, a: Bytes, b: Bytes, c: Bytes) {
    && a != b && a != c && b != c && a in reg && b in reg && c in reg
    && AtLeast67(StakeSum(reg, {a, b}), TotalStake(reg)) && AtLeast67(StakeSum(reg, {a, c}), TotalStake(reg))
  }

  /** The Byzantine pre-vote completes a quorum for the first hash at the 34% node, which pre-commits. */
  lemma CommitsFirst(sha3: Sha256, start: Net, a: Bytes, b: Bytes, c: Bytes, reg: Registry, h1: Bytes, h2: Bytes, e: nat, s: Scene) returns (z: Scene)
    requires IsTrio(reg, a, b, c) && IsScene(sha3, start, a, b, s)
    requires Holds(s.actor, Book(a, reg, e, {}, {}), h1, Tally(true, {a}, {}), h2, Tally(true, {a}, {}))
    ensures IsScene(sha3, start, a, b, z) && z.other == s.other
    ensures Holds(z.actor, Book(a, reg, e, {c}, {}), h1, Tally(true, {a, c}, {a}), h2, Tally(true, {a}, {}))
  {
    var k, l, voted := Book(a, reg, e, {}, {}), Book(a, reg, e, {c}, {}), Tally(true, {a}, {});
    assert voted.pre + {c} == {a, c};
    z := ActorCommits(sha3, start, a, b, s, Vote(c, e, 0, h1, PreVote, 33), k, l, voted, Tally(true, {a, c}, {a}), h2, voted);
  }

  /** The honest pre-vote completes one for the second hash, and the node pre-commits again. */
  lemma CommitsSecond(sha3: Sha256, start: Net, a: Bytes, b: Bytes, c: Bytes, reg: Registry, h1: Bytes, h2: Bytes, e: nat, s: Scene) returns (z: Scene)
    requires IsTrio(reg, a, b, c) && IsScene(sha3, start, a, b, s)
    requires Holds(s.actor, Book(a, reg, e, {c}, {}), h1, Tally(true, {a, c}, {a}), h2, Tally(true, {a}, {}))
    ensures IsScene(sha3, start, a, b, z) && z.other == s.other && (a, e, h2) in z.net.preCommitted
    ensures Holds(z.actor, Book(a, reg, e, {b, c}, {}), h1, Tally(true, {a, c}, {a}), h2, Tally(true, {a, b}, {a}))
  {
    var k, l, voted, first := Book(a, reg, e, {c}, {}), Book(a, reg, e, {b, c}, {}), Tally(true, {a}, {}), Tally(true, {a, c}, {a});
    assert voted.pre + {b} == {a, b};
    HoldsKeeps(s.actor, k, h1, first, h2, voted);
    z := ActorCommits(sha3, start, a, b, s, Vote(b, e, 0, h2, PreVote, 33), k, l, voted, Tally(true, {a, b}, {a}), h1, first);
    HoldsKeeps(z.actor, l, h2, Tally(true, {a, b}, {a}), h1, first);
  }

  /** With the Byzantine pre-commit it finalizes the first. */
  lemma FirstFinalizes(sha3: Sha256, start: Net, a: Bytes, b: Bytes, c: Bytes, reg: Registry, h1: Bytes, h2: Bytes, e: nat, s: Scene) returns (z: Scene)
    requires IsTrio(reg, a, b, c) && IsScene(sha3, start, a, b, s)
    requires Holds(s.actor, Book(a, reg, e, {b, c}, {}), h1, Tally(true, {a, c}, {a}), h2, Tally(true, {a, b}, {a}))
    ensures IsScene(sha3, start, a, b, z) && z.other == s.other && Grows(s.net, z.net) && (a, e, h1) in z.net.finals
  {
    var k, first, second := Book(a, reg, e, {b, c}, {}), Tally(true, {a, c}, {a}), Tally(true, {a, b}, {a});
    assert first.com + {c} == {a, c};
    z := ActorFinalizes(sha3, start, a, b, s, Vote(c, e, 0, h1, PreCommit, 33), k, first, h2, second);
  }

  /** The other honest node reaches a quorum for the second hash. */
  lemma SecondCommits(sha3: Sha256, start: Net, a: Bytes, b: Bytes, c: Bytes, reg: Registry, h1: Bytes, h2: Bytes, e: nat, s: Scene) returns (z: Scene)
    requires IsTrio(reg, a, b, c) && IsScene(sha3, start, b, a, s)
    requires Holds(s.actor, Book(b, reg, e, {}, {}), h2, Tally(true, {b}, {}), h1, NOTHING)
    ensures IsScene(sha3, start, b, a, z) && Grows(s.net, z.net)
    ensures Holds(z.actor, Book(b, reg, e, {a}, {}), h2, Tally(true, {a, b}, {b}), h1, NOTHING)
  {
    var k, l, voted := Book(b, reg, e, {}, {}), Book(b, reg, e, {a}, {}), Tally(true, {b}, {});
    assert voted.pre + {a} == {a, b};
    z := ActorCommits(sha3, start, b, a, s, Vote(a, e, 0, h2, PreVote, 34), k, l, voted, Tally(true, {a, b}, {b}), h1, NOTHING);
  }

  /** With the first node's other pre-commit it finalizes the second hash. */
  lemma SecondFinalizes(sha3: Sha256, start: Net, a: Bytes, b: Bytes, c: Bytes, reg: Registry, h1: Bytes, h2: Bytes, e: nat, s: Scene) returns (z: Scene)
    requires IsTrio(reg, a, b, c) && IsScene(sha3, start, b, a, s) && (a, e, h2) in s.net.preCommitted
    requires Holds(s.actor, Book(b, reg, e, {a}, {}), h2, Tally(true, {a, b}, {b}), h1, NOTHING)
    ensures IsScene(sha3, start, b, a, z) && Grows(s.net, z.net) && (b, e, h2) in z.net.finals
  {
    var k, second := Book(b, reg, e, {a}, {}), Tally(true, {a, b}, {b});
    assert second.com + {a} == {a, b};
    z := ActorFinalizes(sha3, start, b, a, s, Vote(a, e, 0, h2, PreCommit, 34), k, second, h1, NOTHING);
  }

  /** From both pre-votes of the 34% node to two finalizations. */
  lemma BothFinalize(sha3: Sha256, start: Net, a: Bytes, b: Bytes, c: Bytes, reg: Registry, h1: Bytes, h2: Bytes, e: nat, s: Scene) returns (z: Scene)
    requires IsTrio(reg, a, b, c) && IsScene(sha3, start, a, b, s)
    requires Holds(s.actor, Book(a, reg, e, {}, {}), h1, Tally(true, {a}, {}), h2, Tally(true, {a}, {}))
    requires Holds(s.other, Book(b, reg, e, {}, {}), h2, Tally(true, {b}, {}), h1, NOTHING)
    ensures IsScene(sha3, start, b, a, z) && (a, e, h1) in z.net.finals && (b, e, h2) in z.net.finals
  {
    z := CommitsFirst(sha3, start, a, b, c, reg, h1, h2, e, s);
    z := CommitsSecond(sha3, start, a, b, c, reg, h1, h2, e, z);
    z := FirstFinalizes(sha3, start, a, b, c, reg, h1, h2, e, z);
    TurnedIsScene(sha3, start, a, b, z);
    z := SecondCommits(sha3, start, a, b, c, reg, h1, h2, e, Turned(z));
    z := SecondFinalizes(sha3, start, a, b, c, reg, h1, h2, e, z);
  }

  lemma RunToDisagreement(
      sha3: Sha256, a: Bytes, b: Bytes, c: Bytes, reg: Registry, p1: Proposal, p2: Proposal, e: nat) returns (events: seq<(Bytes, Call)>)
    requires IsTrio(reg, a, b, c) && FromSelected(sha3, p1, reg, e) && FromSelected(sha3, p2, reg, e)
    requires ProposalHash(sha3, p1) != ProposalHash(sha3, p2)
    ensures Disagrees(sha3, StartNet(a, b, reg), events, a, b, e, ProposalHash(sha3, p1), ProposalHash(sha3, p2))
  {
    var start, h1, h2 := StartNet(a, b, reg), ProposalHash(sha3, p1), ProposalHash(sha3, p2);
    var s := BothStart(sha3, a, b, reg, e, h1, h2);
    s := BothPreVote(sha3, start, a, b, reg, p1, p2, e, s);
    s := BothFinalize(sha3, start, a, b, c, reg, h1, h2, e, s);
    events :| Leads(sha3, start, events, s.net);
  }

  /** A run in which a finalizes the first hash for the epoch and b the second. */
  ghost predicate Disagrees(sha3: Sha256, start: Net, events: seq<(Bytes, Call)>, a: Bytes, b: Bytes, e: nat, h1: Bytes, h2: Bytes) {
    && IsRun(sha3, start, events) && h1 != h2
    && var finals := Reached(sha3, start, events).finals; (a, e, h1) in finals && (b, e, h2) in finals
  }

  /**
   * With one honest node at 34%, honest nodes can disagree. The validator at 33% is Byzantine, is selected for the
   * epoch and proposes twice; it votes for the first proposal at the 34% node and stays silent otherwise.
   */
  lemma AgreementFailsAt34(sha3: Sha256, a: Bytes, b: Bytes, c: Bytes, p1: Proposal, p2: Proposal, e: nat) returns (events: seq<(Bytes, Call)>)
    requires a != b && a != c && b != c && p1.proposer == p2.proposer == c
    requires var reg := ThreeHolders(a, b, c); FromSelected(sha3, p1, reg, e) && FromSelected(sha3, p2, reg, e)
    requires ProposalHash(sha3, p1) != ProposalHash(sha3, p2)
    ensures var reg := ThreeHolders(a, b, c);
            var start := StartNet(a, b, reg);
            && Initial(start, reg) && ByzantineMinority(start, reg) && start.nodes.Keys == {a, b}
            && Disagrees(sha3, start, events, a, b, e, ProposalHash(sha3, p1), ProposalHash(sha3, p2))
  {
    TrioOfThree(a, b, c);
    events := RunToDisagreement(sha3, a, b, c, ThreeHolders(a, b, c), p1, p2, e);
    StartIsInitial(a, b, ThreeHolders(a, b, c));
    OnlyThirdIsByzantine(a, b, c);
  }

  lemma TrioOfThree(a: Bytes, b: Bytes, c: Bytes)
    requires a != b && a != c && b != c
    ensures IsTrio(ThreeHolders(a, b, c), a, b, c)
  {
    ThreeHoldersStake(a, b, c);
  }

  lemma OnlyThirdIsByzantine(a: Bytes, b: Bytes, c: Bytes)
    requires a != b && a != c && b != c
    ensures var reg := ThreeHolders(a, b, c); ByzantineMinority(StartNet(a, b, reg), reg)
  {
    var reg := ThreeHolders(a, b, c);
    ThreeHoldersStake(a, b, c);
    var f, none: set<Bytes> := StakeOf(reg), {};
    assert Sum(none, f) == 0;
    SumAdd(none, c, f);
    assert none + {c} == {c} == reg.Keys - StartNet(a, b, reg).nodes.Keys;
  }

  // ---------------------------------------------------- Byzantine stake of 34%

  /** A node that hears of one proposal only: with the Byzantine votes for it the node finalizes it. */
  lemma SideFinalizes(
      sha3: Sha256, start: Net, i: Bytes, j: Bytes, c: Bytes, reg: Registry, p: Proposal, e: nat, g: Bytes, s: Scene) returns (z: Scene)
    requires IsScene(sha3, start, i, j, s) && FromSelected(sha3, p, reg, e)
    requires c !in {i, j} && c in reg && AtLeast67(StakeSum(reg, {c, i}), TotalStake(reg))
    requires Holds(s.actor, Book(i, reg, e, {}, {}), ProposalHash(sha3, p), NOTHING, g, NOTHING)
    ensures IsScene(sha3, start, i, j, z) && z.other == s.other && Grows(s.net, z.net) && (i, e, ProposalHash(sha3, p)) in z.net.finals
  {
    var h, k, l := ProposalHash(sha3, p), Book(i, reg, e, {}, {}), Book(i, reg, e, {c}, {});
    var voted, committed := Tally(true, {i}, {}), Tally(true, {c, i}, {i});
    z := ActorHandles(sha3, start, i, j, s, p, k, NOTHING, voted, g, NOTHING);
    assert voted.pre + {c} == {c, i};
    z := ActorCommits(sha3, start, i, j, z, Vote(c, e, 0, h, PreVote, 34), k, l, voted, committed, g, NOTHING);
    assert committed.com + {c} == {c, i};
    z := ActorFinalizes(sha3, start, i, j, z, Vote(c, e, 0, h, PreCommit, 34), l, committed, g, NOTHING);
  }

  lemma RunToTwoSides(
      sha3: Sha256, a: Bytes, b: Bytes, c: Bytes, reg: Registry, p1: Proposal, p2: Proposal, e: nat) returns (events: seq<(Bytes, Call)>)
    requires a != b && c !in {a, b} && a in reg && b in reg && c in reg
    requires AtLeast67(StakeSum(reg, {c, a}), TotalStake(reg)) && AtLeast67(StakeSum(reg, {c, b}), TotalStake(reg))
    requires FromSelected(sha3, p1, reg, e) && FromSelected(sha3, p2, reg, e)
    requires ProposalHash(sha3, p1) != ProposalHash(sha3, p2)
    ensures Disagrees(sha3, StartNet(a, b, reg), events, a, b, e, ProposalHash(sha3, p1), ProposalHash(sha3, p2))
  {
    var start, h1, h2 := StartNet(a, b, reg), ProposalHash(sha3, p1), ProposalHash(sha3, p2);
    var s := BothStart(sha3, a, b, reg, e, h1, h2);
    s := SideFinalizes(sha3, start, a, b, c, reg, p1, e, h2, s);
    HoldsKeeps(s.other, Book(b, reg, e, {}, {}), h1, NOTHING, h2, NOTHING);
    TurnedIsScene(sha3, start, a, b, s);
    s := SideFinalizes(sha3, start, b, a, c, reg, p2, e, h1, Turned(s));
    events :| Leads(sha3, start, events, s.net);
  }

  /**
   * With 34% Byzantine stake, honest nodes of 33% each can disagree: the Byzantine validator is selected and shows
   * each of them one proposal with its own votes.
   */
  lemma AgreementFailsAtByzantine34(sha3: Sha256, a: Bytes, b: Bytes, c: Bytes, p1: Proposal, p2: Proposal, e: nat) returns (events: seq<(Bytes, Call)>)
    requires a != b && a != c && b != c && p1.proposer == p2.proposer == c
    requires var reg := ThreeHolders(c, a, b); FromSelected(sha3, p1, reg, e) && FromSelected(sha3, p2, reg, e)
    requires ProposalHash(sha3, p1) != ProposalHash(sha3, p2)
    ensures var reg := ThreeHolders(c, a, b);
            var start := StartNet(a, b, reg);
            && Initial(start, reg) && SmallHolders(start, reg) && start.nodes.Keys == {a, b}
            && Disagrees(sha3, start, events, a, b, e, ProposalHash(sha3, p1), ProposalHash(sha3, p2))
  {
    OthersAreSmall(a, b, c);
    events := RunToTwoSides(sha3, a, b, c, ThreeHolders(c, a, b), p1, p2, e);
    StartIsInitial(a, b, ThreeHolders(c, a, b));
  }

  lemma OthersAreSmall(a: Bytes, b: Bytes, c: Bytes)
    requires a != b && a != c && b != c
    ensures var reg := ThreeHolders(c, a, b);
            && AtLeast67(StakeSum(reg, {c, a}), TotalStake(reg)) && AtLeast67(StakeSum(reg, {c, b}), TotalStake(reg))
            && SmallHolders(StartNet(a, b, reg), reg)
  {
    ThreeHoldersStake(c, a, b);
  }
}
