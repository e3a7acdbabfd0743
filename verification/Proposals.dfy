/** What a proposal's hash commits to, and where the proposals that honest nodes hold come from. */
module Proposals {
  import opened Wrappers
  import opened ByteStrings
  import opened Votes
  import opened Agreement

  // ------------------------------------------------- what the hash commits to

  /** The two proposals differ in nothing but the timestamp. */
  predicate SameContent(p: Proposal, q: Proposal) {
    SameHeader(p, q) && p.transactionRoot == q.transactionRoot && p.stateRoot == q.stateRoot
  }

  predicate SameHeader(p: Proposal, q: Proposal) {
    p.proposer == q.proposer && p.epoch == q.epoch && p.round == q.round && p.measurementRoot == q.measurementRoot
  }

  /** Fields of the widths the code writes; either of the last two roots may be missing. */
  predicate FixedWidth(p: Proposal) {
    && |p.proposer| == 32 && p.epoch < U64 && p.round < U64 && |p.measurementRoot| == 32
    && (p.transactionRoot == [] || |p.transactionRoot| == 32) && (p.stateRoot == [] || |p.stateRoot| == 32)
  }

  predicate HasBothRoots(p: Proposal) {
    p.transactionRoot != [] && p.stateRoot != []
  }

  /** One has as its only root the transaction root, the other the same bytes as its only state root. */
  predicate RootMoved(p: Proposal, q: Proposal) {
    && SameHeader(p, q) && !HasBothRoots(p) && !HasBothRoots(q) && !SameContent(p, q)
    && (p.transactionRoot == q.stateRoot && p.stateRoot == q.transactionRoot)
  }

  lemma HeaderSlices(p: Proposal)
    requires FixedWidth(p)
    ensures var s := ProposalPreimage(p);
            && |s| == 80 + |p.transactionRoot| + |p.stateRoot|
            && s[..32] == p.proposer && s[32..40] == Be(p.epoch, 8) && s[40..48] == Be(p.round, 8)
            && s[48..80] == p.measurementRoot && s[80..] == p.transactionRoot + p.stateRoot
  {
    var id, e, r, m, roots := p.proposer, Be(p.epoch, 8), Be(p.round, 8), p.measurementRoot, p.transactionRoot + p.stateRoot;
    assert ProposalPreimage(p) == id + e + r + m + roots;
    FiveParts(id, e, r, m, roots);
  }

  lemma FiveParts(a: Bytes, b: Bytes, c: Bytes, d: Bytes, e: Bytes)
    requires |a| == 32 && |b| == 8 && |c| == 8 && |d| == 32
    ensures var s := a + b + c + d + e;
            |s| == 80 + |e| && s[..32] == a && s[32..40] == b && s[40..48] == c && s[48..80] == d && s[80..] == e
  {
  }

  lemma SameRoots(a: Bytes, b: Bytes, c: Bytes, d: Bytes)
    requires (a == [] || |a| == 32) && (b == [] || |b| == 32) && (c == [] || |c| == 32) && (d == [] || |d| == 32)
    ensures a + b == c + d <==> (a == c && b == d) || (a == d && b == c && (a == [] || b == []))
  {
    if a + b == c + d {
      assert |a| + |b| == |c| + |d|;
      if |a| == |c| {
        assert a == (a + b)[..|a|] && c == (c + d)[..|c|];
        assert b == (a + b)[|a|..] && d == (c + d)[|c|..];
      }
    }
  }

  /** Equal byte strings mean equal fields, but for a single root that may stand for either of the two. */
  lemma PreimagesEqualIff(p: Proposal, q: Proposal)
    requires FixedWidth(p) && FixedWidth(q)
    ensures ProposalPreimage(p) == ProposalPreimage(q) <==> SameContent(p, q) || RootMoved(p, q)
  {
    HeaderSlices(p);
    HeaderSlices(q);
    Pow256Values();
    SameRoots(p.transactionRoot, p.stateRoot, q.transactionRoot, q.stateRoot);
    if ProposalPreimage(p) == ProposalPreimage(q) {
      BeInjective(p.epoch, q.epoch, 8);
      BeInjective(p.round, q.round, 8);
    }
  }

  /** What equal hashes mean, exactly. */
  lemma HashCommits(sha3: Sha256, p: Proposal, q: Proposal)
    requires FixedWidth(p) && FixedWidth(q)
    ensures ProposalHash(sha3, p) == ProposalHash(sha3, q)
       <==> SameContent(p, q) || RootMoved(p, q) || Collides(sha3, ProposalPreimage(p), ProposalPreimage(q))
  {
    PreimagesEqualIff(p, q);
  }

  /** The draw of the proposer is made from a string that tells epochs and rounds apart. */
  lemma SelectionTellsApart(e: nat, r: nat, f: nat, s: nat)
    requires e < U64 && r < U64 && f < U64 && s < U64
    ensures SelectionPreimage(e, r) == SelectionPreimage(f, s) <==> e == f && r == s
  {
    Pow256Values();
    var x, y := SelectionPreimage(e, r), SelectionPreimage(f, s);
    assert x[8..16] == Be(e, 8) && x[16..24] == Be(r, 8) && y[8..16] == Be(f, 8) && y[16..24] == Be(s, 8);
    if x == y {
      BeInjective(e, f, 8);
      BeInjective(r, s, 8);
    }
  }

  // --------------------------------------------- where held proposals come from

  /** The node's own proposal, or one by the validator that owns the target of the proposal's epoch and round. */
  ghost predicate FromOwner(sha3: Sha256, reg: Registry, i: Bytes, p: Proposal) {
    p.proposer == i
    || (TotalStake(reg) > 0 && Owns(reg, p.proposer, SelectionValue(sha3, p.epoch, p.round) % TotalStake(reg)))
  }

  ghost predicate ReceivedFits(sha3: Sha256, reg: Registry, n: Node, h: Bytes) {
    h in n.received ==> FromOwner(sha3, reg, n.id, n.received[h]) && n.received[h].epoch == n.epoch && n.received[h].round == n.round
  }

  ghost predicate RecordFits(sha3: Sha256, reg: Registry, n: Node, e: nat) {
    e in n.finalized ==>
      && FromOwner(sha3, reg, n.id, n.finalized[e].proposal)
      && n.finalized[e].epoch == n.finalized[e].proposal.epoch == e && n.finalized[e].round == n.finalized[e].proposal.round
      && Carried(reg, n.finalized[e])
  }

  /** The block's own numbers: pre-committers among the votes it lists hold 67% of the whole registry's stake. */
  ghost predicate Carried(reg: Registry, b: Block) {
    && b.totalStake == TotalStake(reg) && AtLeast67(b.supportingStake, b.totalStake)
    && exists q :: q <= Voters(b.votes) && StakeSum(reg, q) == b.supportingStake
  }

  ghost predicate Sourced(sha3: Sha256, reg: Registry, i: Bytes, n: Node) {
    && n.id == i && n.validators == reg && n.totalStake == TotalStake(reg)
    && (forall h :: ReceivedFits(sha3, reg, n, h)) && (forall e :: RecordFits(sha3, reg, n, e))
  }

  lemma FinalBlockCarried(reg: Registry, n: Node, h: Bytes)
    requires n.validators == reg && n.totalStake == TotalStake(reg) && Finalizes(n, h)
    ensures Carried(reg, FinalBlock(n, h))
  {
    var pre, com := VotesFor(n.preVotes, h), VotesFor(n.preCommits, h);
    assert forall v :: v in com ==> v in pre + com;
    assert Voters(com) <= Voters(FinalBlock(n, h).votes);
  }

  lemma CallKeepsSourced(sha3: Sha256, reg: Registry, i: Bytes, n: Node, c: Call)
    requires Sourced(sha3, reg, i, n)
    ensures Sourced(sha3, reg, i, After(sha3, n, c))
  {
    var m := After(sha3, n, c);
    forall h ensures ReceivedFits(sha3, reg, m, h) {
      assert ReceivedFits(sha3, reg, n, h);
    }
    forall e ensures RecordFits(sha3, reg, m, e) {
      assert RecordFits(sha3, reg, n, e);
      if c.TryFinalize? {
        assert ReceivedFits(sha3, reg, n, c.hash);
        if Finalizes(n, c.hash) {
          FinalBlockCarried(reg, n, c.hash);
        }
      }
    }
  }

  ghost predicate SourcedAt(sha3: Sha256, reg: Registry, net: Net, i: Bytes) {
    i in net.nodes ==> Sourced(sha3, reg, i, net.nodes[i])
  }

  ghost predicate AllSourced(sha3: Sha256, reg: Registry, net: Net) {
    forall i :: SourcedAt(sha3, reg, net, i)
  }

  lemma {:induction false} RunKeepsSourced(sha3: Sha256, net: Net, reg: Registry, events: seq<(Bytes, Call)>)
    requires AllSourced(sha3, reg, net) && IsRun(sha3, net, events)
    ensures AllSourced(sha3, reg, Reached(sha3, net, events))
    decreases |events|
  {
    if events != [] {
      var (j, c) := events[0];
      var next := Step(sha3, net, j, c);
      forall i ensures SourcedAt(sha3, reg, next, i) {
        assert SourcedAt(sha3, reg, net, i);
        if i == j {
          CallKeepsSourced(sha3, reg, i, net.nodes[i], c);
        }
      }
      RunKeepsSourced(sha3, next, reg, events[1..]);
    }
  }

  lemma InitialSourced(sha3: Sha256, net: Net, reg: Registry)
    requires Initial(net, reg)
    ensures AllSourced(sha3, reg, net)
  {
    forall i ensures SourcedAt(sha3, reg, net, i) {
      if i in net.nodes {
        assert net.nodes[i] == Fresh(i, net.nodes[i].stake).(validators := reg, totalStake := TotalStake(reg));
      }
    }
  }

  /**
   * In every run the proposal an honest node records for an epoch is for that epoch and for the block's round, and
   * it is the node's own or one by the validator selected for them; the block's votes carry it. No bound on anyone's stake is needed.
   */
  lemma RecordedComesFromOwner(sha3: Sha256, net: Net, reg: Registry, events: seq<(Bytes, Call)>, i: Bytes, e: nat)
    requires Initial(net, reg) && IsRun(sha3, net, events)
    requires var last := Reached(sha3, net, events); i in last.nodes && e in last.nodes[i].finalized
    ensures var b := Reached(sha3, net, events).nodes[i].finalized[e];
            && b.epoch == b.proposal.epoch == e && b.round == b.proposal.round && FromOwner(sha3, reg, i, b.proposal)
            && Carried(reg, b)
  {
    InitialSourced(sha3, net, reg);
    RunKeepsSourced(sha3, net, reg, events);
    var last := Reached(sha3, net, events);
    assert SourcedAt(sha3, reg, last, i);
    assert RecordFits(sha3, reg, last.nodes[i], e);
  }

  /** So do the proposals it holds during a round. */
  lemma HeldComesFromOwner(sha3: Sha256, net: Net, reg: Registry, events: seq<(Bytes, Call)>, i: Bytes, h: Bytes)
    requires Initial(net, reg) && IsRun(sha3, net, events)
    requires var last := Reached(sha3, net, events); i in last.nodes && h in last.nodes[i].received
    ensures var n := Reached(sha3, net, events).nodes[i];
            n.received[h].epoch == n.epoch && n.received[h].round == n.round && FromOwner(sha3, reg, i, n.received[h])
  {
    InitialSourced(sha3, net, reg);
    RunKeepsSourced(sha3, net, reg, events);
    var last := Reached(sha3, net, events);
    assert SourcedAt(sha3, reg, last, i);
    assert ReceivedFits(sha3, reg, last.nodes[i], h);
  }

  // ------------------------------------------------- agreement on the proposals

  /**
   * Agreement on contents: the proposals that honest nodes record for an epoch are equal up to the timestamp, unless
   * their hashed strings collide or both lack a root and share the other as different roots.
   */
  lemma RecordedProposalsAgree(sha3: Sha256, net: Net, reg: Registry, events: seq<(Bytes, Call)>, i: Bytes, j: Bytes, e: nat)
    requires Initial(net, reg) && SmallHolders(net, reg) && ByzantineMinority(net, reg) && IsRun(sha3, net, events)
    requires var last := Reached(sha3, net, events);
             && i in last.nodes && e in last.nodes[i].finalized && FixedWidth(last.nodes[i].finalized[e].proposal)
             && j in last.nodes && e in last.nodes[j].finalized && FixedWidth(last.nodes[j].finalized[e].proposal)
    ensures var last := Reached(sha3, net, events);
            var p, q := last.nodes[i].finalized[e].proposal, last.nodes[j].finalized[e].proposal;
            && (SameContent(p, q) || RootMoved(p, q) || Collides(sha3, ProposalPreimage(p), ProposalPreimage(q)))
            && (HasBothRoots(p) || HasBothRoots(q) ==>
                  SameContent(p, q) || Collides(sha3, ProposalPreimage(p), ProposalPreimage(q)))
  {
    RecordedBlocksAgree(sha3, net, reg, events, i, j, e);
    var last := Reached(sha3, net, events);
    HashCommits(sha3, last.nodes[i].finalized[e].proposal, last.nodes[j].finalized[e].proposal);
  }
}
