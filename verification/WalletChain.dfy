/** The wallet's batches and the on-chain registry move in step, unless others registered first. */
module WalletChain {
  import opened Wrappers
  import opened ByteStrings
  import opened Merkle
  import opened AuthTree
  import opened Transactions
  import opened Ledger
  import opened KeyManager
  import opened WalletTxs

  /** A rotation transaction the wallet has built: signed with reserved key `index` of `batch`, publishing `newRoot`. */
  datatype Sent = Sent(batch: nat, index: nat, message: Bytes, newRoot: Digest)

  /** `applied`: a rotation took effect on chain that the wallet has not confirmed yet. */
  datatype World = World(keys: Keys, registry: Registry, applied: bool, sent: seq<Sent>)

  /** The validator's check of a rotation against a root. */
  type Check = (Sent, Bytes) -> bool

  /** A rotation is accepted against the root of its own batch and against no other root. */
  ghost predicate BindsToBatch(root: nat -> Digest, check: Check) {
    forall s: Sent, r: Bytes :: s.index < TOTAL_KEYS ==> (check(s, r) <==> r == root(s.batch))
  }

  /** What the wallet, the chain, and others who know the owner's inner hash can do. */
  datatype WorldAction =
    | Registers
    | Marks
    | Signs(message: Bytes)
    | SendsRotation(txHash: Bytes)
    | Applies(j: nat)
    | Confirms
    | OthersRegister(otherRoot: Bytes)
    | OthersRotate(otherRoot: Bytes)

  /** A registration is signed with any key pair, so others can make one; a rotation needs the keys of the root on chain. */
  predicate CanDo(root: nat -> Digest, check: Check, owner: Bytes, w: World, a: WorldAction) {
    match a
    case Registers => owner !in w.registry.registered
    case Marks => true
    case Signs(_) => true
    case SendsRotation(_) => w.keys.registered
    case Applies(j) => j < |w.sent| && w.sent[j].index < TOTAL_KEYS && HasRoot(owner, w) && check(w.sent[j], w.registry.roots[owner])
    case Confirms => w.applied
    case OthersRegister(_) => owner !in w.registry.registered
    case OthersRotate(_) => HasRoot(owner, w) && w.registry.roots[owner] != root(ChainBatch(w))
  }

  predicate HasRoot(owner: Bytes, w: World) {
    owner in w.registry.registered && owner in w.registry.roots
  }

  /**
   * Registration publishes the current root. A rotation is prepared each time one is built, and publishes the next
   * root if a reserved key is left. The chain applies whatever verifies; the wallet confirms after that.
   */
  function Act(root: nat -> Digest, check: Check, owner: Bytes, w: World, a: WorldAction): World
    requires CanDo(root, check, owner, w, a)
  {
    match a
    case Registers => w.(registry := RegisterVia(w.registry, owner, root(w.keys.batch)))
    case Marks => w.(keys := w.keys.(registered := true))
    case Signs(_) => w.(keys := AfterSign(w.keys))
    case SendsRotation(m) =>
      var prepared := w.keys.(prepared := true);
      var key := RotationKeyFor(prepared);
      if key.Err? then w.(keys := prepared)
      else w.(keys := AfterSignRotation(prepared),
              sent := w.sent + [Sent(w.keys.batch, key.value, m, root(w.keys.batch + 1))])
    case Applies(j) => w.(registry := RotateVia(w.registry, owner, w.sent[j].newRoot), applied := true)
    case Confirms => w.(keys := AfterExecute(w.keys), applied := false)
    case OthersRegister(r) => w.(registry := RegisterVia(w.registry, owner, r))
    case OthersRotate(r) => w.(registry := RotateVia(w.registry, owner, r))
  }

  ghost predicate SentFits(root: nat -> Digest, k: Keys, s: Sent) {
    && s.batch <= k.batch && s.index < TOTAL_KEYS && s.newRoot == root(s.batch + 1)
    && (s.batch == k.batch ==> k.prepared)
  }

  /** The batch whose root is on chain. */
  function ChainBatch(w: World): nat {
    if w.applied then w.keys.batch + 1 else w.keys.batch
  }

  /** Whatever root the chain holds for the owner is the wallet's. */
  ghost predicate Follows(root: nat -> Digest, owner: Bytes, w: World) {
    owner in w.registry.registered ==> RegisteredWith(w.registry, owner, root(ChainBatch(w)))
  }

  /** No rotation of the wallet took effect. */
  predicate AtStart(w: World) {
    w.keys.batch == 0 && !w.applied
  }

  ghost predicate WalletFits(root: nat -> Digest, owner: Bytes, w: World) {
    && (owner !in w.registry.registered ==> AtStart(w))
    && (w.applied ==> w.keys.prepared)
    && (forall j :: 0 <= j < |w.sent| ==> SentFits(root, w.keys, w.sent[j]))
  }

  /** The chain holds a root that is not the wallet's first. */
  ghost predicate Taken(root: nat -> Digest, owner: Bytes, w: World) {
    HasRoot(owner, w) && w.registry.roots[owner] != root(0) && AtStart(w)
  }

  /** The root that others published last, if any. */
  function OthersRoot(actions: seq<WorldAction>): Option<Bytes> {
    if actions == [] then None
    else
      var last := actions[|actions| - 1];
      if last.OthersRegister? || last.OthersRotate? then Some(last.otherRoot) else OthersRoot(actions[..|actions| - 1])
  }

  /** Others published nothing, or in the end what the wallet publishes itself. */
  predicate NoneAhead(root: nat -> Digest, actions: seq<WorldAction>) {
    OthersRoot(actions).None? || OthersRoot(actions).value == root(0)
  }

  /** The world after the given actions: in step, or taken, according to what others published. */
  ghost predicate WorldFits(root: nat -> Digest, owner: Bytes, w: World, actions: seq<WorldAction>) {
    WalletFits(root, owner, w) && if NoneAhead(root, actions) then Follows(root, owner, w) else Taken(root, owner, w)
  }

  /** No two of the first n + 1 batch roots coincide. */
  ghost predicate RootsDiffer(root: nat -> Digest, n: nat) {
    forall i: nat, j: nat :: i < j <= n ==> root(i) != root(j)
  }

  lemma ActKeepsFit(root: nat -> Digest, check: Check, owner: Bytes, w: World, a: WorldAction, actions: seq<WorldAction>)
    requires BindsToBatch(root, check) && WorldFits(root, owner, w, actions) && CanDo(root, check, owner, w, a)
    requires RootsDiffer(root, w.keys.batch + 1)
    ensures WorldFits(root, owner, Act(root, check, owner, w, a), actions + [a])
  {
    var n := Act(root, check, owner, w, a);
    assert (actions + [a])[..|actions|] == actions;
    forall j | 0 <= j < |n.sent| ensures SentFits(root, n.keys, n.sent[j]) {
      assert j < |w.sent| ==> SentFits(root, w.keys, w.sent[j]);
    }
    if a.Applies? {
      var s := w.sent[a.j];
      assert SentFits(root, w.keys, s);
      assert check(s, w.registry.roots[owner]) <==> w.registry.roots[owner] == root(s.batch);
      assert s.batch == ChainBatch(w);
    }
  }

  /** States of a run: each follows from the one before by an action that can be done. */
  ghost predicate WorldRun(root: nat -> Digest, check: Check, owner: Bytes, worlds: seq<World>, actions: seq<WorldAction>) {
    && |worlds| == |actions| + 1
    && worlds[0] == World(INITIAL_KEYS, Registry(map[], {}, map[]), false, [])
    && forall i :: 0 <= i < |actions| ==> WorldStep(root, check, owner, worlds, actions, i)
  }

  ghost predicate WorldStep(root: nat -> Digest, check: Check, owner: Bytes, worlds: seq<World>, actions: seq<WorldAction>, i: int) {
    && 0 <= i < |actions| && |worlds| == |actions| + 1
    && CanDo(root, check, owner, worlds[i], actions[i])
    && worlds[i + 1] == Act(root, check, owner, worlds[i], actions[i])
  }

  lemma BatchesGrow(root: nat -> Digest, check: Check, owner: Bytes, worlds: seq<World>, actions: seq<WorldAction>, i: nat, n: nat)
    requires WorldRun(root, check, owner, worlds, actions) && i <= n < |worlds|
    ensures worlds[i].keys.batch <= worlds[n].keys.batch
    decreases n
  {
    if i < n {
      BatchesGrow(root, check, owner, worlds, actions, i, n - 1);
      assert WorldStep(root, check, owner, worlds, actions, n - 1);
    }
  }

  lemma {:induction false} RunKeepsFit(
      root: nat -> Digest, check: Check, owner: Bytes, worlds: seq<World>, actions: seq<WorldAction>, n: nat)
    requires BindsToBatch(root, check) && WorldRun(root, check, owner, worlds, actions) && n < |worlds|
    requires RootsDiffer(root, worlds[n].keys.batch + 1)
    ensures WorldFits(root, owner, worlds[n], actions[..n])
    decreases n
  {
    if n > 0 {
      var m := n - 1;
      BatchesGrow(root, check, owner, worlds, actions, m, n);
      RunKeepsFit(root, check, owner, worlds, actions, m);
      assert WorldStep(root, check, owner, worlds, actions, m);
      ActKeepsFit(root, check, owner, worlds[m], actions[m], actions[..m]);
      assert actions[..n] == actions[..m] + [actions[m]];
    }
  }

  /** One registration of another root, before the wallet's own, is a run after which the registry does not follow. */
  lemma OthersMayRegisterFirst(root: nat -> Digest, check: Check, owner: Bytes, other: Bytes) returns (worlds: seq<World>)
    requires other != root(0)
    ensures WorldRun(root, check, owner, worlds, [OthersRegister(other)]) && !Follows(root, owner, worlds[1])
  {
    var start, action := World(INITIAL_KEYS, Registry(map[], {}, map[]), false, []), OthersRegister(other);
    worlds := [start, Act(root, check, owner, start, action)];
    assert WorldStep(root, check, owner, worlds, [action], 0);
  }

  // ------------------------------------------------------ the roots of a wallet

  function RootOf(hs: Hashes, masterSeed: Bytes, batch: nat): Digest {
    AuthRoot(hs, BatchSeed(hs, masterSeed, batch))
  }

  function Roots(hs: Hashes, masterSeed: Bytes): nat -> Digest {
    batch => RootOf(hs, masterSeed, batch)
  }

  /** What the validator checks of the rotation's signature, key and proof against the root on chain. */
  predicate RotationVerifies(hs: Hashes, masterSeed: Bytes, s: Sent, root: Bytes) {
    s.index < TOTAL_KEYS
    && var sg := SignedWith(hs, BatchSeed(hs, masterSeed, s.batch), s.index, s.message);
       AuthVerifies(hs, s.message, sg.signature, sg.publicKey, sg.proof, root)
  }

  function Checks(hs: Hashes, masterSeed: Bytes): Check {
    (s, root) => RotationVerifies(hs, masterSeed, s, root)
  }

  /** A rotation built in a batch verifies against that batch's root and no other. */
  lemma VerifiesOnlyOwnRoot(hs: Hashes, masterSeed: Bytes, s: Sent, root: Bytes)
    requires s.index < TOTAL_KEYS
    ensures RotationVerifies(hs, masterSeed, s, root) <==> root == RootOf(hs, masterSeed, s.batch)
  {
    var seed := BatchSeed(hs, masterSeed, s.batch);
    MadeVerifies(hs, seed, s.index, s.message, SignedWith(hs, seed, s.index, s.message));
  }

  lemma ChecksBind(hs: Hashes, masterSeed: Bytes)
    ensures BindsToBatch(Roots(hs, masterSeed), Checks(hs, masterSeed))
  {
    forall s: Sent, r: Bytes | s.index < TOTAL_KEYS
      ensures Checks(hs, masterSeed)(s, r) <==> r == Roots(hs, masterSeed)(s.batch)
    {
      VerifiesOnlyOwnRoot(hs, masterSeed, s, r);
    }
  }

  /**
   * In every reachable state the root on chain is the wallet's current root, or its next one while a rotation that
   * took effect has not been confirmed, if and only if others published no root for the owner, or in the end the
   * wallet's own first one. Otherwise no rotation of the wallet ever takes effect.
   */
  lemma RegistryFollowsWallet(
      hs: Hashes, masterSeed: Bytes, owner: Bytes, worlds: seq<World>, actions: seq<WorldAction>, n: nat)
    requires WorldRun(Roots(hs, masterSeed), Checks(hs, masterSeed), owner, worlds, actions) && n < |worlds|
    requires RootsDiffer(Roots(hs, masterSeed), worlds[n].keys.batch + 1)
    ensures Follows(Roots(hs, masterSeed), owner, worlds[n]) <==> NoneAhead(Roots(hs, masterSeed), actions[..n])
    ensures !NoneAhead(Roots(hs, masterSeed), actions[..n]) ==> AtStart(worlds[n])
  {
    ChecksBind(hs, masterSeed);
    RunKeepsFit(Roots(hs, masterSeed), Checks(hs, masterSeed), owner, worlds, actions, n);
  }
}
