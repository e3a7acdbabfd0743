/** The ledger state, what validation accepts and what applying a transaction does to the state. */
module Ledger {
  import opened Wrappers
  import opened ByteStrings
  import opened Wots
  import opened Merkle
  import opened AuthTree
  import opened Transactions
  import RotationKey

  datatype Utxo = Utxo(output: TxOutput, epochCreated: int, isSpent: bool, spentBy: Option<Bytes>)

  type Utxos = map<OutRef, Utxo>

  type Stakes = map<Bytes, int>

  /** The auth registry: current root and rotation count of each registered address. */
  datatype Registry = Registry(roots: map<Bytes, Bytes>, registered: set<Bytes>, rotations: map<Bytes, nat>)

  datatype State = State(utxos: Utxos, staked: Stakes, registry: Registry)

  const EMPTY := State(map[], map[], Registry(map[], {}, map[]))

  // ---------------------------------------------------------------- validation

  predicate Spendable(utxos: Utxos, r: OutRef) {
    r in utxos && !utxos[r].isSpent
  }

  /** The input proves that its key belongs to the registered owner's current batch. */
  predicate Vouched(h: Sha256, reg: Registry, owner: Bytes, i: TxInput) {
    owner in reg.roots && i.authProof.Some? && Accepts(h, h(i.publicKey), i.authProof.value, reg.roots[owner])
  }

  /** Checks made on one input of a transfer; `message` is the signing hash. */
  function InputVerdict(h: Sha256, s: State, i: TxInput, message: Digest, epoch: int): Verdict {
    if i.prev !in s.utxos then Invalid(UtxoNotFound)
    else if s.utxos[i.prev].isSpent then Invalid(UtxoSpent)
    else if s.utxos[i.prev].output.lockEpoch > epoch then Invalid(UtxoLocked)
    else if !Verifies(h, message, i.signature, i.publicKey) then Invalid(BadSignature)
    else if s.utxos[i.prev].output.address !in s.registry.registered then Valid
    else if i.authProof.None? || i.authProof.value == [] then Invalid(ProofRequired)
    else if !Vouched(h, s.registry, s.utxos[i.prev].output.address, i) then Invalid(KeyNotInTree)
    else Valid
  }

  /** The verdict on the first input that fails, Valid when none does. */
  function InputsVerdict(h: Sha256, s: State, inputs: seq<TxInput>, message: Digest, epoch: int): Verdict {
    if inputs == [] then Valid
    else if InputVerdict(h, s, inputs[0], message, epoch) != Valid then InputVerdict(h, s, inputs[0], message, epoch)
    else InputsVerdict(h, s, inputs[1..], message, epoch)
  }

  lemma {:induction false} InputsVerdictAll(h: Sha256, s: State, inputs: seq<TxInput>, m: Digest, epoch: int)
    requires forall k :: 0 <= k < |inputs| ==> InputVerdict(h, s, inputs[k], m, epoch) == Valid
    ensures InputsVerdict(h, s, inputs, m, epoch) == Valid
  {
    if inputs != [] {
      InputsVerdictAll(h, s, inputs[1..], m, epoch);
    }
  }

  function ValueAt(utxos: Utxos, r: OutRef): int {
    if r in utxos then utxos[r].output.value else 0
  }

  /** Value of the referenced outputs, each counted as often as it is referenced. */
  function InputTotal(utxos: Utxos, inputs: seq<TxInput>): int {
    if inputs == [] then 0 else InputTotal(utxos, inputs[..|inputs| - 1]) + ValueAt(utxos, inputs[|inputs| - 1].prev)
  }

  function Balanced(s: State, tx: Tx): Verdict {
    if InputTotal(s.utxos, tx.inputs) < TotalOutput(tx.outputs) + tx.fee then Invalid(InsufficientInput) else Valid
  }

  function TransferVerdict(h: Sha256, s: State, tx: Tx, epoch: int): Verdict {
    if !Encodable(tx) then Raised
    else
      var v := InputsVerdict(h, s, tx.inputs, TxHash(h, tx), epoch);
      if v != Valid then v else Balanced(s, tx)
  }

  predicate HasStake(outputs: seq<TxOutput>, epoch: int) {
    exists o :: o in outputs && o.lockEpoch > epoch
  }

  predicate HasPayload(outputs: seq<TxOutput>) {
    exists o :: o in outputs && o.data != []
  }

  function StakeVerdict(h: Sha256, s: State, tx: Tx, epoch: int): Verdict {
    var v := TransferVerdict(h, s, tx, epoch);
    if v != Valid then v else if HasStake(tx.outputs, epoch) then Valid else Invalid(NoStakingOutput)
  }

  function DataVerdict(h: Sha256, s: State, tx: Tx, epoch: int): Verdict {
    var v := TransferVerdict(h, s, tx, epoch);
    if v != Valid then v else if HasPayload(tx.outputs) then Valid else Invalid(NoPayload)
  }

  const MAX_COINBASE_VALUE: int := 10_000_000_000

  function CoinbaseVerdict(tx: Tx): Verdict {
    if tx.inputs != [] then Invalid(CoinbaseHasInputs)
    else if tx.outputs == [] then Invalid(NoOutputs)
    else if TotalOutput(tx.outputs) > MAX_COINBASE_VALUE then Invalid(CoinbaseTooLarge)
    else Valid
  }

  function SlashInputVerdict(h: Sha256, s: State, i: TxInput, message: Digest): Verdict {
    if !Verifies(h, message, i.signature, i.publicKey) then Invalid(BadSignature)
    else if i.prev !in s.utxos then Invalid(UtxoNotFound)
    else if s.utxos[i.prev].isSpent then Invalid(UtxoSpent)
    else if s.utxos[i.prev].output.lockEpoch == 0 then Invalid(NotStaked)
    else Valid
  }

  function SlashInputsVerdict(h: Sha256, s: State, inputs: seq<TxInput>, message: Digest): Verdict {
    if inputs == [] then Valid
    else if SlashInputVerdict(h, s, inputs[0], message) != Valid then SlashInputVerdict(h, s, inputs[0], message)
    else SlashInputsVerdict(h, s, inputs[1..], message)
  }

  function SlashVerdict(h: Sha256, s: State, tx: Tx): Verdict {
    if tx.outputs == [] then Invalid(NoOutputs)
    else if |tx.outputs[0].data| < 32 then Invalid(NoEvidence)
    else if tx.inputs == [] then Invalid(NoInputs)
    else if !Encodable(tx) then Raised
    else SlashInputsVerdict(h, s, tx.inputs, TxHash(h, tx))
  }

  const REGISTER_DATA_SIZE: nat := 96

  function RegisterVerdict(hs: Hashes, s: State, tx: Tx, epoch: int): Verdict {
    if |tx.inputs| != 1 then Invalid(NotOneInput)
    else if tx.outputs == [] then Invalid(NoOutputs)
    else if |tx.outputs[0].data| != REGISTER_DATA_SIZE then Invalid(WrongDataLength)
    else
      var i, address := tx.inputs[0], AddressOf(hs, tx.outputs[0].data[..64]);
      if i.prev !in s.utxos then Invalid(UtxoNotFound)
      else if s.utxos[i.prev].isSpent then Invalid(UtxoSpent)
      else if s.utxos[i.prev].output.address != address then Invalid(AddressMismatch)
      else if s.utxos[i.prev].output.lockEpoch > epoch then Invalid(UtxoLocked)
      else if !Encodable(tx) then Raised
      else if !Verifies(hs.h256, TxHash(hs.h256, tx), i.signature, i.publicKey) then Invalid(BadSignature)
      else if address in s.registry.registered then Invalid(AlreadyRegistered)
      else Balanced(s, tx)
  }

  const FIRST_RESERVED_KEY: nat := 1022

  /** The rotation input is signed with a reserved key of the batch whose root is on chain. */
  function RotationVerdict(hs: Hashes, s: State, tx: Tx, owner: Bytes): Verdict
    requires tx.inputs != []
  {
    var i := tx.inputs[0];
    var field := RotationKey.Parse(i.publicKey);
    if owner !in s.registry.registered then Invalid(NotRegistered)
    else if field.Err? then Invalid(field.error)
    else if !Encodable(tx) then Raised
    else if !(owner in s.registry.roots
      && AuthVerifies(hs, TxHash(hs.h256, tx), i.signature, field.value.publicKey, field.value.proof, s.registry.roots[owner]))
    then Invalid(AuthFailed)
    else if field.value.keyIndex < FIRST_RESERVED_KEY then Invalid(KeyNotReserved)
    else Balanced(s, tx)
  }

  function RotateVerdict(hs: Hashes, s: State, tx: Tx, epoch: int): Verdict {
    if |tx.inputs| != 1 then Invalid(NotOneInput)
    else if tx.outputs == [] then Invalid(NoOutputs)
    else if |tx.outputs[0].data| != 32 then Invalid(WrongDataLength)
    else if tx.inputs[0].prev !in s.utxos then Invalid(UtxoNotFound)
    else if s.utxos[tx.inputs[0].prev].isSpent then Invalid(UtxoSpent)
    else if s.utxos[tx.inputs[0].prev].output.lockEpoch > epoch then Invalid(UtxoLocked)
    else RotationVerdict(hs, s, tx, s.utxos[tx.inputs[0].prev].output.address)
  }

  function TypeVerdict(hs: Hashes, s: State, tx: Tx, epoch: int): Verdict {
    match tx.txType
    case Coinbase => CoinbaseVerdict(tx)
    case Transfer => TransferVerdict(hs.h256, s, tx, epoch)
    case Stake => StakeVerdict(hs.h256, s, tx, epoch)
    case Unstake => TransferVerdict(hs.h256, s, tx, epoch)
    case Slash => SlashVerdict(hs.h256, s, tx)
    case Data => DataVerdict(hs.h256, s, tx, epoch)
    case Register => RegisterVerdict(hs, s, tx, epoch)
    case RotateAuth => RotateVerdict(hs, s, tx, epoch)
  }

  /** Structure, then the epoch window, then the rules of the type. */
  function Validate(hs: Hashes, s: State, tx: Tx, epoch: int): Verdict {
    if Structure(tx) != Valid then Structure(tx)
    else if tx.epoch > epoch then Invalid(FutureEpoch)
    else if tx.epoch < epoch - 1 then Invalid(ExpiredEpoch)
    else TypeVerdict(hs, s, tx, epoch)
  }

  // --------------------------------------------------------------- application

  function Spend(utxos: Utxos, r: OutRef, spender: Bytes): Utxos
    requires r in utxos
  {
    utxos[r := utxos[r].(isSpent := true, spentBy := Some(spender))]
  }

  /** How many inputs are spent before the first one that cannot be. */
  function SpentCount(utxos: Utxos, inputs: seq<TxInput>, spender: Bytes): (n: nat)
    ensures n <= |inputs|
  {
    if inputs == [] || !Spendable(utxos, inputs[0].prev) then 0
    else 1 + SpentCount(Spend(utxos, inputs[0].prev, spender), inputs[1..], spender)
  }

  function AfterSpends(utxos: Utxos, inputs: seq<TxInput>, spender: Bytes): Utxos {
    if inputs == [] || !Spendable(utxos, inputs[0].prev) then utxos
    else AfterSpends(Spend(utxos, inputs[0].prev, spender), inputs[1..], spender)
  }

  function Created(o: TxOutput, epoch: int): Utxo {
    Utxo(o, epoch, false, None)
  }

  function AddOutputs(utxos: Utxos, txHash: Bytes, outputs: seq<TxOutput>, epoch: int): Utxos {
    if outputs == [] then utxos
    else
      var n := |outputs| - 1;
      AddOutputs(utxos, txHash, outputs[..n], epoch)[OutRef(txHash, n) := Created(outputs[n], epoch)]
  }

  function StakeOf(staked: Stakes, address: Bytes): int {
    if address in staked then staked[address] else 0
  }

  /** Outputs locked beyond the transaction's epoch count as stake. */
  function AddStakes(staked: Stakes, outputs: seq<TxOutput>, epoch: int): Stakes {
    if outputs == [] then staked
    else
      var n := |outputs| - 1;
      var before, o := AddStakes(staked, outputs[..n], epoch), outputs[n];
      if o.lockEpoch > epoch then before[o.address := StakeOf(before, o.address) + o.value] else before
  }

  function RegisterVia(reg: Registry, address: Bytes, root: Bytes): Registry {
    if address in reg.registered then reg
    else Registry(reg.roots[address := root], reg.registered + {address}, reg.rotations[address := 0])
  }

  function RotateVia(reg: Registry, address: Bytes, root: Bytes): Registry {
    if address !in reg.registered then reg
    else
      var count := if address in reg.rotations then reg.rotations[address] else 0;
      Registry(reg.roots[address := root], reg.registered, reg.rotations[address := count + 1])
  }

  /** Stopped: an input could not be spent; Crashed: an exception was raised on the way. */
  datatype Applied = Done(state: State) | Stopped(state: State) | Crashed(state: State)

  /** The registry part of apply_transaction, with the outputs already added. */
  function ApplyRegistry(hs: Hashes, s: State, tx: Tx): Applied {
    match tx.txType
    case Register =>
      if tx.outputs == [] then Crashed(s)
      else
        var data := tx.outputs[0].data;
        Done(s.(registry := RegisterVia(s.registry, AddressOf(hs, Slice(data, 0, 64)), Slice(data, 64, 96))))
    case RotateAuth =>
      if tx.outputs == [] || tx.inputs == [] then Crashed(s)
      else if tx.inputs[0].prev !in s.utxos then Stopped(s)
      else
        var owner := s.utxos[tx.inputs[0].prev].output.address;
        Done(s.(registry := RotateVia(s.registry, owner, Slice(tx.outputs[0].data, 0, 32))))
    case _ => Done(s)
  }

  function AfterOutputs(s: State, tx: Tx, txHash: Bytes): State {
    s.(utxos := AddOutputs(s.utxos, txHash, tx.outputs, tx.epoch),
       staked := if tx.txType == Stake then AddStakes(s.staked, tx.outputs, tx.epoch) else s.staked)
  }

  /** apply_transaction. */
  function Apply(hs: Hashes, s: State, tx: Tx): Applied {
    if !Encodable(tx) && (tx.inputs != [] || tx.outputs != []) then Crashed(s)
    else
      var spender := TxHash(hs.h256, tx);
      var spent := s.(utxos := AfterSpends(s.utxos, tx.inputs, spender));
      if SpentCount(s.utxos, tx.inputs, spender) < |tx.inputs| then Stopped(spent)
      else ApplyRegistry(hs, AfterOutputs(spent, tx, spender), tx)
  }
}
