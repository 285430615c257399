/** The BinaOracle contract as a state machine on values: every external call either reverts or takes one step. */
module OracleStates {
  import opened Wrappers
  import opened Sums

  /** Addresses and 32-byte words; zero is the unset value. */
  type EvmAddress = nat
  type Word = nat

  const MIN_WORK_BITS: nat := 22
  const MAX_WORK_BITS: nat := 64
  const MAX_TIMESTAMP_DRIFT: nat := 3_600
  const MAX_TIMESTAMP_AGE: nat := 604_800
  const MIN_PUBLISHER_BOND: nat := 1_000_000_000_000_000_000
  const COMMITMENT_SLASH_AMOUNT: nat := 500_000_000_000_000_000
  /** Stands for keccak256("BINA_GENERIC_UTILITY"). */
  const PURPOSE_GENERIC: Word := 1

  datatype BinaOutput = BinaOutput(
    height: nat, blockHash: Word, randomnessOutput: Word, nullifier: Word, binaMiner: Word, btcHeight: nat, btcSeed: Word,
    minedTimestamp: nat, workBits: nat, claimDigest: Word, electionScore: Word, falconVerified: bool)

  datatype StoredOutput = StoredOutput(
    randomnessOutput: Word, nullifier: Word, binaMiner: Word, height: nat, btcHeight: nat, minedTimestamp: nat,
    workBits: nat, falconVerified: bool, proofHash: Word, attestationCount: nat, publisher: EvmAddress)

  /** keccak256(abi.encode(output, purposes)) under an ideal hash; unset in fresh storage. */
  datatype Fingerprint = Unset | Fingerprint(output: BinaOutput, purposes: seq<Word>)

  datatype Attestation = Attestation(fingerprint: Fingerprint, count: nat)

  datatype Commitment = Commitment(
    purpose: Word, targetHeight: nat, deadline: nat, assignedPublisher: EvmAddress, resolved: bool)

  /** A finalised submission as it happened: who attested, and the quorum then in force. */
  datatype Finalised = Finalised(output: BinaOutput, purposes: seq<Word>, attesters: set<EvmAddress>, threshold: nat)

  datatype Error =
    | NotOwner | NotPublisher | ZeroAddress | ZeroValue | NotPayable | InvalidTimestamp | InvalidWorkBits | AlreadySubmitted
    | NullifierAlreadyUsed | RequestNotFound | RequestAlreadyFulfilled | FalconNotVerified | StaleHeight
    | AttestationMismatch | AlreadyAttested | NoActivePublishers | InsufficientFreeBond | InsufficientBond
    | DeadlineInPast | DeadlineNotReached | TransferFailed | Underflow

  datatype Access = Access(owner: EvmAddress, publishers: set<EvmAddress>, requireFalcon: bool, quorum: nat)

  /** Bonds, the active rotation and liveness commitments, with the contract's own balance. */
  datatype Bonding = Bonding(
    bonds: map<EvmAddress, nat>,
    locked: map<EvmAddress, nat>,
    active: seq<EvmAddress>,
    index1: map<EvmAddress, nat>,
    commitments: map<nat, Commitment>,
    nextCommitmentId: nat,
    balance: nat)

  datatype Pool = Pool(attestations: map<Word, Attestation>, attested: map<Word, set<EvmAddress>>) {
    function AttestersOf(blockHash: Word): set<EvmAddress> {
      if blockHash in attested then attested[blockHash] else {}
    }

    function At(blockHash: Word): Attestation {
      if blockHash in attestations then attestations[blockHash] else Attestation(Unset, 0)
    }
  }

  datatype Latest = Latest(height: map<Word, nat>, seed: map<Word, Word>, block: map<Word, Word>, btcHeight: map<Word, nat>)

  /** Finalised outputs; `history` records the submissions that storage only keeps in part. */
  datatype Feed = Feed(
    outputs: map<Word, StoredOutput>, usedNullifiers: set<Word>, blockHashes: seq<Word>, latest: Latest, history: seq<Finalised>)

  datatype OracleState = OracleState(access: Access, bonding: Bonding, pool: Pool, feed: Feed)

  /** The transaction around a call; `payoutOk` is the outcome of the external value transfer, if one is made. */
  datatype Env = Env(sender: EvmAddress, value: nat, now: nat, payoutOk: bool)

  /** The constructor. */
  function Deployed(deployer: EvmAddress, initialPublisher: EvmAddress): OracleState {
    OracleState(
      Access(deployer, if initialPublisher != 0 then {deployer, initialPublisher} else {deployer}, false, 1),
      Bonding(map[], map[], [], map[], map[], 1, 0),
      Pool(map[], map[]),
      Feed(map[], {}, [], Latest(map[], map[], map[], map[]), []))
  }

  // ---------------------------------------------------------------- administration

  function TransferOwnership(access: Access, env: Env, newOwner: EvmAddress): Result<Access, Error> {
    if env.sender != access.owner then Failure(NotOwner)
    else if newOwner == 0 then Failure(ZeroAddress)
    else Success(access.(owner := newOwner))
  }

  function SetRequireFalcon(access: Access, env: Env, required: bool): Result<Access, Error> {
    if env.sender != access.owner then Failure(NotOwner) else Success(access.(requireFalcon := required))
  }

  function SetQuorum(access: Access, env: Env, threshold: nat): Result<Access, Error> {
    if env.sender != access.owner then Failure(NotOwner)
    else if threshold == 0 then Failure(ZeroValue)
    else Success(access.(quorum := threshold))
  }

  // ---------------------------------------------------------------- the active set

  /** Swap the last entry into the freed slot, then pop. An index past the end would panic; it never occurs. */
  function RemoveActive(active: seq<EvmAddress>, index1: map<EvmAddress, nat>, publisher: EvmAddress)
    : (seq<EvmAddress>, map<EvmAddress, nat>)
  {
    var idx1 := At(index1, publisher);
    if idx1 == 0 || idx1 > |active| then (active, index1)
    else
      var last := |active| - 1;
      var moved := active[last];
      (active[idx1 - 1 := moved][..last], index1[moved := idx1][publisher := 0])
  }

  function WithoutActive(b: Bonding, publisher: EvmAddress): Bonding {
    var (active, index1) := RemoveActive(b.active, b.index1, publisher);
    b.(active := active, index1 := index1)
  }

  function SetPublisher(access: Access, b: Bonding, env: Env, publisher: EvmAddress, authorized: bool)
    : Result<(Access, Bonding), Error>
  {
    if env.sender != access.owner then Failure(NotOwner)
    else if publisher == 0 then Failure(ZeroAddress)
    else if authorized then Success((access.(publishers := access.publishers + {publisher}), b))
    else Success((access.(publishers := access.publishers - {publisher}), WithoutActive(b, publisher)))
  }

  // ---------------------------------------------------------------- bonding

  function DepositBond(publishers: set<EvmAddress>, b: Bonding, env: Env): Result<Bonding, Error> {
    if env.sender !in publishers then Failure(NotPublisher)
    else if env.value == 0 then Failure(ZeroValue)
    else
      var bond := At(b.bonds, env.sender) + env.value;
      var funded := b.(bonds := b.bonds[env.sender := bond], balance := b.balance + env.value);
      if bond >= MIN_PUBLISHER_BOND && At(b.index1, env.sender) == 0
      then Success(funded.(active := b.active + [env.sender], index1 := b.index1[env.sender := |b.active| + 1]))
      else Success(funded)
  }

  /** Checked subtraction from a bond, and removal from the active set when it falls below the minimum. */
  function ReduceBond(b: Bonding, publisher: EvmAddress, amount: nat): Bonding
    requires amount <= At(b.bonds, publisher)
  {
    var bond := At(b.bonds, publisher) - amount;
    var reduced := b.(bonds := b.bonds[publisher := bond]);
    if bond < MIN_PUBLISHER_BOND then WithoutActive(reduced, publisher) else reduced
  }

  function Pay(b: Bonding, env: Env, amount: nat): Result<Bonding, Error> {
    if !env.payoutOk then Failure(TransferFailed)
    else if amount > b.balance then Failure(Underflow)
    else Success(b.(balance := b.balance - amount))
  }

  function WithdrawBond(b: Bonding, env: Env, amount: nat): Result<Bonding, Error> {
    var bond, locked := At(b.bonds, env.sender), At(b.locked, env.sender);
    if bond < locked then Failure(Underflow)
    else if amount == 0 || amount > bond - locked then Failure(InsufficientBond)
    else Pay(ReduceBond(b, env.sender, amount), env, amount)
  }

  // ---------------------------------------------------------------- liveness commitments

  function Effective(purpose: Word): Word {
    if purpose == 0 then PURPOSE_GENERIC else purpose
  }

  /** Lock one slash amount of the assignee's bond under a new commitment. */
  function Commit(b: Bonding, commitment: Commitment): Bonding {
    var assignee := commitment.assignedPublisher;
    b.(locked := b.locked[assignee := At(b.locked, assignee) + COMMITMENT_SLASH_AMOUNT],
       commitments := b.commitments[b.nextCommitmentId := commitment],
       nextCommitmentId := b.nextCommitmentId + 1)
  }

  function RequestFuture(b: Bonding, env: Env, purpose: Word, targetHeight: nat, deadline: nat): Result<Bonding, Error> {
    if deadline <= env.now then Failure(DeadlineInPast)
    else if b.active == [] then Failure(NoActivePublishers)
    else
      var assignee := b.active[targetHeight % |b.active|];
      var bond, locked := At(b.bonds, assignee), At(b.locked, assignee);
      if bond < locked then Failure(Underflow)
      else if bond - locked < COMMITMENT_SLASH_AMOUNT then Failure(InsufficientFreeBond)
      else Success(Commit(b, Commitment(Effective(purpose), targetHeight, deadline, assignee, false)))
  }

  predicate Reached(heights: map<Word, nat>, commitment: Commitment) {
    At(heights, commitment.purpose) >= commitment.targetHeight
  }

  /** Mark the commitment resolved and release `amount` of its lock. */
  function Unlock(b: Bonding, id: nat, amount: nat): Bonding
    requires id in b.commitments && amount <= At(b.locked, b.commitments[id].assignedPublisher)
  {
    var c := b.commitments[id];
    b.(commitments := b.commitments[id := c.(resolved := true)],
       locked := b.locked[c.assignedPublisher := At(b.locked, c.assignedPublisher) - amount])
  }

  function Resolve(heights: map<Word, nat>, b: Bonding, env: Env, id: nat): Result<Bonding, Error> {
    if id !in b.commitments || b.commitments[id].deadline == 0 then Failure(RequestNotFound)
    else if b.commitments[id].resolved then Failure(RequestAlreadyFulfilled)
    else
      var c := b.commitments[id];
      if !Reached(heights, c) && env.now < c.deadline then Failure(DeadlineNotReached)
      else
        var locked := At(b.locked, c.assignedPublisher);
        var amount := if locked < COMMITMENT_SLASH_AMOUNT then locked else COMMITMENT_SLASH_AMOUNT;
        var unlocked := Unlock(b, id, amount);
        if Reached(heights, c) then Success(unlocked)
        else if At(b.bonds, c.assignedPublisher) < amount then Failure(Underflow)
        else Pay(ReduceBond(unlocked, c.assignedPublisher, amount), env, amount)
  }

  // ---------------------------------------------------------------- output ingestion

  function ValidateOutput(requireFalcon: bool, now: nat, o: BinaOutput): Option<Error> {
    if o.height == 0 || o.blockHash == 0 || o.randomnessOutput == 0 || o.nullifier == 0 || o.binaMiner == 0
       || o.btcSeed == 0 || o.claimDigest == 0 then Some(ZeroValue)
    else if requireFalcon && !o.falconVerified then Some(FalconNotVerified)
    else if o.workBits < MIN_WORK_BITS || o.workBits > MAX_WORK_BITS then Some(InvalidWorkBits)
    else if o.minedTimestamp > now + MAX_TIMESTAMP_DRIFT then Some(InvalidTimestamp)
    else if o.minedTimestamp + MAX_TIMESTAMP_AGE < now then Some(InvalidTimestamp)
    else None
  }

  function EffectivePurposes(purposes: seq<Word>): seq<Word> {
    seq(|purposes|, i requires 0 <= i < |purposes| => Effective(purposes[i]))
  }

  function Attest(pool: Pool, sender: EvmAddress, o: BinaOutput, purposes: seq<Word>): Pool {
    Pool(pool.attestations[o.blockHash := Attestation(Fingerprint(o, purposes), pool.At(o.blockHash).count + 1)],
         pool.attested[o.blockHash := pool.AttestersOf(o.blockHash) + {sender}])
  }

  /** Every named purpose takes the new value. */
  function Advance(latest: map<Word, nat>, purposes: seq<Word>, value: nat): map<Word, nat> {
    map p | p in latest.Keys + (set q | q in purposes) :: if p in purposes then value else latest[p]
  }

  function AdvanceAll(latest: Latest, purposes: seq<Word>, o: BinaOutput): Latest {
    Latest(Advance(latest.height, purposes, o.height), Advance(latest.seed, purposes, o.randomnessOutput),
           Advance(latest.block, purposes, o.blockHash), Advance(latest.btcHeight, purposes, o.btcHeight))
  }

  function Stored(o: BinaOutput, proofHash: Word, count: nat, publisher: EvmAddress): StoredOutput {
    StoredOutput(o.randomnessOutput, o.nullifier, o.binaMiner, o.height, o.btcHeight, o.minedTimestamp, o.workBits,
                 o.falconVerified, proofHash, count, publisher)
  }

  /** Store a submission that reached its quorum and advance the purposes it names. */
  function FinaliseOutput(feed: Feed, entry: Finalised, stored: StoredOutput): Feed {
    var o := entry.output;
    Feed(
      feed.outputs[o.blockHash := stored],
      feed.usedNullifiers + {o.nullifier},
      feed.blockHashes + [o.blockHash],
      AdvanceAll(feed.latest, entry.purposes, o),
      feed.history + [entry])
  }

  function Submit(access: Access, pool: Pool, feed: Feed, env: Env, o: BinaOutput, purposes: seq<Word>, proofHash: Word)
    : Result<(Pool, Feed), Error>
  {
    if env.sender !in access.publishers then Failure(NotPublisher)
    else if purposes == [] then Failure(ZeroValue)
    else AttestAndMaybeFinalise(access, pool, feed, env, o, purposes, proofHash)
  }

  function AttestAndMaybeFinalise(access: Access, pool: Pool, feed: Feed, env: Env, o: BinaOutput, purposes: seq<Word>, proofHash: Word)
    : Result<(Pool, Feed), Error>
  {
    match ValidateOutput(access.requireFalcon, env.now, o)
    case Some(error) => Failure(error)
    case None =>
      var attestation := pool.At(o.blockHash);
      if o.blockHash in feed.outputs && feed.outputs[o.blockHash].randomnessOutput != 0 then Failure(AlreadySubmitted)
      else if o.nullifier in feed.usedNullifiers then Failure(NullifierAlreadyUsed)
      else if attestation.count != 0 && attestation.fingerprint != Fingerprint(o, purposes) then Failure(AttestationMismatch)
      else if env.sender in pool.AttestersOf(o.blockHash) then Failure(AlreadyAttested)
      else
        var next := Attest(pool, env.sender, o, purposes);
        var named := EffectivePurposes(purposes);
        if attestation.count + 1 < access.quorum then Success((next, feed))
        else if exists p :: p in named && o.height < At(feed.latest.height, p) then Failure(StaleHeight)
        else
          var entry := Finalised(o, named, next.AttestersOf(o.blockHash), access.quorum);
          Success((next, FinaliseOutput(feed, entry, Stored(o, proofHash, attestation.count + 1, env.sender))))
  }

  // ---------------------------------------------------------------- calls and runs

  datatype Call =
    | TransferringOwnership(newOwner: EvmAddress)
    | SettingPublisher(publisher: EvmAddress, authorized: bool)
    | SettingFalcon(required: bool)
    | SettingQuorum(threshold: nat)
    | Depositing
    | Withdrawing(amount: nat)
    | Requesting(purpose: Word, targetHeight: nat, deadline: nat)
    | Resolving(id: nat)
    | Submitting(output: BinaOutput, purposes: seq<Word>, proofHash: Word)

  function WithAccess(state: OracleState, result: Result<Access, Error>): Result<OracleState, Error> {
    match result case Success(access) => Success(state.(access := access)) case Failure(error) => Failure(error)
  }

  function WithBonding(state: OracleState, result: Result<Bonding, Error>): Result<OracleState, Error> {
    match result case Success(b) => Success(state.(bonding := b)) case Failure(error) => Failure(error)
  }

  /** A call with ether attached to an entry point that takes none. */
  function NonPayable<T>(env: Env, result: Result<T, Error>): Result<T, Error> {
    if env.value > 0 then Failure(NotPayable) else result
  }

  /** Only `depositBond` is payable. */
  function Execute(state: OracleState, env: Env, call: Call): Result<OracleState, Error> {
    if env.value > 0 && !call.Depositing? then Failure(NotPayable)
    else
      match call
      case TransferringOwnership(newOwner) => WithAccess(state, TransferOwnership(state.access, env, newOwner))
      case SettingFalcon(required) => WithAccess(state, SetRequireFalcon(state.access, env, required))
      case SettingQuorum(threshold) => WithAccess(state, SetQuorum(state.access, env, threshold))
      case SettingPublisher(publisher, authorized) =>
        (match SetPublisher(state.access, state.bonding, env, publisher, authorized)
         case Success((access, b)) => Success(state.(access := access, bonding := b))
         case Failure(error) => Failure(error))
      case Depositing => WithBonding(state, DepositBond(state.access.publishers, state.bonding, env))
      case Withdrawing(amount) => WithBonding(state, WithdrawBond(state.bonding, env, amount))
      case Requesting(purpose, target, deadline) => WithBonding(state, RequestFuture(state.bonding, env, purpose, target, deadline))
      case Resolving(id) => WithBonding(state, Resolve(state.feed.latest.height, state.bonding, env, id))
      case Submitting(output, purposes, proofHash) =>
        (match Submit(state.access, state.pool, state.feed, env, output, purposes, proofHash)
         case Success((pool, feed)) => Success(state.(pool := pool, feed := feed))
         case Failure(error) => Failure(error))
  }

  datatype Transaction = Transaction(env: Env, call: Call)

  /** A reverted call leaves the state as it was. */
  function Step(state: OracleState, tx: Transaction): OracleState {
    match Execute(state, tx.env, tx.call)
    case Success(next) => next
    case Failure(_) => state
  }

  function Run(state: OracleState, txs: seq<Transaction>): OracleState {
    if txs == [] then state else Step(Run(state, txs[..|txs|-1]), txs[|txs|-1])
  }
}
