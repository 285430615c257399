/**
 The node as a state machine on values: accept a claim, propose, finalise, sync a record, roll back to a fork
 point, enqueue a transaction. Every field besides the store and the mempool is derived state kept by hand.
 */
module NodeStates {
  import opened Numbers
  import opened Wrappers
  import opened Types
  import opened Ledgers
  import opened Supply
  import opened Replay
  import opened Merkle
  import opened Difficulty
  import opened Checkpoints
  import opened Claims
  import opened Chains
  import opened ChainLogs

  const MAX_MEMPOOL_SIZE: nat := 50_000
  const MAX_AUTO_REORG_DEPTH: u64 := EPOCH_SIZE - 1
  const BTC_HEIGHT_TOLERANCE: u64 := 2

  datatype CheckpointProof = CheckpointProof(tip: nat, tipHeight: u64, utxo: nat, stalePool: nat) {
    function Seed(): Digest {
      SeedHash(tip, utxo, stalePool)
    }
  }

  /** A candidate for one height. The ranks are the numeric readings of its hashes that the election compares. */
  datatype PendingClaim = PendingClaim(
    header: Header,
    workBits: nat,
    scoreRank: nat,
    hashRank: nat,
    authentic: bool,
    checkpoint: Option<CheckpointProof>,
    transactions: seq<SignedTransaction>)
  {
    /** `SignedBlockClaim::verify`, and the 20-byte type of the miner address. */
    predicate Verifies() {
      authentic && ParseAddress(header.miner) == Some(header.miner)
    }

    function Hash(): Digest {
      HeaderHash(header)
    }

    function AsRanked(): Ranked<PendingClaim> {
      Ranked(workBits, scoreRank, hashRank, this)
    }
  }

  type Mempool = map<Digest, SignedTransaction>
  type PendingClaims = map<u64, map<Address, PendingClaim>>
  type Store = map<u64, BlockRecord>

  datatype NodeState = NodeState(
    store: Store,
    height: u64,
    tipHash: Digest,
    lastTimestamp: u64,
    seed: Digest,
    chainWork: u128,
    adjuster: Adjuster,
    ledger: Ledger,
    log: seq<Row>,
    mempool: Mempool,
    pending: PendingClaims)

  const GENESIS_STATE: NodeState := NodeState(
    map[], 0, HeaderHash(GENESIS), GENESIS_TIMESTAMP_MS, ZeroDigest, 0, GENESIS_ADJUSTER, EMPTY_LEDGER, [], map[], map[])

  // ---------------------------------------------------------------- accepting a claim

  datatype Reject =
    | InvalidClaim | TooManyTransactions | MerkleMismatch | WrongHeight | WrongPrevHash | WrongDifficulty
    | InvalidTimestamp | MissingCheckpoint | CheckpointMismatch | ImplausibleCheckpoint | WrongSeed
    | InvalidTransaction | StateRootMismatch | DuplicateMiner

  /** The live Bitcoin readings a checkpoint claim is compared with. */
  datatype BtcView = BtcView(previousTip: u64, observedTip: u64)

  /** Phase 1 and 2 of `accept_signed_claim`: the first failing check, if any. */
  function CheckClaim(state: NodeState, claim: PendingClaim, now: u64, btc: BtcView): Option<Reject> {
    var header := claim.header;
    if !claim.Verifies() then Some(InvalidClaim)
    else if |claim.transactions| > MAX_TXS_PER_BLOCK then Some(TooManyTransactions)
    else if RootOfTransactions(claim.transactions) != header.merkleRoot then Some(MerkleMismatch)
    else if header.height != state.height + 1 then Some(WrongHeight)
    else if header.prevHash != state.tipHash then Some(WrongPrevHash)
    else if header.difficultyBits != state.adjuster.currentBits then Some(WrongDifficulty)
    else if !TimestampIsValid(header.timestamp, state.lastTimestamp, now, MAX_FUTURE_MS) then Some(InvalidTimestamp)
    else if IsCheckpointHeight(header.height) && claim.checkpoint.None? then Some(MissingCheckpoint)
    else if IsCheckpointHeight(header.height) && claim.checkpoint.value.Seed() != header.seed then Some(CheckpointMismatch)
    else if IsCheckpointHeight(header.height)
      && !Plausible(claim.checkpoint.value.tipHeight, btc.previousTip, btc.observedTip, BTC_HEIGHT_TOLERANCE)
    then Some(ImplausibleCheckpoint)
    else if !IsCheckpointHeight(header.height) && header.seed != state.seed then Some(WrongSeed)
    else
      var reward := BlockReward(header.height, state.ledger.totalMined);
      var (applied, root) := SimulateBlock(state.ledger, claim.transactions, header.miner, reward);
      if |applied| != |claim.transactions| then Some(InvalidTransaction)
      else if root != header.stateRoot then Some(StateRootMismatch)
      else None
  }

  function CandidatesAt(pending: PendingClaims, height: u64): map<Address, PendingClaim> {
    if height in pending then pending[height] else map[]
  }

  /** `accept_signed_claim`: the first valid claim of each miner for the next height is kept. */
  function AcceptClaim(state: NodeState, claim: PendingClaim, now: u64, btc: BtcView): Result<NodeState, Reject> {
    match CheckClaim(state, claim, now, btc)
    case Some(reject) => Failure(reject)
    case None =>
      var candidates := CandidatesAt(state.pending, claim.header.height);
      if claim.header.miner in candidates then Failure(DuplicateMiner)
      else Success(state.(pending := state.pending[claim.header.height := candidates[claim.header.miner := claim]]))
  }

  // ---------------------------------------------------------------- proposing and finalising

  /** Everything a miner chooses or observes when it builds its own candidate. */
  datatype Proposal = Proposal(
    miner: Address, candidates: seq<SignedTransaction>, now: u64, nonce: u64, proof: CheckpointProof,
    workBits: nat, scoreRank: nat, hashRank: nat)

  /** The claim the mining loop builds on its own tip: filter the mempool by simulation, commit to the result. */
  function BuildClaim(state: NodeState, p: Proposal): PendingClaim
    requires state.height < U64_MAX
  {
    var height := state.height + 1;
    var checkpoint := IsCheckpointHeight(height);
    var seed := if checkpoint then p.proof.Seed() else state.seed;
    var reward := BlockReward(height, state.ledger.totalMined);
    var next := SaturatingAdd(state.lastTimestamp, 1);
    var timestamp := if p.now > next then p.now else next;
    var candidates := if |p.candidates| <= MAX_TXS_PER_BLOCK then p.candidates else p.candidates[..MAX_TXS_PER_BLOCK];
    var (applied, root) := SimulateBlock(state.ledger, candidates, p.miner, reward);
    var header := Header(
      1, height, state.tipHash, RootOfTransactions(applied), root, timestamp, p.nonce, p.miner,
      state.adjuster.currentBits, seed);
    PendingClaim(header, p.workBits, p.scoreRank, p.hashRank, true, if checkpoint then Some(p.proof) else None, applied)
  }

  /** The loop inserts its claim unless its own address already has one for this height. */
  function Propose(state: NodeState, p: Proposal): NodeState {
    if state.height == U64_MAX || ParseAddress(p.miner) != Some(p.miner) then state
    else
      var height := state.height + 1;
      var candidates := CandidatesAt(state.pending, height);
      if p.miner in candidates then state
      else state.(pending := state.pending[height := candidates[p.miner := BuildClaim(state, p)]])
  }

  /** The candidates of a height in the order a hash map happens to yield them. */
  function InOrder(candidates: map<Address, PendingClaim>, order: seq<Address>): seq<Ranked<PendingClaim>> {
    if order == [] then []
    else InOrder(candidates, order[..|order|-1])
         + if order[|order|-1] in candidates then [candidates[order[|order|-1]].AsRanked()] else []
  }

  lemma {:induction false} InOrderIsPending(candidates: map<Address, PendingClaim>, order: seq<Address>, ranked: Ranked<PendingClaim>)
    requires ranked in InOrder(candidates, order)
    ensures ranked.item in candidates.Values && ranked == ranked.item.AsRanked()
    ensures exists miner :: miner in order && miner in candidates && candidates[miner] == ranked.item
  {
    var rest, last := order[..|order|-1], order[|order|-1];
    if ranked in InOrder(candidates, rest) {
      InOrderIsPending(candidates, rest, ranked);
    } else {
      assert last in order && candidates[last] in candidates.Values;
    }
  }

  function Winner(state: NodeState, order: seq<Address>): Option<PendingClaim>
    requires state.height < U64_MAX
  {
    match SelectWinning(InOrder(CandidatesAt(state.pending, state.height + 1), order))
    case None => None
    case Some(ranked) => Some(ranked.item)
  }

  /** The record of an elected claim. */
  function RecordOf(claim: PendingClaim, height: u64, reward: u64): BlockRecord {
    var header := claim.header;
    BlockRecord(
      height, claim.Hash(), header.prevHash, header.nonce, header.timestamp, header.difficultyBits, header.miner, reward,
      header.seed, header.merkleRoot, header.stateRoot, claim.transactions, claim.authentic)
  }

  function Drop(mempool: Mempool, txs: seq<SignedTransaction>): Mempool {
    mempool - set signed | signed in txs :: signed.Id()
  }

  function Above(pending: PendingClaims, height: u64): PendingClaims {
    map h | h in pending && h > height :: pending[h]
  }

  /** What adopting a block does to everything but the pinned seed. */
  function Adopt(state: NodeState, record: BlockRecord, seed: Digest): NodeState {
    NodeState(
      state.store[record.height := record],
      record.height,
      record.blockHash,
      record.timestamp,
      seed,
      SaturatingAdd128(state.chainWork, Work128(record.difficultyBits)),
      RecordBlock(state.adjuster, Stamp(record.height, record.timestamp)),
      ExecuteBlock(state.ledger, record.transactions, record.minerAddress, record.rewardBina),
      state.log + BlockRows(state.ledger, record),
      Drop(state.mempool, record.transactions),
      Above(state.pending, record.height))
  }

  /** `1u128 << bits.min(127)`. */
  function Work128(bits: nat): (work: u128)
    ensures work == BlockWork(bits)
  {
    PowerMonotone(Min(bits, 127), 127);
    Pow127();
    BlockWork(bits)
  }

  lemma Pow127()
    ensures Pow2(127) <= U128_MAX
  {
    PowersOfTwo();
    PowerSum(45, 45);
    PowerSum(90, 35);
    assert Pow2(35) == 0x8_0000_0000 by {
      assert Pow2(5) == 32; assert Pow2(10) == 1024; assert Pow2(15) == 0x8000; assert Pow2(20) == 0x10_0000;
      assert Pow2(25) == 0x200_0000; assert Pow2(30) == 0x4000_0000;
    }
    assert Pow2(127) == 4 * Pow2(125);
  }

  lemma {:induction false} PowerSum(a: nat, b: nat)
    ensures Pow2(a + b) == Pow2(a) * Pow2(b)
    decreases b
  {
    if b > 0 {
      PowerSum(a, b - 1);
    }
  }

  /** The finalise part of the mining loop, once the grace period is over. */
  function Finalise(state: NodeState, order: seq<Address>): NodeState {
    if state.height == U64_MAX || Winner(state, order).None? then state
    else
      var winner, height := Winner(state, order).value, state.height + 1;
      var reward := BlockReward(height, state.ledger.totalMined);
      var seed := if IsCheckpointHeight(height) && winner.checkpoint.Some? then winner.header.seed else state.seed;
      Adopt(state, RecordOf(winner, height, reward), seed)
  }

  // ---------------------------------------------------------------- syncing

  datatype SyncStop =
    | OutOfSequence | DoesNotChain | Malformed | BadTimestamp | BadDifficulty | BadSeed | Unverified | HashMismatch
    | BadMerkleRoot | OversizedBlock | BadExecution

  /** One record of a peer's page in `sync_forward_from_peer`. */
  function SyncRecord(state: NodeState, record: BlockRecord, now: u64): Result<NodeState, SyncStop> {
    if record.height != state.height + 1 then Failure(OutOfSequence)
    else if record.prevHash != state.tipHash then Failure(DoesNotChain)
    else if HeaderFromRecord(record, state.tipHash).None? then Failure(Malformed)
    else
      var header := HeaderFromRecord(record, state.tipHash).value;
      if !TimestampIsValid(header.timestamp, state.lastTimestamp, now, MAX_FUTURE_MS) then Failure(BadTimestamp)
      else if header.difficultyBits != state.adjuster.currentBits then Failure(BadDifficulty)
      else if !IsCheckpointHeight(record.height) && record.btcSeed != state.seed then Failure(BadSeed)
      else if !record.authentic then Failure(SyncStop.Unverified)
      else if HeaderHash(header) != record.blockHash then Failure(HashMismatch)
      else if RootOfTransactions(record.transactions) != header.merkleRoot then Failure(BadMerkleRoot)
      else if |record.transactions| > MAX_TXS_PER_BLOCK then Failure(OversizedBlock)
      else
        var (applied, root) := SimulateBlock(state.ledger, record.transactions, record.minerAddress, record.rewardBina);
        if |applied| != |record.transactions| || root != header.stateRoot then Failure(BadExecution)
        else Success(Adopt(state, record, if IsCheckpointHeight(record.height) then header.seed else state.seed))
  }

  /** A record as a peer sends it, with the reading of the local clock when its turn comes. */
  datatype Received = Received(record: BlockRecord, now: u64)

  /** A page is applied up to its first bad record; the flag says whether sync stops there. */
  function SyncPage(state: NodeState, page: seq<Received>): (NodeState, bool)
    decreases |page|
  {
    if page == [] then (state, false)
    else
      match SyncRecord(state, page[0].record, page[0].now)
      case Failure(_) => (state, true)
      case Success(next) => SyncPage(next, page[1..])
  }

  /** `sync_forward_from_peer` on the pages the peer answers with; running out of answers ends it. */
  function SyncForward(state: NodeState, target: u64, pages: seq<seq<Received>>): NodeState
    decreases |pages|
  {
    if state.height >= target || pages == [] || pages[0] == [] then state
    else
      var (next, stop) := SyncPage(state, pages[0]);
      if stop then next else SyncForward(next, target, pages[1..])
  }

  // ---------------------------------------------------------------- reorganising

  /** `get_range`: the stored records with heights in `[from, last]`, ascending. */
  function Range(store: Store, from: nat, last: u64): seq<BlockRecord>
    decreases last + 1 - from
  {
    if from > last then []
    else (if from in store then [store[from]] else []) + Range(store, from + 1, last)
  }

  function Requeue(mempool: Mempool, txs: seq<SignedTransaction>): Mempool {
    if txs == [] then mempool
    else Requeue(mempool, txs[..|txs|-1])[txs[|txs|-1].Id() := txs[|txs|-1]]
  }

  function RequeueBlocks(mempool: Mempool, blocks: seq<BlockRecord>): Mempool {
    if blocks == [] then mempool
    else Requeue(RequeueBlocks(mempool, blocks[..|blocks|-1]), blocks[|blocks|-1].transactions)
  }

  function WorkSum(blocks: seq<BlockRecord>): u128 {
    if blocks == [] then 0
    else SaturatingAdd128(WorkSum(blocks[..|blocks|-1]), Work128(blocks[|blocks|-1].difficultyBits))
  }

  function RollBackStore(store: Store, height: u64): Store {
    map h | h in store && h <= height :: store[h]
  }

  /** The walk back from the tip to the first height where the peer has our block. */
  function FindForkPoint(store: Store, peerHashes: map<u64, Digest>, from: u64, floor: u64): Option<u64> {
    if from <= floor then Some(from)
    else if from !in peerHashes || from !in store then None
    else if store[from].blockHash == peerHashes[from] then Some(from)
    else FindForkPoint(store, peerHashes, from - 1, floor)
  }

  /** The walk never climbs, and ends above the floor only at a block both sides have. */
  lemma {:induction false} ForkPointIsBelow(store: Store, hashes: map<u64, Digest>, from: u64, floor: u64)
    requires FindForkPoint(store, hashes, from, floor).Some?
    ensures FindForkPoint(store, hashes, from, floor).value <= from
    ensures floor < FindForkPoint(store, hashes, from, floor).value ==>
              var f := FindForkPoint(store, hashes, from, floor).value;
              f in hashes && f in store && store[f].blockHash == hashes[f]
  {
    if !(from <= floor || from !in hashes || from !in store || store[from].blockHash == hashes[from]) {
      ForkPointIsBelow(store, hashes, from - 1, floor);
    }
  }

  /** The guards `reconcile_fork` puts in front of a rollback. */
  predicate RollbackAllowed(state: NodeState, forkPoint: u64) {
    && SaturatingSub(state.height, MAX_AUTO_REORG_DEPTH) < forkPoint < state.height
    && forkPoint >= state.adjuster.epochStartHeight
  }

  /** The rollback part of `reconcile_fork`; `None` when a needed row is missing. */
  function RollBack(state: NodeState, forkPoint: u64): Option<NodeState> {
    var rolledBack := Range(state.store, forkPoint + 1, state.height);
    var governing := GoverningCheckpointHeight(forkPoint);
    if forkPoint > 0 && (forkPoint !in state.store || governing !in state.store) then None
    else
      var (tip, time) := if forkPoint == 0 then (HeaderHash(GENESIS), state.adjuster.epochStartMs)
                         else (state.store[forkPoint].blockHash, state.store[forkPoint].timestamp);
      var seed := if forkPoint == 0 then state.seed else state.store[governing].btcSeed;
      Some(NodeState(
        RollBackStore(state.store, forkPoint),
        forkPoint,
        tip,
        time,
        seed,
        SaturatingSub128(state.chainWork, WorkSum(rolledBack)),
        state.adjuster,
        OpenScoped(state.log, forkPoint),
        state.log,
        RequeueBlocks(state.mempool, rolledBack),
        Above(state.pending, forkPoint)))
  }

  /** A heavier peer, as its answers to the node's requests. */
  datatype Peer = Peer(height: u64, hashes: map<u64, Digest>, pages: seq<seq<Received>>)

  /** `reconcile_fork` once a heavier peer has been chosen. */
  function ReconcileFork(state: NodeState, peer: Peer): NodeState {
    if peer.height < state.height then state
    else
      var floor := SaturatingSub(state.height, MAX_AUTO_REORG_DEPTH);
      match FindForkPoint(state.store, peer.hashes, state.height, floor)
      case None => state
      case Some(forkPoint) =>
        if forkPoint == state.height then SyncForward(state, peer.height, peer.pages)
        else if forkPoint <= floor || forkPoint < state.adjuster.epochStartHeight then state
        else
          match RollBack(state, forkPoint)
          case None => state
          case Some(rolled) => SyncForward(rolled, peer.height, peer.pages)
  }

  // ---------------------------------------------------------------- the mempool

  /** `enqueue_transaction`. */
  function Enqueue(state: NodeState, signed: SignedTransaction): NodeState {
    if ApplyTransaction(state.ledger, signed, "").Failure? then state
    else if |state.mempool| >= MAX_MEMPOOL_SIZE && signed.Id() !in state.mempool then state
    else state.(mempool := state.mempool[signed.Id() := signed])
  }

  // ---------------------------------------------------------------- runs

  datatype Event =
    | Accepting(claim: PendingClaim, now: u64, btc: BtcView)
    | Proposing(proposal: Proposal)
    | Finalising(order: seq<Address>)
    | Syncing(record: BlockRecord, now: u64)
    | RollingBack(forkPoint: u64)
    | Enqueueing(signed: SignedTransaction)

  function Step(state: NodeState, event: Event): NodeState {
    match event
    case Accepting(claim, now, btc) => (match AcceptClaim(state, claim, now, btc) case Success(next) => next case Failure(_) => state)
    case Proposing(proposal) => Propose(state, proposal)
    case Finalising(order) => Finalise(state, order)
    case Syncing(record, now) => (match SyncRecord(state, record, now) case Success(next) => next case Failure(_) => state)
    case RollingBack(forkPoint) =>
      if RollbackAllowed(state, forkPoint)
      then (match RollBack(state, forkPoint) case Some(next) => next case None => state) else state
    case Enqueueing(signed) => Enqueue(state, signed)
  }

  function Run(state: NodeState, events: seq<Event>): NodeState {
    if events == [] then state else Step(Run(state, events[..|events|-1]), events[|events|-1])
  }
}
