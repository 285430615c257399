/**
 Results about whole runs and whole reorganisations, and the exact limits of what the node's checks enforce.
 */
module NodeRuns {
  import opened Numbers
  import opened Wrappers
  import opened Types
  import opened Ledgers
  import opened Supply
  import opened Replay
  import opened Merkle
  import opened Checkpoints
  import opened Claims
  import opened Chains
  import opened NodeStates
  import opened NodeInvariants
  import opened NodeLedgers

  // ---------------------------------------------------------------- no transaction is lost

  ghost function IdsOf(chain: Chain): set<Digest> {
    set i, j | 0 <= i < |chain| && 0 <= j < |chain[i].transactions| :: chain[i].transactions[j].Id()
  }

  ghost function IdsIn(txs: seq<SignedTransaction>): set<Digest> {
    set signed | signed in txs :: signed.Id()
  }

  lemma IdsOfConcat(a: Chain, b: Chain)
    ensures IdsOf(a + b) == IdsOf(a) + IdsOf(b)
  {
    forall id | id in IdsOf(b)
      ensures id in IdsOf(a + b)
    {
      var i, j :| 0 <= i < |b| && 0 <= j < |b[i].transactions| && b[i].transactions[j].Id() == id;
      assert (a + b)[|a| + i].transactions[j].Id() == id;
    }
    forall id | id in IdsOf(a)
      ensures id in IdsOf(a + b)
    {
      var i, j :| 0 <= i < |a| && 0 <= j < |a[i].transactions| && a[i].transactions[j].Id() == id;
      assert (a + b)[i].transactions[j].Id() == id;
    }
  }

  lemma IdsOfOne(block: BlockRecord)
    ensures IdsOf([block]) == IdsIn(block.transactions)
  {
    forall id | id in IdsIn(block.transactions)
      ensures id in IdsOf([block])
    {
      var signed :| signed in block.transactions && signed.Id() == id;
      var j :| 0 <= j < |block.transactions| && block.transactions[j] == signed;
      assert [block][0].transactions[j].Id() == id;
    }
  }

  lemma {:induction false} RequeueAddsIds(mempool: Mempool, txs: seq<SignedTransaction>)
    ensures Requeue(mempool, txs).Keys == mempool.Keys + IdsIn(txs)
  {
    if txs != [] {
      var rest, last := txs[..|txs|-1], txs[|txs|-1];
      RequeueAddsIds(mempool, rest);
      assert txs == rest + [last];
      assert IdsIn(txs) == IdsIn(rest) + {last.Id()};
    }
  }

  lemma NoBlocksNoIds()
    ensures IdsOf([]) == {}
  {
  }

  lemma {:induction false} RequeueBlocksAddsIds(mempool: Mempool, blocks: seq<BlockRecord>)
    ensures RequeueBlocks(mempool, blocks).Keys == mempool.Keys + IdsOf(blocks)
  {
    hide IdsOf, IdsIn, Requeue;
    if blocks == [] {
      NoBlocksNoIds();
    } else {
      var rest, last := blocks[..|blocks|-1], blocks[|blocks|-1];
      RequeueBlocksAddsIds(mempool, rest);
      RequeueAddsIds(RequeueBlocks(mempool, rest), last.transactions);
      IdsOfConcat(rest, [last]);
      IdsOfOne(last);
      assert rest + [last] == blocks;
    }
  }

  /** The transactions the node accounts for: confirmed in a stored block, or waiting in the mempool. */
  ghost function Held(state: NodeState): set<Digest>
    requires Contiguous(state)
  {
    IdsOf(ChainOf(state)) + state.mempool.Keys
  }

  lemma AdoptHolds(state: NodeState, record: BlockRecord, seed: Digest)
    requires Contiguous(state) && record.height == state.height + 1
    ensures Contiguous(Adopt(state, record, seed))
    ensures Held(Adopt(state, record, seed)) == Held(state) + IdsIn(record.transactions)
  {
    AdoptExtendsChain(state, record, seed);
    IdsOfConcat(ChainOf(state), [record]);
    IdsOfOne(record);
    assert Drop(state.mempool, record.transactions).Keys == state.mempool.Keys - IdsIn(record.transactions);
  }

  lemma RollBackHolds(state: NodeState, forkPoint: u64)
    requires Contiguous(state) && RollbackAllowed(state, forkPoint)
    ensures RollBack(state, forkPoint).Some? && Contiguous(RollBack(state, forkPoint).value)
    ensures Held(RollBack(state, forkPoint).value) == Held(state)
  {
    hide OpenScoped, WorkSum, RequeueBlocks, IdsOf, SeedOf, TipHash, TipTime, GoverningCheckpointHeight, Range;
    var chain := ChainOf(state);
    RollBackGoesThrough(state, forkPoint);
    assert RollBack(state, forkPoint).value.mempool == RequeueBlocks(state.mempool, Range(state.store, forkPoint + 1, state.height));
    RangeIsChain(state, forkPoint + 1);
    RequeueBlocksAddsIds(state.mempool, chain[forkPoint..]);
    IdsOfConcat(chain[..forkPoint], chain[forkPoint..]);
    assert chain[..forkPoint] + chain[forkPoint..] == chain;
  }

  /** Every step, whatever it does to the rest of the state, keeps the store gapless and loses no transaction. */
  lemma StepHolds(state: NodeState, event: Event)
    requires Contiguous(state)
    ensures Contiguous(Step(state, event))
    ensures Held(state) <= Held(Step(state, event))
  {
    hide AcceptClaim, Propose, SyncRecord, RollBack, Held, Adopt, Winner, CheckClaim, Contiguous, Enqueue;
    match event
    case Accepting(claim, now, btc) => OnlyQueues(state, event); PendingDoesNotHold(state, event);
    case Proposing(p) => OnlyQueues(state, event); PendingDoesNotHold(state, event);
    case Finalising(order) =>
      if state.height < U64_MAX && Winner(state, order).Some? {
        var winner, height := Winner(state, order).value, state.height + 1;
        var record := RecordOf(winner, height, BlockReward(height, state.ledger.totalMined));
        var seed := if IsCheckpointHeight(height) && winner.checkpoint.Some? then winner.header.seed else state.seed;
        AdoptHolds(state, record, seed);
      }
    case Syncing(record, now) =>
      if SyncRecord(state, record, now).Success? {
        AcceptedIsBelowMax(state, record, now);
        SyncAdopts(state, record, now);
        AdoptHolds(state, record, if IsCheckpointHeight(record.height) then record.btcSeed else state.seed);
      }
    case RollingBack(forkPoint) =>
      if RollbackAllowed(state, forkPoint) {
        RollBackHolds(state, forkPoint);
      }
    case Enqueueing(signed) => EnqueueHolds(state, signed);
  }

  lemma PendingDoesNotHold(state: NodeState, event: Event)
    requires Contiguous(state) && (event.Accepting? || event.Proposing?)
    ensures Contiguous(Step(state, event)) && Held(Step(state, event)) == Held(state)
  {
    hide CheckClaim, BuildClaim, ParseAddress;
    assert ChainOf(Step(state, event)) == ChainOf(state);
  }

  lemma EnqueueHolds(state: NodeState, signed: SignedTransaction)
    requires Contiguous(state)
    ensures Contiguous(Enqueue(state, signed)) && Held(state) <= Held(Enqueue(state, signed))
  {
    hide ApplyTransaction;
    assert ChainOf(Enqueue(state, signed)) == ChainOf(state);
  }

  lemma {:induction false} RunHolds(state: NodeState, events: seq<Event>)
    requires Contiguous(state)
    ensures Contiguous(Run(state, events)) && Held(state) <= Held(Run(state, events))
  {
    hide Step, Contiguous, Held;
    if events != [] {
      var rest, last := events[..|events|-1], events[|events|-1];
      RunHolds(state, rest);
      StepHolds(Run(state, rest), last);
    }
  }

  lemma RunIsContiguous(events: seq<Event>)
    ensures Contiguous(Run(GENESIS_STATE, events))
  {
    hide Step, Held;
    RunHolds(GENESIS_STATE, events);
  }

  /** Every transaction that was in a stored block at some point of the run. */
  ghost function EverConfirmed(events: seq<Event>): set<Digest> {
    RunIsContiguous(events);
    IdsOf(ChainOf(Run(GENESIS_STATE, events)))
    + if events == [] then {} else EverConfirmed(events[..|events|-1])
  }

  /** Whatever happens to a node, a transaction once confirmed is in a stored block or back in the mempool. */
  lemma {:induction false} NoTransactionIsLost(events: seq<Event>)
    ensures Contiguous(Run(GENESIS_STATE, events))
    ensures EverConfirmed(events) <= Held(Run(GENESIS_STATE, events))
  {
    hide Step, Contiguous;
    RunIsContiguous(events);
    if events != [] {
      var rest, last := events[..|events|-1], events[|events|-1];
      NoTransactionIsLost(rest);
      StepHolds(Run(GENESIS_STATE, rest), last);
    }
  }

  // ---------------------------------------------------------------- reorganisations are runs

  /** A sync or a whole reorganisation is at most one permitted rollback followed by record steps. */
  predicate ReorgShaped(events: seq<Event>) {
    && (forall i :: 0 <= i < |events| ==> events[i].RollingBack? || events[i].Syncing?)
    && (forall i :: 0 < i < |events| ==> events[i].Syncing?)
  }

  lemma {:induction false} RunConcat(state: NodeState, a: seq<Event>, b: seq<Event>)
    ensures Run(state, a + b) == Run(Run(state, a), b)
  {
    hide Step;
    if b == [] {
      assert a + b == a;
    } else {
      RunConcat(state, a, b[..|b|-1]);
      assert (a + b)[..|a + b| - 1] == a + b[..|b|-1];
    }
  }

  lemma {:induction false} PageIsARun(state: NodeState, page: seq<Received>) returns (events: seq<Event>)
    ensures SyncPage(state, page).0 == Run(state, events)
    ensures forall i :: 0 <= i < |events| ==> events[i].Syncing?
    decreases |page|
  {
    hide SyncRecord;
    events := [];
    if page != [] && SyncRecord(state, page[0].record, page[0].now).Success? {
      var next := SyncRecord(state, page[0].record, page[0].now).value;
      var rest := PageIsARun(next, page[1..]);
      var first := [Syncing(page[0].record, page[0].now)];
      assert first[..0] == [];
      assert Run(state, first) == next;
      RunConcat(state, first, rest);
      events := first + rest;
    }
  }

  lemma {:induction false} SyncIsARun(state: NodeState, target: u64, pages: seq<seq<Received>>)
    returns (events: seq<Event>)
    ensures SyncForward(state, target, pages) == Run(state, events)
    ensures forall i :: 0 <= i < |events| ==> events[i].Syncing?
    decreases |pages|
  {
    hide SyncPage, Step;
    events := [];
    if !(state.height >= target || pages == [] || pages[0] == []) {
      events := PageIsARun(state, pages[0]);
      var (next, stop) := SyncPage(state, pages[0]);
      if !stop {
        var rest := SyncIsARun(next, target, pages[1..]);
        RunConcat(state, events, rest);
        events := events + rest;
      }
    }
  }

  /** `reconcile_fork` is a run: whatever the peer answers, it rolls back within its guards and then only syncs. */
  lemma {:induction false} ReconcileIsARun(state: NodeState, peer: Peer) returns (events: seq<Event>)
    ensures ReconcileFork(state, peer) == Run(state, events) && ReorgShaped(events)
    ensures forall i :: 0 <= i < |events| && events[i].RollingBack? ==> RollbackAllowed(state, events[i].forkPoint)
  {
    hide SyncForward, RollBack, SyncRecord;
    events := [];
    var floor := SaturatingSub(state.height, MAX_AUTO_REORG_DEPTH);
    var found := FindForkPoint(state.store, peer.hashes, state.height, floor);
    if peer.height >= state.height && found.Some? {
      var forkPoint := found.value;
      ForkPointIsBelow(state.store, peer.hashes, state.height, floor);
      if forkPoint == state.height {
        events := SyncIsARun(state, peer.height, peer.pages);
      } else if RollbackAllowed(state, forkPoint) && RollBack(state, forkPoint).Some? {
        var rolled := RollBack(state, forkPoint).value;
        var rest := SyncIsARun(rolled, peer.height, peer.pages);
        var first := [RollingBack(forkPoint)];
        assert first[..0] == [];
        assert Run(state, first) == rolled;
        RunConcat(state, first, rest);
        events := first + rest;
      }
    }
  }

  /** A whole reorganisation loses no transaction, also when sync stops short, and keeps a consistent node consistent. */
  lemma {:induction false} ReconcileKeepsConsistent(state: NodeState, peer: Peer)
    requires Contiguous(state)
    ensures Contiguous(ReconcileFork(state, peer)) && Held(state) <= Held(ReconcileFork(state, peer))
    ensures Consistent(state) && Endorsed(state) ==>
              Consistent(ReconcileFork(state, peer)) && Endorsed(ReconcileFork(state, peer))
  {
    hide ReconcileFork, Consistent, Endorsed, Step, Held, Contiguous;
    var events := ReconcileIsARun(state, peer);
    RunHolds(state, events);
    if Consistent(state) && Endorsed(state) {
      ReorgKeepsConsistent(state, events);
    }
  }

  lemma {:induction false} ReorgKeepsConsistent(state: NodeState, events: seq<Event>)
    requires Consistent(state) && Endorsed(state) && ReorgShaped(events)
    ensures Consistent(Run(state, events)) && Endorsed(Run(state, events))
  {
    hide Consistent, Endorsed, Step;
    if events != [] {
      var rest, last := events[..|events|-1], events[|events|-1];
      ReorgKeepsConsistent(state, rest);
      StepKeepsConsistent(Run(state, rest), last);
    }
  }

  // ---------------------------------------------------------------- limits of the checks

  /** Claims are not checked for their header version: changing it changes no verdict. */
  lemma VersionIsNotChecked(state: NodeState, claim: PendingClaim, version: nat, now: u64, btc: BtcView)
    ensures CheckClaim(state, claim.(header := claim.header.(version := version)), now, btc)
            == CheckClaim(state, claim, now, btc)
  {
    hide ParseAddress, SimulateTransactions, RootOfTransactions, BlockReward;
  }

  /** ... but records carry no version, so no node can sync a block that was finalised from another version. */
  lemma OtherVersionsNeverSync(peer: NodeState, claim: PendingClaim, height: u64, reward: u64, now: u64)
    requires claim.header.version != 1
    ensures SyncRecord(peer, RecordOf(claim, height, reward), now).Failure?
  {
    hide ParseAddress, SimulateBlock, RootOfTransactions;
  }

  lemma OnlyCandidateWins(state: NodeState, miner: Address)
    requires state.height < U64_MAX && miner in CandidatesAt(state.pending, state.height + 1)
    ensures Winner(state, [miner]) == Some(CandidatesAt(state.pending, state.height + 1)[miner])
  {
    var candidates := CandidatesAt(state.pending, state.height + 1);
    var order, only := [miner], [candidates[miner].AsRanked()];
    assert order[..|order|-1] == [] && InOrder(candidates, []) == [];
    assert InOrder(candidates, order) == [] + only == only;
    assert only[..|only|-1] == [];
    assert SelectWinning(only[..|only|-1]) == None;
  }

  lemma StaleClaimSurvives(state: NodeState, miner: Address, record: BlockRecord, now: u64)
    requires 0 < state.height < U64_MAX && RollBack(state, state.height - 1).Some?
    requires state.height + 1 in state.pending && miner in state.pending[state.height + 1]
    requires SyncRecord(RollBack(state, state.height - 1).value, record, now).Success?
    ensures var next := SyncRecord(RollBack(state, state.height - 1).value, record, now).value;
            && next.height == state.height && next.tipHash == record.blockHash
            && next.height + 1 in next.pending && next.pending[next.height + 1] == state.pending[state.height + 1]
  {
    hide ParseAddress, SimulateBlock, RootOfTransactions, OpenScoped, HeaderFromRecord, RequeueBlocks, WorkSum,
      Range, RollBackStore, GoverningCheckpointHeight;
    AcceptedIsBelowMax(RollBack(state, state.height - 1).value, record, now);
    SyncAdopts(RollBack(state, state.height - 1).value, record, now);
  }

  /**
   A claim for the height above the tip outlives a one-block rollback, and is still a candidate when a different
   block has been synced in its parent's place. Electing it then breaks the chain.
   */
  lemma {:induction false} StaleClaimSurvivesReorg(state: NodeState, miner: Address, record: BlockRecord, now: u64)
    requires 0 < state.height < U64_MAX && Consistent(state) && Endorsed(state) && RollbackAllowed(state, state.height - 1)
    requires state.height + 1 in state.pending && miner in state.pending[state.height + 1]
    requires state.pending[state.height + 1][miner].header.prevHash == state.tipHash
    requires var rolled := RollBack(state, state.height - 1);
             rolled.Some? && SyncRecord(rolled.value, record, now).Success? && record.blockHash != state.tipHash
    ensures var next := SyncRecord(RollBack(state, state.height - 1).value, record, now).value;
            && Consistent(next)
            && next.height == state.height && next.height + 1 in next.pending
            && miner in next.pending[next.height + 1]
            && next.pending[next.height + 1][miner].header.prevHash != next.tipHash
            && !Consistent(Finalise(next, [miner]))
  {
    hide RollBack, SyncRecord, Consistent, Endorsed, Finalise, RollbackAllowed;
    StaleClaimSurvives(state, miner, record, now);
    var rolled := RollBack(state, state.height - 1).value;
    StepKeepsConsistent(state, RollingBack(state.height - 1));
    assert Step(state, RollingBack(state.height - 1)) == rolled;
    StepKeepsConsistent(rolled, Syncing(record, now));
    var next := SyncRecord(rolled, record, now).value;
    OnlyCandidateWins(next, miner);
    FinaliseConsistentExactly(next, [miner]);
  }

  /** Sync credits the reward a record names; the total stays under the cap exactly when that reward does. */
  lemma SyncKeepsCapExactly(state: NodeState, record: BlockRecord, now: u64)
    requires SyncRecord(state, record, now).Success? && state.ledger.totalMined <= HARD_CAP
    ensures SyncRecord(state, record, now).value.ledger.totalMined <= HARD_CAP
            <==> record.rewardBina <= HARD_CAP - state.ledger.totalMined
  {
    hide SyncRecord, Execute;
    SyncAdopts(state, record, now);
    ExecuteKeepsTotal(state.ledger, record.transactions, record.minerAddress);
  }

  /** A block on the current tip with these transactions, whose record names `reward`. */
  function RecordCarrying(state: NodeState, txs: seq<SignedTransaction>, miner: Address, reward: u64): BlockRecord
    requires state.height < U64_MAX && state.lastTimestamp < U64_MAX
  {
    var root := SimulateBlock(state.ledger, txs, miner, reward).1;
    var draft := BlockRecord(
      state.height + 1, ZeroDigest, state.tipHash, 0, state.lastTimestamp + 1, state.adjuster.currentBits, miner,
      reward, state.seed, RootOfTransactions(txs), root, txs, true);
    match HeaderFromRecord(draft, state.tipHash)
    case Some(header) => draft.(blockHash := HeaderHash(header))
    case None => draft
  }

  lemma CarriedIsAccepted(state: NodeState, txs: seq<SignedTransaction>, miner: Address, reward: u64, now: u64)
    requires ParseAddress(miner).Some? && |txs| <= MAX_TXS_PER_BLOCK
    requires state.height < U64_MAX && state.lastTimestamp < now
    requires SimulateBlock(state.ledger, txs, miner, reward).0 == txs
    ensures SyncRecord(state, RecordCarrying(state, txs, miner, reward), now).Success?
  {
    hide ParseAddress, SimulateBlock, RootOfTransactions;
  }

  /** The reward schedule is not part of what sync checks: any reward that fits in a u64 can be credited. */
  lemma SyncCreditsAnyReward(state: NodeState, miner: Address, reward: u64, now: u64)
    requires ParseAddress(miner).Some?
    requires state.height < U64_MAX && state.lastTimestamp < now
    requires state.ledger.totalMined + reward <= U64_MAX
    ensures var record := RecordCarrying(state, [], miner, reward);
            && record.rewardBina == reward
            && SyncRecord(state, record, now).Success?
            && SyncRecord(state, record, now).value.ledger.totalMined == state.ledger.totalMined + reward
  {
    hide ParseAddress, RootOfTransactions, SyncRecord;
    var record := RecordCarrying(state, [], miner, reward);
    CarriedIsAccepted(state, [], miner, reward, now);
    SyncAdopts(state, record, now);
  }

  /** Finalised blocks, in contrast, keep the total under the cap. */
  lemma FinaliseKeepsCap(state: NodeState, order: seq<Address>)
    requires state.ledger.totalMined <= HARD_CAP
    ensures Finalise(state, order).ledger.totalMined <= HARD_CAP
  {
    hide Winner, Execute;
    if state.height < U64_MAX && Winner(state, order).Some? {
      var winner := Winner(state, order).value;
      ExecuteKeepsTotal(state.ledger, winner.transactions, winner.header.miner);
    }
  }
}
