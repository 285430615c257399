/**
 The node's ledger across runs: it is the ledger of the stored chain, its root is the tip header's, and it can be
 rebuilt from the log after any permitted rollback.
 */
module NodeLedgers {
  import opened Numbers
  import opened Wrappers
  import opened Types
  import opened Ledgers
  import opened Supply
  import opened Sums
  import opened Replay
  import opened Merkle
  import opened Checkpoints
  import opened Chains
  import opened ChainLogs
  import opened NodeStates
  import opened NodeInvariants

  /** The stored chain executes, the ledger is what it executes to, and the log rebuilds it at every height. */
  ghost predicate Solvent(state: NodeState) {
    && Consistent(state)
    && Executed(ChainOf(state))
    && state.ledger == LedgerOf(ChainOf(state))
    && LogFor(state.log, ChainOf(state))
  }

  /** The ledger's own root is the tip header's, and its balances are exactly the coins mined. */
  lemma SolventLedger(state: NodeState)
    requires Solvent(state)
    ensures state.ledger.Root() == TipStateRoot(ChainOf(state))
    ensures Sum(state.ledger.balances) == state.ledger.totalMined
  {
    ChainLedger(ChainOf(state));
  }

  // ---------------------------------------------------------------- adopting and rolling back

  /**
   Adopting a valid block executes it on the real ledger as simulated. Everything stays solvent exactly when
   nothing stale is left at its height in the log.
   */
  lemma {:induction false} AdoptSolventExactly(state: NodeState, record: BlockRecord)
    requires Solvent(state) && state.height < U64_MAX
    requires LinksTo(ChainOf(state), record) && ExecutesOn(state.ledger, record) && FitsOn(state.ledger, record)
    ensures var seed := if IsCheckpointHeight(record.height) then record.btcSeed else state.seed;
            var next := Adopt(state, record, seed);
            && Consistent(next)
            && Executed(ChainOf(next))
            && next.ledger == LedgerOf(ChainOf(next))
            && next.ledger.Root() == record.stateRoot
            && (Solvent(next) <==> CleanAt(state.log, record.height, record.rewardBina > 0))
  {
    hide Linked, LinksTo, AdjusterOf, WorkOf, ParseAddress, SimulateTransactions, LogFor, CleanAt, BlockRows;
    var seed := if IsCheckpointHeight(record.height) then record.btcSeed else state.seed;
    var chain := ChainOf(state);
    PositionOfLink(chain, record);
    AdoptExtendsChain(state, record, seed);
    AdoptConsistentExactly(state, record);
    SnocParts(chain, record);
    AppendKeepsLogExactly(state.log, chain, record);
    ChainLedger(chain);
    BlockLedger(state.ledger, record);
  }

  lemma PositionOfLink(chain: Chain, record: BlockRecord)
    requires |chain| < U64_MAX && LinksTo(chain, record)
    ensures record.height == |chain| + 1 && record.minerAddress != ""
  {
  }

  /** A permitted rollback reopens exactly the ledger that the shorter chain executes to. */
  lemma {:induction false} RollBackSolvent(state: NodeState, forkPoint: u64)
    requires Solvent(state) && RollbackAllowed(state, forkPoint)
    ensures RollBack(state, forkPoint).Some? && Solvent(RollBack(state, forkPoint).value)
    ensures RollBack(state, forkPoint).value.ledger == LedgerOf(ChainOf(state)[..forkPoint])
  {
    hide Linked, AdjusterOf, WorkOf, RequeueBlocks, OpenScoped, WorkSum, Range, Executed, LogFor, Consistent, RollbackAllowed;
    RollBackConsistent(state, forkPoint);
    ConsistentIsLinked(state);
    ExecutedAt(ChainOf(state), forkPoint);
    OpenScopedRebuilds(state.log, ChainOf(state), forkPoint);
    TruncationKeepsLog(state.log, ChainOf(state), forkPoint);
  }

  // ---------------------------------------------------------------- claims

  /** Executing the claim on its chain, with the scheduled reward, gives the root it commits to. */
  predicate ClaimExecutes(chain: Chain, claim: PendingClaim) {
    |chain| < U64_MAX
    && ExecutesOn(LedgerOf(chain), RecordOf(claim, |chain| + 1, BlockReward(|chain| + 1, LedgerOf(chain).totalMined)))
  }

  /** The claim was fully checked on `chain`. */
  predicate CheckedOn(chain: Chain, claim: PendingClaim) {
    Linked(chain) && Executed(chain) && ClaimLinks(chain, claim) && ClaimExecutes(chain, claim)
  }

  ghost predicate FullyEndorsed(state: NodeState) {
    forall h, miner :: h in state.pending && miner in state.pending[h] ==>
      && state.pending[h][miner].header.height == h
      && exists chain :: CheckedOn(chain, state.pending[h][miner])
  }

  /** A claim checked on one chain executes alike on every chain with the same tip hash. */
  lemma {:induction false} ExecutionFollowsTip(other: Chain, chain: Chain, claim: PendingClaim)
    requires CheckedOn(other, claim) && Linked(chain) && Executed(chain) && TipHash(other) == TipHash(chain)
    ensures ClaimExecutes(chain, claim)
  {
    hide Linked, Executed, ClaimLinks, SimulateTransactions, TipHash, LedgerOf, BlockReward;
    SameTipSameLedger(other, chain);
    var record := RecordOf(claim, |chain| + 1, BlockReward(|chain| + 1, LedgerOf(chain).totalMined));
    SimulationSeesOnlyTheView(
      LedgerOf(other), LedgerOf(chain), record.transactions, record.minerAddress, record.rewardBina);
  }

  lemma AcceptedClaimIsChecked(state: NodeState, claim: PendingClaim, now: u64, btc: BtcView)
    requires Solvent(state) && CheckClaim(state, claim, now, btc).None?
    ensures CheckedOn(ChainOf(state), claim)
  {
    CheckedClaimLinks(state, claim, now, btc);
    hide ParseAddress, AdjusterOf, Linked, Executed, SimulateTransactions, RootOfTransactions, ClaimLinks, LogFor, LedgerOf;
    SurvivorsOfFullLength(state.ledger, claim.transactions, claim.header.miner);
  }

  lemma BuiltClaimExecutes(state: NodeState, p: Proposal)
    requires state.height < U64_MAX
    ensures var claim := BuildClaim(state, p);
            var reward := BlockReward(state.height + 1, state.ledger.totalMined);
            ExecutesOn(state.ledger, RecordOf(claim, state.height + 1, reward))
  {
    hide SimulateTransactions, RootOfTransactions, BlockReward;
    var reward := BlockReward(state.height + 1, state.ledger.totalMined);
    var candidates := if |p.candidates| <= MAX_TXS_PER_BLOCK then p.candidates else p.candidates[..MAX_TXS_PER_BLOCK];
    FilteringIsIdempotent(state.ledger, candidates, p.miner, reward);
    SurvivorsOfFullLength(state.ledger, candidates, p.miner);
  }

  lemma BuiltClaimIsChecked(state: NodeState, p: Proposal)
    requires Solvent(state) && state.height < U64_MAX && state.lastTimestamp < U64_MAX
    requires ParseAddress(p.miner) == Some(p.miner)
    ensures CheckedOn(ChainOf(state), BuildClaim(state, p))
  {
    hide ParseAddress, AdjusterOf, Linked, Executed, LogFor, BuildClaim, ClaimLinks, LedgerOf, ExecutesOn, BlockReward;
    BuiltClaimLinks(state, p);
    BuiltClaimExecutes(state, p);
  }

  /**
   What an honest miner builds, any node with the same tip accepts: the only checks that can still fail are the
   validator's own clock and its own view of Bitcoin.
   */
  lemma {:induction false} HonestClaimIsAccepted(miner: NodeState, validator: NodeState, p: Proposal, now: u64, btc: BtcView)
    requires Solvent(miner) && Solvent(validator) && miner.tipHash == validator.tipHash
    requires miner.height < U64_MAX && miner.lastTimestamp < U64_MAX && ParseAddress(p.miner) == Some(p.miner)
    ensures var claim := BuildClaim(miner, p);
            CheckClaim(validator, claim, now, btc).None? <==>
              && claim.header.timestamp <= SaturatingAdd(now, MAX_FUTURE_MS)
              && (IsCheckpointHeight(miner.height + 1) ==>
                    Plausible(p.proof.tipHeight, btc.previousTip, btc.observedTip, BTC_HEIGHT_TOLERANCE))
  {
    var claim, ours, theirs := BuildClaim(miner, p), ChainOf(miner), ChainOf(validator);
    BuiltClaimIsChecked(miner, p);
    SameTipSameConsensus(ours, theirs);
    ExecutionFollowsTip(ours, theirs, claim);
    CheckedClaimPasses(validator, claim, now, btc);
    BuiltClaimProof(miner, p);
  }

  lemma BuiltClaimProof(state: NodeState, p: Proposal)
    requires state.height < U64_MAX
    ensures IsCheckpointHeight(state.height + 1) ==>
              BuildClaim(state, p).checkpoint == Some(p.proof) && BuildClaim(state, p).header.seed == p.proof.Seed()
  {
  }

  /** Given the chain-level rules, only clock, checkpoint contents and plausibility are left to check. */
  lemma CheckedClaimPasses(state: NodeState, claim: PendingClaim, now: u64, btc: BtcView)
    requires Consistent(state) && state.ledger == LedgerOf(ChainOf(state))
    requires state.height < U64_MAX && claim.Verifies() && claim.header.height == state.height + 1
    requires claim.header.prevHash == state.tipHash && claim.header.difficultyBits == state.adjuster.currentBits
    requires claim.header.timestamp > state.lastTimestamp
    requires IsCheckpointHeight(claim.header.height) ==>
               claim.checkpoint.Some? && claim.checkpoint.value.Seed() == claim.header.seed
    requires !IsCheckpointHeight(claim.header.height) ==> claim.header.seed == state.seed
    requires ClaimExecutes(ChainOf(state), claim)
    ensures CheckClaim(state, claim, now, btc).None? <==>
              && claim.header.timestamp <= SaturatingAdd(now, MAX_FUTURE_MS)
              && (IsCheckpointHeight(claim.header.height) ==>
                    Plausible(claim.checkpoint.value.tipHeight, btc.previousTip, btc.observedTip, BTC_HEIGHT_TOLERANCE))
  {
    hide ParseAddress, AdjusterOf, Linked, SimulateTransactions, RootOfTransactions, LedgerOf, BlockReward;
  }

  // ---------------------------------------------------------------- finalising

  /** A winner that extends the tip executes on the current ledger exactly as it was checked. */
  lemma SoundWinnerExecutes(state: NodeState, order: seq<Address>)
    requires Solvent(state) && FullyEndorsed(state) && WinnerExtendsTip(state, order)
    requires state.height < U64_MAX && Winner(state, order).Some?
    ensures var height := state.height + 1;
            var record := RecordOf(Winner(state, order).value, height, BlockReward(height, state.ledger.totalMined));
            && LinksTo(ChainOf(state), record)
            && ExecutesOn(state.ledger, record)
            && (IsCheckpointHeight(height) ==> Winner(state, order).value.checkpoint.Some?)
  {
    hide ParseAddress, AdjusterOf, Linked, Executed, LogFor, LedgerOf, ExecutesOn, BlockReward, ClaimLinks, LinksTo, InOrder;
    var winner, chain := Winner(state, order).value, ChainOf(state);
    var miner := WinnerIsPending(state, order);
    var other :| CheckedOn(other, winner);
    ClaimTip(other, winner);
    ExecutionFollowsTip(other, chain, winner);
    ClaimRecordLinksExactly(chain, other, winner, BlockReward(state.height + 1, state.ledger.totalMined));
  }

  lemma ClaimTip(chain: Chain, claim: PendingClaim)
    requires ClaimLinks(chain, claim)
    ensures claim.header.prevHash == TipHash(chain)
  {
  }

  // ---------------------------------------------------------------- every step

  /** Executing what the step adopts reaches no u64 limit. */
  predicate WithinLimits(state: NodeState, event: Event) {
    && (event.Syncing? && SyncRecord(state, event.record, event.now).Success? ==> FitsOn(state.ledger, event.record))
    && (event.Finalising? && state.height < U64_MAX && Winner(state, event.order).Some? ==>
          NoncesHaveSuccessors(Winner(state, event.order).value.transactions))
  }

  /** What rolled-back blocks left in the log at the height the step adopts, the adopted block replaces. */
  predicate AppendsCleanly(state: NodeState, event: Event) {
    && (event.Syncing? && SyncRecord(state, event.record, event.now).Success? ==>
          CleanAt(state.log, event.record.height, event.record.rewardBina > 0))
    && (event.Finalising? && state.height < U64_MAX && Winner(state, event.order).Some? ==>
          CleanAt(state.log, state.height + 1, BlockReward(state.height + 1, state.ledger.totalMined) > 0))
  }

  ghost predicate Sound(state: NodeState) {
    Solvent(state) && FullyEndorsed(state)
  }

  lemma WinnerFits(state: NodeState, order: seq<Address>)
    requires state.height < U64_MAX && Winner(state, order).Some? && WithinLimits(state, Finalising(order))
    ensures var height := state.height + 1;
            FitsOn(state.ledger, RecordOf(Winner(state, order).value, height, BlockReward(height, state.ledger.totalMined)))
  {
    hide Winner;
  }

  lemma FinaliseAdopts(state: NodeState, order: seq<Address>)
    requires state.height < U64_MAX && Winner(state, order).Some?
    requires IsCheckpointHeight(state.height + 1) ==> Winner(state, order).value.checkpoint.Some?
    ensures var height := state.height + 1;
            var record := RecordOf(Winner(state, order).value, height, BlockReward(height, state.ledger.totalMined));
            Finalise(state, order) == Adopt(state, record, if IsCheckpointHeight(height) then record.btcSeed else state.seed)
  {
    hide Adopt, Winner, BlockReward;
  }

  lemma FinaliseSoundExactly(state: NodeState, order: seq<Address>)
    requires Sound(state) && WinnerExtendsTip(state, order) && WithinLimits(state, Finalising(order))
    ensures Solvent(Finalise(state, order)) <==> AppendsCleanly(state, Finalising(order))
  {
    hide LinksTo, ExecutesOn, CleanAt, Adopt, Winner, BlockReward, Solvent, FullyEndorsed, FitsOn, WithinLimits;
    if state.height < U64_MAX && Winner(state, order).Some? {
      SoundWinnerExecutes(state, order);
      WinnerFits(state, order);
      FinaliseAdopts(state, order);
      var height := state.height + 1;
      SolventIsContiguous(state);
      AdoptSolventExactly(state, RecordOf(Winner(state, order).value, height, BlockReward(height, state.ledger.totalMined)));
    }
  }

  lemma SyncSoundExactly(state: NodeState, record: BlockRecord, now: u64)
    requires Sound(state) && WithinLimits(state, Syncing(record, now)) && SyncRecord(state, record, now).Success?
    ensures Solvent(SyncRecord(state, record, now).value) <==> AppendsCleanly(state, Syncing(record, now))
  {
    hide LinksTo, ExecutesOn, CleanAt, Adopt, SyncRecord, Consistent, Executed, LogFor, FullyEndorsed, LedgerOf;
    AcceptedIsBelowMax(state, record, now);
    SyncAcceptsExactly(state, record, now);
    SyncAdopts(state, record, now);
    ConsistentIsLinked(state);
    AdoptSolventExactly(state, record);
  }

  lemma SyncAdopts(state: NodeState, record: BlockRecord, now: u64)
    requires SyncRecord(state, record, now).Success?
    ensures SyncRecord(state, record, now).value
            == Adopt(state, record, if IsCheckpointHeight(record.height) then record.btcSeed else state.seed)
  {
    hide Adopt, SimulateBlock, RootOfTransactions, ParseAddress;
  }

  lemma QueuesLeaveSolvent(state: NodeState, next: NodeState)
    requires Solvent(state) && next == state.(pending := next.pending, mempool := next.mempool)
    ensures Solvent(next) && ChainOf(next) == ChainOf(state)
  {
    QueuesAreFree(state, next);
  }

  lemma FullyEndorsedWith(state: NodeState, next: NodeState, claim: PendingClaim, chain: Chain)
    requires FullyEndorsed(state) && CheckedOn(chain, claim)
    requires var height := claim.header.height;
             next.pending == state.pending[height := CandidatesAt(state.pending, height)[claim.header.miner := claim]]
    ensures FullyEndorsed(next)
  {
    hide CheckedOn;
    var height := claim.header.height;
    forall h, miner | h in next.pending && miner in next.pending[h]
      ensures next.pending[h][miner].header.height == h
      ensures exists c :: CheckedOn(c, next.pending[h][miner])
    {
      if h != height || miner != claim.header.miner {
        assert h in state.pending && miner in state.pending[h] && next.pending[h][miner] == state.pending[h][miner];
      }
    }
  }

  lemma FewerPendingFullyEndorsed(state: NodeState, next: NodeState)
    requires FullyEndorsed(state)
    requires next.pending == state.pending || exists height: u64 :: next.pending == Above(state.pending, height)
    ensures FullyEndorsed(next)
  {
    hide CheckedOn;
  }

  lemma StepKeepsFullyEndorsed(state: NodeState, event: Event)
    requires Solvent(state) && FullyEndorsed(state) && ClockRuns(state, event)
    ensures FullyEndorsed(Step(state, event))
  {
    hide CheckedOn, CheckClaim, BuildClaim, FullyEndorsed, Solvent, Above, CandidatesAt, Step;
    var next := Step(state, event);
    if next.pending == state.pending {
      FewerPendingFullyEndorsed(state, next);
    } else {
      match event {
        case Accepting(claim, now, btc) =>
          AcceptingInserts(state, claim, now, btc);
          AcceptedClaimIsChecked(state, claim, now, btc);
          SolventIsContiguous(state);
          FullyEndorsedWith(state, next, claim, ChainOf(state));
        case Proposing(p) =>
          ProposingInserts(state, p);
          BuiltClaimIsChecked(state, p);
          SolventIsContiguous(state);
          FullyEndorsedWith(state, next, BuildClaim(state, p), ChainOf(state));
        case _ =>
          var height := MovingDrops(state, event);
          FewerPendingFullyEndorsed(state, next);
      }
    }
  }

  lemma SolventIsContiguous(state: NodeState)
    requires Solvent(state)
    ensures Contiguous(state)
  {
  }

  /**
   Every step that elects extensions and reaches no u64 limit keeps chain, ledger, log and claims right if and only
   if it appends cleanly: rollbacks always do, whatever the dropped blocks carry.
   */
  lemma {:induction false} StepKeepsSound(state: NodeState, event: Event)
    requires Sound(state) && ClockRuns(state, event) && ElectsExtension(state, event) && WithinLimits(state, event)
    ensures Sound(Step(state, event)) <==> AppendsCleanly(state, event)
  {
    hide FullyEndorsed, Solvent, AcceptClaim, Propose, Finalise, SyncRecord, RollBack, Enqueue, WinnerExtendsTip, CleanAt,
      Winner, FitsOn, RollbackAllowed;
    StepKeepsFullyEndorsed(state, event);
    var next := Step(state, event);
    match event
    case Accepting(claim, now, btc) => OnlyQueues(state, event); QueuesLeaveSolvent(state, next);
    case Proposing(p) => OnlyQueues(state, event); QueuesLeaveSolvent(state, next);
    case Finalising(order) => FinaliseSoundExactly(state, order);
    case Syncing(record, now) =>
      if SyncRecord(state, record, now).Success? {
        SyncSoundExactly(state, record, now);
      }
    case RollingBack(forkPoint) =>
      if RollbackAllowed(state, forkPoint) {
        RollBackSolvent(state, forkPoint);
      }
    case Enqueueing(signed) => OnlyQueues(state, event); QueuesLeaveSolvent(state, next);
  }

  lemma SoundIsContiguous(state: NodeState)
    requires Sound(state)
    ensures Contiguous(state)
  {
  }

  lemma OnlyQueues(state: NodeState, event: Event)
    requires event.Accepting? || event.Proposing? || event.Enqueueing?
    ensures var next := Step(state, event); next == state.(pending := next.pending, mempool := next.mempool)
  {
    hide CheckClaim, BuildClaim, ParseAddress, ApplyTransaction;
  }

  // ---------------------------------------------------------------- every orderly run

  /** A disciplined run that stays within the u64 limits and always appends cleanly. */
  ghost predicate OrderlyRun(events: seq<Event>) {
    && Disciplined(events)
    && (events != [] ==>
          var before, last := Run(GENESIS_STATE, events[..|events|-1]), events[|events|-1];
          OrderlyRun(events[..|events|-1]) && WithinLimits(before, last) && AppendsCleanly(before, last))
  }

  lemma GenesisIsSound()
    ensures Sound(GENESIS_STATE)
  {
    GenesisIsConsistent();
    assert ChainOf(GENESIS_STATE) == [];
    var none: Chain := [];
    assert none[..0] == none;
  }

  /**
   After every orderly run from genesis: the store is a contiguous linked chain ending at the tip, all derived
   state follows from it, the ledger's own root is the tip header's, and balances sum to the coins mined.
   */
  lemma {:induction false} EveryOrderlyRunIsSound(events: seq<Event>)
    requires OrderlyRun(events)
    ensures var state := Run(GENESIS_STATE, events);
            && Sound(state)
            && state.ledger.Root() == TipStateRoot(ChainOf(state))
            && Sum(state.ledger.balances) == state.ledger.totalMined
  {
    hide FullyEndorsed, Solvent, Step, WithinLimits, AppendsCleanly, ElectsExtension, ClockRuns;
    if events == [] {
      GenesisIsSound();
    } else {
      var before := Run(GENESIS_STATE, events[..|events|-1]);
      EveryOrderlyRunIsSound(events[..|events|-1]);
      DisciplineElectsExtensions(events);
      StepKeepsSound(before, events[|events|-1]);
    }
    SolventIsContiguous(Run(GENESIS_STATE, events));
    SolventLedger(Run(GENESIS_STATE, events));
  }
}
