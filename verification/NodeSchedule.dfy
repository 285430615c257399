/**
 Emission over the node's life: the coins mined follow the height on every run that syncs scheduled rewards, and
 such runs keep log and ledger right past the cap.
 */
module NodeSchedules {
  import opened Numbers
  import opened Types
  import opened Ledgers
  import opened Supply
  import opened Sums
  import opened Replay
  import opened Difficulty
  import opened Checkpoints
  import opened Chains
  import opened ChainLogs
  import opened NodeStates
  import opened NodeInvariants
  import opened NodeLedgers

  // ---------------------------------------------------------------- the schedule as a function of the height

  function MinedBy(height: nat): u64 {
    Min(INITIAL_BLOCK_REWARD * height, HARD_CAP)
  }

  function Scheduled(height: u64): u64 {
    if height == 0 then 0 else MinedBy(height) - MinedBy(height - 1)
  }

  /** With the coins mined so far on schedule, the reward depends on the height alone: the cap comes before any halving. */
  lemma RewardIsScheduled(height: u64)
    requires height > 0
    ensures BlockReward(height, MinedBy(height - 1)) == Scheduled(height)
  {
    if INITIAL_BLOCK_REWARD * (height - 1) < HARD_CAP {
      assert height < HALVING_INTERVAL && height / HALVING_INTERVAL == 0;
    }
  }

  // ---------------------------------------------------------------- what a scoped replay adds up

  function RewardsIn(rows: seq<Row>): nat {
    if rows == [] then 0
    else RewardsIn(rows[..|rows|-1]) + match rows[|rows|-1] case RewardRow(_, _, reward, _, _) => reward case _ => 0
  }

  lemma {:induction false} RewardsInConcat(a: seq<Row>, b: seq<Row>)
    ensures RewardsIn(a + b) == RewardsIn(a) + RewardsIn(b)
    decreases |b|
  {
    if b == [] {
      assert a + b == a;
    } else {
      RewardsInConcat(a, b[..|b|-1]);
      assert (a + b)[..|a + b| - 1] == a + b[..|b|-1];
    }
  }

  lemma {:induction false} ReplayTotal(rows: seq<Row>)
    requires RewardsIn(rows) <= U64_MAX
    ensures ReplayScopedRows(EMPTY_LEDGER, rows).totalMined == RewardsIn(rows)
  {
    if rows != [] {
      ReplayTotal(rows[..|rows|-1]);
    }
  }

  /** Every reward row pays what its height is scheduled to pay, and nothing is paid twice at different rates. */
  predicate PaysSchedule(log: seq<Row>) {
    forall row :: row in log && row.RewardRow? ==> row.height > 0 && row.reward == Scheduled(row.height) > 0
  }

  predicate PaidUpTo(log: seq<Row>, height: u64) {
    forall h: u64 :: 1 <= h <= height && Scheduled(h) > 0 ==> HasReward(log, h)
  }

  lemma SelectedHead(log: seq<Row>, active: u64)
    requires log != []
    ensures RewardsIn(Selected(log, active))
            == RewardsIn(Selected(log[1..], active))
               + if Survives(log[0], log[1..], active) && log[0].RewardRow? then log[0].reward else 0
  {
    var head := if Survives(log[0], log[1..], active) then [log[0]] else [];
    RewardsInConcat(head, Selected(log[1..], active));
    assert head != [] ==> head[..0] == [];
  }

  lemma HasRewardHead(log: seq<Row>, height: u64)
    requires log != []
    ensures HasReward(log, height) <==> (log[0].RewardRow? && log[0].height == height) || HasReward(log[1..], height)
  {
    assert [log[0]] + log[1..] == log;
    HasRewardConcat([log[0]], log[1..], height);
    assert HasReward([log[0]], height) <==> log[0].RewardRow? && log[0].height == height by {
      assert [log[0]][0] == log[0];
    }
  }

  /** One more height in scope adds its reward once, however often rolled-back blocks wrote it. */
  lemma {:induction false} OneMoreHeight(log: seq<Row>, height: u64)
    requires PaysSchedule(log) && height > 0
    ensures RewardsIn(Selected(log, height))
            == RewardsIn(Selected(log, height - 1)) + if HasReward(log, height) then Scheduled(height) else 0
  {
    hide HasReward, Scheduled, RewardsIn, Selected;
    if log == [] {
      EmptyLog(height);
    } else {
      assert forall row :: row in log[1..] ==> row in log;
      OneMoreHeight(log[1..], height);
      SelectedHead(log, height);
      SelectedHead(log, height - 1);
      HasRewardHead(log, height);
      assert log[0] in log;
    }
  }

  lemma EmptyLog(height: u64)
    requires height > 0
    ensures RewardsIn(Selected([], height)) == RewardsIn(Selected([], height - 1)) == 0 && !HasReward([], height)
  {
  }

  lemma {:induction false} NothingAtGenesis(log: seq<Row>)
    requires PaysSchedule(log)
    ensures RewardsIn(Selected(log, 0)) == 0
  {
    hide HasReward, Scheduled, RewardsIn, Selected;
    if log == [] {
      EmptyLog(1);
    } else {
      assert forall row :: row in log[1..] ==> row in log;
      NothingAtGenesis(log[1..]);
      SelectedHead(log, 0);
      assert log[0] in log;
    }
  }

  lemma {:induction false} ScopeAddsUp(log: seq<Row>, height: u64)
    requires PaysSchedule(log) && PaidUpTo(log, height)
    ensures RewardsIn(Selected(log, height)) == MinedBy(height)
    decreases height
  {
    hide HasReward, RewardsIn, Selected, PaysSchedule;
    if height == 0 {
      NothingAtGenesis(log);
    } else {
      ScopeAddsUp(log, height - 1);
      OneMoreHeight(log, height);
    }
  }

  /** Reopening at any paid height finds the scheduled total, whatever transfer rows the log holds. */
  lemma ReopenedTotal(log: seq<Row>, height: u64)
    requires PaysSchedule(log) && PaidUpTo(log, height)
    ensures OpenScoped(log, height).totalMined == MinedBy(height)
  {
    hide RewardsIn, Selected, PaysSchedule, PaidUpTo;
    ScopeAddsUp(log, height);
    ReplayTotal(Selected(log, height));
  }

  // ---------------------------------------------------------------- the rows of a block

  lemma RowsOfBlock(ledger: Ledger, block: BlockRecord)
    ensures forall row :: row in BlockRows(ledger, block) && row.RewardRow? ==>
              row.height == block.height && row.reward == block.rewardBina > 0
    ensures block.rewardBina > 0 ==> HasReward(BlockRows(ledger, block), block.height)
  {
    var transfers, n := TransferCalls(block), |block.transactions|;
    TransferCallsExecute(ledger, block, n);
    assert transfers[..n] == transfers;
    var calls := BlockCalls(block);
    assert calls[..|calls|-1] == transfers && calls[|calls|-1] == RewardCall(block);
    var all := BlockRows(ledger, block);
    assert all == RunCalls(ledger, transfers).1 + WrittenBy(RunCalls(ledger, transfers).0, RewardCall(block));
    if block.rewardBina > 0 {
      assert all[|all|-1].RewardRow? && all[|all|-1].height == block.height;
    }
  }

  // ---------------------------------------------------------------- every run

  predicate OnSchedule(state: NodeState) {
    && state.ledger.totalMined == MinedBy(state.height)
    && PaysSchedule(state.log)
    && PaidUpTo(state.log, state.height)
  }

  lemma AdoptOnSchedule(state: NodeState, record: BlockRecord, seed: Digest)
    requires OnSchedule(state) && record.height == state.height + 1 && record.rewardBina == Scheduled(record.height)
    ensures OnSchedule(Adopt(state, record, seed))
  {
    hide HasReward, BlockRows, Execute, RecordBlock, Work128, Above, Drop, Scheduled;
    var rows := BlockRows(state.ledger, record);
    RowsOfBlock(state.ledger, record);
    ScheduledStep(record.height);
    ExecuteKeepsTotal(state.ledger, record.transactions, record.minerAddress);
    forall h: u64 | 1 <= h <= record.height && Scheduled(h) > 0
      ensures HasReward(state.log + rows, h)
    {
      HasRewardConcat(state.log, rows, h);
    }
    assert forall row :: row in state.log + rows ==> row in state.log || row in rows;
  }

  lemma ScheduledStep(height: u64)
    requires height > 0
    ensures MinedBy(height - 1) + Scheduled(height) == MinedBy(height) <= HARD_CAP
  {
  }

  lemma RollBackOnSchedule(state: NodeState, forkPoint: u64)
    requires OnSchedule(state) && forkPoint <= state.height && RollBack(state, forkPoint).Some?
    ensures OnSchedule(RollBack(state, forkPoint).value)
  {
    hide PaysSchedule, HasReward, Scheduled, OpenScoped, RequeueBlocks, WorkSum, Range, MinedBy;
    ReopenedTotal(state.log, forkPoint);
  }

  lemma FinaliseOnSchedule(state: NodeState, order: seq<Address>)
    requires OnSchedule(state)
    ensures OnSchedule(Finalise(state, order))
  {
    hide Winner, Adopt, PaysSchedule, PaidUpTo, BlockReward, Scheduled, MinedBy;
    if state.height < U64_MAX && Winner(state, order).Some? {
      var winner, height := Winner(state, order).value, state.height + 1;
      RewardIsScheduled(height);
      var seed := if IsCheckpointHeight(height) && winner.checkpoint.Some? then winner.header.seed else state.seed;
      AdoptOnSchedule(state, RecordOf(winner, height, BlockReward(height, state.ledger.totalMined)), seed);
    }
  }

  /** The record a step syncs names the reward of its height. */
  predicate NamesScheduledReward(event: Event) {
    event.Syncing? ==> event.record.rewardBina == Scheduled(event.record.height)
  }

  lemma StepOnSchedule(state: NodeState, event: Event)
    requires OnSchedule(state) && NamesScheduledReward(event)
    ensures OnSchedule(Step(state, event))
  {
    hide OnSchedule, AcceptClaim, Propose, Finalise, SyncRecord, RollBack, Enqueue, Adopt, Scheduled;
    match event
    case Accepting(claim, now, btc) => OnlyQueues(state, event); QueuesLeaveSchedule(state, Step(state, event));
    case Proposing(p) => OnlyQueues(state, event); QueuesLeaveSchedule(state, Step(state, event));
    case Enqueueing(signed) => OnlyQueues(state, event); QueuesLeaveSchedule(state, Step(state, event));
    case Finalising(order) => FinaliseOnSchedule(state, order);
    case Syncing(record, now) =>
      if SyncRecord(state, record, now).Success? {
        AcceptedIsBelowMax(state, record, now);
        SyncAdopts(state, record, now);
        AdoptOnSchedule(state, record, if IsCheckpointHeight(record.height) then record.btcSeed else state.seed);
      }
    case RollingBack(forkPoint) =>
      if RollbackAllowed(state, forkPoint) && RollBack(state, forkPoint).Some? {
        RollBackOnSchedule(state, forkPoint);
      }
  }

  lemma QueuesLeaveSchedule(state: NodeState, next: NodeState)
    requires OnSchedule(state) && next == state.(pending := next.pending, mempool := next.mempool)
    ensures OnSchedule(next)
  {
  }

  lemma {:induction false} RunOnSchedule(events: seq<Event>)
    requires forall event :: event in events ==> NamesScheduledReward(event)
    ensures OnSchedule(Run(GENESIS_STATE, events))
  {
    hide Step, NamesScheduledReward;
    if events != [] {
      var rest, last := events[..|events|-1], events[|events|-1];
      RunOnSchedule(rest);
      StepOnSchedule(Run(GENESIS_STATE, rest), last);
    }
  }

  /**
   After every run whose synced records name their scheduled rewards, whatever it finalises and however often and
   deeply it rolls back, exactly min(50 per height, cap) coins are mined.
   */
  lemma TotalFollowsSchedule(events: seq<Event>)
    requires forall event :: event in events ==> NamesScheduledReward(event)
    ensures var state := Run(GENESIS_STATE, events);
            state.ledger.totalMined == Min(INITIAL_BLOCK_REWARD * state.height, HARD_CAP)
  {
    hide Run;
    RunOnSchedule(events);
  }

  // ---------------------------------------------------------------- nonces follow the height

  lemma {:induction false} ExecuteRaisesNonces(ledger: Ledger, txs: seq<SignedTransaction>, miner: Address, address: Address)
    ensures Execute(ledger, txs, miner).Nonce(address) <= ledger.Nonce(address) + |txs|
  {
    if txs != [] {
      ExecuteRaisesNonces(ledger, txs[..|txs|-1], miner, address);
    }
  }

  lemma {:induction false} NoncesFollowHeight(chain: Chain, address: Address)
    requires Executed(chain)
    ensures LedgerOf(chain).Nonce(address) <= MAX_TXS_PER_BLOCK * |chain|
  {
    if chain != [] {
      var rest, last := chain[..|chain|-1], chain[|chain|-1];
      NoncesFollowHeight(rest, address);
      ExecuteRaisesNonces(LedgerOf(rest), last.transactions, last.minerAddress, address);
    }
  }

  lemma NonceRisesByOne(ledger: Ledger, overlay: Overlay, signed: SignedTransaction, miner: Address, address: Address)
    requires SimulateTransaction(ledger, overlay, signed, miner).Some?
    ensures var next := SimulateTransaction(ledger, overlay, signed, miner).value;
            Read(ledger, next, address).nonce <= Read(ledger, overlay, address).nonce + 1
    ensures signed.tx.nonce == Read(ledger, overlay, signed.tx.from).nonce
  {
  }

  lemma {:induction false} SimulatedNonces(ledger: Ledger, txs: seq<SignedTransaction>, miner: Address, bound: nat)
    requires forall address :: ledger.Nonce(address) <= bound
    requires bound + |txs| <= U64_MAX
    ensures var (applied, overlay) := SimulateTransactions(ledger, txs, miner);
            && (forall address :: Read(ledger, overlay, address).nonce <= bound + |txs|)
            && (forall signed :: signed in applied ==> signed.tx.nonce < bound + |txs|)
  {
    if txs != [] {
      var rest, last := txs[..|txs|-1], txs[|txs|-1];
      SimulatedNonces(ledger, rest, miner, bound);
      var overlay := SimulateTransactions(ledger, rest, miner).1;
      if SimulateTransaction(ledger, overlay, last, miner).Some? {
        forall address
          ensures Read(ledger, SimulateTransaction(ledger, overlay, last, miner).value, address).nonce <= bound + |txs|
        {
          NonceRisesByOne(ledger, overlay, last, miner, address);
        }
      }
    }
  }

  /** Far below the u64 range of heights no executable block reaches the last nonce. */
  lemma BlocksFit(state: NodeState, record: BlockRecord)
    requires Solvent(state) && ExecutesOn(state.ledger, record)
    requires state.height < U64_MAX / MAX_TXS_PER_BLOCK
    ensures NoncesHaveSuccessors(record.transactions)
  {
    hide Linked, LogFor, AdjusterOf, WorkOf, SeedOf, LedgerOf;
    forall address
      ensures state.ledger.Nonce(address) <= MAX_TXS_PER_BLOCK * state.height
    {
      NoncesFollowHeight(ChainOf(state), address);
    }
    SimulatedNonces(state.ledger, record.transactions, record.minerAddress, MAX_TXS_PER_BLOCK * state.height);
  }

  // ---------------------------------------------------------------- scheduled runs are orderly

  /** The blocks above the fork point carry no transfers. */
  predicate DropsNoTransfers(state: NodeState, forkPoint: u64) {
    forall h :: h in state.store && forkPoint < h <= state.height ==> state.store[h].transactions == []
  }

  /** A disciplined run that syncs scheduled rewards, rolls back only transfer-free blocks and stays far below 2^64. */
  predicate ScheduledRun(events: seq<Event>) {
    && Disciplined(events)
    && (events != [] ==>
          var before, last := Run(GENESIS_STATE, events[..|events|-1]), events[|events|-1];
          && ScheduledRun(events[..|events|-1])
          && NamesScheduledReward(last)
          && (last.RollingBack? ==> DropsNoTransfers(before, last.forkPoint))
          && before.height < U64_MAX / MAX_TXS_PER_BLOCK)
  }

  ghost predicate SoundOnSchedule(state: NodeState) {
    Sound(state) && OnSchedule(state) && NoStaleTransfers(state.log, ChainOf(state))
  }

  lemma CleanOnSchedule(state: NodeState, reward: u64)
    requires SoundOnSchedule(state) && state.height < U64_MAX && reward == Scheduled(state.height + 1)
    ensures CleanAt(state.log, state.height + 1, reward > 0)
  {
    hide Solvent, FullyEndorsed, Scheduled, MinedBy;
  }

  lemma ScheduledFinaliseIsOrderly(state: NodeState, order: seq<Address>)
    requires SoundOnSchedule(state) && WinnerExtendsTip(state, order) && state.height < U64_MAX / MAX_TXS_PER_BLOCK
    ensures WithinLimits(state, Finalising(order)) && AppendsCleanly(state, Finalising(order))
  {
    hide SoundOnSchedule, Winner, BlockReward, CleanAt, Scheduled, MinedBy, LinksTo, ExecutesOn, Solvent, FullyEndorsed;
    PartsOf(state);
    if Winner(state, order).Some? {
      SoundWinnerExecutes(state, order);
      var height := state.height + 1;
      RewardIsScheduled(height);
      BlocksFit(state, RecordOf(Winner(state, order).value, height, BlockReward(height, state.ledger.totalMined)));
      CleanOnSchedule(state, Scheduled(height));
    }
  }

  lemma ScheduledSyncIsOrderly(state: NodeState, record: BlockRecord, now: u64)
    requires SoundOnSchedule(state) && state.height < U64_MAX / MAX_TXS_PER_BLOCK
    requires record.rewardBina == Scheduled(record.height)
    ensures WithinLimits(state, Syncing(record, now)) && AppendsCleanly(state, Syncing(record, now))
  {
    hide SoundOnSchedule, SyncRecord, CleanAt, Scheduled, LinksTo, ExecutesOn, FullyEndorsed, Consistent, Executed, LogFor, LedgerOf;
    PartsOf(state);
    if SyncRecord(state, record, now).Success? {
      AcceptedIsBelowMax(state, record, now);
      SyncAcceptsExactly(state, record, now);
      BlocksFit(state, record);
      ScheduledStep(record.height);
      CleanOnSchedule(state, record.rewardBina);
    }
  }

  lemma PartsOf(state: NodeState)
    requires SoundOnSchedule(state)
    ensures Solvent(state) && Consistent(state) && FullyEndorsed(state) && OnSchedule(state)
    ensures state.ledger.totalMined == MinedBy(state.height)
    ensures Contiguous(state) && NoStaleTransfers(state.log, ChainOf(state))
  {
    hide Linked, AdjusterOf, WorkOf, Executed, LogFor;
  }

  lemma AdoptLeavesNoStale(state: NodeState, record: BlockRecord, seed: Digest)
    requires Solvent(state) && NoStaleTransfers(state.log, ChainOf(state)) && record.height == state.height + 1
    ensures Contiguous(Adopt(state, record, seed))
    ensures NoStaleTransfers(Adopt(state, record, seed).log, ChainOf(Adopt(state, record, seed)))
  {
    hide NoStaleTransfers, Linked, Executed, LogFor, LedgerOf, AdjusterOf, WorkOf, SeedOf, BlockRows;
    AdoptExtendsChain(state, record, seed);
    AppendKeepsNoStale(state.log, ChainOf(state), record);
  }

  lemma RollBackLeavesNoStale(state: NodeState, forkPoint: u64)
    requires Solvent(state) && NoStaleTransfers(state.log, ChainOf(state)) && RollbackAllowed(state, forkPoint)
    requires DropsNoTransfers(state, forkPoint)
    ensures RollBack(state, forkPoint).Some? && Contiguous(RollBack(state, forkPoint).value)
    ensures NoStaleTransfers(RollBack(state, forkPoint).value.log, ChainOf(RollBack(state, forkPoint).value))
  {
    hide NoStaleTransfers, Executed, LogFor, LedgerOf, AdjusterOf, WorkOf, SeedOf, OpenScoped, RequeueBlocks, WorkSum, Range, Linked;
    RollBackConsistent(state, forkPoint);
    TransferFreeRollback(state.log, ChainOf(state), forkPoint);
  }

  lemma StepLeavesNoStale(state: NodeState, event: Event)
    requires SoundOnSchedule(state) && (event.RollingBack? ==> DropsNoTransfers(state, event.forkPoint))
    requires Contiguous(Step(state, event))
    ensures NoStaleTransfers(Step(state, event).log, ChainOf(Step(state, event)))
  {
    hide SoundOnSchedule, NoStaleTransfers, Solvent, Consistent, FullyEndorsed, OnSchedule, AcceptClaim, Propose, SyncRecord,
      RollBack, Enqueue, Adopt, Winner, BlockReward, DropsNoTransfers, RollbackAllowed, ChainOf, MinedBy;
    PartsOf(state);
    var next := Step(state, event);
    match event
    case Accepting(claim, now, btc) => OnlyQueues(state, event); QueuesLeaveSolvent(state, next);
    case Proposing(p) => OnlyQueues(state, event); QueuesLeaveSolvent(state, next);
    case Enqueueing(signed) => OnlyQueues(state, event); QueuesLeaveSolvent(state, next);
    case Finalising(order) =>
      if state.height < U64_MAX && Winner(state, order).Some? {
        var winner, height := Winner(state, order).value, state.height + 1;
        var seed := if IsCheckpointHeight(height) && winner.checkpoint.Some? then winner.header.seed else state.seed;
        AdoptLeavesNoStale(state, RecordOf(winner, height, BlockReward(height, state.ledger.totalMined)), seed);
      }
    case Syncing(record, now) =>
      if SyncRecord(state, record, now).Success? {
        AcceptedIsBelowMax(state, record, now);
        SyncAdopts(state, record, now);
        AdoptLeavesNoStale(state, record, if IsCheckpointHeight(record.height) then record.btcSeed else state.seed);
      }
    case RollingBack(forkPoint) =>
      if RollbackAllowed(state, forkPoint) {
        RollBackLeavesNoStale(state, forkPoint);
      }
  }

  lemma ScheduledStepIsOrderly(state: NodeState, event: Event)
    requires SoundOnSchedule(state) && ElectsExtension(state, event) && NamesScheduledReward(event)
    requires state.height < U64_MAX / MAX_TXS_PER_BLOCK
    ensures WithinLimits(state, event) && AppendsCleanly(state, event)
  {
    hide SoundOnSchedule, SyncRecord, CleanAt, Scheduled, Winner, FitsOn, WinnerExtendsTip;
    match event
    case Finalising(order) => ScheduledFinaliseIsOrderly(state, order);
    case Syncing(record, now) => ScheduledSyncIsOrderly(state, record, now);
    case _ =>
  }

  lemma GenesisIsSoundOnSchedule()
    ensures SoundOnSchedule(GENESIS_STATE)
  {
    GenesisIsSound();
  }

  /**
   Scheduled runs are orderly, before and after the cap: the node's state is right, its coins are min(50 per
   height, cap), and the balances add up to exactly these.
   */
  lemma {:induction false} EveryScheduledRunIsOrderly(events: seq<Event>)
    requires ScheduledRun(events)
    ensures OrderlyRun(events)
    ensures var state := Run(GENESIS_STATE, events);
            && SoundOnSchedule(state)
            && Sum(state.ledger.balances) == state.ledger.totalMined == Min(INITIAL_BLOCK_REWARD * state.height, HARD_CAP)
  {
    hide Step, Sound, OnSchedule, NoStaleTransfers, WithinLimits, AppendsCleanly, ElectsExtension, ClockRuns,
      NamesScheduledReward, DropsNoTransfers;
    if events == [] {
      GenesisIsSoundOnSchedule();
    } else {
      var before, last := Run(GENESIS_STATE, events[..|events|-1]), events[|events|-1];
      EveryScheduledRunIsOrderly(events[..|events|-1]);
      DisciplineElectsExtensions(events);
      ScheduledStepIsOrderly(before, last);
      StepKeepsSound(before, last);
      StepOnSchedule(before, last);
      SoundIsContiguous(Step(before, last));
      StepLeavesNoStale(before, last);
    }
    EveryOrderlyRunIsSound(events);
    PartsOf(Run(GENESIS_STATE, events));
  }
}
