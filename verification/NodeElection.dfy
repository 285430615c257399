/**
 What a disciplined run adopts, executes: on the ledger the node has at the time, whatever rollbacks have done to it.
 The ledger's own root is therefore the tip header's after every adoption.
 */
module NodeElections {
  import opened Numbers
  import opened Wrappers
  import opened Types
  import opened Ledgers
  import opened Supply
  import opened Merkle
  import opened Checkpoints
  import opened Chains
  import opened NodeStates
  import opened NodeInvariants
  import opened NodeLedgers
  import opened NodeRuns

  // ---------------------------------------------------------------- what a step adopts

  /** The block a claim becomes when it is finalised now. */
  function RecordNow(state: NodeState, claim: PendingClaim): BlockRecord
    requires state.height < U64_MAX
  {
    RecordOf(claim, state.height + 1, BlockReward(state.height + 1, state.ledger.totalMined))
  }

  /** The block a step puts on the chain, if it does. */
  function Adopted(state: NodeState, event: Event): Option<BlockRecord> {
    match event
    case Syncing(record, now) => if SyncRecord(state, record, now).Success? then Some(record) else None
    case Finalising(order) =>
      if state.height < U64_MAX && Winner(state, order).Some? then Some(RecordNow(state, Winner(state, order).value)) else None
    case _ => None
  }

  lemma StepAdopts(state: NodeState, event: Event) returns (seed: Digest)
    requires Adopted(state, event).Some?
    ensures Adopted(state, event).value.height == state.height + 1
    ensures Step(state, event) == Adopt(state, Adopted(state, event).value, seed)
  {
    hide Adopt, SyncRecord, Winner, BlockReward;
    match event
    case Syncing(record, now) =>
      AcceptedIsBelowMax(state, record, now);
      SyncAdopts(state, record, now);
      seed := if IsCheckpointHeight(record.height) then record.btcSeed else state.seed;
    case Finalising(order) =>
      var winner, height := Winner(state, order).value, state.height + 1;
      seed := if IsCheckpointHeight(height) && winner.checkpoint.Some? then winner.header.seed else state.seed;
  }

  // ---------------------------------------------------------------- fresh claims execute

  /** The candidates of these miners execute in full on the node's ledger, to the roots they commit to. */
  predicate Executable(state: NodeState, miners: set<Address>) {
    forall miner :: miner in miners ==>
      && state.height < U64_MAX
      && miner in CandidatesAt(state.pending, state.height + 1)
      && ExecutesOn(state.ledger, RecordNow(state, CandidatesAt(state.pending, state.height + 1)[miner]))
  }

  lemma AcceptedIsExecutable(state: NodeState, claim: PendingClaim, now: u64, btc: BtcView, miners: set<Address>)
    requires Executable(state, miners) && AcceptClaim(state, claim, now, btc).Success?
    ensures Executable(AcceptClaim(state, claim, now, btc).value, miners + {claim.header.miner})
  {
    hide CheckClaim, ExecutesOn, BlockReward;
    CheckedExecutes(state, claim, now, btc);
  }

  lemma CheckedExecutes(state: NodeState, claim: PendingClaim, now: u64, btc: BtcView)
    requires CheckClaim(state, claim, now, btc).None?
    ensures state.height < U64_MAX && claim.header.height == state.height + 1
    ensures ExecutesOn(state.ledger, RecordNow(state, claim))
  {
    hide ParseAddress, SimulateTransactions, RootOfTransactions;
    SurvivorsOfFullLength(state.ledger, claim.transactions, claim.header.miner);
  }

  lemma ProposedIsExecutable(state: NodeState, p: Proposal, miners: set<Address>)
    requires Executable(state, miners)
    ensures Executable(Propose(state, p), miners + if Propose(state, p) != state then {p.miner} else {})
  {
    hide BuildClaim, ExecutesOn, BlockReward, ParseAddress;
    if state.height < U64_MAX {
      BuiltClaimExecutes(state, p);
    }
  }

  lemma QueueingKeepsExecutable(state: NodeState, next: NodeState, miners: set<Address>)
    requires Executable(state, miners) && next == state.(mempool := next.mempool)
    ensures Executable(next, miners)
  {
  }

  lemma NobodyIsExecutable(state: NodeState)
    ensures Executable(state, {})
  {
  }

  /** What was admitted since the tip last moved executes now. */
  lemma {:induction false} FreshIsExecutable(events: seq<Event>)
    ensures Executable(Run(GENESIS_STATE, events), Fresh(events))
  {
    hide AcceptClaim, Propose, Finalise, SyncRecord, RollBack, ApplyTransaction, Executable;
    NobodyIsExecutable(Run(GENESIS_STATE, events));
    if events != [] {
      var before, last, sofar := Run(GENESIS_STATE, events[..|events|-1]), events[|events|-1], Fresh(events[..|events|-1]);
      FreshIsExecutable(events[..|events|-1]);
      match last {
        case Accepting(claim, now, btc) =>
          if AcceptClaim(before, claim, now, btc).Success? {
            AcceptedIsExecutable(before, claim, now, btc, sofar);
          } else {
            assert sofar + {} == sofar;
          }
        case Proposing(p) => ProposedIsExecutable(before, p, sofar);
        case Enqueueing(signed) => QueueingKeepsExecutable(before, Enqueue(before, signed), sofar);
        case _ =>
      }
    }
  }

  // ---------------------------------------------------------------- what is adopted executes

  lemma FreshWinnerExecutes(state: NodeState, order: seq<Address>, miners: set<Address>)
    requires Executable(state, miners) && state.height < U64_MAX && Winner(state, order).Some?
    requires forall miner :: miner in order && miner in CandidatesAt(state.pending, state.height + 1) ==> miner in miners
    ensures ExecutesOn(state.ledger, RecordNow(state, Winner(state, order).value))
  {
    hide InOrder, ExecutesOn, BlockReward;
    var miner := WinnerIsPending(state, order);
  }

  lemma SyncedExecutes(state: NodeState, record: BlockRecord, now: u64)
    requires SyncRecord(state, record, now).Success?
    ensures ExecutesOn(state.ledger, record)
  {
    hide ParseAddress, SimulateTransactions, RootOfTransactions, Adopt;
    SurvivorsOfFullLength(state.ledger, record.transactions, record.minerAddress);
  }

  /** Elections take place between claims admitted since the last rollback. */
  predicate ElectsFresh(events: seq<Event>) {
    events != [] ==>
      var before, last := Run(GENESIS_STATE, events[..|events|-1]), events[|events|-1];
      last.Finalising? && before.height < U64_MAX ==>
        forall miner :: miner in last.order && miner in CandidatesAt(before.pending, before.height + 1) ==>
          miner in Fresh(events[..|events|-1])
  }

  /** Whatever the last event of a disciplined run adopts, executes in full on the ledger of the moment. */
  lemma {:induction false} AdoptedExecutes(events: seq<Event>)
    requires events != [] && ElectsFresh(events)
    ensures var before := Run(GENESIS_STATE, events[..|events|-1]);
            Adopted(before, events[|events|-1]).Some? ==>
              ExecutesOn(before.ledger, Adopted(before, events[|events|-1]).value)
  {
    hide Run, Fresh, Executable, Winner, SyncRecord, ExecutesOn, BlockReward;
    var before, last := Run(GENESIS_STATE, events[..|events|-1]), events[|events|-1];
    FreshIsExecutable(events[..|events|-1]);
    match last
    case Syncing(record, now) =>
      if SyncRecord(before, record, now).Success? {
        SyncedExecutes(before, record, now);
      }
    case Finalising(order) =>
      if before.height < U64_MAX && Winner(before, order).Some? {
        FreshWinnerExecutes(before, order, Fresh(events[..|events|-1]));
      }
    case _ =>
  }

  /**
   In every disciplined run, the elected claim links to the stored chain and executes on the node's ledger to the root
   its header commits to, also when rolled-back transfers have left that ledger wrong.
   */
  lemma {:induction false} WinnerExecutes(events: seq<Event>, order: seq<Address>)
    requires Disciplined(events + [Finalising(order)])
    requires var state := Run(GENESIS_STATE, events); state.height < U64_MAX && Winner(state, order).Some?
    ensures var state := Run(GENESIS_STATE, events);
            var winner := Winner(state, order).value;
            && Contiguous(state)
            && LinksTo(ChainOf(state), RecordNow(state, winner))
            && ExecutesOn(state.ledger, RecordNow(state, winner))
            && (IsCheckpointHeight(state.height + 1) ==> winner.checkpoint.Some?)
  {
    hide Run, Fresh, Winner, ExecutesOn, BlockReward, LinksTo, ClaimLinks, Linked;
    var all, state := events + [Finalising(order)], Run(GENESIS_STATE, events);
    assert all[..|all|-1] == events && all[|all|-1] == Finalising(order);
    AdoptedExecutes(all);
    EveryRunIsConsistent(events);
    ConsistentIsLinked(state);
    DisciplineElectsExtensions(all);
    var miner := WinnerIsPending(state, order);
    var other :| Linked(other) && ClaimLinks(other, Winner(state, order).value);
    ClaimRecordLinksExactly(
      ChainOf(state), other, Winner(state, order).value, BlockReward(state.height + 1, state.ledger.totalMined));
  }

  // ---------------------------------------------------------------- the tip's root

  /** Executing the adopted block reaches no u64 limit. */
  predicate AdoptsWithinLimits(state: NodeState, event: Event) {
    Adopted(state, event).Some? ==>
      var record := Adopted(state, event).value;
      NoncesHaveSuccessors(record.transactions)
      && RewardFits(state.ledger, record.transactions, record.minerAddress, record.rewardBina)
  }

  /** A list that simulates in full executes in full. */
  lemma SimulatedExecutesInFull(ledger: Ledger, record: BlockRecord)
    requires ExecutesOn(ledger, record) && NoncesHaveSuccessors(record.transactions)
    ensures ExecutesInFull(ledger, record.transactions, record.minerAddress)
  {
    hide RootOfTransactions;
    SimulationTracksExecution(ledger, record.transactions, record.minerAddress);
    AcceptedIsSubset(ledger, record.transactions, record.minerAddress);
  }

  lemma AdoptedRoot(ledger: Ledger, record: BlockRecord)
    requires ExecutesOn(ledger, record) && NoncesHaveSuccessors(record.transactions)
    requires RewardFits(ledger, record.transactions, record.minerAddress, record.rewardBina)
    ensures ExecuteBlock(ledger, record.transactions, record.minerAddress, record.rewardBina).Root() == record.stateRoot
  {
    hide RootOfTransactions, SimulateBlock, ExecuteBlock;
    AcceptedIsSubset(ledger, record.transactions, record.minerAddress);
    SimulationMatchesExecutionExactly(ledger, record.transactions, record.minerAddress, record.rewardBina);
  }

  /** The last event that moved the tip adopted a block; so far nothing moved it counts too. */
  predicate TipWasAdopted(events: seq<Event>) {
    events != [] ==>
      var before, last := Run(GENESIS_STATE, events[..|events|-1]), events[|events|-1];
      || (Adopted(before, last).Some? && ElectsFresh(events) && AdoptsWithinLimits(before, last))
      || (TipWasAdopted(events[..|events|-1]) && Adopted(before, last).None?
          && (last.RollingBack? ==> Step(before, last) == before))
  }

  lemma AdoptionSetsRoot(state: NodeState, record: BlockRecord, seed: Digest)
    requires Contiguous(state) && record.height == state.height + 1
    requires ExecutesOn(state.ledger, record) && NoncesHaveSuccessors(record.transactions)
    requires RewardFits(state.ledger, record.transactions, record.minerAddress, record.rewardBina)
    ensures Contiguous(Adopt(state, record, seed))
    ensures Adopt(state, record, seed).ledger.Root() == TipStateRoot(ChainOf(Adopt(state, record, seed)))
  {
    hide ExecutesOn, ExecuteBlock, RewardFits;
    AdoptedRoot(state.ledger, record);
    AdoptExtendsChain(state, record, seed);
  }

  lemma StayingKeepsRoot(state: NodeState, event: Event)
    requires Contiguous(state) && state.ledger.Root() == TipStateRoot(ChainOf(state))
    requires Adopted(state, event).None? && (event.RollingBack? ==> Step(state, event) == state)
    ensures var next := Step(state, event);
            Contiguous(next) && next.ledger.Root() == TipStateRoot(ChainOf(next))
  {
    hide AcceptClaim, Propose, SyncRecord, Winner, RollBack, Enqueue;
    if event.Accepting? || event.Proposing? || event.Enqueueing? {
      OnlyQueues(state, event);
      SameChain(state, Step(state, event));
    }
  }

  lemma SameChain(state: NodeState, next: NodeState)
    requires Contiguous(state) && next == state.(pending := next.pending, mempool := next.mempool)
    ensures Contiguous(next) && ChainOf(next) == ChainOf(state)
  {
    assert ChainOf(next) == ChainOf(state);
  }

  /**
   Whenever the tip was last moved by an adoption that elected among fresh claims and reached no u64 limit, the
   ledger's own root is the tip header's. No clean log is needed: only between a rollback onto an unclean log and the
   next block can the two differ.
   */
  lemma {:induction false} TipRootAfterAdoption(events: seq<Event>)
    requires TipWasAdopted(events)
    ensures var state := Run(GENESIS_STATE, events);
            Contiguous(state) && state.ledger.Root() == TipStateRoot(ChainOf(state))
  {
    hide Step, Adopted, ElectsFresh, ExecutesOn, RewardFits, NoncesHaveSuccessors, Contiguous;
    if events == [] {
      GenesisRoot();
    } else {
      var before, last := Run(GENESIS_STATE, events[..|events|-1]), events[|events|-1];
      if Adopted(before, last).Some? && ElectsFresh(events) && AdoptsWithinLimits(before, last) {
        AdoptedExecutes(events);
        RunIsContiguous(events[..|events|-1]);
        var seed := StepAdopts(before, last);
        AdoptionSetsRoot(before, Adopted(before, last).value, seed);
      } else {
        TipRootAfterAdoption(events[..|events|-1]);
        StayingKeepsRoot(before, last);
      }
    }
  }

  lemma GenesisRoot()
    ensures Contiguous(GENESIS_STATE) && GENESIS_STATE.ledger.Root() == TipStateRoot(ChainOf(GENESIS_STATE))
  {
    assert EMPTY_LEDGER.View() == map[];
  }
}
