/**
 What every step of the node keeps: the derived state stays a function of the stored chain, across
 finalised blocks, synced records and rollbacks.
 */
module NodeInvariants {
  import opened Numbers
  import opened Wrappers
  import opened Types
  import opened Ledgers
  import opened Supply
  import opened Replay
  import opened Merkle
  import opened Difficulty
  import opened Checkpoints
  import opened Claims
  import opened Chains
  import opened NodeStates

  // ---------------------------------------------------------------- invariants

  /** The store holds exactly the heights 1 to the tip. */
  ghost predicate Contiguous(state: NodeState) {
    forall h: u64 :: h in state.store <==> 1 <= h <= state.height
  }

  ghost function ChainOf(state: NodeState): Chain
    requires Contiguous(state)
  {
    seq(state.height, i requires 0 <= i < state.height => state.store[(i + 1) as u64])
  }

  /** The stored blocks form a linked chain, and tip, clock, seed, work and adjuster are functions of it. */
  ghost predicate Consistent(state: NodeState) {
    && Contiguous(state)
    && var chain := ChainOf(state);
    && Linked(chain)
    && state.tipHash == TipHash(chain)
    && state.lastTimestamp == TipTime(chain)
    && state.seed == SeedOf(chain)
    && state.chainWork == WorkOf(chain)
    && state.adjuster == AdjusterOf(chain)
  }

  /** The claim extends `chain` by the header rules. */
  predicate ClaimLinks(chain: Chain, claim: PendingClaim) {
    && |chain| < U64_MAX
    && claim.Verifies()
    && claim.header.height == |chain| + 1
    && claim.header.prevHash == TipHash(chain)
    && claim.header.difficultyBits == AdjusterOf(chain).currentBits
    && claim.header.timestamp > TipTime(chain)
    && (IsCheckpointHeight(claim.header.height) ==> claim.checkpoint.Some?)
    && (!IsCheckpointHeight(claim.header.height) ==> claim.header.seed == SeedOf(chain))
  }

  /** Every pending claim was checked against some linked chain, not necessarily the current one. */
  ghost predicate Endorsed(state: NodeState) {
    forall h, miner :: h in state.pending && miner in state.pending[h] ==>
      && state.pending[h][miner].header.height == h
      && exists chain :: Linked(chain) && ClaimLinks(chain, state.pending[h][miner])
  }

  // ---------------------------------------------------------------- adopting a block

  lemma AdoptExtendsChain(state: NodeState, record: BlockRecord, seed: Digest)
    requires Contiguous(state) && record.height == state.height + 1
    ensures Contiguous(Adopt(state, record, seed))
    ensures ChainOf(Adopt(state, record, seed)) == ChainOf(state) + [record]
  {
  }

  /** Adopting a block keeps the node consistent exactly when the block links to the stored chain. */
  lemma {:induction false} AdoptConsistentExactly(state: NodeState, record: BlockRecord)
    requires Consistent(state) && record.height == state.height + 1
    ensures var seed := if IsCheckpointHeight(record.height) then record.btcSeed else state.seed;
            Consistent(Adopt(state, record, seed)) <==> LinksTo(ChainOf(state), record)
  {
    var seed := if IsCheckpointHeight(record.height) then record.btcSeed else state.seed;
    var chain := ChainOf(state);
    var longer := chain + [record];
    AdoptExtendsChain(state, record, seed);
    SnocParts(chain, record);
    StampsAppend(chain, record);
    SeedStep(chain, record);
    if LinksTo(chain, record) {
      assert Linked(longer);
      WorkIsBounded(longer);
    }
  }

  // ---------------------------------------------------------------- finalising

  lemma WinnerIsPending(state: NodeState, order: seq<Address>) returns (miner: Address)
    requires state.height < U64_MAX && Winner(state, order).Some?
    ensures miner in order && state.height + 1 in state.pending && miner in state.pending[state.height + 1]
    ensures state.pending[state.height + 1][miner] == Winner(state, order).value
  {
    var candidates := CandidatesAt(state.pending, state.height + 1);
    var claims := InOrder(candidates, order);
    WinnerIsUnbeaten(claims);
    InOrderIsPending(candidates, order, SelectWinning(claims).value);
    miner :| miner in order && miner in candidates && candidates[miner] == Winner(state, order).value;
  }

  /** The winner was built on the current tip, with the header version that records can carry. */
  predicate WinnerExtendsTip(state: NodeState, order: seq<Address>) {
    state.height < U64_MAX && Winner(state, order).Some? ==>
      Winner(state, order).value.header.prevHash == state.tipHash && Winner(state, order).value.header.version == 1
  }

  lemma ClaimRecordLinksExactly(chain: Chain, other: Chain, claim: PendingClaim, reward: u64)
    requires Linked(chain) && Linked(other) && ClaimLinks(other, claim)
    requires claim.header.height == |chain| + 1
    ensures LinksTo(chain, RecordOf(claim, |chain| + 1, reward))
            <==> claim.header.prevHash == TipHash(chain) && claim.header.version == 1
    ensures IsCheckpointHeight(claim.header.height) ==> claim.checkpoint.Some?
  {
    hide ParseAddress, AdjusterOf;
    var record := RecordOf(claim, |chain| + 1, reward);
    assert HeaderFromRecord(record, record.prevHash).Some?;
    assert HeaderFromRecord(record, record.prevHash).value == claim.header.(version := 1);
    if claim.header.prevHash == TipHash(chain) {
      SameTipSameConsensus(chain, other);
    }
  }

  /**
   Finalising keeps the node consistent if and only if the elected claim extends the current tip with version 1.
   A rollback keeps pending claims above the fork point, so an elected claim may belong to a branch that is gone;
   and claims are not checked for their version, which block records do not carry.
   */
  lemma FinaliseConsistentExactly(state: NodeState, order: seq<Address>)
    requires Consistent(state) && Endorsed(state)
    ensures Consistent(Finalise(state, order)) <==> WinnerExtendsTip(state, order)
  {
    hide ParseAddress, AdjusterOf, Linked, ClaimLinks, BlockReward, LinksTo;
    if state.height < U64_MAX && Winner(state, order).Some? {
      var winner, height := Winner(state, order).value, state.height + 1;
      var miner := WinnerIsPending(state, order);
      var other :| Linked(other) && ClaimLinks(other, winner);
      var record := RecordOf(winner, height, BlockReward(height, state.ledger.totalMined));
      ClaimRecordLinksExactly(ChainOf(state), other, winner, record.rewardBina);
      AdoptConsistentExactly(state, record);
    }
  }

  // ---------------------------------------------------------------- syncing

  /** A record is accepted exactly when it links to the stored chain, executes, and is not too far in the future. */
  lemma {:induction false} SyncAcceptsExactly(state: NodeState, record: BlockRecord, now: u64)
    requires Consistent(state) && state.height < U64_MAX
    ensures SyncRecord(state, record, now).Success? <==>
              && LinksTo(ChainOf(state), record)
              && ExecutesOn(state.ledger, record)
              && record.timestamp <= SaturatingAdd(now, MAX_FUTURE_MS)
    ensures SyncRecord(state, record, now).Success? ==> Consistent(SyncRecord(state, record, now).value)
  {
    hide ParseAddress, AdjusterOf, Linked, SimulateTransactions, RootOfTransactions, Adopt, WorkOf;
    SurvivorsOfFullLength(state.ledger, record.transactions, record.minerAddress);
    if record.height == state.height + 1 {
      AdoptConsistentExactly(state, record);
    }
  }

  /** Simulation that drops nothing returns the list it was given. */
  lemma {:induction false} SurvivorsOfFullLength(ledger: Ledger, txs: seq<SignedTransaction>, miner: Address)
    ensures |SimulateTransactions(ledger, txs, miner).0| <= |txs|
    ensures |SimulateTransactions(ledger, txs, miner).0| == |txs| ==> SimulateTransactions(ledger, txs, miner).0 == txs
  {
    if txs != [] {
      SurvivorsOfFullLength(ledger, txs[..|txs|-1], miner);
    }
  }

  // ---------------------------------------------------------------- rolling back

  lemma {:induction false} RangeIsChain(state: NodeState, from: nat)
    requires Contiguous(state) && 1 <= from <= state.height + 1
    ensures Range(state.store, from, state.height) == ChainOf(state)[from - 1..]
    decreases state.height + 1 - from
  {
    if from <= state.height {
      RangeIsChain(state, from + 1);
      assert ChainOf(state)[from - 1..] == [ChainOf(state)[from - 1]] + ChainOf(state)[from..];
    }
  }

  lemma {:induction false} WorkOfTail(chain: Chain, keep: nat)
    requires WorkOf(chain) <= U128_MAX && keep <= |chain|
    ensures WorkOf(chain[..keep]) + WorkSum(chain[keep..]) == WorkOf(chain)
  {
    if keep == |chain| {
      assert chain[..keep] == chain;
    } else {
      var rest := chain[..|chain|-1];
      WorkOfTail(rest, keep);
      assert rest[..keep] == chain[..keep];
      assert chain[keep..][..|chain[keep..]|-1] == rest[keep..];
    }
  }

  /** The guards keep a rollback above genesis, within eighteen blocks, and its rows in the store. */
  lemma RollBackGoesThrough(state: NodeState, forkPoint: u64)
    requires Contiguous(state) && RollbackAllowed(state, forkPoint)
    ensures 0 < forkPoint && state.height - forkPoint <= 18
    ensures RollBack(state, forkPoint).Some?
    ensures var next := RollBack(state, forkPoint).value;
            && Contiguous(next)
            && ChainOf(next) == ChainOf(state)[..forkPoint]
            && next.tipHash == TipHash(ChainOf(state)[..forkPoint])
            && next.lastTimestamp == TipTime(ChainOf(state)[..forkPoint])
            && next.seed == SeedOf(ChainOf(state)[..forkPoint])
  {
    hide RequeueBlocks, OpenScoped, WorkSum, Range;
    var next := RollBack(state, forkPoint).value;
    assert ChainOf(next) == ChainOf(state)[..forkPoint];
  }

  /** The untouched adjuster is the fold over the shorter chain: no epoch boundary was undone. */
  lemma {:induction false} RollBackKeepsAdjuster(chain: Chain, forkPoint: nat)
    requires Linked(chain) && AdjusterOf(chain).epochStartHeight <= forkPoint <= |chain|
    ensures AdjusterOf(chain[..forkPoint]) == AdjusterOf(chain)
  {
    hide Linked;
    HeightsArePositions(chain);
    TruncationKeepsAdjuster(GENESIS_ADJUSTER, Stamps(chain), forkPoint);
    assert Stamps(chain)[..forkPoint] == Stamps(chain[..forkPoint]);
  }

  lemma RollBackWork(state: NodeState, forkPoint: u64)
    requires Consistent(state) && forkPoint < state.height
    ensures SaturatingSub128(state.chainWork, WorkSum(Range(state.store, forkPoint + 1, state.height)))
            == WorkOf(ChainOf(state)[..forkPoint])
  {
    hide Linked, AdjusterOf;
    RangeIsChain(state, forkPoint + 1);
    WorkIsBounded(ChainOf(state));
    WorkOfTail(ChainOf(state), forkPoint);
  }

  /**
   A permitted rollback always goes through, drops at most eighteen blocks, and leaves every derived field what
   the shorter chain determines; the adjuster is right although it is not touched.
   */
  lemma {:induction false} RollBackConsistent(state: NodeState, forkPoint: u64)
    requires Consistent(state) && RollbackAllowed(state, forkPoint)
    ensures 0 < forkPoint && state.height - forkPoint <= 18
    ensures RollBack(state, forkPoint).Some?
    ensures var next := RollBack(state, forkPoint).value;
            && Consistent(next)
            && ChainOf(next) == ChainOf(state)[..forkPoint]
            && next.adjuster == state.adjuster
  {
    hide Linked, AdjusterOf, WorkOf, RequeueBlocks, OpenScoped, WorkSum, Range;
    RollBackGoesThrough(state, forkPoint);
    LinkedAt(ChainOf(state), forkPoint);
    RollBackWork(state, forkPoint);
    RollBackKeepsAdjuster(ChainOf(state), forkPoint);
  }

  // ---------------------------------------------------------------- pending claims stay endorsed

  /** Nothing derived depends on the pending claims or the mempool. */
  lemma QueuesAreFree(state: NodeState, next: NodeState)
    requires Consistent(state) && next == state.(pending := next.pending, mempool := next.mempool)
    ensures Consistent(next) && ChainOf(next) == ChainOf(state)
  {
    assert ChainOf(next) == ChainOf(state);
  }

  lemma CheckedClaimLinks(state: NodeState, claim: PendingClaim, now: u64, btc: BtcView)
    requires Consistent(state) && CheckClaim(state, claim, now, btc).None?
    ensures ClaimLinks(ChainOf(state), claim)
  {
    hide ParseAddress, AdjusterOf, Linked, SimulateTransactions, RootOfTransactions;
  }

  lemma BuiltClaimLinks(state: NodeState, p: Proposal)
    requires Consistent(state) && state.height < U64_MAX && state.lastTimestamp < U64_MAX
    requires ParseAddress(p.miner) == Some(p.miner)
    ensures ClaimLinks(ChainOf(state), BuildClaim(state, p))
  {
  }

  lemma EndorsedWith(state: NodeState, next: NodeState, claim: PendingClaim, chain: Chain)
    requires Endorsed(state) && Linked(chain) && ClaimLinks(chain, claim)
    requires var height := claim.header.height;
             next.pending == state.pending[height := CandidatesAt(state.pending, height)[claim.header.miner := claim]]
    ensures Endorsed(next)
  {
    hide Linked, ClaimLinks;
    var height := claim.header.height;
    forall h, miner | h in next.pending && miner in next.pending[h]
      ensures next.pending[h][miner].header.height == h
      ensures exists c :: Linked(c) && ClaimLinks(c, next.pending[h][miner])
    {
      if h != height || miner != claim.header.miner {
        assert h in state.pending && miner in state.pending[h] && next.pending[h][miner] == state.pending[h][miner];
      }
    }
  }

  lemma AboveStaysEndorsed(state: NodeState, next: NodeState, height: u64)
    requires Endorsed(state) && next.pending == Above(state.pending, height)
    ensures Endorsed(next)
  {
  }

  // ---------------------------------------------------------------- every run

  /** A miner's own clock can still move past its tip. */
  predicate ClockRuns(state: NodeState, event: Event) {
    event.Proposing? ==> state.lastTimestamp < U64_MAX
  }

  /** A finalise step elects a claim that extends the tip. */
  predicate ElectsExtension(state: NodeState, event: Event) {
    event.Finalising? ==> WinnerExtendsTip(state, event.order)
  }

  /** Whatever is finalised, pending claims stay checked against some linked chain. */
  lemma StepKeepsEndorsed(state: NodeState, event: Event)
    requires Consistent(state) && Endorsed(state) && ClockRuns(state, event)
    ensures Endorsed(Step(state, event))
  {
    hide Linked, ClaimLinks, CheckClaim, BuildClaim, Endorsed, Consistent, Above, CandidatesAt, Step;
    var next := Step(state, event);
    if next.pending == state.pending {
      SamePendingEndorsed(state, next);
    } else {
      match event {
        case Accepting(claim, now, btc) =>
          AcceptingInserts(state, claim, now, btc);
          CheckedClaimLinks(state, claim, now, btc);
          ConsistentIsLinked(state);
          EndorsedWith(state, next, claim, ChainOf(state));
        case Proposing(p) =>
          ProposingInserts(state, p);
          BuiltClaimLinks(state, p);
          ConsistentIsLinked(state);
          EndorsedWith(state, next, BuildClaim(state, p), ChainOf(state));
        case _ =>
          var height := MovingDrops(state, event);
          AboveStaysEndorsed(state, next, height);
      }
    }
  }

  lemma AcceptingInserts(state: NodeState, claim: PendingClaim, now: u64, btc: BtcView)
    requires Step(state, Accepting(claim, now, btc)).pending != state.pending
    ensures CheckClaim(state, claim, now, btc).None?
    ensures var height := claim.header.height;
            Step(state, Accepting(claim, now, btc)).pending
            == state.pending[height := CandidatesAt(state.pending, height)[claim.header.miner := claim]]
  {
    hide CheckClaim;
  }

  lemma ProposingInserts(state: NodeState, p: Proposal)
    requires Step(state, Proposing(p)).pending != state.pending
    ensures state.height < U64_MAX && ParseAddress(p.miner) == Some(p.miner)
    ensures var claim := BuildClaim(state, p);
            && claim.header.height == state.height + 1 && claim.header.miner == p.miner
            && Step(state, Proposing(p)).pending
               == state.pending[claim.header.height := CandidatesAt(state.pending, claim.header.height)[claim.header.miner := claim]]
  {
    hide BuildClaim, ParseAddress;
    BuiltClaimPlace(state, p);
  }

  /** Every other step only drops claims, at and below some height. */
  lemma MovingDrops(state: NodeState, event: Event) returns (height: u64)
    requires !event.Accepting? && !event.Proposing? && Step(state, event).pending != state.pending
    ensures Step(state, event).pending == Above(state.pending, height)
  {
    hide Above, SimulateBlock, RootOfTransactions, ParseAddress, Winner, BlockReward, OpenScoped, RequeueBlocks, WorkSum, Range,
      ApplyTransaction, ExecuteBlock, RollbackAllowed;
    height := state.height;
    match event
    case Finalising(_) => height := SaturatingAdd(state.height, 1);
    case Syncing(record, _) => height := record.height;
    case RollingBack(forkPoint) => height := forkPoint;
    case _ =>
  }

  lemma SamePendingEndorsed(state: NodeState, next: NodeState)
    requires Endorsed(state) && next.pending == state.pending
    ensures Endorsed(next)
  {
  }

  lemma ConsistentIsLinked(state: NodeState)
    requires Consistent(state)
    ensures Contiguous(state) && Linked(ChainOf(state))
  {
  }

  lemma BuiltClaimPlace(state: NodeState, p: Proposal)
    requires state.height < U64_MAX
    ensures BuildClaim(state, p).header.height == state.height + 1 && BuildClaim(state, p).header.miner == p.miner
  {
  }

  /** Every step keeps the node consistent, except a finalise step that elects a claim not extending the tip. */
  lemma {:induction false} StepKeepsConsistent(state: NodeState, event: Event)
    requires Consistent(state) && Endorsed(state) && ClockRuns(state, event)
    ensures Consistent(Step(state, event)) <==> ElectsExtension(state, event)
    ensures Endorsed(Step(state, event))
  {
    hide Linked, ClaimLinks, CheckClaim, BuildClaim, Endorsed, Consistent, Finalise, SyncRecord, RollBack, ParseAddress,
      WinnerExtendsTip;
    StepKeepsEndorsed(state, event);
    var next := Step(state, event);
    match event
    case Accepting(claim, now, btc) => QueuesAreFree(state, next);
    case Proposing(p) => QueuesAreFree(state, next);
    case Finalising(order) => FinaliseConsistentExactly(state, order);
    case Syncing(record, now) =>
      if SyncRecord(state, record, now).Success? {
        AcceptedIsBelowMax(state, record, now);
        SyncAcceptsExactly(state, record, now);
      }
    case RollingBack(forkPoint) =>
      if RollbackAllowed(state, forkPoint) {
        RollBackConsistent(state, forkPoint);
      }
    case Enqueueing(signed) => QueuesAreFree(state, next);
  }

  lemma AcceptedIsBelowMax(state: NodeState, record: BlockRecord, now: u64)
    requires SyncRecord(state, record, now).Success?
    ensures state.height < U64_MAX && record.height == state.height + 1
  {
  }

  lemma GenesisIsConsistent()
    ensures Consistent(GENESIS_STATE) && Endorsed(GENESIS_STATE)
  {
    assert ChainOf(GENESIS_STATE) == [];
    assert Stamps([]) == [];
  }

  // ---------------------------------------------------------------- which claims a finalise step may elect

  /** The miners whose candidate for the next height was admitted since the tip last moved, forwards or back. */
  function Fresh(events: seq<Event>): set<Address> {
    if events == [] then {}
    else
      var before, last, sofar := Run(GENESIS_STATE, events[..|events|-1]), events[|events|-1], Fresh(events[..|events|-1]);
      match last
      case Accepting(claim, now, btc) =>
        sofar + if AcceptClaim(before, claim, now, btc).Success? then {claim.header.miner} else {}
      case Proposing(p) => sofar + if Propose(before, p) != before then {p.miner} else {}
      case Enqueueing(_) => sofar
      case _ => if Step(before, last) == before then sofar else {}
  }

  /**
   The discipline the code leaves to its environment: claims that arrive have the version records carry, and an
   election is between claims admitted since the last rollback.
   */
  predicate Disciplined(events: seq<Event>) {
    events != [] ==>
      var before, last := Run(GENESIS_STATE, events[..|events|-1]), events[|events|-1];
      && Disciplined(events[..|events|-1])
      && ClockRuns(before, last)
      && (last.Accepting? ==> last.claim.header.version == 1)
      && (last.Finalising? && before.height < U64_MAX ==>
            forall miner :: miner in last.order && miner in CandidatesAt(before.pending, before.height + 1) ==>
              miner in Fresh(events[..|events|-1]))
  }

  /** The candidates of these miners were built on the current tip. */
  predicate Current(state: NodeState, miners: set<Address>) {
    forall miner :: miner in miners ==>
      && state.height < U64_MAX
      && miner in CandidatesAt(state.pending, state.height + 1)
      && var header := CandidatesAt(state.pending, state.height + 1)[miner].header;
         header.prevHash == state.tipHash && header.version == 1
  }

  lemma CurrentWinnerExtends(state: NodeState, order: seq<Address>, miners: set<Address>)
    requires Current(state, miners)
    requires state.height < U64_MAX ==>
               forall miner :: miner in order && miner in CandidatesAt(state.pending, state.height + 1) ==> miner in miners
    ensures WinnerExtendsTip(state, order)
  {
    hide InOrder;
    if state.height < U64_MAX && Winner(state, order).Some? {
      var miner := WinnerIsPending(state, order);
    }
  }

  lemma AcceptedIsCurrent(state: NodeState, claim: PendingClaim, now: u64, btc: BtcView, miners: set<Address>)
    requires Current(state, miners) && AcceptClaim(state, claim, now, btc).Success? && claim.header.version == 1
    ensures Current(AcceptClaim(state, claim, now, btc).value, miners + {claim.header.miner})
  {
    hide ParseAddress, SimulateBlock, RootOfTransactions, BlockReward;
  }

  lemma ProposedIsCurrent(state: NodeState, p: Proposal, miners: set<Address>)
    requires Current(state, miners)
    ensures Current(Propose(state, p), miners + if Propose(state, p) != state then {p.miner} else {})
  {
    hide ParseAddress, SimulateBlock, RootOfTransactions, BlockReward;
  }

  /** What was admitted since the tip last moved is built on that tip. */
  lemma {:induction false} FreshIsCurrent(events: seq<Event>)
    requires Disciplined(events)
    ensures Current(Run(GENESIS_STATE, events), Fresh(events))
  {
    hide AcceptClaim, Propose, Finalise, SyncRecord, RollBack, ApplyTransaction, Current;
    if events == [] {
      EmptyIsCurrent(GENESIS_STATE);
    } else {
      var before, last, sofar := Run(GENESIS_STATE, events[..|events|-1]), events[|events|-1], Fresh(events[..|events|-1]);
      FreshIsCurrent(events[..|events|-1]);
      EmptyIsCurrent(Run(GENESIS_STATE, events));
      match last {
        case Accepting(claim, now, btc) =>
          if AcceptClaim(before, claim, now, btc).Success? {
            AcceptedIsCurrent(before, claim, now, btc, sofar);
          } else {
            assert sofar + {} == sofar;
          }
        case Proposing(p) => ProposedIsCurrent(before, p, sofar);
        case Enqueueing(signed) => QueueingKeepsCurrent(before, Enqueue(before, signed), sofar);
        case _ =>
      }
    }
  }

  lemma EmptyIsCurrent(state: NodeState)
    ensures Current(state, {})
  {
  }

  lemma QueueingKeepsCurrent(state: NodeState, next: NodeState, miners: set<Address>)
    requires Current(state, miners) && next == state.(mempool := next.mempool)
    ensures Current(next, miners)
  {
  }

  /** In a disciplined run every election extends the tip. */
  lemma DisciplineElectsExtensions(events: seq<Event>)
    requires events != [] && Disciplined(events)
    ensures ElectsExtension(Run(GENESIS_STATE, events[..|events|-1]), events[|events|-1])
  {
    hide Run, Fresh, Current, WinnerExtendsTip;
    FreshIsCurrent(events[..|events|-1]);
    var before, last := Run(GENESIS_STATE, events[..|events|-1]), events[|events|-1];
    if last.Finalising? {
      CurrentWinnerExtends(before, last.order, Fresh(events[..|events|-1]));
    }
  }

  /** After every disciplined run from genesis, every derived field is the function of the stored chain it is meant to be. */
  lemma {:induction false} EveryRunIsConsistent(events: seq<Event>)
    requires Disciplined(events)
    ensures Consistent(Run(GENESIS_STATE, events)) && Endorsed(Run(GENESIS_STATE, events))
  {
    hide Consistent, Endorsed, Step, ElectsExtension;
    if events == [] {
      GenesisIsConsistent();
    } else {
      EveryRunIsConsistent(events[..|events|-1]);
      DisciplineElectsExtensions(events);
      StepKeepsConsistent(Run(GENESIS_STATE, events[..|events|-1]), events[|events|-1]);
    }
  }

  // ---------------------------------------------------------------- when the discipline holds by itself

  /** Arriving claims have version 1, and no candidate is pending when the node rolls back. Elections are unrestricted. */
  predicate Tidy(events: seq<Event>) {
    events != [] ==>
      var before, last := Run(GENESIS_STATE, events[..|events|-1]), events[|events|-1];
      && Tidy(events[..|events|-1])
      && ClockRuns(before, last)
      && (last.Accepting? ==> last.claim.header.version == 1)
      && (last.RollingBack? ==> before.pending == map[])
  }

  /** Every pending candidate is for the next height and from one of these miners. */
  predicate OnlyNext(state: NodeState, miners: set<Address>) {
    forall h :: h in state.pending ==>
      forall miner :: miner in state.pending[h] ==> h == state.height + 1 && miner in miners
  }

  lemma AboveEmpties(state: NodeState, next: NodeState, miners: set<Address>)
    requires OnlyNext(state, miners) && state.height < U64_MAX && next.pending == Above(state.pending, state.height + 1)
    ensures OnlyNext(next, {})
  {
  }

  lemma InsertedIsNext(state: NodeState, next: NodeState, claim: PendingClaim, miners: set<Address>)
    requires OnlyNext(state, miners) && claim.header.height == state.height + 1 && next.height == state.height
    requires var height := claim.header.height;
             next.pending == state.pending[height := CandidatesAt(state.pending, height)[claim.header.miner := claim]]
    ensures OnlyNext(next, miners + {claim.header.miner})
  {
    forall h: u64, miner | h in next.pending && miner in next.pending[h]
      ensures h == state.height + 1 && miner in miners + {claim.header.miner}
    {
      if h != claim.header.height || miner != claim.header.miner {
        assert h in state.pending && miner in state.pending[h];
      }
    }
  }

  lemma AdmittedIsNext(state: NodeState, event: Event, miners: set<Address>)
    requires OnlyNext(state, miners) && (event.Accepting? || event.Proposing?)
    ensures var next := Step(state, event);
            var miner := if event.Accepting? then event.claim.header.miner else event.proposal.miner;
            OnlyNext(next, miners + if next != state then {miner} else {})
  {
    hide CheckClaim, BuildClaim, ParseAddress, OnlyNext, CandidatesAt;
    var next := Step(state, event);
    if next == state {
      assert miners + {} == miners;
    } else if event.Accepting? {
      CheckedHeight(state, event.claim, event.now, event.btc);
      InsertedIsNext(state, next, event.claim, miners);
    } else {
      BuiltClaimPlace(state, event.proposal);
      InsertedIsNext(state, next, BuildClaim(state, event.proposal), miners);
    }
  }

  lemma CheckedHeight(state: NodeState, claim: PendingClaim, now: u64, btc: BtcView)
    requires CheckClaim(state, claim, now, btc).None?
    ensures claim.header.height == state.height + 1
  {
    hide ParseAddress, SimulateBlock, RootOfTransactions, BlockReward;
  }

  /** Without leftover candidates every candidate is fresh. */
  lemma {:induction false} TidyIsFresh(events: seq<Event>)
    requires Tidy(events)
    ensures OnlyNext(Run(GENESIS_STATE, events), Fresh(events))
  {
    hide OnlyNext, AcceptClaim, Propose, SyncRecord, RollBack, Finalise, ApplyTransaction, Adopt;
    if events == [] {
      NothingPending(GENESIS_STATE, {});
    } else {
      var front := events[..|events|-1];
      var before, last, sofar := Run(GENESIS_STATE, front), events[|events|-1], Fresh(front);
      TidyIsFresh(front);
      var next := Step(before, last);
      match last {
        case Accepting(claim, now, btc) =>
          AdmittedIsNext(before, last, sofar);
          if AcceptClaim(before, claim, now, btc).Success? {
            AcceptedChanges(before, claim, now, btc);
          }
        case Proposing(p) => AdmittedIsNext(before, last, sofar);
        case Enqueueing(signed) => SamePendingIsNext(before, next, sofar);
        case RollingBack(forkPoint) => RolledPending(before, forkPoint); NothingPending(next, Fresh(events));
        case Finalising(order) => FinalisedPending(before, order); NextAfterMove(before, next, sofar, Fresh(events));
        case Syncing(record, now) => SyncedPending(before, record, now); NextAfterMove(before, next, sofar, Fresh(events));
      }
    }
  }

  lemma NextAfterMove(before: NodeState, next: NodeState, sofar: set<Address>, miners: set<Address>)
    requires OnlyNext(before, sofar) && miners == if next == before then sofar else {}
    requires next == before || (before.height < U64_MAX && next.pending == Above(before.pending, before.height + 1))
    ensures OnlyNext(next, miners)
  {
    if next != before {
      AboveEmpties(before, next, sofar);
    }
  }

  lemma NothingPending(state: NodeState, miners: set<Address>)
    requires state.pending == map[]
    ensures OnlyNext(state, miners)
  {
  }

  lemma SamePendingIsNext(state: NodeState, next: NodeState, miners: set<Address>)
    requires OnlyNext(state, miners) && next == state.(mempool := next.mempool)
    ensures OnlyNext(next, miners)
  {
  }

  lemma AcceptedChanges(state: NodeState, claim: PendingClaim, now: u64, btc: BtcView)
    requires AcceptClaim(state, claim, now, btc).Success?
    ensures AcceptClaim(state, claim, now, btc).value != state
  {
    hide CheckClaim;
    var height := claim.header.height;
    assert claim.header.miner in CandidatesAt(AcceptClaim(state, claim, now, btc).value.pending, height);
  }

  lemma FinalisedPending(state: NodeState, order: seq<Address>)
    ensures Finalise(state, order) == state
            || (state.height < U64_MAX && Finalise(state, order).pending == Above(state.pending, state.height + 1))
  {
    hide Winner, BlockReward;
  }

  lemma SyncedPending(state: NodeState, record: BlockRecord, now: u64)
    ensures var next := Step(state, Syncing(record, now));
            next == state || (state.height < U64_MAX && next.pending == Above(state.pending, state.height + 1))
  {
    hide SimulateBlock, RootOfTransactions, ParseAddress;
  }

  lemma RolledPending(state: NodeState, forkPoint: u64)
    requires state.pending == map[]
    ensures Step(state, RollingBack(forkPoint)).pending == map[]
  {
    hide OpenScoped, RequeueBlocks, WorkSum, Range;
  }

  /** A run without leftover candidates, in particular one without rollbacks, is disciplined whoever is elected. */
  lemma {:induction false} TidyIsDisciplined(events: seq<Event>)
    requires Tidy(events)
    ensures Disciplined(events)
  {
    hide Fresh, Run;
    if events != [] {
      TidyIsDisciplined(events[..|events|-1]);
      TidyIsFresh(events[..|events|-1]);
    }
  }
}
