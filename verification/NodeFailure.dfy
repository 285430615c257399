/** Runs from genesis in which the node's own rules do not save it, each a list of events anyone can replay. */
module NodeFailures {
  import opened Numbers
  import opened Wrappers
  import opened Types
  import opened Ledgers
  import opened Supply
  import opened Replay
  import opened Merkle
  import opened Difficulty
  import opened Checkpoints
  import opened Chains
  import opened ChainLogs
  import opened NodeStates
  import opened NodeInvariants
  import opened NodeLedgers
  import opened NodeSchedules
  import opened NodeRuns

  // ---------------------------------------------------------------- who and when

  function Repeated(digit: char): Address {
    seq(40, i => digit)
  }

  function Miner(): Address {
    Repeated('1')
  }

  function Other(): Address {
    Repeated('2')
  }

  const NOW: u64 := 2_000_000_000_000

  function Payment(): SignedTransaction {
    SignedTransaction(Transaction(Miner(), Other(), 10, 0, 0), "", true)
  }

  lemma Addresses()
    ensures ParseAddress(Miner()) == Some(Miner()) && ParseAddress(Other()) == Some(Other()) && Miner() != Other()
  {
    RepeatedParses('1');
    RepeatedParses('2');
    assert Miner()[0] != Other()[0];
  }

  lemma RepeatedParses(digit: char)
    requires '0' <= digit <= '9' && digit != '0'
    ensures ParseAddress(Repeated(digit)) == Some(Repeated(digit))
  {
    var text := Repeated(digit);
    assert text[..2][0] == digit && "0x"[0] == '0';
    assert text[..2] != "0x";
    assert LowerHex(digit) == digit && forall c :: c in text ==> c == digit;
    assert ParseAddress(text).value == text;
  }

  /** The state after a peer's block on the current tip. */
  function Extended(state: NodeState, txs: seq<SignedTransaction>, miner: Address): NodeState
    requires state.height < U64_MAX && state.lastTimestamp < U64_MAX
  {
    Step(state, Extending(state, txs, miner))
  }

  function Extending(state: NodeState, txs: seq<SignedTransaction>, miner: Address): Event
    requires state.height < U64_MAX && state.lastTimestamp < U64_MAX
  {
    Syncing(RecordCarrying(state, txs, miner, INITIAL_BLOCK_REWARD), NOW)
  }

  lemma ExtendedFields(state: NodeState, txs: seq<SignedTransaction>, miner: Address)
    requires state.height < U64_MAX && state.lastTimestamp < NOW && |txs| <= MAX_TXS_PER_BLOCK
    requires ParseAddress(miner) == Some(miner) && SimulateBlock(state.ledger, txs, miner, INITIAL_BLOCK_REWARD).0 == txs
    ensures var record, next := RecordCarrying(state, txs, miner, INITIAL_BLOCK_REWARD), Extended(state, txs, miner);
            && SyncRecord(state, record, NOW) == Success(next)
            && next.height == state.height + 1 && next.lastTimestamp == state.lastTimestamp + 1
            && next.tipHash.HeaderHash? && next.tipHash.header.miner == miner && next.tipHash == record.blockHash
            && next.ledger == ExecuteBlock(state.ledger, txs, miner, INITIAL_BLOCK_REWARD)
            && next.log == state.log + BlockRows(state.ledger, record)
            && next.store == state.store[record.height := record]
            && record.height == state.height + 1 && record.transactions == txs && record.minerAddress == miner
            && next.pending == Above(state.pending, state.height + 1)
            && next.adjuster == RecordBlock(state.adjuster, Stamp(state.height + 1, state.lastTimestamp + 1))
  {
    hide ParseAddress, SimulateBlock, RootOfTransactions, SyncRecord, ExecuteBlock, BlockRows, RecordBlock, Above;
    var record := RecordCarrying(state, txs, miner, INITIAL_BLOCK_REWARD);
    CarriedIsAccepted(state, txs, miner, INITIAL_BLOCK_REWARD, NOW);
    SyncAdopts(state, record, NOW);
  }

  /** Blocks without transfers always execute. */
  lemma EmptyExecutes(state: NodeState, miner: Address)
    ensures SimulateBlock(state.ledger, [], miner, INITIAL_BLOCK_REWARD).0 == []
  {
  }

  // ---------------------------------------------------------------- a chain of two blocks

  function First(): NodeState {
    Extended(GENESIS_STATE, [], Miner())
  }

  lemma FirstFields()
    ensures First().height == 1 && First().lastTimestamp == GENESIS_TIMESTAMP_MS + 1 && First().pending == map[]
    ensures First().adjuster == GENESIS_ADJUSTER
    ensures First().ledger == Ledger(map[Miner() := 50], map[], 50)
  {
    Addresses();
    EmptyExecutes(GENESIS_STATE, Miner());
    ExtendedFields(GENESIS_STATE, [], Miner());
    assert Execute(EMPTY_LEDGER, [], Miner()) == EMPTY_LEDGER;
  }

  function Second(txs: seq<SignedTransaction>): NodeState {
    FirstFields();
    Extended(First(), txs, Miner())
  }

  lemma PaymentExecutes()
    ensures SimulateBlock(First().ledger, [Payment()], Miner(), INITIAL_BLOCK_REWARD).0 == [Payment()]
  {
    FirstFields();
    Addresses();
    var list := [Payment()];
    assert list[..|list|-1] == [];
    assert SimulateTransactions(First().ledger, list[..|list|-1], Miner()) == ([], map[]);
    assert SimulateTransaction(First().ledger, map[], Payment(), Miner()).Some?;
  }

  /** Two blocks by the same miner, the second with or without the payment, reached by syncing scheduled rewards. */
  lemma SecondFields(txs: seq<SignedTransaction>)
    requires txs == [] || txs == [Payment()]
    ensures var second := Second(txs);
            && second.height == 2 && second.lastTimestamp == GENESIS_TIMESTAMP_MS + 2 && second.pending == map[]
            && second.adjuster == GENESIS_ADJUSTER && RollbackAllowed(second, 1)
            && SoundOnSchedule(second)
            && Run(GENESIS_STATE, TwoBlocks(txs)) == second && Disciplined(TwoBlocks(txs))
  {
    hide Extended, SimulateBlock, SoundOnSchedule, Disciplined, ScheduledRun, BlockRows, ExecuteBlock;
    FirstFields();
    Addresses();
    EmptyExecutes(First(), Miner());
    PaymentExecutes();
    ExtendedFields(First(), txs, Miner());
    TwoBlocksRun(txs);
    EveryScheduledRunIsOrderly(TwoBlocks(txs));
  }

  function TwoBlocks(txs: seq<SignedTransaction>): seq<Event> {
    FirstFields();
    [Extending(GENESIS_STATE, [], Miner()), Extending(First(), txs, Miner())]
  }

  lemma TwoBlocksRun(txs: seq<SignedTransaction>)
    ensures Run(GENESIS_STATE, TwoBlocks(txs)) == Second(txs) && ScheduledRun(TwoBlocks(txs))
  {
    hide Step, RecordCarrying, First;
    FirstFields();
    var all := TwoBlocks(txs);
    var one := all[..1];
    assert one[..0] == [] && all[..|all|-1] == one && one[|one|-1] == all[0];
    assert Run(GENESIS_STATE, []) == GENESIS_STATE;
    FirstIsStep();
    assert Run(GENESIS_STATE, one) == First();
    NamesReward(GENESIS_STATE, [], Miner());
    NamesReward(First(), txs, Miner());
    assert Disciplined([]) && ScheduledRun([]);
    assert Disciplined(one) && ScheduledRun(one);
  }

  lemma FirstIsStep()
    ensures First() == Step(GENESIS_STATE, Extending(GENESIS_STATE, [], Miner()))
  {
  }

  lemma NamesReward(state: NodeState, txs: seq<SignedTransaction>, miner: Address)
    requires state.height < 2 && state.lastTimestamp < U64_MAX
    ensures Extending(state, txs, miner).Syncing? && NamesScheduledReward(Extending(state, txs, miner))
  {
    hide SimulateBlock, RootOfTransactions, ParseAddress;
  }

  // ---------------------------------------------------------------- electing a claim for a chain that is gone

  function Offer(): Proposal {
    Proposal(Other(), [], GENESIS_TIMESTAMP_MS, 0, CheckpointProof(0, 0, 0, 0), 0, 0, 0)
  }

  function Claimed(): NodeState {
    SecondFields([]);
    Step(Second([]), ClaimEvent())
  }

  function ClaimEvent(): Event {
    SecondFields([]);
    Accepting(BuildClaim(Second([]), Offer()), NOW, BtcView(0, 0))
  }

  lemma ClaimedFields()
    ensures var second, claimed := Second([]), Claimed();
            && claimed == second.(pending := claimed.pending)
            && 3 in claimed.pending && Other() in claimed.pending[3]
            && claimed.pending[3][Other()].header.prevHash == second.tipHash
            && Consistent(claimed) && Endorsed(claimed)
  {
    hide Second, SoundOnSchedule, ParseAddress, CheckClaim, SimulateBlock, RootOfTransactions, RollbackAllowed;
    SecondFields([]);
    Addresses();
    var second, claim := Second([]), BuildClaim(Second([]), Offer());
    PartsOf(second);
    HonestClaimIsAccepted(second, second, Offer(), NOW, BtcView(0, 0));
    BuiltClaimPlace(second, Offer());
    FullyEndorsedStays(second);
    StepKeepsConsistent(second, ClaimEvent());
  }

  lemma FullyEndorsedStays(state: NodeState)
    requires FullyEndorsed(state)
    ensures Endorsed(state)
  {
    hide Linked, Executed, ClaimLinks, ClaimExecutes;
    forall h, miner | h in state.pending && miner in state.pending[h]
      ensures state.pending[h][miner].header.height == h
      ensures exists chain :: Linked(chain) && ClaimLinks(chain, state.pending[h][miner])
    {
      var chain :| CheckedOn(chain, state.pending[h][miner]);
      assert Linked(chain) && ClaimLinks(chain, state.pending[h][miner]);
    }
  }

  /** The parent of the claim rolled back, and another miner's block in its place. */
  function Replaced(): NodeState {
    RolledFields();
    Extended(Step(Claimed(), RollingBack(1)), [], Other())
  }

  lemma RolledFields()
    ensures var claimed, rolled := Claimed(), Step(Claimed(), RollingBack(1));
            && RollBack(claimed, 1) == Some(rolled) && claimed.height == 2 && RollbackAllowed(claimed, 1)
            && rolled.height == 1 && rolled.lastTimestamp < NOW
  {
    hide Second, Claimed, SoundOnSchedule, RollBack, Consistent, Endorsed, AcceptClaim, Propose, Finalise, SyncRecord, Enqueue;
    SecondFields([]);
    ClaimedFields();
    RollBackConsistent(Claimed(), 1);
    RolledClock(Claimed());
  }

  lemma RolledClock(state: NodeState)
    requires Consistent(state) && RollbackAllowed(state, 1) && RollBack(state, 1).Some?
    requires state.lastTimestamp < NOW
    ensures RollBack(state, 1).value.height == 1 && RollBack(state, 1).value.lastTimestamp < NOW
  {
    hide RollBack, Linked, WorkOf, AdjusterOf, SeedOf;
    ConsistentIsLinked(state);
    RollBackGoesThrough(state, 1);
    var chain := ChainOf(state);
    LinkedChainIsOrdered(chain, 0, state.height - 1);
    assert TipTime(chain[..1]) == chain[0].timestamp;
  }

  function StaleElection(): seq<Event> {
    RolledFields();
    TwoBlocks([]) + [ClaimEvent(), RollingBack(1), Extending(Step(Claimed(), RollingBack(1)), [], Other()), Finalising([Other()])]
  }

  /**
   Two blocks are synced, a claim on the second is accepted, that block is rolled back and replaced by another
   miner's: every step so far keeps the node consistent. Finalising the claim that is still pending then does not.
   */
  lemma StaleElectionBreaksTheChain()
    ensures var events := StaleElection();
            && Consistent(Run(GENESIS_STATE, events[..|events|-1]))
            && !Consistent(Run(GENESIS_STATE, events))
  {
    hide Second, Claimed, Consistent, Endorsed, RollBack, Extended, SyncRecord, Finalise, SimulateBlock, ClaimEvent, ParseAddress,
      RollbackAllowed, RecordCarrying, StaleElection, Run, ChainOf, ExecuteBlock, BlockRows, RecordBlock, SoundOnSchedule,
      Disciplined;
    SecondFields([]);
    ClaimedFields();
    RolledFields();
    Addresses();
    var claimed, rolled := Claimed(), Step(Claimed(), RollingBack(1));
    EmptyExecutes(rolled, Other());
    ExtendedFields(rolled, [], Other());
    var record := RecordCarrying(rolled, [], Other(), INITIAL_BLOCK_REWARD);
    SecondTip();
    StaleClaimSurvivesReorg(claimed, Other(), record, NOW);
    StaleElectionRun();
  }

  lemma SecondTip()
    ensures Second([]).tipHash.HeaderHash? && Second([]).tipHash.header.miner == Miner() && Miner() != Other()
    ensures Claimed().tipHash == Second([]).tipHash
  {
    hide Extended, First, ParseAddress, SimulateBlock, RootOfTransactions;
    FirstFields();
    Addresses();
    EmptyExecutes(First(), Miner());
    ExtendedFields(First(), [], Miner());
    ClaimedFields();
  }

  lemma ClaimedIsStep()
    ensures Second([]).height == 2 && Claimed() == Step(Second([]), ClaimEvent())
  {
    hide Second, Step, ClaimEvent;
    SecondFields([]);
  }

  lemma ReplacedIsStep()
    ensures var rolled := Step(Claimed(), RollingBack(1));
            rolled.height == 1 && rolled.lastTimestamp < U64_MAX
            && Replaced() == Step(rolled, Extending(rolled, [], Other()))
  {
    hide Claimed, Step, Extending;
    RolledFields();
  }

  lemma StaleElectionRun()
    ensures var events := StaleElection();
            && Run(GENESIS_STATE, events[..|events|-1]) == Replaced()
            && Run(GENESIS_STATE, events) == Step(Replaced(), Finalising([Other()]))
  {
    hide Second, Step, RecordCarrying, First, Extending, ClaimEvent, Run, Claimed, Replaced, TwoBlocks, RollBack,
      RollbackAllowed, SoundOnSchedule, Disciplined, Other;
    ClaimedIsStep();
    ReplacedIsStep();
    RolledFields();
    SecondFields([]);
    var two, claimed := TwoBlocks([]), ClaimEvent();
    var last := Extending(Step(Claimed(), RollingBack(1)), [], Other());
    RunSnoc(two, claimed);
    RunSnoc(two + [claimed], RollingBack(1));
    RunSnoc(two + [claimed] + [RollingBack(1)], last);
    RunSnoc(two + [claimed] + [RollingBack(1)] + [last], Finalising([Other()]));
    var front := two + [claimed] + [RollingBack(1)] + [last];
    assert StaleElection() == front + [Finalising([Other()])];
    assert StaleElection()[..|StaleElection()|-1] == front;
  }

  lemma RunSnoc(events: seq<Event>, event: Event)
    ensures Run(GENESIS_STATE, events + [event]) == Step(Run(GENESIS_STATE, events), event)
  {
    hide Step;
    assert (events + [event])[..|events|] == events;
  }

  // ---------------------------------------------------------------- replaying a transfer that was rolled back

  /** The block with the payment is rolled back. */
  function Unpaid(): NodeState {
    SecondFields([Payment()]);
    Step(Second([Payment()]), RollingBack(1))
  }

  lemma UnpaidFields()
    ensures var second, unpaid := Second([Payment()]), Unpaid();
            && RollBack(second, 1) == Some(unpaid) && Sound(unpaid) && second.height == 2
            && unpaid.height == 1 && unpaid.lastTimestamp < NOW && unpaid.log == second.log && Contiguous(second)
            && ChainOf(unpaid) == ChainOf(second)[..1]
  {
    hide Second, Sound, SoundOnSchedule, RollBack, RollbackAllowed, Consistent, Step, Payment, ChainOf;
    var second := Second([Payment()]);
    SecondFields([Payment()]);
    PartsOf(second);
    SoundOfParts(second);
    ConsistentIsLinked(second);
    RollBackConsistent(second, 1);
    RolledClock(second);
    RollingBackIsSound(second, 1);
    RollBackKeepsLog(second, 1);
  }

  lemma RollingBackIsSound(state: NodeState, forkPoint: u64)
    requires Sound(state) && RollbackAllowed(state, forkPoint) && RollBack(state, forkPoint).Some?
    ensures RollBack(state, forkPoint) == Some(Step(state, RollingBack(forkPoint)))
    ensures Sound(Step(state, RollingBack(forkPoint)))
  {
    hide Sound, RollBack, RollbackAllowed;
    StepKeepsSound(state, RollingBack(forkPoint));
  }

  lemma SoundOfParts(state: NodeState)
    requires SoundOnSchedule(state)
    ensures Sound(state)
  {
  }

  lemma RollBackKeepsLog(state: NodeState, forkPoint: u64)
    requires RollBack(state, forkPoint).Some?
    ensures RollBack(state, forkPoint).value.log == state.log
  {
  }

  /** An empty block takes its place. */
  function Remined(): NodeState {
    UnpaidFields();
    Extended(Unpaid(), [], Miner())
  }

  lemma {:induction false} NoTransfersNoNonces(chain: Chain)
    requires forall block :: block in chain ==> block.transactions == []
    ensures LedgerOf(chain).nonces == map[]
  {
    if chain != [] {
      var rest, last := chain[..|chain|-1], chain[|chain|-1];
      assert last in chain && forall block :: block in rest ==> block in chain;
      NoTransfersNoNonces(rest);
      assert Execute(LedgerOf(rest), [], last.minerAddress) == LedgerOf(rest);
    }
  }

  lemma PaymentIsLogged(ledger: Ledger, block: BlockRecord)
    requires block.transactions == [Payment()] && ApplyTransaction(ledger, Payment(), block.minerAddress).Success?
    ensures exists row :: row in BlockRows(ledger, block) && row.TxRow? && row.height == block.height
              && row.from == Miner() && row.nonce == 0
  {
    var calls := BlockCalls(block);
    NoCallsRun(ledger, calls);
    RunCallsOneMore(ledger, calls, 0);
    RunCallsOneMore(ledger, calls, 1);
    assert calls[..2] == calls;
    var row := WrittenBy(ledger, calls[0])[0];
    assert row in BlockRows(ledger, block);
  }

  lemma PaymentApplies()
    ensures ApplyTransaction(First().ledger, Payment(), Miner()).Success?
  {
    FirstFields();
    Addresses();
  }

  /** The stale row is in the log the node has in the end. */
  lemma StaleRowStays()
    ensures exists row :: row in Remined().log && row.TxRow? && row.height == 2 && row.from == Miner() && row.nonce == 0
  {
    hide Extended, First, Unpaid, BlockRows, RollBack, Sound, ExecuteBlock, RecordBlock, SimulateBlock, ParseAddress, Payment;
    FirstFields();
    Addresses();
    PaymentExecutes();
    PaymentApplies();
    ExtendedFields(First(), [Payment()], Miner());
    UnpaidFields();
    EmptyExecutes(Unpaid(), Miner());
    ExtendedFields(Unpaid(), [], Miner());
    PaymentIsLogged(First().ledger, RecordCarrying(First(), [Payment()], Miner(), INITIAL_BLOCK_REWARD));
  }

  lemma FirstStore()
    ensures First().store == map[1 := RecordCarrying(GENESIS_STATE, [], Miner(), INITIAL_BLOCK_REWARD)]
    ensures First().store[1].transactions == [] && First().store[1].minerAddress == Miner()
  {
    hide ParseAddress, SimulateBlock, RootOfTransactions, ExecuteBlock, BlockRows, RecordBlock, Above, Repeated;
    Addresses();
    EmptyExecutes(GENESIS_STATE, Miner());
    ExtendedFields(GENESIS_STATE, [], Miner());
  }

  /** What an accepted block does to a sound state. */
  lemma BlockIsAdopted(state: NodeState, txs: seq<SignedTransaction>, miner: Address)
    requires Sound(state) && state.height < U64_MAX && state.lastTimestamp < NOW && ParseAddress(miner) == Some(miner)
    requires state.ledger.totalMined <= HARD_CAP
    requires |txs| <= MAX_TXS_PER_BLOCK && NoncesHaveSuccessors(txs)
    requires SimulateBlock(state.ledger, txs, miner, INITIAL_BLOCK_REWARD).0 == txs
    ensures var next := Extended(state, txs, miner);
            && Consistent(next) && Contiguous(state) && Contiguous(next)
            && next.ledger == LedgerOf(ChainOf(next))
            && next.height == state.height + 1
            && |ChainOf(next)| == |ChainOf(state)| + 1 && ChainOf(next)[..|ChainOf(state)|] == ChainOf(state)
            && ChainOf(next)[|ChainOf(state)|].transactions == txs
  {
    hide Extended, SimulateBlock, ParseAddress, SyncRecord, Linked, LinksTo, Executed, ExecutesOn, LogFor, LedgerOf, CleanAt,
      FullyEndorsed, AdjusterOf, WorkOf, SeedOf, Adopt, RecordCarrying;
    ExtendedFields(state, txs, miner);
    var record := RecordCarrying(state, txs, miner, INITIAL_BLOCK_REWARD);
    SyncAcceptsExactly(state, record, NOW);
    SyncAdopts(state, record, NOW);
    RecordPays(state, txs, miner);
    AdoptSolventExactly(state, record);
    AdoptExtendsChain(state, record, if IsCheckpointHeight(record.height) then record.btcSeed else state.seed);
  }

  lemma RecordPays(state: NodeState, txs: seq<SignedTransaction>, miner: Address)
    requires state.height < U64_MAX && state.lastTimestamp < U64_MAX
    ensures RecordCarrying(state, txs, miner, INITIAL_BLOCK_REWARD).rewardBina == INITIAL_BLOCK_REWARD
  {
    hide SimulateBlock, ParseAddress, RootOfTransactions;
  }

  lemma ReminedChain()
    ensures Contiguous(Remined()) && Remined().height == 2 && Consistent(Remined())
    ensures forall block :: block in ChainOf(Remined()) ==> block.transactions == []
    ensures Remined().ledger == LedgerOf(ChainOf(Remined()))
  {
    hide Extended, Unpaid, Second, Sound, Consistent, ParseAddress, LedgerOf, RollBack, ChainOf;
    Addresses();
    UnpaidFields();
    UnpaidTotal();
    EmptyExecutes(Unpaid(), Miner());
    BlockIsAdopted(Unpaid(), [], Miner());
    UnpaidChain();
    assert ChainOf(Unpaid()) == ChainOf(Remined())[..1];
  }

  lemma UnpaidChain()
    ensures Contiguous(Unpaid()) && |ChainOf(Unpaid())| == 1 && First().store.Keys == {1}
    ensures ChainOf(Unpaid())[0] == First().store[1] && First().store[1].transactions == []
  {
    hide Extended, First, Unpaid, Sound, RollBack, Payment, ParseAddress, SimulateBlock, BlockRows, ExecuteBlock, RecordBlock;
    FirstStore();
    FirstFields();
    Addresses();
    PaymentExecutes();
    ExtendedFields(First(), [Payment()], Miner());
    UnpaidFields();
    SoundIsContiguous(Unpaid());
  }

  lemma UnpaidTotal()
    ensures Unpaid().ledger.totalMined <= HARD_CAP
  {
    hide Second, SoundOnSchedule, RollBack, Disciplined, ScheduledRun, OnSchedule;
    SecondFields([Payment()]);
    PartsOf(Second([Payment()]));
    StepOnSchedule(Second([Payment()]), RollingBack(1));
    ScheduleIsCapped(Unpaid());
  }

  lemma ScheduleIsCapped(state: NodeState)
    requires OnSchedule(state)
    ensures state.ledger.totalMined <= HARD_CAP
  {
  }

  function Repayment(): seq<Event> {
    UnpaidFields();
    TwoBlocks([Payment()]) + [RollingBack(1), Extending(Unpaid(), [], Miner())]
  }

  /**
   A block with a payment is synced, rolled back and replaced by an empty one. The node is right in every respect,
   and no block it stores has a transfer; but the ledger its log reopens to, at its own tip, is a different one.
   */
  lemma StaleTransferChangesTheLedger()
    ensures var state := Run(GENESIS_STATE, Repayment());
            && Consistent(state) && state.height == 2 && state.ledger == LedgerOf(ChainOf(state))
            && (forall block :: block in ChainOf(state) ==> block.transactions == [])
            && OpenScoped(state.log, 2) != LedgerOf(ChainOf(state))
  {
    hide Remined, Repayment, Run, Consistent, LedgerOf, OpenScoped, ChainOf;
    RepaymentRun();
    ReminedChain();
    StaleRowStays();
    NoTransfersNoNonces(ChainOf(Remined()));
    var row :| row in Remined().log && row.TxRow? && row.height == 2 && row.from == Miner() && row.nonce == 0;
    StaleTransferIsReplayed(Remined().log, 2, row, LedgerOf(ChainOf(Remined())));
  }

  lemma RepaymentRun()
    ensures Run(GENESIS_STATE, Repayment()) == Remined()
  {
    hide Second, Step, RecordCarrying, First, Extending, Run, TwoBlocks, RollBack, RollbackAllowed, SoundOnSchedule,
      Disciplined, Sound, Payment;
    UnpaidFields();
    SecondFields([Payment()]);
    var two, last := TwoBlocks([Payment()]), Extending(Unpaid(), [], Miner());
    RunSnoc(two, RollingBack(1));
    RunSnoc(two + [RollingBack(1)], last);
    assert Repayment() == two + [RollingBack(1)] + [last];
  }

  // ---------------------------------------------------------------- a rolled-back payment that is mined again

  /** The payment returns to the mempool, and another miner's block carries it. */
  function Repaid(): NodeState {
    UnpaidFields();
    Extended(Unpaid(), [Payment()], Other())
  }

  function PayingAgain(): seq<Event> {
    UnpaidFields();
    TwoBlocks([Payment()]) + [RollingBack(1), Extending(Unpaid(), [Payment()], Other())]
  }

  lemma PayingAgainRun()
    ensures Run(GENESIS_STATE, PayingAgain()) == Repaid()
  {
    hide Second, Step, RecordCarrying, First, Extending, Run, TwoBlocks, RollBack, RollbackAllowed, SoundOnSchedule,
      Disciplined, Sound, Payment;
    UnpaidFields();
    SecondFields([Payment()]);
    var two, last := TwoBlocks([Payment()]), Extending(Unpaid(), [Payment()], Other());
    RunSnoc(two, RollingBack(1));
    RunSnoc(two + [RollingBack(1)], last);
    assert PayingAgain() == two + [RollingBack(1)] + [last];
  }

  /** The ledger after the first block, and the two that follow from one payment and from two. */
  function BeforeBlock(): Ledger {
    Ledger(map[Miner() := 50], map[], 50)
  }

  function Spent(nonces: map<Address, u64>): Ledger {
    Ledger(map[Miner() := 40, Other() := 10], nonces, 50)
  }

  function PaidOnce(): Ledger {
    Ledger(map[Miner() := 40, Other() := 60], map[Miner() := 1], 100)
  }

  function PaidTwice(): Ledger {
    Ledger(map[Miner() := 30, Other() := 70], map[Miner() := 1], 100)
  }

  function PaidRow(miner: Address, time: u64): Row {
    TransferRow(2, Payment(), miner, 50, time)
  }

  lemma UnpaidLedger()
    ensures Unpaid().ledger == First().ledger == BeforeBlock()
  {
    hide First, Unpaid, Sound, RollBack, Payment, SimulateBlock, ParseAddress, BlockRows, RecordBlock, Second;
    FirstFields();
    FirstStore();
    UnpaidFields();
    UnpaidChain();
    RecordPays(GENESIS_STATE, [], Miner());
    SoundLedger(Unpaid());
    var chain, block := ChainOf(Unpaid()), First().store[1];
    assert chain[..0] == [];
    assert LedgerOf(chain) == ExecuteBlock(EMPTY_LEDGER, [], Miner(), INITIAL_BLOCK_REWARD);
    FirstLedger();
  }

  lemma FirstLedger()
    ensures First().ledger == ExecuteBlock(EMPTY_LEDGER, [], Miner(), INITIAL_BLOCK_REWARD)
  {
    Addresses();
    EmptyExecutes(GENESIS_STATE, Miner());
    ExtendedFields(GENESIS_STATE, [], Miner());
  }

  lemma SoundLedger(state: NodeState)
    requires Sound(state)
    ensures Contiguous(state) && state.ledger == LedgerOf(ChainOf(state))
  {
    hide ChainOf, LedgerOf, FullyEndorsed, Linked, Executed, LogFor;
  }

  lemma PaymentExecutesFor(miner: Address)
    requires miner == Miner() || miner == Other()
    ensures SimulateBlock(BeforeBlock(), [Payment()], miner, INITIAL_BLOCK_REWARD).0 == [Payment()]
    ensures ApplyTransaction(BeforeBlock(), Payment(), miner) == Success(Spent(map[Miner() := 1]))
  {
    Addresses();
    var list := [Payment()];
    assert list[..|list|-1] == [];
    assert SimulateTransactions(BeforeBlock(), list[..|list|-1], miner) == ([], map[]);
    assert SimulateTransaction(BeforeBlock(), map[], Payment(), miner).Some?;
    assert ApplyTransaction(BeforeBlock(), Payment(), miner).value.balances == Spent(map[]).balances;
  }

  /** The rows of the block with the payment. */
  lemma PaidRows(block: BlockRecord)
    requires block.transactions == [Payment()] && block.height == 2 && block.rewardBina == 50
    requires block.minerAddress == Miner() || block.minerAddress == Other()
    ensures var time: u64 := block.timestamp / 1000;
            BlockRows(BeforeBlock(), block)
            == [PaidRow(block.minerAddress, time), RewardRow(2, block.minerAddress, 50, 100, time)]
    ensures ExecuteBlock(BeforeBlock(), [Payment()], block.minerAddress, 50)
            == Credit(Spent(map[Miner() := 1]), block.minerAddress, 50)
  {
    hide ApplyTransaction, Repeated, ParseAddress, ExecuteBlock, TotalRewards, BlockShaped;
    Addresses();
    var calls := BlockCalls(block);
    PaymentExecutesFor(block.minerAddress);
    NoCallsRun(BeforeBlock(), calls);
    RunCallsOneMore(BeforeBlock(), calls, 0);
    RunCallsOneMore(BeforeBlock(), calls, 1);
    assert calls[..2] == calls;
    BlockCallsExecute(BeforeBlock(), block);
  }

  /** The rows of the empty first block. */
  lemma FirstRows()
    ensures exists time: u64 :: First().log == [RewardRow(1, Miner(), 50, 50, time)]
  {
    hide SimulateBlock, RootOfTransactions, ParseAddress, RecordBlock, First, Extended;
    Addresses();
    EmptyExecutes(GENESIS_STATE, Miner());
    ExtendedFields(GENESIS_STATE, [], Miner());
    RecordPays(GENESIS_STATE, [], Miner());
    FirstIsExtended();
    var block := RecordCarrying(GENESIS_STATE, [], Miner(), INITIAL_BLOCK_REWARD);
    var calls := BlockCalls(block);
    NoCallsRun(EMPTY_LEDGER, calls);
    RunCallsOneMore(EMPTY_LEDGER, calls, 0);
    assert calls[..1] == calls;
    var time: u64 := block.timestamp / 1000;
    assert First().log == [RewardRow(1, Miner(), 50, 50, time)];
  }

  lemma FirstIsExtended()
    ensures First() == Extended(GENESIS_STATE, [], Miner())
  {
  }

  lemma RepaidLog()
    ensures exists first: u64, second: u64, third: u64 :: Repaid().log == TwiceLog(first, second, third)
    ensures Repaid().height == 2 && Repaid().ledger == PaidOnce() && Consistent(Repaid())
    ensures Contiguous(Repaid()) && Repaid().ledger == LedgerOf(ChainOf(Repaid()))
    ensures ChainOf(Repaid())[1].transactions == [Payment()]
  {
    hide First, Extended, Unpaid, Second, Sound, RollBack, Payment, SimulateBlock, ParseAddress, BlockRows, RecordBlock,
      RecordCarrying, ExecuteBlock, BeforeBlock, Spent, PaidOnce, PaidRow, Consistent, LedgerOf, ChainOf, NoncesHaveSuccessors;
    Addresses();
    FirstFields();
    FirstRows();
    PaymentExecutes();
    UnpaidFields();
    UnpaidLedger();
    UnpaidTotal();
    UnpaidChain();
    PaymentExecutesFor(Other());
    PaymentHasSuccessor();
    ExtendedFields(First(), [Payment()], Miner());
    ExtendedFields(Unpaid(), [Payment()], Other());
    RecordPays(First(), [Payment()], Miner());
    RecordPays(Unpaid(), [Payment()], Other());
    BlockIsAdopted(Unpaid(), [Payment()], Other());
    var before, again := RecordCarrying(First(), [Payment()], Miner(), INITIAL_BLOCK_REWARD),
                         RecordCarrying(Unpaid(), [Payment()], Other(), INITIAL_BLOCK_REWARD);
    PaidRows(before);
    PaidRows(again);
    OnceCredited();
    SecondIsExtended();
    var first: u64 :| First().log == [RewardRow(1, Miner(), 50, 50, first)];
    assert Repaid().log == TwiceLog(first, before.timestamp / 1000, again.timestamp / 1000);
  }

  lemma SecondIsExtended()
    ensures First().height < U64_MAX && First().lastTimestamp < U64_MAX
    ensures Second([Payment()]) == Extended(First(), [Payment()], Miner())
  {
    hide First, Extended;
    FirstFields();
  }

  lemma PaymentHasSuccessor()
    ensures NoncesHaveSuccessors([Payment()])
  {
  }

  lemma OnceCredited()
    ensures Credit(Spent(map[Miner() := 1]), Other(), 50) == PaidOnce()
  {
    Addresses();
  }

  function TwiceLog(first: u64, second: u64, third: u64): seq<Row> {
    [RewardRow(1, Miner(), 50, 50, first)]
    + [PaidRow(Miner(), second), RewardRow(2, Miner(), 50, 100, second)]
    + [PaidRow(Other(), third), RewardRow(2, Other(), 50, 100, third)]
  }

  lemma TwiceReopens(first: u64, second: u64, third: u64)
    ensures OpenScoped(TwiceLog(first, second, third), 2) == PaidTwice()
  {
    hide ReplayScopedRow, ReplayScopedRows, Selected, PaidTwice, Payment;
    var start, paid, again, reward := RewardRow(1, Miner(), 50, 50, first), PaidRow(Miner(), second),
                                      PaidRow(Other(), third), RewardRow(2, Other(), 50, 100, third);
    TwiceSelected(first, second, third);
    TwiceReplays(first, second, third);
    var none: seq<Row> := [];
    ReplayOneMore(none, start);
    ReplayOneMore([start], paid);
    ReplayOneMore([start, paid], again);
    ReplayOneMore([start, paid, again], reward);
    NothingReplays();
    assert none + [start] == [start] && [start] + [paid] == [start, paid];
    assert [start, paid] + [again] == [start, paid, again];
    assert [start, paid, again] + [reward] == [start, paid, again, reward];
  }

  lemma NothingReplays()
    ensures ReplayScopedRows(EMPTY_LEDGER, []) == EMPTY_LEDGER
  {
  }

  lemma TwiceReplays(first: u64, second: u64, third: u64)
    ensures ReplayScopedRow(EMPTY_LEDGER, RewardRow(1, Miner(), 50, 50, first)) == BeforeBlock()
    ensures ReplayScopedRow(BeforeBlock(), PaidRow(Miner(), second)) == Spent(map[Miner() := 1])
    ensures var next := ReplayScopedRow(Spent(map[Miner() := 1]), PaidRow(Other(), third));
            ReplayScopedRow(next, RewardRow(2, Other(), 50, 100, third)) == PaidTwice()
  {
    Addresses();
    var next: u64 := 1;
    assert ReplayScopedRow(BeforeBlock(), PaidRow(Miner(), second)).nonces == map[Miner() := next];
    assert ReplayScopedRow(BeforeBlock(), PaidRow(Miner(), second)).balances == Spent(map[]).balances;
    var again := ReplayScopedRow(Spent(map[Miner() := 1]), PaidRow(Other(), third));
    assert again.nonces == map[Miner() := next];
    assert again.balances == map[Miner() := 30, Other() := 20];
    assert again.balances[Other() := 70] == map[Miner() := 30, Other() := 70];
  }

  lemma TwiceSelected(first: u64, second: u64, third: u64)
    ensures Selected(TwiceLog(first, second, third), 2)
            == [RewardRow(1, Miner(), 50, 50, first), PaidRow(Miner(), second), PaidRow(Other(), third),
                RewardRow(2, Other(), 50, 100, third)]
  {
    hide Selected, Miner, Other, Payment;
    var start, paid, reward := RewardRow(1, Miner(), 50, 50, first), PaidRow(Miner(), second),
                               RewardRow(2, Miner(), 50, 100, second);
    var last := [PaidRow(Other(), third), RewardRow(2, Other(), 50, 100, third)];
    SelectedOwnRows(last, 2);
    assert HasReward(last, 2) by {
      assert last[1].RewardRow?;
    }
    SelectedCons(reward, last, 2);
    SelectedCons(paid, [reward] + last, 2);
    SelectedCons(start, [paid] + ([reward] + last), 2);
    assert !HasReward([paid] + ([reward] + last), 1);
    assert TwiceLog(first, second, third) == [start] + ([paid] + ([reward] + last));
  }

  /**
   A block with a payment is rolled back, and the requeued payment is mined in the block that replaces it. The node
   and every nonce are right, but its log reopens to a ledger in which the payment was made twice.
   */
  lemma PaymentIsAppliedTwice()
    ensures var state := Run(GENESIS_STATE, PayingAgain());
            && Consistent(state) && state.height == 2 && state.ledger == LedgerOf(ChainOf(state))
            && ChainOf(state)[1].transactions == [Payment()]
            && (forall address :: OpenScoped(state.log, 2).Nonce(address) == state.ledger.Nonce(address))
            && state.ledger.Balance(Miner()) == 40 && state.ledger.Balance(Other()) == 60
            && OpenScoped(state.log, 2).Balance(Miner()) == 30 && OpenScoped(state.log, 2).Balance(Other()) == 70
  {
    hide Repaid, PayingAgain, Run, Consistent, LedgerOf, OpenScoped, ChainOf, Miner, Other;
    PayingAgainRun();
    RepaidLog();
    Addresses();
    var first: u64, second: u64, third: u64 :| Repaid().log == TwiceLog(first, second, third);
    TwiceReopens(first, second, third);
  }

  // ---------------------------------------------------------------- stale rows that happen to cancel

  function Refund(): SignedTransaction {
    SignedTransaction(Transaction(Other(), Miner(), 10, 0, 0), "", true)
  }

  /** A block that pays and refunds, on a ledger in which its miner has mined once. */
  function PayAndRefund(): seq<LedgerCall> {
    [Transfer(2, Payment(), Miner(), 0), Transfer(2, Refund(), Miner(), 0), Reward(2, Miner(), 50, 0)]
  }

  function Mined(): Row {
    RewardRow(1, Miner(), 50, 50, 0)
  }

  function Paid(): Row {
    TransferRow(2, Payment(), Miner(), 50, 0)
  }

  function Refunded(): Row {
    TransferRow(2, Refund(), Miner(), 50, 0)
  }

  function MinedAgain(): Row {
    RewardRow(2, Miner(), 50, 100, 0)
  }

  function Settled(): Ledger {
    Ledger(map[Miner() := 50, Other() := 0], map[Miner() := 1, Other() := 1], 50)
  }

  lemma PaymentStep()
    ensures var call := PayAndRefund()[0];
            ApplyCall(BeforeBlock(), call) == Spent(map[Miner() := 1]) && WrittenBy(BeforeBlock(), call) == [Paid()]
  {
    Addresses();
    var balances: Balances := map[Miner() := 40, Other() := 10];
    assert ApplyTransaction(BeforeBlock(), Payment(), Miner()).value.balances == balances;
  }

  lemma RefundStep()
    ensures var before, call := Spent(map[Miner() := 1]), PayAndRefund()[1];
            ApplyCall(before, call) == Settled() && WrittenBy(before, call) == [Refunded()]
  {
    Addresses();
    var before := Spent(map[Miner() := 1]);
    assert ApplyTransaction(before, Refund(), Miner()).value.balances == Settled().balances;
    assert ApplyTransaction(before, Refund(), Miner()).value.nonces == Settled().nonces;
  }

  lemma RewardStep()
    ensures var call := PayAndRefund()[2];
            ApplyCall(Settled(), call) == Credit(Settled(), Miner(), 50) && WrittenBy(Settled(), call) == [MinedAgain()]
  {
    Addresses();
  }

  /** The block really writes these rows. */
  lemma BlockWritesThese()
    ensures RunCalls(BeforeBlock(), PayAndRefund())
            == (Credit(Settled(), Miner(), 50), [Paid(), Refunded(), MinedAgain()])
  {
    hide ApplyCall, WrittenBy, RunCalls, Credit, Settled, BeforeBlock, Spent, Paid, Refunded, MinedAgain;
    var calls := PayAndRefund();
    NoCallsRun(BeforeBlock(), calls);
    PaymentStep();
    RunCallsOneMore(BeforeBlock(), calls, 0);
    RefundStep();
    RunCallsOneMore(BeforeBlock(), calls, 1);
    RewardStep();
    RunCallsOneMore(BeforeBlock(), calls, 2);
    assert calls[..3] == calls;
    assert [] + [Paid()] + [Refunded()] + [MinedAgain()] == [Paid(), Refunded(), MinedAgain()];
  }

  lemma ReplaySteps()
    ensures ReplayScopedRow(EMPTY_LEDGER, Mined()) == BeforeBlock()
    ensures ReplayScopedRow(BeforeBlock(), Paid()) == Spent(map[Miner() := 1])
    ensures ReplayScopedRow(Spent(map[Miner() := 1]), Refunded()) == Settled()
    ensures ReplayScopedRow(Settled(), Paid()) == Spent(Settled().nonces)
    ensures ReplayScopedRow(Spent(Settled().nonces), Refunded()) == Settled()
    ensures ReplayScopedRow(Settled(), MinedAgain()) == Credit(Settled(), Miner(), 50)
  {
    hide Repeated, ParseAddress;
    Addresses();
    var next: u64 := 1;
    assert ReplayScopedRow(BeforeBlock(), Paid()).nonces == map[Miner() := next];
    assert ReplayScopedRow(BeforeBlock(), Paid()).balances == Spent(map[]).balances;
    assert ReplayScopedRow(Spent(map[Miner() := 1]), Refunded()).balances == Settled().balances;
    assert ReplayScopedRow(Spent(map[Miner() := 1]), Refunded()).nonces == Settled().nonces;
    assert ReplayScopedRow(Settled(), Paid()).balances == Spent(map[]).balances;
    assert ReplayScopedRow(Settled(), Paid()).nonces == Settled().nonces;
    assert ReplayScopedRow(Spent(Settled().nonces), Refunded()).balances == Settled().balances;
    assert ReplayScopedRow(Spent(Settled().nonces), Refunded()).nonces == Settled().nonces;
  }

  function BlockLog(): seq<Row> {
    [Paid(), Refunded(), MinedAgain()]
  }

  lemma ReplayOneMore(rows: seq<Row>, row: Row)
    ensures ReplayScopedRows(EMPTY_LEDGER, rows + [row]) == ReplayScopedRow(ReplayScopedRows(EMPTY_LEDGER, rows), row)
  {
    assert (rows + [row])[..|rows|] == rows;
  }

  lemma ReplayAll()
    ensures ReplayScopedRows(EMPTY_LEDGER, [Mined(), Paid(), Refunded()] + BlockLog()) == Credit(Settled(), Miner(), 50)
  {
    hide ReplayScopedRow, Credit, Settled, BeforeBlock, Spent, Mined, Paid, Refunded, MinedAgain;
    ReplaySteps();
    var none: seq<Row> := [];
    var a, b, c := none + [Mined()], none + [Mined()] + [Paid()], none + [Mined()] + [Paid()] + [Refunded()];
    ReplayOneMore(none, Mined());
    ReplayOneMore(a, Paid());
    ReplayOneMore(b, Refunded());
    ReplayOneMore(c, Paid());
    ReplayOneMore(c + [Paid()], Refunded());
    ReplayOneMore(c + [Paid()] + [Refunded()], MinedAgain());
    assert c + [Paid()] + [Refunded()] + [MinedAgain()] == [Mined(), Paid(), Refunded()] + BlockLog();
  }

  lemma BlockLogShape()
    ensures BlockShaped(BlockLog(), 2) && HasReward(BlockLog(), 2) && !HasReward(BlockLog() + BlockLog(), 1)
    ensures Paid().TxRow? && Refunded().TxRow? && MinedAgain().RewardRow? && Mined().RewardRow?
    ensures Paid().height == Refunded().height == MinedAgain().height == 2 && Mined().height == 1
  {
    assert BlockLog()[2] == MinedAgain();
  }

  lemma SelectedTwice()
    ensures Selected(BlockLog() + BlockLog(), 2) == [Paid(), Refunded()] + BlockLog()
  {
    hide Selected, HasReward, BlockShaped, Paid, Refunded, MinedAgain, Mined;
    BlockLogShape();
    var block := BlockLog();
    SelectedOwnRows(block, 2);
    var a, b := [MinedAgain()] + block, [Refunded()] + ([MinedAgain()] + block);
    SelectedCons(MinedAgain(), block, 2);
    SelectedCons(Refunded(), a, 2);
    SelectedCons(Paid(), b, 2);
    assert [Paid()] + b == block + block;
    assert [Paid()] + ([Refunded()] + ([] + block)) == [Paid(), Refunded()] + block;
  }

  lemma SelectedAll()
    ensures Selected([Mined()] + BlockLog() + BlockLog(), 2) == [Mined(), Paid(), Refunded()] + BlockLog()
  {
    hide Selected, HasReward, BlockShaped, Paid, Refunded, MinedAgain, Mined, BlockLog;
    BlockLogShape();
    SelectedTwice();
    SelectedCons(Mined(), BlockLog() + BlockLog(), 2);
    assert [Mined()] + (BlockLog() + BlockLog()) == [Mined()] + BlockLog() + BlockLog();
    assert [Mined()] + ([Paid(), Refunded()] + BlockLog()) == [Mined(), Paid(), Refunded()] + BlockLog();
  }

  /**
   A rolled-back block that pays and refunds, mined again: the log is not clean at its height, its rows are replayed
   twice, and still the reopened ledger is right. Row selection decides the ledger in one direction only.
   */
  lemma StaleTransfersMayCancel()
    ensures var log, rows := [Mined()] + BlockLog(), BlockLog();
            && rows == RunCalls(BeforeBlock(), PayAndRefund()).1
            && !CleanAt(log, 2, true)
            && OpenScoped(log + rows, 2) == RunCalls(BeforeBlock(), PayAndRefund()).0
  {
    hide RunCalls, Selected, ReplayScopedRows;
    BlockWritesThese();
    SelectedAll();
    ReplayAll();
    var log := [Mined()] + BlockLog();
    assert log[1] == Paid() && Paid() in log;
  }
}
