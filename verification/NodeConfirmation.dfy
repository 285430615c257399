/**
 A transaction is confirmed once and never waits while it is confirmed, on every run that elects fresh claims: also
 when blocks with transfers are rolled back and their heights adopted again, and the reopened ledger is wrong.
 */
module NodeConfirmations {
  import opened Numbers
  import opened Types
  import opened Ledgers
  import opened Replay
  import opened Merkle
  import opened Checkpoints
  import opened Chains
  import opened ChainLogs
  import opened NodeStates
  import opened NodeInvariants
  import opened NodeLedgers
  import opened NodeRuns
  import opened NodeHistories
  import opened NodeSchedules
  import opened Supply
  import opened NodeElections

  // ---------------------------------------------------------------- the invariant

  /** Every confirmed transaction is spent on the ledger: its sender's next nonce is past it. */
  predicate SpentOn(ledger: Ledger, chain: Chain) {
    forall i :: 0 <= i < |chain| ==> Spent(ledger, chain[i].transactions)
  }

  predicate HasTransfer(log: seq<Row>, height: nat, sender: Address, nonce: u64) {
    exists row :: row in log && row.TxRow? && row.height == height && row.from == sender && row.nonce == nonce
  }

  predicate ListLogged(log: seq<Row>, height: nat, txs: seq<SignedTransaction>) {
    forall signed :: signed in txs ==> HasTransfer(log, height, signed.tx.from, signed.tx.nonce)
  }

  /** Every confirmed transaction has its row in the log, at its height. */
  predicate Logged(log: seq<Row>, chain: Chain) {
    forall i :: 0 <= i < |chain| ==> ListLogged(log, i + 1, chain[i].transactions)
  }

  /** A sender's nonces rise within a list ... */
  predicate RisesIn(txs: seq<SignedTransaction>) {
    forall a, b :: 0 <= a < b < |txs| && txs[a].tx.from == txs[b].tx.from ==> txs[a].tx.nonce < txs[b].tx.nonce
  }

  /** ... and from one list to a later one. */
  predicate Later(earlier: seq<SignedTransaction>, later: seq<SignedTransaction>) {
    forall x, y :: x in earlier && y in later && x.tx.from == y.tx.from ==> x.tx.nonce < y.tx.nonce
  }

  predicate Rises(chain: Chain) {
    && (forall i :: 0 <= i < |chain| ==> RisesIn(chain[i].transactions))
    && (forall i, j :: 0 <= i < j < |chain| ==> Later(chain[i].transactions, chain[j].transactions))
  }

  /** The accounts of confirmed transactions, in ledger, log and chain. */
  ghost predicate Accounted(state: NodeState) {
    && Contiguous(state)
    && SpentOn(state.ledger, ChainOf(state))
    && Logged(state.log, ChainOf(state))
    && Rises(ChainOf(state))
  }

  /** No transaction waits in the mempool while it is confirmed in a stored block. */
  ghost predicate Apart(state: NodeState)
    requires Contiguous(state)
  {
    state.mempool.Keys !! IdsOf(ChainOf(state))
  }

  // ---------------------------------------------------------------- adopting

  lemma {:induction false} TransfersAreWritten(ledger: Ledger, block: BlockRecord, n: nat)
    requires n <= |block.transactions| && ExecutesInFull(ledger, block.transactions[..n], block.minerAddress)
    ensures ListLogged(RunCalls(ledger, TransferCalls(block)[..n]).1, block.height, block.transactions[..n])
  {
    if n > 0 {
      var txs, calls := block.transactions, TransferCalls(block);
      assert txs[..n][..n-1] == txs[..n-1];
      FullPrefix(ledger, txs[..n], block.minerAddress);
      TransfersAreWritten(ledger, block, n - 1);
      TransferCallsExecute(ledger, block, n - 1);
      RunCallsOneMore(ledger, calls, n - 1);
      var before, written := RunCalls(ledger, calls[..n-1]).1, WrittenBy(RunCalls(ledger, calls[..n-1]).0, calls[n-1]);
      assert RunCalls(ledger, calls[..n]).1 == before + written;
      assert written[0] in written;
      LoggedStays(before, written, block.height, txs[..n-1]);
      assert HasTransfer(before + written, block.height, txs[n-1].tx.from, txs[n-1].tx.nonce);
      assert txs[..n] == txs[..n-1] + [txs[n-1]];
    }
  }

  lemma LoggedStays(log: seq<Row>, added: seq<Row>, height: nat, txs: seq<SignedTransaction>)
    requires ListLogged(log, height, txs)
    ensures ListLogged(log + added, height, txs)
  {
    forall signed | signed in txs
      ensures HasTransfer(log + added, height, signed.tx.from, signed.tx.nonce)
    {
      var row :| row in log && row.TxRow? && row.height == height && row.from == signed.tx.from && row.nonce == signed.tx.nonce;
      assert row in log + added;
    }
  }

  lemma BlockIsLogged(log: seq<Row>, ledger: Ledger, block: BlockRecord)
    requires ExecutesInFull(ledger, block.transactions, block.minerAddress)
    ensures ListLogged(log + BlockRows(ledger, block), block.height, block.transactions)
  {
    hide RunCalls, WrittenBy, ListLogged;
    var n, calls := |block.transactions|, BlockCalls(block);
    assert block.transactions[..n] == block.transactions && TransferCalls(block)[..n] == TransferCalls(block);
    TransfersAreWritten(ledger, block, n);
    RunCallsOneMore(ledger, calls, n);
    assert calls[..n] == TransferCalls(block) && calls[..n + 1] == calls;
    var transfers := RunCalls(ledger, TransferCalls(block)).1;
    var written := WrittenBy(RunCalls(ledger, calls[..n]).0, calls[n]);
    LoggedStays(transfers, written, block.height, block.transactions);
    LoggedIsContained(transfers + written, log + BlockRows(ledger, block), block.height, block.transactions);
  }

  lemma LoggedIsContained(log: seq<Row>, all: seq<Row>, height: nat, txs: seq<SignedTransaction>)
    requires ListLogged(log, height, txs) && forall row :: row in log ==> row in all
    ensures ListLogged(all, height, txs)
  {
    forall signed | signed in txs
      ensures HasTransfer(all, height, signed.tx.from, signed.tx.nonce)
    {
      var row :| row in log && row.TxRow? && row.height == height && row.from == signed.tx.from && row.nonce == signed.tx.nonce;
      assert row in all;
    }
  }

  lemma ListRises(ledger: Ledger, txs: seq<SignedTransaction>, miner: Address)
    requires ExecutesInFull(ledger, txs, miner) && NoncesHaveSuccessors(txs)
    ensures RisesIn(txs)
  {
    forall a, b | 0 <= a < b < |txs| && txs[a].tx.from == txs[b].tx.from
      ensures txs[a].tx.nonce < txs[b].tx.nonce
    {
      NoncesRise(ledger, txs, miner, a, b);
    }
  }

  /** Adopting a block that executes in full on whatever ledger the node has keeps the accounts. */
  lemma AdoptKeepsAccounted(state: NodeState, record: BlockRecord, seed: Digest)
    requires Accounted(state) && record.height == state.height + 1
    requires ExecutesInFull(state.ledger, record.transactions, record.minerAddress)
    requires NoncesHaveSuccessors(record.transactions)
    ensures Accounted(Adopt(state, record, seed))
  {
    hide ListLogged, RisesIn, BlockRows, ExecuteBlock, ExecutesInFull;
    var chain, txs := ChainOf(state), record.transactions;
    AdoptExtendsChain(state, record, seed);
    BlockSpendsNonces(state.ledger, txs, record.minerAddress, record.rewardBina);
    BlockIsLogged(state.log, state.ledger, record);
    ListRises(state.ledger, txs, record.minerAddress);
    var longer := chain + [record];
    var rows := BlockRows(state.ledger, record);
    forall i | 0 <= i < |chain|
      ensures ListLogged(state.log + rows, i + 1, longer[i].transactions)
      ensures Later(longer[i].transactions, txs)
    {
      LoggedStays(state.log, rows, i + 1, chain[i].transactions);
    }
  }

  // ---------------------------------------------------------------- rolling back

  /** Reopening never forgets a transfer row in scope: its sender's nonce ends up past it. */
  lemma ReopenedIsPast(log: seq<Row>, active: u64, sender: Address, height: nat, nonce: u64)
    requires HasTransfer(log, height, sender, nonce) && height <= active && nonce < U64_MAX
    ensures nonce < OpenScoped(log, active).Nonce(sender)
  {
    hide ReplayScopedRows, Selected, NextNonce;
    var row :| row in log && row.TxRow? && row.height == height && row.from == sender && row.nonce == nonce;
    TransfersAreSelected(log, row, active);
    ReplayedNonce(Selected(log, active), sender);
    NextNonceIsMaximum(Selected(log, active), sender);
  }

  /** Whatever stale rows do to the reopened balances, what the kept blocks confirm stays spent. */
  lemma ReopenedSpends(ledger: Ledger, log: seq<Row>, chain: Chain, forkPoint: u64)
    requires SpentOn(ledger, chain) && Logged(log, chain) && forkPoint <= |chain|
    ensures SpentOn(OpenScoped(log, forkPoint), chain[..forkPoint])
  {
    hide OpenScoped;
    forall i | 0 <= i < forkPoint
      ensures Spent(OpenScoped(log, forkPoint), chain[i].transactions)
    {
      forall signed | signed in chain[i].transactions
        ensures signed.tx.nonce < OpenScoped(log, forkPoint).Nonce(signed.tx.from)
      {
        assert signed.tx.nonce < ledger.Nonce(signed.tx.from);
        ReopenedIsPast(log, forkPoint, signed.tx.from, i + 1, signed.tx.nonce);
      }
    }
  }

  lemma RollBackKeepsAccounted(state: NodeState, forkPoint: u64)
    requires Accounted(state) && RollbackAllowed(state, forkPoint)
    ensures RollBack(state, forkPoint).Some? && Accounted(RollBack(state, forkPoint).value)
  {
    hide Range, WorkSum, RequeueBlocks, OpenScoped, SeedOf, TipHash, TipTime, GoverningCheckpointHeight, Spent, ListLogged, RisesIn,
      Later;
    RollBackGoesThrough(state, forkPoint);
    ReopenedSpends(state.ledger, state.log, ChainOf(state), forkPoint);
  }

  // ---------------------------------------------------------------- confirmed once

  lemma IdHasPlace(chain: Chain, id: Digest) returns (i: nat, a: nat)
    requires id in IdsOf(chain)
    ensures i < |chain| && a < |chain[i].transactions| && chain[i].transactions[a].Id() == id
  {
    i, a :| 0 <= i < |chain| && 0 <= a < |chain[i].transactions| && chain[i].transactions[a].Id() == id;
  }

  /** No stored chain spends a sender's nonce twice, so no transaction is confirmed twice. */
  lemma StoredNonceIsSpentOnce(state: NodeState, i: nat, a: nat, j: nat, b: nat)
    requires Accounted(state)
    requires var chain := ChainOf(state);
             i < |chain| && a < |chain[i].transactions| && j < |chain| && b < |chain[j].transactions|
    requires ChainOf(state)[i].transactions[a].tx.from == ChainOf(state)[j].transactions[b].tx.from
    requires ChainOf(state)[i].transactions[a].tx.nonce == ChainOf(state)[j].transactions[b].tx.nonce
    ensures i == j && a == b
  {
    NoncesRiseAlong(ChainOf(state), i, a, j, b);
    NoncesRiseAlong(ChainOf(state), j, b, i, a);
  }

  lemma NoncesRiseAlong(chain: Chain, i: nat, a: nat, j: nat, b: nat)
    requires Rises(chain)
    requires i < |chain| && a < |chain[i].transactions| && j < |chain| && b < |chain[j].transactions|
    ensures (i < j || (i == j && a < b)) && chain[i].transactions[a].tx.from == chain[j].transactions[b].tx.from ==>
              chain[i].transactions[a].tx.nonce < chain[j].transactions[b].tx.nonce
  {
    if i < j {
      assert chain[i].transactions[a] in chain[i].transactions && chain[j].transactions[b] in chain[j].transactions;
      assert Later(chain[i].transactions, chain[j].transactions);
    } else if i == j {
      assert RisesIn(chain[i].transactions);
    }
  }

  lemma SplitSharesNoIds(state: NodeState, k: nat)
    requires Accounted(state) && k <= state.height
    ensures IdsOf(ChainOf(state)[..k]) !! IdsOf(ChainOf(state)[k..])
  {
    hide IdsOf, SpentOn, Logged, Rises, Accounted;
    AccountedIsContiguous(state);
    var chain := ChainOf(state);
    forall id | id in IdsOf(chain[..k])
      ensures id !in IdsOf(chain[k..])
    {
      if id in IdsOf(chain[k..]) {
        var i, a := IdHasPlace(chain[..k], id);
        var j, b := IdHasPlace(chain[k..], id);
        StoredNonceIsSpentOnce(state, i, a, k + j, b);
      }
    }
  }

  lemma AccountedIsContiguous(state: NodeState)
    requires Accounted(state)
    ensures Contiguous(state)
  {
  }

  // ---------------------------------------------------------------- waiting or confirmed, never both

  /** A permitted rollback, whatever the dropped blocks carry, requeues only what no kept block confirms. */
  lemma {:induction false} RollBackKeepsApart(state: NodeState, forkPoint: u64)
    requires Accounted(state) && Apart(state) && RollbackAllowed(state, forkPoint)
    ensures RollBack(state, forkPoint).Some? && Contiguous(RollBack(state, forkPoint).value)
    ensures Apart(RollBack(state, forkPoint).value)
    ensures RollBack(state, forkPoint).value.mempool.Keys == state.mempool.Keys + IdsOf(ChainOf(state)[forkPoint..])
  {
    hide OpenScoped, WorkSum, RequeueBlocks, IdsOf, SeedOf, TipHash, TipTime, GoverningCheckpointHeight, Range, SpentOn, Logged,
      Rises;
    var chain := ChainOf(state);
    RollBackGoesThrough(state, forkPoint);
    assert RollBack(state, forkPoint).value.mempool == RequeueBlocks(state.mempool, Range(state.store, forkPoint + 1, state.height));
    RangeIsChain(state, forkPoint + 1);
    RequeueBlocksAddsIds(state.mempool, chain[forkPoint..]);
    IdsOfConcat(chain[..forkPoint], chain[forkPoint..]);
    assert chain[..forkPoint] + chain[forkPoint..] == chain;
    SplitSharesNoIds(state, forkPoint);
  }

  lemma AdoptKeepsApart(state: NodeState, record: BlockRecord, seed: Digest)
    requires Contiguous(state) && Apart(state) && record.height == state.height + 1
    ensures Contiguous(Adopt(state, record, seed)) && Apart(Adopt(state, record, seed))
  {
    AdoptExtendsChain(state, record, seed);
    IdsOfConcat(ChainOf(state), [record]);
    IdsOfOne(record);
    assert Drop(state.mempool, record.transactions).Keys == state.mempool.Keys - IdsIn(record.transactions);
  }

  lemma ConfirmedIsSpent(state: NodeState, signed: SignedTransaction)
    requires Accounted(state) && signed.Id() in IdsOf(ChainOf(state))
    ensures signed.tx.nonce < state.ledger.Nonce(signed.tx.from)
  {
    hide Logged, Rises;
    var i, a := IdHasPlace(ChainOf(state), signed.Id());
    assert ChainOf(state)[i].transactions[a] in ChainOf(state)[i].transactions;
  }

  /** What the node admits to its mempool is not confirmed already: its nonce is the next one. */
  lemma {:induction false} EnqueueKeepsApart(state: NodeState, signed: SignedTransaction)
    requires Accounted(state) && Apart(state)
    ensures Contiguous(Enqueue(state, signed)) && Apart(Enqueue(state, signed))
  {
    hide SpentOn, Logged, Rises, IdsOf;
    assert ChainOf(Enqueue(state, signed)) == ChainOf(state);
    if signed.Id() in IdsOf(ChainOf(state)) {
      ConfirmedIsSpent(state, signed);
    }
  }

  // ---------------------------------------------------------------- every step

  /** The nonces of an adopted block have successors. */
  predicate NoncesFit(state: NodeState, event: Event) {
    Adopted(state, event).Some? ==> NoncesHaveSuccessors(Adopted(state, event).value.transactions)
  }

  lemma AdoptingStep(state: NodeState, event: Event)
    requires Accounted(state) && Apart(state) && NoncesFit(state, event)
    requires Adopted(state, event).Some? && ExecutesOn(state.ledger, Adopted(state, event).value)
    ensures Accounted(Step(state, event)) && Apart(Step(state, event))
  {
    hide Step, Adopted, ExecutesOn, SpentOn, Logged, Rises;
    var record := Adopted(state, event).value;
    var seed := StepAdopts(state, event);
    SimulatedExecutesInFull(state.ledger, record);
    AdoptKeepsAccounted(state, record, seed);
    AdoptKeepsApart(state, record, seed);
  }

  lemma QueuesKeepAccounted(state: NodeState, next: NodeState)
    requires Accounted(state) && next == state.(pending := next.pending, mempool := next.mempool)
    ensures Accounted(next) && ChainOf(next) == ChainOf(state)
  {
    hide SpentOn, Logged, Rises;
    SameChain(state, next);
  }

  lemma OtherStep(state: NodeState, event: Event)
    requires Accounted(state) && Apart(state) && Adopted(state, event).None?
    ensures Accounted(Step(state, event)) && Apart(Step(state, event))
  {
    hide SpentOn, Logged, Rises, AcceptClaim, Propose, SyncRecord, RollBack, Winner, Enqueue, Apart, Accounted, RollbackAllowed;
    AccountedIsContiguous(state);
    var next := Step(state, event);
    match event
    case Accepting(claim, now, btc) => ClaimsKeepApart(state, event); OnlyQueues(state, event); QueuesKeepAccounted(state, next);
    case Proposing(p) => ClaimsKeepApart(state, event); OnlyQueues(state, event); QueuesKeepAccounted(state, next);
    case Enqueueing(signed) =>
      OnlyQueues(state, event);
      QueuesKeepAccounted(state, next);
      EnqueueKeepsApart(state, signed);
    case RollingBack(forkPoint) =>
      if RollbackAllowed(state, forkPoint) {
        RollBackKeepsAccounted(state, forkPoint);
        RollBackKeepsApart(state, forkPoint);
      }
    case Finalising(order) =>
    case Syncing(record, now) =>
  }

  lemma ClaimsKeepApart(state: NodeState, event: Event)
    requires Contiguous(state) && Apart(state) && (event.Accepting? || event.Proposing?)
    ensures Contiguous(Step(state, event)) && Apart(Step(state, event))
  {
    hide CheckClaim, BuildClaim, ParseAddress, IdsOf;
    assert ChainOf(Step(state, event)) == ChainOf(state);
  }

  // ---------------------------------------------------------------- every run

  /** Elections are between claims admitted since the last rollback, and no adopted nonce is the last u64. */
  predicate FreshRun(events: seq<Event>) {
    events != [] ==>
      && FreshRun(events[..|events|-1])
      && ElectsFresh(events)
      && NoncesFit(Run(GENESIS_STATE, events[..|events|-1]), events[|events|-1])
  }

  lemma GenesisIsAccounted()
    ensures Accounted(GENESIS_STATE) && Apart(GENESIS_STATE)
  {
    assert ChainOf(GENESIS_STATE) == [];
  }

  /**
   After every such run, whatever it rolls back and adopts again, a transaction is confirmed or waiting, never both,
   and confirmed at most once.
   */
  lemma {:induction false} NeverWaitingAndConfirmed(events: seq<Event>)
    requires FreshRun(events)
    ensures Accounted(Run(GENESIS_STATE, events)) && Apart(Run(GENESIS_STATE, events))
  {
    hide Step, Accounted, Apart, Adopted, ElectsFresh, ExecutesOn;
    if events == [] {
      GenesisIsAccounted();
    } else {
      var before, last := Run(GENESIS_STATE, events[..|events|-1]), events[|events|-1];
      NeverWaitingAndConfirmed(events[..|events|-1]);
      if Adopted(before, last).Some? {
        AdoptedExecutes(events);
        AdoptingStep(before, last);
      } else {
        OtherStep(before, last);
      }
    }
  }

  /** On these runs no sender's nonce is ever stored twice, in one block or in two. */
  lemma ConfirmedOnce(events: seq<Event>, i: nat, a: nat, j: nat, b: nat)
    requires FreshRun(events) && Contiguous(Run(GENESIS_STATE, events))
    requires var chain := ChainOf(Run(GENESIS_STATE, events));
             && i < |chain| && a < |chain[i].transactions| && j < |chain| && b < |chain[j].transactions|
             && chain[i].transactions[a].tx.from == chain[j].transactions[b].tx.from
             && chain[i].transactions[a].tx.nonce == chain[j].transactions[b].tx.nonce
    ensures i == j && a == b
  {
    hide Run, Accounted, FreshRun;
    NeverWaitingAndConfirmed(events);
    StoredNonceIsSpentOnce(Run(GENESIS_STATE, events), i, a, j, b);
  }

  // ---------------------------------------------------------------- reorganisations

  lemma SyncKeepsApart(state: NodeState, record: BlockRecord, now: u64)
    requires Contiguous(state) && Apart(state) && SyncRecord(state, record, now).Success?
    ensures Contiguous(SyncRecord(state, record, now).value) && Apart(SyncRecord(state, record, now).value)
  {
    hide SyncRecord, Adopt, Apart;
    AcceptedIsBelowMax(state, record, now);
    SyncAdopts(state, record, now);
    AdoptKeepsApart(state, record, if IsCheckpointHeight(record.height) then record.btcSeed else state.seed);
  }

  lemma {:induction false} SyncsKeepApart(state: NodeState, events: seq<Event>)
    requires Contiguous(state) && Apart(state) && forall i :: 0 <= i < |events| ==> events[i].Syncing?
    ensures Contiguous(Run(state, events)) && Apart(Run(state, events))
  {
    hide SyncRecord, Apart, Contiguous;
    if events != [] {
      var rest, last := events[..|events|-1], events[|events|-1];
      SyncsKeepApart(state, rest);
      if SyncRecord(Run(state, rest), last.record, last.now).Success? {
        SyncKeepsApart(Run(state, rest), last.record, last.now);
      }
    }
  }

  lemma ReorgStep(state: NodeState, event: Event)
    requires Accounted(state) && Apart(state) && (event.Syncing? || event.RollingBack?)
    ensures Contiguous(Step(state, event)) && Apart(Step(state, event))
  {
    hide Apart, Accounted, SyncRecord, RollBack;
    AccountedIsContiguous(state);
    if event.Syncing? && SyncRecord(state, event.record, event.now).Success? {
      SyncKeepsApart(state, event.record, event.now);
    } else {
      OtherStep(state, event);
      AccountedIsContiguous(Step(state, event));
    }
  }

  /** A whole reorganisation keeps waiting and confirmed apart, whatever the blocks it drops and syncs carry. */
  lemma ReorgKeepsApart(state: NodeState, peer: Peer)
    requires Accounted(state) && Apart(state)
    ensures Contiguous(ReconcileFork(state, peer)) && Apart(ReconcileFork(state, peer))
  {
    hide ReconcileFork, Accounted, Apart, Contiguous, Step;
    AccountedIsContiguous(state);
    var events := ReconcileIsARun(state, peer);
    if events != [] {
      var first, rest := events[..1], events[1..];
      assert first[..0] == [] && Run(state, first) == Step(state, events[0]);
      ReorgStep(state, events[0]);
      SyncsKeepApart(Step(state, events[0]), rest);
      RunConcat(state, first, rest);
      assert first + rest == events;
    }
  }

  // ---------------------------------------------------------------- disciplined runs

  lemma {:induction false} DisciplineElectsFresh(events: seq<Event>)
    requires Disciplined(events)
    ensures ElectsFresh(events)
  {
    hide Run, Fresh;
  }

  /** No nonce the node has ever written or could execute next is above `bound`. */
  ghost predicate Bounded(state: NodeState, bound: nat) {
    && (forall address :: state.ledger.Nonce(address) <= bound)
    && (forall row :: row in state.log && row.TxRow? ==> row.nonce < bound)
  }

  lemma CallRaisesNonces(ledger: Ledger, call: LedgerCall, address: Address)
    ensures ApplyCall(ledger, call).Nonce(address) <= ledger.Nonce(address) + 1
    ensures forall row :: row in WrittenBy(ledger, call) && row.TxRow? ==> row.nonce == ledger.Nonce(row.from)
  {
  }

  lemma {:induction false} WrittenNonces(ledger: Ledger, calls: seq<LedgerCall>, bound: nat)
    requires forall address :: ledger.Nonce(address) <= bound
    ensures forall address :: RunCalls(ledger, calls).0.Nonce(address) <= bound + |calls|
    ensures forall row :: row in RunCalls(ledger, calls).1 && row.TxRow? ==> row.nonce < bound + |calls|
  {
    if calls != [] {
      hide ApplyCall, WrittenBy;
      var front, last := calls[..|calls|-1], calls[|calls|-1];
      WrittenNonces(ledger, front, bound);
      var before := RunCalls(ledger, front).0;
      forall address
        ensures before.Nonce(address) <= bound + |front|
        ensures ApplyCall(before, last).Nonce(address) <= bound + |calls|
      {
        CallRaisesNonces(before, last, address);
      }
      CallRaisesNonces(before, last, "");
    }
  }

  lemma AdoptStaysBounded(state: NodeState, record: BlockRecord, seed: Digest, bound: nat)
    requires Bounded(state, bound) && |record.transactions| <= MAX_TXS_PER_BLOCK
    ensures Bounded(Adopt(state, record, seed), bound + MAX_TXS_PER_BLOCK + 1)
  {
    hide RunCalls;
    BlockCallsExecute(state.ledger, record);
    WrittenNonces(state.ledger, BlockCalls(record), bound);
    var rows := BlockRows(state.ledger, record);
    assert forall row :: row in state.log + rows ==> row in state.log || row in rows;
  }

  lemma RollBackStaysBounded(state: NodeState, forkPoint: u64, bound: nat)
    requires Bounded(state, bound) && RollBack(state, forkPoint).Some?
    ensures Bounded(RollBack(state, forkPoint).value, bound)
  {
    hide ReplayScopedRows, Selected, NextNonce, RequeueBlocks, WorkSum, Range;
    var rows := Selected(state.log, forkPoint);
    forall address
      ensures OpenScoped(state.log, forkPoint).Nonce(address) <= bound
    {
      ReplayedNonce(rows, address);
      NextNonceIsMaximum(rows, address);
      forall row: Row | row in rows && row.TxRow?
        ensures SaturatingAdd(row.nonce, 1) <= bound
      {
        TransfersAreSelected(state.log, row, forkPoint);
      }
    }
  }

  lemma StaysBounded(state: NodeState, event: Event, bound: nat)
    requires Bounded(state, bound)
    requires Adopted(state, event).Some? ==> |Adopted(state, event).value.transactions| <= MAX_TXS_PER_BLOCK
    ensures Bounded(Step(state, event), bound + MAX_TXS_PER_BLOCK + 1)
  {
    hide AcceptClaim, Propose, SyncRecord, RollBack, Winner, Enqueue, RollbackAllowed, Adopt, BlockReward;
    if Adopted(state, event).Some? {
      var seed := StepAdopts(state, event);
      AdoptStaysBounded(state, Adopted(state, event).value, seed, bound);
    } else if event.Accepting? || event.Proposing? || event.Enqueueing? {
      OnlyQueues(state, event);
    } else if event.RollingBack? && RollbackAllowed(state, event.forkPoint) && RollBack(state, event.forkPoint).Some? {
      RollBackStaysBounded(state, event.forkPoint, bound);
    }
  }

  /** Far below 2^64 events no nonce can run out. */
  lemma {:induction false} DisciplinedRunsAreFresh(events: seq<Event>)
    requires Disciplined(events) && |events| <= U64_MAX / (MAX_TXS_PER_BLOCK + 1)
    ensures FreshRun(events)
    ensures Bounded(Run(GENESIS_STATE, events), |events| * (MAX_TXS_PER_BLOCK + 1))
  {
    hide Step, Adopted, ElectsFresh, ExecutesOn, Bounded, ClockRuns;
    if events == [] {
      GenesisIsBounded();
    } else {
      var front := events[..|events|-1];
      var before, last := Run(GENESIS_STATE, front), events[|events|-1];
      var bound := |front| * (MAX_TXS_PER_BLOCK + 1);
      DisciplinedRunsAreFresh(front);
      DisciplineElectsFresh(events);
      if Adopted(before, last).Some? {
        AdoptedExecutes(events);
        BoundedExecutionFits(before, Adopted(before, last).value, bound);
      }
      StaysBounded(before, last, bound);
    }
  }

  lemma GenesisIsBounded()
    ensures Bounded(GENESIS_STATE, 0)
  {
  }

  lemma BoundedExecutionFits(state: NodeState, record: BlockRecord, bound: nat)
    requires Bounded(state, bound) && ExecutesOn(state.ledger, record) && bound + MAX_TXS_PER_BLOCK <= U64_MAX
    ensures NoncesHaveSuccessors(record.transactions) && |record.transactions| <= MAX_TXS_PER_BLOCK
  {
    hide RootOfTransactions, SimulateTransactions;
    SimulatedNonces(state.ledger, record.transactions, record.minerAddress, bound);
  }
}
