/** The ledger log of a chain: what blocks write, and when scoped replay of it rebuilds the chain's ledger. */
module ChainLogs {
  import opened Numbers
  import opened Types
  import opened Ledgers
  import opened Replay
  import opened Chains

  /** The calls that execute a block for real: its transfers in order, then its reward. */
  function TransferCalls(block: BlockRecord): seq<LedgerCall> {
    seq(|block.transactions|, i requires 0 <= i < |block.transactions| =>
      Transfer(block.height, block.transactions[i], block.minerAddress, block.timestamp / 1000))
  }

  function RewardCall(block: BlockRecord): LedgerCall {
    Reward(block.height, block.minerAddress, block.rewardBina, block.timestamp / 1000)
  }

  function BlockCalls(block: BlockRecord): seq<LedgerCall> {
    TransferCalls(block) + [RewardCall(block)]
  }

  function BlockRows(ledger: Ledger, block: BlockRecord): seq<Row> {
    RunCalls(ledger, BlockCalls(block)).1
  }

  function RowsOf(chain: Chain): seq<Row> {
    if chain == [] then []
    else RowsOf(chain[..|chain|-1]) + BlockRows(LedgerOf(chain[..|chain|-1]), chain[|chain|-1])
  }

  /** Every scoping of the log to a height of the chain selects exactly that part of the chain's rows. */
  ghost predicate LogFor(log: seq<Row>, chain: Chain) {
    |chain| <= U64_MAX && forall h :: 0 <= h <= |chain| ==> Selected(log, h) == RowsOf(chain[..h])
  }

  // ---------------------------------------------------------------- the rows of one block

  lemma {:induction false} TransferCallsExecute(ledger: Ledger, block: BlockRecord, n: nat)
    requires n <= |block.transactions|
    ensures RunCalls(ledger, TransferCalls(block)[..n]).0 == Execute(ledger, block.transactions[..n], block.minerAddress)
    ensures forall row :: row in RunCalls(ledger, TransferCalls(block)[..n]).1 ==>
              row.TxRow? && row.height == block.height && block.transactions != []
    ensures TotalRewards(TransferCalls(block)[..n]) == 0
  {
    if n > 0 {
      TransferCallsExecute(ledger, block, n - 1);
      assert TransferCalls(block)[..n][..n-1] == TransferCalls(block)[..n-1];
      assert block.transactions[..n][..n-1] == block.transactions[..n-1];
    }
  }

  lemma BlockCallsExecute(ledger: Ledger, block: BlockRecord)
    ensures RunCalls(ledger, BlockCalls(block)).0
            == ExecuteBlock(ledger, block.transactions, block.minerAddress, block.rewardBina)
    ensures TotalRewards(BlockCalls(block)) == block.rewardBina
    ensures BlockShaped(BlockRows(ledger, block), block.height)
    ensures EndsInReward(BlockRows(ledger, block)) <==> block.rewardBina > 0
    ensures forall row :: row in BlockRows(ledger, block) && row.TxRow? ==> block.transactions != []
  {
    var transfers, calls, n := TransferCalls(block), BlockCalls(block), |block.transactions|;
    TransferCallsExecute(ledger, block, n);
    assert transfers[..n] == transfers && block.transactions[..n] == block.transactions;
    assert calls[..|calls|-1] == transfers && calls[|calls|-1] == RewardCall(block);
    var rows := RunCalls(ledger, transfers).1;
    var written := WrittenBy(RunCalls(ledger, transfers).0, RewardCall(block));
    var all := BlockRows(ledger, block);
    assert all == rows + written;
    forall i | 0 <= i < |rows|
      ensures all[i].TxRow? && all[i].height == block.height && block.transactions != []
    {
      assert rows[i] in rows;
    }
  }

  predicate Positioned(chain: Chain) {
    forall i :: 0 <= i < |chain| ==> chain[i].height == i + 1
  }

  lemma LinkedIsPositioned(chain: Chain)
    requires Linked(chain)
    ensures Positioned(chain)
  {
    forall i | 0 <= i < |chain| {
      BlockFields(chain, i);
    }
  }

  lemma {:induction false} RowsLieInChain(chain: Chain, row: Row)
    requires Positioned(chain) && row in RowsOf(chain)
    ensures 0 < row.height <= |chain|
    ensures row.TxRow? ==> chain[row.height - 1].transactions != []
  {
    var rest, last := chain[..|chain|-1], chain[|chain|-1];
    if row in RowsOf(rest) {
      RowsLieInChain(rest, row);
    } else {
      BlockCallsExecute(LedgerOf(rest), last);
    }
  }

  // ---------------------------------------------------------------- replay rebuilds the ledger

  lemma {:induction false} ScopedReplayOfChain(chain: Chain)
    requires Linked(chain) && Executed(chain)
    ensures ReplayScopedRows(EMPTY_LEDGER, RowsOf(chain)) == LedgerOf(chain)
  {
    if chain != [] {
      var rest, last := chain[..|chain|-1], chain[|chain|-1];
      ScopedReplayOfChain(rest);
      ChainLedger(rest);
      BlockCallsExecute(LedgerOf(rest), last);
      ScopedReplayFollows(RowsOf(rest), LedgerOf(rest), BlockCalls(last));
    }
  }

  /** Reopening a log scoped to a height of its chain gives the ledger as it stood after that block. */
  lemma {:induction false} OpenScopedRebuilds(log: seq<Row>, chain: Chain, height: u64)
    requires Linked(chain) && Executed(chain) && LogFor(log, chain) && height <= |chain|
    ensures OpenScoped(log, height) == LedgerOf(chain[..height])
  {
    LinkedAt(chain, height);
    ExecutedAt(chain, height);
    ScopedReplayOfChain(chain[..height]);
  }

  // ---------------------------------------------------------------- how the log stays right

  lemma AppendKeepsLower(log: seq<Row>, chain: Chain, block: BlockRecord, height: nat)
    requires LogFor(log, chain) && block.height == |chain| + 1 && height <= |chain|
    ensures Selected(log + BlockRows(LedgerOf(chain), block), height) == RowsOf((chain + [block])[..height])
  {
    hide Selected, RowsOf, LedgerOf, BlockRows, BlockCalls, RunCalls, ExecuteBlock, TotalRewards, EndsInReward;
    BlockCallsExecute(LedgerOf(chain), block);
    SelectedIgnoresAbove(log, BlockRows(LedgerOf(chain), block), height);
    assert (chain + [block])[..height] == chain[..height];
  }

  lemma AppendAtTopExactly(log: seq<Row>, chain: Chain, block: BlockRecord)
    requires |chain| < U64_MAX && Selected(log, |chain|) == RowsOf(chain) && block.height == |chain| + 1
    ensures Selected(log + BlockRows(LedgerOf(chain), block), block.height) == RowsOf(chain + [block])
            <==> CleanAt(log, block.height, block.rewardBina > 0)
  {
    SnocParts(chain, block);
    BlockCallsExecute(LedgerOf(chain), block);
    AppendSelectsExactly(log, BlockRows(LedgerOf(chain), block), block.height);
  }

  lemma TopDecides(log: seq<Row>, chain: Chain)
    requires 0 < |chain| <= U64_MAX
    requires forall h :: 0 <= h < |chain| ==> Selected(log, h) == RowsOf(chain[..h])
    ensures LogFor(log, chain) <==> Selected(log, |chain|) == RowsOf(chain)
  {
    assert chain[..|chain|] == chain;
  }

  /**
   Appending a block keeps the log right if and only if rolled-back blocks left nothing at that height that the
   block does not overwrite: no transfer row, and no reward row unless the block pays a reward itself.
   */
  lemma AppendKeepsLogExactly(log: seq<Row>, chain: Chain, block: BlockRecord)
    requires LogFor(log, chain) && |chain| < U64_MAX && block.height == |chain| + 1
    ensures LogFor(log + BlockRows(LedgerOf(chain), block), chain + [block])
            <==> CleanAt(log, block.height, block.rewardBina > 0)
  {
    assert chain[..|chain|] == chain;
    AppendAtTopExactly(log, chain, block);
    forall h | 0 <= h < |chain + [block]| {
      AppendKeepsLower(log, chain, block, h);
    }
    TopDecides(log + BlockRows(LedgerOf(chain), block), chain + [block]);
  }

  lemma TruncationKeepsLog(log: seq<Row>, chain: Chain, height: nat)
    requires LogFor(log, chain) && height <= |chain|
    ensures LogFor(log, chain[..height])
  {
    forall h | 0 <= h <= height
      ensures Selected(log, h) == RowsOf(chain[..height][..h])
    {
      assert chain[..height][..h] == chain[..h];
    }
  }

  /** No transfer row lies above the chain: what orderly rollbacks leave behind. */
  predicate NoStaleTransfers(log: seq<Row>, chain: Chain) {
    forall row :: row in log && row.TxRow? ==> row.height <= |chain|
  }

  /** Rolling back blocks that carry no transfers leaves no transfer row above the new tip. */
  lemma {:induction false} TransferFreeRollback(log: seq<Row>, chain: Chain, height: nat)
    requires Linked(chain) && LogFor(log, chain) && NoStaleTransfers(log, chain) && height <= |chain|
    requires forall i :: height <= i < |chain| ==> chain[i].transactions == []
    ensures NoStaleTransfers(log, chain[..height])
  {
    hide Linked, RowsOf, Selected, Positioned;
    assert chain[..|chain|] == chain;
    LinkedIsPositioned(chain);
    forall row | row in log && row.TxRow?
      ensures row.height <= height
    {
      TransfersAreSelected(log, row, |chain|);
      RowsLieInChain(chain, row);
    }
  }

  lemma AppendKeepsNoStale(log: seq<Row>, chain: Chain, block: BlockRecord)
    requires NoStaleTransfers(log, chain) && block.height == |chain| + 1
    ensures NoStaleTransfers(log + BlockRows(LedgerOf(chain), block), chain + [block])
    ensures block.rewardBina > 0 || !HasReward(log, block.height) ==> CleanAt(log, block.height, block.rewardBina > 0)
  {
    BlockCallsExecute(LedgerOf(chain), block);
  }

  /**
   With the chain's own transfer rows in the log, reopening it at the tip gives a sender its right next nonce if and
   only if no transfer row in scope, left by whatever rolled-back block, has a nonce the chain has not reached.
   */
  lemma {:induction false} NoncesReopenExactly(log: seq<Row>, chain: Chain, sender: Address)
    requires Linked(chain) && Executed(chain)
    requires forall row :: row in RowsOf(chain) && row.TxRow? ==> row in log
    ensures OpenScoped(log, |chain|).Nonce(sender) == LedgerOf(chain).Nonce(sender)
            <==> forall row :: row in log && row.TxRow? && row.height <= |chain| && row.from == sender ==>
                   SaturatingAdd(row.nonce, 1) <= LedgerOf(chain).Nonce(sender)
  {
    hide Linked, Executed, LedgerOf, ReplayScopedRows, OpenScoped;
    ScopedReplayOfChain(chain);
    ReplayedNonce(RowsOf(chain), sender);
    NextNonceIsMaximum(RowsOf(chain), sender);
    LinkedIsPositioned(chain);
    forall row | row in RowsOf(chain)
      ensures row.height <= |chain|
    {
      RowsLieInChain(chain, row);
    }
    LinkedIsShort(chain);
    NonceReopensExactly(log, |chain|, sender, LedgerOf(chain).Nonce(sender));
  }

  lemma {:induction false} ChainRowsArePlain(chain: Chain)
    requires Linked(chain) && Executed(chain)
    ensures PlainRun(RowsOf(chain))
  {
    hide Plain, RunCalls, BlockCalls;
    if chain != [] {
      var rest, last := chain[..|chain|-1], chain[|chain|-1];
      ChainRowsArePlain(rest);
      ScopedReplayOfChain(rest);
      ChainLedger(rest);
      BlockCallsExecute(LedgerOf(rest), last);
      FollowingIsPlain(RowsOf(rest), LedgerOf(rest), BlockCalls(last));
    }
  }

  /**
   When replaying the rows in scope saturates nowhere, each reopened balance is the chain's plus the net of the stale
   rows, those in scope beyond the chain's own.
   */
  lemma {:induction false} ReopenedBalance(log: seq<Row>, chain: Chain, stale: seq<Row>, address: Address)
    requires Linked(chain) && Executed(chain) && PlainRun(Selected(log, |chain|))
    requires multiset(Selected(log, |chain|)) == multiset(RowsOf(chain) + stale)
    ensures OpenScoped(log, |chain|).Balance(address) == LedgerOf(chain).Balance(address) + Net(stale, address)
  {
    hide Linked, Executed, LedgerOf, Selected, RowsOf, Net, PlainRun, ReplayScopedRows;
    LinkedIsShort(chain);
    PlainReplayNets(Selected(log, |chain|), address);
    NetIgnoresOrder(Selected(log, |chain|), RowsOf(chain) + stale, address);
    NetConcat(RowsOf(chain), stale, address);
    ChainRowsArePlain(chain);
    PlainReplayNets(RowsOf(chain), address);
    ScopedReplayOfChain(chain);
  }

  /** The reopened accounts are the chain's if and only if the stale rows cancel for every address and no nonce is off. */
  lemma {:induction false} AccountsReopenExactly(log: seq<Row>, chain: Chain, stale: seq<Row>)
    requires Linked(chain) && Executed(chain) && PlainRun(Selected(log, |chain|))
    requires multiset(Selected(log, |chain|)) == multiset(RowsOf(chain) + stale)
    ensures (forall address :: OpenScoped(log, |chain|).AccountOf(address) == LedgerOf(chain).AccountOf(address))
            <==> (&& (forall address :: Net(stale, address) == 0)
                  && (forall address :: OpenScoped(log, |chain|).Nonce(address) == LedgerOf(chain).Nonce(address)))
  {
    hide Linked, Executed, LedgerOf, Selected, RowsOf, Net, PlainRun, OpenScoped;
    LinkedIsShort(chain);
    var reopened, right := OpenScoped(log, |chain|), LedgerOf(chain);
    forall address
      ensures reopened.Balance(address) == right.Balance(address) + Net(stale, address)
    {
      ReopenedBalance(log, chain, stale, address);
    }
    if forall address :: reopened.AccountOf(address) == right.AccountOf(address) {
      forall address
        ensures Net(stale, address) == 0 && reopened.Nonce(address) == right.Nonce(address)
      {
        assert reopened.AccountOf(address) == right.AccountOf(address);
      }
    } else {
      var address :| reopened.AccountOf(address) != right.AccountOf(address);
      assert reopened.Balance(address) == right.Balance(address) + Net(stale, address);
    }
  }

  lemma LinkedIsShort(chain: Chain)
    requires Linked(chain)
    ensures |chain| <= U64_MAX
  {
  }

  /** A log written by one forward run, zero rewards included, is right at every height. */
  lemma {:induction false} ForwardLogIsRight(chain: Chain)
    requires Positioned(chain) && |chain| <= U64_MAX
    ensures LogFor(RowsOf(chain), chain)
  {
    if chain == [] {
      assert forall h :: 0 <= h <= |chain| ==> chain[..h] == [];
    } else {
      var rest, last := chain[..|chain|-1], chain[|chain|-1];
      ForwardLogIsRight(rest);
      forall row | row in RowsOf(rest)
        ensures row.height < last.height
      {
        RowsLieInChain(rest, row);
      }
      AppendKeepsLogExactly(RowsOf(rest), rest, last);
      assert rest + [last] == chain;
    }
  }

  /** Single forward run: scoping its log to any height gives the ledger as it stood after that block. */
  lemma {:induction false} ForwardRunRoundTrip(chain: Chain, height: u64)
    requires Linked(chain) && Executed(chain) && height <= |chain|
    ensures OpenScoped(RowsOf(chain), height) == LedgerOf(chain[..height])
  {
    LinkedIsPositioned(chain);
    ForwardLogIsRight(chain);
    OpenScopedRebuilds(RowsOf(chain), chain, height);
  }
}
