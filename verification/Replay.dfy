/**
 The append-only ledger log, what replaying it rebuilds, and when replay scoped to a height rebuilds the
 ledger of the canonical chain after blocks have been rolled back without truncating the log.
 */
module Replay {
  import opened Numbers
  import opened Types
  import opened Ledgers
  import opened Supply
  import opened Sums

  datatype Row =
    | RewardRow(height: u64, miner: Address, reward: u64, totalMined: u64, timestamp: u64)
    | TxRow(height: u64, id: Digest, from: Address, to: Address, amount: u64, fee: u64, nonce: u64,
            miner: Address, totalMined: u64, timestamp: u64)

  // ---------------------------------------------------------------- replaying rows

  /** The effect of a transfer row, the same in both replay modes: every step saturates. */
  function ReplayTransfer(ledger: Ledger, row: Row): Ledger
    requires row.TxRow?
  {
    var debited := Debit(ledger.balances, row.from, SaturatingAdd(row.amount, row.fee));
    var paid := CreditBalance(debited, row.to, row.amount);
    var settled := if row.fee > 0 && row.miner != "" then CreditBalance(paid, row.miner, row.fee) else paid;
    var next := SaturatingAdd(row.nonce, 1);
    var entry := if next > ledger.Nonce(row.from) then next else ledger.Nonce(row.from);
    Ledger(settled, ledger.nonces[row.from := entry], ledger.totalMined)
  }

  /** Unscoped replay trusts the running total written in each row. */
  function ReplayRow(ledger: Ledger, row: Row): Ledger {
    match row
    case RewardRow(_, miner, reward, total, _) =>
      Ledger(CreditBalance(ledger.balances, miner, reward), ledger.nonces, total)
    case TxRow(_, _, _, _, _, _, _, _, total, _) =>
      ReplayTransfer(ledger, row).(totalMined := total)
  }

  function ReplayRows(rows: seq<Row>): Ledger {
    if rows == [] then EMPTY_LEDGER else ReplayRow(ReplayRows(rows[..|rows|-1]), rows[|rows|-1])
  }

  /** Scoped replay adds rewards up itself. */
  function ReplayScopedRow(ledger: Ledger, row: Row): Ledger {
    match row
    case RewardRow(_, miner, reward, _, _) =>
      Ledger(CreditBalance(ledger.balances, miner, reward), ledger.nonces, SaturatingAdd(ledger.totalMined, reward))
    case TxRow(_, _, _, _, _, _, _, _, _, _) => ReplayTransfer(ledger, row)
  }

  function ReplayScopedRows(ledger: Ledger, rows: seq<Row>): Ledger {
    if rows == [] then ledger else ReplayScopedRow(ReplayScopedRows(ledger, rows[..|rows|-1]), rows[|rows|-1])
  }

  /** Some reward row of `rows` is for `height`. */
  predicate HasReward(rows: seq<Row>, height: u64) {
    exists i :: 0 <= i < |rows| && rows[i].RewardRow? && rows[i].height == height
  }

  /** A row is replayed when it is not above `active` and, for a reward, when no later reward has its height. */
  predicate Survives(row: Row, later: seq<Row>, active: u64) {
    row.height <= active && (row.TxRow? || !HasReward(later, row.height))
  }

  function Selected(log: seq<Row>, active: u64): seq<Row> {
    if log == [] then []
    else (if Survives(log[0], log[1..], active) then [log[0]] else []) + Selected(log[1..], active)
  }

  /** `RewardLedger::open_scoped` as a function of the log. */
  function OpenScoped(log: seq<Row>, active: u64): Ledger {
    ReplayScopedRows(EMPTY_LEDGER, Selected(log, active))
  }

  // ---------------------------------------------------------------- what execution writes

  function TransferRow(height: u64, signed: SignedTransaction, miner: Address, totalMined: u64, timestamp: u64): Row {
    TxRow(height, signed.Id(), signed.tx.from, signed.tx.to, signed.tx.amount, signed.tx.fee, signed.tx.nonce,
          miner, totalMined, timestamp)
  }

  /** One `apply_transaction` or `credit` call. */
  datatype LedgerCall =
    | Transfer(height: u64, signed: SignedTransaction, miner: Address, timestamp: u64)
    | Reward(height: u64, miner: Address, reward: u64, timestamp: u64)

  function ApplyCall(ledger: Ledger, call: LedgerCall): Ledger {
    match call
    case Transfer(_, signed, miner, _) => ApplyOrSkip(ledger, signed, miner)
    case Reward(_, miner, reward, _) => Credit(ledger, miner, reward)
  }

  /** The rows a call appends: refused transfers and zero rewards write nothing. */
  function WrittenBy(ledger: Ledger, call: LedgerCall): seq<Row> {
    match call
    case Transfer(height, signed, miner, timestamp) =>
      if ApplyTransaction(ledger, signed, miner).Success?
      then [TransferRow(height, signed, miner, ledger.totalMined, timestamp)] else []
    case Reward(height, miner, reward, timestamp) =>
      if reward == 0 then [] else [RewardRow(height, miner, reward, Credit(ledger, miner, reward).totalMined, timestamp)]
  }

  /** The ledger after the calls, and the rows they appended. */
  function RunCalls(start: Ledger, calls: seq<LedgerCall>): (state: (Ledger, seq<Row>)) {
    if calls == [] then (start, [])
    else
      var (ledger, rows) := RunCalls(start, calls[..|calls|-1]);
      var last := calls[|calls|-1];
      (ApplyCall(ledger, last), rows + WrittenBy(ledger, last))
  }

  lemma NoCallsRun(start: Ledger, calls: seq<LedgerCall>)
    ensures RunCalls(start, calls[..0]) == (start, [])
  {
  }

  lemma RunCallsOneMore(start: Ledger, calls: seq<LedgerCall>, i: nat)
    requires i < |calls|
    ensures var (ledger, rows) := RunCalls(start, calls[..i]);
            RunCalls(start, calls[..i + 1]) == (ApplyCall(ledger, calls[i]), rows + WrittenBy(ledger, calls[i]))
  {
    assert calls[..i + 1][..i] == calls[..i];
  }

  /** Rewards add up without passing the u64 range; the caller can check this before each `credit`. */
  function TotalRewards(calls: seq<LedgerCall>): nat {
    if calls == [] then 0
    else TotalRewards(calls[..|calls|-1]) + (match calls[|calls|-1] case Reward(_, _, r, _) => r case _ => 0)
  }

  // ---------------------------------------------------------------- round trip

  lemma TransferRowReplays(ledger: Ledger, height: u64, signed: SignedTransaction, miner: Address, total: u64, timestamp: u64)
    requires ApplyTransaction(ledger, signed, miner).Success?
    ensures ReplayTransfer(ledger, TransferRow(height, signed, miner, total, timestamp))
            == ApplyTransaction(ledger, signed, miner).value
  {
  }

  /** Replaying a reward row repeats `credit` exactly when the miner's balance does not overflow. */
  lemma RewardRowReplaysExactly(ledger: Ledger, height: u64, miner: Address, reward: u64, total: u64, timestamp: u64)
    requires reward > 0
    ensures ReplayScopedRow(ledger, RewardRow(height, miner, reward, total, timestamp)) == Credit(ledger, miner, reward)
            <==> ledger.Balance(miner) + reward <= U64_MAX
  {
    var replayed := ReplayScopedRow(ledger, RewardRow(height, miner, reward, total, timestamp));
    assert replayed.Balance(miner) == SaturatingAdd(ledger.Balance(miner), reward);
    assert Credit(ledger, miner, reward).Balance(miner) == WrappingAdd(ledger.Balance(miner), reward);
  }

  lemma CallReplays(ledger: Ledger, call: LedgerCall)
    requires Sum(ledger.balances) <= ledger.totalMined
    requires call.Reward? ==> ledger.totalMined + call.reward <= U64_MAX
    ensures |WrittenBy(ledger, call)| <= 1
    ensures WrittenBy(ledger, call) == [] ==> ApplyCall(ledger, call) == ledger
    ensures WrittenBy(ledger, call) != [] ==>
              && ReplayRow(ledger, WrittenBy(ledger, call)[0]) == ApplyCall(ledger, call)
              && ReplayScopedRow(ledger, WrittenBy(ledger, call)[0]) == ApplyCall(ledger, call)
    ensures Sum(ApplyCall(ledger, call).balances) <= ApplyCall(ledger, call).totalMined
    ensures ApplyCall(ledger, call).totalMined == ledger.totalMined + if call.Reward? then call.reward else 0
  {
    match call
    case Transfer(height, signed, miner, timestamp) =>
      if ApplyTransaction(ledger, signed, miner).Success? {
        TransferRowReplays(ledger, height, signed, miner, ledger.totalMined, timestamp);
        TransferConserves(ledger, signed, miner);
      }
    case Reward(height, miner, reward, timestamp) =>
      CreditConserves(ledger, miner, reward);
      EntryBelowSum(ledger.balances, miner);
  }

  /** Replaying the log after any run of ledger calls rebuilds balances, nonces, their key sets and the total. */
  lemma {:induction false} ReplayRebuildsLedger(calls: seq<LedgerCall>)
    requires TotalRewards(calls) <= U64_MAX
    ensures var (ledger, log) := RunCalls(EMPTY_LEDGER, calls);
            && ReplayRows(log) == ledger
            && Sum(ledger.balances) <= ledger.totalMined == TotalRewards(calls)
  {
    if calls != [] {
      var rest, last := calls[..|calls|-1], calls[|calls|-1];
      ReplayRebuildsLedger(rest);
      var (ledger, log) := RunCalls(EMPTY_LEDGER, rest);
      CallReplays(ledger, last);
      var rows := WrittenBy(ledger, last);
      if rows == [] {
        assert log + rows == log;
      } else {
        assert (log + rows)[..|log|] == log;
      }
    }
  }

  /** Scoped replay of the rows of any further run continues from the ledger they were written on. */
  lemma {:induction false} ScopedReplayFollows(base: seq<Row>, start: Ledger, calls: seq<LedgerCall>)
    requires ReplayScopedRows(EMPTY_LEDGER, base) == start
    requires Sum(start.balances) <= start.totalMined && start.totalMined + TotalRewards(calls) <= U64_MAX
    ensures var (ledger, rows) := RunCalls(start, calls);
            && ReplayScopedRows(EMPTY_LEDGER, base + rows) == ledger
            && Sum(ledger.balances) <= ledger.totalMined == start.totalMined + TotalRewards(calls)
  {
    if calls == [] {
      var none: seq<Row> := [];
      assert base + none == base;
    } else {
      var rest, last := calls[..|calls|-1], calls[|calls|-1];
      ScopedReplayFollows(base, start, rest);
      var (ledger, before) := RunCalls(start, rest);
      CallReplays(ledger, last);
      var rows := WrittenBy(ledger, last);
      assert base + (before + rows) == (base + before) + rows;
      if rows == [] {
        assert base + before + rows == base + before;
      } else {
        var all := (base + before) + rows;
        assert all[..|all|-1] == base + before && all[|all|-1] == rows[0];
      }
    }
  }

  // ---------------------------------------------------------------- which rows scoped replay selects

  lemma SelectedCons(row: Row, rest: seq<Row>, active: u64)
    ensures Selected([row] + rest, active) == (if Survives(row, rest, active) then [row] else []) + Selected(rest, active)
  {
    assert ([row] + rest)[1..] == rest;
  }

  lemma NothingSelected(active: u64)
    ensures Selected([], active) == []
  {
  }

  /** Appended rows that are all above `active` change nothing at `active`. */
  lemma {:induction false} SelectedIgnoresAbove(log: seq<Row>, added: seq<Row>, active: u64)
    requires forall row :: row in added ==> row.height > active
    ensures Selected(log + added, active) == Selected(log, active)
  {
    if log == [] {
      assert log + added == added;
      SelectedAllAbove(added, active);
    } else {
      SelectedIgnoresAbove(log[1..], added, active);
      assert (log + added)[1..] == log[1..] + added;
      var rest := log[1..];
      if log[0].height <= active {
        HasRewardConcat(rest, added, log[0].height);
      }
    }
  }

  lemma {:induction false} SelectedAllAbove(rows: seq<Row>, active: u64)
    requires forall row :: row in rows ==> row.height > active
    ensures Selected(rows, active) == []
  {
    if rows != [] {
      assert rows[0] in rows;
      SelectedAllAbove(rows[1..], active);
    }
  }

  lemma HasRewardConcat(a: seq<Row>, b: seq<Row>, height: u64)
    ensures HasReward(a + b, height) <==> HasReward(a, height) || HasReward(b, height)
  {
    if HasReward(b, height) {
      var i :| 0 <= i < |b| && b[i].RewardRow? && b[i].height == height;
      assert (a + b)[|a| + i] == b[i];
    }
    if HasReward(a, height) {
      var i :| 0 <= i < |a| && a[i].RewardRow? && a[i].height == height;
      assert (a + b)[i] == a[i];
    }
  }

  /** The rows one block at `height` appends: its transfers and then, if the reward is non-zero, its reward row. */
  predicate BlockShaped(rows: seq<Row>, height: u64) {
    && (forall row :: row in rows ==> row.height == height)
    && (forall i :: 0 <= i < |rows| && rows[i].RewardRow? ==> i == |rows| - 1)
  }

  predicate EndsInReward(rows: seq<Row>) {
    rows != [] && rows[|rows|-1].RewardRow?
  }

  /** The log holds nothing at `height` that a block appended there would fail to replace. */
  predicate CleanAt(log: seq<Row>, height: u64, rewarded: bool) {
    && (forall row :: row in log && row.TxRow? ==> row.height != height)
    && (!rewarded ==> !HasReward(log, height))
  }

  lemma {:induction false} SelectedOwnRows(rows: seq<Row>, height: u64)
    requires BlockShaped(rows, height)
    ensures Selected(rows, height) == rows
  {
    if rows != [] {
      assert rows[0] in rows;
      forall i | 0 <= i < |rows[1..]|
        ensures rows[1..][i] == rows[i+1]
      {
      }
      SelectedOwnRows(rows[1..], height);
    }
  }

  lemma NoRewards(height: u64)
    ensures !HasReward([], height)
  {
  }

  lemma RewardOfOne(row: Row, height: u64)
    ensures HasReward([row], height) <==> row.RewardRow? && row.height == height
  {
    assert [row][0] == row;
  }

  lemma RewardsOfBlock(rows: seq<Row>, height: u64)
    requires BlockShaped(rows, height)
    ensures HasReward(rows, height) <==> EndsInReward(rows)
  {
    if EndsInReward(rows) {
      assert rows[|rows|-1] in rows;
    }
  }

  lemma RewardsElsewhere(rows: seq<Row>, height: u64, other: u64)
    requires BlockShaped(rows, height)
    ensures other != height ==> !HasReward(rows, other)
  {
    assert forall i :: 0 <= i < |rows| ==> rows[i] in rows;
  }

  /**
   Appending a block's rows at `height` selects the rows of the chain below plus the new rows if and only if
   no stale transfer row has that height and no stale reward row there is left standing.
   */
  lemma {:induction false} AppendSelectsExactly(log: seq<Row>, added: seq<Row>, height: u64)
    requires height > 0 && BlockShaped(added, height)
    ensures |Selected(log + added, height)| >= |Selected(log, height - 1)| + |added|
    ensures Selected(log + added, height) == Selected(log, height - 1) + added
            <==> CleanAt(log, height, EndsInReward(added))
    ensures !CleanAt(log, height, EndsInReward(added)) ==>
              |Selected(log + added, height)| > |Selected(log, height - 1)| + |added|
  {
    hide Selected, HasReward;
    NothingSelected(height - 1);
    RewardsOfBlock(added, height);
    if log == [] {
      assert log + added == added && Selected(log, height - 1) + added == added;
      SelectedOwnRows(added, height);
      NoRewards(height);
    } else {
      var row, rest := log[0], log[1..];
      AppendSelectsExactly(rest, added, height);
      assert log == [row] + rest && log + added == [row] + (rest + added);
      SelectedCons(row, rest + added, height);
      SelectedCons(row, rest, height - 1);
      HasRewardConcat(rest, added, row.height);
      HasRewardConcat([row], rest, height);
      RewardOfOne(row, height);
      RewardsElsewhere(added, height, row.height);
      var head := if Survives(row, rest + added, height) then [row] else [];
      var kept := if Survives(row, rest, height - 1) then [row] else [];
      assert head + (Selected(rest, height - 1) + added) == (head + Selected(rest, height - 1)) + added;
      assert row.height < height ==> head == kept;
      assert forall r :: r in log <==> r == row || r in rest;
    }
  }

  // ---------------------------------------------------------------- what a stale transfer row does to the ledger

  /** The nonce a replay of `rows` leaves its sender with: past every transfer row it has seen. */
  function NextNonce(rows: seq<Row>, sender: Address): u64 {
    if rows == [] then 0
    else
      var before, last := NextNonce(rows[..|rows|-1], sender), rows[|rows|-1];
      if last.TxRow? && last.from == sender && SaturatingAdd(last.nonce, 1) > before then SaturatingAdd(last.nonce, 1)
      else before
  }

  lemma {:induction false} ReplayedNonce(rows: seq<Row>, sender: Address)
    ensures ReplayScopedRows(EMPTY_LEDGER, rows).Nonce(sender) == NextNonce(rows, sender)
  {
    if rows != [] {
      ReplayedNonce(rows[..|rows|-1], sender);
    }
  }

  /** `NextNonce` is the maximum: not below any row's successor, and zero or one of them. */
  lemma {:induction false} NextNonceIsMaximum(rows: seq<Row>, sender: Address)
    ensures forall row :: row in rows && row.TxRow? && row.from == sender ==> SaturatingAdd(row.nonce, 1) <= NextNonce(rows, sender)
    ensures NextNonce(rows, sender) == 0
            || exists row :: row in rows && row.TxRow? && row.from == sender && SaturatingAdd(row.nonce, 1) == NextNonce(rows, sender)
  {
    if rows != [] {
      var rest, last := rows[..|rows|-1], rows[|rows|-1];
      NextNonceIsMaximum(rest, sender);
      assert rows == rest + [last];
    }
  }

  /** Scoped replay keeps every transfer row up to its height, and no other. */
  lemma {:induction false} TransfersAreSelected(log: seq<Row>, row: Row, active: u64)
    requires row.TxRow?
    ensures row in Selected(log, active) <==> row in log && row.height <= active
  {
    if log != [] {
      TransfersAreSelected(log[1..], row, active);
    }
  }

  /**
   Reopening gives a sender its right next nonce `expected` if and only if every transfer row in scope, stale ones
   included, is below it, when the rows that made it are there.
   */
  lemma {:induction false} NonceReopensExactly(log: seq<Row>, active: u64, sender: Address, expected: u64)
    requires expected > 0 ==> exists row :: row in log && row.TxRow? && row.height <= active
                                && row.from == sender && SaturatingAdd(row.nonce, 1) == expected
    ensures OpenScoped(log, active).Nonce(sender) == expected
            <==> forall row :: row in log && row.TxRow? && row.height <= active && row.from == sender ==>
                   SaturatingAdd(row.nonce, 1) <= expected
  {
    hide ReplayScopedRows, NextNonce;
    var rows := Selected(log, active);
    ReplayedNonce(rows, sender);
    NextNonceIsMaximum(rows, sender);
    forall row: Row | row.TxRow?
      ensures row in rows <==> row in log && row.height <= active
    {
      TransfersAreSelected(log, row, active);
    }
  }

  /** A stale transfer row not below a ledger's next nonce of its sender makes the reopened ledger a different one. */
  lemma {:induction false} StaleTransferIsReplayed(log: seq<Row>, active: u64, row: Row, ledger: Ledger)
    requires row in log && row.TxRow? && row.height <= active && ledger.Nonce(row.from) <= row.nonce < U64_MAX
    ensures OpenScoped(log, active).Nonce(row.from) > ledger.Nonce(row.from)
    ensures OpenScoped(log, active) != ledger
  {
    hide ReplayScopedRows, Selected, NextNonce;
    TransfersAreSelected(log, row, active);
    ReplayedNonce(Selected(log, active), row.from);
    NextNonceIsMaximum(Selected(log, active), row.from);
  }

  // ---------------------------------------------------------------- what rows do to balances

  /** What a row adds to an address's balance when nothing saturates. */
  function Delta(row: Row, address: Address): int {
    match row
    case RewardRow(_, miner, reward, _, _) => if address == miner then reward else 0
    case TxRow(_, _, sender, recipient, amount, fee, _, miner, _, _) =>
      (if address == recipient then amount else 0) - (if address == sender then amount + fee else 0)
      + (if fee > 0 && miner != "" && address == miner then fee else 0)
  }

  function Net(rows: seq<Row>, address: Address): int {
    if rows == [] then 0 else Net(rows[..|rows|-1], address) + Delta(rows[|rows|-1], address)
  }

  /** Replaying the row on this ledger saturates nowhere: the sender can pay, and no credited balance overflows. */
  predicate Plain(ledger: Ledger, row: Row) {
    match row
    case RewardRow(_, miner, reward, _, _) => ledger.Balance(miner) + reward <= U64_MAX
    case TxRow(_, _, sender, recipient, amount, fee, _, miner, _, _) =>
      && amount + fee <= ledger.Balance(sender)
      && var debited := ledger.balances[sender := ledger.Balance(sender) - (amount + fee)];
      && BalanceIn(debited, recipient) + amount <= U64_MAX
      && (fee > 0 && miner != "" ==> BalanceIn(CreditBalance(debited, recipient, amount), miner) + fee <= U64_MAX)
  }

  predicate PlainRun(rows: seq<Row>) {
    rows != [] ==>
      PlainRun(rows[..|rows|-1]) && Plain(ReplayScopedRows(EMPTY_LEDGER, rows[..|rows|-1]), rows[|rows|-1])
  }

  lemma PlainRowNets(ledger: Ledger, row: Row, address: Address)
    requires Plain(ledger, row)
    ensures ReplayScopedRow(ledger, row).Balance(address) == ledger.Balance(address) + Delta(row, address)
  {
    hide BalanceIn, CreditBalance;
    match row
    case RewardRow(_, miner, reward, _, _) => CreditAdds(ledger.balances, miner, reward, address);
    case TxRow(_, _, sender, recipient, amount, fee, _, miner, _, _) =>
      var rest := ledger.Balance(sender) - (amount + fee);
      var debited := ledger.balances[sender := rest];
      StoreSets(ledger.balances, sender, rest, address);
      CreditAdds(debited, recipient, amount, address);
      if fee > 0 && miner != "" {
        CreditAdds(CreditBalance(debited, recipient, amount), miner, fee, address);
      }
  }

  lemma StoreSets(balances: Balances, at: Address, amount: u64, address: Address)
    ensures BalanceIn(balances[at := amount], address) == if address == at then amount else BalanceIn(balances, address)
  {
  }

  lemma CreditAdds(balances: Balances, at: Address, amount: u64, address: Address)
    requires BalanceIn(balances, at) + amount <= U64_MAX
    ensures BalanceIn(CreditBalance(balances, at, amount), address)
            == BalanceIn(balances, address) + if address == at then amount else 0
  {
  }

  /** Absent saturation, a replayed balance is the net of the rows. */
  lemma {:induction false} PlainReplayNets(rows: seq<Row>, address: Address)
    requires PlainRun(rows)
    ensures ReplayScopedRows(EMPTY_LEDGER, rows).Balance(address) == Net(rows, address)
  {
    if rows != [] {
      PlainReplayNets(rows[..|rows|-1], address);
      PlainRowNets(ReplayScopedRows(EMPTY_LEDGER, rows[..|rows|-1]), rows[|rows|-1], address);
    }
  }

  lemma {:induction false} NetConcat(a: seq<Row>, b: seq<Row>, address: Address)
    ensures Net(a + b, address) == Net(a, address) + Net(b, address)
    decreases |b|
  {
    if b == [] {
      assert a + b == a;
    } else {
      NetConcat(a, b[..|b|-1], address);
      assert (a + b)[..|a + b| - 1] == a + b[..|b|-1];
    }
  }

  lemma NetOfOne(row: Row, address: Address)
    ensures Net([row], address) == Delta(row, address)
  {
    assert [row][..0] == [];
  }

  /** One row taken out of a list. */
  lemma NetWithout(rows: seq<Row>, k: nat, address: Address)
    requires k < |rows|
    ensures Net(rows, address) == Net(rows[..k] + rows[k+1..], address) + Delta(rows[k], address)
    ensures multiset(rows[..k] + rows[k+1..]) == multiset(rows) - multiset{rows[k]}
  {
    hide Net, Delta;
    var before, after, one := rows[..k], rows[k+1..], [rows[k]];
    assert rows == before + (one + after);
    NetConcat(before, after, address);
    NetConcat(one, after, address);
    NetConcat(before, one + after, address);
    NetOfOne(rows[k], address);
  }

  lemma SameElements<T>(a: seq<T>, b: seq<T>)
    requires multiset(a) == multiset(b)
    ensures |a| == |b| && forall x :: x in a ==> x in b
  {
    assert |multiset(a)| == |a| && |multiset(b)| == |b|;
    forall x | x in a
      ensures x in b
    {
      assert x in multiset(a);
    }
  }

  /** The order of rows does not matter for the net. */
  lemma {:induction false} NetIgnoresOrder(a: seq<Row>, b: seq<Row>, address: Address)
    requires multiset(a) == multiset(b)
    ensures Net(a, address) == Net(b, address)
    decreases |a|
  {
    hide Net, Delta;
    SameElements(a, b);
    if a == [] {
      assert b == [];
    } else {
      var first := a[0];
      assert first in a;
      var k :| 0 <= k < |b| && b[k] == first;
      var front, others := a[..0] + a[1..], b[..k] + b[k+1..];
      NetWithout(a, 0, address);
      NetWithout(b, k, address);
      assert multiset(front) == multiset(others);
      NetIgnoresOrder(front, others, address);
    }
  }

  /** What `credit` and `apply_transaction` write replays without saturating. */
  lemma WrittenIsPlain(ledger: Ledger, call: LedgerCall)
    requires Sum(ledger.balances) <= ledger.totalMined
    requires call.Reward? ==> ledger.totalMined + call.reward <= U64_MAX
    ensures WrittenBy(ledger, call) != [] ==> Plain(ledger, WrittenBy(ledger, call)[0])
  {
    hide Sum;
    match call
    case Transfer(height, signed, miner, timestamp) =>
      if ApplyTransaction(ledger, signed, miner).Success? {
        TransferStaysBelowSum(ledger, signed, miner);
      }
    case Reward(height, miner, reward, timestamp) => EntryBelowSum(ledger.balances, miner);
  }

  lemma TransferStaysBelowSum(ledger: Ledger, signed: SignedTransaction, miner: Address)
    requires Sum(ledger.balances) <= U64_MAX && ApplyTransaction(ledger, signed, miner).Success?
    ensures var tx := signed.tx;
            var debited := ledger.balances[tx.from := ledger.Balance(tx.from) - (tx.amount + tx.fee)];
            && BalanceIn(debited, tx.to) + tx.amount <= U64_MAX
            && BalanceIn(CreditBalance(debited, tx.to, tx.amount), miner) + tx.fee <= U64_MAX
  {
    hide Sum;
    var tx := signed.tx;
    var debited := ledger.balances[tx.from := ledger.Balance(tx.from) - (tx.amount + tx.fee)];
    SumUpdate(ledger.balances, tx.from, ledger.Balance(tx.from) - (tx.amount + tx.fee));
    EntryBelowSum(debited, tx.to);
    SumUpdate(debited, tx.to, SaturatingAdd(BalanceIn(debited, tx.to), tx.amount));
    EntryBelowSum(CreditBalance(debited, tx.to, tx.amount), miner);
  }

  lemma {:induction false} FollowingIsPlain(base: seq<Row>, start: Ledger, calls: seq<LedgerCall>)
    requires ReplayScopedRows(EMPTY_LEDGER, base) == start && PlainRun(base)
    requires Sum(start.balances) <= start.totalMined && start.totalMined + TotalRewards(calls) <= U64_MAX
    ensures PlainRun(base + RunCalls(start, calls).1)
  {
    hide Sum, Plain, ApplyCall, WrittenBy, ReplayScopedRow;
    if calls == [] {
      assert base + RunCalls(start, calls).1 == base;
    } else {
      var front, last := calls[..|calls|-1], calls[|calls|-1];
      FollowingIsPlain(base, start, front);
      ScopedReplayFollows(base, start, front);
      var (ledger, before) := RunCalls(start, front);
      CallReplays(ledger, last);
      WrittenIsPlain(ledger, last);
      var rows := WrittenBy(ledger, last);
      var all := base + (before + rows);
      if rows == [] {
        assert all == base + before;
      } else {
        assert all[..|all|-1] == base + before && all[|all|-1] == rows[0];
      }
    }
  }
}
