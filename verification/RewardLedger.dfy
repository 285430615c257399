/** The mutable reward ledger: in-place credit and transfer, log append, replay, and block simulation. */
module RewardLedgers {
  import opened Numbers
  import opened Wrappers
  import opened Types
  import opened Ledgers
  import opened Replay

  class RewardLedger {
    var balances: Balances
    var nonces: map<Address, u64>
    var totalMined: u64
    /** The rows of the ledger file, oldest first. */
    var log: seq<Row>

    ghost function Value(): Ledger
      reads this
    {
      Ledger(balances, nonces, totalMined)
    }

    /** `open_inner`: replay the whole file, or only the part belonging to the chain up to `active`. */
    constructor OpenInner(file: seq<Row>, active: Option<u64>)
      ensures log == file
      ensures active.None? ==> Value() == ReplayRows(file)
      ensures active.Some? ==> Value() == OpenScoped(file, active.value)
    {
      var newBalances: Balances := map[];
      var newNonces: map<Address, u64> := map[];
      var total: u64 := 0;
      if active.Some? {
        var replayRows, latestRewardIndex := CollectRows(file, active.value);
        newBalances, newNonces, total := ReplayCollected(file, active.value, replayRows, latestRewardIndex);
      } else {
        for i := 0 to |file|
          invariant Ledger(newBalances, newNonces, total) == ReplayRows(file[..i])
        {
          assert file[..i+1][..i] == file[..i];
          newBalances, newNonces := ReplayInto(newBalances, newNonces, file[i]);
          total := file[i].totalMined;
        }
        assert file[..|file|] == file;
      }
      balances, nonces, totalMined, log := newBalances, newNonces, total, file;
    }

    /** `credit`: a zero reward changes nothing and writes nothing. */
    method Credit(height: u64, miner: Address, reward: u64, timestamp: u64) returns (balance: u64)
      modifies this
      ensures Value() == Ledgers.Credit(old(Value()), miner, reward)
      ensures log == old(log) + WrittenBy(old(Value()), Reward(height, miner, reward, timestamp))
      ensures balance == Value().Balance(miner)
    {
      if reward == 0 {
        return BalanceIn(balances, miner);
      }
      totalMined := SaturatingAdd(totalMined, reward);
      balance := WrappingAdd(BalanceIn(balances, miner), reward);
      balances := balances[miner := balance];
      log := log + [RewardRow(height, miner, reward, totalMined, timestamp)];
    }

    /** `apply_transaction`: a refused transfer leaves ledger and file as they were. */
    method ApplyTransaction(height: u64, signed: SignedTransaction, miner: Address, timestamp: u64)
      returns (result: Result<(), TxError>)
      modifies this
      ensures result.Success? <==> Ledgers.ApplyTransaction(old(Value()), signed, miner).Success?
      ensures result.Failure? ==> Ledgers.ApplyTransaction(old(Value()), signed, miner) == Failure(result.error)
      ensures Value() == ApplyOrSkip(old(Value()), signed, miner)
      ensures log == old(log) + WrittenBy(old(Value()), Transfer(height, signed, miner, timestamp))
    {
      if !signed.Verifies() {
        return Failure(Unverified);
      }
      var from, to := signed.tx.from, signed.tx.to;
      var expected := if from in nonces then nonces[from] else 0;
      if signed.tx.nonce != expected {
        return Failure(BadNonce(expected, signed.tx.nonce));
      }
      if signed.tx.amount + signed.tx.fee > U64_MAX {
        return Failure(AmountOverflow);
      }
      var debitTotal := signed.tx.amount + signed.tx.fee;
      var balance := BalanceIn(balances, from);
      if balance < debitTotal {
        return Failure(InsufficientBalance(balance, debitTotal));
      }
      balances := balances[from := balance - debitTotal];
      balances := CreditBalance(balances, to, signed.tx.amount);
      if signed.tx.fee > 0 && miner != "" {
        balances := CreditBalance(balances, miner, signed.tx.fee);
      }
      nonces := nonces[from := SaturatingAdd(signed.tx.nonce, 1)];
      log := log + [TransferRow(height, signed, miner, totalMined, timestamp)];
      return Success(());
    }

    /** `simulate_block_execution`: walks the list once over an overlay and leaves the ledger alone. */
    method SimulateBlockExecution(txs: seq<SignedTransaction>, miner: Address, reward: u64)
      returns (applied: seq<SignedTransaction>, root: Digest)
      ensures (applied, root) == SimulateBlock(Value(), txs, miner, reward)
    {
      ghost var ledger := Value();
      var overlay: Overlay := map[];
      applied := [];
      for i := 0 to |txs|
        invariant (applied, overlay) == SimulateTransactions(ledger, txs[..i], miner)
      {
        var signed := txs[i];
        assert txs[..i+1][..i] == txs[..i] && txs[..i+1][i] == signed;
        if !signed.Verifies() {
          continue;
        }
        var from, to := signed.tx.from, signed.tx.to;
        var sender := ReadOverlay(overlay, from);
        if signed.tx.nonce != sender.nonce {
          continue;
        }
        if signed.tx.amount + signed.tx.fee > U64_MAX || sender.balance < signed.tx.amount + signed.tx.fee {
          continue;
        }
        overlay := overlay[from := Account(sender.balance - (signed.tx.amount + signed.tx.fee), WrappingAdd(sender.nonce, 1))];
        var recipient := ReadOverlay(overlay, to);
        overlay := overlay[to := Account(SaturatingAdd(recipient.balance, signed.tx.amount), recipient.nonce)];
        if signed.tx.fee > 0 && miner != "" {
          var account := ReadOverlay(overlay, miner);
          overlay := overlay[miner := Account(SaturatingAdd(account.balance, signed.tx.fee), account.nonce)];
        }
        applied := applied + [signed];
      }
      assert txs[..|txs|] == txs;
      if reward > 0 {
        var account := ReadOverlay(overlay, miner);
        overlay := overlay[miner := Account(SaturatingAdd(account.balance, reward), account.nonce)];
      }
      root := StateRootWithOverlay(overlay);
    }

    function ReadOverlay(overlay: Overlay, address: Address): (account: Account)
      reads this
      ensures account == Read(Value(), overlay, address)
    {
      if address in overlay then overlay[address]
      else Account(BalanceIn(balances, address), if address in nonces then nonces[address] else 0)
    }

    function StateRootWithOverlay(overlay: Overlay): (root: Digest)
      reads this
      ensures root == RootWithOverlay(Value(), overlay)
      ensures overlay == map[] ==> root == Value().Root()
    {
      var root := StateRoot(map address | address in balances.Keys + nonces.Keys + overlay.Keys :: ReadOverlay(overlay, address));
      assert root == RootWithOverlay(Value(), overlay) by {
        assert balances.Keys + nonces.Keys == Value().Addresses();
      }
      assert overlay == map[] ==> root.accounts == Value().View();
      root
    }
  }

  /** The balance and nonce effect of one row, the same in both replay modes. */
  method ReplayInto(balances: Balances, nonces: map<Address, u64>, row: Row)
    returns (newBalances: Balances, newNonces: map<Address, u64>)
    ensures forall total: u64 ::
              Ledger(newBalances, newNonces, total) == ReplayScopedRow(Ledger(balances, nonces, 0), row).(totalMined := total)
  {
    match row
    case RewardRow(_, miner, reward, _, _) =>
      return CreditBalance(balances, miner, reward), nonces;
    case TxRow(_, _, from, to, amount, fee, nonce, miner, _, _) =>
      newBalances := Debit(balances, from, SaturatingAdd(amount, fee));
      newBalances := CreditBalance(newBalances, to, amount);
      if fee > 0 && miner != "" {
        newBalances := CreditBalance(newBalances, miner, fee);
      }
      var next := SaturatingAdd(nonce, 1);
      var entry := if from in nonces then nonces[from] else 0;
      newNonces := nonces[from := if next > entry then next else entry];
  }

  /** First pass of scoped replay: keep the rows up to `active` and note the last reward row of each height. */
  method CollectRows(file: seq<Row>, active: u64) returns (replayRows: seq<Row>, latestRewardIndex: map<u64, nat>)
    ensures replayRows == UpTo(file, active)
    ensures IndexesLatest(latestRewardIndex, replayRows)
  {
    replayRows, latestRewardIndex := [], map[];
    for i := 0 to |file|
      invariant replayRows == UpTo(file[..i], active)
      invariant IndexesLatest(latestRewardIndex, replayRows)
    {
      assert file[..i+1][..i] == file[..i];
      var row := file[i];
      if row.height <= active {
        if row.RewardRow? {
          latestRewardIndex := latestRewardIndex[row.height := |replayRows|];
        }
        replayRows := replayRows + [row];
      }
    }
    assert file[..|file|] == file;
  }

  /** Second pass: replay every transfer row, and each reward row that is the last of its height. */
  method ReplayCollected(ghost file: seq<Row>, ghost active: u64, replayRows: seq<Row>, latestRewardIndex: map<u64, nat>)
    returns (balances: Balances, nonces: map<Address, u64>, total: u64)
    requires replayRows == UpTo(file, active) && IndexesLatest(latestRewardIndex, replayRows)
    ensures Ledger(balances, nonces, total) == OpenScoped(file, active)
  {
    hide UpTo, IndexesLatest, Survives, Selected;
    balances, nonces, total := map[], map[], 0;
    NothingSelected(active);
    assert replayRows[0..] == replayRows;
    SelectedUpTo(file, active);
    ghost var taken: seq<Row> := [];
    for i := 0 to |replayRows|
      invariant Ledger(balances, nonces, total) == ReplayScopedRows(EMPTY_LEDGER, taken)
      invariant taken + Selected(replayRows[i..], active) == Selected(file, active)
    {
      var row := replayRows[i];
      ghost var rest := Selected(replayRows[i+1..], active);
      SelectedHere(latestRewardIndex, replayRows, i, active);
      if row.TxRow? || (row.height in latestRewardIndex && latestRewardIndex[row.height] == i) {
        balances, nonces := ReplayInto(balances, nonces, row);
        if row.RewardRow? {
          total := SaturatingAdd(total, row.reward);
        }
        ReplayScopedSnoc(EMPTY_LEDGER, taken, row);
        assert taken + ([row] + rest) == (taken + [row]) + rest;
        taken := taken + [row];
      } else {
        assert [] + rest == rest;
      }
    }
    assert replayRows[|replayRows|..] == [];
    assert taken == Selected(file, active);
  }

  /** The rows at or below `active`, as the first pass of scoped replay keeps them. */
  function UpTo(rows: seq<Row>, active: u64): seq<Row> {
    if rows == [] then []
    else
      var rest, last := UpTo(rows[..|rows|-1], active), rows[|rows|-1];
      if last.height <= active then rest + [last] else rest
  }

  /** `latest` maps each height with a reward row to the index of its last one. */
  ghost predicate IndexesLatest(latest: map<u64, nat>, rows: seq<Row>) {
    && (forall h :: h in latest ==> latest[h] < |rows| && rows[latest[h]].RewardRow? && rows[latest[h]].height == h)
    && (forall i :: 0 <= i < |rows| && rows[i].RewardRow? ==> rows[i].height in latest && i <= latest[rows[i].height])
  }

  lemma LatestIffNoneLater(latest: map<u64, nat>, rows: seq<Row>, i: nat)
    requires IndexesLatest(latest, rows) && i < |rows|
    ensures rows[i].RewardRow? ==>
              (rows[i].height in latest && latest[rows[i].height] == i <==> !HasReward(rows[i+1..], rows[i].height))
  {
    if rows[i].RewardRow? {
      var h, later := rows[i].height, rows[i+1..];
      if latest[h] != i {
        assert later[latest[h] - i - 1] == rows[latest[h]];
      }
    }
  }

  /** The row at `i` is selected exactly when the second pass replays it. */
  lemma SelectedHere(latest: map<u64, nat>, rows: seq<Row>, i: nat, active: u64)
    requires IndexesLatest(latest, rows) && i < |rows|
    requires forall row :: row in rows ==> row.height <= active
    ensures var replayed := rows[i].TxRow? || (rows[i].height in latest && latest[rows[i].height] == i);
            Selected(rows[i..], active) == (if replayed then [rows[i]] else []) + Selected(rows[i+1..], active)
  {
    LatestIffNoneLater(latest, rows, i);
    assert rows[i..][0] == rows[i] && rows[i..][1..] == rows[i+1..];
    assert rows[i] in rows;
  }

  lemma ReplayScopedSnoc(ledger: Ledger, rows: seq<Row>, row: Row)
    ensures ReplayScopedRows(ledger, rows + [row]) == ReplayScopedRow(ReplayScopedRows(ledger, rows), row)
  {
    assert (rows + [row])[..|rows|] == rows;
  }

  /** Dropping the rows above `active` first does not change what is selected. */
  lemma {:induction false} SelectedUpTo(rows: seq<Row>, active: u64)
    ensures Selected(UpTo(rows, active), active) == Selected(rows, active)
    ensures forall row :: row in UpTo(rows, active) ==> row.height <= active
  {
    if rows != [] {
      var rest, last := rows[..|rows|-1], rows[|rows|-1];
      SelectedUpTo(rest, active);
      assert rows == rest + [last];
      if last.height <= active {
        SelectedSnoc(UpTo(rest, active), rest, last, active);
      } else {
        SelectedIgnoresAbove(rest, [last], active);
      }
    }
  }

  /** Rows with equal selections stay so when both gain the same last row. */
  lemma SelectedSnoc(a: seq<Row>, b: seq<Row>, last: Row, active: u64)
    requires Selected(a, active) == Selected(b, active) && last.height <= active
    ensures Selected(a + [last], active) == Selected(b + [last], active)
  {
    SelectedSnocForm(a, last, active);
    SelectedSnocForm(b, last, active);
  }

  /** A new last row displaces the reward row at its height, if it is itself a reward row. */
  function Displace(selected: seq<Row>, last: Row): seq<Row> {
    if selected == [] then [last]
    else (if last.RewardRow? && selected[0].RewardRow? && selected[0].height == last.height then [] else [selected[0]])
         + Displace(selected[1..], last)
  }

  lemma {:induction false} SelectedSnocForm(rows: seq<Row>, last: Row, active: u64)
    requires last.height <= active
    ensures Selected(rows + [last], active) == Displace(Selected(rows, active), last)
  {
    if rows == [] {
      assert rows + [last] == [last];
      assert [last][1..] == [];
    } else {
      SelectedSnocForm(rows[1..], last, active);
      assert (rows + [last])[1..] == rows[1..] + [last];
      var later := Selected(rows[1..], active);
      assert ([rows[0]] + later)[1..] == later && [] + later == later;
      HasRewardConcat(rows[1..], [last], rows[0].height);
      assert HasReward([last], rows[0].height) <==> last.RewardRow? && last.height == rows[0].height by {
        assert [last][0] == last;
      }
    }
  }
}
