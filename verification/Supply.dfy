/** Emission: the block reward schedule, conservation of BINA under transfers, and the hard cap. */
module Supply {
  import opened Numbers
  import opened Types
  import opened Ledgers
  import opened Sums

  const HARD_CAP: u64 := 2_000_000_000
  const INITIAL_BLOCK_REWARD: u64 := 50
  const HALVING_INTERVAL: u64 := 1_576_800_000

  /** `reward >> era` for an era below 64. */
  function ShiftRight(value: u64, bits: nat): (shifted: u64)
    ensures shifted <= value
  {
    if bits == 0 then value else ShiftRight(value / 2, bits - 1)
  }

  /** The scheduled reward, never more than what is left under the cap. */
  function BlockReward(height: u64, totalMined: u64): (reward: u64)
    ensures reward <= INITIAL_BLOCK_REWARD
    ensures totalMined <= HARD_CAP ==> totalMined + reward <= HARD_CAP
    ensures totalMined >= HARD_CAP ==> reward == 0
    ensures totalMined + reward <= U64_MAX
  {
    if totalMined >= HARD_CAP then 0
    else
      var era := height / HALVING_INTERVAL;
      var scheduled := if era >= 64 then 0 else ShiftRight(INITIAL_BLOCK_REWARD, era);
      Min(scheduled, HARD_CAP - totalMined)
  }

  // ---------------------------------------------------------------- conservation

  /** A transfer creates nothing; the fee is burned exactly when there is no miner to take it. */
  lemma TransferConserves(ledger: Ledger, signed: SignedTransaction, miner: Address)
    requires Sum(ledger.balances) <= U64_MAX
    requires ApplyTransaction(ledger, signed, miner).Success?
    ensures Sum(ApplyTransaction(ledger, signed, miner).value.balances)
            == Sum(ledger.balances) - (if miner == "" then signed.tx.fee else 0)
  {
    var tx := signed.tx;
    var debited := ledger.balances[tx.from := ledger.Balance(tx.from) - (tx.amount + tx.fee)];
    var paid := CreditBalance(debited, tx.to, tx.amount);
    SumUpdate(ledger.balances, tx.from, ledger.Balance(tx.from) - (tx.amount + tx.fee));
    EntryBelowSum(debited, tx.to);
    SumUpdate(debited, tx.to, SaturatingAdd(BalanceIn(debited, tx.to), tx.amount));
    EntryBelowSum(paid, miner);
    SumUpdate(paid, miner, SaturatingAdd(BalanceIn(paid, miner), tx.fee));
  }

  lemma {:induction false} ExecuteKeepsTotal(ledger: Ledger, txs: seq<SignedTransaction>, miner: Address)
    ensures Execute(ledger, txs, miner).totalMined == ledger.totalMined
  {
    if txs != [] {
      ExecuteKeepsTotal(ledger, txs[..|txs|-1], miner);
    }
  }

  lemma {:induction false} TransfersConserve(ledger: Ledger, txs: seq<SignedTransaction>, miner: Address)
    requires Sum(ledger.balances) <= ledger.totalMined
    ensures Execute(ledger, txs, miner).totalMined == ledger.totalMined
    ensures Sum(Execute(ledger, txs, miner).balances) <= Sum(ledger.balances)
    ensures miner != "" ==> Sum(Execute(ledger, txs, miner).balances) == Sum(ledger.balances)
  {
    if txs != [] {
      var rest, last := txs[..|txs|-1], txs[|txs|-1];
      TransfersConserve(ledger, rest, miner);
      var before := Execute(ledger, rest, miner);
      if ApplyTransaction(before, last, miner).Success? {
        TransferConserves(before, last, miner);
      }
    }
  }

  lemma CreditConserves(ledger: Ledger, miner: Address, reward: u64)
    requires Sum(ledger.balances) <= ledger.totalMined && ledger.totalMined + reward <= U64_MAX
    ensures Sum(Credit(ledger, miner, reward).balances) == Sum(ledger.balances) + reward
    ensures Credit(ledger, miner, reward).totalMined == ledger.totalMined + reward
  {
    EntryBelowSum(ledger.balances, miner);
    SumUpdate(ledger.balances, miner, WrappingAdd(ledger.Balance(miner), reward));
  }

  /** No balance ever exceeds what was mined, so a reward that fits the total fits the miner's balance too. */
  lemma RewardsFitTheTotal(ledger: Ledger, txs: seq<SignedTransaction>, miner: Address, reward: u64)
    requires Sum(ledger.balances) <= ledger.totalMined && ledger.totalMined + reward <= U64_MAX
    ensures RewardFits(ledger, txs, miner, reward)
  {
    TransfersConserve(ledger, txs, miner);
    EntryBelowSum(Execute(ledger, txs, miner).balances, miner);
  }

  /**
   A block conserves: mined coins and balances grow together by the reward, for a named miner exactly and
   otherwise up to burned fees.
   */
  lemma BlockConserves(ledger: Ledger, txs: seq<SignedTransaction>, miner: Address, reward: u64)
    requires Sum(ledger.balances) <= ledger.totalMined && ledger.totalMined + reward <= U64_MAX
    ensures var after := ExecuteBlock(ledger, txs, miner, reward);
            && after.totalMined == ledger.totalMined + reward
            && Sum(after.balances) <= Sum(ledger.balances) + reward
            && (miner != "" ==> Sum(after.balances) == Sum(ledger.balances) + reward)
  {
    TransfersConserve(ledger, txs, miner);
    CreditConserves(Execute(ledger, txs, miner), miner, reward);
  }

  // ---------------------------------------------------------------- the cap, over whole histories

  datatype Block = Block(txs: seq<SignedTransaction>, miner: Address)

  /** The ledger after blocks at heights 1, 2, ... each paid its scheduled reward. */
  function ScheduledHistory(blocks: seq<Block>): Ledger
    requires |blocks| <= U64_MAX
  {
    if blocks == [] then EMPTY_LEDGER
    else
      var before, last := ScheduledHistory(blocks[..|blocks|-1]), blocks[|blocks|-1];
      ExecuteBlock(before, last.txs, last.miner, BlockReward(|blocks|, before.totalMined))
  }

  /** For every history: total mined is min(50 per block, cap), and with named miners balances sum to it. */
  lemma {:induction false} EmissionIsExact(blocks: seq<Block>)
    requires |blocks| <= U64_MAX
    ensures ScheduledHistory(blocks).totalMined == Min(INITIAL_BLOCK_REWARD * |blocks|, HARD_CAP)
    ensures Sum(ScheduledHistory(blocks).balances) <= ScheduledHistory(blocks).totalMined <= HARD_CAP
    ensures (forall block :: block in blocks ==> block.miner != "") ==>
              Sum(ScheduledHistory(blocks).balances) == ScheduledHistory(blocks).totalMined
  {
    if blocks != [] {
      var rest, last := blocks[..|blocks|-1], blocks[|blocks|-1];
      EmissionIsExact(rest);
      var before := ScheduledHistory(rest);
      var reward := BlockReward(|blocks|, before.totalMined);
      BlockConserves(before, last.txs, last.miner, reward);
      if before.totalMined < HARD_CAP {
        assert |blocks| < HALVING_INTERVAL;
      }
    }
  }

  /** Ledgers showing the same accounts hold the same number of coins. */
  lemma SameViewSameSum(a: Ledger, b: Ledger)
    requires a.View() == b.View()
    ensures Sum(a.balances) == Sum(b.balances)
  {
    SameViewSameAccounts(a, b);
    var addresses := a.Addresses();
    SumOverExtra(addresses, a.balances);
    SumOverExtra(addresses, b.balances);
    forall address | address in addresses
      ensures At(a.balances, address) == At(b.balances, address)
    {
      assert a.AccountOf(address) == b.AccountOf(address);
    }
    SumOverPointwise(addresses, a.balances, b.balances);
  }
}
