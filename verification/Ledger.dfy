/**
 The reward ledger's account state and the two ways a block's effect on it is computed: by real execution
 (`apply_transaction` then `credit`) and by simulation on an overlay (`simulate_block_execution`).
 */
module Ledgers {
  import opened Numbers
  import opened Wrappers
  import opened Types

  type Balances = map<Address, u64>

  datatype TxError =
    | Unverified
    | BadNonce(expected: u64, got: u64)
    | AmountOverflow
    | InsufficientBalance(have: u64, need: u64)

  function BalanceIn(balances: Balances, address: Address): u64 {
    if address in balances then balances[address] else 0
  }

  /** `credit_balance`: saturating, and creates the entry. */
  function CreditBalance(balances: Balances, address: Address, amount: u64): Balances {
    balances[address := SaturatingAdd(BalanceIn(balances, address), amount)]
  }

  /** `debit`: saturating, and creates the entry. */
  function Debit(balances: Balances, address: Address, amount: u64): Balances {
    balances[address := SaturatingSub(BalanceIn(balances, address), amount)]
  }

  datatype Ledger = Ledger(balances: Balances, nonces: map<Address, u64>, totalMined: u64) {
    function Balance(address: Address): u64 {
      BalanceIn(balances, address)
    }

    function Nonce(address: Address): u64 {
      if address in nonces then nonces[address] else 0
    }

    function AccountOf(address: Address): Account {
      Account(Balance(address), Nonce(address))
    }

    function Addresses(): set<Address> {
      balances.Keys + nonces.Keys
    }

    /** Everything the state root commits to. */
    function View(): map<Address, Account> {
      map address | address in Addresses() :: AccountOf(address)
    }

    function Root(): Digest {
      StateRoot(View())
    }
  }

  const EMPTY_LEDGER: Ledger := Ledger(map[], map[], 0)

  // ---------------------------------------------------------------- real execution

  /** `RewardLedger::apply_transaction`: all checks come before the first mutation. */
  function ApplyTransaction(ledger: Ledger, signed: SignedTransaction, miner: Address): Result<Ledger, TxError> {
    var tx := signed.tx;
    if !signed.Verifies() then
      Failure(Unverified)
    else if tx.nonce != ledger.Nonce(tx.from) then
      Failure(BadNonce(ledger.Nonce(tx.from), tx.nonce))
    else if tx.amount + tx.fee > U64_MAX then
      Failure(AmountOverflow)
    else if ledger.Balance(tx.from) < tx.amount + tx.fee then
      Failure(InsufficientBalance(ledger.Balance(tx.from), tx.amount + tx.fee))
    else
      var debited := ledger.balances[tx.from := ledger.Balance(tx.from) - (tx.amount + tx.fee)];
      var paid := CreditBalance(debited, tx.to, tx.amount);
      var settled := if tx.fee > 0 && miner != "" then CreditBalance(paid, miner, tx.fee) else paid;
      Success(Ledger(settled, ledger.nonces[tx.from := SaturatingAdd(tx.nonce, 1)], ledger.totalMined))
  }

  /** `RewardLedger::credit`: the balance is a plain `+=`, the running total saturates. */
  function Credit(ledger: Ledger, miner: Address, reward: u64): Ledger {
    if reward == 0 then ledger
    else Ledger(
      ledger.balances[miner := WrappingAdd(ledger.Balance(miner), reward)],
      ledger.nonces,
      SaturatingAdd(ledger.totalMined, reward))
  }

  /** Apply one transaction, leaving the ledger as it is when the transaction is refused. */
  function ApplyOrSkip(ledger: Ledger, signed: SignedTransaction, miner: Address): Ledger {
    match ApplyTransaction(ledger, signed, miner)
    case Success(after) => after
    case Failure(_) => ledger
  }

  /** The ledger after `apply_transaction` on each transaction in order, skipping refusals. */
  function Execute(ledger: Ledger, txs: seq<SignedTransaction>, miner: Address): Ledger {
    if txs == [] then ledger
    else ApplyOrSkip(Execute(ledger, txs[..|txs|-1], miner), txs[|txs|-1], miner)
  }

  /** The transactions that sequential execution accepts, in order. */
  function Accepted(ledger: Ledger, txs: seq<SignedTransaction>, miner: Address): seq<SignedTransaction> {
    if txs == [] then []
    else
      var before := Accepted(ledger, txs[..|txs|-1], miner);
      var last := txs[|txs|-1];
      if ApplyTransaction(Execute(ledger, txs[..|txs|-1], miner), last, miner).Success? then before + [last] else before
  }

  function ExecuteBlock(ledger: Ledger, txs: seq<SignedTransaction>, miner: Address, reward: u64): Ledger {
    Credit(Execute(ledger, txs, miner), miner, reward)
  }

  // ---------------------------------------------------------------- simulation

  type Overlay = map<Address, Account>

  function Read(ledger: Ledger, overlay: Overlay, address: Address): Account {
    if address in overlay then overlay[address] else ledger.AccountOf(address)
  }

  /** One turn of the simulation loop; `None` drops the transaction. */
  function SimulateTransaction(ledger: Ledger, overlay: Overlay, signed: SignedTransaction, miner: Address): Option<Overlay> {
    var tx := signed.tx;
    var sender := Read(ledger, overlay, tx.from);
    if !signed.Verifies() || tx.nonce != sender.nonce || tx.amount + tx.fee > U64_MAX || sender.balance < tx.amount + tx.fee then
      None
    else
      var debited := overlay[tx.from := Account(sender.balance - (tx.amount + tx.fee), WrappingAdd(sender.nonce, 1))];
      var paid := OverlayCredit(ledger, debited, tx.to, tx.amount);
      Some(if tx.fee > 0 && miner != "" then OverlayCredit(ledger, paid, miner, tx.fee) else paid)
  }

  function OverlayCredit(ledger: Ledger, overlay: Overlay, address: Address, amount: u64): Overlay {
    var account := Read(ledger, overlay, address);
    overlay[address := account.(balance := SaturatingAdd(account.balance, amount))]
  }

  function SimulateTransactions(ledger: Ledger, txs: seq<SignedTransaction>, miner: Address)
    : (result: (seq<SignedTransaction>, Overlay))
  {
    if txs == [] then ([], map[])
    else
      var (applied, overlay) := SimulateTransactions(ledger, txs[..|txs|-1], miner);
      var last := txs[|txs|-1];
      match SimulateTransaction(ledger, overlay, last, miner)
      case None => (applied, overlay)
      case Some(next) => (applied + [last], next)
  }

  /** `state_root_with_overlay`: overlay entries win, and add their keys. */
  function RootWithOverlay(ledger: Ledger, overlay: Overlay): Digest {
    StateRoot(map address | address in ledger.Addresses() + overlay.Keys :: Read(ledger, overlay, address))
  }

  /** `simulate_block_execution`. */
  function SimulateBlock(ledger: Ledger, txs: seq<SignedTransaction>, miner: Address, reward: u64)
    : (result: (seq<SignedTransaction>, Digest))
  {
    var (applied, overlay) := SimulateTransactions(ledger, txs, miner);
    var rewarded := if reward > 0 then OverlayCredit(ledger, overlay, miner, reward) else overlay;
    (applied, RootWithOverlay(ledger, rewarded))
  }

  /** No transaction carries the nonce that has no successor. */
  predicate NoncesHaveSuccessors(txs: seq<SignedTransaction>) {
    forall signed :: signed in txs ==> signed.tx.nonce < U64_MAX
  }

  /** The reward can be added to the miner's balance after the transactions without overflow. */
  predicate RewardFits(ledger: Ledger, txs: seq<SignedTransaction>, miner: Address, reward: u64) {
    Execute(ledger, txs, miner).Balance(miner) + reward <= U64_MAX
  }

  // ---------------------------------------------------------------- simulation refines execution

  /** The overlay over `ledger` shows exactly the accounts of `executed`, with the same key set. */
  ghost predicate Shows(ledger: Ledger, overlay: Overlay, executed: Ledger) {
    && ledger.Addresses() + overlay.Keys == executed.Addresses()
    && forall address :: Read(ledger, overlay, address) == executed.AccountOf(address)
  }

  lemma ShownRoot(ledger: Ledger, overlay: Overlay, executed: Ledger)
    requires Shows(ledger, overlay, executed)
    ensures RootWithOverlay(ledger, overlay) == executed.Root()
  {
    assert forall address :: address in executed.Addresses() ==> Read(ledger, overlay, address) == executed.View()[address];
  }

  /** One accepted transaction: every balance stays alike, and every nonce except possibly the sender's. */
  lemma StepAgreesAt(ledger: Ledger, overlay: Overlay, executed: Ledger, signed: SignedTransaction, miner: Address, address: Address)
    requires forall a :: Read(ledger, overlay, a) == executed.AccountOf(a)
    requires SimulateTransaction(ledger, overlay, signed, miner).Some?
    ensures ApplyTransaction(executed, signed, miner).Success?
    ensures var next := SimulateTransaction(ledger, overlay, signed, miner).value;
            var after := ApplyTransaction(executed, signed, miner).value;
            && Read(ledger, next, address).balance == after.Balance(address)
            && Read(ledger, next, address).nonce ==
                 (if address == signed.tx.from then WrappingAdd(signed.tx.nonce, 1) else after.Nonce(address))
            && after.Nonce(signed.tx.from) == SaturatingAdd(signed.tx.nonce, 1)
  {
    hide OverlayCredit, CreditBalance;
    var tx := signed.tx;
    assert Read(ledger, overlay, tx.from) == executed.AccountOf(tx.from);
    assert Read(ledger, overlay, tx.to) == executed.AccountOf(tx.to);
    assert Read(ledger, overlay, miner) == executed.AccountOf(miner);
    assert Read(ledger, overlay, address) == executed.AccountOf(address);
    var spent := executed.Balance(tx.from) - (tx.amount + tx.fee);
    var debited := overlay[tx.from := Account(spent, WrappingAdd(tx.nonce, 1))];
    var balances := executed.balances[tx.from := spent];
    CreditAgreesAt(ledger, debited, balances, tx.to, tx.amount, miner);
    CreditAgreesAt(ledger, debited, balances, tx.to, tx.amount, address);
    var paid, settled := OverlayCredit(ledger, debited, tx.to, tx.amount), CreditBalance(balances, tx.to, tx.amount);
    CreditAgreesAt(ledger, paid, settled, miner, tx.fee, address);
  }

  /** Crediting an overlay and crediting balances that agree with it changes both alike, and no nonce. */
  lemma CreditAgreesAt(ledger: Ledger, overlay: Overlay, balances: Balances, credited: Address, amount: u64, address: Address)
    requires Read(ledger, overlay, credited).balance == BalanceIn(balances, credited)
    requires Read(ledger, overlay, address).balance == BalanceIn(balances, address)
    ensures Read(ledger, OverlayCredit(ledger, overlay, credited, amount), address).balance
            == BalanceIn(CreditBalance(balances, credited, amount), address)
    ensures Read(ledger, OverlayCredit(ledger, overlay, credited, amount), address).nonce == Read(ledger, overlay, address).nonce
  {
  }

  function Touched(signed: SignedTransaction, miner: Address): set<Address> {
    {signed.tx.from, signed.tx.to} + if signed.tx.fee > 0 && miner != "" then {miner} else {}
  }

  lemma SimulatedKeys(ledger: Ledger, overlay: Overlay, signed: SignedTransaction, miner: Address)
    requires SimulateTransaction(ledger, overlay, signed, miner).Some?
    ensures SimulateTransaction(ledger, overlay, signed, miner).value.Keys == overlay.Keys + Touched(signed, miner)
  {
  }

  lemma ExecutedKeys(ledger: Ledger, signed: SignedTransaction, miner: Address)
    requires ApplyTransaction(ledger, signed, miner).Success?
    ensures ApplyTransaction(ledger, signed, miner).value.Addresses() == ledger.Addresses() + Touched(signed, miner)
  {
    var after := ApplyTransaction(ledger, signed, miner).value;
    assert after.nonces.Keys == ledger.nonces.Keys + {signed.tx.from};
    assert after.balances.Keys == ledger.balances.Keys + Touched(signed, miner);
  }

  /** One transaction: both sides decide alike, and stay alike exactly when the nonce has a successor. */
  lemma StepAgreesExactly(ledger: Ledger, overlay: Overlay, executed: Ledger, signed: SignedTransaction, miner: Address)
    requires Shows(ledger, overlay, executed)
    ensures SimulateTransaction(ledger, overlay, signed, miner).Some? <==> ApplyTransaction(executed, signed, miner).Success?
    ensures SimulateTransaction(ledger, overlay, signed, miner).Some? ==>
              var next := SimulateTransaction(ledger, overlay, signed, miner).value;
              var after := ApplyTransaction(executed, signed, miner).value;
              && (Shows(ledger, next, after) <==> signed.tx.nonce < U64_MAX)
              && (signed.tx.nonce == U64_MAX ==> Diverged(ledger, next, after, signed.tx.from, 0))
  {
    assert Read(ledger, overlay, signed.tx.from) == executed.AccountOf(signed.tx.from);
    if SimulateTransaction(ledger, overlay, signed, miner).Some? {
      var next := SimulateTransaction(ledger, overlay, signed, miner).value;
      StepAgreesAt(ledger, overlay, executed, signed, miner, signed.tx.from);
      SimulatedKeys(ledger, overlay, signed, miner);
      ExecutedKeys(executed, signed, miner);
      forall address {
        StepAgreesAt(ledger, overlay, executed, signed, miner, address);
      }
    }
  }

  /** After accepting an unsucceedable nonce the two sides disagree on its sender for good. */
  ghost predicate Diverged(ledger: Ledger, overlay: Overlay, executed: Ledger, sender: Address, bound: nat) {
    executed.Nonce(sender) == U64_MAX && Read(ledger, overlay, sender).nonce <= bound
  }

  /** A diverged sender stays diverged: its real nonce is stuck and its simulated one starts over. */
  lemma {:induction false} DivergenceStays(
    ledger: Ledger, overlay: Overlay, executed: Ledger, signed: SignedTransaction, miner: Address, sender: Address, bound: nat)
    requires Diverged(ledger, overlay, executed, sender, bound) && bound < U64_MAX
    ensures var next := match SimulateTransaction(ledger, overlay, signed, miner) case None => overlay case Some(o) => o;
            Diverged(ledger, next, ApplyOrSkip(executed, signed, miner), sender, bound + 1)
  {
  }

  /** How far the simulation of `txs` follows execution. */
  ghost predicate Tracks(ledger: Ledger, txs: seq<SignedTransaction>, miner: Address) {
    var (applied, overlay) := SimulateTransactions(ledger, txs, miner);
    var executed := Execute(ledger, txs, miner);
    if NoncesHaveSuccessors(Accepted(ledger, txs, miner))
    then applied == Accepted(ledger, txs, miner) && Shows(ledger, overlay, executed)
    else exists sender :: Diverged(ledger, overlay, executed, sender, |txs|)
  }

  lemma TracksOneMore(ledger: Ledger, txs: seq<SignedTransaction>, miner: Address)
    requires 0 < |txs| < U64_MAX && Tracks(ledger, txs[..|txs|-1], miner)
    requires NoncesHaveSuccessors(Accepted(ledger, txs[..|txs|-1], miner))
    ensures Tracks(ledger, txs, miner)
  {
    var rest, last := txs[..|txs|-1], txs[|txs|-1];
    var (applied, overlay) := SimulateTransactions(ledger, rest, miner);
    var executed := Execute(ledger, rest, miner);
    StepAgreesExactly(ledger, overlay, executed, last, miner);
    if ApplyTransaction(executed, last, miner).Success? {
      assert Accepted(ledger, txs, miner) == applied + [last];
      if last.tx.nonce == U64_MAX {
        assert Diverged(ledger, SimulateTransactions(ledger, txs, miner).1, Execute(ledger, txs, miner), last.tx.from, |txs|);
      }
    }
  }

  lemma {:induction false} SimulationTracksExecution(ledger: Ledger, txs: seq<SignedTransaction>, miner: Address)
    requires |txs| < U64_MAX
    ensures Tracks(ledger, txs, miner)
  {
    if txs == [] {
      var empty: Overlay := map[];
      assert ledger.Addresses() + empty.Keys == ledger.Addresses();
    } else {
      var rest, last := txs[..|txs|-1], txs[|txs|-1];
      SimulationTracksExecution(ledger, rest, miner);
      if NoncesHaveSuccessors(Accepted(ledger, rest, miner)) {
        TracksOneMore(ledger, txs, miner);
      } else {
        var (applied, overlay) := SimulateTransactions(ledger, rest, miner);
        var executed := Execute(ledger, rest, miner);
        var sender :| Diverged(ledger, overlay, executed, sender, |rest|);
        DivergenceStays(ledger, overlay, executed, last, miner, sender, |rest|);
        assert Diverged(ledger, SimulateTransactions(ledger, txs, miner).1, Execute(ledger, txs, miner), sender, |txs|);
        assert forall signed :: signed in Accepted(ledger, rest, miner) ==> signed in Accepted(ledger, txs, miner);
      }
    }
  }

  /** The reward entry: both sides agree exactly when the addition does not overflow. */
  lemma RewardAgreesExactly(ledger: Ledger, overlay: Overlay, executed: Ledger, miner: Address, reward: u64)
    requires Shows(ledger, overlay, executed) && reward > 0
    ensures Shows(ledger, OverlayCredit(ledger, overlay, miner, reward), Credit(executed, miner, reward))
            <==> executed.Balance(miner) + reward <= U64_MAX
    ensures executed.Balance(miner) + reward > U64_MAX ==>
              Read(ledger, OverlayCredit(ledger, overlay, miner, reward), miner) != Credit(executed, miner, reward).AccountOf(miner)
  {
    var next, after := OverlayCredit(ledger, overlay, miner, reward), Credit(executed, miner, reward);
    assert ledger.Addresses() + next.Keys == after.Addresses();
    RewardAt(ledger, overlay, executed, miner, reward, miner);
    forall address {
      RewardAt(ledger, overlay, executed, miner, reward, address);
    }
  }

  /** At one address: the two sides differ only at the miner, and there only by wrapping. */
  lemma RewardAt(ledger: Ledger, overlay: Overlay, executed: Ledger, miner: Address, reward: u64, address: Address)
    requires Read(ledger, overlay, miner) == executed.AccountOf(miner)
    requires Read(ledger, overlay, address) == executed.AccountOf(address) && reward > 0
    ensures Read(ledger, OverlayCredit(ledger, overlay, miner, reward), address) == Credit(executed, miner, reward).AccountOf(address)
            <==> address != miner || executed.Balance(miner) + reward <= U64_MAX
  {
  }

  /**
   Simulation predicts real execution exactly: it keeps the transactions that sequential execution accepts,
   and its root is the root the ledger has after really applying them and crediting the reward. For blocks of
   any size below 2^64 - 1 this holds if and only if no accepted nonce is the last u64 and the reward fits.
   */
  lemma SimulationMatchesExecutionExactly(ledger: Ledger, txs: seq<SignedTransaction>, miner: Address, reward: u64)
    requires |txs| < U64_MAX
    ensures SimulateBlock(ledger, txs, miner, reward)
            == (Accepted(ledger, txs, miner), ExecuteBlock(ledger, txs, miner, reward).Root())
            <==> (NoncesHaveSuccessors(Accepted(ledger, txs, miner)) && RewardFits(ledger, txs, miner, reward))
  {
    SimulationTracksExecution(ledger, txs, miner);
    var (applied, overlay) := SimulateTransactions(ledger, txs, miner);
    var executed := Execute(ledger, txs, miner);
    var rewarded := if reward > 0 then OverlayCredit(ledger, overlay, miner, reward) else overlay;
    var after := Credit(executed, miner, reward);
    if NoncesHaveSuccessors(Accepted(ledger, txs, miner)) {
      if reward > 0 {
        RewardAgreesExactly(ledger, overlay, executed, miner, reward);
      }
      if RewardFits(ledger, txs, miner, reward) {
        ShownRoot(ledger, rewarded, after);
      } else {
        DifferentAccountsDifferentRoots(ledger, rewarded, after, miner);
      }
    } else {
      var sender :| Diverged(ledger, overlay, executed, sender, |txs|);
      DifferentAccountsDifferentRoots(ledger, rewarded, after, sender);
    }
  }

  lemma DifferentAccountsDifferentRoots(ledger: Ledger, overlay: Overlay, executed: Ledger, address: Address)
    requires Read(ledger, overlay, address) != executed.AccountOf(address)
    ensures RootWithOverlay(ledger, overlay) != executed.Root()
  {
    assert address in RootWithOverlay(ledger, overlay).accounts ==>
        RootWithOverlay(ledger, overlay).accounts[address] == Read(ledger, overlay, address);
  }

  // ---------------------------------------------------------------- filtering is idempotent

  lemma {:induction false} SimulatingSurvivors(ledger: Ledger, txs: seq<SignedTransaction>, miner: Address)
    ensures var (applied, overlay) := SimulateTransactions(ledger, txs, miner);
            SimulateTransactions(ledger, applied, miner) == (applied, overlay)
  {
    if txs != [] {
      var rest, last := txs[..|txs|-1], txs[|txs|-1];
      SimulatingSurvivors(ledger, rest, miner);
      var (applied, overlay) := SimulateTransactions(ledger, rest, miner);
      if SimulateTransaction(ledger, overlay, last, miner).Some? {
        assert (applied + [last])[..|applied|] == applied;
      }
    }
  }

  /** Re-simulating the survivors keeps all of them and gives the same root, with no overflow condition. */
  lemma FilteringIsIdempotent(ledger: Ledger, txs: seq<SignedTransaction>, miner: Address, reward: u64)
    ensures var (applied, root) := SimulateBlock(ledger, txs, miner, reward);
            SimulateBlock(ledger, applied, miner, reward) == (applied, root)
  {
    SimulatingSurvivors(ledger, txs, miner);
  }

  lemma {:induction false} AcceptedExecutesAlike(ledger: Ledger, txs: seq<SignedTransaction>, miner: Address)
    ensures Execute(ledger, Accepted(ledger, txs, miner), miner) == Execute(ledger, txs, miner)
    ensures Accepted(ledger, Accepted(ledger, txs, miner), miner) == Accepted(ledger, txs, miner)
  {
    if txs != [] {
      var rest, last := txs[..|txs|-1], txs[|txs|-1];
      AcceptedExecutesAlike(ledger, rest, miner);
      var accepted := Accepted(ledger, rest, miner);
      if ApplyTransaction(Execute(ledger, rest, miner), last, miner).Success? {
        assert (accepted + [last])[..|accepted|] == accepted;
      }
    }
  }

  /** What simulation returns depends on the ledger only through the accounts its root commits to. */
  lemma SimulationSeesOnlyTheView(a: Ledger, b: Ledger, txs: seq<SignedTransaction>, miner: Address, reward: u64)
    requires a.View() == b.View()
    ensures SimulateBlock(a, txs, miner, reward) == SimulateBlock(b, txs, miner, reward)
  {
    SameViewSameAccounts(a, b);
    SameViewSameSimulation(a, b, txs, miner);
    var overlay := SimulateTransactions(a, txs, miner).1;
    assert forall o: Overlay, address :: Read(a, o, address) == Read(b, o, address);
    var rewarded := if reward > 0 then OverlayCredit(a, overlay, miner, reward) else overlay;
    assert RootWithOverlay(a, rewarded).accounts == RootWithOverlay(b, rewarded).accounts;
  }

  lemma SameViewSameAccounts(a: Ledger, b: Ledger)
    requires a.View() == b.View()
    ensures a.Addresses() == b.Addresses()
    ensures forall address :: a.AccountOf(address) == b.AccountOf(address)
  {
    assert a.Addresses() == a.View().Keys == b.View().Keys == b.Addresses();
    forall address
      ensures a.AccountOf(address) == b.AccountOf(address)
    {
      if address in a.Addresses() {
        assert a.View()[address] == b.View()[address];
      }
    }
  }

  lemma {:induction false} SameViewSameSimulation(a: Ledger, b: Ledger, txs: seq<SignedTransaction>, miner: Address)
    requires forall address :: a.AccountOf(address) == b.AccountOf(address)
    ensures SimulateTransactions(a, txs, miner) == SimulateTransactions(b, txs, miner)
  {
    if txs != [] {
      var rest := txs[..|txs|-1];
      SameViewSameSimulation(a, b, rest, miner);
      assert forall o: Overlay, address :: Read(a, o, address) == Read(b, o, address);
    }
  }
}
