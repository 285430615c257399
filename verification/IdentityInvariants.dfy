/** What holds in every reachable state of the identity registry, and along every run. */
module IdentityInvariants {
  import opened Wrappers
  import opened Sums
  import opened IdentityStates

  // ---------------------------------------------------------------- the invariant

  const TWO_HOURS: nat := 7_200

  /** Controllers and hash160s: a controller is linked back, so no address controls two identities. */
  ghost predicate LinksAgree(links: Links) {
    && (forall h :: At(links.activeEvm, h) != 0 ==> h != 0 && At(links.evmToBtc, At(links.activeEvm, h)) == h)
    && (forall h :: At(links.btcToEvm, h) != 0 <==> At(links.activeEvm, h) != 0)
    && (forall h :: At(links.btcToEvm, h) != 0 ==> At(links.evmToBtc, At(links.btcToEvm, h)) == h)
  }

  /** A pending relink belongs to a registered hash160 and unlocks two hours or more after the last change. */
  ghost predicate PendingsWait(links: Links) {
    forall h :: h in links.pendingRelinks ==>
      && At(links.btcToEvm, h) != 0
      && links.pendingRelinks[h].newEvm != 0
      && links.pendingRelinks[h].unlockTime >= At(links.lastLinkTime, h) + TWO_HOURS
  }

  /**
   * One call: addresses' links and first registrations are write-once, link times of registered identities only
   * grow, and a controller that changes had been in place for two hours and gives way to an address never linked.
   */
  ghost predicate Follows(links: Links, next: Links, now: nat) {
    && Extends(links, next)
    && (forall h :: At(next.activeEvm, h) != At(links.activeEvm, h) ==>
          && At(next.lastLinkTime, h) == now
          && At(next.btcToEvm, h) != 0
          && At(links.evmToBtc, At(next.activeEvm, h)) == 0
          && (At(links.activeEvm, h) != 0 ==> now >= At(links.lastLinkTime, h) + TWO_HOURS))
  }

  ghost predicate Extends(links: Links, next: Links) {
    && (forall e :: At(links.evmToBtc, e) != 0 ==> At(next.evmToBtc, e) == At(links.evmToBtc, e))
    && (forall h :: At(links.btcToEvm, h) != 0 ==>
          At(next.btcToEvm, h) == At(links.btcToEvm, h) && At(next.lastLinkTime, h) >= At(links.lastLinkTime, h))
  }

  /** On active keys the two address maps are inverse, and inactive hash160s are in neither. */
  ghost predicate KeysAreInverse(keys: Keys) {
    && (forall h :: keys.Active(h) <==> At(keys.toBina, h) != 0)
    && (forall h :: keys.Active(h) ==>
          h != 0 && keys.binaKeys[h].binaAddress == At(keys.toBina, h) && At(keys.fromBina, At(keys.toBina, h)) == h)
    && (forall b :: At(keys.fromBina, b) != 0 ==> At(keys.toBina, At(keys.fromBina, b)) == b && b != 0)
  }

  /** Fees and pending withdrawals are exactly the ether the contract tracks. */
  ghost predicate BooksBalance(money: Money) {
    money.fees + Sum(money.withdrawals) == money.balance
  }

  ghost predicate Inv(r: Registry) {
    && LinksAgree(r.links) && PendingsWait(r.links)
    && KeysAreInverse(r.keys)
    && BooksBalance(r.money)
    && r.admin.relinkCooldown >= ONE_HOUR && r.admin.registrationFee <= MAX_REGISTRATION_FEE
  }

  lemma DeployedInv(deployer: Caller, fee: nat)
    requires Deploy(deployer, fee).Success?
    ensures Inv(Deploy(deployer, fee).value)
  {
  }

  // ---------------------------------------------------------------- links

  /** Linking an address that had no link keeps the maps in agreement. */
  lemma LinkKeepsAgreement(links: Links, hash160: Hash160, evm: EvmAddress, now: nat)
    requires LinksAgree(links) && hash160 != 0 && evm != 0 && At(links.evmToBtc, evm) == 0
    requires At(links.btcToEvm, hash160) != 0
    ensures LinksAgree(Link(links, hash160, evm, now))
  {
    var next := Link(links, hash160, evm, now);
    forall h
      ensures At(next.activeEvm, h) != 0 ==> At(next.evmToBtc, At(next.activeEvm, h)) == h
      ensures At(next.btcToEvm, h) != 0 ==> At(next.evmToBtc, At(next.btcToEvm, h)) == h
      ensures At(next.btcToEvm, h) != 0 <==> At(next.activeEvm, h) != 0
    {
      assert At(links.activeEvm, h) != 0 ==> At(links.evmToBtc, At(links.activeEvm, h)) == h;
      assert At(links.btcToEvm, h) != 0 ==> At(links.evmToBtc, At(links.btcToEvm, h)) == h;
    }
  }

  lemma FirstLinkKeepsAgreement(links: Links, hash160: Hash160, evm: EvmAddress, now: nat)
    requires LinksAgree(links) && hash160 != 0 && evm != 0 && At(links.evmToBtc, evm) == 0
    requires At(links.btcToEvm, hash160) == 0
    ensures LinksAgree(Link(links, hash160, evm, now).(btcToEvm := links.btcToEvm[hash160 := evm]))
    ensures At(links.activeEvm, hash160) == 0
  {
    var first := Link(links, hash160, evm, now).(btcToEvm := links.btcToEvm[hash160 := evm]);
    forall h
      ensures At(first.activeEvm, h) != 0 ==> h != 0 && At(first.evmToBtc, At(first.activeEvm, h)) == h
      ensures At(first.btcToEvm, h) != 0 ==> At(first.evmToBtc, At(first.btcToEvm, h)) == h
      ensures At(first.btcToEvm, h) != 0 <==> At(first.activeEvm, h) != 0
    {
      if h != hash160 {
        assert At(first.activeEvm, h) == At(links.activeEvm, h) && At(first.btcToEvm, h) == At(links.btcToEvm, h);
      }
    }
  }

  lemma RegisterKeepsLinks(fee: nat, links: Links, money: Money, env: Env, proof: KeyProof)
    requires LinksAgree(links) && PendingsWait(links) && BooksBalance(money)
    requires RegisterBitcoinAddress(fee, links, money, env, proof).Success?
    ensures var (next, books) := RegisterBitcoinAddress(fee, links, money, env, proof).value;
            && LinksAgree(next) && PendingsWait(next) && BooksBalance(books)
            && Follows(links, next, env.now)
  {
    hide LinksAgree, Sum;
    FirstLinkKeepsAgreement(links, proof.hash160, env.sender, env.now);
    var (next, _) := RegisterBitcoinAddress(fee, links, money, env, proof).value;
  }

  lemma InitiateKeepsLinks(
    admin: Admin, links: Links, env: Env, hash160: Hash160, newEvm: EvmAddress, shape: Option<Error>, proof: KeyProof)
    requires LinksAgree(links) && PendingsWait(links) && admin.relinkCooldown >= ONE_HOUR
    requires InitiateRelink(admin, links, env, hash160, newEvm, shape, proof).Success?
    ensures var next := InitiateRelink(admin, links, env, hash160, newEvm, shape, proof).value;
            LinksAgree(next) && PendingsWait(next) && Follows(links, next, env.now)
  {
  }

  /** A relink takes effect two hours or more after the previous change of controller. */
  lemma FinalizeKeepsLinks(admin: Admin, links: Links, env: Env, hash160: Hash160)
    requires LinksAgree(links) && PendingsWait(links)
    requires FinalizeRelink(admin, links, env, hash160).Success?
    ensures var next := FinalizeRelink(admin, links, env, hash160).value;
            && LinksAgree(next) && PendingsWait(next) && Follows(links, next, env.now)
            && env.now >= At(links.lastLinkTime, hash160) + TWO_HOURS
            && At(next.activeEvm, hash160) == env.sender
  {
    hide LinksAgree;
    RegisteredIsNonzero(links, hash160);
    LinkKeepsAgreement(links, hash160, env.sender, env.now);
    var next := FinalizeRelink(admin, links, env, hash160).value;
    AgreementIgnoresPendings(Link(links, hash160, env.sender, env.now), next.pendingRelinks);
  }

  lemma RegisteredIsNonzero(links: Links, hash160: Hash160)
    requires LinksAgree(links) && At(links.btcToEvm, hash160) != 0
    ensures hash160 != 0
  {
    assert At(links.activeEvm, hash160) != 0;
  }

  lemma AgreementIgnoresPendings(links: Links, pendings: map<Hash160, PendingRelink>)
    requires LinksAgree(links)
    ensures LinksAgree(links.(pendingRelinks := pendings))
  {
  }

  lemma CancelKeepsLinks(admin: Admin, links: Links, env: Env, hash160: Hash160)
    requires LinksAgree(links) && PendingsWait(links)
    requires CancelRelink(admin, links, env, hash160).Success?
    ensures var next := CancelRelink(admin, links, env, hash160).value;
            LinksAgree(next) && PendingsWait(next) && Follows(links, next, env.now)
  {
  }

  // ---------------------------------------------------------------- keys

  lemma RegisterKeyKeepsInverse(links: Links, keys: Keys, env: Env, hash160: Hash160, offer: KeyOffer)
    requires KeysAreInverse(keys) && RegisterBinaKey(links, keys, env, hash160, offer).Success?
    ensures KeysAreInverse(RegisterBinaKey(links, keys, env, hash160, offer).value)
  {
    var next := RegisterBinaKey(links, keys, env, hash160, offer).value;
    forall h
      ensures next.Active(h) <==> At(next.toBina, h) != 0
      ensures next.Active(h) ==>
                h != 0 && next.binaKeys[h].binaAddress == At(next.toBina, h) && At(next.fromBina, At(next.toBina, h)) == h
    {
      assert h != hash160 ==> next.Active(h) == keys.Active(h) && At(next.toBina, h) == At(keys.toBina, h);
      assert keys.Active(h) ==> At(keys.fromBina, At(keys.toBina, h)) == h;
    }
    forall b | At(next.fromBina, b) != 0
      ensures At(next.toBina, At(next.fromBina, b)) == b && b != 0
    {
      if b != offer.binaAddress {
        assert At(keys.fromBina, b) != 0 && At(keys.toBina, At(keys.fromBina, b)) == b;
        assert keys.Active(At(keys.fromBina, b));
      }
    }
  }

  lemma RotateKeyKeepsInverse(links: Links, keys: Keys, env: Env, hash160: Hash160, offer: KeyOffer)
    requires KeysAreInverse(keys) && RotateBinaKey(links, keys, env, hash160, offer).Success?
    ensures KeysAreInverse(RotateBinaKey(links, keys, env, hash160, offer).value)
    ensures env.now >= At(keys.lastRotation, hash160) + BINA_KEY_ROTATION_COOLDOWN
  {
    var next := RotateBinaKey(links, keys, env, hash160, offer).value;
    var previous := At(keys.toBina, hash160);
    forall h
      ensures next.Active(h) <==> At(next.toBina, h) != 0
      ensures next.Active(h) ==>
                h != 0 && next.binaKeys[h].binaAddress == At(next.toBina, h) && At(next.fromBina, At(next.toBina, h)) == h
    {
      assert h != hash160 ==> next.Active(h) == keys.Active(h) && At(next.toBina, h) == At(keys.toBina, h);
      assert keys.Active(h) ==> At(keys.fromBina, At(keys.toBina, h)) == h;
      assert At(keys.fromBina, previous) == hash160;
    }
    forall b | At(next.fromBina, b) != 0
      ensures At(next.toBina, At(next.fromBina, b)) == b && b != 0
    {
      if b != offer.binaAddress {
        assert At(keys.fromBina, b) != 0 && At(keys.toBina, At(keys.fromBina, b)) == b;
      }
    }
  }

  lemma DeactivateKeyKeepsInverse(links: Links, keys: Keys, env: Env, hash160: Hash160)
    requires KeysAreInverse(keys) && DeactivateBinaKey(links, keys, env, hash160).Success?
    ensures KeysAreInverse(DeactivateBinaKey(links, keys, env, hash160).value)
  {
    var next := DeactivateBinaKey(links, keys, env, hash160).value;
    var previous := At(keys.toBina, hash160);
    forall h
      ensures next.Active(h) <==> At(next.toBina, h) != 0
      ensures next.Active(h) ==>
                h != 0 && next.binaKeys[h].binaAddress == At(next.toBina, h) && At(next.fromBina, At(next.toBina, h)) == h
    {
      assert h != hash160 ==> next.Active(h) == keys.Active(h) && At(next.toBina, h) == At(keys.toBina, h);
      assert keys.Active(h) ==> At(keys.fromBina, At(keys.toBina, h)) == h;
    }
    forall b | At(next.fromBina, b) != 0
      ensures At(next.toBina, At(next.fromBina, b)) == b && b != 0
    {
      assert b != previous && At(keys.fromBina, b) != 0 && At(keys.toBina, At(keys.fromBina, b)) == b;
    }
  }

  // ---------------------------------------------------------------- money

  /** No payout can exceed what the contract holds, and the books stay balanced. */
  lemma MoneyKeepsBalance(r: Registry, env: Env, hash160: Hash160)
    requires BooksBalance(r.money)
    ensures ReceiveFunds(r, env, hash160).Success? ==> BooksBalance(ReceiveFunds(r, env, hash160).value)
    ensures WithdrawPendingFunds(r.money, env).Success? ==> BooksBalance(WithdrawPendingFunds(r.money, env).value)
    ensures WithdrawPendingFunds(r.money, env) != Failure(Underflow)
    ensures WithdrawFees(r.admin.owner, r.money, env).Success? ==> BooksBalance(WithdrawFees(r.admin.owner, r.money, env).value)
    ensures WithdrawFees(r.admin.owner, r.money, env) != Failure(Underflow)
    ensures BooksBalance(ReceiveEther(r.money, env))
  {
    hide Sum;
    var receiver := At(r.links.activeEvm, hash160);
    SumUpdate(r.money.withdrawals, receiver, At(r.money.withdrawals, receiver) + env.value);
    SumUpdate(r.money.withdrawals, env.sender, 0);
    EntryBelowSum(r.money.withdrawals, env.sender);
  }

  // ---------------------------------------------------------------- every call

  lemma {:induction false} CallKeepsInv(r: Registry, env: Env, call: Call)
    requires Inv(r) && Execute(r, env, call).Success?
    ensures Inv(Execute(r, env, call).value)
    ensures Follows(r.links, Execute(r, env, call).value.links, env.now)
  {
    hide LinksAgree, PendingsWait, KeysAreInverse, BooksBalance, RegisterBitcoinAddress, InitiateRelink,
      FinalizeRelink, CancelRelink, RegisterBinaKey, RotateBinaKey, DeactivateBinaKey;
    match call
    case Registering(proof) => RegisterKeepsLinks(r.admin.registrationFee, r.links, r.money, env, proof);
    case InitiatingRelink(hash160, newEvm, shape, proof) =>
      InitiateKeepsLinks(r.admin, r.links, env, hash160, newEvm, shape, proof);
    case FinalizingRelink(hash160) => FinalizeKeepsLinks(r.admin, r.links, env, hash160);
    case CancellingRelink(hash160) => CancelKeepsLinks(r.admin, r.links, env, hash160);
    case RegisteringKey(hash160, offer) => RegisterKeyKeepsInverse(r.links, r.keys, env, hash160, offer);
    case RotatingKey(hash160, offer) => RotateKeyKeepsInverse(r.links, r.keys, env, hash160, offer);
    case DeactivatingKey(hash160) => DeactivateKeyKeepsInverse(r.links, r.keys, env, hash160);
    case SettingPreference(preference) =>
    case ReceivingFunds(hash160) => MoneyKeepsBalance(r, env, hash160);
    case WithdrawingPending => MoneyKeepsBalance(r, env, 0);
    case WithdrawingFees => MoneyKeepsBalance(r, env, 0);
    case ReceivingEther => MoneyKeepsBalance(r, env, 0);
    case Administering(call) =>
  }

  // ---------------------------------------------------------------- call by call, as the contract's entry points use it

  lemma BooksOf(r: Registry)
    requires Inv(r)
    ensures BooksBalance(r.money)
  {
  }

  lemma FollowsItself(links: Links, now: nat)
    ensures Follows(links, links, now)
  {
  }

  lemma RegisteringKeepsInv(r: Registry, env: Env, proof: KeyProof)
    requires Inv(r)
    ensures match RegisterBitcoinAddress(r.admin.registrationFee, r.links, r.money, env, proof)
            case Success((links, money)) =>
              Inv(r.(links := links, money := money)) && Follows(r.links, links, env.now)
            case Failure(_) => true
  {
    hide Inv, Follows, RegisterBitcoinAddress;
    if Execute(r, env, Registering(proof)).Success? {
      CallKeepsInv(r, env, Registering(proof));
    }
  }

  lemma InitiatingKeepsInv(r: Registry, env: Env, hash160: Hash160, newEvm: EvmAddress, shape: Option<Error>, proof: KeyProof)
    requires Inv(r)
    ensures match NonPayable(env, InitiateRelink(r.admin, r.links, env, hash160, newEvm, shape, proof))
            case Success(links) => Inv(r.(links := links)) && Follows(r.links, links, env.now)
            case Failure(_) => true
  {
    hide Inv, Follows, InitiateRelink;
    if Execute(r, env, InitiatingRelink(hash160, newEvm, shape, proof)).Success? {
      CallKeepsInv(r, env, InitiatingRelink(hash160, newEvm, shape, proof));
    }
  }

  lemma FinalizingKeepsInv(r: Registry, env: Env, hash160: Hash160)
    requires Inv(r)
    ensures match NonPayable(env, FinalizeRelink(r.admin, r.links, env, hash160))
            case Success(links) => Inv(r.(links := links)) && Follows(r.links, links, env.now)
            case Failure(_) => true
  {
    hide Inv, Follows, FinalizeRelink;
    if Execute(r, env, FinalizingRelink(hash160)).Success? {
      CallKeepsInv(r, env, FinalizingRelink(hash160));
    }
  }

  lemma CancellingKeepsInv(r: Registry, env: Env, hash160: Hash160)
    requires Inv(r)
    ensures match NonPayable(env, CancelRelink(r.admin, r.links, env, hash160))
            case Success(links) => Inv(r.(links := links)) && Follows(r.links, links, env.now)
            case Failure(_) => true
  {
    hide Inv, Follows, CancelRelink;
    if Execute(r, env, CancellingRelink(hash160)).Success? {
      CallKeepsInv(r, env, CancellingRelink(hash160));
    }
  }

  lemma RegisteringKeyKeepsInv(r: Registry, env: Env, hash160: Hash160, offer: KeyOffer)
    requires Inv(r)
    ensures match NonPayable(env, RegisterBinaKey(r.links, r.keys, env, hash160, offer))
            case Success(keys) => Inv(r.(keys := keys))
            case Failure(_) => true
  {
    hide Inv, Follows, RegisterBinaKey;
    if Execute(r, env, RegisteringKey(hash160, offer)).Success? {
      CallKeepsInv(r, env, RegisteringKey(hash160, offer));
    }
  }

  lemma RotatingKeyKeepsInv(r: Registry, env: Env, hash160: Hash160, offer: KeyOffer)
    requires Inv(r)
    ensures match NonPayable(env, RotateBinaKey(r.links, r.keys, env, hash160, offer))
            case Success(keys) => Inv(r.(keys := keys))
            case Failure(_) => true
  {
    hide Inv, Follows, RotateBinaKey;
    if Execute(r, env, RotatingKey(hash160, offer)).Success? {
      CallKeepsInv(r, env, RotatingKey(hash160, offer));
    }
  }

  lemma DeactivatingKeyKeepsInv(r: Registry, env: Env, hash160: Hash160)
    requires Inv(r)
    ensures match NonPayable(env, DeactivateBinaKey(r.links, r.keys, env, hash160))
            case Success(keys) => Inv(r.(keys := keys))
            case Failure(_) => true
  {
    hide Inv, Follows, DeactivateBinaKey;
    if Execute(r, env, DeactivatingKey(hash160)).Success? {
      CallKeepsInv(r, env, DeactivatingKey(hash160));
    }
  }

  lemma ReceivingKeepsInv(r: Registry, env: Env, hash160: Hash160)
    requires Inv(r)
    ensures match ReceiveFunds(r, env, hash160)
            case Success(money) => Inv(r.(money := money))
            case Failure(error) => error != Underflow
  {
    hide Inv, Follows, BooksBalance;
    BooksOf(r);
    MoneyKeepsBalance(r, env, hash160);
    if Execute(r, env, ReceivingFunds(hash160)).Success? {
      CallKeepsInv(r, env, ReceivingFunds(hash160));
    }
  }

  lemma WithdrawingKeepsInv(r: Registry, env: Env)
    requires Inv(r)
    ensures match NonPayable(env, WithdrawPendingFunds(r.money, env))
            case Success(money) => Inv(r.(money := money))
            case Failure(error) => error != Underflow
  {
    hide Inv, Follows, BooksBalance;
    BooksOf(r);
    MoneyKeepsBalance(r, env, 0);
    if Execute(r, env, WithdrawingPending).Success? {
      CallKeepsInv(r, env, WithdrawingPending);
    }
  }

  lemma WithdrawingFeesKeepsInv(r: Registry, env: Env)
    requires Inv(r)
    ensures match NonPayable(env, WithdrawFees(r.admin.owner, r.money, env))
            case Success(money) => Inv(r.(money := money))
            case Failure(error) => error != Underflow
  {
    hide Inv, Follows, BooksBalance;
    BooksOf(r);
    MoneyKeepsBalance(r, env, 0);
    if Execute(r, env, WithdrawingFees).Success? {
      CallKeepsInv(r, env, WithdrawingFees);
    }
  }

  lemma AdministeringKeepsInv(r: Registry, env: Env, call: AdminCall)
    requires Inv(r)
    ensures match NonPayable(env, Administer(r.admin, env, call))
            case Success(admin) => Inv(r.(admin := admin))
            case Failure(_) => true
  {
    hide Inv, Follows, Administer;
    if Execute(r, env, Administering(call)).Success? {
      CallKeepsInv(r, env, Administering(call));
    }
  }

  lemma PreferringKeepsInv(r: Registry, preferences: map<EvmAddress, Preference>)
    requires Inv(r)
    ensures Inv(r.(preferences := preferences))
  {
  }

  lemma GivingKeepsInv(r: Registry, env: Env)
    requires Inv(r)
    ensures Inv(r.(money := ReceiveEther(r.money, env)))
  {
    hide Inv, Follows;
    CallKeepsInv(r, env, ReceivingEther);
  }

  lemma ExtendsItself(links: Links)
    ensures Extends(links, links)
  {
  }

  lemma ExtendsTransitive(a: Links, b: Links, c: Links)
    requires Extends(a, b) && Extends(b, c)
    ensures Extends(a, c)
  {
  }

  lemma StepKeepsInv(r: Registry, tx: Transaction)
    requires Inv(r)
    ensures Inv(Step(r, tx)) && Follows(r.links, Step(r, tx).links, tx.env.now)
  {
    hide Inv, Execute, LinksAgree;
    if Execute(r, tx.env, tx.call).Success? {
      CallKeepsInv(r, tx.env, tx.call);
    }
  }

  lemma {:induction false} RunKeepsInv(r: Registry, txs: seq<Transaction>)
    requires Inv(r)
    ensures Inv(Run(r, txs)) && Extends(r.links, Run(r, txs).links)
  {
    hide Inv, Step, Extends;
    if txs == [] {
      ExtendsItself(r.links);
    } else {
      var before, last := Run(r, txs[..|txs|-1]), txs[|txs|-1];
      RunKeepsInv(r, txs[..|txs|-1]);
      StepKeepsInv(before, last);
      ExtendsTransitive(r.links, before.links, Step(before, last).links);
    }
  }

  /** Every reachable state of the registry satisfies the invariant. */
  lemma {:induction false} EveryRunKeepsInv(deployer: Caller, fee: nat, txs: seq<Transaction>)
    requires Deploy(deployer, fee).Success?
    ensures Inv(Run(Deploy(deployer, fee).value, txs))
  {
    DeployedInv(deployer, fee);
    RunKeepsInv(Deploy(deployer, fee).value, txs);
  }

  lemma {:induction false} RunSplits(r: Registry, txs: seq<Transaction>, k: nat)
    requires k <= |txs|
    ensures Run(r, txs) == Run(Run(r, txs[..k]), txs[k..])
  {
    hide Step;
    if k == |txs| {
      assert txs[..k] == txs;
    } else {
      var front := txs[..|txs|-1];
      RunSplits(r, front, k);
      assert front[..k] == txs[..k];
      assert front[k..] == txs[k..][..|txs|-k-1];
    }
  }

  /** Whoever controls a hash160 after the first `k` transactions. */
  function ControllerAfter(r: Registry, txs: seq<Transaction>, k: nat, hash160: Hash160): EvmAddress
    requires k <= |txs|
  {
    At(Run(r, txs[..k]).links.activeEvm, hash160)
  }

  /** A change, then a second one on links that extend the first: two hours lie between them. */
  lemma SecondChangeWaits(first: Links, changed: Links, later: Links, last: Links, hash160: Hash160, t: nat, u: nat)
    requires Follows(first, changed, t) && Extends(changed, later) && Follows(later, last, u) && LinksAgree(later)
    requires At(first.activeEvm, hash160) != At(changed.activeEvm, hash160)
    requires At(later.activeEvm, hash160) != At(last.activeEvm, hash160)
    ensures u >= t + TWO_HOURS
  {
    assert At(later.btcToEvm, hash160) == At(changed.btcToEvm, hash160) != 0;
    assert At(later.activeEvm, hash160) != 0;
  }

  /** Two transactions of one run that both change the controller of a hash160 are at least two hours apart. */
  lemma ChangesAreTwoHoursApart(r: Registry, txs: seq<Transaction>, i: nat, j: nat, hash160: Hash160)
    requires Inv(r) && i < j < |txs|
    requires ControllerAfter(r, txs, i, hash160) != ControllerAfter(r, txs, i + 1, hash160)
    requires ControllerAfter(r, txs, j, hash160) != ControllerAfter(r, txs, j + 1, hash160)
    ensures txs[j].env.now >= txs[i].env.now + TWO_HOURS
  {
    hide Step, Inv, Follows, Extends;
    var first, changed, later := Run(r, txs[..i]), Run(r, txs[..i+1]), Run(r, txs[..j]);
    RunKeepsInv(r, txs[..i]);
    assert txs[..i+1][..i] == txs[..i];
    StepKeepsInv(first, txs[i]);
    RunSplits(r, txs[..j], i + 1);
    assert txs[..j][..i+1] == txs[..i+1];
    RunKeepsInv(changed, txs[..j][i+1..]);
    assert txs[..j+1][..j] == txs[..j];
    StepKeepsInv(later, txs[j]);
    InvAgrees(later);
    SecondChangeWaits(first.links, changed.links, later.links, Run(r, txs[..j+1]).links, hash160, txs[i].env.now, txs[j].env.now);
  }

  lemma InvAgrees(r: Registry)
    requires Inv(r)
    ensures LinksAgree(r.links)
  {
  }

  /** The contract's `hasControl`. */
  predicate HasControl(links: Links, evm: EvmAddress) {
    var hash160 := At(links.evmToBtc, evm);
    hash160 != 0 && At(links.activeEvm, hash160) == evm
  }

  /** In a reachable state an address controls at most one identity, and some identity exactly when `hasControl` says so. */
  lemma {:induction false} ControlsAtMostOne(r: Registry, evm: EvmAddress, a: Hash160, b: Hash160)
    requires Inv(r) && evm != 0
    ensures At(r.links.activeEvm, a) == evm && At(r.links.activeEvm, b) == evm ==> a == b
    ensures At(r.links.activeEvm, a) == evm ==> a == At(r.links.evmToBtc, evm) && HasControl(r.links, evm)
    ensures HasControl(r.links, evm) ==> At(r.links.activeEvm, At(r.links.evmToBtc, evm)) == evm
  {
    assert LinksAgree(r.links);
  }

  /** An address that lost control of its identity can never gain control of any other one. */
  lemma LinkIsForLife(r: Registry, txs: seq<Transaction>, evm: EvmAddress, hash160: Hash160)
    requires Inv(r) && evm != 0 && At(r.links.evmToBtc, evm) != 0
    requires At(Run(r, txs).links.activeEvm, hash160) == evm
    ensures hash160 == At(r.links.evmToBtc, evm)
  {
    hide Inv, Run;
    RunKeepsInv(r, txs);
    ControlsAtMostOne(Run(r, txs), evm, hash160, hash160);
  }

  lemma StepRegainsNothing(r: Registry, tx: Transaction, evm: EvmAddress)
    requires Inv(r) && At(r.links.evmToBtc, evm) != 0 && !HasControl(r.links, evm)
    ensures At(Step(r, tx).links.evmToBtc, evm) == At(r.links.evmToBtc, evm) && !HasControl(Step(r, tx).links, evm)
  {
    hide Inv, Step;
    StepKeepsInv(r, tx);
  }

  /** An address that lost control of its identity never controls any identity again, its own included. */
  lemma {:induction false} LostControlIsForever(r: Registry, txs: seq<Transaction>, evm: EvmAddress)
    requires Inv(r) && At(r.links.evmToBtc, evm) != 0 && !HasControl(r.links, evm)
    ensures !HasControl(Run(r, txs).links, evm) && At(Run(r, txs).links.evmToBtc, evm) == At(r.links.evmToBtc, evm)
  {
    hide Inv, Step, HasControl;
    if txs != [] {
      LostControlIsForever(r, txs[..|txs|-1], evm);
      RunKeepsInv(r, txs[..|txs|-1]);
      StepRegainsNothing(Run(r, txs[..|txs|-1]), txs[|txs|-1], evm);
    }
  }

  /** Ether sent plainly can be withdrawn by the owner with the fees, and what is left covers every pending withdrawal. */
  lemma ReceivedEtherIsFees(r: Registry, gift: Env, out: Env)
    requires Inv(r) && out.sender == r.admin.owner && out.payoutOk && gift.value > 0
    ensures var after := WithdrawFees(r.admin.owner, ReceiveEther(r.money, gift), out);
            && after.Success? && after.value.fees == 0
            && after.value.withdrawals == r.money.withdrawals && after.value.balance == Sum(r.money.withdrawals)
            && r.money.balance + gift.value - after.value.balance == r.money.fees + gift.value
  {
    hide Sum;
    assert BooksBalance(r.money);
  }

  /** Two active keys never share a BINA address. */
  lemma {:induction false} ActiveKeysAreDistinct(r: Registry, a: Hash160, b: Hash160)
    requires Inv(r) && r.keys.Active(a) && r.keys.Active(b)
    ensures r.keys.binaKeys[a].binaAddress == r.keys.binaKeys[b].binaAddress ==> a == b
  {
    assert KeysAreInverse(r.keys);
  }
}
