/** The FastPath identity registry's storage, updated in place, each entry point proved to take its step on values. */
module Identities {
  import opened Wrappers
  import opened Sums
  import opened IdentityStates
  import opened IdentityInvariants

  class FastPathIdentity {
    var owner: EvmAddress
    var pendingOwner: EvmAddress
    var registrationFee: nat
    var relinkEnabled: bool
    var relinkCooldown: nat
    var emergencyStop: bool
    var btcToEvm: map<Hash160, EvmAddress>
    var evmToBtc: map<EvmAddress, Hash160>
    var activeEvm: map<Hash160, EvmAddress>
    var lastLinkTime: map<Hash160, nat>
    var pendingRelinks: map<Hash160, PendingRelink>
    var binaKeys: map<Hash160, BinaKey>
    var hash160ToBinaAddress: map<Hash160, BinaAddress>
    var binaAddressToHash160: map<BinaAddress, Hash160>
    var lastBinaKeyRotation: map<Hash160, nat>
    var accumulatedFees: nat
    var pendingWithdrawals: map<EvmAddress, nat>
    var balance: nat
    var receivePreference: map<EvmAddress, Preference>

    ghost function AdminState(): Admin
      reads this
    {
      Admin(owner, pendingOwner, registrationFee, relinkEnabled, relinkCooldown, emergencyStop)
    }

    ghost function LinksState(): Links
      reads this
    {
      Links(btcToEvm, evmToBtc, activeEvm, lastLinkTime, pendingRelinks)
    }

    ghost function KeysState(): Keys
      reads this
    {
      Keys(binaKeys, hash160ToBinaAddress, binaAddressToHash160, lastBinaKeyRotation)
    }

    ghost function MoneyState(): Money
      reads this
    {
      Money(accumulatedFees, pendingWithdrawals, balance)
    }

    ghost function State(): Registry
      reads this
    {
      Registry(AdminState(), LinksState(), KeysState(), MoneyState(), receivePreference)
    }

    /** What every external call may rely on and leaves in place. */
    ghost predicate Valid()
      reads this
    {
      Inv(State())
    }

    constructor (deployer: Caller, fee: nat)
      requires fee <= MAX_REGISTRATION_FEE
      ensures Deploy(deployer, fee) == Success(State()) && Valid()
    {
      owner, pendingOwner, registrationFee := deployer, 0, fee;
      relinkEnabled, relinkCooldown, emergencyStop := false, INITIAL_RELINK_COOLDOWN, false;
      btcToEvm, evmToBtc, activeEvm, lastLinkTime, pendingRelinks := map[], map[], map[], map[], map[];
      binaKeys, hash160ToBinaAddress, binaAddressToHash160, lastBinaKeyRotation := map[], map[], map[], map[];
      accumulatedFees, pendingWithdrawals, balance, receivePreference := 0, map[], 0, map[];
      new;
      DeployedInv(deployer, fee);
    }

    method RegisterBitcoinAddress(env: Env, proof: KeyProof) returns (result: Result<(), Error>)
      requires Valid()
      modifies this`btcToEvm, this`evmToBtc, this`lastLinkTime, this`activeEvm, this`accumulatedFees, this`balance
      ensures match IdentityStates.RegisterBitcoinAddress(old(registrationFee), old(LinksState()), old(MoneyState()), env, proof)
              case Success((links, money)) => result.Success? && LinksState() == links && MoneyState() == money
              case Failure(error) => result == Failure(error) && State() == old(State())
      ensures Valid() && Follows(old(LinksState()), LinksState(), env.now)
    {
      hide Inv, Follows, Link;
      FollowsItself(LinksState(), env.now);
      RegisteringKeepsInv(State(), env, proof);
      if env.value < registrationFee {
        return Failure(InsufficientFee);
      }
      if At(evmToBtc, env.sender) != 0 {
        return Failure(AddressAlreadyRegistered);
      }
      if proof.error.Some? {
        return Failure(proof.error.value);
      }
      if proof.hash160 == 0 {
        return Failure(ZeroHash160);
      }
      if At(btcToEvm, proof.hash160) != 0 {
        return Failure(AddressAlreadyRegistered);
      }
      WriteRegistration(env, proof.hash160);
      return Success(());
    }

    /** The first link of a hash160, and the fee for it. */
    method WriteRegistration(env: Env, hash160: Hash160)
      modifies this`btcToEvm, this`evmToBtc, this`lastLinkTime, this`activeEvm, this`accumulatedFees, this`balance
      ensures LinksState() == Link(old(LinksState()), hash160, env.sender, env.now)
                                .(btcToEvm := old(btcToEvm)[hash160 := env.sender])
      ensures MoneyState() == old(MoneyState()).(fees := old(accumulatedFees) + env.value, balance := old(balance) + env.value)
    {
      btcToEvm := btcToEvm[hash160 := env.sender];
      WriteLink(hash160, env.sender, env.now);
      accumulatedFees := accumulatedFees + env.value;
      balance := balance + env.value;
    }

    /** The three writes that hand a hash160 to a controller. */
    method WriteLink(hash160: Hash160, evm: EvmAddress, now: nat)
      modifies this`evmToBtc, this`activeEvm, this`lastLinkTime
      ensures LinksState() == Link(old(LinksState()), hash160, evm, now)
    {
      evmToBtc := evmToBtc[evm := hash160];
      lastLinkTime := lastLinkTime[hash160 := now];
      activeEvm := activeEvm[hash160 := evm];
    }

    method InitiateRelink(env: Env, hash160: Hash160, newEvm: EvmAddress, shape: Option<Error>, proof: KeyProof)
      returns (result: Result<(), Error>)
      requires Valid()
      modifies this`pendingRelinks
      ensures match NonPayable(
                      env, IdentityStates.InitiateRelink(
                             old(AdminState()), old(LinksState()), env, hash160, newEvm, shape, proof))
              case Success(links) => result.Success? && LinksState() == links
              case Failure(error) => result == Failure(error) && State() == old(State())
      ensures Valid() && Follows(old(LinksState()), LinksState(), env.now)
    {
      hide Inv, Follows;
      FollowsItself(LinksState(), env.now);
      InitiatingKeepsInv(State(), env, hash160, newEvm, shape, proof);
      if env.value > 0 {
        return Failure(NotPayable);
      }
      if emergencyStop {
        return Failure(EmergencyStopActive);
      }
      if shape.Some? {
        return Failure(shape.value);
      }
      if hash160 == 0 {
        return Failure(ZeroHash160);
      }
      if !relinkEnabled {
        return Failure(RelinkDisabled);
      }
      if At(btcToEvm, hash160) == 0 {
        return Failure(AddressNotRegistered);
      }
      if newEvm == 0 {
        return Failure(ZeroAddress);
      }
      if newEvm != env.sender {
        return Failure(NotNewEvmOwner);
      }
      if hash160 in pendingRelinks {
        return Failure(PendingRelinkExists);
      }
      if At(evmToBtc, newEvm) != 0 {
        return Failure(NewEvmAlreadyRegistered);
      }
      if env.now < At(lastLinkTime, hash160) + relinkCooldown {
        return Failure(CooldownActive);
      }
      if proof.hash160 != hash160 {
        return Failure(InvalidPublicKey);
      }
      if proof.error.Some? {
        return Failure(proof.error.value);
      }
      pendingRelinks := pendingRelinks[hash160 := PendingRelink(newEvm, env.now + relinkCooldown)];
      return Success(());
    }

    method FinalizeRelink(env: Env, hash160: Hash160) returns (result: Result<(), Error>)
      requires Valid()
      modifies this`evmToBtc, this`activeEvm, this`lastLinkTime, this`pendingRelinks
      ensures match NonPayable(env, IdentityStates.FinalizeRelink(old(AdminState()), old(LinksState()), env, hash160))
              case Success(links) => result.Success? && LinksState() == links
              case Failure(error) => result == Failure(error) && State() == old(State())
      ensures Valid() && Follows(old(LinksState()), LinksState(), env.now)
    {
      hide Inv, Follows, Link;
      FollowsItself(LinksState(), env.now);
      FinalizingKeepsInv(State(), env, hash160);
      if env.value > 0 {
        return Failure(NotPayable);
      }
      if emergencyStop {
        return Failure(EmergencyStopActive);
      }
      if hash160 !in pendingRelinks {
        return Failure(PendingRelinkMissing);
      }
      var pending := pendingRelinks[hash160];
      if env.sender != pending.newEvm {
        return Failure(NotPendingRelinkOwner);
      }
      if env.now < pending.unlockTime {
        return Failure(CooldownActive);
      }
      if At(btcToEvm, hash160) == 0 {
        return Failure(AddressNotRegistered);
      }
      if At(evmToBtc, pending.newEvm) != 0 {
        return Failure(NewEvmAlreadyRegistered);
      }
      WriteLink(hash160, pending.newEvm, env.now);
      pendingRelinks := pendingRelinks - {hash160};
      return Success(());
    }

    method CancelRelink(env: Env, hash160: Hash160) returns (result: Result<(), Error>)
      requires Valid()
      modifies this`pendingRelinks
      ensures match NonPayable(env, IdentityStates.CancelRelink(old(AdminState()), old(LinksState()), env, hash160))
              case Success(links) => result.Success? && LinksState() == links
              case Failure(error) => result == Failure(error) && State() == old(State())
      ensures Valid() && Follows(old(LinksState()), LinksState(), env.now)
    {
      hide Inv, Follows;
      FollowsItself(LinksState(), env.now);
      CancellingKeepsInv(State(), env, hash160);
      if env.value > 0 {
        return Failure(NotPayable);
      }
      if emergencyStop {
        return Failure(EmergencyStopActive);
      }
      var currentOwner := At(activeEvm, hash160);
      if currentOwner == 0 {
        return Failure(AddressNotRegistered);
      }
      if env.sender != currentOwner {
        return Failure(NotCurrentOwner);
      }
      if hash160 !in pendingRelinks {
        return Failure(PendingRelinkMissing);
      }
      pendingRelinks := pendingRelinks - {hash160};
      return Success(());
    }

    method RegisterBinaKey(env: Env, hash160: Hash160, offer: KeyOffer) returns (result: Result<(), Error>)
      requires Valid()
      modifies this`binaKeys, this`hash160ToBinaAddress, this`binaAddressToHash160, this`lastBinaKeyRotation
      ensures match NonPayable(env, IdentityStates.RegisterBinaKey(old(LinksState()), old(KeysState()), env, hash160, offer))
              case Success(keys) => result.Success? && KeysState() == keys
              case Failure(error) => result == Failure(error) && State() == old(State())
      ensures Valid()
    {
      hide Inv, Follows;
      RegisteringKeyKeepsInv(State(), env, hash160, offer);
      if env.value > 0 {
        return Failure(NotPayable);
      }
      if hash160 == 0 {
        return Failure(ZeroHash160);
      }
      if At(activeEvm, hash160) != env.sender {
        return Failure(NotCurrentOwner);
      }
      if offer.binaAddress == 0 || offer.ed25519 == 0 || offer.keyHash == 0 || offer.derivation.NoDerivation? {
        return Failure(InvalidBinaKey);
      }
      if hash160 in binaKeys && binaKeys[hash160].active {
        return Failure(BinaKeyAlreadyRegistered);
      }
      if At(binaAddressToHash160, offer.binaAddress) != 0 {
        return Failure(BinaKeyAlreadyRegistered);
      }
      if offer.derivation != Derivation(env.sender, hash160, offer.binaAddress, offer.keyHash) {
        return Failure(InvalidBinaKey);
      }
      WriteKey(env, hash160, offer);
      return Success(());
    }

    /** The key and its address in both directions. */
    method WriteKey(env: Env, hash160: Hash160, offer: KeyOffer)
      modifies this`binaKeys, this`hash160ToBinaAddress, this`binaAddressToHash160, this`lastBinaKeyRotation
      ensures KeysState() == Keys(
        old(binaKeys)[hash160 := KeyFrom(offer, env)], old(hash160ToBinaAddress)[hash160 := offer.binaAddress],
        old(binaAddressToHash160)[offer.binaAddress := hash160], old(lastBinaKeyRotation)[hash160 := env.now])
    {
      binaKeys := binaKeys[hash160 :=
        BinaKey(offer.ed25519, offer.keyHash, offer.derivation, offer.binaAddress, env.now, env.sender, true)];
      hash160ToBinaAddress := hash160ToBinaAddress[hash160 := offer.binaAddress];
      binaAddressToHash160 := binaAddressToHash160[offer.binaAddress := hash160];
      lastBinaKeyRotation := lastBinaKeyRotation[hash160 := env.now];
    }

    method RotateBinaKey(env: Env, hash160: Hash160, offer: KeyOffer) returns (result: Result<(), Error>)
      requires Valid()
      modifies this`binaKeys, this`hash160ToBinaAddress, this`binaAddressToHash160, this`lastBinaKeyRotation
      ensures match NonPayable(env, IdentityStates.RotateBinaKey(old(LinksState()), old(KeysState()), env, hash160, offer))
              case Success(keys) => result.Success? && KeysState() == keys
              case Failure(error) => result == Failure(error) && State() == old(State())
      ensures Valid()
    {
      hide Inv, Follows;
      RotatingKeyKeepsInv(State(), env, hash160, offer);
      if env.value > 0 {
        return Failure(NotPayable);
      }
      if hash160 == 0 {
        return Failure(ZeroHash160);
      }
      if At(activeEvm, hash160) != env.sender {
        return Failure(NotCurrentOwner);
      }
      if offer.binaAddress == 0 || offer.ed25519 == 0 || offer.keyHash == 0 || offer.derivation.NoDerivation? {
        return Failure(InvalidBinaKey);
      }
      if !(hash160 in binaKeys && binaKeys[hash160].active) {
        return Failure(NoBinaKey);
      }
      if offer.derivation != Derivation(env.sender, hash160, offer.binaAddress, offer.keyHash) {
        return Failure(InvalidBinaKey);
      }
      var registeredHash160 := At(binaAddressToHash160, offer.binaAddress);
      if registeredHash160 != 0 && registeredHash160 != hash160 {
        return Failure(BinaKeyAlreadyRegistered);
      }
      if env.now < At(lastBinaKeyRotation, hash160) + BINA_KEY_ROTATION_COOLDOWN {
        return Failure(BinaKeyCooldownActive);
      }
      binaAddressToHash160 := binaAddressToHash160 - {At(hash160ToBinaAddress, hash160)};
      WriteKey(env, hash160, offer);
      return Success(());
    }

    method DeactivateBinaKey(env: Env, hash160: Hash160) returns (result: Result<(), Error>)
      requires Valid()
      modifies this`binaKeys, this`hash160ToBinaAddress, this`binaAddressToHash160
      ensures match NonPayable(env, IdentityStates.DeactivateBinaKey(old(LinksState()), old(KeysState()), env, hash160))
              case Success(keys) => result.Success? && KeysState() == keys
              case Failure(error) => result == Failure(error) && State() == old(State())
      ensures Valid()
    {
      hide Inv, Follows;
      DeactivatingKeyKeepsInv(State(), env, hash160);
      if env.value > 0 {
        return Failure(NotPayable);
      }
      if hash160 == 0 {
        return Failure(ZeroHash160);
      }
      if At(activeEvm, hash160) != env.sender {
        return Failure(NotCurrentOwner);
      }
      if !(hash160 in binaKeys && binaKeys[hash160].active) {
        return Failure(NoBinaKey);
      }
      var binaAddress := At(hash160ToBinaAddress, hash160);
      binaKeys := binaKeys[hash160 := binaKeys[hash160].(active := false)];
      binaAddressToHash160 := binaAddressToHash160 - {binaAddress};
      hash160ToBinaAddress := hash160ToBinaAddress - {hash160};
      return Success(());
    }

    method SetReceivePreference(env: Env, preference: Preference) returns (result: Result<(), Error>)
      requires Valid()
      modifies this`receivePreference
      ensures result == NonPayable(env, Success(()))
      ensures receivePreference == if result.Success? then old(receivePreference)[env.sender := preference] else old(receivePreference)
      ensures Valid()
    {
      hide Inv, Follows;
      PreferringKeepsInv(State(), receivePreference[env.sender := preference]);
      if env.value > 0 {
        return Failure(NotPayable);
      }
      receivePreference := receivePreference[env.sender := preference];
      return Success(());
    }

    method ReceiveFunds(env: Env, hash160: Hash160) returns (result: Result<(), Error>)
      requires Valid()
      modifies this`pendingWithdrawals, this`balance
      ensures match IdentityStates.ReceiveFunds(old(State()), env, hash160)
              case Success(money) => result.Success? && MoneyState() == money
              case Failure(error) => result == Failure(error) && State() == old(State())
      ensures Valid() && result != Failure(Underflow)
    {
      hide Inv, Follows;
      ReceivingKeepsInv(State(), env, hash160);
      if hash160 == 0 {
        return Failure(ZeroHash160);
      }
      if env.value == 0 {
        return Failure(ZeroValue);
      }
      var receiver := At(activeEvm, hash160);
      if receiver == 0 {
        return Failure(Hash160NotRegistered);
      }
      if receiver in receivePreference && receivePreference[receiver] != ViaHash160 {
        return Failure(DirectEvmPreferred);
      }
      pendingWithdrawals := pendingWithdrawals[receiver := At(pendingWithdrawals, receiver) + env.value];
      balance := balance + env.value;
      return Success(());
    }

    /** A failed payout reverts the whole call, so it is decided before anything is written. */
    method WithdrawPendingFunds(env: Env) returns (result: Result<(), Error>)
      requires Valid()
      modifies this`pendingWithdrawals, this`balance
      ensures match NonPayable(env, IdentityStates.WithdrawPendingFunds(old(MoneyState()), env))
              case Success(money) => result.Success? && MoneyState() == money
              case Failure(error) => result == Failure(error) && State() == old(State())
      ensures Valid() && result != Failure(Underflow)
    {
      hide Inv, Follows;
      WithdrawingKeepsInv(State(), env);
      if env.value > 0 {
        return Failure(NotPayable);
      }
      var amount := At(pendingWithdrawals, env.sender);
      if amount == 0 {
        return Failure(NoPendingFunds);
      }
      if !env.payoutOk {
        return Failure(TransferFailed);
      }
      if amount > balance {
        return Failure(Underflow);
      }
      pendingWithdrawals := pendingWithdrawals[env.sender := 0];
      balance := balance - amount;
      return Success(());
    }

    method WithdrawFees(env: Env) returns (result: Result<(), Error>)
      requires Valid()
      modifies this`accumulatedFees, this`balance
      ensures match NonPayable(env, IdentityStates.WithdrawFees(old(owner), old(MoneyState()), env))
              case Success(money) => result.Success? && MoneyState() == money
              case Failure(error) => result == Failure(error) && State() == old(State())
      ensures Valid() && result != Failure(Underflow)
    {
      hide Inv, Follows;
      WithdrawingFeesKeepsInv(State(), env);
      if env.value > 0 {
        return Failure(NotPayable);
      }
      if env.sender != owner {
        return Failure(NotOwner);
      }
      if accumulatedFees == 0 {
        return Failure(NoFeesToWithdraw);
      }
      if !env.payoutOk {
        return Failure(TransferFailed);
      }
      if accumulatedFees > balance {
        return Failure(Underflow);
      }
      balance := balance - accumulatedFees;
      accumulatedFees := 0;
      return Success(());
    }

    method ReceiveEther(env: Env) returns (result: Result<(), Error>)
      requires Valid()
      modifies this`accumulatedFees, this`balance
      ensures result.Success?
      ensures accumulatedFees - old(accumulatedFees) == balance - old(balance) == env.value
      ensures Valid()
    {
      hide Inv, Follows;
      GivingKeepsInv(State(), env);
      accumulatedFees := accumulatedFees + env.value;
      balance := balance + env.value;
      return Success(());
    }

    /** The owner's settings, and the pending owner's acceptance. */
    method Administer(env: Env, call: AdminCall) returns (result: Result<(), Error>)
      requires Valid()
      modifies this`owner, this`pendingOwner, this`registrationFee, this`relinkEnabled, this`relinkCooldown, this`emergencyStop
      ensures match NonPayable(env, IdentityStates.Administer(old(AdminState()), env, call))
              case Success(admin) => result.Success? && AdminState() == admin
              case Failure(error) => result == Failure(error) && State() == old(State())
      ensures Valid()
    {
      hide Inv, Follows;
      AdministeringKeepsInv(State(), env, call);
      if env.value > 0 {
        return Failure(NotPayable);
      }
      if call.AcceptingOwnership? {
        if env.sender != pendingOwner {
          return Failure(NotPendingOwner);
        }
        owner, pendingOwner := pendingOwner, 0;
        return Success(());
      }
      if env.sender != owner {
        return Failure(NotOwner);
      }
      match call {
        case SettingFee(fee) =>
          if fee > MAX_REGISTRATION_FEE {
            return Failure(FeeTooHigh);
          }
          registrationFee := fee;
        case TransferringOwnership(newOwner) =>
          if newOwner == 0 {
            return Failure(ZeroAddress);
          }
          pendingOwner := newOwner;
        case SettingRelinkEnabled(enabled) => relinkEnabled := enabled;
        case SettingRelinkCooldown(cooldown) =>
          if cooldown < ONE_HOUR {
            return Failure(CooldownTooSmall);
          }
          relinkCooldown := cooldown;
        case SettingEmergencyStop(disable) => emergencyStop := disable;
      }
      return Success(());
    }
  }
}
