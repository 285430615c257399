/** The FastPath identity registry as a state machine on values: links, BINA keys and the fee books. */
module IdentityStates {
  import opened Wrappers
  import opened Sums

  type EvmAddress = nat
  /** A caller is never the zero address. */
  type Caller = s: nat | s > 0 witness 1
  type Hash160 = nat
  type BinaAddress = nat

  const MAX_REGISTRATION_FEE: nat := 1_000_000_000_000_000_000
  const BINA_KEY_ROTATION_COOLDOWN: nat := 259_200
  const INITIAL_RELINK_COOLDOWN: nat := 259_200
  const ONE_HOUR: nat := 3_600

  datatype Error =
    | NotOwner | InsufficientFee | AddressAlreadyRegistered | AddressNotRegistered | InvalidSignature | InvalidPublicKey
    | SignatureSMustBeLowOrder | PointNotOnCurve | TransferFailed | RelinkDisabled | CooldownActive | PendingRelinkExists
    | PendingRelinkMissing | NewEvmAlreadyRegistered | NotCurrentOwner | CooldownTooSmall | NoFeesToWithdraw | ZeroHash160
    | FeeTooHigh | NotPendingOwner | ZeroAddress | NotNewEvmOwner | NotPendingRelinkOwner | EmergencyStopActive | ZeroValue
    | Hash160NotRegistered | DirectEvmPreferred | NoPendingFunds | BinaKeyAlreadyRegistered | NoBinaKey
    | BinaKeyCooldownActive | InvalidBinaKey | NotPayable | Underflow

  datatype PendingRelink = PendingRelink(newEvm: EvmAddress, unlockTime: nat)

  datatype Links = Links(
    btcToEvm: map<Hash160, EvmAddress>,
    evmToBtc: map<EvmAddress, Hash160>,
    activeEvm: map<Hash160, EvmAddress>,
    lastLinkTime: map<Hash160, nat>,
    pendingRelinks: map<Hash160, PendingRelink>)

  /** The public commitment of a key to its derivation context, under an ideal hash. */
  datatype Derivation = NoDerivation | Derivation(evm: EvmAddress, hash160: Hash160, bina: BinaAddress, keyHash: nat)

  datatype BinaKey = BinaKey(
    ed25519: nat, keyHash: nat, derivation: Derivation, binaAddress: BinaAddress, registeredAt: nat,
    registeredBy: EvmAddress, active: bool)

  datatype Keys = Keys(
    binaKeys: map<Hash160, BinaKey>,
    toBina: map<Hash160, BinaAddress>,
    fromBina: map<BinaAddress, Hash160>,
    lastRotation: map<Hash160, nat>)
  {
    predicate Active(hash160: Hash160) {
      hash160 in binaKeys && binaKeys[hash160].active
    }
  }

  /** Fees and pending withdrawals, with the ether the contract has received and not paid out. */
  datatype Money = Money(fees: nat, withdrawals: map<EvmAddress, nat>, balance: nat)

  datatype Preference = DirectEVM | ViaHash160

  datatype Admin = Admin(
    owner: EvmAddress, pendingOwner: EvmAddress, registrationFee: nat, relinkEnabled: bool, relinkCooldown: nat,
    emergencyStop: bool)

  datatype Registry = Registry(admin: Admin, links: Links, keys: Keys, money: Money, preferences: map<EvmAddress, Preference>)

  datatype Env = Env(sender: Caller, value: nat, now: nat, payoutOk: bool)

  function Deploy(deployer: Caller, fee: nat): Result<Registry, Error> {
    if fee > MAX_REGISTRATION_FEE then Failure(FeeTooHigh)
    else Success(Registry(
      Admin(deployer, 0, fee, false, INITIAL_RELINK_COOLDOWN, false),
      Links(map[], map[], map[], map[], map[]),
      Keys(map[], map[], map[], map[]),
      Money(0, map[], 0),
      map[]))
  }

  // ---------------------------------------------------------------- registration and relinking

  /** The public key behind a registration: its hash160, or the error its key and signature checks end in. */
  datatype KeyProof = KeyProof(hash160: Hash160, error: Option<Error>)

  function Link(links: Links, hash160: Hash160, evm: EvmAddress, now: nat): Links {
    links.(evmToBtc := links.evmToBtc[evm := hash160],
           activeEvm := links.activeEvm[hash160 := evm],
           lastLinkTime := links.lastLinkTime[hash160 := now])
  }

  function RegisterBitcoinAddress(fee: nat, links: Links, money: Money, env: Env, proof: KeyProof): Result<(Links, Money), Error> {
    if env.value < fee then Failure(InsufficientFee)
    else if At(links.evmToBtc, env.sender) != 0 then Failure(AddressAlreadyRegistered)
    else if proof.error.Some? then Failure(proof.error.value)
    else if proof.hash160 == 0 then Failure(ZeroHash160)
    else if At(links.btcToEvm, proof.hash160) != 0 then Failure(AddressAlreadyRegistered)
    else Success((
      Link(links, proof.hash160, env.sender, env.now).(btcToEvm := links.btcToEvm[proof.hash160 := env.sender]),
      money.(fees := money.fees + env.value, balance := money.balance + env.value)))
  }

  function InitiateRelink(admin: Admin, links: Links, env: Env, hash160: Hash160, newEvm: EvmAddress, shape: Option<Error>,
                          proof: KeyProof): Result<Links, Error>
  {
    if admin.emergencyStop then Failure(EmergencyStopActive)
    else if shape.Some? then Failure(shape.value)
    else if hash160 == 0 then Failure(ZeroHash160)
    else if !admin.relinkEnabled then Failure(RelinkDisabled)
    else if At(links.btcToEvm, hash160) == 0 then Failure(AddressNotRegistered)
    else if newEvm == 0 then Failure(ZeroAddress)
    else if newEvm != env.sender then Failure(NotNewEvmOwner)
    else if hash160 in links.pendingRelinks then Failure(PendingRelinkExists)
    else if At(links.evmToBtc, newEvm) != 0 then Failure(NewEvmAlreadyRegistered)
    else if env.now < At(links.lastLinkTime, hash160) + admin.relinkCooldown then Failure(CooldownActive)
    else if proof.hash160 != hash160 then Failure(InvalidPublicKey)
    else if proof.error.Some? then Failure(proof.error.value)
    else Success(links.(pendingRelinks :=
      links.pendingRelinks[hash160 := PendingRelink(newEvm, env.now + admin.relinkCooldown)]))
  }

  function FinalizeRelink(admin: Admin, links: Links, env: Env, hash160: Hash160): Result<Links, Error> {
    if admin.emergencyStop then Failure(EmergencyStopActive)
    else if hash160 !in links.pendingRelinks then Failure(PendingRelinkMissing)
    else
      var pending := links.pendingRelinks[hash160];
      if env.sender != pending.newEvm then Failure(NotPendingRelinkOwner)
      else if env.now < pending.unlockTime then Failure(CooldownActive)
      else if At(links.btcToEvm, hash160) == 0 then Failure(AddressNotRegistered)
      else if At(links.evmToBtc, pending.newEvm) != 0 then Failure(NewEvmAlreadyRegistered)
      else Success(Link(links, hash160, pending.newEvm, env.now).(pendingRelinks := links.pendingRelinks - {hash160}))
  }

  function CancelRelink(admin: Admin, links: Links, env: Env, hash160: Hash160): Result<Links, Error> {
    if admin.emergencyStop then Failure(EmergencyStopActive)
    else if At(links.activeEvm, hash160) == 0 then Failure(AddressNotRegistered)
    else if env.sender != At(links.activeEvm, hash160) then Failure(NotCurrentOwner)
    else if hash160 !in links.pendingRelinks then Failure(PendingRelinkMissing)
    else Success(links.(pendingRelinks := links.pendingRelinks - {hash160}))
  }

  // ---------------------------------------------------------------- BINA keys

  /** A key offered by a caller for a hash160. */
  datatype KeyOffer = KeyOffer(binaAddress: BinaAddress, ed25519: nat, keyHash: nat, derivation: Derivation)

  function CheckOffer(links: Links, env: Env, hash160: Hash160, offer: KeyOffer): Option<Error> {
    if hash160 == 0 then Some(ZeroHash160)
    else if At(links.activeEvm, hash160) != env.sender then Some(NotCurrentOwner)
    else if offer.binaAddress == 0 || offer.ed25519 == 0 || offer.keyHash == 0 || offer.derivation.NoDerivation?
    then Some(InvalidBinaKey)
    else None
  }

  function Derived(offer: KeyOffer, hash160: Hash160, env: Env): bool {
    offer.derivation == Derivation(env.sender, hash160, offer.binaAddress, offer.keyHash)
  }

  function KeyFrom(offer: KeyOffer, env: Env): BinaKey {
    BinaKey(offer.ed25519, offer.keyHash, offer.derivation, offer.binaAddress, env.now, env.sender, true)
  }

  function RegisterBinaKey(links: Links, keys: Keys, env: Env, hash160: Hash160, offer: KeyOffer): Result<Keys, Error> {
    match CheckOffer(links, env, hash160, offer)
    case Some(error) => Failure(error)
    case None =>
      if keys.Active(hash160) then Failure(BinaKeyAlreadyRegistered)
      else if At(keys.fromBina, offer.binaAddress) != 0 then Failure(BinaKeyAlreadyRegistered)
      else if !Derived(offer, hash160, env) then Failure(InvalidBinaKey)
      else Success(Keys(
        keys.binaKeys[hash160 := KeyFrom(offer, env)],
        keys.toBina[hash160 := offer.binaAddress],
        keys.fromBina[offer.binaAddress := hash160],
        keys.lastRotation[hash160 := env.now]))
  }

  function RotateBinaKey(links: Links, keys: Keys, env: Env, hash160: Hash160, offer: KeyOffer): Result<Keys, Error> {
    match CheckOffer(links, env, hash160, offer)
    case Some(error) => Failure(error)
    case None =>
      var holder := At(keys.fromBina, offer.binaAddress);
      if !keys.Active(hash160) then Failure(NoBinaKey)
      else if !Derived(offer, hash160, env) then Failure(InvalidBinaKey)
      else if holder != 0 && holder != hash160 then Failure(BinaKeyAlreadyRegistered)
      else if env.now < At(keys.lastRotation, hash160) + BINA_KEY_ROTATION_COOLDOWN then Failure(BinaKeyCooldownActive)
      else
        var previous := At(keys.toBina, hash160);
        Success(Keys(
          keys.binaKeys[hash160 := KeyFrom(offer, env)],
          keys.toBina[hash160 := offer.binaAddress],
          (keys.fromBina - {previous})[offer.binaAddress := hash160],
          keys.lastRotation[hash160 := env.now]))
  }

  function DeactivateBinaKey(links: Links, keys: Keys, env: Env, hash160: Hash160): Result<Keys, Error> {
    if hash160 == 0 then Failure(ZeroHash160)
    else if At(links.activeEvm, hash160) != env.sender then Failure(NotCurrentOwner)
    else if !keys.Active(hash160) then Failure(NoBinaKey)
    else Success(keys.(
      binaKeys := keys.binaKeys[hash160 := keys.binaKeys[hash160].(active := false)],
      fromBina := keys.fromBina - {At(keys.toBina, hash160)},
      toBina := keys.toBina - {hash160}))
  }

  // ---------------------------------------------------------------- money

  /** Opt-out: unset preferences read as ViaHash160. */
  function PreferenceOf(preferences: map<EvmAddress, Preference>, user: EvmAddress): Preference {
    if user in preferences then preferences[user] else ViaHash160
  }

  function ReceiveFunds(r: Registry, env: Env, hash160: Hash160): Result<Money, Error> {
    var receiver := At(r.links.activeEvm, hash160);
    if hash160 == 0 then Failure(ZeroHash160)
    else if env.value == 0 then Failure(ZeroValue)
    else if receiver == 0 then Failure(Hash160NotRegistered)
    else if PreferenceOf(r.preferences, receiver) != ViaHash160 then Failure(DirectEvmPreferred)
    else Success(r.money.(
      withdrawals := r.money.withdrawals[receiver := At(r.money.withdrawals, receiver) + env.value],
      balance := r.money.balance + env.value))
  }

  /** An external payout of `amount`; a failure reverts the whole call. */
  function PayOut(money: Money, env: Env, amount: nat): Result<Money, Error> {
    if !env.payoutOk then Failure(TransferFailed)
    else if amount > money.balance then Failure(Underflow)
    else Success(money.(balance := money.balance - amount))
  }

  function WithdrawPendingFunds(money: Money, env: Env): Result<Money, Error> {
    var amount := At(money.withdrawals, env.sender);
    if amount == 0 then Failure(NoPendingFunds)
    else PayOut(money.(withdrawals := money.withdrawals[env.sender := 0]), env, amount)
  }

  function WithdrawFees(owner: EvmAddress, money: Money, env: Env): Result<Money, Error> {
    if env.sender != owner then Failure(NotOwner)
    else if money.fees == 0 then Failure(NoFeesToWithdraw)
    else PayOut(money.(fees := 0), env, money.fees)
  }

  /** A plain transfer to the contract counts as fees. */
  function ReceiveEther(money: Money, env: Env): Money {
    money.(fees := money.fees + env.value, balance := money.balance + env.value)
  }

  // ---------------------------------------------------------------- administration

  datatype AdminCall =
    | SettingFee(fee: nat)
    | TransferringOwnership(newOwner: EvmAddress)
    | AcceptingOwnership
    | SettingRelinkEnabled(enabled: bool)
    | SettingRelinkCooldown(cooldown: nat)
    | SettingEmergencyStop(disable: bool)

  function Administer(admin: Admin, env: Env, call: AdminCall): Result<Admin, Error> {
    if call.AcceptingOwnership? then
      if env.sender != admin.pendingOwner then Failure(NotPendingOwner)
      else Success(admin.(owner := admin.pendingOwner, pendingOwner := 0))
    else if env.sender != admin.owner then Failure(NotOwner)
    else
      match call
      case SettingFee(fee) => if fee > MAX_REGISTRATION_FEE then Failure(FeeTooHigh) else Success(admin.(registrationFee := fee))
      case TransferringOwnership(newOwner) =>
        if newOwner == 0 then Failure(ZeroAddress) else Success(admin.(pendingOwner := newOwner))
      case AcceptingOwnership => Success(admin)
      case SettingRelinkEnabled(enabled) => Success(admin.(relinkEnabled := enabled))
      case SettingRelinkCooldown(cooldown) =>
        if cooldown < ONE_HOUR then Failure(CooldownTooSmall) else Success(admin.(relinkCooldown := cooldown))
      case SettingEmergencyStop(disable) => Success(admin.(emergencyStop := disable))
  }

  // ---------------------------------------------------------------- calls and runs

  datatype Call =
    | Registering(proof: KeyProof)
    | InitiatingRelink(hash160: Hash160, newEvm: EvmAddress, shape: Option<Error>, proof: KeyProof)
    | FinalizingRelink(hash160: Hash160)
    | CancellingRelink(hash160: Hash160)
    | RegisteringKey(hash160: Hash160, offer: KeyOffer)
    | RotatingKey(hash160: Hash160, offer: KeyOffer)
    | DeactivatingKey(hash160: Hash160)
    | SettingPreference(preference: Preference)
    | ReceivingFunds(hash160: Hash160)
    | WithdrawingPending
    | WithdrawingFees
    | ReceivingEther
    | Administering(admin: AdminCall)

  /** A call with ether attached to an entry point that takes none. */
  function NonPayable<T>(env: Env, result: Result<T, Error>): Result<T, Error> {
    if env.value > 0 then Failure(NotPayable) else result
  }

  predicate Payable(call: Call) {
    call.Registering? || call.ReceivingFunds? || call.ReceivingEther?
  }

  function WithLinks(r: Registry, result: Result<Links, Error>): Result<Registry, Error> {
    match result case Success(links) => Success(r.(links := links)) case Failure(error) => Failure(error)
  }

  function WithKeys(r: Registry, result: Result<Keys, Error>): Result<Registry, Error> {
    match result case Success(keys) => Success(r.(keys := keys)) case Failure(error) => Failure(error)
  }

  function WithMoney(r: Registry, result: Result<Money, Error>): Result<Registry, Error> {
    match result case Success(money) => Success(r.(money := money)) case Failure(error) => Failure(error)
  }

  function WithLinksAndMoney(r: Registry, result: Result<(Links, Money), Error>): Result<Registry, Error> {
    match result case Success((links, money)) => Success(r.(links := links, money := money)) case Failure(error) => Failure(error)
  }

  function WithAdmin(r: Registry, result: Result<Admin, Error>): Result<Registry, Error> {
    match result case Success(admin) => Success(r.(admin := admin)) case Failure(error) => Failure(error)
  }

  function Execute(r: Registry, env: Env, call: Call): Result<Registry, Error> {
    if Payable(call) then ExecutePayable(r, env, call) else NonPayable(env, ExecuteNonPayable(r, env, call))
  }

  function ExecutePayable(r: Registry, env: Env, call: Call): Result<Registry, Error>
    requires Payable(call)
  {
    match call
    case Registering(proof) =>
      WithLinksAndMoney(r, RegisterBitcoinAddress(r.admin.registrationFee, r.links, r.money, env, proof))
    case ReceivingFunds(hash160) => WithMoney(r, ReceiveFunds(r, env, hash160))
    case ReceivingEther => Success(r.(money := ReceiveEther(r.money, env)))
  }

  function ExecuteNonPayable(r: Registry, env: Env, call: Call): Result<Registry, Error>
    requires !Payable(call)
  {
    match call
    case InitiatingRelink(hash160, newEvm, shape, proof) =>
      WithLinks(r, InitiateRelink(r.admin, r.links, env, hash160, newEvm, shape, proof))
    case FinalizingRelink(hash160) => WithLinks(r, FinalizeRelink(r.admin, r.links, env, hash160))
    case CancellingRelink(hash160) => WithLinks(r, CancelRelink(r.admin, r.links, env, hash160))
    case RegisteringKey(hash160, offer) => WithKeys(r, RegisterBinaKey(r.links, r.keys, env, hash160, offer))
    case RotatingKey(hash160, offer) => WithKeys(r, RotateBinaKey(r.links, r.keys, env, hash160, offer))
    case DeactivatingKey(hash160) => WithKeys(r, DeactivateBinaKey(r.links, r.keys, env, hash160))
    case SettingPreference(preference) => Success(r.(preferences := r.preferences[env.sender := preference]))
    case WithdrawingPending => WithMoney(r, WithdrawPendingFunds(r.money, env))
    case WithdrawingFees => WithMoney(r, WithdrawFees(r.admin.owner, r.money, env))
    case Administering(call) => WithAdmin(r, Administer(r.admin, env, call))
  }

  datatype Transaction = Transaction(env: Env, call: Call)

  function Step(r: Registry, tx: Transaction): Registry {
    match Execute(r, tx.env, tx.call)
    case Success(next) => next
    case Failure(_) => r
  }

  function Run(r: Registry, txs: seq<Transaction>): Registry {
    if txs == [] then r else Step(Run(r, txs[..|txs|-1]), txs[|txs|-1])
  }
}
