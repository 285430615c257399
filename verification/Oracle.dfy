/** The BinaOracle contract's storage, updated in place, each entry point proved to take its step on values. */
module Oracles {
  import opened Wrappers
  import opened Sums
  import opened OracleStates
  import opened OracleInvariants

  class BinaOracle {
    var owner: EvmAddress
    var publishers: set<EvmAddress>
    var requireFalcon: bool
    var quorum: nat
    var attestations: map<Word, Attestation>
    var attested: map<Word, set<EvmAddress>>
    var outputs: map<Word, StoredOutput>
    var usedNullifiers: set<Word>
    var latestSeed: map<Word, Word>
    var latestBlock: map<Word, Word>
    var latestHeight: map<Word, nat>
    var latestBtcHeight: map<Word, nat>
    var blockHashes: seq<Word>
    var bonds: map<EvmAddress, nat>
    var locked: map<EvmAddress, nat>
    var active: seq<EvmAddress>
    var index1: map<EvmAddress, nat>
    var commitments: map<nat, Commitment>
    var nextCommitmentId: nat
    var balance: nat
    ghost var history: seq<Finalised>

    ghost function AccessState(): Access
      reads this
    {
      Access(owner, publishers, requireFalcon, quorum)
    }

    ghost function BondingState(): Bonding
      reads this
    {
      Bonding(bonds, locked, active, index1, commitments, nextCommitmentId, balance)
    }

    ghost function PoolState(): Pool
      reads this
    {
      Pool(attestations, attested)
    }

    ghost function FeedState(): Feed
      reads this
    {
      Feed(outputs, usedNullifiers, blockHashes, Latest(latestHeight, latestSeed, latestBlock, latestBtcHeight), history)
    }

    ghost function State(): OracleState
      reads this
    {
      OracleState(AccessState(), BondingState(), PoolState(), FeedState())
    }

    /** What every external call may rely on and leaves in place. */
    ghost predicate Valid()
      reads this
    {
      Inv(State())
    }

    constructor (deployer: EvmAddress, initialPublisher: EvmAddress)
      ensures State() == Deployed(deployer, initialPublisher)
      ensures Valid()
    {
      owner := deployer;
      publishers := if initialPublisher != 0 then {deployer, initialPublisher} else {deployer};
      requireFalcon, quorum, nextCommitmentId, balance := false, 1, 1, 0;
      attestations, attested, outputs, usedNullifiers := map[], map[], map[], {};
      latestSeed, latestBlock, latestHeight, latestBtcHeight, blockHashes := map[], map[], map[], map[], [];
      bonds, locked, active, index1, commitments := map[], map[], [], map[], map[];
      history := [];
      new;
      DeployedInv(deployer, initialPublisher);
    }

    method SetPublisher(env: Env, publisher: EvmAddress, authorized: bool) returns (result: Result<(), Error>)
      requires Valid()
      modifies this`publishers, this`active, this`index1
      ensures match NonPayable<(Access, Bonding)>(
                      env, OracleStates.SetPublisher(old(AccessState()), old(BondingState()), env, publisher, authorized))
              case Success((access, b)) => result.Success? && AccessState() == access && BondingState() == b
              case Failure(error) => result == Failure(error) && State() == old(State())
      ensures Valid() && Follows(old(State()), State()) && result != Failure(Underflow)
    {
      hide Inv, Follows, RemoveActive;
      FollowsItself(State());
      SetPublisherKeepsInv(State(), env, publisher, authorized);
      if env.value > 0 {
        return Failure(NotPayable);
      }
      if env.sender != owner {
        return Failure(NotOwner);
      }
      if publisher == 0 {
        return Failure(ZeroAddress);
      }
      if authorized {
        publishers := publishers + {publisher};
      } else {
        publishers := publishers - {publisher};
        RemoveActivePublisher(publisher);
      }
      return Success(());
    }

    method TransferOwnership(env: Env, newOwner: EvmAddress) returns (result: Result<(), Error>)
      requires Valid()
      modifies this`owner
      ensures match NonPayable(env, OracleStates.TransferOwnership(old(AccessState()), env, newOwner))
              case Success(access) => result.Success? && AccessState() == access
              case Failure(error) => result == Failure(error) && State() == old(State())
      ensures Valid() && Follows(old(State()), State()) && result != Failure(Underflow)
    {
      hide Inv, Follows;
      FollowsItself(State());
      AccessCallKeepsInv(
        State(), env, TransferringOwnership(newOwner),
        NonPayable(env, OracleStates.TransferOwnership(AccessState(), env, newOwner)));
      if env.value > 0 {
        return Failure(NotPayable);
      }
      if env.sender != owner {
        return Failure(NotOwner);
      }
      if newOwner == 0 {
        return Failure(ZeroAddress);
      }
      owner := newOwner;
      return Success(());
    }

    method SetRequireFalcon(env: Env, required: bool) returns (result: Result<(), Error>)
      requires Valid()
      modifies this`requireFalcon
      ensures match NonPayable(env, OracleStates.SetRequireFalcon(old(AccessState()), env, required))
              case Success(access) => result.Success? && AccessState() == access
              case Failure(error) => result == Failure(error) && State() == old(State())
      ensures Valid() && Follows(old(State()), State()) && result != Failure(Underflow)
    {
      hide Inv, Follows;
      FollowsItself(State());
      AccessCallKeepsInv(
        State(), env, SettingFalcon(required), NonPayable(env, OracleStates.SetRequireFalcon(AccessState(), env, required)));
      if env.value > 0 {
        return Failure(NotPayable);
      }
      if env.sender != owner {
        return Failure(NotOwner);
      }
      requireFalcon := required;
      return Success(());
    }

    method SetQuorumThreshold(env: Env, threshold: nat) returns (result: Result<(), Error>)
      requires Valid()
      modifies this`quorum
      ensures match NonPayable(env, SetQuorum(old(AccessState()), env, threshold))
              case Success(access) => result.Success? && AccessState() == access
              case Failure(error) => result == Failure(error) && State() == old(State())
      ensures Valid() && Follows(old(State()), State()) && result != Failure(Underflow)
    {
      hide Inv, Follows;
      FollowsItself(State());
      AccessCallKeepsInv(State(), env, SettingQuorum(threshold), NonPayable(env, SetQuorum(AccessState(), env, threshold)));
      if env.value > 0 {
        return Failure(NotPayable);
      }
      if env.sender != owner {
        return Failure(NotOwner);
      }
      if threshold == 0 {
        return Failure(ZeroValue);
      }
      quorum := threshold;
      return Success(());
    }

    method DepositBond(env: Env) returns (result: Result<(), Error>)
      requires Valid()
      modifies this`bonds, this`balance, this`active, this`index1
      ensures match OracleStates.DepositBond(old(publishers), old(BondingState()), env)
              case Success(b) => result.Success? && BondingState() == b
              case Failure(error) => result == Failure(error) && State() == old(State())
      ensures Valid() && Follows(old(State()), State()) && result != Failure(Underflow)
    {
      hide Inv, Follows, OracleStates.DepositBond;
      FollowsItself(State());
      DepositKeepsInv(State(), env);
      result := Deposit(env);
    }

    /** The body of `depositBond`. */
    method Deposit(env: Env) returns (result: Result<(), Error>)
      modifies this`bonds, this`balance, this`active, this`index1
      ensures match OracleStates.DepositBond(old(publishers), old(BondingState()), env)
              case Success(b) => result.Success? && BondingState() == b
              case Failure(error) => result == Failure(error) && State() == old(State())
    {
      if env.sender !in publishers {
        return Failure(NotPublisher);
      }
      if env.value == 0 {
        return Failure(ZeroValue);
      }
      balance := balance + env.value;
      bonds := bonds[env.sender := At(bonds, env.sender) + env.value];
      if At(bonds, env.sender) >= MIN_PUBLISHER_BOND && At(index1, env.sender) == 0 {
        active := active + [env.sender];
        index1 := index1[env.sender := |active|];
      }
      return Success(());
    }

    /** A failed payout reverts the whole call, so it is decided before anything is written. */
    method WithdrawBond(env: Env, amount: nat) returns (result: Result<(), Error>)
      requires Valid()
      modifies this`bonds, this`balance, this`active, this`index1
      ensures match NonPayable(env, OracleStates.WithdrawBond(old(BondingState()), env, amount))
              case Success(b) => result.Success? && BondingState() == b
              case Failure(error) => result == Failure(error) && State() == old(State())
      ensures Valid() && Follows(old(State()), State()) && result != Failure(Underflow)
    {
      hide Inv, Follows, OracleStates.WithdrawBond;
      FollowsItself(State());
      WithdrawKeepsInv(State(), env, amount);
      if env.value > 0 {
        return Failure(NotPayable);
      }
      result := Withdraw(env, amount);
    }

    /** The body of `withdrawBond`: a failed payout reverts the whole call, so it is decided before anything is written. */
    method Withdraw(env: Env, amount: nat) returns (result: Result<(), Error>)
      modifies this`bonds, this`balance, this`active, this`index1
      ensures match OracleStates.WithdrawBond(old(BondingState()), env, amount)
              case Success(b) => result.Success? && BondingState() == b
              case Failure(error) => result == Failure(error) && State() == old(State())
    {
      var bond, lock := At(bonds, env.sender), At(locked, env.sender);
      if bond < lock {
        return Failure(Underflow);
      }
      if amount == 0 || amount > bond - lock {
        return Failure(InsufficientBond);
      }
      if !env.payoutOk {
        return Failure(TransferFailed);
      }
      if amount > balance {
        return Failure(Underflow);
      }
      TakeBond(env.sender, amount);
      balance := balance - amount;
      return Success(());
    }

    method TakeBond(publisher: EvmAddress, amount: nat)
      requires amount <= At(bonds, publisher)
      modifies this`bonds, this`active, this`index1
      ensures BondingState() == ReduceBond(old(BondingState()), publisher, amount)
    {
      bonds := bonds[publisher := At(bonds, publisher) - amount];
      if At(bonds, publisher) < MIN_PUBLISHER_BOND {
        RemoveActivePublisher(publisher);
      }
    }

    /** `_removeActivePublisher`: swap the last entry into the freed slot, then pop. */
    method RemoveActivePublisher(publisher: EvmAddress)
      modifies this`active, this`index1
      ensures (active, index1) == RemoveActive(old(active), old(index1), publisher)
    {
      var idx1 := At(index1, publisher);
      if idx1 == 0 || idx1 > |active| {
        return;
      }
      var lastIdx := |active| - 1;
      var lastPublisher := active[lastIdx];
      active := active[idx1 - 1 := lastPublisher];
      index1 := index1[lastPublisher := idx1];
      active := active[..lastIdx];
      index1 := index1[publisher := 0];
    }

    method RequestFuturePublication(env: Env, purpose: Word, targetHeight: nat, deadline: nat)
      returns (result: Result<nat, Error>)
      requires Valid()
      modifies this`locked, this`commitments, this`nextCommitmentId
      ensures match NonPayable(env, RequestFuture(old(BondingState()), env, purpose, targetHeight, deadline))
              case Success(b) => result == Success(old(nextCommitmentId)) && BondingState() == b
              case Failure(error) => result == Failure(error) && State() == old(State())
      ensures Valid() && Follows(old(State()), State()) && result != Failure(Underflow)
    {
      hide Inv, Follows;
      FollowsItself(State());
      RequestKeepsInv(State(), env, purpose, targetHeight, deadline);
      if env.value > 0 {
        return Failure(NotPayable);
      }
      if deadline <= env.now {
        return Failure(DeadlineInPast);
      }
      var n := |active|;
      if n == 0 {
        return Failure(NoActivePublishers);
      }
      var assignee := active[targetHeight % n];
      var bond, lock := At(bonds, assignee), At(locked, assignee);
      if bond < lock {
        return Failure(Underflow);
      }
      if bond - lock < COMMITMENT_SLASH_AMOUNT {
        return Failure(InsufficientFreeBond);
      }
      locked := locked[assignee := lock + COMMITMENT_SLASH_AMOUNT];
      var id := nextCommitmentId;
      nextCommitmentId := nextCommitmentId + 1;
      commitments := commitments[id := Commitment(Effective(purpose), targetHeight, deadline, assignee, false)];
      return Success(id);
    }

    method ResolveFutureCommitment(env: Env, id: nat) returns (result: Result<(), Error>)
      requires Valid()
      modifies this`locked, this`commitments, this`bonds, this`balance, this`active, this`index1
      ensures match NonPayable(env, Resolve(old(latestHeight), old(BondingState()), env, id))
              case Success(b) => result.Success? && BondingState() == b
              case Failure(error) => result == Failure(error) && State() == old(State())
      ensures Valid() && Follows(old(State()), State()) && result != Failure(Underflow)
    {
      hide Inv, Follows, Resolve;
      FollowsItself(State());
      ResolveKeepsInv(State(), env, id);
      if env.value > 0 {
        return Failure(NotPayable);
      }
      result := ResolveCommitment(env, id);
    }

    /** The body of `resolveFutureCommitment`: everything that can revert is decided before anything is written. */
    method ResolveCommitment(env: Env, id: nat) returns (result: Result<(), Error>)
      modifies this`locked, this`commitments, this`bonds, this`balance, this`active, this`index1
      ensures match Resolve(old(latestHeight), old(BondingState()), env, id)
              case Success(b) => result.Success? && BondingState() == b
              case Failure(error) => result == Failure(error) && State() == old(State())
    {
      if id !in commitments || commitments[id].deadline == 0 {
        return Failure(RequestNotFound);
      }
      var c := commitments[id];
      if c.resolved {
        return Failure(RequestAlreadyFulfilled);
      }
      var published := At(latestHeight, c.purpose) >= c.targetHeight;
      if !published && env.now < c.deadline {
        return Failure(DeadlineNotReached);
      }
      var lock := At(locked, c.assignedPublisher);
      var amount := if lock < COMMITMENT_SLASH_AMOUNT then lock else COMMITMENT_SLASH_AMOUNT;
      if !published {
        if At(bonds, c.assignedPublisher) < amount {
          return Failure(Underflow);
        }
        if !env.payoutOk {
          return Failure(TransferFailed);
        }
        if amount > balance {
          return Failure(Underflow);
        }
      }
      commitments := commitments[id := c.(resolved := true)];
      locked := locked[c.assignedPublisher := lock - amount];
      if published {
        return Success(());
      }
      TakeBond(c.assignedPublisher, amount);
      balance := balance - amount;
      return Success(());
    }

    /** Some named purpose is already past `height`. */
    method NamesLaterPurpose(purposes: seq<Word>, height: nat) returns (stale: bool)
      ensures stale <==> exists p :: p in EffectivePurposes(purposes) && height < At(latestHeight, p)
    {
      var named := EffectivePurposes(purposes);
      for i := 0 to |purposes|
        invariant forall j :: 0 <= j < i ==> height >= At(latestHeight, named[j])
      {
        if height < At(latestHeight, Effective(purposes[i])) {
          assert named[i] in named;
          return true;
        }
      }
      return false;
    }

    method SubmitOutput(env: Env, o: BinaOutput, purpose: Word, proofHash: Word) returns (result: Result<(), Error>)
      requires Valid()
      modifies this`attestations, this`attested, this`outputs, this`usedNullifiers, this`blockHashes,
        this`latestSeed, this`latestBlock, this`latestHeight, this`latestBtcHeight, this`history
      ensures match NonPayable<(Pool, Feed)>(
                      env, Submit(old(AccessState()), old(PoolState()), old(FeedState()), env, o, [purpose], proofHash))
              case Success((pool, feed)) => result.Success? && PoolState() == pool && FeedState() == feed
              case Failure(error) => result == Failure(error) && State() == old(State())
      ensures Valid() && Follows(old(State()), State()) && result != Failure(Underflow)
    {
      hide Inv, Follows, Submit;
      ghost var was := State();
      FollowsItself(was);
      SubmitKeepsInv(was, env, o, [purpose], proofHash);
      if env.value > 0 {
        return Failure(NotPayable);
      }
      result := SubmitAsPublisher(env, o, [purpose], proofHash);
      assert State() == was.(pool := PoolState(), feed := FeedState());
    }

    method SubmitOutputForPurposes(env: Env, o: BinaOutput, purposes: seq<Word>, proofHash: Word) returns (result: Result<(), Error>)
      requires Valid()
      modifies this`attestations, this`attested, this`outputs, this`usedNullifiers, this`blockHashes,
        this`latestSeed, this`latestBlock, this`latestHeight, this`latestBtcHeight, this`history
      ensures match NonPayable<(Pool, Feed)>(
                      env, Submit(old(AccessState()), old(PoolState()), old(FeedState()), env, o, purposes, proofHash))
              case Success((pool, feed)) => result.Success? && PoolState() == pool && FeedState() == feed
              case Failure(error) => result == Failure(error) && State() == old(State())
      ensures Valid() && Follows(old(State()), State()) && result != Failure(Underflow)
    {
      hide Inv, Follows, Submit;
      ghost var was := State();
      FollowsItself(was);
      SubmitKeepsInv(was, env, o, purposes, proofHash);
      if env.value > 0 {
        return Failure(NotPayable);
      }
      result := SubmitAsPublisher(env, o, purposes, proofHash);
      assert State() == was.(pool := PoolState(), feed := FeedState());
    }

    /** `onlyPublisher` and the rest of both submit entry points. */
    method SubmitAsPublisher(env: Env, o: BinaOutput, purposes: seq<Word>, proofHash: Word)
      returns (result: Result<(), Error>)
      modifies this`attestations, this`attested, this`outputs, this`usedNullifiers, this`blockHashes,
        this`latestSeed, this`latestBlock, this`latestHeight, this`latestBtcHeight, this`history
      ensures match Submit(old(AccessState()), old(PoolState()), old(FeedState()), env, o, purposes, proofHash)
              case Success((pool, feed)) => result.Success? && PoolState() == pool && FeedState() == feed
              case Failure(error) => result == Failure(error) && State() == old(State())
    {
      hide AttestAndMaybeFinalise;
      if env.sender !in publishers {
        return Failure(NotPublisher);
      }
      if purposes == [] {
        return Failure(ZeroValue);
      }
      result := AttestAndMaybeFinalize(env, o, purposes, proofHash);
    }

    /** `_attestAndMaybeFinalize`. */
    method AttestAndMaybeFinalize(env: Env, o: BinaOutput, purposes: seq<Word>, proofHash: Word)
      returns (result: Result<(), Error>)
      modifies this`attestations, this`attested, this`outputs, this`usedNullifiers, this`blockHashes,
        this`latestSeed, this`latestBlock, this`latestHeight, this`latestBtcHeight, this`history
      ensures match AttestAndMaybeFinalise(old(AccessState()), old(PoolState()), old(FeedState()), env, o, purposes, proofHash)
              case Success((pool, feed)) => result.Success? && PoolState() == pool && FeedState() == feed
              case Failure(error) => result == Failure(error) && State() == old(State())
    {
      hide ValidateOutput, Advance, EffectivePurposes, FinaliseOutput, Stored;
      var invalid := ValidateOutput(requireFalcon, env.now, o);
      if invalid.Some? {
        return Failure(invalid.value);
      }
      if o.blockHash in outputs && outputs[o.blockHash].randomnessOutput != 0 {
        return Failure(AlreadySubmitted);
      }
      if o.nullifier in usedNullifiers {
        return Failure(NullifierAlreadyUsed);
      }
      var fingerprint := Fingerprint(o, purposes);
      var attestation := if o.blockHash in attestations then attestations[o.blockHash] else Attestation(Unset, 0);
      if attestation.count != 0 && attestation.fingerprint != fingerprint {
        return Failure(AttestationMismatch);
      }
      var attesters := if o.blockHash in attested then attested[o.blockHash] else {};
      if env.sender in attesters {
        return Failure(AlreadyAttested);
      }
      var count := attestation.count + 1;
      if count >= quorum {
        var stale := NamesLaterPurpose(purposes, o.height);
        if stale {
          return Failure(StaleHeight);
        }
      }
      attestations := attestations[o.blockHash := Attestation(fingerprint, count)];
      attested := attested[o.blockHash := attesters + {env.sender}];
      if count < quorum {
        return Success(());
      }
      ghost var entry := Finalised(o, EffectivePurposes(purposes), attesters + {env.sender}, quorum);
      StoreFinalised(o, EffectivePurposes(purposes), Stored(o, proofHash, count, env.sender), entry);
      return Success(());
    }

    /** The storage writes of a finalised output. */
    method StoreFinalised(o: BinaOutput, named: seq<Word>, stored: StoredOutput, ghost entry: Finalised)
      requires entry.output == o && entry.purposes == named
      modifies this`outputs, this`usedNullifiers, this`blockHashes,
        this`latestSeed, this`latestBlock, this`latestHeight, this`latestBtcHeight, this`history
      ensures FeedState() == FinaliseOutput(old(FeedState()), entry, stored)
    {
      hide AdvanceAll;
      outputs := outputs[o.blockHash := stored];
      usedNullifiers := usedNullifiers + {o.nullifier};
      blockHashes := blockHashes + [o.blockHash];
      UpdatePurposeSeeds(named, o);
      history := history + [entry];
    }

    /** `_updatePurposeSeed` for each named purpose in turn. */
    method UpdatePurposeSeeds(named: seq<Word>, o: BinaOutput)
      modifies this`latestSeed, this`latestBlock, this`latestHeight, this`latestBtcHeight
      ensures Latest(latestHeight, latestSeed, latestBlock, latestBtcHeight)
              == AdvanceAll(old(Latest(latestHeight, latestSeed, latestBlock, latestBtcHeight)), named, o)
    {
      for i := 0 to |named|
        invariant latestSeed == Advance(old(latestSeed), named[..i], o.randomnessOutput)
        invariant latestHeight == Advance(old(latestHeight), named[..i], o.height)
        invariant latestBtcHeight == Advance(old(latestBtcHeight), named[..i], o.btcHeight)
        invariant latestBlock == Advance(old(latestBlock), named[..i], o.blockHash)
      {
        hide Advance;
        AdvanceOneMore(old(latestSeed), named, i, o.randomnessOutput);
        AdvanceOneMore(old(latestHeight), named, i, o.height);
        AdvanceOneMore(old(latestBtcHeight), named, i, o.btcHeight);
        AdvanceOneMore(old(latestBlock), named, i, o.blockHash);
        latestSeed := latestSeed[named[i] := o.randomnessOutput];
        latestHeight := latestHeight[named[i] := o.height];
        latestBtcHeight := latestBtcHeight[named[i] := o.btcHeight];
        latestBlock := latestBlock[named[i] := o.blockHash];
      }
      assert named[..|named|] == named;
    }
  }

  lemma AdvanceOneMore(latest: map<Word, nat>, named: seq<Word>, i: nat, value: nat)
    requires i < |named|
    ensures Advance(latest, named[..i], value)[named[i] := value] == Advance(latest, named[..i+1], value)
  {
    assert forall p :: p in named[..i+1] <==> p in named[..i] || p == named[i];
  }
}
