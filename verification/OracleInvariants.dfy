/** What holds in every reachable state of the oracle, and along every run. */
module OracleInvariants {
  import opened Wrappers
  import opened Sums
  import opened OracleStates

  // ---------------------------------------------------------------- the invariant

  /** The active list and its 1-based index are inverse, so the list has no duplicates. */
  ghost predicate Indexed(active: seq<EvmAddress>, index1: map<EvmAddress, nat>) {
    && (forall i :: 0 <= i < |active| ==> At(index1, active[i]) == i + 1)
    && (forall a :: At(index1, a) > 0 ==> At(index1, a) <= |active| && active[At(index1, a) - 1] == a)
  }

  ghost predicate ActiveIsBonded(publishers: set<EvmAddress>, b: Bonding) {
    forall a :: a in b.active ==> a in publishers && At(b.bonds, a) >= MIN_PUBLISHER_BOND
  }

  ghost function Unresolved(commitments: map<nat, Commitment>, publisher: EvmAddress): set<nat> {
    set id | id in commitments && !commitments[id].resolved && commitments[id].assignedPublisher == publisher
  }

  /** A publisher's locked bond is the slash amount per unresolved commitment, and covered by its bond. */
  ghost predicate LocksAreExact(b: Bonding) {
    && (forall p :: At(b.locked, p) == COMMITMENT_SLASH_AMOUNT * |Unresolved(b.commitments, p)|)
    && (forall p :: At(b.locked, p) <= At(b.bonds, p))
    && (forall id :: id in b.commitments ==> id < b.nextCommitmentId && b.commitments[id].deadline > 0)
  }

  /** The contract's ether is exactly the bonds. */
  ghost predicate Books(publishers: set<EvmAddress>, b: Bonding) {
    Indexed(b.active, b.index1) && ActiveIsBonded(publishers, b) && LocksAreExact(b) && b.balance == Sum(b.bonds)
  }

  /** Pending attestations count distinct attesters. */
  ghost predicate Counted(pool: Pool) {
    forall b :: pool.At(b).count == |pool.AttestersOf(b)|
  }

  ghost predicate Names(entry: Finalised, purpose: Word) {
    purpose in entry.purposes
  }

  /** The entry met the quorum of its time with distinct attesters of one fingerprint. */
  ghost predicate EntryIsAttested(pool: Pool, entry: Finalised) {
    && |entry.attesters| >= entry.threshold > 0
    && pool.AttestersOf(entry.output.blockHash) == entry.attesters
    && var attestation := pool.At(entry.output.blockHash);
    && attestation.fingerprint.Fingerprint?
    && attestation.fingerprint.output == entry.output
    && EffectivePurposes(attestation.fingerprint.purposes) == entry.purposes
  }

  /** Storage shows the entry. */
  ghost predicate EntryIsStored(outputs: map<Word, StoredOutput>, entry: Finalised) {
    var o := entry.output;
    && o.height > 0 && o.randomnessOutput != 0
    && o.blockHash in outputs
    && var stored := outputs[o.blockHash];
    && stored == Stored(o, stored.proofHash, |entry.attesters|, stored.publisher)
  }

  /** Storage holds exactly the finalised submissions, whose hashes and nullifiers never repeat. */
  ghost predicate HistoryIsStored(feed: Feed) {
    var h := feed.history;
    && (forall i, j :: 0 <= i < j < |h| ==> h[i].output.blockHash != h[j].output.blockHash)
    && (forall i, j :: 0 <= i < j < |h| ==> h[i].output.nullifier != h[j].output.nullifier)
    && (forall i :: 0 <= i < |h| ==> EntryIsStored(feed.outputs, h[i]))
    && feed.outputs.Keys == Hashes(h)
    && feed.usedNullifiers == Nullifiers(h)
    && feed.blockHashes == seq(|h|, i requires 0 <= i < |h| => h[i].output.blockHash)
  }

  ghost predicate HistoryIsAttested(pool: Pool, feed: Feed) {
    forall i :: 0 <= i < |feed.history| ==> EntryIsAttested(pool, feed.history[i])
  }

  /** The entry is the one a purpose currently shows. */
  ghost predicate Shown(latest: Latest, purpose: Word, entry: Finalised) {
    && Names(entry, purpose)
    && At(latest.height, purpose) == entry.output.height
    && At(latest.seed, purpose) == entry.output.randomnessOutput
    && At(latest.block, purpose) == entry.output.blockHash
    && At(latest.btcHeight, purpose) == entry.output.btcHeight
  }

  /** Each purpose's height is the maximum over the finalised outputs naming it, and it shows one of them. */
  ghost predicate LatestIsMaximum(feed: Feed) {
    && (forall i, p :: 0 <= i < |feed.history| && Names(feed.history[i], p) ==>
          feed.history[i].output.height <= At(feed.latest.height, p))
    && (forall p :: p in feed.latest.height ==>
          exists i :: 0 <= i < |feed.history| && Shown(feed.latest, p, feed.history[i]))
  }

  ghost predicate Inv(state: OracleState) {
    && Books(state.access.publishers, state.bonding)
    && state.access.quorum > 0
    && Counted(state.pool)
    && HistoryIsStored(state.feed)
    && HistoryIsAttested(state.pool, state.feed)
    && LatestIsMaximum(state.feed)
  }

  lemma DeployedInv(deployer: EvmAddress, initialPublisher: EvmAddress)
    ensures Inv(Deployed(deployer, initialPublisher))
  {
    var state := Deployed(deployer, initialPublisher);
    assert forall p :: Unresolved(state.bonding.commitments, p) == {};
  }

  // ---------------------------------------------------------------- the active set

  lemma {:induction false} IndexedHasNoDuplicates(active: seq<EvmAddress>, index1: map<EvmAddress, nat>)
    requires Indexed(active, index1)
    ensures forall i, j :: 0 <= i < j < |active| ==> active[i] != active[j]
    ensures forall a :: a in active <==> At(index1, a) > 0
  {
  }

  lemma RemovedIndex(active: seq<EvmAddress>, index1: map<EvmAddress, nat>, publisher: EvmAddress)
    requires Indexed(active, index1) && At(index1, publisher) > 0
    ensures var (after, index) := RemoveActive(active, index1, publisher);
            && |after| == |active| - 1
            && Indexed(after, index)
  {
    var idx1 := At(index1, publisher);
    var (after, index) := RemoveActive(active, index1, publisher);
    var last := |active| - 1;
    assert At(index1, active[last]) == |active|;
    forall i | 0 <= i < |after|
      ensures At(index, after[i]) == i + 1
    {
      assert At(index1, active[i]) == i + 1;
    }
    forall a | At(index, a) > 0
      ensures At(index, a) <= |after| && after[At(index, a) - 1] == a
    {
      if a != active[last] {
        assert At(index, a) == At(index1, a) && active[At(index1, a) - 1] == a;
      }
    }
  }

  lemma RemovedMembers(active: seq<EvmAddress>, index1: map<EvmAddress, nat>, publisher: EvmAddress, a: EvmAddress)
    requires Indexed(active, index1) && At(index1, publisher) > 0
    ensures a in RemoveActive(active, index1, publisher).0 <==> a in active && a != publisher
  {
    var idx1, last := At(index1, publisher), |active| - 1;
    var after := RemoveActive(active, index1, publisher).0;
    if a in active && a != publisher {
      var i :| 0 <= i < |active| && active[i] == a;
      assert after[if i == last then idx1 - 1 else i] == a;
    }
    if a in after {
      var i :| 0 <= i < |after| && after[i] == a;
      assert At(index1, active[i]) == i + 1 && At(index1, active[last]) == last + 1;
    }
  }

  /** Swap-and-pop keeps the index exact and removes exactly the one publisher. */
  lemma RemoveActiveKeepsIndex(active: seq<EvmAddress>, index1: map<EvmAddress, nat>, publisher: EvmAddress)
    requires Indexed(active, index1)
    ensures var (after, index) := RemoveActive(active, index1, publisher);
            && Indexed(after, index)
            && forall a :: a in after <==> a in active && a != publisher
  {
    if At(index1, publisher) > 0 {
      RemovedIndex(active, index1, publisher);
      forall a {
        RemovedMembers(active, index1, publisher, a);
      }
    } else {
      IndexedHasNoDuplicates(active, index1);
    }
  }

  lemma AppendKeepsIndex(active: seq<EvmAddress>, index1: map<EvmAddress, nat>, publisher: EvmAddress)
    requires Indexed(active, index1) && At(index1, publisher) == 0
    ensures Indexed(active + [publisher], index1[publisher := |active| + 1])
  {
    var longer, index := active + [publisher], index1[publisher := |active| + 1];
    forall i | 0 <= i < |longer|
      ensures At(index, longer[i]) == i + 1
    {
      if i < |active| {
        assert At(index1, active[i]) == i + 1;
      }
    }
    forall a | At(index, a) > 0
      ensures At(index, a) <= |longer| && longer[At(index, a) - 1] == a
    {
      if a != publisher {
        assert At(index1, a) > 0;
      }
    }
  }

  // ---------------------------------------------------------------- money

  lemma SetPublisherKeepsBooks(access: Access, b: Bonding, env: Env, publisher: EvmAddress, authorized: bool)
    requires Books(access.publishers, b) && SetPublisher(access, b, env, publisher, authorized).Success?
    ensures var (nextAccess, next) := SetPublisher(access, b, env, publisher, authorized).value;
            Books(nextAccess.publishers, next) && nextAccess.quorum == access.quorum
  {
    hide Indexed, RemoveActive;
    RemoveActiveKeepsIndex(b.active, b.index1, publisher);
  }

  /** Changing one bond to something that still covers its lock leaves every lock exact. */
  lemma BondChangeKeepsLocks(b: Bonding, next: Bonding, publisher: EvmAddress, bond: nat)
    requires LocksAreExact(b) && bond >= At(b.locked, publisher)
    requires next.bonds == b.bonds[publisher := bond]
    requires next.locked == b.locked && next.commitments == b.commitments && next.nextCommitmentId == b.nextCommitmentId
    ensures LocksAreExact(next)
  {
    hide Unresolved;
  }

  lemma LockIsCovered(b: Bonding, publisher: EvmAddress)
    requires LocksAreExact(b)
    ensures At(b.locked, publisher) <= At(b.bonds, publisher)
  {
    hide Unresolved;
  }

  lemma DepositKeepsBooks(publishers: set<EvmAddress>, b: Bonding, env: Env)
    requires Books(publishers, b) && DepositBond(publishers, b, env).Success?
    ensures Books(publishers, DepositBond(publishers, b, env).value)
  {
    hide Indexed, LocksAreExact, Sum;
    var bond := At(b.bonds, env.sender) + env.value;
    SumUpdate(b.bonds, env.sender, bond);
    LockIsCovered(b, env.sender);
    BondChangeKeepsLocks(b, DepositBond(publishers, b, env).value, env.sender, bond);
    if At(b.index1, env.sender) == 0 {
      AppendKeepsIndex(b.active, b.index1, env.sender);
    }
  }

  /** Taking `amount` of unlocked bond out keeps everything in step but the contract's own balance. */
  lemma ReduceBondKeepsBooks(publishers: set<EvmAddress>, b: Bonding, publisher: EvmAddress, amount: nat)
    requires Indexed(b.active, b.index1) && ActiveIsBonded(publishers, b) && LocksAreExact(b)
    requires amount <= At(b.bonds, publisher) - At(b.locked, publisher)
    ensures var next := ReduceBond(b, publisher, amount);
            && Indexed(next.active, next.index1) && ActiveIsBonded(publishers, next) && LocksAreExact(next)
            && next.balance == b.balance
            && Sum(next.bonds) == Sum(b.bonds) - amount
            && next.bonds == b.bonds[publisher := At(b.bonds, publisher) - amount]
            && next.locked == b.locked && next.commitments == b.commitments
  {
    hide Indexed, LocksAreExact, RemoveActive, Sum;
    var bond := At(b.bonds, publisher) - amount;
    RemoveActiveKeepsIndex(b.active, b.index1, publisher);
    SumUpdate(b.bonds, publisher, bond);
    BondChangeKeepsLocks(b, ReduceBond(b, publisher, amount), publisher, bond);
  }

  lemma WithdrawKeepsBooks(publishers: set<EvmAddress>, b: Bonding, env: Env, amount: nat)
    requires Books(publishers, b)
    ensures WithdrawBond(b, env, amount) != Failure(Underflow)
    ensures WithdrawBond(b, env, amount).Success? ==>
              && Books(publishers, WithdrawBond(b, env, amount).value)
              && WithdrawBond(b, env, amount).value.commitments == b.commitments
  {
    hide Indexed, Unresolved, ReduceBond;
    if amount <= At(b.bonds, env.sender) - At(b.locked, env.sender) {
      ReduceBondKeepsBooks(publishers, b, env.sender, amount);
      EntryBelowSum(b.bonds, env.sender);
    }
  }

  lemma UnresolvedAfterCommit(b: Bonding, commitment: Commitment, p: EvmAddress)
    requires b.nextCommitmentId !in b.commitments && !commitment.resolved
    ensures |Unresolved(Commit(b, commitment).commitments, p)|
            == |Unresolved(b.commitments, p)| + (if p == commitment.assignedPublisher then 1 else 0)
  {
    var added := if p == commitment.assignedPublisher then {b.nextCommitmentId} else {};
    assert Unresolved(Commit(b, commitment).commitments, p) == Unresolved(b.commitments, p) + added;
    assert b.nextCommitmentId !in Unresolved(b.commitments, p);
  }

  lemma CommitKeepsLocks(b: Bonding, commitment: Commitment)
    requires LocksAreExact(b) && !commitment.resolved && commitment.deadline > 0
    requires At(b.locked, commitment.assignedPublisher) + COMMITMENT_SLASH_AMOUNT <= At(b.bonds, commitment.assignedPublisher)
    ensures LocksAreExact(Commit(b, commitment))
    ensures forall id :: id in b.commitments ==> Commit(b, commitment).commitments[id] == b.commitments[id]
  {
    hide Unresolved;
    var next := Commit(b, commitment);
    forall p
      ensures At(next.locked, p) == COMMITMENT_SLASH_AMOUNT * |Unresolved(next.commitments, p)|
    {
      UnresolvedAfterCommit(b, commitment, p);
    }
  }

  lemma RequestKeepsBooks(publishers: set<EvmAddress>, b: Bonding, env: Env, purpose: Word, target: nat, deadline: nat)
    requires Books(publishers, b)
    ensures RequestFuture(b, env, purpose, target, deadline) != Failure(Underflow)
    ensures RequestFuture(b, env, purpose, target, deadline).Success? ==>
              var next := RequestFuture(b, env, purpose, target, deadline).value;
              && Books(publishers, next)
              && forall id :: id in b.commitments ==> id in next.commitments && next.commitments[id] == b.commitments[id]
  {
    hide Indexed, Unresolved;
    if b.active != [] {
      var assignee := b.active[target % |b.active|];
      assert At(b.locked, assignee) <= At(b.bonds, assignee);
      if RequestFuture(b, env, purpose, target, deadline).Success? {
        CommitKeepsLocks(b, Commitment(Effective(purpose), target, deadline, assignee, false));
      }
    }
  }

  /** An unresolved commitment always has its full slash amount locked, and resolving it releases exactly that. */
  lemma UnlockKeepsLocks(b: Bonding, id: nat)
    requires LocksAreExact(b) && id in b.commitments && !b.commitments[id].resolved
    ensures var p := b.commitments[id].assignedPublisher;
            && COMMITMENT_SLASH_AMOUNT <= At(b.locked, p) <= At(b.bonds, p)
            && LocksAreExact(Unlock(b, id, COMMITMENT_SLASH_AMOUNT))
  {
    var c := b.commitments[id];
    var p := c.assignedPublisher;
    assert id in Unresolved(b.commitments, p);
    assert |Unresolved(b.commitments, p)| >= 1;
    var after := b.commitments[id := c.(resolved := true)];
    forall q
      ensures |Unresolved(after, q)| == |Unresolved(b.commitments, q)| - (if q == p then 1 else 0)
    {
      var gone := if q == p then {id} else {};
      assert Unresolved(after, q) == Unresolved(b.commitments, q) - gone;
    }
  }

  /** Resolving never underflows; it releases one slash amount, and pays it out exactly when the target was missed. */
  lemma ResolveKeepsBooks(publishers: set<EvmAddress>, heights: map<Word, nat>, b: Bonding, env: Env, id: nat)
    requires Books(publishers, b)
    ensures Resolve(heights, b, env, id) != Failure(Underflow)
    ensures Resolve(heights, b, env, id).Success? ==>
              var c, next := b.commitments[id], Resolve(heights, b, env, id).value;
              var p, slash := c.assignedPublisher, if Reached(heights, c) then 0 else COMMITMENT_SLASH_AMOUNT;
              && Books(publishers, next)
              && next.commitments == b.commitments[id := c.(resolved := true)]
              && At(next.locked, p) == At(b.locked, p) - COMMITMENT_SLASH_AMOUNT
              && At(next.bonds, p) == At(b.bonds, p) - slash
              && (forall q :: q != p ==> At(next.bonds, q) == At(b.bonds, q) && At(next.locked, q) == At(b.locked, q))
              && next.balance == b.balance - slash
  {
    hide Indexed, LocksAreExact, ReduceBond;
    if id in b.commitments && !b.commitments[id].resolved {
      var c := b.commitments[id];
      var p := c.assignedPublisher;
      UnlockKeepsLocks(b, id);
      if !Reached(heights, c) {
        ReduceBondKeepsBooks(publishers, Unlock(b, id, COMMITMENT_SLASH_AMOUNT), p, COMMITMENT_SLASH_AMOUNT);
        EntryBelowSum(b.bonds, p);
        var reduced := ReduceBond(Unlock(b, id, COMMITMENT_SLASH_AMOUNT), p, COMMITMENT_SLASH_AMOUNT);
        LocksIgnoreBalance(reduced, b.balance - COMMITMENT_SLASH_AMOUNT);
      }
    }
  }

  lemma LocksIgnoreBalance(b: Bonding, balance: nat)
    requires LocksAreExact(b)
    ensures LocksAreExact(b.(balance := balance))
  {
    hide Unresolved;
  }

  // ---------------------------------------------------------------- outputs

  lemma AttestKeepsCount(pool: Pool, sender: EvmAddress, o: BinaOutput, purposes: seq<Word>)
    requires Counted(pool) && sender !in pool.AttestersOf(o.blockHash)
    ensures Counted(Attest(pool, sender, o, purposes))
  {
    var next := Attest(pool, sender, o, purposes);
    forall b
      ensures next.At(b).count == |next.AttestersOf(b)|
    {
      assert pool.At(b).count == |pool.AttestersOf(b)|;
    }
  }

  /** Once a block hash has an attestation its fingerprint is fixed: later attesters can only agree. */
  lemma {:induction false} AttestersAgree(
    access: Access, pool: Pool, feed: Feed, env: Env, o: BinaOutput, purposes: seq<Word>, proofHash: Word)
    requires Submit(access, pool, feed, env, o, purposes, proofHash).Success?
    ensures var next := Submit(access, pool, feed, env, o, purposes, proofHash).value.0;
            && (pool.At(o.blockHash).count > 0 ==> pool.At(o.blockHash).fingerprint == Fingerprint(o, purposes))
            && next.At(o.blockHash).fingerprint == Fingerprint(o, purposes)
            && next.AttestersOf(o.blockHash) == pool.AttestersOf(o.blockHash) + {env.sender}
            && env.sender !in pool.AttestersOf(o.blockHash) && env.sender in access.publishers
            && forall b :: b != o.blockHash ==> next.At(b) == pool.At(b) && next.AttestersOf(b) == pool.AttestersOf(b)
  {
    hide FinaliseOutput;
  }

  /** The checks that stand between an attested output and its finalisation. */
  ghost predicate Finalisable(feed: Feed, entry: Finalised) {
    && entry.output.height > 0 && entry.output.randomnessOutput != 0
    && entry.output.blockHash !in feed.outputs
    && entry.output.nullifier !in feed.usedNullifiers
    && forall p :: Names(entry, p) ==> At(feed.latest.height, p) <= entry.output.height
  }

  ghost function Hashes(h: seq<Finalised>): set<Word> {
    set i | 0 <= i < |h| :: h[i].output.blockHash
  }

  ghost function Nullifiers(h: seq<Finalised>): set<Word> {
    set i | 0 <= i < |h| :: h[i].output.nullifier
  }

  lemma OneMoreEntry(h: seq<Finalised>, entry: Finalised)
    ensures Hashes(h + [entry]) == Hashes(h) + {entry.output.blockHash}
    ensures Nullifiers(h + [entry]) == Nullifiers(h) + {entry.output.nullifier}
  {
    var longer, n := h + [entry], |h|;
    assert longer[n] == entry;
    forall i | 0 <= i < n
      ensures h[i].output.blockHash in Hashes(longer) && h[i].output.nullifier in Nullifiers(longer)
    {
      assert longer[i] == h[i];
    }
  }

  /** Members of the list are in its sets, so a new hash and a new nullifier differ from all of them. */
  lemma NewEntryDiffers(h: seq<Finalised>, entry: Finalised, i: nat)
    requires i < |h| && entry.output.blockHash !in Hashes(h) && entry.output.nullifier !in Nullifiers(h)
    ensures h[i].output.blockHash != entry.output.blockHash && h[i].output.nullifier != entry.output.nullifier
  {
  }

  lemma FinaliseKeepsHistory(feed: Feed, entry: Finalised, proofHash: Word, publisher: EvmAddress)
    requires HistoryIsStored(feed) && Finalisable(feed, entry)
    ensures HistoryIsStored(FinaliseOutput(feed, entry, Stored(entry.output, proofHash, |entry.attesters|, publisher)))
  {
    hide AdvanceAll, Hashes, Nullifiers;
    var next := FinaliseOutput(feed, entry, Stored(entry.output, proofHash, |entry.attesters|, publisher));
    var h, n := next.history, |feed.history|;
    OneMoreEntry(feed.history, entry);
    forall i | 0 <= i < n
      ensures h[i] == feed.history[i]
      ensures h[i].output.blockHash != entry.output.blockHash && h[i].output.nullifier != entry.output.nullifier
      ensures EntryIsStored(next.outputs, h[i])
    {
      NewEntryDiffers(feed.history, entry, i);
      assert EntryIsStored(feed.outputs, feed.history[i]);
    }
    assert EntryIsStored(next.outputs, h[n]);
  }

  lemma AdvanceAt(latest: map<Word, nat>, purposes: seq<Word>, value: nat, p: Word)
    ensures At(Advance(latest, purposes, value), p) == if p in purposes then value else At(latest, p)
    ensures p in Advance(latest, purposes, value) <==> p in latest || p in purposes
  {
  }

  lemma FinaliseKeepsLatest(feed: Feed, entry: Finalised, stored: StoredOutput)
    requires LatestIsMaximum(feed) && Finalisable(feed, entry)
    ensures LatestIsMaximum(FinaliseOutput(feed, entry, stored))
    ensures forall p :: At(FinaliseOutput(feed, entry, stored).latest.height, p) >= At(feed.latest.height, p)
  {
    hide Advance;
    var next := FinaliseOutput(feed, entry, stored);
    var o, n := entry.output, |feed.history|;
    assert next.history[n] == entry;
    assert forall i :: 0 <= i < n ==> next.history[i] == feed.history[i];
    forall p
      ensures At(next.latest.height, p) == if Names(entry, p) then o.height else At(feed.latest.height, p)
      ensures p in next.latest.height ==> exists i :: 0 <= i < |next.history| && Shown(next.latest, p, next.history[i])
    {
      AdvanceAt(feed.latest.height, entry.purposes, o.height, p);
      AdvanceAt(feed.latest.seed, entry.purposes, o.randomnessOutput, p);
      AdvanceAt(feed.latest.block, entry.purposes, o.blockHash, p);
      AdvanceAt(feed.latest.btcHeight, entry.purposes, o.btcHeight, p);
      if Names(entry, p) {
        assert Shown(next.latest, p, next.history[n]);
      } else if p in feed.latest.height {
        var i :| 0 <= i < n && Shown(feed.latest, p, feed.history[i]);
        assert Shown(next.latest, p, next.history[i]);
      }
    }
  }

  lemma StoredOutputsAreNonzero(feed: Feed, b: Word)
    requires HistoryIsStored(feed) && b in feed.outputs
    ensures feed.outputs[b].randomnessOutput != 0
    ensures exists i :: 0 <= i < |feed.history| && feed.history[i].output.blockHash == b
  {
    assert b in feed.outputs.Keys;
    var i :| 0 <= i < |feed.history| && feed.history[i].output.blockHash == b;
    assert EntryIsStored(feed.outputs, feed.history[i]);
  }

  /** Attesting to a hash that is not finalised leaves the record of finalised ones alone. */
  lemma AttestKeepsHistory(pool: Pool, feed: Feed, sender: EvmAddress, o: BinaOutput, purposes: seq<Word>)
    requires HistoryIsStored(feed) && HistoryIsAttested(pool, feed) && o.blockHash !in feed.outputs
    ensures HistoryIsAttested(Attest(pool, sender, o, purposes), feed)
  {
    var next := Attest(pool, sender, o, purposes);
    forall i | 0 <= i < |feed.history|
      ensures EntryIsAttested(next, feed.history[i])
    {
      assert EntryIsAttested(pool, feed.history[i]) && EntryIsStored(feed.outputs, feed.history[i]);
      assert next.At(feed.history[i].output.blockHash) == pool.At(feed.history[i].output.blockHash);
    }
  }

  /** A submission keeps every output invariant, never lowers a purpose, and changes no stored output. */
  lemma {:induction false} SubmitKeepsFeed(
    access: Access, pool: Pool, feed: Feed, env: Env, o: BinaOutput, purposes: seq<Word>, proofHash: Word)
    requires access.quorum > 0 && Counted(pool)
    requires HistoryIsStored(feed) && HistoryIsAttested(pool, feed) && LatestIsMaximum(feed)
    requires Submit(access, pool, feed, env, o, purposes, proofHash).Success?
    ensures var (nextPool, next) := Submit(access, pool, feed, env, o, purposes, proofHash).value;
            && Counted(nextPool) && HistoryIsStored(next) && HistoryIsAttested(nextPool, next) && LatestIsMaximum(next)
            && (forall p :: At(next.latest.height, p) >= At(feed.latest.height, p))
            && feed.history <= next.history
            && o.blockHash !in feed.outputs
            && (forall b :: b in feed.outputs ==> b in next.outputs && next.outputs[b] == feed.outputs[b])
  {
    hide Counted, HistoryIsStored, LatestIsMaximum, Attest, AdvanceAll, HistoryIsAttested, EffectivePurposes;
    if o.blockHash in feed.outputs {
      StoredOutputsAreNonzero(feed, o.blockHash);
    }
    var nextPool := Attest(pool, env.sender, o, purposes);
    AttestKeepsCount(pool, env.sender, o, purposes);
    AttestKeepsHistory(pool, feed, env.sender, o, purposes);
    var (_, next) := Submit(access, pool, feed, env, o, purposes, proofHash).value;
    if next != feed {
      var entry := Finalised(o, EffectivePurposes(purposes), nextPool.AttestersOf(o.blockHash), access.quorum);
      AttestedCount(pool, env.sender, o, purposes);
      FinaliseKeepsHistory(feed, entry, proofHash, env.sender);
      FinaliseKeepsLatest(feed, entry, Stored(o, proofHash, |entry.attesters|, env.sender));
      FinaliseKeepsAttested(nextPool, feed, entry, Stored(o, proofHash, |entry.attesters|, env.sender));
    }
  }

  lemma AttestedCount(pool: Pool, sender: EvmAddress, o: BinaOutput, purposes: seq<Word>)
    requires Counted(pool) && sender !in pool.AttestersOf(o.blockHash)
    ensures var next := Attest(pool, sender, o, purposes);
            && |next.AttestersOf(o.blockHash)| == pool.At(o.blockHash).count + 1
            && next.At(o.blockHash).fingerprint == Fingerprint(o, purposes)
  {
    assert pool.At(o.blockHash).count == |pool.AttestersOf(o.blockHash)|;
  }

  lemma FinaliseKeepsAttested(pool: Pool, feed: Feed, entry: Finalised, stored: StoredOutput)
    requires HistoryIsAttested(pool, feed) && EntryIsAttested(pool, entry)
    ensures HistoryIsAttested(pool, FinaliseOutput(feed, entry, stored))
  {
  }

  // ---------------------------------------------------------------- every call

  /** One call: what it keeps, and what it can only move forward. */
  ghost predicate Follows(state: OracleState, next: OracleState) {
    && (forall p :: At(next.feed.latest.height, p) >= At(state.feed.latest.height, p))
    && state.feed.history <= next.feed.history
    && (forall b :: b in state.feed.outputs ==> b in next.feed.outputs && next.feed.outputs[b] == state.feed.outputs[b])
    && (forall id :: id in state.bonding.commitments ==>
          (&& id in next.bonding.commitments
           && (next.bonding.commitments[id] == state.bonding.commitments[id]
               || next.bonding.commitments[id] == state.bonding.commitments[id].(resolved := true))))
  }

  /** Every call from a reachable state keeps the invariant and never fails by arithmetic underflow. */
  lemma CallKeepsInv(state: OracleState, env: Env, call: Call)
    requires Inv(state)
    ensures Execute(state, env, call) != Failure(Underflow)
    ensures Execute(state, env, call).Success? ==>
              Inv(Execute(state, env, call).value) && Follows(state, Execute(state, env, call).value)
  {
    hide Counted, HistoryIsStored, LatestIsMaximum, HistoryIsAttested, Books, Submit, DepositBond, WithdrawBond, Resolve,
      RequestFuture, SetPublisher;
    var publishers, b := state.access.publishers, state.bonding;
    match call
    case TransferringOwnership(newOwner) =>
    case SettingFalcon(required) =>
    case SettingQuorum(threshold) =>
    case SettingPublisher(publisher, authorized) =>
      SetPublisherIsPlain(state.access, b, env, publisher, authorized);
      if SetPublisher(state.access, b, env, publisher, authorized).Success? {
        SetPublisherKeepsBooks(state.access, b, env, publisher, authorized);
      }
    case Depositing =>
      DepositIsPlain(publishers, b, env);
      if DepositBond(publishers, b, env).Success? {
        DepositKeepsBooks(publishers, b, env);
      }
    case Withdrawing(amount) => WithdrawKeepsBooks(publishers, b, env, amount);
    case Requesting(purpose, target, deadline) => RequestKeepsBooks(publishers, b, env, purpose, target, deadline);
    case Resolving(id) => ResolveKeepsBooks(publishers, state.feed.latest.height, b, env, id);
    case Submitting(o, purposes, proofHash) =>
      SubmitHasNoUnderflow(state.access, state.pool, state.feed, env, o, purposes, proofHash);
      if Submit(state.access, state.pool, state.feed, env, o, purposes, proofHash).Success? {
        SubmitKeepsFeed(state.access, state.pool, state.feed, env, o, purposes, proofHash);
      }
  }

  /** The same for a call that touches only bonding, given its result. */
  lemma BondingCallKeepsInv(state: OracleState, env: Env, call: Call, result: Result<Bonding, Error>)
    requires Inv(state) && Execute(state, env, call) == WithBonding(state, result)
    ensures result != Failure(Underflow)
    ensures result.Success? ==> Inv(state.(bonding := result.value)) && Follows(state, state.(bonding := result.value))
  {
    hide Inv, Execute, Follows;
    CallKeepsInv(state, env, call);
  }

  lemma AccessCallKeepsInv(state: OracleState, env: Env, call: Call, result: Result<Access, Error>)
    requires Inv(state) && Execute(state, env, call) == WithAccess(state, result)
    ensures result != Failure(Underflow)
    ensures result.Success? ==> Inv(state.(access := result.value)) && Follows(state, state.(access := result.value))
  {
    hide Inv, Execute, Follows;
    CallKeepsInv(state, env, call);
  }

  lemma SetPublisherKeepsInv(state: OracleState, env: Env, publisher: EvmAddress, authorized: bool)
    requires Inv(state)
    ensures match NonPayable<(Access, Bonding)>(env, SetPublisher(state.access, state.bonding, env, publisher, authorized))
            case Success((access, b)) =>
              var next := state.(access := access, bonding := b); Inv(next) && Follows(state, next)
            case Failure(error) => error != Underflow
  {
    hide Inv, Follows, SetPublisher;
    CallKeepsInv(state, env, SettingPublisher(publisher, authorized));
  }

  lemma DepositKeepsInv(state: OracleState, env: Env)
    requires Inv(state)
    ensures match DepositBond(state.access.publishers, state.bonding, env)
            case Success(b) => Inv(state.(bonding := b)) && Follows(state, state.(bonding := b))
            case Failure(error) => error != Underflow
  {
    hide Inv, Follows, DepositBond;
    BondingCallKeepsInv(state, env, Depositing, DepositBond(state.access.publishers, state.bonding, env));
  }

  lemma WithdrawKeepsInv(state: OracleState, env: Env, amount: nat)
    requires Inv(state)
    ensures match NonPayable(env, WithdrawBond(state.bonding, env, amount))
            case Success(b) => Inv(state.(bonding := b)) && Follows(state, state.(bonding := b))
            case Failure(error) => error != Underflow
  {
    hide Inv, Follows, WithdrawBond;
    BondingCallKeepsInv(state, env, Withdrawing(amount), NonPayable(env, WithdrawBond(state.bonding, env, amount)));
  }

  lemma RequestKeepsInv(state: OracleState, env: Env, purpose: Word, target: nat, deadline: nat)
    requires Inv(state)
    ensures match NonPayable(env, RequestFuture(state.bonding, env, purpose, target, deadline))
            case Success(b) => Inv(state.(bonding := b)) && Follows(state, state.(bonding := b))
            case Failure(error) => error != Underflow
  {
    hide Inv, Follows, RequestFuture;
    var result := NonPayable(env, RequestFuture(state.bonding, env, purpose, target, deadline));
    BondingCallKeepsInv(state, env, Requesting(purpose, target, deadline), result);
  }

  lemma ResolveKeepsInv(state: OracleState, env: Env, id: nat)
    requires Inv(state)
    ensures match NonPayable(env, Resolve(state.feed.latest.height, state.bonding, env, id))
            case Success(b) => Inv(state.(bonding := b)) && Follows(state, state.(bonding := b))
            case Failure(error) => error != Underflow
  {
    hide Inv, Follows, Resolve;
    BondingCallKeepsInv(state, env, Resolving(id), NonPayable(env, Resolve(state.feed.latest.height, state.bonding, env, id)));
  }

  lemma SubmitKeepsInv(state: OracleState, env: Env, o: BinaOutput, purposes: seq<Word>, proofHash: Word)
    requires Inv(state)
    ensures match NonPayable<(Pool, Feed)>(env, Submit(state.access, state.pool, state.feed, env, o, purposes, proofHash))
            case Success((pool, feed)) => var next := state.(pool := pool, feed := feed); Inv(next) && Follows(state, next)
            case Failure(error) => error != Underflow
  {
    hide Inv, Follows, Submit;
    CallKeepsInv(state, env, Submitting(o, purposes, proofHash));
  }

  lemma FollowsItself(state: OracleState)
    ensures Follows(state, state)
  {
  }

  lemma SetPublisherIsPlain(access: Access, b: Bonding, env: Env, publisher: EvmAddress, authorized: bool)
    ensures SetPublisher(access, b, env, publisher, authorized) != Failure(Underflow)
    ensures SetPublisher(access, b, env, publisher, authorized).Success? ==>
              SetPublisher(access, b, env, publisher, authorized).value.1.commitments == b.commitments
  {
    hide RemoveActive;
  }

  lemma DepositIsPlain(publishers: set<EvmAddress>, b: Bonding, env: Env)
    ensures DepositBond(publishers, b, env) != Failure(Underflow)
    ensures DepositBond(publishers, b, env).Success? ==> DepositBond(publishers, b, env).value.commitments == b.commitments
  {
  }

  lemma SubmitHasNoUnderflow(access: Access, pool: Pool, feed: Feed, env: Env, o: BinaOutput, purposes: seq<Word>, proofHash: Word)
    ensures Submit(access, pool, feed, env, o, purposes, proofHash) != Failure(Underflow)
  {
    hide FinaliseOutput, Attest;
  }

  lemma FollowsTransitive(a: OracleState, b: OracleState, c: OracleState)
    requires Follows(a, b) && Follows(b, c)
    ensures Follows(a, c)
  {
    forall id | id in a.bonding.commitments
      ensures id in c.bonding.commitments
      ensures c.bonding.commitments[id] == a.bonding.commitments[id]
              || c.bonding.commitments[id] == a.bonding.commitments[id].(resolved := true)
    {
      assert id in b.bonding.commitments;
    }
  }

  /** Every state reached from a state with the invariant has it, and follows that state. */
  lemma {:induction false} RunKeepsInv(state: OracleState, txs: seq<Transaction>)
    requires Inv(state)
    ensures Inv(Run(state, txs)) && Follows(state, Run(state, txs))
  {
    hide Inv, Execute;
    if txs != [] {
      var before, last := Run(state, txs[..|txs|-1]), txs[|txs|-1];
      RunKeepsInv(state, txs[..|txs|-1]);
      CallKeepsInv(before, last.env, last.call);
      if Execute(before, last.env, last.call).Success? {
        FollowsTransitive(state, before, Execute(before, last.env, last.call).value);
      }
    }
  }

  /** Every reachable state of the oracle satisfies the invariant. */
  lemma {:induction false} EveryRunKeepsInv(deployer: EvmAddress, initialPublisher: EvmAddress, txs: seq<Transaction>)
    ensures Inv(Run(Deployed(deployer, initialPublisher), txs))
  {
    DeployedInv(deployer, initialPublisher);
    RunKeepsInv(Deployed(deployer, initialPublisher), txs);
  }

  /**
   Once a commitment's target height has been reached, whatever happens next, resolving it can only unlock: bonds,
   rotation and the contract's balance stay as they are.
   */
  lemma {:induction false} ReachedIsNeverSlashed(state: OracleState, txs: seq<Transaction>, id: nat, env: Env)
    requires Inv(state) && id in state.bonding.commitments
    requires Reached(state.feed.latest.height, state.bonding.commitments[id])
    requires var later := Run(state, txs); Resolve(later.feed.latest.height, later.bonding, env, id).Success?
    ensures var later := Run(state, txs);
            var next := Resolve(later.feed.latest.height, later.bonding, env, id).value;
            next.bonds == later.bonding.bonds && next.balance == later.bonding.balance && next.active == later.bonding.active
  {
    hide Inv, Run;
    RunKeepsInv(state, txs);
    assert Run(state, txs).bonding.commitments[id].purpose == state.bonding.commitments[id].purpose;
  }

  /** A commitment is resolved at most once, however the run continues. */
  lemma {:induction false} ResolvesAtMostOnce(state: OracleState, env: Env, id: nat, txs: seq<Transaction>, again: Env)
    requires Inv(state) && Execute(state, env, Resolving(id)).Success?
    ensures var later := Run(Execute(state, env, Resolving(id)).value, txs);
            Execute(later, again.(value := 0), Resolving(id)) == Failure(RequestAlreadyFulfilled)
  {
    hide Inv, Run, ReduceBond, Pay;
    var next := Execute(state, env, Resolving(id)).value;
    CallKeepsInv(state, env, Resolving(id));
    BooksOf(state);
    ResolveKeepsBooks(state.access.publishers, state.feed.latest.height, state.bonding, env, id);
    RunKeepsInv(next, txs);
  }

  lemma BooksOf(state: OracleState)
    requires Inv(state)
    ensures Books(state.access.publishers, state.bonding)
  {
  }

  /** A finalised block hash can never be submitted again, and its stored output never changes. */
  lemma {:induction false} FinalisesAtMostOnce(
    state: OracleState, txs: seq<Transaction>, env: Env, o: BinaOutput, purposes: seq<Word>, proofHash: Word)
    requires Inv(state) && o.blockHash in state.feed.outputs
    ensures var later := Run(state, txs);
            && o.blockHash in later.feed.outputs
            && later.feed.outputs[o.blockHash] == state.feed.outputs[o.blockHash]
            && Submit(later.access, later.pool, later.feed, env, o, purposes, proofHash).Failure?
  {
    hide Run, Books, Counted, LatestIsMaximum, HistoryIsAttested, HistoryIsStored;
    RunKeepsInv(state, txs);
    StoredOutputsAreNonzero(Run(state, txs).feed, o.blockHash);
  }

  // ---------------------------------------------------------------- who attested

  /** Transaction `i` of the run is `publisher`, then authorised, successfully attesting this output for these purposes. */
  predicate Attests(start: OracleState, txs: seq<Transaction>, i: nat, publisher: EvmAddress, fingerprint: Fingerprint)
    requires i < |txs|
  {
    var before, tx := Run(start, txs[..i]), txs[i];
    && tx.env.sender == publisher && publisher in before.access.publishers
    && tx.call.Submitting? && Fingerprint(tx.call.output, tx.call.purposes) == fingerprint
    && Execute(before, tx.env, tx.call).Success?
  }

  lemma SubmitAttests(state: OracleState, env: Env, o: BinaOutput, purposes: seq<Word>, proofHash: Word)
    requires Execute(state, env, Submitting(o, purposes, proofHash)).Success?
    ensures Execute(state, env, Submitting(o, purposes, proofHash)).value.pool == Attest(state.pool, env.sender, o, purposes)
    ensures env.sender in state.access.publishers
    ensures state.pool.At(o.blockHash).count != 0 ==> state.pool.At(o.blockHash).fingerprint == Fingerprint(o, purposes)
  {
    hide FinaliseOutput, ValidateOutput, Attest;
  }

  lemma OthersLeavePool(state: OracleState, tx: Transaction)
    requires !tx.call.Submitting? || Execute(state, tx.env, tx.call).Failure?
    ensures Step(state, tx).pool == state.pool
  {
    hide Submit, SetPublisher, DepositBond, WithdrawBond, RequestFuture, Resolve;
  }

  /** One transaction: a pending attester was one before, of the same fingerprint, or is the one attesting now. */
  lemma NewAttesterSubmits(state: OracleState, tx: Transaction, b: Word, a: EvmAddress)
    requires Inv(state) && a in Step(state, tx).pool.AttestersOf(b)
    ensures var next := Step(state, tx);
            || (a in state.pool.AttestersOf(b) && next.pool.At(b).fingerprint == state.pool.At(b).fingerprint)
            || (&& tx.env.sender == a && a in state.access.publishers && tx.call.Submitting?
                && tx.call.output.blockHash == b
                && Fingerprint(tx.call.output, tx.call.purposes) == next.pool.At(b).fingerprint
                && Execute(state, tx.env, tx.call).Success?)
  {
    hide Books, HistoryIsStored, HistoryIsAttested, LatestIsMaximum, Submit, Execute;
    if tx.call.Submitting? && Execute(state, tx.env, tx.call).Success? {
      SubmitAttests(state, tx.env, tx.call.output, tx.call.purposes, tx.call.proofHash);
    } else {
      OthersLeavePool(state, tx);
    }
    assert a in state.pool.AttestersOf(b) ==> state.pool.At(b).count > 0;
  }

  /** Every pending attester of a block hash was an authorised publisher when it attested the pending fingerprint. */
  lemma {:induction false} AttestersWerePublishers(start: OracleState, txs: seq<Transaction>, b: Word, a: EvmAddress)
    returns (i: nat)
    requires Inv(start) && start.pool.attested == map[] && a in Run(start, txs).pool.AttestersOf(b)
    ensures i < |txs| && Attests(start, txs, i, a, Run(start, txs).pool.At(b).fingerprint)
  {
    hide Inv, Execute, Step;
    assert txs != [] by {
      if txs == [] {
        NobodyAttested(start, b);
      }
    }
    var front, last := txs[..|txs|-1], txs[|txs|-1];
    RunKeepsInv(start, front);
    NewAttesterSubmits(Run(start, front), last, b, a);
    if a in Run(start, front).pool.AttestersOf(b) && Run(start, txs).pool.At(b).fingerprint == Run(start, front).pool.At(b).fingerprint {
      i := AttestersWerePublishers(start, front, b, a);
      assert front[..i] == txs[..i];
    } else {
      i := |txs| - 1;
    }
  }

  lemma NobodyAttested(state: OracleState, b: Word)
    requires state.pool.attested == map[]
    ensures state.pool.AttestersOf(b) == {}
  {
  }

  /**
   Every attester of a finalised output of a deployed oracle was an authorised publisher when it attested exactly
   that output.
   */
  lemma {:induction false} FinalisedByPublishers(
    deployer: EvmAddress, initialPublisher: EvmAddress, txs: seq<Transaction>, k: nat, a: EvmAddress) returns (i: nat)
    requires var feed := Run(Deployed(deployer, initialPublisher), txs).feed;
             k < |feed.history| && a in feed.history[k].attesters
    ensures var start := Deployed(deployer, initialPublisher);
            && i < |txs| && txs[i].env.sender == a && a in Run(start, txs[..i]).access.publishers
            && txs[i].call.Submitting? && txs[i].call.output == Run(start, txs).feed.history[k].output
            && Execute(Run(start, txs[..i]), txs[i].env, txs[i].call).Success?
  {
    hide Run, Execute, Books, HistoryIsStored, LatestIsMaximum, Counted;
    var start := Deployed(deployer, initialPublisher);
    DeployedInv(deployer, initialPublisher);
    RunKeepsInv(start, txs);
    var entry := Run(start, txs).feed.history[k];
    i := AttestersWerePublishers(start, txs, entry.output.blockHash, a);
  }
}
