/** The running node: objects updated in place, each operation proved to take exactly its step on values. */
module Nodes {
  import opened Numbers
  import opened Wrappers
  import opened Types
  import opened Ledgers
  import opened Supply
  import opened Replay
  import opened RewardLedgers
  import opened Merkle
  import opened Difficulty
  import opened Checkpoints
  import opened Claims
  import opened Chains
  import opened ChainLogs
  import opened NodeStates

  /** The block table: one canonical row per height. */
  class BlockStore {
    var rows: Store

    constructor Open()
      ensures rows == map[]
    {
      rows := map[];
    }

    method InsertBlock(record: BlockRecord)
      modifies this
      ensures rows == old(rows)[record.height := record]
    {
      rows := rows[record.height := record];
    }

    method Get(height: u64) returns (record: Option<BlockRecord>)
      ensures record == if height in rows then Some(rows[height]) else None
    {
      record := if height in rows then Some(rows[height]) else None;
    }

    /** Rows with heights in `[from, last]`, ascending, at most `limit` of them. */
    method GetRange(from: u64, last: u64, limit: nat) returns (records: seq<BlockRecord>)
      ensures var all := Range(rows, from, last);
              records == if |all| <= limit then all else all[..limit]
    {
      records := [];
      var h: nat := from;
      while h <= last && |records| < limit
        invariant from <= h && (from <= last ==> h <= last + 1)
        invariant |records| <= limit
        invariant Range(rows, from, last) == records + Range(rows, h, last)
        decreases last + 1 - h
      {
        if h in rows {
          records := records + [rows[h]];
        }
        h := h + 1;
      }
    }

    /** Deletes the rows above `height`: every later read is the read before, cut off there. */
    method RollbackAbove(height: u64)
      modifies this
      ensures forall h :: h in rows <==> h in old(rows) && h <= height
      ensures forall h :: h in rows ==> rows[h] == old(rows)[h]
      ensures forall from: nat, last: u64 :: Range(rows, from, last) == Range(old(rows), from, Min(last, height))
    {
      ghost var before := rows;
      rows := map h | h in rows && h <= height :: rows[h];
      forall from: nat, last: u64
        ensures Range(rows, from, last) == Range(before, from, Min(last, height))
      {
        RangeIsCut(before, rows, height, from, last);
      }
    }
  }

  /** Deleting the rows above a height cuts every range at that height. */
  lemma {:induction false} RangeIsCut(before: Store, after: Store, height: u64, from: nat, last: u64)
    requires forall h :: h in after <==> h in before && h <= height
    requires forall h :: h in after ==> after[h] == before[h]
    ensures Range(after, from, last) == Range(before, from, Min(last, height))
    decreases last + 1 - from
  {
    if from <= last {
      RangeIsCut(before, after, height, from + 1, last);
    }
  }

  lemma StoresAgree(rows: Store, before: Store, height: u64)
    requires forall h :: h in rows <==> h in before && h <= height
    requires forall h :: h in rows ==> rows[h] == before[h]
    ensures rows == RollBackStore(before, height)
  {
  }

  lemma {:induction false} RangeIsShort(store: Store, from: nat, last: u64)
    requires from <= last + 1
    ensures |Range(store, from, last)| <= last + 1 - from
    decreases last + 1 - from
  {
    if from <= last {
      RangeIsShort(store, from + 1, last);
    }
  }

  /** The work of the rolled-back blocks, added up as the node does. */
  method TotalWork(blocks: seq<BlockRecord>) returns (work: u128)
    ensures work == WorkSum(blocks)
  {
    work := 0;
    for i := 0 to |blocks|
      invariant work == WorkSum(blocks[..i])
    {
      assert blocks[..i+1][..i] == blocks[..i];
      work := SaturatingAdd128(work, Work128(blocks[i].difficultyBits));
    }
    assert blocks[..|blocks|] == blocks;
  }

  /** `order` lists every candidate once. */
  ghost predicate Enumerates(order: seq<Address>, candidates: map<Address, PendingClaim>) {
    (forall miner :: miner in order <==> miner in candidates) && Unrepeated(order)
  }

  ghost predicate Unrepeated(order: seq<Address>) {
    forall i, j :: 0 <= i < j < |order| ==> order[i] != order[j]
  }

  lemma NoCandidates(candidates: map<Address, PendingClaim>)
    ensures Unrepeated([]) && InOrder(candidates, []) == []
  {
  }

  /** One turn of the election: the newcomer replaces the incumbent only when it is strictly better. */
  lemma OneMoreCandidate(candidates: map<Address, PendingClaim>, order: seq<Address>, miner: Address)
    requires miner in candidates && miner !in order && Unrepeated(order)
    ensures Unrepeated(order + [miner])
    ensures var newcomer := candidates[miner].AsRanked();
            SelectWinning(InOrder(candidates, order + [miner])) == Some(
              match SelectWinning(InOrder(candidates, order))
              case None => newcomer
              case Some(incumbent) => if ClaimIsBetter(newcomer, incumbent) then newcomer else incumbent)
  {
    var claims, newcomer := InOrder(candidates, order), candidates[miner].AsRanked();
    assert (order + [miner])[..|order|] == order;
    assert InOrder(candidates, order + [miner]) == claims + [newcomer];
    assert (claims + [newcomer])[..|claims|] == claims;
  }

  lemma {:induction false} CandidateIsMet(candidates: map<Address, PendingClaim>, order: seq<Address>, miner: Address)
    requires miner in order && miner in candidates
    ensures candidates[miner].AsRanked() in InOrder(candidates, order)
  {
    if miner != order[|order|-1] {
      CandidateIsMet(candidates, order[..|order|-1], miner);
    }
  }

  /** Whatever the order, the election ends with a candidate that no candidate is better than. */
  lemma {:induction false} ElectedIsUnbeaten(candidates: map<Address, PendingClaim>, order: seq<Address>)
    requires Enumerates(order, candidates)
    ensures SelectWinning(InOrder(candidates, order)).None? <==> candidates.Keys == {}
    ensures SelectWinning(InOrder(candidates, order)).Some? ==>
              var winner := SelectWinning(InOrder(candidates, order)).value;
              && winner.item in candidates.Values && winner == winner.item.AsRanked()
              && forall miner :: miner in candidates ==> !ClaimIsBetter(candidates[miner].AsRanked(), winner)
  {
    var claims := InOrder(candidates, order);
    forall miner | miner in candidates
      ensures candidates[miner].AsRanked() in claims
    {
      CandidateIsMet(candidates, order, miner);
    }
    if claims == [] {
      assert candidates.Keys == {};
    } else {
      WinnerIsUnbeaten(claims);
      InOrderIsPending(candidates, order, SelectWinning(claims).value);
    }
  }

  class Node {
    const store: BlockStore
    const adjuster: DifficultyAdjuster
    var ledger: RewardLedger
    var height: u64
    var tipHash: Digest
    var lastTimestamp: u64
    var seed: Digest
    var chainWork: u128
    var mempool: Mempool
    var pending: PendingClaims

    ghost function State(): NodeState
      reads this, store, adjuster, ledger
    {
      NodeState(store.rows, height, tipHash, lastTimestamp, seed, chainWork, adjuster.Value(), ledger.Value(), ledger.log,
                mempool, pending)
    }

    /** A node that has just created its genesis state. */
    constructor ()
      ensures State() == GENESIS_STATE
      ensures fresh(store) && fresh(adjuster) && fresh(ledger)
    {
      store := new BlockStore.Open();
      adjuster := new DifficultyAdjuster.Restore(MIN_BITS, GENESIS_TIMESTAMP_MS, 0);
      ledger := new RewardLedger.OpenInner([], Some(0));
      height, tipHash, lastTimestamp, seed, chainWork := 0, HeaderHash(GENESIS), GENESIS_TIMESTAMP_MS, ZeroDigest, 0;
      mempool, pending := map[], map[];
    }

    method AcceptSignedClaim(claim: PendingClaim, now: u64, btc: BtcView) returns (result: Result<(), Reject>)
      modifies this`pending
      ensures match AcceptClaim(old(State()), claim, now, btc)
              case Success(next) => result.Success? && State() == next
              case Failure(reject) => result == Failure(reject) && State() == old(State())
    {
      var header := claim.header;
      if !claim.Verifies() {
        return Failure(InvalidClaim);
      }
      if |claim.transactions| > MAX_TXS_PER_BLOCK {
        return Failure(TooManyTransactions);
      }
      var merkleRoot := MerkleRoot(claim.transactions);
      if merkleRoot != header.merkleRoot {
        return Failure(MerkleMismatch);
      }
      if header.height != height + 1 {
        return Failure(WrongHeight);
      }
      if header.prevHash != tipHash {
        return Failure(WrongPrevHash);
      }
      if header.difficultyBits != adjuster.currentBits {
        return Failure(WrongDifficulty);
      }
      if !TimestampIsValid(header.timestamp, lastTimestamp, now, MAX_FUTURE_MS) {
        return Failure(InvalidTimestamp);
      }
      if IsCheckpointHeight(header.height) {
        if claim.checkpoint.None? {
          return Failure(MissingCheckpoint);
        }
        var proof := claim.checkpoint.value;
        if proof.Seed() != header.seed {
          return Failure(CheckpointMismatch);
        }
        if !Plausible(proof.tipHeight, btc.previousTip, btc.observedTip, BTC_HEIGHT_TOLERANCE) {
          return Failure(ImplausibleCheckpoint);
        }
      } else if header.seed != seed {
        return Failure(WrongSeed);
      }
      var reward := BlockReward(header.height, ledger.totalMined);
      var applied, root := ledger.SimulateBlockExecution(claim.transactions, header.miner, reward);
      if |applied| != |claim.transactions| {
        return Failure(InvalidTransaction);
      }
      if root != header.stateRoot {
        return Failure(StateRootMismatch);
      }
      var candidates := CandidatesAt(pending, header.height);
      if header.miner in candidates {
        return Failure(DuplicateMiner);
      }
      pending := pending[header.height := candidates[header.miner := claim]];
      return Success(());
    }

    /** The mining loop's own candidate: filter the mempool by simulation and commit to what survives. */
    method ProposeCandidate(p: Proposal)
      modifies this`pending
      ensures State() == Propose(old(State()), p)
    {
      hide ParseAddress, SimulateBlock, RootOfTransactions, BlockReward, IsCheckpointHeight, CandidatesAt, SaturatingAdd;
      if height == U64_MAX || ParseAddress(p.miner) != Some(p.miner) {
        return;
      }
      var next := height + 1;
      var checkpoint := IsCheckpointHeight(next);
      var candidateSeed := if checkpoint then p.proof.Seed() else seed;
      var reward := BlockReward(next, ledger.totalMined);
      var earliest := SaturatingAdd(lastTimestamp, 1);
      var timestamp := if p.now > earliest then p.now else earliest;
      var chosen := if |p.candidates| <= MAX_TXS_PER_BLOCK then p.candidates else p.candidates[..MAX_TXS_PER_BLOCK];
      var applied, root := ledger.SimulateBlockExecution(chosen, p.miner, reward);
      var merkleRoot := MerkleRoot(applied);
      var header := Header(1, next, tipHash, merkleRoot, root, timestamp, p.nonce, p.miner, adjuster.currentBits, candidateSeed);
      var claim := PendingClaim(
        header, p.workBits, p.scoreRank, p.hashRank, true, if checkpoint then Some(p.proof) else None, applied);
      var candidates := CandidatesAt(pending, next);
      if p.miner !in candidates {
        pending := pending[next := candidates[p.miner := claim]];
      }
    }

    /** Apply a block's transfers in order and credit its reward, as both finalising and syncing do. */
    method ExecuteForReal(record: BlockRecord)
      modifies ledger
      ensures ledger.Value()
              == ExecuteBlock(old(ledger.Value()), record.transactions, record.minerAddress, record.rewardBina)
      ensures ledger.log == old(ledger.log) + BlockRows(old(ledger.Value()), record)
    {
      hide ApplyTransaction, ApplyOrSkip, WrittenBy, Ledgers.Credit, BlockShaped, EndsInReward, ExecuteBlock, RunCalls;
      ghost var before, log, n := ledger.Value(), ledger.log, |record.transactions|;
      ghost var calls := BlockCalls(record);
      NoCallsRun(before, calls);
      for i := 0 to |record.transactions|
        invariant ledger == old(ledger)
        invariant ledger.Value() == RunCalls(before, calls[..i]).0
        invariant ledger.log == log + RunCalls(before, calls[..i]).1
      {
        RunCallsOneMore(before, calls, i);
        var _ := ledger.ApplyTransaction(record.height, record.transactions[i], record.minerAddress, record.timestamp / 1000);
      }
      RunCallsOneMore(before, calls, n);
      var _ := ledger.Credit(record.height, record.minerAddress, record.rewardBina, record.timestamp / 1000);
      assert calls[..n + 1] == calls;
      BlockCallsExecute(before, record);
    }

    /** Confirmed transactions leave the mempool. */
    method DropConfirmed(txs: seq<SignedTransaction>)
      modifies this`mempool
      ensures mempool == Drop(old(mempool), txs)
    {
      ghost var held := mempool;
      for i := 0 to |txs|
        invariant mempool == Drop(held, txs[..i])
      {
        mempool := mempool - {txs[i].Id()};
      }
      assert txs[..|txs|] == txs;
    }

    /** Adopt an elected or synced block: ledger, store, adjuster, work, clock, tip, mempool and candidates. */
    method AdoptBlock(record: BlockRecord, newSeed: Digest)
      modifies this, store, adjuster, ledger
      ensures State() == Adopt(old(State()), record, newSeed)
      ensures ledger == old(ledger)
    {
      hide ExecuteBlock, BlockRows, Drop, RecordBlock, Above;
      ExecuteForReal(record);
      store.InsertBlock(record);
      var _ := adjuster.Record(record.height, record.timestamp);
      seed := newSeed;
      chainWork := SaturatingAdd128(chainWork, Work128(record.difficultyBits));
      lastTimestamp := record.timestamp;
      tipHash := record.blockHash;
      height := record.height;
      DropConfirmed(record.transactions);
      pending := Above(pending, height);
    }

    /** Elect among the candidates of the next height in whatever order the hash map yields them. */
    method ElectWinner() returns (winner: Option<PendingClaim>, ghost order: seq<Address>)
      requires height < U64_MAX
      ensures Enumerates(order, CandidatesAt(pending, height + 1))
      ensures winner == Winner(State(), order)
      ensures var candidates := CandidatesAt(pending, height + 1);
              && (winner.None? <==> candidates.Keys == {})
              && (winner.Some? ==> winner.value in candidates.Values)
              && (winner.Some? ==> forall miner :: miner in candidates ==>
                    !ClaimIsBetter(candidates[miner].AsRanked(), winner.value.AsRanked()))
    {
      hide CandidatesAt, InOrder, Unrepeated;
      var candidates := CandidatesAt(pending, height + 1);
      var remaining := candidates.Keys;
      var best: Option<Ranked<PendingClaim>> := None;
      order := [];
      NoCandidates(candidates);
      while remaining != {}
        invariant forall miner :: miner in candidates <==> miner in remaining || miner in order
        invariant forall miner :: miner in order ==> miner !in remaining
        invariant Unrepeated(order)
        invariant best == SelectWinning(InOrder(candidates, order))
        decreases remaining
      {
        var miner :| miner in remaining;
        var ranked := candidates[miner].AsRanked();
        OneMoreCandidate(candidates, order, miner);
        if best.None? || ClaimIsBetter(ranked, best.value) {
          best := Some(ranked);
        }
        order := order + [miner];
        remaining := remaining - {miner};
      }
      winner := match best case None => None case Some(ranked) => Some(ranked.item);
      ElectedIsUnbeaten(candidates, order);
    }

    /** The finalise part of the mining loop. */
    method FinaliseWinner() returns (ghost order: seq<Address>)
      requires height < U64_MAX
      modifies this, store, adjuster, ledger
      ensures Enumerates(order, CandidatesAt(old(pending), old(height) + 1))
      ensures State() == Finalise(old(State()), order)
      ensures ledger == old(ledger)
    {
      hide Adopt, InOrder, BlockReward;
      var elected;
      elected, order := ElectWinner();
      if elected.Some? {
        var winner, next := elected.value, height + 1;
        var reward := BlockReward(next, ledger.totalMined);
        var newSeed := if IsCheckpointHeight(next) && winner.checkpoint.Some? then winner.header.seed else seed;
        AdoptBlock(RecordOf(winner, next, reward), newSeed);
      }
    }

    /** One record of a sync page. */
    method SyncOne(record: BlockRecord, now: u64) returns (result: Result<(), SyncStop>)
      modifies this, store, adjuster, ledger
      ensures ledger == old(ledger)
      ensures match SyncRecord(old(State()), record, now)
              case Success(next) => result.Success? && State() == next
              case Failure(stop) => result == Failure(stop) && State() == old(State())
    {
      if record.height != height + 1 {
        return Failure(OutOfSequence);
      }
      if record.prevHash != tipHash {
        return Failure(DoesNotChain);
      }
      var parsed := HeaderFromRecord(record, tipHash);
      if parsed.None? {
        return Failure(Malformed);
      }
      var header := parsed.value;
      if !TimestampIsValid(header.timestamp, lastTimestamp, now, MAX_FUTURE_MS) {
        return Failure(BadTimestamp);
      }
      if header.difficultyBits != adjuster.currentBits {
        return Failure(BadDifficulty);
      }
      if !IsCheckpointHeight(record.height) && record.btcSeed != seed {
        return Failure(BadSeed);
      }
      if !record.authentic {
        return Failure(SyncStop.Unverified);
      }
      if HeaderHash(header) != record.blockHash {
        return Failure(HashMismatch);
      }
      var merkleRoot := MerkleRoot(record.transactions);
      if merkleRoot != header.merkleRoot {
        return Failure(BadMerkleRoot);
      }
      if |record.transactions| > MAX_TXS_PER_BLOCK {
        return Failure(OversizedBlock);
      }
      var applied, root := ledger.SimulateBlockExecution(record.transactions, record.minerAddress, record.rewardBina);
      if |applied| != |record.transactions| || root != header.stateRoot {
        return Failure(BadExecution);
      }
      AdoptBlock(record, if IsCheckpointHeight(record.height) then header.seed else seed);
      return Success(());
    }

    /** One page, up to its first bad record. */
    method SyncOnePage(records: seq<Received>) returns (stop: bool)
      modifies this, store, adjuster, ledger
      ensures ledger == old(ledger)
      ensures (State(), stop) == SyncPage(old(State()), records)
    {
      hide SyncRecord;
      ghost var before := State();
      for i := 0 to |records|
        invariant ledger == old(ledger)
        invariant SyncPage(before, records) == SyncPage(State(), records[i..])
      {
        assert records[i..][0] == records[i] && records[i..][1..] == records[i+1..];
        var result := SyncOne(records[i].record, records[i].now);
        if result.Failure? {
          return true;
        }
      }
      return false;
    }

    /** `sync_forward_from_peer`: page by page, stopping at the first bad record or when the peer runs dry. */
    method SyncFromPeer(target: u64, pages: seq<seq<Received>>)
      modifies this, store, adjuster, ledger
      ensures ledger == old(ledger)
      ensures State() == SyncForward(old(State()), target, pages)
    {
      hide SyncPage;
      ghost var start := State();
      var page := 0;
      while height < target && page < |pages| && pages[page] != []
        invariant page <= |pages| && ledger == old(ledger)
        invariant SyncForward(start, target, pages) == SyncForward(State(), target, pages[page..])
        decreases |pages| - page
      {
        assert pages[page..][0] == pages[page] && pages[page..][1..] == pages[page+1..];
        var stop := SyncOnePage(pages[page]);
        if stop {
          return;
        }
        page := page + 1;
      }
    }

    /** `requeue_rolled_back_transactions`. */
    method RequeueRolledBack(rolledBack: seq<BlockRecord>)
      modifies this`mempool
      ensures mempool == RequeueBlocks(old(mempool), rolledBack)
    {
      ghost var start := mempool;
      for b := 0 to |rolledBack|
        invariant mempool == RequeueBlocks(start, rolledBack[..b])
      {
        var txs := rolledBack[b].transactions;
        assert rolledBack[..b+1][..b] == rolledBack[..b];
        for i := 0 to |txs|
          invariant mempool == Requeue(RequeueBlocks(start, rolledBack[..b]), txs[..i])
        {
          assert txs[..i+1][..i] == txs[..i];
          mempool := mempool[txs[i].Id() := txs[i]];
        }
        assert txs[..|txs|] == txs;
      }
      assert rolledBack[..|rolledBack|] == rolledBack;
    }

    /** The walk back from our tip to the first block the peer shares. */
    method LocateForkPoint(peerHashes: map<u64, Digest>, floor: u64) returns (found: Option<u64>)
      ensures found == FindForkPoint(store.rows, peerHashes, height, floor)
    {
      var forkPoint: u64 := height;
      while forkPoint > floor
        invariant FindForkPoint(store.rows, peerHashes, height, floor)
               == FindForkPoint(store.rows, peerHashes, forkPoint, floor)
      {
        if forkPoint !in peerHashes {
          return None;
        }
        var local := store.Get(forkPoint);
        if local.None? {
          return None;
        }
        if local.value.blockHash == peerHashes[forkPoint] {
          return Some(forkPoint);
        }
        forkPoint := forkPoint - 1;
      }
      return Some(forkPoint);
    }

    /** The tip, clock and pinned seed to return to, read before the first row is deleted. */
    method ReadForkPoint(forkPoint: u64) returns (found: bool, newTip: Digest, newTime: u64, newSeed: Digest)
      ensures var governing := GoverningCheckpointHeight(forkPoint);
              && (found <==> forkPoint == 0 || (forkPoint in store.rows && governing in store.rows))
              && (found && forkPoint == 0 ==>
                    newTip == HeaderHash(GENESIS) && newTime == adjuster.epochStartMs && newSeed == seed)
              && (found && forkPoint > 0 ==>
                    && newTip == store.rows[forkPoint].blockHash && newTime == store.rows[forkPoint].timestamp
                    && newSeed == store.rows[governing].btcSeed)
    {
      hide GoverningCheckpointHeight;
      found, newTip, newTime, newSeed := true, HeaderHash(GENESIS), adjuster.epochStartMs, seed;
      if forkPoint > 0 {
        var tip := store.Get(forkPoint);
        var checkpoint := store.Get(GoverningCheckpointHeight(forkPoint));
        if tip.None? || checkpoint.None? {
          return false, newTip, newTime, newSeed;
        }
        newTip, newTime, newSeed := tip.value.blockHash, tip.value.timestamp, checkpoint.value.btcSeed;
      }
    }

    /** The writes of a rollback, once everything it needs has been read. */
    method Restore(forkPoint: u64, newTip: Digest, newTime: u64, newSeed: Digest, workRemoved: u128, rolledBack: seq<BlockRecord>)
      modifies this, store
      ensures fresh(ledger)
      ensures State() == NodeState(
        RollBackStore(old(store.rows), forkPoint), forkPoint, newTip, newTime, newSeed,
        SaturatingSub128(old(chainWork), workRemoved), old(adjuster.Value()), OpenScoped(old(ledger.log), forkPoint),
        old(ledger.log), RequeueBlocks(old(mempool), rolledBack), Above(old(pending), forkPoint))
    {
      hide RequeueBlocks, OpenScoped, Above, SaturatingSub128, RollBackStore, ReplayRows, Range;
      var newLedger := new RewardLedger.OpenInner(ledger.log, Some(forkPoint));
      store.RollbackAbove(forkPoint);
      StoresAgree(store.rows, old(store.rows), forkPoint);
      ledger := newLedger;
      chainWork := SaturatingSub128(chainWork, workRemoved);
      height, tipHash, lastTimestamp, seed := forkPoint, newTip, newTime, newSeed;
      pending := Above(pending, forkPoint);
      RequeueRolledBack(rolledBack);
    }

    /** The rollback of `reconcile_fork`. */
    method RollBackTo(forkPoint: u64) returns (done: bool)
      requires forkPoint < height
      modifies this, store
      ensures ledger == old(ledger) || fresh(ledger)
      ensures match RollBack(old(State()), forkPoint)
              case Some(next) => done && State() == next
              case None => !done && State() == old(State())
    {
      hide Range, WorkSum, RequeueBlocks, OpenScoped, Above, RollBackStore, GoverningCheckpointHeight, SaturatingSub128;
      var rolledBack := store.GetRange(forkPoint + 1, height, height - forkPoint + 1);
      RangeIsShort(store.rows, forkPoint + 1, height);
      var workRemoved := TotalWork(rolledBack);
      var found, newTip, newTime, newSeed := ReadForkPoint(forkPoint);
      if !found {
        return false;
      }
      Restore(forkPoint, newTip, newTime, newSeed, workRemoved, rolledBack);
      return true;
    }

    /** `reconcile_fork` against a chosen heavier peer. */
    method Reconcile(peer: Peer)
      modifies this, store, adjuster, ledger
      ensures ledger == old(ledger) || fresh(ledger)
      ensures State() == ReconcileFork(old(State()), peer)
    {
      if peer.height < height {
        return;
      }
      var floor := SaturatingSub(height, MAX_AUTO_REORG_DEPTH);
      var found := LocateForkPoint(peer.hashes, floor);
      if found.None? {
        return;
      }
      var forkPoint := found.value;
      if forkPoint == height {
        SyncFromPeer(peer.height, peer.pages);
        return;
      }
      if forkPoint <= floor || forkPoint < adjuster.epochStartHeight {
        return;
      }
      ForkPointIsBelow(store.rows, peer.hashes, height, floor);
      var done := RollBackTo(forkPoint);
      if done {
        SyncFromPeer(peer.height, peer.pages);
      }
    }

    /** `enqueue_transaction`: checked against the ledger, then bounded by the mempool size. */
    method EnqueueTransaction(signed: SignedTransaction) returns (queued: bool)
      modifies this`mempool
      ensures State() == Enqueue(old(State()), signed)
      ensures queued ==> signed.Id() in mempool && mempool[signed.Id()] == signed
      ensures !queued ==> mempool == old(mempool)
    {
      var from := signed.tx.from;
      var expected := if from in ledger.nonces then ledger.nonces[from] else 0;
      if !signed.Verifies() || signed.tx.nonce != expected || signed.tx.amount + signed.tx.fee > U64_MAX
        || BalanceIn(ledger.balances, from) < signed.tx.amount + signed.tx.fee
      {
        return false;
      }
      if |mempool| >= MAX_MEMPOOL_SIZE && signed.Id() !in mempool {
        return false;
      }
      mempool := mempool[signed.Id() := signed];
      return true;
    }
  }
}
