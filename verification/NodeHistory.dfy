/** Over a node's life: nonces are spent once on valid chains, the log rebuilds the ledger, and work is exact. */
module NodeHistories {
  import opened Numbers
  import opened Types
  import opened Ledgers
  import opened Replay
  import opened Merkle
  import opened Difficulty
  import opened Chains
  import opened ChainLogs
  import opened NodeStates
  import opened NodeInvariants
  import opened NodeLedgers

  // ---------------------------------------------------------------- a nonce is spent once

  predicate Spent(ledger: Ledger, txs: seq<SignedTransaction>) {
    forall signed :: signed in txs ==> signed.tx.nonce < ledger.Nonce(signed.tx.from)
  }

  /** One block: it spends nonces that were free before it, and frees none. */
  lemma BlockSpendsNonces(ledger: Ledger, txs: seq<SignedTransaction>, miner: Address, reward: u64)
    requires ExecutesInFull(ledger, txs, miner) && NoncesHaveSuccessors(txs)
    ensures var after := ExecuteBlock(ledger, txs, miner, reward);
            && Spent(after, txs)
            && (forall address :: ledger.Nonce(address) <= after.Nonce(address))
    ensures forall signed :: signed in txs ==> ledger.Nonce(signed.tx.from) <= signed.tx.nonce
  {
    NoncesAreSpent(ledger, txs, miner);
    NoncesWereFree(ledger, txs, miner);
    assert ExecuteBlock(ledger, txs, miner, reward).nonces == Execute(ledger, txs, miner).nonces;
  }

  lemma {:induction false} NoncesWereFree(ledger: Ledger, txs: seq<SignedTransaction>, miner: Address)
    requires ExecutesInFull(ledger, txs, miner) && NoncesHaveSuccessors(txs)
    ensures forall signed :: signed in txs ==> ledger.Nonce(signed.tx.from) <= signed.tx.nonce
  {
    if txs != [] {
      var rest, last := txs[..|txs|-1], txs[|txs|-1];
      FullPrefix(ledger, txs, miner);
      assert forall signed :: signed in rest ==> signed in txs;
      NoncesWereFree(ledger, rest, miner);
      NoncesAreSpent(ledger, rest, miner);
      assert forall signed :: signed in txs ==> signed in rest || signed == last;
    }
  }

  lemma LastBlockSpends(chain: Chain)
    requires Linked(chain) && Executed(chain) && chain != []
    ensures var rest, last := chain[..|chain|-1], chain[|chain|-1];
            && Spent(LedgerOf(chain), last.transactions)
            && (forall address :: LedgerOf(rest).Nonce(address) <= LedgerOf(chain).Nonce(address))
            && (forall signed :: signed in last.transactions ==> LedgerOf(rest).Nonce(signed.tx.from) <= signed.tx.nonce)
  {
    var rest, last := chain[..|chain|-1], chain[|chain|-1];
    ChainLedger(chain);
    BlockSpendsNonces(LedgerOf(rest), last.transactions, last.minerAddress, last.rewardBina);
  }

  /** Every nonce used anywhere in a valid chain is used up for its sender at the tip. */
  lemma {:induction false} ChainSpendsNonces(chain: Chain, i: nat)
    requires Linked(chain) && Executed(chain) && i < |chain|
    ensures Spent(LedgerOf(chain), chain[i].transactions)
  {
    hide Linked, Executed, LedgerOf;
    LastBlockSpends(chain);
    if i < |chain| - 1 {
      LinkedAt(chain, |chain| - 1);
      ExecutedAt(chain, |chain| - 1);
      ChainSpendsNonces(chain[..|chain|-1], i);
    }
  }

  /** No sender ever spends the same nonce twice on a valid chain, in one block or in two. */
  lemma {:induction false} NonceIsSpentOnce(chain: Chain, i: nat, a: nat, j: nat, b: nat)
    requires Linked(chain) && Executed(chain)
    requires i < |chain| && a < |chain[i].transactions| && j < |chain| && b < |chain[j].transactions|
    requires chain[i].transactions[a].tx.from == chain[j].transactions[b].tx.from
    requires chain[i].transactions[a].tx.nonce == chain[j].transactions[b].tx.nonce
    ensures i == j && a == b
  {
    hide Linked, Executed, LedgerOf;
    if i == j {
      LinkedAt(chain, i + 1);
      ExecutedAt(chain, i + 1);
      ChainLedger(chain[..i + 1]);
      assert chain[..i + 1][..i] == chain[..i];
      ExecutedAt(chain, i);
      NoncesRise(LedgerOf(chain[..i]), chain[i].transactions, chain[i].minerAddress, a, b);
      NoncesRise(LedgerOf(chain[..i]), chain[i].transactions, chain[i].minerAddress, b, a);
    } else {
      LaterBlockHasNewNonces(chain, i, a, j, b);
      LaterBlockHasNewNonces(chain, j, b, i, a);
    }
  }

  /** Within one executed list a sender's nonces rise. */
  lemma {:induction false} NoncesRise(ledger: Ledger, txs: seq<SignedTransaction>, miner: Address, a: nat, b: nat)
    requires ExecutesInFull(ledger, txs, miner) && NoncesHaveSuccessors(txs) && a < |txs| && b < |txs|
    ensures a < b && txs[a].tx.from == txs[b].tx.from ==> txs[a].tx.nonce < txs[b].tx.nonce
  {
    if a < b {
      var rest := txs[..|txs|-1];
      FullPrefix(ledger, txs, miner);
      assert forall signed :: signed in rest ==> signed in txs;
      if b < |rest| {
        NoncesRise(ledger, rest, miner, a, b);
      } else {
        NoncesAreSpent(ledger, rest, miner);
        assert rest[a] in rest;
      }
    }
  }

  lemma LaterBlockHasNewNonces(chain: Chain, i: nat, a: nat, j: nat, b: nat)
    requires Linked(chain) && Executed(chain)
    requires i < |chain| && a < |chain[i].transactions| && j < |chain| && b < |chain[j].transactions|
    ensures i < j && chain[i].transactions[a].tx.from == chain[j].transactions[b].tx.from ==>
              chain[i].transactions[a].tx.nonce < chain[j].transactions[b].tx.nonce
  {
    hide Linked, Executed, LedgerOf;
    if i < j {
      LinkedAt(chain, j);
      ExecutedAt(chain, j);
      LinkedAt(chain, j + 1);
      ExecutedAt(chain, j + 1);
      assert chain[..j + 1][..j] == chain[..j];
      LastBlockSpends(chain[..j + 1]);
      ChainSpendsNonces(chain[..j], i);
      assert chain[i].transactions[a] in chain[..j][i].transactions;
      assert chain[j].transactions[b] in chain[j].transactions;
    }
  }

  // ---------------------------------------------------------------- the log and the work

  /** Reopening the log at the tip after any orderly run of appends and rollbacks gives the ledger in memory. */
  lemma {:induction false} LogRebuildsTheLedger(events: seq<Event>)
    requires OrderlyRun(events)
    ensures var state := Run(GENESIS_STATE, events);
            && OpenScoped(state.log, state.height) == state.ledger
            && Contiguous(state) && state.ledger == LedgerOf(ChainOf(state))
  {
    hide Sound, OrderlyRun, OpenScoped, Linked, Executed, LogFor, LedgerOf, FullyEndorsed, Step;
    var state := Run(GENESIS_STATE, events);
    EveryOrderlyRunIsSound(events);
    SoundIsSolvent(state);
    assert ChainOf(state)[..state.height] == ChainOf(state);
    OpenScopedRebuilds(state.log, ChainOf(state), state.height);
  }

  lemma SoundIsSolvent(state: NodeState)
    requires Sound(state)
    ensures Solvent(state)
  {
  }

  /** The running work is a plain sum of powers of two: no saturation and no 127-bit cap ever takes effect. */
  lemma {:induction false} WorkIsExact(state: NodeState, record: BlockRecord, seed: Digest)
    requires Consistent(state) && state.height < U64_MAX && LinksTo(ChainOf(state), record)
    ensures record.difficultyBits <= MAX_BITS < 127
    ensures Adopt(state, record, seed).chainWork == state.chainWork + Pow2(record.difficultyBits) < U128_MAX
  {
    var longer := ChainOf(state) + [record];
    SnocParts(ChainOf(state), record);
    assert Linked(longer);
    BitsInRange(longer, |longer| - 1);
    WorkIsBounded(longer);
  }

  /** ... and a rollback subtracts exactly the work of the blocks it drops. */
  lemma {:induction false} RollBackWorkIsExact(state: NodeState, forkPoint: u64)
    requires Consistent(state) && RollbackAllowed(state, forkPoint)
    ensures RollBack(state, forkPoint).Some?
    ensures RollBack(state, forkPoint).value.chainWork + WorkOf(ChainOf(state)[forkPoint..]) == state.chainWork
  {
    hide RollBack, Consistent, WorkOf;
    RollBackConsistent(state, forkPoint);
    ConsistentWork(state);
    ConsistentWork(RollBack(state, forkPoint).value);
    WorkIsAdditive(ChainOf(state)[..forkPoint], ChainOf(state)[forkPoint..]);
    assert ChainOf(state)[..forkPoint] + ChainOf(state)[forkPoint..] == ChainOf(state);
  }

  lemma ConsistentWork(state: NodeState)
    requires Consistent(state)
    ensures Contiguous(state) && state.chainWork == WorkOf(ChainOf(state))
  {
  }

  lemma {:induction false} WorkIsAdditive(a: Chain, b: Chain)
    ensures WorkOf(a + b) == WorkOf(a) + WorkOf(b)
    decreases |b|
  {
    if b == [] {
      assert a + b == a;
    } else {
      WorkIsAdditive(a, b[..|b|-1]);
      assert (a + b)[..|a + b| - 1] == a + b[..|b|-1];
    }
  }
}
