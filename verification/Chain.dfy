/**
 Chains of block records and everything the node derives from one: tip, clock, difficulty, Bitcoin seed,
 cumulative work, ledger and ledger log. The tip hash alone determines all of it.
 */
module Chains {
  import opened Numbers
  import opened Wrappers
  import opened Types
  import opened Ledgers
  import opened Supply
  import opened Sums
  import opened Merkle
  import opened Difficulty
  import opened Checkpoints

  const GENESIS_TIMESTAMP_MS: u64 := 1_751_241_600_000
  const MAX_TXS_PER_BLOCK: nat := 2_000
  const MAX_FUTURE_MS: u64 := 30_000

  const GENESIS: Header := Header(
    1, 0, ZeroDigest, ZeroDigest, StateRoot(map[]), GENESIS_TIMESTAMP_MS, 0,
    "0000000000000000000000000000000000000000", 0, ZeroDigest)

  /** The part of a stored or relayed block record that consensus reads. */
  datatype BlockRecord = BlockRecord(
    height: u64,
    blockHash: Digest,
    prevHash: Digest,
    nonce: u64,
    timestamp: u64,
    difficultyBits: nat,
    minerAddress: Address,
    rewardBina: u64,
    btcSeed: Digest,
    merkleRoot: Digest,
    stateRoot: Digest,
    transactions: seq<SignedTransaction>,
    authentic: bool)

  // ---------------------------------------------------------------- headers

  predicate HexDigit(c: char) {
    '0' <= c <= '9' || 'a' <= c <= 'f' || 'A' <= c <= 'F'
  }

  function LowerHex(c: char): char {
    match c
    case 'A' => 'a' case 'B' => 'b' case 'C' => 'c' case 'D' => 'd' case 'E' => 'e' case 'F' => 'f'
    case _ => c
  }

  /** `parse_address_hex`: an optional 0x and forty hex digits, in canonical lower case. */
  function ParseAddress(text: string): (address: Option<Address>)
    ensures address.Some? ==> text != ""
  {
    var digits := if |text| >= 2 && text[..2] == "0x" then text[2..] else text;
    if |digits| == 40 && forall c :: c in digits ==> HexDigit(c)
    then Some(seq(40, i requires 0 <= i < |digits| => LowerHex(digits[i])))
    else None
  }

  /** `header_from_record`. */
  function HeaderFromRecord(record: BlockRecord, prevHash: Digest): Option<Header> {
    match ParseAddress(record.minerAddress)
    case None => None
    case Some(miner) => Some(Header(
      1, record.height, prevHash, record.merkleRoot, record.stateRoot, record.timestamp, record.nonce,
      miner, record.difficultyBits, record.btcSeed))
  }

  predicate TimestampIsValid(candidate: u64, previous: u64, now: u64, maxFuture: u64) {
    candidate > previous && candidate <= SaturatingAdd(now, maxFuture)
  }

  // ---------------------------------------------------------------- state derived from a chain

  type Chain = seq<BlockRecord>

  const GENESIS_ADJUSTER: Adjuster := Restored(MIN_BITS, GENESIS_TIMESTAMP_MS, 0)

  function TipHash(chain: Chain): Digest {
    if chain == [] then HeaderHash(GENESIS) else chain[|chain|-1].blockHash
  }

  function TipTime(chain: Chain): u64 {
    if chain == [] then GENESIS_TIMESTAMP_MS else chain[|chain|-1].timestamp
  }

  function TipStateRoot(chain: Chain): Digest {
    if chain == [] then GENESIS.stateRoot else chain[|chain|-1].stateRoot
  }

  function Stamps(chain: Chain): seq<Stamp> {
    seq(|chain|, i requires 0 <= i < |chain| => Stamp(chain[i].height, chain[i].timestamp))
  }

  function AdjusterOf(chain: Chain): Adjuster {
    RecordBlocks(GENESIS_ADJUSTER, Stamps(chain))
  }

  /** The Bitcoin seed carried by the block at the governing checkpoint of the tip. */
  function SeedOf(chain: Chain): Digest
    requires |chain| <= U64_MAX
  {
    if chain == [] then ZeroDigest else chain[GoverningCheckpointHeight(|chain|) - 1].btcSeed
  }

  function BlockWork(bits: nat): nat {
    Pow2(Min(bits, 127))
  }

  function WorkOf(chain: Chain): nat {
    if chain == [] then 0 else WorkOf(chain[..|chain|-1]) + BlockWork(chain[|chain|-1].difficultyBits)
  }

  function LedgerOf(chain: Chain): Ledger {
    if chain == [] then EMPTY_LEDGER
    else
      var last := chain[|chain|-1];
      ExecuteBlock(LedgerOf(chain[..|chain|-1]), last.transactions, last.minerAddress, last.rewardBina)
  }

  // ---------------------------------------------------------------- validity

  /** The header-level rules for extending `prefix` by `block`. */
  predicate LinksTo(prefix: Chain, block: BlockRecord)
    requires |prefix| < U64_MAX
  {
    && block.height == |prefix| + 1
    && block.prevHash == TipHash(prefix)
    && HeaderFromRecord(block, block.prevHash).Some?
    && block.blockHash == HeaderHash(HeaderFromRecord(block, block.prevHash).value)
    && block.timestamp > TipTime(prefix)
    && block.difficultyBits == AdjusterOf(prefix).currentBits
    && (!IsCheckpointHeight(block.height) ==> block.btcSeed == SeedOf(prefix))
    && block.authentic
  }

  /** The execution-level rules, decided by simulation on a ledger. */
  predicate ExecutesOn(ledger: Ledger, block: BlockRecord) {
    && RootOfTransactions(block.transactions) == block.merkleRoot
    && |block.transactions| <= MAX_TXS_PER_BLOCK
    && SimulateBlock(ledger, block.transactions, block.minerAddress, block.rewardBina)
         == (block.transactions, block.stateRoot)
  }

  /** No u64 limit is reached by executing the block. */
  predicate FitsOn(ledger: Ledger, block: BlockRecord) {
    NoncesHaveSuccessors(block.transactions) && ledger.totalMined + block.rewardBina <= U64_MAX
  }

  predicate Linked(chain: Chain) {
    |chain| <= U64_MAX
    && (chain != [] ==> Linked(chain[..|chain|-1]) && LinksTo(chain[..|chain|-1], chain[|chain|-1]))
  }

  predicate Executed(chain: Chain) {
    chain != [] ==>
      && Executed(chain[..|chain|-1])
      && ExecutesOn(LedgerOf(chain[..|chain|-1]), chain[|chain|-1])
      && FitsOn(LedgerOf(chain[..|chain|-1]), chain[|chain|-1])
  }

  lemma SnocParts(chain: Chain, block: BlockRecord)
    ensures (chain + [block])[..|chain + [block]| - 1] == chain
    ensures (chain + [block])[|chain + [block]| - 1] == block
  {
  }

  lemma {:induction false} LinkedAt(chain: Chain, i: nat)
    requires Linked(chain) && i <= |chain|
    ensures Linked(chain[..i])
    ensures i < |chain| ==> LinksTo(chain[..i], chain[i])
  {
    if i < |chain| - 1 {
      LinkedAt(chain[..|chain|-1], i);
      assert chain[..|chain|-1][..i] == chain[..i];
    } else if i == |chain| {
      assert chain[..i] == chain;
    }
  }

  lemma {:induction false} ExecutedAt(chain: Chain, i: nat)
    requires Executed(chain) && i <= |chain|
    ensures Executed(chain[..i])
    ensures i < |chain| ==> ExecutesOn(LedgerOf(chain[..i]), chain[i]) && FitsOn(LedgerOf(chain[..i]), chain[i])
  {
    if i < |chain| - 1 {
      ExecutedAt(chain[..|chain|-1], i);
      assert chain[..|chain|-1][..i] == chain[..i];
    } else if i == |chain| {
      assert chain[..i] == chain;
    }
  }

  // ---------------------------------------------------------------- structure

  function HeaderAt(chain: Chain, i: nat): Option<Header>
    requires i < |chain|
  {
    HeaderFromRecord(chain[i], chain[i].prevHash)
  }

  /** What each stored block says about itself and its predecessor. */
  lemma BlockFields(chain: Chain, i: nat)
    requires Linked(chain) && i < |chain|
    ensures chain[i].height == i + 1
    ensures chain[i].prevHash == TipHash(chain[..i])
    ensures chain[i].timestamp > TipTime(chain[..i])
    ensures HeaderAt(chain, i).Some? && chain[i].blockHash == HeaderHash(HeaderAt(chain, i).value)
    ensures chain[i].minerAddress != ""
  {
    LinkedAt(chain, i);
  }

  /** Heights are positions, hashes link neighbours, and the clock only moves forward. */
  lemma {:induction false} LinkedChainIsOrdered(chain: Chain, i: nat, j: nat)
    requires Linked(chain) && i < j < |chain|
    ensures chain[i].height == i + 1 && chain[j].height == j + 1
    ensures chain[j].prevHash == chain[j - 1].blockHash
    ensures GENESIS_TIMESTAMP_MS < chain[i].timestamp < chain[j].timestamp
    decreases j
  {
    hide Linked, HeaderFromRecord;
    BlockFields(chain, i);
    BlockFields(chain, j);
    assert TipHash(chain[..j]) == chain[j - 1].blockHash;
    assert TipTime(chain[..j]) == chain[j - 1].timestamp;
    ClockStartsAtGenesis(chain, i);
    if i + 1 < j {
      LinkedChainIsOrdered(chain, i, j - 1);
    }
  }

  lemma {:induction false} ClockStartsAtGenesis(chain: Chain, i: nat)
    requires Linked(chain) && i < |chain|
    ensures GENESIS_TIMESTAMP_MS < chain[i].timestamp
  {
    BlockFields(chain, i);
    if i > 0 {
      ClockStartsAtGenesis(chain, i - 1);
      assert TipTime(chain[..i]) == chain[i - 1].timestamp;
    }
  }

  lemma HeightsArePositions(chain: Chain)
    requires Linked(chain)
    ensures Numbered(Stamps(chain))
  {
    forall i | 0 <= i < |chain|
      ensures chain[i].height == i + 1
    {
      BlockFields(chain, i);
    }
  }

  lemma StampsAppend(chain: Chain, block: BlockRecord)
    ensures Stamps(chain + [block]) == Stamps(chain) + [Stamp(block.height, block.timestamp)]
    ensures AdjusterOf(chain + [block]) == RecordBlock(AdjusterOf(chain), Stamp(block.height, block.timestamp))
  {
    var stamps := Stamps(chain + [block]);
    assert stamps == Stamps(chain) + [Stamp(block.height, block.timestamp)];
    assert stamps[..|stamps|-1] == Stamps(chain);
  }

  /** The pinned seed changes exactly at checkpoint heights. */
  lemma SeedStep(chain: Chain, block: BlockRecord)
    requires |chain| < U64_MAX && block.height == |chain| + 1
    ensures SeedOf(chain + [block]) == if IsCheckpointHeight(block.height) then block.btcSeed else SeedOf(chain)
  {
    GoverningStep(|chain| + 1);
  }

  /** Every block carries the seed of its governing checkpoint block. */
  lemma {:induction false} SeedsFollowCheckpoints(chain: Chain, i: nat)
    requires Linked(chain) && i < |chain|
    ensures chain[i].btcSeed == chain[GoverningCheckpointHeight(i + 1) - 1].btcSeed
    ensures SeedOf(chain[..i + 1]) == chain[i].btcSeed
  {
    hide Linked, HeaderFromRecord, AdjusterOf, GoverningCheckpointHeight, IsCheckpointHeight;
    LinkedAt(chain, i);
    GoverningStep(i + 1);
    if !IsCheckpointHeight(i + 1) {
      assert SeedOf(chain[..i]) == chain[GoverningCheckpointHeight(i) - 1].btcSeed;
    }
  }

  /** Required difficulties stay within the adjuster's range. */
  lemma {:induction false} BitsInRange(chain: Chain, i: nat)
    requires Linked(chain) && i < |chain|
    ensures MIN_BITS <= chain[i].difficultyBits <= MAX_BITS
    ensures 0 < BlockWork(chain[i].difficultyBits) <= Pow2(MAX_BITS)
  {
    LinkedAt(chain, i);
    BitsStayInRange(GENESIS_ADJUSTER, Stamps(chain[..i]));
    PowerMonotone(chain[i].difficultyBits, MAX_BITS);
  }

  /** Each block adds at most 2^45, so no u128 operation on the total ever saturates. */
  lemma {:induction false} WorkIsBounded(chain: Chain)
    requires Linked(chain)
    ensures WorkOf(chain) <= |chain| * Pow2(MAX_BITS) <= U64_MAX * Pow2(MAX_BITS)
    ensures U64_MAX * Pow2(MAX_BITS) < U128_MAX
  {
    PowersOfTwo();
    if chain != [] {
      WorkIsBounded(chain[..|chain|-1]);
      BitsInRange(chain, |chain| - 1);
    }
  }

  lemma PowersOfTwo()
    ensures Pow2(MAX_BITS) == 0x2000_0000_0000
  {
    assert Pow2(5) == 32;
    assert Pow2(10) == 1024;
    assert Pow2(15) == 0x8000;
    assert Pow2(20) == 0x10_0000;
    assert Pow2(25) == 0x200_0000;
    assert Pow2(30) == 0x4000_0000;
    assert Pow2(35) == 0x8_0000_0000;
    assert Pow2(40) == 0x100_0000_0000;
  }

  lemma {:induction false} PowerMonotone(a: nat, b: nat)
    requires a <= b
    ensures 0 < Pow2(a) <= Pow2(b)
    decreases b
  {
    if a == b {
      if a > 0 {
        PowerMonotone(a - 1, b - 1);
      }
    } else {
      PowerMonotone(a, b - 1);
    }
  }

  // ---------------------------------------------------------------- the ledger of an executed chain

  /** One block: real execution gives the root the header commits to, and keeps the books balanced. */
  lemma BlockLedger(ledger: Ledger, block: BlockRecord)
    requires Sum(ledger.balances) == ledger.totalMined
    requires ExecutesOn(ledger, block) && FitsOn(ledger, block) && block.minerAddress != ""
    ensures var after := ExecuteBlock(ledger, block.transactions, block.minerAddress, block.rewardBina);
            && after.Root() == block.stateRoot
            && Sum(after.balances) == after.totalMined == ledger.totalMined + block.rewardBina
            && Accepted(ledger, block.transactions, block.minerAddress) == block.transactions
  {
    var txs, miner, reward := block.transactions, block.minerAddress, block.rewardBina;
    RewardsFitTheTotal(ledger, txs, miner, reward);
    BlockConserves(ledger, txs, miner, reward);
    AcceptedIsSubset(ledger, txs, miner);
    SimulationMatchesExecutionExactly(ledger, txs, miner, reward);
  }

  lemma {:induction false} AcceptedIsSubset(ledger: Ledger, txs: seq<SignedTransaction>, miner: Address)
    ensures forall signed :: signed in Accepted(ledger, txs, miner) ==> signed in txs
  {
    if txs != [] {
      AcceptedIsSubset(ledger, txs[..|txs|-1], miner);
    }
  }

  /** Along a valid chain the ledger's own root is the tip header's, and balances sum to the coins mined. */
  lemma {:induction false} ChainLedger(chain: Chain)
    requires Linked(chain) && Executed(chain)
    ensures LedgerOf(chain).Root() == TipStateRoot(chain)
    ensures Sum(LedgerOf(chain).balances) == LedgerOf(chain).totalMined
    ensures chain != [] ==>
              ExecutesInFull(LedgerOf(chain[..|chain|-1]), chain[|chain|-1].transactions, chain[|chain|-1].minerAddress)
  {
    if chain == [] {
      assert EMPTY_LEDGER.View() == map[];
    } else {
      ChainLedger(chain[..|chain|-1]);
      BlockLedger(LedgerOf(chain[..|chain|-1]), chain[|chain|-1]);
    }
  }

  // ---------------------------------------------------------------- the tip determines everything

  /** The header behind the tip hash. */
  function TipHeader(chain: Chain): (header: Header)
    requires Linked(chain)
    ensures TipHash(chain) == HeaderHash(header)
    ensures header.height == |chain|
    ensures chain != [] ==> header.prevHash == TipHash(chain[..|chain|-1])
  {
    if chain == [] then GENESIS else HeaderAt(chain, |chain| - 1).value
  }

  /** Equal tip hashes: equal heights, equal last headers, and equal hashes one block down. */
  lemma SameTipOneDown(a: Chain, b: Chain)
    requires Linked(a) && Linked(b) && TipHash(a) == TipHash(b)
    ensures |a| == |b|
    ensures a != [] ==> TipHash(a[..|a|-1]) == TipHash(b[..|b|-1])
    ensures a != [] ==> HeaderAt(a, |a| - 1).Some? && HeaderAt(a, |a| - 1) == HeaderAt(b, |b| - 1)
  {
    assert TipHeader(a) == TipHeader(b);
  }

  /** Linked chains with the same tip hash have the same header at every height. */
  lemma {:induction false} SameTipSameHeader(a: Chain, b: Chain, i: nat)
    requires Linked(a) && Linked(b) && TipHash(a) == TipHash(b) && i < |a|
    ensures |a| == |b|
    ensures HeaderAt(a, i).Some? && HeaderAt(a, i) == HeaderAt(b, i)
    decreases |a|
  {
    SameTipOneDown(a, b);
    if i < |a| - 1 {
      SameTipSameHeader(a[..|a|-1], b[..|b|-1], i);
    }
  }

  lemma SameHeaderSameFields(a: Chain, b: Chain, i: nat)
    requires i < |a| && i < |b| && HeaderAt(a, i).Some? && HeaderAt(a, i) == HeaderAt(b, i)
    ensures Stamps(a)[i] == Stamps(b)[i]
    ensures a[i].timestamp == b[i].timestamp && a[i].stateRoot == b[i].stateRoot && a[i].merkleRoot == b[i].merkleRoot
    ensures a[i].btcSeed == b[i].btcSeed && a[i].difficultyBits == b[i].difficultyBits
  {
  }

  /** Two nodes, or one node at two times, with the same tip hash agree on clock, difficulty, seed and work. */
  lemma {:induction false} SameTipSameConsensus(a: Chain, b: Chain)
    requires Linked(a) && Linked(b) && TipHash(a) == TipHash(b)
    ensures |a| == |b| && TipTime(a) == TipTime(b) && TipStateRoot(a) == TipStateRoot(b)
    ensures AdjusterOf(a) == AdjusterOf(b)
    ensures SeedOf(a) == SeedOf(b)
    ensures WorkOf(a) == WorkOf(b)
  {
    SameTipOneDown(a, b);
    forall i | 0 <= i < |a|
      ensures Stamps(a)[i] == Stamps(b)[i]
      ensures a[i].btcSeed == b[i].btcSeed && a[i].difficultyBits == b[i].difficultyBits
      ensures a[i].timestamp == b[i].timestamp && a[i].stateRoot == b[i].stateRoot
    {
      SameTipSameHeader(a, b, i);
      SameHeaderSameFields(a, b, i);
    }
    assert Stamps(a) == Stamps(b);
    SameBitsSameWork(a, b);
  }

  lemma {:induction false} SameBitsSameWork(a: Chain, b: Chain)
    requires |a| == |b| && forall i :: 0 <= i < |a| ==> a[i].difficultyBits == b[i].difficultyBits
    ensures WorkOf(a) == WorkOf(b)
  {
    if a != [] {
      SameBitsSameWork(a[..|a|-1], b[..|b|-1]);
    }
  }

  /** ... on every account, on the coins mined, and on the exact transactions of every block. */
  lemma {:induction false} SameTipSameLedger(a: Chain, b: Chain)
    requires Linked(a) && Executed(a) && Linked(b) && Executed(b) && TipHash(a) == TipHash(b)
    ensures LedgerOf(a).View() == LedgerOf(b).View()
    ensures LedgerOf(a).totalMined == LedgerOf(b).totalMined
    ensures |a| == |b| && forall i :: 0 <= i < |a| ==> TxIds(a[i].transactions) == TxIds(b[i].transactions)
  {
    hide Linked, Executed, LedgerOf, TipHash, WorkOf, SeedOf, AdjusterOf;
    SameTipSameConsensus(a, b);
    ChainLedger(a);
    ChainLedger(b);
    SameViewSameSum(LedgerOf(a), LedgerOf(b));
    forall i | 0 <= i < |a|
      ensures TxIds(a[i].transactions) == TxIds(b[i].transactions)
    {
      SameTipSameHeader(a, b, i);
      SameHeaderSameTransactions(a, b, i);
    }
  }

  lemma SameHeaderSameTransactions(a: Chain, b: Chain, i: nat)
    requires Linked(a) && Executed(a) && Linked(b) && Executed(b) && i < |a| && i < |b|
    requires HeaderAt(a, i) == HeaderAt(b, i)
    ensures TxIds(a[i].transactions) == TxIds(b[i].transactions)
  {
    LinkedAt(a, i);
    LinkedAt(b, i);
    ExecutedAt(a, i);
    ExecutedAt(b, i);
    ChainLedger(a[..i]);
    ChainLedger(b[..i]);
    BlockLedger(LedgerOf(a[..i]), a[i]);
    BlockLedger(LedgerOf(b[..i]), b[i]);
    RootBindsExecutedList(
      LedgerOf(a[..i]), a[i].transactions, a[i].minerAddress, LedgerOf(b[..i]), b[i].transactions, b[i].minerAddress);
  }
}
