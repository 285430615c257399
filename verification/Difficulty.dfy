/** The difficulty adjuster: an exact integer reading of its logarithmic retarget rule, and its fold over a chain. */
module Difficulty {
  import opened Numbers
  import opened Wrappers

  const MIN_BITS: nat := 25
  const MAX_BITS: nat := 45
  const TARGET_BLOCK_MS: u64 := 40
  const EPOCH_SIZE: u64 := 20
  const MAX_DELTA_BITS: int := 3
  const TARGET_MS: u64 := EPOCH_SIZE * TARGET_BLOCK_MS

  function Clamp(x: int, low: int, high: int): int
    requires low <= high
  {
    if x < low then low else if x > high then high else x
  }

  // ---------------------------------------------------------------- rounding a base-2 logarithm

  /** log2(num / den) rounded to nearest, for num >= den: halve the ratio while it is at least sqrt 2. */
  function RoundedLog2Up(num: nat, den: nat): (n: int)
    requires num > 0 && den > 0
    ensures n >= 0
    decreases if num > den then num - den else 0
  {
    if num * num >= 2 * den * den then
      assert num > den by { if num <= den { SquaresMonotone(num, den); } }
      1 + RoundedLog2Up(num, 2 * den)
    else 0
  }

  function RoundedLog2(num: nat, den: nat): int
    requires num > 0 && den > 0
  {
    if num >= den then RoundedLog2Up(num, den) else -RoundedLog2Up(den, num)
  }

  lemma SquaresMonotone(a: nat, b: nat)
    requires a <= b
    ensures a * a <= b * b
  {
  }

  lemma SquareKeepsParity(x: nat)
    ensures (x * x) % 2 == x % 2
  {
    var k := x / 2;
    if x == 2 * k {
      assert x * x == 2 * (2 * (k * k));
    } else {
      assert x == 2 * k + 1;
      assert x * x == 2 * (2 * (k * k) + 2 * k) + 1;
    }
  }

  /** The square root of two is irrational, so rounding never meets a tie. */
  lemma NoTies(x: nat, y: nat)
    requires x * x == 2 * (y * y)
    ensures y == 0
    decreases x
  {
    SquareKeepsParity(x);
    var k := x / 2;
    assert x * x == 4 * (k * k) by { assert x == 2 * k; }
    assert y * y == 2 * (k * k);
    if y < x {
      NoTies(y, k);
    } else {
      SquaresMonotone(x, y);
    }
  }

  function Pow2(n: nat): nat {
    if n == 0 then 1 else 2 * Pow2(n - 1)
  }

  /** |log2(num / den)| < 1/2, squared. */
  predicate WithinHalf(num: nat, den: nat) {
    den * den < 2 * num * num && num * num < 2 * den * den
  }

  /** The rounded logarithm is the integer within one half of the true one. */
  lemma {:induction false} RoundedUpIsNearest(num: nat, den: nat)
    requires num > 0 && den > 0 && den * den < 2 * num * num
    ensures WithinHalf(num, den * Pow2(RoundedLog2Up(num, den)))
    decreases if num > den then num - den else 0
  {
    if num * num >= 2 * den * den {
      if num <= den {
        SquaresMonotone(num, den);
      }
      var twice := 2 * den;
      assert twice * twice < 2 * num * num by {
        assert twice * twice == 4 * (den * den);
        if num * num == 2 * (den * den) {
          NoTies(num, den);
        }
      }
      RoundedUpIsNearest(num, twice);
      PowerShifts(den, RoundedLog2Up(num, twice));
    } else {
      assert den * Pow2(0) == den;
    }
  }

  /** In both directions: the result is the one power of two within a factor sqrt 2 of the ratio. */
  lemma {:induction false} RoundedLogIsNearest(num: nat, den: nat)
    requires num > 0 && den > 0
    ensures var n := RoundedLog2(num, den);
            if n >= 0 then WithinHalf(num, den * Pow2(n)) else WithinHalf(num * Pow2(-n), den)
  {
    if num >= den {
      NotSmaller(num, den);
      RoundedUpIsNearest(num, den);
    } else {
      NotSmaller(den, num);
      RoundedUpIsNearest(den, num);
      var up := RoundedLog2Up(den, num);
      if up == 0 {
        assert num * Pow2(0) == num && den * Pow2(0) == den;
      }
    }
  }

  lemma NotSmaller(large: nat, small: nat)
    requires large >= small && large > 0
    ensures small * small < 2 * large * large
  {
    SquaresMonotone(small, large);
    assert 2 * large * large == large * large + large * large;
    assert large * large > 0;
  }

  lemma PowerShifts(den: nat, n: nat)
    ensures (2 * den) * Pow2(n) == den * Pow2(n + 1)
  {
  }

  // ---------------------------------------------------------------- the retarget step

  /** Bits to add after an epoch that took `actualMs`: log2(target / actual), rounded, at most three either way. */
  function Delta(actualMs: u64): int {
    if actualMs == 0 then MAX_DELTA_BITS
    else Clamp(RoundedLog2(TARGET_MS, actualMs), -MAX_DELTA_BITS, MAX_DELTA_BITS)
  }

  /** The rule in integers alone: 2^(2d-1) < (800 / a)^2 < 2^(2d+1), open-ended at the two clamps. */
  predicate RetargetRule(actualMs: nat, delta: int) {
    var a2 := actualMs * actualMs;
    match delta
    case 3 => 32 * a2 < 640_000
    case 2 => 8 * a2 < 640_000 < 32 * a2
    case 1 => 2 * a2 < 640_000 < 8 * a2
    case 0 => a2 < 1_280_000 && 640_000 < 2 * a2
    case -1 => a2 < 5_120_000 && 1_280_000 < a2
    case -2 => a2 < 20_480_000 && 5_120_000 < a2
    case -3 => 20_480_000 < a2
    case _ => false
  }

  lemma LogUnfoldsTwice(num: nat, den: nat)
    requires num > 0 && den > 0
    ensures RoundedLog2Up(num, den) >= 1 <==> num * num >= 2 * (den * den)
    ensures RoundedLog2Up(num, den) >= 2 <==> num * num >= 8 * (den * den)
    ensures RoundedLog2Up(num, den) >= 3 <==> num * num >= 32 * (den * den)
  {
    var d := den;
    var d2, d4 := 2 * d, 4 * d;
    assert 2 * d * d == 2 * (d * d);
    assert 2 * d2 * d2 == 8 * (d * d);
    assert 2 * d4 * d4 == 32 * (d * d);
    assert RoundedLog2Up(num, d2) >= 1 <==> num * num >= 2 * d2 * d2;
    assert RoundedLog2Up(num, d4) >= 1 <==> num * num >= 2 * d4 * d4;
  }

  lemma NoTieAt(actualMs: nat, scale: nat)
    requires scale == 1 || scale == 2 || scale == 4
    requires actualMs > 0
    ensures 640_000 != 2 * (scale * scale) * (actualMs * actualMs)
    ensures actualMs * actualMs != 2 * (scale * scale) * 640_000
  {
    var right, left := scale * actualMs, scale * 800;
    assert right * right == (scale * scale) * (actualMs * actualMs);
    assert left * left == (scale * scale) * 640_000;
    if 640_000 == 2 * (right * right) {
      NoTies(800, right);
    }
    if actualMs * actualMs == 2 * (left * left) {
      NoTies(actualMs, left);
    }
  }

  /** For every epoch duration the code's delta is the one integer that satisfies the integer rule. */
  lemma RetargetIsExact(actualMs: u64, delta: int)
    ensures Delta(actualMs) == delta <==> RetargetRule(actualMs, delta)
  {
    if actualMs > 0 {
      LogUnfoldsTwice(TARGET_MS, actualMs);
      LogUnfoldsTwice(actualMs, TARGET_MS);
      NoTieAt(actualMs, 1);
      NoTieAt(actualMs, 2);
      NoTieAt(actualMs, 4);
      if actualMs <= TARGET_MS {
        SquaresMonotone(actualMs, TARGET_MS);
      } else {
        SquaresMonotone(TARGET_MS, actualMs);
      }
    }
  }

  /** Faster epochs never lead to a lower difficulty. */
  lemma FasterIsNotEasier(fast: u64, slow: u64)
    requires fast <= slow
    ensures Delta(fast) >= Delta(slow)
  {
    hide Delta;
    RetargetIsExact(fast, Delta(fast));
    RetargetIsExact(slow, Delta(slow));
    SquaresMonotone(fast, slow);
  }

  datatype AdjustmentInfo = AdjustmentInfo(
    newBits: nat, oldBits: nat, actualMs: u64, targetMs: u64, rawDelta: int, atHeight: u64)

  datatype Adjuster = Adjuster(
    currentBits: nat, epochStartMs: u64, epochStartHeight: u64, lastAdjustment: Option<AdjustmentInfo>)
  {
    predicate InRange() {
      MIN_BITS <= currentBits <= MAX_BITS
    }

    /** Equal in everything that later retargets depend on. */
    predicate SameConsensus(other: Adjuster) {
      && currentBits == other.currentBits
      && epochStartMs == other.epochStartMs
      && epochStartHeight == other.epochStartHeight
    }
  }

  function Restored(bits: nat, epochStartMs: u64, epochStartHeight: u64): Adjuster {
    Adjuster(Clamp(bits, MIN_BITS, MAX_BITS), epochStartMs, epochStartHeight, None)
  }

  datatype Stamp = Stamp(height: u64, timestamp: u64)

  function RecordBlock(adjuster: Adjuster, block: Stamp): Adjuster {
    if block.height == 0 || block.height % EPOCH_SIZE != 0 then adjuster
    else
      var actual := SaturatingSub(block.timestamp, adjuster.epochStartMs);
      var delta := Delta(actual);
      var bits := Clamp(adjuster.currentBits + delta, MIN_BITS, MAX_BITS);
      Adjuster(bits, block.timestamp, block.height,
               Some(AdjustmentInfo(bits, adjuster.currentBits, actual, TARGET_MS, delta, block.height)))
  }

  function RecordBlocks(adjuster: Adjuster, blocks: seq<Stamp>): Adjuster {
    if blocks == [] then adjuster
    else RecordBlock(RecordBlocks(adjuster, blocks[..|blocks|-1]), blocks[|blocks|-1])
  }

  lemma {:induction false} BitsStayInRange(adjuster: Adjuster, blocks: seq<Stamp>)
    requires adjuster.InRange()
    ensures RecordBlocks(adjuster, blocks).InRange()
  {
    if blocks != [] {
      BitsStayInRange(adjuster, blocks[..|blocks|-1]);
    }
  }

  /** A block's new difficulty is monotone in how fast its epoch was, whatever the bits before. */
  lemma {:induction false} RetargetIsMonotone(adjuster: Adjuster, height: u64, early: u64, late: u64)
    requires early <= late
    ensures RecordBlock(adjuster, Stamp(height, early)).currentBits >= RecordBlock(adjuster, Stamp(height, late)).currentBits
  {
    FasterIsNotEasier(SaturatingSub(early, adjuster.epochStartMs), SaturatingSub(late, adjuster.epochStartMs));
  }

  /** Persisting the three consensus fields at any cut and restoring them loses nothing. */
  lemma {:induction false} RestoreAtAnyCut(adjuster: Adjuster, before: seq<Stamp>, after: seq<Stamp>)
    requires adjuster.InRange()
    ensures var cut := RecordBlocks(adjuster, before);
            RecordBlocks(Restored(cut.currentBits, cut.epochStartMs, cut.epochStartHeight), after)
              .SameConsensus(RecordBlocks(adjuster, before + after))
  {
    BitsStayInRange(adjuster, before);
    if after == [] {
      assert before + after == before;
    } else {
      var rest := after[..|after|-1];
      RestoreAtAnyCut(adjuster, before, rest);
      assert (before + after)[..|before| + |rest|] == before + rest;
    }
  }

  /** The blocks are at heights 1, 2, 3, ... */
  predicate Numbered(blocks: seq<Stamp>) {
    forall i :: 0 <= i < |blocks| ==> blocks[i].height == i + 1
  }

  /** On a numbered chain the epoch start is the last multiple of twenty. */
  lemma {:induction false} EpochStartIsLastMultiple(adjuster: Adjuster, blocks: seq<Stamp>)
    requires adjuster.epochStartHeight == 0 && Numbered(blocks)
    ensures RecordBlocks(adjuster, blocks).epochStartHeight == EPOCH_SIZE * (|blocks| / EPOCH_SIZE)
  {
    if blocks != [] {
      EpochStartIsLastMultiple(adjuster, blocks[..|blocks|-1]);
    }
  }

  /** Dropping blocks above the epoch start leaves the adjuster, including its last adjustment, as it was. */
  lemma {:induction false} TruncationKeepsAdjuster(adjuster: Adjuster, blocks: seq<Stamp>, keep: nat)
    requires adjuster.epochStartHeight == 0 && Numbered(blocks)
    requires RecordBlocks(adjuster, blocks).epochStartHeight <= keep <= |blocks|
    ensures RecordBlocks(adjuster, blocks[..keep]) == RecordBlocks(adjuster, blocks)
  {
    if keep == |blocks| {
      assert blocks[..keep] == blocks;
    } else {
      var rest, last := blocks[..|blocks|-1], blocks[|blocks|-1];
      assert last.height % EPOCH_SIZE != 0;
      TruncationKeepsAdjuster(adjuster, rest, keep);
      assert rest[..keep] == blocks[..keep];
    }
  }

  /** The mutable adjuster of the mining loop. */
  class DifficultyAdjuster {
    var currentBits: nat
    var epochStartMs: u64
    var epochStartHeight: u64
    var lastAdjustment: Option<AdjustmentInfo>

    ghost function Value(): Adjuster
      reads this
    {
      Adjuster(currentBits, epochStartMs, epochStartHeight, lastAdjustment)
    }

    constructor New(initialBits: nat, genesisTimestampMs: u64)
      ensures Value() == Restored(initialBits, genesisTimestampMs, 0)
    {
      currentBits := Clamp(initialBits, MIN_BITS, MAX_BITS);
      epochStartMs, epochStartHeight, lastAdjustment := genesisTimestampMs, 0, None;
    }

    constructor Restore(bits: nat, startMs: u64, startHeight: u64)
      ensures Value() == Restored(bits, startMs, startHeight)
    {
      currentBits := Clamp(bits, MIN_BITS, MAX_BITS);
      epochStartMs, epochStartHeight, lastAdjustment := startMs, startHeight, None;
    }

    method Record(height: u64, blockTsMs: u64) returns (info: Option<AdjustmentInfo>)
      modifies this
      ensures Value() == RecordBlock(old(Value()), Stamp(height, blockTsMs))
      ensures info.Some? <==> height != 0 && height % EPOCH_SIZE == 0
      ensures info.Some? ==> lastAdjustment == info
    {
      if height == 0 || height % EPOCH_SIZE != 0 {
        return None;
      }
      var actual := SaturatingSub(blockTsMs, epochStartMs);
      var oldBits := currentBits;
      var rawDelta := if actual == 0 then MAX_DELTA_BITS
                      else Clamp(RoundedLog2(TARGET_MS, actual), -MAX_DELTA_BITS, MAX_DELTA_BITS);
      currentBits := Clamp(oldBits + rawDelta, MIN_BITS, MAX_BITS);
      epochStartMs, epochStartHeight := blockTsMs, height;
      info := Some(AdjustmentInfo(currentBits, oldBits, actual, TARGET_MS, rawDelta, height));
      lastAdjustment := info;
    }
  }
}

/** Bitcoin checkpoint arithmetic. */
module Checkpoints {
  import opened Numbers

  const BTC_CHECKPOINT_INTERVAL: u64 := 20

  predicate IsCheckpointHeight(height: u64) {
    height == 1 || SaturatingSub(height, 1) % BTC_CHECKPOINT_INTERVAL == 0
  }

  function GoverningCheckpointHeight(height: u64): (governing: u64)
    ensures governing <= height
    ensures height > 0 ==> governing > 0
  {
    if height == 0 then 0
    else ((height - 1) / BTC_CHECKPOINT_INTERVAL) * BTC_CHECKPOINT_INTERVAL + 1
  }

  /** The governing height is the greatest checkpoint height not above `height`, height 0 included. */
  lemma GoverningIsGreatestCheckpoint(height: u64, candidate: u64)
    ensures GoverningCheckpointHeight(height) == candidate
            <==> (candidate <= height && IsCheckpointHeight(candidate)
                  && forall h: u64 :: candidate < h <= height ==> !IsCheckpointHeight(h))
  {
    var g := GoverningCheckpointHeight(height);
    if height > 0 {
      var q := (height - 1) / BTC_CHECKPOINT_INTERVAL;
      assert g == q * 20 + 1;
      forall h: u64 | g < h <= height
        ensures !IsCheckpointHeight(h)
      {
        assert q * 20 < h - 1 < q * 20 + 20;
      }
    }
    assert IsCheckpointHeight(g);
  }

  lemma GoverningStep(height: u64)
    requires height > 0
    ensures GoverningCheckpointHeight(height)
            == if IsCheckpointHeight(height) then height else GoverningCheckpointHeight(height - 1)
    ensures !IsCheckpointHeight(height) ==> height > 1
  {
  }

  /** `BtcCheckpointProof::plausible` on its height inputs. */
  predicate Plausible(tipHeight: u64, previousCheckpointTip: u64, observedTip: u64, tolerance: u64) {
    && tipHeight >= previousCheckpointTip
    && (if tipHeight >= observedTip then tipHeight - observedTip else observedTip - tipHeight) <= tolerance
  }
}
