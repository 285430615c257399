/** The transaction commitment of a block header, and what it binds. */
module Merkle {
  import opened Types
  import opened Ledgers

  /** One round: hash neighbours together, an odd last digest with itself. */
  function PairLayer(layer: seq<Digest>): (next: seq<Digest>)
    ensures |next| == (|layer| + 1) / 2
  {
    seq((|layer| + 1) / 2, i requires 0 <= i < (|layer| + 1) / 2 =>
      MerkleNode(layer[2 * i], if 2 * i + 1 < |layer| then layer[2 * i + 1] else layer[2 * i]))
  }

  function RootOf(layer: seq<Digest>): Digest
    requires layer != []
    decreases |layer|
  {
    if |layer| == 1 then layer[0] else RootOf(PairLayer(layer))
  }

  function RootOfTransactions(txs: seq<SignedTransaction>): Digest {
    if txs == [] then ZeroDigest else RootOf(TxIds(txs))
  }

  /** `merkle_root`: replaces the layer by its pairs until one digest is left. */
  method MerkleRoot(txs: seq<SignedTransaction>) returns (root: Digest)
    ensures root == RootOfTransactions(txs)
  {
    if txs == [] {
      return ZeroDigest;
    }
    var layer := TxIds(txs);
    while |layer| > 1
      invariant layer != [] && RootOf(layer) == RootOf(TxIds(txs))
      decreases |layer|
    {
      var next: seq<Digest> := [];
      var start := 0;
      while start < |layer|
        invariant start == 2 * |next| && start <= |layer| + 1
        invariant next == PairLayer(layer)[..|next|]
      {
        var first := layer[start];
        var second := if start + 1 < |layer| then layer[start + 1] else first;
        next := next + [MerkleNode(first, second)];
        start := start + 2;
      }
      assert |next| == |PairLayer(layer)| && next == PairLayer(layer);
      layer := next;
    }
    return layer[0];
  }

  // ---------------------------------------------------------------- injectivity on distinct leaves

  predicate Distinct(layer: seq<Digest>) {
    forall i, j :: 0 <= i < j < |layer| ==> layer[i] != layer[j]
  }

  function Depth(digest: Digest): nat {
    if digest.MerkleNode? then 1 + Depth(digest.left) else 0
  }

  /** All digests of the layer sit at the same depth. */
  predicate Level(layer: seq<Digest>, depth: nat) {
    forall digest :: digest in layer ==> Depth(digest) == depth
  }

  lemma PairedAt(layer: seq<Digest>, i: nat)
    requires i < |layer|
    ensures PairLayer(layer)[i / 2].MerkleNode?
    ensures i % 2 == 0 ==> PairLayer(layer)[i / 2].left == layer[i]
    ensures i % 2 == 1 ==> PairLayer(layer)[i / 2].right == layer[i]
  {
    assert i % 2 == 0 ==> 2 * (i / 2) == i;
    assert i % 2 == 1 ==> 2 * (i / 2) + 1 == i;
  }

  lemma PairLayerKeepsDistinct(layer: seq<Digest>)
    requires Distinct(layer)
    ensures Distinct(PairLayer(layer))
  {
    var next := PairLayer(layer);
    forall i, j | 0 <= i < j < |next|
      ensures next[i] != next[j]
    {
      assert next[i].left == layer[2 * i] && next[j].left == layer[2 * j];
    }
  }

  lemma PairLayerRaisesLevel(layer: seq<Digest>, depth: nat)
    requires Level(layer, depth)
    ensures Level(PairLayer(layer), depth + 1)
  {
    var next := PairLayer(layer);
    forall i | 0 <= i < |next|
      ensures Depth(next[i]) == depth + 1
    {
      assert layer[2 * i] in layer;
    }
  }

  /** Lists of different lengths pair alike only when the longer one ends in a repeat. */
  lemma LongerEndsInRepeat(shorter: seq<Digest>, longer: seq<Digest>)
    requires |shorter| < |longer| && PairLayer(shorter) == PairLayer(longer)
    ensures |longer| >= 2 && longer[|longer|-2] == longer[|longer|-1]
  {
    var last := |longer| - 2;
    assert PairLayer(shorter)[last / 2] == MerkleNode(shorter[last], shorter[last]);
    PairedAt(longer, last);
    PairedAt(longer, last + 1);
  }

  lemma PairLayerInjective(a: seq<Digest>, b: seq<Digest>)
    requires Distinct(a) && Distinct(b) && PairLayer(a) == PairLayer(b)
    ensures a == b
  {
    if |a| < |b| {
      LongerEndsInRepeat(a, b);
    } else if |b| < |a| {
      LongerEndsInRepeat(b, a);
    } else {
      forall i | 0 <= i < |a|
        ensures a[i] == b[i]
      {
        PairedAt(a, i);
        PairedAt(b, i);
      }
    }
  }

  lemma {:induction false} RootIsDeeper(layer: seq<Digest>, depth: nat)
    requires layer != [] && Level(layer, depth)
    ensures |layer| == 1 ==> Depth(RootOf(layer)) == depth
    ensures |layer| > 1 ==> Depth(RootOf(layer)) > depth
    decreases |layer|
  {
    if |layer| == 1 {
      assert layer[0] in layer;
    } else {
      PairLayerRaisesLevel(layer, depth);
      RootIsDeeper(PairLayer(layer), depth + 1);
    }
  }

  lemma {:induction false} RootInjective(a: seq<Digest>, b: seq<Digest>, depth: nat)
    requires a != [] && b != [] && Distinct(a) && Distinct(b) && Level(a, depth) && Level(b, depth)
    requires RootOf(a) == RootOf(b)
    ensures a == b
    decreases |a|
  {
    RootIsDeeper(a, depth);
    RootIsDeeper(b, depth);
    if |a| > 1 {
      PairLayerKeepsDistinct(a);
      PairLayerKeepsDistinct(b);
      PairLayerRaisesLevel(a, depth);
      PairLayerRaisesLevel(b, depth);
      RootInjective(PairLayer(a), PairLayer(b), depth + 1);
      PairLayerInjective(a, b);
    }
  }

  // ---------------------------------------------------------------- which lists share a root

  type Group = seq<Digest>

  /** One round without hashing: join neighbouring groups, an odd last group with itself. */
  function PairGroups(groups: seq<Group>): (next: seq<Group>)
    ensures |next| == (|groups| + 1) / 2
  {
    seq((|groups| + 1) / 2, i requires 0 <= i < (|groups| + 1) / 2 =>
      groups[2 * i] + if 2 * i + 1 < |groups| then groups[2 * i + 1] else groups[2 * i])
  }

  /** The list that repeating odd groups, round after round, fills up to. */
  function Fill(groups: seq<Group>): Group
    requires groups != []
    decreases |groups|
  {
    if |groups| == 1 then groups[0] else Fill(PairGroups(groups))
  }

  /** Each transaction id a group of its own. */
  function Singles(txs: seq<SignedTransaction>): seq<Group> {
    seq(|txs|, i requires 0 <= i < |txs| => [txs[i].Id()])
  }

  function Leaves(digest: Digest): (leaves: Group)
    ensures leaves != []
  {
    if digest.MerkleNode? then Leaves(digest.left) + Leaves(digest.right) else [digest]
  }

  predicate Full(digest: Digest) {
    digest.MerkleNode? ==> Full(digest.left) && Full(digest.right) && |Leaves(digest.left)| == |Leaves(digest.right)|
  }

  /** Full trees are determined by their leaves. */
  lemma {:induction false} LeavesDetermineTree(a: Digest, b: Digest)
    requires Full(a) && Full(b) && Leaves(a) == Leaves(b)
    ensures a == b
    decreases a
  {
    if a.MerkleNode? && b.MerkleNode? {
      var n := |Leaves(a.left)|;
      assert Leaves(a)[..n] == Leaves(a.left) && Leaves(a)[n..] == Leaves(a.right);
      assert Leaves(b)[..n] == Leaves(b.left) && Leaves(b)[n..] == Leaves(b.right);
      LeavesDetermineTree(a.left, b.left);
      LeavesDetermineTree(a.right, b.right);
    }
  }

  /** The layer's digests are full trees of one size over the groups. */
  predicate Covers(layer: seq<Digest>, groups: seq<Group>, width: nat) {
    |layer| == |groups|
    && forall i :: 0 <= i < |layer| ==> Full(layer[i]) && Leaves(layer[i]) == groups[i] && |groups[i]| == width
  }

  lemma PairsCover(layer: seq<Digest>, groups: seq<Group>, width: nat)
    requires Covers(layer, groups, width)
    ensures Covers(PairLayer(layer), PairGroups(groups), 2 * width)
  {
    var next := PairLayer(layer);
    forall i | 0 <= i < |next|
      ensures Full(next[i]) && Leaves(next[i]) == PairGroups(groups)[i] && |PairGroups(groups)[i]| == 2 * width
    {
      assert Full(layer[2 * i]) && Leaves(layer[2 * i]) == groups[2 * i];
    }
  }

  lemma {:induction false} RootFills(layer: seq<Digest>, groups: seq<Group>, width: nat)
    requires layer != [] && Covers(layer, groups, width)
    ensures Full(RootOf(layer)) && Leaves(RootOf(layer)) == Fill(groups)
    decreases |layer|
  {
    if |layer| > 1 {
      PairsCover(layer, groups, width);
      RootFills(PairLayer(layer), PairGroups(groups), 2 * width);
    }
  }

  lemma ListFills(txs: seq<SignedTransaction>)
    requires txs != []
    ensures Full(RootOfTransactions(txs)) && Leaves(RootOfTransactions(txs)) == Fill(Singles(txs))
    ensures RootOfTransactions(txs) != ZeroDigest
  {
    RootFills(TxIds(txs), Singles(txs), 1);
    RootIsLeafOrNode(TxIds(txs));
  }

  /** Two transaction lists have the same root if and only if they fill up to the same list. */
  lemma SameRootExactly(a: seq<SignedTransaction>, b: seq<SignedTransaction>)
    ensures RootOfTransactions(a) == RootOfTransactions(b)
            <==> (a == [] && b == []) || (a != [] && b != [] && Fill(Singles(a)) == Fill(Singles(b)))
  {
    hide RootOf, Fill;
    if a != [] {
      ListFills(a);
    }
    if b != [] {
      ListFills(b);
    }
    if a != [] && b != [] && Fill(Singles(a)) == Fill(Singles(b)) {
      LeavesDetermineTree(RootOfTransactions(a), RootOfTransactions(b));
    }
  }

  // ---------------------------------------------------------------- duplication

  /** Repeating the last transaction of any odd list of three or more leaves the root unchanged. */
  lemma OddDuplicationCollides(txs: seq<SignedTransaction>)
    requires |txs| >= 3 && |txs| % 2 == 1
    ensures RootOfTransactions(txs + [txs[|txs|-1]]) == RootOfTransactions(txs)
  {
    var a, b := TxIds(txs), TxIds(txs + [txs[|txs|-1]]);
    assert PairLayer(a) == PairLayer(b);
  }

  // ---------------------------------------------------------------- execution excludes repeats

  /** Every transaction of the list is accepted where it stands. */
  predicate ExecutesInFull(ledger: Ledger, txs: seq<SignedTransaction>, miner: Address) {
    Accepted(ledger, txs, miner) == txs
  }

  lemma {:induction false} FullPrefix(ledger: Ledger, txs: seq<SignedTransaction>, miner: Address)
    ensures |Accepted(ledger, txs, miner)| <= |txs|
    ensures ExecutesInFull(ledger, txs, miner) && txs != [] ==>
              && ExecutesInFull(ledger, txs[..|txs|-1], miner)
              && ApplyTransaction(Execute(ledger, txs[..|txs|-1], miner), txs[|txs|-1], miner).Success?
  {
    if txs != [] {
      var rest, last := txs[..|txs|-1], txs[|txs|-1];
      FullPrefix(ledger, rest, miner);
      if ExecutesInFull(ledger, txs, miner) {
        assert Accepted(ledger, txs, miner) == Accepted(ledger, rest, miner) + [last];
        assert (Accepted(ledger, rest, miner) + [last])[..|rest|] == Accepted(ledger, rest, miner);
      }
    }
  }

  /** After a full run each executed nonce is used up for its sender. */
  lemma {:induction false} NoncesAreSpent(ledger: Ledger, txs: seq<SignedTransaction>, miner: Address)
    requires ExecutesInFull(ledger, txs, miner) && NoncesHaveSuccessors(txs)
    ensures forall signed :: signed in txs ==> signed.tx.nonce < Execute(ledger, txs, miner).Nonce(signed.tx.from)
    ensures forall address :: ledger.Nonce(address) <= Execute(ledger, txs, miner).Nonce(address)
  {
    if txs != [] {
      var rest, last := txs[..|txs|-1], txs[|txs|-1];
      FullPrefix(ledger, txs, miner);
      assert last in txs;
      assert forall signed :: signed in rest ==> signed in txs;
      NoncesAreSpent(ledger, rest, miner);
      assert forall signed :: signed in txs ==> signed in rest || signed == last;
    }
  }

  lemma {:induction false} FullExecutionIsDistinct(ledger: Ledger, txs: seq<SignedTransaction>, miner: Address)
    requires ExecutesInFull(ledger, txs, miner) && NoncesHaveSuccessors(txs)
    ensures Distinct(TxIds(txs))
  {
    if txs != [] {
      var rest, last := txs[..|txs|-1], txs[|txs|-1];
      FullPrefix(ledger, txs, miner);
      assert forall signed :: signed in rest ==> signed in txs;
      FullExecutionIsDistinct(ledger, rest, miner);
      NoncesAreSpent(ledger, rest, miner);
      forall i, j | 0 <= i < j < |txs|
        ensures TxIds(txs)[i] != TxIds(txs)[j]
      {
        if j == |rest| {
          assert rest[i] in rest;
        } else {
          assert TxIds(rest)[i] != TxIds(rest)[j];
        }
      }
    }
  }

  /**
   A header binds its exact transaction sequence: two lists with the same root, each executing in full, are the
   same transfers with the same signatures in the same order. The parents need not even be the same ledger.
   */
  lemma RootBindsExecutedList(
    ledgerA: Ledger, a: seq<SignedTransaction>, minerA: Address, ledgerB: Ledger, b: seq<SignedTransaction>, minerB: Address)
    requires ExecutesInFull(ledgerA, a, minerA) && NoncesHaveSuccessors(a)
    requires ExecutesInFull(ledgerB, b, minerB) && NoncesHaveSuccessors(b)
    requires RootOfTransactions(a) == RootOfTransactions(b)
    ensures TxIds(a) == TxIds(b)
  {
    FullExecutionIsDistinct(ledgerA, a, minerA);
    FullExecutionIsDistinct(ledgerB, b, minerB);
    if a != [] {
      RootIsLeafOrNode(TxIds(a));
    }
    if b != [] {
      RootIsLeafOrNode(TxIds(b));
    }
    if a != [] && b != [] {
      RootInjective(TxIds(a), TxIds(b), 0);
    }
  }

  /** The root of a non-empty list is never the digest reserved for the empty one. */
  lemma {:induction false} RootIsLeafOrNode(layer: seq<Digest>)
    requires layer != [] && forall digest :: digest in layer ==> digest.TxId? || digest.MerkleNode?
    ensures RootOf(layer).TxId? || RootOf(layer).MerkleNode?
    decreases |layer|
  {
    if |layer| == 1 {
      assert layer[0] in layer;
    } else {
      RootIsLeafOrNode(PairLayer(layer));
    }
  }

  /** The list an odd duplication collides with never executes in full: the repeat fails its nonce check. */
  lemma RepeatNeverExecutes(ledger: Ledger, txs: seq<SignedTransaction>, miner: Address, i: nat, j: nat)
    requires i < j < |txs| && txs[i].Id() == txs[j].Id() && NoncesHaveSuccessors(txs)
    ensures !ExecutesInFull(ledger, txs, miner)
  {
    assert TxIds(txs)[i] == TxIds(txs)[j];
    if ExecutesInFull(ledger, txs, miner) {
      FullExecutionIsDistinct(ledger, txs, miner);
    }
  }
}
