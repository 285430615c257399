/** Election among block claims competing for one height. */
module Claims {
  import opened Wrappers

  /** What the election reads of a claim; 32-byte hashes compare as big-endian numbers. */
  datatype Ranked<+T> = Ranked(workBits: nat, electionScore: nat, blockHash: nat, item: T)

  predicate ClaimIsBetter<T>(candidate: Ranked<T>, incumbent: Ranked<T>) {
    if candidate.workBits != incumbent.workBits then candidate.workBits > incumbent.workBits
    else if candidate.electionScore != incumbent.electionScore then candidate.electionScore < incumbent.electionScore
    else candidate.blockHash < incumbent.blockHash
  }

  /** `Iterator::reduce` keeping the incumbent unless the newcomer is strictly better. */
  function SelectWinning<T>(claims: seq<Ranked<T>>): (winner: Option<Ranked<T>>) {
    if claims == [] then None
    else
      var last := claims[|claims|-1];
      match SelectWinning(claims[..|claims|-1])
      case None => Some(last)
      case Some(winner) => Some(if ClaimIsBetter(last, winner) then last else winner)
  }

  /** The comparison is a strict weak order, and claims it does not separate have the same block hash. */
  lemma ComparisonIsStrictWeakOrder<T>(a: Ranked<T>, b: Ranked<T>, c: Ranked<T>)
    ensures !ClaimIsBetter(a, a)
    ensures ClaimIsBetter(a, b) && ClaimIsBetter(b, c) ==> ClaimIsBetter(a, c)
    ensures !ClaimIsBetter(a, b) && !ClaimIsBetter(b, c) ==> !ClaimIsBetter(a, c)
    ensures !ClaimIsBetter(a, b) && !ClaimIsBetter(b, a) <==>
              a.workBits == b.workBits && a.electionScore == b.electionScore && a.blockHash == b.blockHash
  {
  }

  /** The winner is one of the claims and none of them is better. */
  lemma {:induction false} WinnerIsUnbeaten<T>(claims: seq<Ranked<T>>)
    requires claims != []
    ensures SelectWinning(claims).Some? && SelectWinning(claims).value in claims
    ensures forall claim :: claim in claims ==> !ClaimIsBetter(claim, SelectWinning(claims).value)
  {
    var rest, last := claims[..|claims|-1], claims[|claims|-1];
    assert claims == rest + [last];
    if rest != [] {
      WinnerIsUnbeaten(rest);
      var before, winner := SelectWinning(rest).value, SelectWinning(claims).value;
      forall claim | claim in claims
        ensures !ClaimIsBetter(claim, winner)
      {
        ComparisonIsStrictWeakOrder(claim, before, winner);
      }
    }
  }

  /** Arrival order is not consensus: any reordering of the same claims elects the same block hash. */
  lemma WinnerIgnoresOrder<T>(a: seq<Ranked<T>>, b: seq<Ranked<T>>)
    requires a != [] && multiset(a) == multiset(b)
    ensures b != [] && SelectWinning(a).value.blockHash == SelectWinning(b).value.blockHash
    ensures SelectWinning(a).value.workBits == SelectWinning(b).value.workBits
  {
    assert a[0] in multiset(b);
    WinnerIsUnbeaten(a);
    WinnerIsUnbeaten(b);
    var winnerA, winnerB := SelectWinning(a).value, SelectWinning(b).value;
    assert winnerA in multiset(b) && winnerB in multiset(a);
    ComparisonIsStrictWeakOrder(winnerA, winnerB, winnerA);
  }
}
