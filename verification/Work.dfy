/** Proof-of-work tests on the bytes of a block hash. */
module Work {

  type byte = bv8
  type Hash = s: seq<byte> | |s| == 32 witness seq(32, i => 0)

  const HASH_BITS: nat := 256

  function Mask(k: nat): byte
    requires k < 8
  {
    match k
    case 0 => 0x80 case 1 => 0x40 case 2 => 0x20 case 3 => 0x10
    case 4 => 0x08 case 5 => 0x04 case 6 => 0x02 case 7 => 0x01
  }

  predicate BitOf(b: byte, k: nat)
    requires k < 8
  {
    b & Mask(k) != 0
  }

  /** Bit `i` of the hash, counted from the most significant bit of the first byte. */
  predicate Bit(hash: Hash, i: nat)
    requires i < HASH_BITS
  {
    BitOf(hash[i / 8], i % 8)
  }

  /** The first `bits` bits are clear; a hash has no bits beyond 256. */
  ghost predicate ClearPrefix(hash: Hash, bits: nat) {
    forall i :: 0 <= i < bits && i < HASH_BITS ==> !Bit(hash, i)
  }

  /** `u8::leading_zeros`. */
  function LeadingZeros(b: byte): (n: nat)
    ensures n <= 8
    ensures n == 8 <==> b == 0
    ensures forall k :: 0 <= k < n ==> !BitOf(b, k)
    ensures n < 8 ==> BitOf(b, n)
  {
    if b & 0x80 != 0 then 0
    else if b & 0x40 != 0 then 1
    else if b & 0x20 != 0 then 2
    else if b & 0x10 != 0 then 3
    else if b & 0x08 != 0 then 4
    else if b & 0x04 != 0 then 5
    else if b & 0x02 != 0 then 6
    else if b & 0x01 != 0 then 7
    else 8
  }

  /** `leading_zero_bits`: the position of the first set bit, or 256. */
  method LeadingZeroBits(hash: Hash) returns (count: nat)
    ensures count <= HASH_BITS
    ensures ClearPrefix(hash, count)
    ensures count < HASH_BITS ==> Bit(hash, count)
  {
    count := 0;
    for i := 0 to 32
      invariant count == 8 * i
      invariant ClearPrefix(hash, count)
    {
      var b := hash[i];
      if b == 0 {
        BoundaryByte(hash, i, 0);
        count := count + 8;
      } else {
        BoundaryByte(hash, i, LeadingZeros(b));
        count := count + LeadingZeros(b);
        assert count / 8 == i && count % 8 == LeadingZeros(b);
        return;
      }
    }
  }

  /** The mask test of `meets_difficulty` on the boundary byte counts its leading zeros. */
  lemma TopMask(b: byte, remainder: nat)
    requires 0 < remainder < 8
    ensures b & ((0xff as byte) << (8 - remainder)) == 0 <==> LeadingZeros(b) >= remainder
  {
    match remainder
    case 1 => assert (0xff as byte) << 7 == 0x80;
    case 2 => assert (0xff as byte) << 6 == 0xc0;
    case 3 => assert (0xff as byte) << 5 == 0xe0;
    case 4 => assert (0xff as byte) << 4 == 0xf0;
    case 5 => assert (0xff as byte) << 3 == 0xf8;
    case 6 => assert (0xff as byte) << 2 == 0xfc;
    case 7 => assert (0xff as byte) << 1 == 0xfe;
  }

  /** Given clear bytes before it, byte `at` decides where the clear prefix ends. */
  lemma BoundaryByte(hash: Hash, at: nat, remainder: nat)
    requires at < 32 && remainder < 8 && ClearPrefix(hash, 8 * at)
    ensures ClearPrefix(hash, 8 * at + remainder) <==> LeadingZeros(hash[at]) >= remainder
    ensures hash[at] != 0 ==> !ClearPrefix(hash, 8 * at + 8)
    ensures hash[at] == 0 ==> ClearPrefix(hash, 8 * at + 8)
  {
    var n := LeadingZeros(hash[at]);
    if n < 8 {
      assert (8 * at + n) / 8 == at && (8 * at + n) % 8 == n;
      assert Bit(hash, 8 * at + n);
    }
    forall j | 8 * at <= j < 8 * at + n
      ensures !Bit(hash, j)
    {
      assert j / 8 == at && j % 8 == j - 8 * at;
    }
  }

  /** `meets_difficulty`, including requirements past the end of the hash. */
  method MeetsDifficulty(hash: Hash, bits: nat) returns (meets: bool)
    ensures meets <==> ClearPrefix(hash, bits)
  {
    if bits == 0 {
      return true;
    }
    var fullBytes, remainder := bits / 8, bits % 8;
    var scanned := if fullBytes < 32 then fullBytes else 32;
    for i := 0 to scanned
      invariant ClearPrefix(hash, 8 * i)
    {
      BoundaryByte(hash, i, 0);
      if hash[i] != 0 {
        return false;
      }
    }
    if remainder > 0 && fullBytes < 32 {
      var mask := (0xff as byte) << (8 - remainder);
      TopMask(hash[fullBytes], remainder);
      BoundaryByte(hash, fullBytes, remainder);
      if hash[fullBytes] & mask != 0 {
        return false;
      }
    }
    return true;
  }

  /** Only one count fits the description of `leading_zero_bits`. */
  ghost predicate IsLeadingZeroBits(hash: Hash, count: nat) {
    count <= HASH_BITS && ClearPrefix(hash, count) && (count < HASH_BITS ==> Bit(hash, count))
  }

  /** Meeting a difficulty is having that many leading zero bits, capped at the size of the hash. */
  lemma {:induction false} MeetingIsCounting(hash: Hash, bits: nat, count: nat)
    requires IsLeadingZeroBits(hash, count)
    ensures ClearPrefix(hash, bits) <==> (if bits < HASH_BITS then bits else HASH_BITS) <= count
  {
    if bits > count && count < HASH_BITS {
      assert Bit(hash, count);
    }
  }
}
