/** Internet checksums, RFC 1071, as src/net/tunnel/masque.rs computes them: the words of a buffer
    are summed without the checksum field, the 32-bit sum is folded to 16 bits and complemented. */
module Checksum {
  import opened Common

  type u16 = x: int | 0 <= x < 0x1_0000

  const U32_LIMIT: nat := 0x1_0000_0000

  /** A buffer this long cannot make the 32-bit sum overflow, whatever its bytes are. */
  const MAX_LEN: nat := 0x1_0000

  /** The big-endian word at `i`; a last single byte is the high half of its word. */
  function Word(data: seq<byte>, i: nat): nat
    requires i < |data|
  {
    if i + 1 < |data| then 256 * Octet(data[i]) + Octet(data[i + 1]) else 256 * Octet(data[i])
  }

  function Octet(b: byte): nat { b }

  /** The sum of the words from `i` on, leaving out the one at `skip`. */
  function SumFrom(data: seq<byte>, skip: int, i: nat): nat
    decreases |data| - i
  {
    if i >= |data| then 0
    else (if i == skip then 0 else Word(data, i)) + SumFrom(data, skip, i + 2)
  }

  function SumSkipping(data: seq<byte>, skip: int): nat { SumFrom(data, skip, 0) }

  /** The sum a receiver forms: no word is left out. */
  function Sum(data: seq<byte>): nat { SumFrom(data, -1, 0) }

  function Fold(sum: nat): nat
    decreases sum
  {
    if sum < 0x1_0000 then sum else Fold(sum % 0x1_0000 + sum / 0x1_0000)
  }

  /** A receiver accepts a sum that folds to all ones. */
  predicate Verifies(sum: nat) { Fold(sum) == 0xffff }

  function Complement(sum: nat): u16
  {
    FoldRange(sum);
    0xffff - Fold(sum)
  }

  // ---------------------------------------------------------------- the source's loops

  /** The folding loop: it terminates, and gives the folded sum. */
  method FoldSum(sum: nat) returns (folded: u16)
    requires sum < U32_LIMIT
    ensures folded == Fold(sum)
  {
    var s := sum;
    while s / 0x1_0000 > 0
      invariant Fold(s) == Fold(sum)
      decreases s
    {
      s := s % 0x1_0000 + s / 0x1_0000;
    }
    folded := s;
  }

  /** The summing loop of the three checksum functions, with the sum so far in `start`: it never
      leaves 32 bits. */
  method AddWords(data: seq<byte>, skip: int, start: nat) returns (sum: nat)
    requires |data| <= MAX_LEN && start < 0x20_0000
    ensures sum == start + SumSkipping(data, skip) < U32_LIMIT
  {
    sum := start;
    var i := 0;
    while i < |data|
      invariant 0 <= i <= |data| + 1 && i % 2 == 0
      invariant sum + SumFrom(data, skip, i) == start + SumSkipping(data, skip)
      invariant sum <= start + i * 0x8000
    {
      if i != skip {
        sum := sum + Word(data, i);
        assert sum < U32_LIMIT;
      }
      i := i + 2;
    }
  }

  /** `calculate_ipv4_checksum` (skip 10) and `calculate_icmp_checksum` (skip 2). */
  method Calculate(data: seq<byte>, skip: int) returns (checksum: u16)
    requires |data| <= MAX_LEN
    ensures checksum == Complement(SumSkipping(data, skip))
  {
    var sum := AddWords(data, skip, 0);
    var folded := FoldSum(sum);
    checksum := 0xffff - folded;
  }

  /** The pseudo-header of section 8.1 of RFC 8200, for ICMPv6. */
  function Pseudo(src: seq<byte>, dst: seq<byte>, len: nat): nat {
    Sum(src) + Sum(dst) + len / 0x1_0000 + len % 0x1_0000 + 58
  }

  /** `calculate_icmpv6_checksum`. */
  method CalculateIcmpv6(src: seq<byte>, dst: seq<byte>, data: seq<byte>) returns (checksum: u16)
    requires |src| == 16 && |dst| == 16 && |data| < MAX_LEN
    ensures checksum == Complement(Pseudo(src, dst, |data|) + SumSkipping(data, 2))
  {
    SumBound(src, 0);
    SumBound(dst, 0);
    var sum := AddWords(src, -1, 0);
    sum := AddWords(dst, -1, sum);
    var len := |data|;
    sum := sum + len / 0x1_0000;
    sum := sum + len % 0x1_0000;
    sum := sum + 58;
    sum := AddWords(data, 2, sum);
    var folded := FoldSum(sum);
    checksum := 0xffff - folded;
  }

  lemma {:induction false} SumBound(data: seq<byte>, i: nat)
    ensures SumFrom(data, -1, i) <= 0x8000 * (if i >= |data| then 0 else |data| + 1 - i)
    decreases |data| - i
  {
    if i < |data| {
      SumBound(data, i + 2);
    }
  }

  // ---------------------------------------------------------------- folding

  lemma {:induction false} FoldRange(sum: nat)
    ensures Fold(sum) < 0x1_0000 && (Fold(sum) == 0 <==> sum == 0)
    decreases sum
  {
    if sum >= 0x1_0000 {
      FoldRange(sum % 0x1_0000 + sum / 0x1_0000);
    }
  }

  /** Folding keeps the sum modulo 0xffff. */
  lemma {:induction false} FoldModulo(sum: nat)
    ensures Fold(sum) % 0xffff == sum % 0xffff
    decreases sum
  {
    if sum >= 0x1_0000 {
      var next := sum % 0x1_0000 + sum / 0x1_0000;
      FoldModulo(next);
      Residue(sum / 0x1_0000, next);
    }
  }

  lemma Residue(k: nat, x: nat)
    ensures (0xffff * k + x) % 0xffff == x % 0xffff
  {
    var q := x / 0xffff;
    assert 0xffff * k + x == 0xffff * (k + q) + x % 0xffff;
  }

  /** What a receiver accepts, without folding: a positive multiple of 0xffff. */
  lemma VerifiesExactly(sum: nat)
    ensures Verifies(sum) <==> sum > 0 && sum % 0xffff == 0
  {
    FoldRange(sum);
    FoldModulo(sum);
  }

  /** Adding the complement makes any sum acceptable. */
  lemma ComplementVerifies(sum: nat)
    ensures Verifies(sum + Complement(sum))
  {
    FoldRange(sum);
    FoldModulo(sum);
    ComplementResidue(sum, Fold(sum));
    VerifiesExactly(sum + Complement(sum));
  }

  lemma ComplementResidue(sum: nat, folded: nat)
    requires folded <= 0xffff && folded % 0xffff == sum % 0xffff && (folded == 0 <==> sum == 0)
    ensures sum + (0xffff - folded) > 0 && (sum + (0xffff - folded)) % 0xffff == 0
  {
    var q := sum / 0xffff;
    if folded == 0xffff {
      assert sum + (0xffff - folded) == 0xffff * q;
    } else {
      assert sum + (0xffff - folded) == 0xffff * (q + 1);
    }
  }

  // ---------------------------------------------------------------- storing the checksum

  /** Writing a word into the skipped field adds exactly that word to the receiver's sum. */
  lemma {:induction false} StoredFrom(data: seq<byte>, skip: nat, checksum: u16, i: nat)
    requires skip + 1 < |data| && skip % 2 == 0 && i % 2 == 0
    ensures SumFrom(Stored(data, skip, checksum), -1, i)
         == SumFrom(data, skip, i) + (if i <= skip then checksum else 0)
    decreases |data| - i
  {
    if i < |data| {
      StoredFrom(data, skip, checksum, i + 2);
    }
  }

  function Stored(data: seq<byte>, skip: nat, checksum: u16): (s: seq<byte>)
    requires skip + 1 < |data|
    ensures |s| == |data|
  {
    data[skip := checksum / 256][skip + 1 := checksum % 256]
  }

  /** A buffer with its computed checksum stored verifies, whatever else the receiver adds. */
  lemma StoredVerifies(data: seq<byte>, skip: nat, extra: nat)
    requires skip + 1 < |data| && skip % 2 == 0
    ensures Verifies(extra + Sum(Stored(data, skip, Complement(extra + SumSkipping(data, skip)))))
  {
    var checksum := Complement(extra + SumSkipping(data, skip));
    StoredFrom(data, skip, checksum, 0);
    ComplementVerifies(extra + SumSkipping(data, skip));
  }

  /** Sums of even-length pieces add up. */
  lemma {:induction false} SumOfPieces(a: seq<byte>, b: seq<byte>, i: nat)
    requires |a| % 2 == 0 && i % 2 == 0 && i <= |a|
    ensures SumFrom(a + b, -1, i) == SumFrom(a, -1, i) + Sum(b)
    decreases |a| - i
  {
    if i < |a| {
      SumOfPieces(a, b, i + 2);
    } else {
      SumShift(a, b, 0);
    }
  }

  lemma {:induction false} SumShift(a: seq<byte>, b: seq<byte>, i: nat)
    ensures SumFrom(a + b, -1, |a| + i) == SumFrom(b, -1, i)
    decreases |b| - i
  {
    if i < |b| {
      SumShift(a, b, i + 2);
    }
  }

  /** The sum of the pseudo-header as it is laid out: both addresses, the length in four bytes, three zero
      bytes and the number of ICMPv6. */
  lemma PseudoIsHeader(src: seq<byte>, dst: seq<byte>, len: nat)
    requires |src| == 16 && |dst| == 16 && len < 0x1_0000_0000
    ensures Pseudo(src, dst, len) == Sum(src + dst + FourBytes(len) + [0, 0, 0, 58])
  {
    var next: seq<byte> := [0, 0, 0, 58];
    SumOfPieces(src + dst + FourBytes(len), next, 0);
    SumOfPieces(src + dst, FourBytes(len), 0);
    SumOfPieces(src, dst, 0);
    SumOfFour(next);
    SumOfLength(len);
  }

  /** A 32-bit number, most significant byte first. */
  function FourBytes(len: nat): seq<byte>
    requires len < 0x1_0000_0000
  {
    [len / 0x100_0000, len / 0x1_0000 % 256, len / 256 % 256, len % 256]
  }

  lemma SumOfLength(len: nat)
    requires len < 0x1_0000_0000
    ensures Sum(FourBytes(len)) == len / 0x1_0000 + len % 0x1_0000
  {
    SumOfFour(FourBytes(len));
    WordsOfLength(len);
  }

  lemma WordsOfLength(len: nat)
    requires len < 0x1_0000_0000
    ensures 256 * (len / 0x100_0000) + len / 0x1_0000 % 256 == len / 0x1_0000
    ensures 256 * (len / 256 % 256) + len % 256 == len % 0x1_0000
  {
    var high, low := len / 0x1_0000, len % 0x1_0000;
    assert len / 0x100_0000 == high / 256;
    assert len / 256 == 256 * high + low / 256;
  }

  lemma SumOfFour(b: seq<byte>)
    requires |b| == 4
    ensures Sum(b) == 256 * Octet(b[0]) + Octet(b[1]) + 256 * Octet(b[2]) + Octet(b[3])
  {
    assert SumFrom(b, -1, 4) == 0;
    assert SumFrom(b, -1, 2) == Word(b, 2);
  }

  /** A last single byte counts as if a zero byte followed it. */
  lemma {:induction false} OddBytePadded(data: seq<byte>, i: nat)
    requires |data| % 2 == 1 && i % 2 == 0
    ensures SumFrom(data + [0], -1, i) == SumFrom(data, -1, i)
    decreases |data| - i
  {
    if i < |data| {
      OddBytePadded(data, i + 2);
    }
  }

  /** The example of section 3 of RFC 1071. */
  lemma RfcExample()
    ensures var data: seq<byte> := [0x00, 0x01, 0xf2, 0x03, 0xf4, 0xf5, 0xf6, 0xf7];
            Sum(data) == 0x2ddf0 && Fold(0x2ddf0) == 0xddf2 && Complement(0x2ddf0) == 0x220d
  {
    var a: seq<byte> := [0x00, 0x01, 0xf2, 0x03];
    var b: seq<byte> := [0xf4, 0xf5, 0xf6, 0xf7];
    assert a + b == [0x00, 0x01, 0xf2, 0x03, 0xf4, 0xf5, 0xf6, 0xf7];
    SumOfPieces(a, b, 0);
    SumOfFour(a);
    SumOfFour(b);
    assert Fold(0xddf2) == 0xddf2;
  }
}
