/** The relay's 16-bit one's-complement checksum: an Internet-style
    checksum (RFC 1071) over big-endian words, except that the word at
    offset 4 (the checksum field itself) is replaced by the constant 0xCCCC
    instead of being zeroed. */
module ChecksumAlgorithm {
  import opened Wire

  /** Offset of the checksum field inside the header. */
  const CHECKSUM_OFFSET: nat := 4

  /** The word added in place of the two bytes at CHECKSUM_OFFSET. */
  const CHECKSUM_STAND_IN: uint16 := 0xCCCC

  /** The word the running sum adds for the stride starting at offset i. */
  function Stride(m: seq<byte>, i: nat): uint16
    requires i + 1 < |m|
  {
    if i == CHECKSUM_OFFSET then CHECKSUM_STAND_IN else ConcatTwoBytes(m[i], m[i + 1])
  }

  /** Sum of the strides at offsets i, i + 2, ... as long as two bytes remain. */
  function SumFrom(m: seq<byte>, i: nat): nat
    decreases |m| - i
  {
    if i + 1 < |m| then Stride(m, i) + SumFrom(m, i + 2) else 0
  }

  /** What an odd trailing byte adds: the byte as the high half of a word. */
  function Trailing(m: seq<byte>): nat
  {
    if |m| % 2 != 0 then (m[|m| - 1] as int) * 0x100 else 0
  }

  /** The accumulator before the carries are folded back in. */
  function RawSum(m: seq<byte>): nat
  {
    SumFrom(m, 0) + Trailing(m)
  }

  /** Folding the carries: while there are bits above bit 15, add them back
      into the low 16 bits. The result fits in 16 bits, is congruent to the
      input modulo 0xFFFF (what makes it a one's-complement sum), and is zero
      only for a zero input. */
  function Fold(s: nat): (r: nat)
    ensures r < 0x1_0000
    ensures r % 0xFFFF == s % 0xFFFF
    ensures r == 0 <==> s == 0
    decreases s
  {
    if s < 0x1_0000 then s
    else
      FoldStep(s);
      Fold(s % 0x1_0000 + s / 0x1_0000)
  }

  /** One folding step makes the value smaller and keeps it modulo 0xFFFF. */
  lemma FoldStep(s: nat)
    requires s >= 0x1_0000
    ensures 0 < s % 0x1_0000 + s / 0x1_0000 < s
    ensures (s % 0x1_0000 + s / 0x1_0000) % 0xFFFF == s % 0xFFFF
  {
    var q, t := s / 0x1_0000, s % 0x1_0000 + s / 0x1_0000;
    assert s == 0xFFFF * q + t;
    ModMultiple(t, q);
  }

  lemma ModMultiple(t: int, q: int)
    ensures (0xFFFF * q + t) % 0xFFFF == t % 0xFFFF
  {
  }

  /** Addition on a uint32_t: the sum modulo 2^32. */
  function Add32(a: uint32, b: nat): (r: uint32)
    ensures a + b < TWO_POW_32 ==> r == a + b
  {
    (a + b) % TWO_POW_32
  }

  /** The checksum: the 16-bit complement of the folded sum. */
  function Checksum(m: seq<byte>): uint16
  {
    0xFFFF - Fold(RawSum(m))
  }

  /** The loop of the relay's checksum routine, with a 32-bit accumulator
      that wraps around as C's uint32_t does. For every buffer the relay can
      receive the wrap never happens and the result is Checksum(message). */
  method CalculateChecksum(message: seq<byte>) returns (c: uint16)
    ensures |message| <= MAX_MSG_LENGTH ==> c == Checksum(message)
  {
    var length := |message|;
    var sum: uint32 := 0;
    if length <= MAX_MSG_LENGTH {
      RawSumBound(message);
    }
    var i := 0;
    while i < length - 1
      invariant 0 <= i <= length && i % 2 == 0
      invariant length <= MAX_MSG_LENGTH ==> sum + SumFrom(message, i) == SumFrom(message, 0)
    {
      var word := if i == CHECKSUM_OFFSET then CHECKSUM_STAND_IN
                  else ConcatTwoBytes(message[i], message[i + 1]);
      sum := Add32(sum, word);
      i := i + 2;
    }
    if length % 2 != 0 {
      sum := Add32(sum, (message[length - 1] as int) * 0x100);
    }
    assert length <= MAX_MSG_LENGTH ==> sum == RawSum(message);
    ghost var raw := sum;
    while sum / 0x1_0000 != 0
      invariant Fold(sum) == Fold(raw)
      decreases sum
    {
      FoldStep(sum);
      sum := sum % 0x1_0000 + sum / 0x1_0000;
    }
    c := 0xFFFF - sum;
  }

  /** Each stride adds at most 0xFFFF, so 2 * SumFrom is at most 0xFFFF per
      remaining byte. */
  lemma {:induction false} SumFromBound(m: seq<byte>, i: nat)
    requires i <= |m|
    ensures 2 * SumFrom(m, i) <= 0xFFFF * (|m| - i)
    decreases |m| - i
  {
    if i + 1 < |m| {
      SumFromBound(m, i + 2);
    }
  }

  /** For any buffer the relay can receive, the unfolded sum fits in the
      uint32_t accumulator, so its additions never wrap. */
  lemma RawSumBound(m: seq<byte>)
    requires |m| <= MAX_MSG_LENGTH
    ensures RawSum(m) < TWO_POW_32
  {
    SumFromBound(m, 0);
  }

  /** Two buffers of one length that agree on every byte of a full stride
      from offset i on, bytes 4 and 5 excepted, have equal stride sums. */
  lemma {:induction false} SumFromAgree(m: seq<byte>, n: seq<byte>, i: nat)
    requires |m| == |n| && i % 2 == 0
    requires forall k :: i <= k < |m| - |m| % 2 && k != 4 && k != 5 ==> m[k] == n[k]
    ensures SumFrom(m, i) == SumFrom(n, i)
    decreases |m| - i
  {
    if i + 1 < |m| {
      SumFromAgree(m, n, i + 2);
    }
  }

  /** The routine never reads bytes 4 and 5 of a buffer of at least six
      bytes: the stride there always contributes 0xCCCC. Six is needed: in
      a five-byte buffer byte 4 is the trailing odd byte, which the
      routine does read. The relay only checksums buffers of at least the
      eight header bytes, so that case never arises there. */
  lemma ChecksumIgnoresField(m: seq<byte>, n: seq<byte>)
    requires |m| == |n| >= 6
    requires forall k :: 0 <= k < |m| && k != 4 && k != 5 ==> m[k] == n[k]
    ensures Checksum(m) == Checksum(n)
  {
    SumFromAgree(m, n, 0);
    assert Trailing(m) == Trailing(n);
    assert RawSum(m) == RawSum(n);
  }

  /** A change d to byte j as it shows in the sum: a high byte (even
      offset) weighs 256, a low byte 1. */
  function Weighted(j: nat, d: int): int
  {
    if j % 2 == 0 then d * 0x100 else d
  }

  /** Changing one byte of a full stride (outside bytes 4 and 5) changes the
      stride sum by the difference, weighted by the byte's position. */
  lemma {:induction false} SumFromUpdate(m: seq<byte>, j: nat, v: byte, i: nat)
    requires i % 2 == 0 && i <= j < |m| - |m| % 2 && j != 4 && j != 5
    ensures SumFrom(m[j := v], i) == SumFrom(m, i) + Weighted(j, v - m[j])
    decreases |m| - i
  {
    var n := m[j := v];
    if i + 2 <= j {
      assert Stride(n, i) == Stride(m, i);
      SumFromUpdate(m, j, v, i + 2);
    } else {
      assert i != CHECKSUM_OFFSET && n[i] == (if j == i then v else m[i]) && n[i + 1] == (if j == i then m[i + 1] else v);
      assert Stride(n, i) == Stride(m, i) + Weighted(j, v - m[j]);
      SumFromAgree(m, n, i + 2);
    }
  }

  /** Adding a non-zero amount smaller than the modulus changes a value
      modulo 0xFFFF. */
  lemma ModShift(b: nat, d: int)
    requires 0 < d < 0xFFFF
    ensures (b + d) % 0xFFFF != b % 0xFFFF
  {
    var q, r := b / 0xFFFF, b % 0xFFFF;
    assert b == 0xFFFF * q + r;
    if r + d < 0xFFFF {
      assert b + d == 0xFFFF * q + (r + d);
    } else {
      assert b + d == 0xFFFF * (q + 1) + (r + d - 0xFFFF);
    }
  }

  /** The folded sum changes whenever the raw sum changes by a non-zero
      amount smaller than 0xFFFF. */
  lemma FoldSeparates(a: nat, b: nat)
    requires a != b && -0xFFFF < a - b < 0xFFFF
    ensures Fold(a) != Fold(b)
  {
    if a > b {
      ModShift(b, a - b);
    } else {
      ModShift(a, b - a);
    }
  }

  /** A byte of a full stride changed: the trailing byte stays. */
  lemma RawSumUpdateStride(m: seq<byte>, j: nat, v: byte)
    requires j < |m| - |m| % 2 && j != 4 && j != 5
    ensures RawSum(m[j := v]) == RawSum(m) + Weighted(j, v - m[j])
  {
    var n := m[j := v];
    SumFromUpdate(m, j, v, 0);
    TrailingKept(m, n, j);
    assert RawSum(n) == SumFrom(n, 0) + Trailing(n);
  }

  /** A change below the last full stride leaves the trailing byte alone. */
  lemma TrailingKept(m: seq<byte>, n: seq<byte>, j: nat)
    requires |n| == |m| && j < |m| - |m| % 2
    requires forall k :: 0 <= k < |m| && k != j ==> n[k] == m[k]
    ensures Trailing(n) == Trailing(m)
  {
    if |m| % 2 != 0 {
      var last := |m| - 1;
      assert j != last;
      assert n[last] == m[last];
    }
  }

  /** The odd trailing byte changed: the strides stay, and the byte weighs
      256. */
  lemma RawSumUpdateTrailing(m: seq<byte>, v: byte)
    requires |m| % 2 == 1
    ensures RawSum(m[|m| - 1 := v]) == RawSum(m) + (v - m[|m| - 1]) * 0x100
  {
    var n := m[|m| - 1 := v];
    SumFromAgree(m, n, 0);
  }

  /** Changing one byte (outside bytes 4 and 5) changes the unfolded sum by
      the difference, weighted by the byte's position; an odd trailing byte
      sits at an even offset and so weighs 256, as `byte << 8` says. */
  lemma RawSumUpdate(m: seq<byte>, j: nat, v: byte)
    requires j < |m| && j != 4 && j != 5
    ensures RawSum(m[j := v]) == RawSum(m) + Weighted(j, v - m[j])
  {
    if j < |m| - |m| % 2 {
      RawSumUpdateStride(m, j, v);
    } else {
      RawSumUpdateTrailing(m, v);
    }
  }

  /** Changing any single byte other than bytes 4 and 5 always changes the
      checksum: no single-byte corruption of such a byte goes unnoticed. */
  lemma ChecksumDetectsChange(m: seq<byte>, j: nat, v: byte)
    requires j < |m| && j != 4 && j != 5 && v != m[j]
    ensures Checksum(m[j := v]) != Checksum(m)
  {
    var n := m[j := v];
    RawSumUpdate(m, j, v);
    var d := v - m[j];
    if j % 2 == 0 {
      assert RawSum(n) - RawSum(m) == d * 0x100;
    } else {
      assert RawSum(n) - RawSum(m) == d;
    }
    FoldSeparates(RawSum(n), RawSum(m));
  }

  /** A buffer of even length extended by some bytes keeps the strides it
      had: the extension only adds strides after it. */
  lemma {:induction false} SumFromExtend(m: seq<byte>, t: seq<byte>, i: nat)
    requires |m| % 2 == 0 && i % 2 == 0 && i <= |m|
    ensures SumFrom(m + t, i) == SumFrom(m, i) + SumFrom(m + t, |m|)
    decreases |m| - i
  {
    if i < |m| {
      assert Stride(m + t, i) == Stride(m, i);
      SumFromExtend(m, t, i + 2);
    }
  }

  /** An even-length buffer, and one two bytes longer, have no trailing
      byte. */
  lemma EvenTrailing(m: seq<byte>, t: seq<byte>)
    requires |m| % 2 == 0 && |t| == |m| + 2
    ensures Trailing(m) == 0 && Trailing(t) == 0
  {
    assert |t| % 2 == 0;
  }

  /** Word by word: two bytes appended to an even-length buffer add their
      big-endian word, or 0xCCCC when they land at offset 4. */
  lemma AppendWord(m: seq<byte>, x: byte, y: byte)
    requires |m| % 2 == 0
    ensures RawSum(m + [x, y]) ==
            RawSum(m) + (if |m| == CHECKSUM_OFFSET then CHECKSUM_STAND_IN else ConcatTwoBytes(x, y))
  {
    var t := m + [x, y];
    SumFromExtend(m, [x, y], 0);
    assert t[|m|] == x && t[|m| + 1] == y;
    assert SumFrom(t, |m|) == Stride(t, |m|) + SumFrom(t, |m| + 2);
    assert SumFrom(t, |m| + 2) == 0;
    EvenTrailing(m, t);
  }

  /** An odd trailing byte appended to an even-length buffer adds
      `byte << 8`. */
  lemma AppendOddByte(m: seq<byte>, x: byte)
    requires |m| % 2 == 0
    ensures RawSum(m + [x]) == RawSum(m) + x * 0x100
  {
    var t := m + [x];
    SumFromExtend(m, [x], 0);
    assert SumFrom(t, |m|) == 0;
    assert t[|t| - 1] == x && |t| % 2 == 1;
    assert Trailing(t) == x * 0x100 && Trailing(m) == 0;
  }
}
