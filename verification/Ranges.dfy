/** Address ranges on 64-bit words (range_end, ranges_overlap and in_range in
    tools/virtio/virtio.c), with the wrap-around and saturation of the code. */
module Ranges {

  const U64_MAX: nat := 0xFFFF_FFFF_FFFF_FFFF
  const TWO64: nat := 0x1_0000_0000_0000_0000

  type u64 = x: int | 0 <= x < TWO64

  function RangeEnd(base: u64, len: u64): (r: u64) {
    if U64_MAX - base < len then U64_MAX else base + len
  }

  predicate RangesOverlap(baseA: u64, lenA: u64, baseB: u64, lenB: u64) {
    lenA != 0 && lenB != 0 && baseA < RangeEnd(baseB, lenB) && baseB < RangeEnd(baseA, lenA)
  }

  predicate InRange(value: u64, lower: u64, len: u64) {
    value >= lower && value < (lower + len) % TWO64
  }

  /** The mathematical range, which may reach beyond 2^64. */
  predicate Inside(x: int, base: u64, len: u64) {
    base <= x < base + len
  }

  /** The overlap test is exact on every address below 2^64 - 1, also for ranges whose end
      does not fit a word. */
  lemma {:induction false} OverlapExact(baseA: u64, lenA: u64, baseB: u64, lenB: u64)
    ensures RangesOverlap(baseA, lenA, baseB, lenB)
            <==> exists x: u64 :: x < U64_MAX && Inside(x, baseA, lenA) && Inside(x, baseB, lenB)
  {
    if RangesOverlap(baseA, lenA, baseB, lenB) {
      var x: u64 := if baseA >= baseB then baseA else baseB;
      assert x < U64_MAX && Inside(x, baseA, lenA) && Inside(x, baseB, lenB);
    }
  }

  /** The routing test matches the mathematical range, except that a range whose end wraps
      matches nothing. */
  lemma {:induction false} InRangeExact(value: u64, lower: u64, len: u64)
    ensures InRange(value, lower, len) <==> Inside(value, lower, len) && lower + len < TWO64
  {
    if lower + len >= TWO64 {
      assert (lower + len) % TWO64 == lower + len - TWO64;
    }
  }

  /** No address is routed to two ranges that the overlap test keeps apart. */
  lemma {:induction false} DisjointRoutes(value: u64, baseA: u64, lenA: u64, baseB: u64, lenB: u64)
    requires InRange(value, baseA, lenA) && InRange(value, baseB, lenB)
    ensures RangesOverlap(baseA, lenA, baseB, lenB)
  {
    InRangeExact(value, baseA, lenA);
    InRangeExact(value, baseB, lenB);
  }
}
