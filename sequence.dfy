/** Sequence numbers of the channel: an unsigned 8-bit counter that wraps
    from 255 back to 0, ordered as points on a ring of 256 values. */
module Sequence {

  /** A `u8` sequence number. */
  type SequenceNr = x: int | 0 <= x < 256

  const SEQUENCE_NR_MAX: SequenceNr := 255
  const SEQUENCE_NR_MIN: SequenceNr := 0

  /** How many distinct sequence numbers there are. */
  const RING_SIZE: int := 256

  datatype Ordering = Less | Equal | Greater
  {
    /** The same comparison seen from the other side. */
    function Reverse(): (r: Ordering)
      ensures r == Less <==> this == Greater
      ensures r == Equal <==> this == Equal
      ensures r == Greater <==> this == Less
    {
      match this
      case Less => Greater
      case Equal => Equal
      case Greater => Less
    }
  }

  /** Plain numeric order, as `a.cmp(&b)` gives it. */
  function NumericOrder(a: int, b: int): (r: Ordering)
    ensures r == Less <==> a < b
    ensures r == Equal <==> a == b
    ensures r == Greater <==> a > b
  {
    if a < b then Less else if a == b then Equal else Greater
  }

  /** The wrapping increment `a + 1` of a `u8`. */
  function Next(a: SequenceNr): (r: SequenceNr)
    ensures a < SEQUENCE_NR_MAX ==> r == a + 1
    ensures a == SEQUENCE_NR_MAX ==> r == SEQUENCE_NR_MIN
  {
    (a + 1) % RING_SIZE
  }

  /** How many increments lead from `a` to `b` around the ring. */
  function Forward(a: SequenceNr, b: SequenceNr): (d: int)
    ensures 0 <= d < RING_SIZE
    ensures (a + d) % RING_SIZE == b
    ensures d == 0 <==> a == b
  {
    (b - a) % RING_SIZE
  }

  /** The unsigned difference `max(a, b) - min(a, b)`; it never underflows. */
  function Distance(a: SequenceNr, b: SequenceNr): (d: SequenceNr)
    ensures a <= b ==> a + d == b
    ensures b <= a ==> b + d == a
  {
    (if a < b then b else a) - (if a < b then a else b)
  }

  /** `overflow_aware_compare`: numeric order while the two values are less
      than `SEQUENCE_NR_MAX / 2` (that is 127) apart, the reverse order
      otherwise, on the reading that the larger value has wrapped. */
  function OverflowAwareCompare(a: SequenceNr, b: SequenceNr): (r: Ordering)
    ensures r == Equal <==> a == b
  {
    if Distance(a, b) < SEQUENCE_NR_MAX / 2 then NumericOrder(a, b) else NumericOrder(b, a)
  }

  /** The constants of the counter and the threshold they give. */
  lemma Constants()
    ensures SEQUENCE_NR_MAX == 255 && SEQUENCE_NR_MIN == 0
    ensures RING_SIZE == 256
    ensures SEQUENCE_NR_MAX / 2 == 127
  {
  }

  /** Every sequence number compares equal to itself. */
  lemma CompareReflexive(a: SequenceNr)
    ensures OverflowAwareCompare(a, a) == Equal
  {
  }

  /** A sequence number is older than its successor and the successor is
      newer than it, also across the wrap from 255 to 0. */
  lemma CompareSuccessor(a: SequenceNr)
    ensures OverflowAwareCompare(a, Next(a)) == Less
    ensures OverflowAwareCompare(Next(a), a) == Greater
  {
  }

  /** The wrap from 255 to 0 in particular. */
  lemma CompareAcrossWrap()
    ensures OverflowAwareCompare(SEQUENCE_NR_MAX, SEQUENCE_NR_MIN) == Less
    ensures OverflowAwareCompare(SEQUENCE_NR_MIN, SEQUENCE_NR_MAX) == Greater
  {
  }

  /** Swapping the arguments reverses the result, because the distance does
      not depend on the order of the arguments. */
  lemma CompareAntisymmetric(a: SequenceNr, b: SequenceNr)
    ensures OverflowAwareCompare(b, a) == OverflowAwareCompare(a, b).Reverse()
  {
  }

  /** Below the threshold the result is the numeric order, at or above it the
      reverse one: a distance of exactly 127 already counts as wrapped. */
  lemma CompareByDistance(a: SequenceNr, b: SequenceNr)
    ensures Distance(a, b) < 127 ==> OverflowAwareCompare(a, b) == NumericOrder(a, b)
    ensures Distance(a, b) >= 127 ==> OverflowAwareCompare(a, b) == NumericOrder(b, a)
    ensures OverflowAwareCompare(0, 126) == Less
    ensures OverflowAwareCompare(0, 127) == Greater
  {
  }

  /** The comparator read on the ring: when `b` lies 1 to 126 steps ahead of
      `a` it is newer, when it lies 130 or more steps ahead (so 126 or fewer
      behind) it is older; for 127 to 129 steps ahead the answer depends on
      whether going from `a` to `b` crosses the wrap (`b < a`). */
  lemma CompareByForwardSteps(a: SequenceNr, b: SequenceNr)
    ensures 1 <= Forward(a, b) <= 126 ==> OverflowAwareCompare(a, b) == Less
    ensures 130 <= Forward(a, b) ==> OverflowAwareCompare(a, b) == Greater
    ensures 127 <= Forward(a, b) <= 129 ==> (OverflowAwareCompare(a, b) == Less <==> b < a)
  {
  }

  /** As written, the comparator is not the same at every point of the ring:
      from 0 to 127 and from 129 to 0 are both 127 steps forward, yet the
      first pair compares Greater and the second Less. */
  lemma CompareNotRotationInvariant()
    ensures Forward(0, 127) == Forward(129, 0) == 127
    ensures OverflowAwareCompare(0, 127) == Greater
    ensures OverflowAwareCompare(129, 0) == Less
  {
  }

  /** The comparator with the half-ring threshold (128) that the ring
      arithmetic calls for. */
  function CompareHalfRing(a: SequenceNr, b: SequenceNr): (r: Ordering)
    ensures r == Equal <==> a == b
  {
    if Distance(a, b) < RING_SIZE / 2 then NumericOrder(a, b) else NumericOrder(b, a)
  }

  /** With the half-ring threshold the answer depends only on how far `b` lies
      ahead of `a`: up to 127 steps ahead is newer, 129 or more (127 or fewer
      behind) is older, wherever the pair sits on the ring. */
  lemma CompareHalfRingByForwardSteps(a: SequenceNr, b: SequenceNr)
    ensures 1 <= Forward(a, b) < RING_SIZE / 2 ==> CompareHalfRing(a, b) == Less
    ensures RING_SIZE / 2 < Forward(a, b) ==> CompareHalfRing(a, b) == Greater
  {
  }

  /** The laws the unit test states also hold with the half-ring threshold. */
  lemma CompareHalfRingLaws(a: SequenceNr, b: SequenceNr)
    ensures CompareHalfRing(a, a) == Equal
    ensures CompareHalfRing(a, Next(a)) == Less
    ensures CompareHalfRing(Next(a), a) == Greater
    ensures CompareHalfRing(b, a) == CompareHalfRing(a, b).Reverse()
  {
  }
}
