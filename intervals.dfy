/** Half-open time intervals [start, end) in milliseconds. */
module Intervals {

  /** intervalsOverlap: [aStart, aEnd) and [bStart, bEnd) intersect. The server's
      overlap test `start < tEnd && end > tStart` is the same condition. */
  predicate Overlaps(aStart: int, aEnd: int, bStart: int, bEnd: int)
  {
    aStart < bEnd && bStart < aEnd
  }

  /** The instant `t` lies in [start, end). */
  predicate Contains(start: int, end: int, t: int)
  {
    start <= t < end
  }

  /** For non-empty intervals, overlapping means sharing at least one millisecond. */
  lemma OverlapsIffSharedInstant(aStart: int, aEnd: int, bStart: int, bEnd: int)
    requires aStart < aEnd && bStart < bEnd
    ensures Overlaps(aStart, aEnd, bStart, bEnd) <==>
            exists t :: Contains(aStart, aEnd, t) && Contains(bStart, bEnd, t)
  {
    if Overlaps(aStart, aEnd, bStart, bEnd) {
      var t := if aStart < bStart then bStart else aStart;
      assert Contains(aStart, aEnd, t) && Contains(bStart, bEnd, t);
    }
  }

  /** The test does not depend on which interval comes first. */
  lemma OverlapsSymmetric(aStart: int, aEnd: int, bStart: int, bEnd: int)
    ensures Overlaps(aStart, aEnd, bStart, bEnd) == Overlaps(bStart, bEnd, aStart, aEnd)
  {
  }

  /** Back-to-back intervals do not overlap: the end instant is excluded. */
  lemma AdjacentDoNotOverlap(aStart: int, aEnd: int, bEnd: int)
    ensures !Overlaps(aStart, aEnd, aEnd, bEnd)
  {
  }
}
