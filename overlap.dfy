/**
 * The conflict rule used both when offering free slots and when admitting a
 * new appointment: a candidate `[start, end)` clashes with an existing
 * `[apptStart, apptEnd)` when its start lies inside it, its end lies inside
 * it, or it covers it completely.
 */
module Overlap {

  predicate ThreeCaseOverlap(start: int, end: int, apptStart: int, apptEnd: int) {
    || (start >= apptStart && start < apptEnd)
    || (end > apptStart && end <= apptEnd)
    || (start <= apptStart && end >= apptEnd)
  }

  /** The usual overlap of half-open intervals. */
  predicate HalfOpenOverlap(start: int, end: int, otherStart: int, otherEnd: int) {
    start < otherEnd && otherStart < end
  }

  /** For intervals that are not empty the three cases are exactly half-open overlap. */
  lemma ThreeCaseIsHalfOpen(start: int, end: int, apptStart: int, apptEnd: int)
    requires start < end && apptStart < apptEnd
    ensures ThreeCaseOverlap(start, end, apptStart, apptEnd) <==> HalfOpenOverlap(start, end, apptStart, apptEnd)
  {
  }

  /**
   * Where the two rules part: only empty intervals.  An empty candidate clashes
   * with an interval that holds its point, including the closing endpoint, and
   * an empty appointment blocks every candidate that holds its point.
   */
  lemma ThreeCaseExactly(start: int, end: int, apptStart: int, apptEnd: int)
    requires start <= end && apptStart <= apptEnd
    ensures ThreeCaseOverlap(start, end, apptStart, apptEnd) <==>
      || HalfOpenOverlap(start, end, apptStart, apptEnd)
      || (start == end && apptStart <= start <= apptEnd)
      || (apptStart == apptEnd && start <= apptStart <= end)
  {
  }

  /** An empty candidate at the end of an appointment clashes, though it overlaps nothing. */
  lemma EmptyCandidateAtEnd(apptStart: int, apptEnd: int)
    requires apptStart < apptEnd
    ensures ThreeCaseOverlap(apptEnd, apptEnd, apptStart, apptEnd)
    ensures !HalfOpenOverlap(apptEnd, apptEnd, apptStart, apptEnd)
  {
  }

  /** Back-to-back intervals do not clash, in either order. */
  lemma TouchingIsFree(start: int, end: int, apptStart: int, apptEnd: int)
    requires start < end && apptStart < apptEnd
    requires end == apptStart || start == apptEnd
    ensures !ThreeCaseOverlap(start, end, apptStart, apptEnd)
    ensures !ThreeCaseOverlap(apptStart, apptEnd, start, end)
  {
  }

  /** Containment clashes whichever interval is the candidate. */
  lemma ContainmentClashes(start: int, end: int, apptStart: int, apptEnd: int)
    requires apptStart < apptEnd && start <= apptStart && apptEnd <= end
    ensures ThreeCaseOverlap(start, end, apptStart, apptEnd)
    ensures ThreeCaseOverlap(apptStart, apptEnd, start, end)
  {
  }

  /** For non-empty intervals the rule does not depend on which one is the candidate. */
  lemma ThreeCaseSymmetric(start: int, end: int, apptStart: int, apptEnd: int)
    requires start < end && apptStart < apptEnd
    ensures ThreeCaseOverlap(start, end, apptStart, apptEnd) == ThreeCaseOverlap(apptStart, apptEnd, start, end)
  {
  }
}
