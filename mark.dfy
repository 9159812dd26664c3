/** comparison/Mark.java: the verdict a user or the marker gives one cell. */
module Marks {

  /** NOT_EXISTS answers for a cell without an item, NEXT asks setMark to
      advance; the other four are the marks an item holds. */
  datatype Mark = NOT_EXISTS | NEXT | UNDEFINED | GOOD | BAD | UNSURE

  /** The four marks of the cycle. */
  predicate IsCycleMark(mark: Mark)
  {
    mark == UNDEFINED || mark == GOOD || mark == BAD || mark == UNSURE
  }

  /** nextMark: UNDEFINED, GOOD, BAD, UNSURE, and round again; anything
      else falls to the default branch and gives UNDEFINED. */
  function NextMark(mark: Mark): (r: Mark)
    ensures IsCycleMark(r)
  {
    match mark
    case UNDEFINED => GOOD
    case GOOD => BAD
    case BAD => UNSURE
    case UNSURE => UNDEFINED
    case _ => UNDEFINED
  }

  /** Four steps bring a cycle mark back to itself, and no fewer do. */
  lemma CycleHasLengthFour(mark: Mark)
    requires IsCycleMark(mark)
    ensures NextMark(NextMark(NextMark(NextMark(mark)))) == mark
    ensures NextMark(mark) != mark
    ensures NextMark(NextMark(mark)) != mark
    ensures NextMark(NextMark(NextMark(mark))) != mark
  {
  }

  /** The two marks outside the cycle enter it at UNDEFINED. */
  lemma OutsideMarksEnterAtUndefined(mark: Mark)
    requires !IsCycleMark(mark)
    ensures mark == NOT_EXISTS || mark == NEXT
    ensures NextMark(mark) == UNDEFINED
  {
  }

  /** On the cycle, nextMark is a bijection: each mark has one predecessor. */
  lemma NextMarkInjectiveOnCycle(a: Mark, b: Mark)
    requires IsCycleMark(a) && IsCycleMark(b)
    ensures NextMark(a) == NextMark(b) <==> a == b
  {
  }
}
