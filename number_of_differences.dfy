/** comparison/NumberOfDifferences.java: per pair of files, how many parts
    they disagree on. */
module DifferenceCounts {

  class NumberOfDifferences {
    const counts: array2<int>

    /** A square matrix of zeros, one row and one column per file. */
    constructor (size: nat)
      ensures fresh(counts)
      ensures counts.Length0 == size && counts.Length1 == size
      ensures forall i, j :: 0 <= i < size && 0 <= j < size ==> counts[i, j] == 0
    {
      counts := new int[size, size]((i, j) => 0);
    }

    predicate InRange(index1: int, index2: int)
    {
      0 <= index1 < counts.Length0 && 0 <= index2 < counts.Length1
    }

    /** add: one more difference for the ordered pair; [j][i] is a different
        cell and is left alone. */
    method Add(index1: int, index2: int)
      requires InRange(index1, index2)
      modifies counts
      ensures counts[index1, index2] == old(counts[index1, index2]) + 1
      ensures forall i, j :: InRange(i, j) && (i != index1 || j != index2) ==>
                counts[i, j] == old(counts[i, j])
    {
      counts[index1, index2] := counts[index1, index2] + 1;
    }

    /** get: the ordered pair's count. */
    function Get(index1: int, index2: int): (n: int)
      reads counts
      requires InRange(index1, index2)
      ensures n == counts[index1, index2]
    {
      counts[index1, index2]
    }
  }
}
