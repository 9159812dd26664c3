/** comparison/Similarity.java: the symmetric matrix of similarity ratios
    between files. */
module SimilarityMatrix {

  /** A Java double as far as the ratio can make one: a finite value (IEEE
      rounding is not modelled), or what a division by zero produces. */
  datatype Double = Finite(value: real) | NaN | PositiveInfinity | NegativeInfinity

  class Similarity {
    const cells: array2<Double>

    /** new double[size][size]: a square matrix of zeros. */
    constructor (size: nat)
      ensures fresh(cells)
      ensures cells.Length0 == size && cells.Length1 == size
      ensures forall i, j :: 0 <= i < size && 0 <= j < size ==> cells[i, j] == Finite(0.0)
    {
      cells := new Double[size, size]((i, j) => Finite(0.0));
    }

    predicate InRange(index1: int, index2: int)
    {
      0 <= index1 < cells.Length0 && 0 <= index2 < cells.Length1
    }

    ghost predicate Symmetric()
      reads cells
    {
      cells.Length0 == cells.Length1 &&
      forall i, j :: 0 <= i < cells.Length0 && 0 <= j < cells.Length0 ==> cells[i, j] == cells[j, i]
    }

    /** set: writes the value at [i][j] and at [j][i] and nowhere else, so a
        symmetric matrix stays symmetric. */
    method Set(index1: int, index2: int, value: Double)
      requires InRange(index1, index2) && InRange(index2, index1)
      modifies cells
      ensures cells[index1, index2] == value && cells[index2, index1] == value
      ensures forall i, j :: InRange(i, j) && !(i == index1 && j == index2) && !(i == index2 && j == index1) ==>
                cells[i, j] == old(cells[i, j])
      ensures old(Symmetric()) ==> Symmetric()
    {
      cells[index1, index2] := value;
      cells[index2, index1] := value;
    }

    /** get: the pair's ratio, the same in either order while the matrix
        is symmetric. */
    function Get(index1: int, index2: int): (v: Double)
      reads cells
      requires InRange(index1, index2)
      ensures v == cells[index1, index2]
      ensures Symmetric() ==> InRange(index2, index1) && v == cells[index2, index1]
    {
      cells[index1, index2]
    }
  }
}
