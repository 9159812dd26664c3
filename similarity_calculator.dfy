/** comparison/SimilarityCalculator.java: the similarity of each pair of
    files, one minus the share of differing parts. */
module SimilarityCalc {
  import opened SimilarityMatrix
  import opened FileSet
  import opened DifferenceCounts

  /** 1.0 - (1.0 * differences) / shortest in double arithmetic: a division
      by zero parts gives NaN for no differences and an infinity otherwise. */
  function Ratio(differences: int, shortest: nat): (d: Double)
    ensures shortest > 0 && 0 <= differences <= shortest ==> d.Finite? && 0.0 <= d.value <= 1.0
    ensures shortest > 0 && differences == 0 ==> d == Finite(1.0)
    ensures shortest > 0 && differences == shortest ==> d == Finite(0.0)
    ensures shortest == 0 && differences == 0 ==> d == NaN
    ensures shortest == 0 && differences > 0 ==> d == NegativeInfinity
  {
    if shortest == 0 then
      if differences == 0 then NaN
      else if differences > 0 then NegativeInfinity
      else PositiveInfinity
    else Finite(1.0 - (differences as real) / (shortest as real))
  }

  /** More differences never make two files more similar. */
  lemma RatioFallsWithDifferences(d1: int, d2: int, shortest: nat)
    requires shortest > 0 && d1 <= d2
    ensures Ratio(d2, shortest).value <= Ratio(d1, shortest).value
  {
    assert (d1 as real) / (shortest as real) <= (d2 as real) / (shortest as real);
  }

  class SimilarityCalculator {
    const files: ChecksumFiles
    const numberOfDifferences: NumberOfDifferences

    constructor (files: ChecksumFiles, numberOfDifferences: NumberOfDifferences)
      ensures this.files == files && this.numberOfDifferences == numberOfDifferences
    {
      this.files := files;
      this.numberOfDifferences := numberOfDifferences;
    }

    /** The matrix was made for these files. */
    predicate Fits()
      reads this, files
    {
      numberOfDifferences.counts.Length0 == |files.files| &&
      numberOfDifferences.counts.Length1 == |files.files|
    }

    /** calculate(file1, file2): one minus the share of the shorter file's
        parts that differ; not a finite number when the shorter file has no
        parts. */
    function PairSimilarity(file1: nat, file2: nat): (similarity: Double)
      reads this, files, numberOfDifferences.counts
      requires Fits() && file1 < |files.files| && file2 < |files.files|
      ensures var shortest := files.FindShorterFileParts(file1, file2);
              var differences := numberOfDifferences.counts[file1, file2];
              (similarity.Finite? <==> shortest > 0) &&
              (shortest > 0 && 0 <= differences <= shortest ==> 0.0 <= similarity.value <= 1.0) &&
              (shortest > 0 && differences == 0 ==> similarity == Finite(1.0)) &&
              (shortest > 0 && differences == shortest ==> similarity == Finite(0.0)) &&
              (shortest == 0 && differences == 0 ==> similarity == NaN) &&
              (shortest == 0 && differences > 0 ==> similarity == NegativeInfinity)
    {
      Ratio(numberOfDifferences.Get(file1, file2), files.FindShorterFileParts(file1, file2))
    }

    /** calculate(): a fresh n-by-n matrix holding, for i <= j, the ratio of
        the pair (i, j) at both [i][j] and [j][i]; the count of [j][i] is
        never consulted. */
    method Calculate() returns (similarity: Similarity)
      requires Fits()
      ensures fresh(similarity) && fresh(similarity.cells)
      ensures similarity.cells.Length0 == |files.files| && similarity.cells.Length1 == |files.files|
      ensures forall a, b :: 0 <= a <= b < |files.files| ==>
                similarity.cells[a, b] == PairSimilarity(a, b) &&
                similarity.cells[b, a] == PairSimilarity(a, b)
      ensures similarity.Symmetric()
    {
      var n := files.Size();
      similarity := new Similarity(n);
      var i := 0;
      while i < n
        invariant 0 <= i <= n
        invariant fresh(similarity) && fresh(similarity.cells)
        invariant similarity.cells.Length0 == n && similarity.cells.Length1 == n
        invariant forall a, b :: 0 <= a < i && a <= b < n ==>
                    similarity.cells[a, b] == PairSimilarity(a, b) &&
                    similarity.cells[b, a] == PairSimilarity(a, b)
      {
        var j := i;
        while j < n
          invariant i <= j <= n
          invariant similarity.cells.Length0 == n && similarity.cells.Length1 == n
          invariant forall a, b :: 0 <= a < i && a <= b < n ==>
                      similarity.cells[a, b] == PairSimilarity(a, b) &&
                      similarity.cells[b, a] == PairSimilarity(a, b)
          invariant forall b :: i <= b < j ==>
                      similarity.cells[i, b] == PairSimilarity(i, b) &&
                      similarity.cells[b, i] == PairSimilarity(i, b)
        {
          similarity.Set(i, j, PairSimilarity(i, j));
          j := j + 1;
        }
        i := i + 1;
      }
      assert forall a, b :: 0 <= a < n && 0 <= b < n ==>
               similarity.cells[a, b] == similarity.cells[b, a] by {
        forall a, b | 0 <= a < n && 0 <= b < n
          ensures similarity.cells[a, b] == similarity.cells[b, a]
        {
          if a > b {
            assert similarity.cells[b, a] == PairSimilarity(b, a);
          }
        }
      }
    }
  }
}
