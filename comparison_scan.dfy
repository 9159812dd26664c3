/** The pairwise scan of comparison/Comparison.java (compareEachFilesPair,
    compareFiles, addDifference) as functions of the files' checksum lists:
    which parts become rows, in which order, and how many differences each
    pair of files has. */
module Scan {
  import opened Wrappers

  /** findShorterFileParts on the files' checksum lists. */
  function Shorter(lists: seq<seq<string>>, i: nat, j: nat): (n: nat)
    requires i < |lists| && j < |lists|
    ensures n <= |lists[i]| && n <= |lists[j]|
    ensures n == |lists[i]| || n == |lists[j]|
  {
    if |lists[j]| < |lists[i]| then |lists[j]| else |lists[i]|
  }

  /** Both files have the part and their checksums for it differ. */
  predicate Differs(lists: seq<seq<string>>, i: nat, j: nat, part: int)
    requires i < |lists| && j < |lists|
  {
    0 <= part < |lists[i]| && part < |lists[j]| && lists[i][part] != lists[j][part]
  }

  predicate NoDup(s: seq<int>)
  {
    forall a, b :: 0 <= a < b < |s| ==> s[a] != s[b]
  }

  /** addDifference's update of partsThatDiffer: the part is appended unless
      it is already listed. */
  function AddPart(rows: seq<int>, part: int): (r: seq<int>)
    ensures rows <= r
    ensures NoDup(rows) ==> NoDup(r)
    ensures forall x :: x in r <==> x in rows || x == part
  {
    if part in rows then rows else rows + [part]
  }

  /** compareFiles from `part` on: rows after the remaining parts of the pair
      (i, j) have been looked at. */
  function ScanParts(lists: seq<seq<string>>, i: nat, j: nat, part: nat, rows: seq<int>): (r: seq<int>)
    requires i < |lists| && j < |lists|
    decreases Shorter(lists, i, j) - part
    ensures rows <= r
  {
    if part >= Shorter(lists, i, j) then rows
    else
      var next := if Differs(lists, i, j, part) then AddPart(rows, part) else rows;
      ScanParts(lists, i, j, part + 1, next)
  }

  /** The inner loop of compareEachFilesPair from `j` on. */
  function ScanPairs(lists: seq<seq<string>>, i: nat, j: nat, rows: seq<int>): (r: seq<int>)
    requires i < |lists|
    decreases |lists| - j
    ensures rows <= r
  {
    if j >= |lists| then rows
    else ScanPairs(lists, i, j + 1, ScanParts(lists, i, j, 0, rows))
  }

  /** The outer loop of compareEachFilesPair from `i` on. */
  function ScanFiles(lists: seq<seq<string>>, i: nat, rows: seq<int>): (r: seq<int>)
    decreases |lists| - i
    ensures rows <= r
  {
    if i + 1 >= |lists| then rows
    else ScanFiles(lists, i + 1, ScanPairs(lists, i, i + 1, rows))
  }

  /** partsThatDiffer after the scan. */
  function DiffParts(lists: seq<seq<string>>): (rows: seq<int>)
  {
    ScanFiles(lists, 0, [])
  }

  /** Scanning a pair adds exactly its differing parts not yet listed. */
  lemma {:induction false} ScanPartsAddsDifferences(lists: seq<seq<string>>, i: nat, j: nat, part: nat, rows: seq<int>)
    requires i < |lists| && j < |lists|
    decreases Shorter(lists, i, j) - part
    ensures NoDup(rows) ==> NoDup(ScanParts(lists, i, j, part, rows))
    ensures forall x :: x in ScanParts(lists, i, j, part, rows) <==>
              x in rows || (part <= x && Differs(lists, i, j, x))
  {
    if part < Shorter(lists, i, j) {
      var next := if Differs(lists, i, j, part) then AddPart(rows, part) else rows;
      ScanPartsAddsDifferences(lists, i, j, part + 1, next);
    }
  }

  /** Scanning the pairs (i, j), (i, j + 1), ... adds the parts where file i
      differs from one of the later files. */
  lemma {:induction false} ScanPairsAddsDifferences(lists: seq<seq<string>>, i: nat, j: nat, rows: seq<int>)
    requires i < |lists|
    decreases |lists| - j
    ensures NoDup(rows) ==> NoDup(ScanPairs(lists, i, j, rows))
    ensures forall x :: x in ScanPairs(lists, i, j, rows) <==>
              x in rows || exists b :: j <= b < |lists| && Differs(lists, i, b, x)
  {
    if j < |lists| {
      ScanPartsAddsDifferences(lists, i, j, 0, rows);
      ScanPairsAddsDifferences(lists, i, j + 1, ScanParts(lists, i, j, 0, rows));
    }
  }

  /** Scanning from file i on adds the parts where some pair a < b, a >= i,
      differs. */
  lemma {:induction false} ScanFilesAddsDifferences(lists: seq<seq<string>>, i: nat, rows: seq<int>)
    decreases |lists| - i
    ensures NoDup(rows) ==> NoDup(ScanFiles(lists, i, rows))
    ensures forall x :: x in ScanFiles(lists, i, rows) <==>
              x in rows || exists a, b :: i <= a < b < |lists| && Differs(lists, a, b, x)
  {
    if i + 1 < |lists| {
      ScanPairsAddsDifferences(lists, i, i + 1, rows);
      ScanFilesAddsDifferences(lists, i + 1, ScanPairs(lists, i, i + 1, rows));
      forall x | x in ScanFiles(lists, i, rows) && x !in rows
        ensures exists a, b :: i <= a < b < |lists| && Differs(lists, a, b, x)
      {
        if x in ScanPairs(lists, i, i + 1, rows) {
          var b :| i + 1 <= b < |lists| && Differs(lists, i, b, x);
        }
      }
      forall x | exists a, b :: i <= a < b < |lists| && Differs(lists, a, b, x)
        ensures x in ScanFiles(lists, i, rows)
      {
        var a, b :| i <= a < b < |lists| && Differs(lists, a, b, x);
        if a == i {
          assert x in ScanPairs(lists, i, i + 1, rows);
        }
      }
    }
  }

  /** The rows are the parts where some two files both have a checksum and
      disagree, each listed once. */
  lemma DiffPartsAreTheDisagreements(lists: seq<seq<string>>)
    ensures NoDup(DiffParts(lists))
    ensures forall x :: x in DiffParts(lists) <==>
              exists a, b :: 0 <= a < b < |lists| && Differs(lists, a, b, x)
  {
    ScanFilesAddsDifferences(lists, 0, []);
  }

  /** With fewer than two files nothing can differ. */
  lemma NoRowsWithoutTwoFiles(lists: seq<seq<string>>)
    requires |lists| < 2
    ensures DiffParts(lists) == []
  {
  }

  /** Rows are listed in the order the scan meets them, not sorted: the
      pair (0, 1) differs only at part 1 and is scanned before the pair
      (0, 2), which differs only at part 0. */
  lemma RowsFollowDiscoveryOrder()
    ensures DiffParts([["a", "b"], ["a", "c"], ["d", "b"]]) == [1, 0]
  {
    var lists := [["a", "b"], ["a", "c"], ["d", "b"]];
    assert Differs(lists, 0, 1, 1) && !Differs(lists, 0, 1, 0);
    assert Differs(lists, 0, 2, 0) && !Differs(lists, 0, 2, 1);
    assert ScanParts(lists, 0, 1, 0, []) == [1];
    assert ScanParts(lists, 0, 2, 0, [1]) == [1, 0];
  }

  /** compareFiles' count from `part` on: the differing parts below the
      shorter file's part count. */
  function DiffCount(lists: seq<seq<string>>, i: nat, j: nat, part: nat): (n: nat)
    requires i < |lists| && j < |lists|
    decreases Shorter(lists, i, j) - part
    ensures part <= Shorter(lists, i, j) ==> n <= Shorter(lists, i, j) - part
    ensures part >= Shorter(lists, i, j) ==> n == 0
  {
    if part >= Shorter(lists, i, j) then 0
    else (if Differs(lists, i, j, part) then 1 else 0) + DiffCount(lists, i, j, part + 1)
  }

  /** A pair counts no differences exactly when it agrees on every part
      both have. */
  lemma {:induction false} NoDifferencesMeansAgreement(lists: seq<seq<string>>, i: nat, j: nat, part: nat)
    requires i < |lists| && j < |lists|
    decreases Shorter(lists, i, j) - part
    ensures DiffCount(lists, i, j, part) == 0 <==>
              forall x :: part <= x ==> !Differs(lists, i, j, x)
  {
    if part < Shorter(lists, i, j) {
      NoDifferencesMeansAgreement(lists, i, j, part + 1);
      assert (forall x :: part <= x ==> !Differs(lists, i, j, x)) <==>
               (!Differs(lists, i, j, part) && forall x :: part + 1 <= x ==> !Differs(lists, i, j, x));
    }
  }
}
