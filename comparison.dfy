/** comparison/Comparison.java: the comparison of several checksummed copies
    of one file.  Its rows are the parts on which some two copies disagree;
    its cells are shared ComparisonItems carrying the user's marks. */
module Comparisons {
  import opened Wrappers
  import opened Marks
  import opened Items
  import opened ChecksumData
  import opened FileSet
  import opened DifferenceCounts
  import opened SimilarityMatrix
  import opened SimilarityCalc
  import Scan
  import Division

  /** The files' checksum lists, in file order. */
  function Lists(files: seq<ChecksumFile>): (lists: seq<seq<string>>)
    ensures |lists| == |files|
    ensures forall k :: 0 <= k < |files| ==> lists[k] == files[k].checksums.list
  {
    seq(|files|, k requires 0 <= k < |files| => files[k].checksums.list)
  }

  /** Below the shorter file's part count both files have the part, and
      they differ there exactly when arePartsEquals says no. */
  lemma PartDiffers(fs: ChecksumFiles, file1: nat, file2: nat, part: int)
    requires file1 < |fs.files| && file2 < |fs.files|
    requires 0 <= part < fs.FindShorterFileParts(file1, file2)
    ensures fs.IsPartPresentInBothFiles(part, file1, file2)
    ensures fs.files[file1].HasPart(part)
    ensures !fs.ArePartsEquals(part, file1, file2) <==> Scan.Differs(Lists(fs.files), file1, file2, part)
  {
    fs.PresentBelowShorter(part, file1, file2);
  }

  /** No two items with a checksum share both part and checksum; the
      checksum-less items that missing parts produce may repeat. */
  predicate UniqueKeys(items: seq<ComparisonItem>)
  {
    forall a, b :: 0 <= a < b < |items| && items[a].checksum != "" ==>
      !(items[a].part == items[b].part && items[a].checksum == items[b].checksum)
  }

  /** A search for a non-null checksum of this part finds an item. */
  predicate Covered(items: seq<ComparisonItem>, part: int, checksum: Option<string>)
  {
    checksum.Some? ==> FindIndex(items, part, checksum).Some?
  }

  lemma CoveredStaysCovered(items: seq<ComparisonItem>, more: seq<ComparisonItem>, part: int, checksum: Option<string>)
    requires Covered(items, part, checksum)
    ensures Covered(items + more, part, checksum)
  {
    if checksum.Some? {
      FindStableUnderAppend(items, more, part, checksum);
    }
  }

  /** An item made by the store loop: new, well formed and not yet marked. */
  ghost predicate Initial(item: ComparisonItem)
    reads item
  {
    item.Valid() && (item.checksum != "" ==> item.mark == UNDEFINED)
  }

  /** A file never differs from itself. */
  lemma {:induction false} SelfHasNoDifferences(lists: seq<seq<string>>, a: nat, part: nat)
    requires a < |lists|
    decreases Scan.Shorter(lists, a, a) - part
    ensures Scan.DiffCount(lists, a, a, part) == 0
  {
    if part < Scan.Shorter(lists, a, a) {
      SelfHasNoDifferences(lists, a, part + 1);
    }
  }

  /** Each pair's similarity is a ratio in [0, 1] whenever the shorter file
      has a part, and a file is fully similar to itself. */
  lemma SimilarityInUnitRange(lists: seq<seq<string>>, a: nat, b: nat)
    requires a < |lists| && b < |lists| && Scan.Shorter(lists, a, b) > 0
    ensures var r := Ratio(Scan.DiffCount(lists, a, b, 0), Scan.Shorter(lists, a, b));
            r.Finite? && 0.0 <= r.value <= 1.0
    ensures a == b ==> Ratio(Scan.DiffCount(lists, a, b, 0), Scan.Shorter(lists, a, b)) == Finite(1.0)
  {
    if a == b {
      SelfHasNoDifferences(lists, a, 0);
    }
  }

  /** The old items are still there in front, the new ones behind them are
      unmarked items of rows, and every cell whose file has the row's part
      finds an item. */
  ghost predicate ItemsStored(oldItems: seq<ComparisonItem>, items: seq<ComparisonItem>,
                              rows: seq<int>, files: seq<ChecksumFile>)
    reads items
  {
    oldItems <= items &&
    (forall k :: |oldItems| <= k < |items| ==> Initial(items[k]) && items[k].part in rows) &&
    (forall d, f :: 0 <= d < |rows| && 0 <= f < |files| ==>
       Covered(items, rows[d], files[f].GetChecksum(rows[d])))
  }

  /** Cell [a][b] counts the differences of the pair when a < b and is zero
      otherwise. */
  ghost predicate CountsPerPair(counts: array2<int>, lists: seq<seq<string>>)
    reads counts
  {
    var n := |lists|;
    counts.Length0 == n && counts.Length1 == n &&
    forall a, b :: 0 <= a < n && 0 <= b < n ==>
      counts[a, b] == if a < b then Scan.DiffCount(lists, a, b, 0) else 0
  }

  /** Both [a][b] and [b][a] hold the ratio of the pair a <= b. */
  ghost predicate RatiosOf(cells: array2<Double>, lists: seq<seq<string>>)
    reads cells
  {
    var n := |lists|;
    cells.Length0 == n && cells.Length1 == n &&
    forall a, b :: 0 <= a <= b < n ==>
      cells[a, b] == Ratio(Scan.DiffCount(lists, a, b, 0), Scan.Shorter(lists, a, b)) &&
      cells[b, a] == cells[a, b]
  }

  /** The part ranges of the file cover its bytes exactly, as they do for a
      file the checksums calculator produced. */
  predicate Tiled(f: ChecksumFile)
  {
    f.partLength > 0 && f.sourceFileLength >= 0 &&
    f.GetParts() == Division.NumberOfParts(f.sourceFileLength, f.partLength)
  }

  class Comparison {
    const files: ChecksumFiles
    var items: ComparisonItems
    var similarity: Similarity
    var needsUpdating: bool
    var partsThatDiffer: seq<int>
    var numberOfDifferences: NumberOfDifferences?

    /** Rows are distinct parts and items are unique per checksum key. */
    ghost predicate Valid()
      reads this, items
    {
      Scan.NoDup(partsThatDiffer) && UniqueKeys(items.items)
    }

    constructor ()
      ensures Valid() && fresh(files) && files.files == [] && fresh(items) && items.items == []
      ensures !needsUpdating && partsThatDiffer == []
      ensures fresh(similarity.cells) && similarity.cells.Length0 == 0
    {
      files := new ChecksumFiles();
      similarity := new Similarity(0);
      needsUpdating := false;
      items := new ComparisonItems();
      partsThatDiffer := [];
      numberOfDifferences := null;
    }

    /** getDifferences: -1 while the comparison is stale, else the row count. */
    function GetDifferences(): (n: int)
      reads this
      ensures needsUpdating <==> n == -1
      ensures !needsUpdating ==> n == |partsThatDiffer|
    {
      if needsUpdating then -1 else |partsThatDiffer|
    }

    function GetFilesCount(): (n: nat)
      reads this, files
      ensures n == |files.files|
    {
      files.Size()
    }

    /** isValidDifferenceIndex: the index names a row; for a current
        comparison, a row below getDifferences(). */
    predicate IsValidDifferenceIndex(difference: int)
      reads this
      ensures !needsUpdating ==> (IsValidDifferenceIndex(difference) <==> 0 <= difference < GetDifferences())
    {
      0 <= difference < |partsThatDiffer|
    }

    /** getPart: the row's part number, -1 for a bad row index. */
    function GetPart(difference: int): (part: int)
      reads this
      ensures IsValidDifferenceIndex(difference) ==> part == partsThatDiffer[difference]
      ensures !IsValidDifferenceIndex(difference) ==> part == -1
    {
      if !IsValidDifferenceIndex(difference) then -1 else partsThatDiffer[difference]
    }

    /** isGoodIndex: the comparison is current and both indices are valid. */
    predicate IsGoodIndex(difference: int, file: int)
      reads this, files
      ensures IsGoodIndex(difference, file) <==> 0 <= difference < GetDifferences() && 0 <= file < GetFilesCount()
    {
      !needsUpdating && IsValidDifferenceIndex(difference) && files.IsValidFileIndex(file)
    }

    /** getItem: the item stored for the row's part and the file's checksum
        of it; null for a bad index or a file without the part. */
    function GetItem(difference: int, file: int): (item: ComparisonItem?)
      reads this, files, items
      ensures item != null ==> IsGoodIndex(difference, file) && item in items.items
      ensures item != null ==> item.part == partsThatDiffer[difference] &&
                               files.files[file].HasPart(item.part) &&
                               item.checksum == files.files[file].checksums.list[item.part]
      ensures IsGoodIndex(difference, file) ==>
                item == Lookup(items.items, partsThatDiffer[difference],
                               files.files[file].GetChecksum(partsThatDiffer[difference]))
    {
      if !IsGoodIndex(difference, file) then null
      else
        var part := partsThatDiffer[difference];
        Lookup(items.items, part, files.files[file].GetChecksum(part))
    }

    /** Two files with the same checksum for a row's part share that row's
        item, so a mark set through one cell shows in the other. */
    lemma SameChecksumSharesItem(difference: int, file1: int, file2: int)
      requires IsGoodIndex(difference, file1) && IsGoodIndex(difference, file2)
      requires files.files[file1].GetChecksum(partsThatDiffer[difference]) ==
               files.files[file2].GetChecksum(partsThatDiffer[difference])
      ensures GetItem(difference, file1) == GetItem(difference, file2)
    {
    }

    /** getChecksum: the item's checksum, "" without an item. */
    function GetChecksum(difference: int, file: int): (checksum: string)
      reads this, files, items
      ensures GetItem(difference, file) == null ==> checksum == ""
      ensures GetItem(difference, file) != null ==>
                checksum == files.files[file].checksums.list[partsThatDiffer[difference]]
    {
      var item := GetItem(difference, file);
      if item == null then "" else item.checksum
    }

    /** getMark: the item's mark; BAD for a cell without an item. */
    function GetMark(difference: int, file: int): (mark: Mark)
      reads this, files, items, items.items
      ensures GetItem(difference, file) == null ==> mark == BAD
      ensures GetItem(difference, file) != null ==> mark == GetItem(difference, file).mark
    {
      var item := GetItem(difference, file);
      if item == null then BAD else item.mark
    }

    /** The offset of the cell's part in its file, first or last byte, when
        the cell has an item. */
    function CellOffset(difference: int, file: int, end: bool): (o: Option<int>)
      reads this, files, items
      ensures o.Some? <==> GetItem(difference, file) != null
    {
      var item := GetItem(difference, file);
      if item == null then None
      else if end then Some(files.files[file].GetEndOffset(item.part).value)
      else Some(files.files[file].GetStartOffsetOfPart(item.part).value)
    }

    /** The offset getStartOffset / getEndOffset reach after the first
        `count` files: -1 raised to each larger offset of a cell with an
        item. */
    function MaxOffset(difference: int, count: nat, end: bool): (m: int)
      reads this, files, items
      requires count <= |files.files|
    {
      if count == 0 then -1
      else
        var m := MaxOffset(difference, count - 1, end);
        match CellOffset(difference, count - 1, end)
        case None => m
        case Some(o) => if o > m then o else m
    }

    /** The reached offset is the largest cell offset, or -1 when no cell of
        the row has an item. */
    lemma {:induction false} MaxOffsetIsLargest(difference: int, count: nat, end: bool)
      requires count <= |files.files|
      ensures MaxOffset(difference, count, end) >= -1
      ensures forall f :: 0 <= f < count && CellOffset(difference, f, end).Some? ==>
                CellOffset(difference, f, end).value <= MaxOffset(difference, count, end)
      ensures MaxOffset(difference, count, end) == -1 ||
              exists f :: 0 <= f < count && CellOffset(difference, f, end) == Some(MaxOffset(difference, count, end))
    {
      if count > 0 {
        MaxOffsetIsLargest(difference, count - 1, end);
      }
    }

    /** getStartOffset: IllegalArgumentException for a bad row (or no file
        or a stale comparison), else the largest start of the row's part. */
    method GetStartOffset(difference: int) returns (r: Result<int>)
      ensures !IsGoodIndex(difference, 0) <==> r == Failure(IllegalArgumentException)
      ensures IsGoodIndex(difference, 0) ==> r == Success(MaxOffset(difference, |files.files|, false))
    {
      r := LargestOffset(difference, false);
    }

    /** getEndOffset: the same search over the last bytes of the part. */
    method GetEndOffset(difference: int) returns (r: Result<int>)
      ensures !IsGoodIndex(difference, 0) <==> r == Failure(IllegalArgumentException)
      ensures IsGoodIndex(difference, 0) ==> r == Success(MaxOffset(difference, |files.files|, true))
    {
      r := LargestOffset(difference, true);
    }

    /** The loop both offset queries run. */
    method LargestOffset(difference: int, end: bool) returns (r: Result<int>)
      ensures !IsGoodIndex(difference, 0) <==> r == Failure(IllegalArgumentException)
      ensures IsGoodIndex(difference, 0) ==> r == Success(MaxOffset(difference, |files.files|, end))
    {
      if !IsGoodIndex(difference, 0) {
        return Failure(IllegalArgumentException);
      }
      var offset := -1;
      var i := 0;
      while i < files.Size()
        invariant 0 <= i <= |files.files|
        invariant offset == MaxOffset(difference, i, end)
      {
        var item := GetItem(difference, i);
        if item != null {
          var o := if end then files.files[i].GetEndOffset(item.part).value
                   else files.files[i].GetStartOffsetOfPart(item.part).value;
          if o > offset {
            offset := o;
          }
        }
        i := i + 1;
      }
      return Success(offset);
    }

    /** When every file's parts tile it, a row never starts after it ends:
        the file holding the largest start ends no earlier. */
    lemma StartNotAfterEnd(difference: int)
      requires IsGoodIndex(difference, 0)
      requires forall f :: 0 <= f < |files.files| ==> Tiled(files.files[f])
      ensures MaxOffset(difference, |files.files|, false) <= MaxOffset(difference, |files.files|, true)
    {
      var n := |files.files|;
      MaxOffsetIsLargest(difference, n, false);
      MaxOffsetIsLargest(difference, n, true);
      var m := MaxOffset(difference, n, false);
      if m != -1 {
        var f :| 0 <= f < n && CellOffset(difference, f, false) == Some(m);
        var item := GetItem(difference, f);
        OffsetsTileFile(files.files[f], item.part);
        assert CellOffset(difference, f, true).Some?;
      }
    }

    /** The objects setMark and nextMark may change: the cell's item. */
    function CellFrame(difference: int, file: int): (frame: set<ComparisonItem>)
      reads this, files, items
      ensures GetItem(difference, file) != null ==> frame == {GetItem(difference, file)}
      ensures GetItem(difference, file) == null ==> frame == {}
    {
      var item := GetItem(difference, file);
      if item == null then {} else {item}
    }

    /** setMark: passes the mark to the cell's item, if there is one. */
    method SetMark(difference: int, file: int, mark: Mark)
      modifies CellFrame(difference, file)
      ensures var item := GetItem(difference, file);
              item != null ==>
                (item.checksum == "" ==> item.mark == old(item.mark)) &&
                (item.checksum != "" && mark == NEXT ==> item.mark == Marks.NextMark(old(item.mark))) &&
                (item.checksum != "" && mark != NEXT ==> item.mark == mark)
      ensures forall e, f :: GetItem(e, f) != GetItem(difference, file) ==> GetMark(e, f) == old(GetMark(e, f))
    {
      if !IsGoodIndex(difference, file) {
        return;
      }
      var item := GetItem(difference, file);
      if item != null {
        item.SetMark(mark);
      }
    }

    /** nextMark: NOT_EXISTS for a cell without an item; otherwise the next
        mark of the cycle, which the item takes unless it has no checksum. */
    method NextMark(difference: int, file: int) returns (result: Mark)
      modifies CellFrame(difference, file)
      ensures GetItem(difference, file) == null ==> result == NOT_EXISTS
      ensures var item := GetItem(difference, file);
              item != null ==>
                result == Marks.NextMark(old(item.mark)) &&
                item.mark == (if item.checksum == "" then old(item.mark) else result)
    {
      var item := GetItem(difference, file);
      if item == null {
        return NOT_EXISTS;
      }
      result := Marks.NextMark(item.mark);
      item.SetMark(result);
    }

    /** addFile: the comparison goes stale only when the file set accepts the
        file. */
    method AddFile(file: ChecksumFile?)
      modifies this, files
      ensures files.files == old(files.files) + [file] || files.files == old(files.files)
      ensures needsUpdating == (old(needsUpdating) || files.files != old(files.files))
      ensures files.files != old(files.files) <==> old(files.IsValidFileToAdd(file)) && file !in old(files.files)
      ensures partsThatDiffer == old(partsThatDiffer) && items == old(items)
    {
      var added := files.Add(file);
      if added {
        needsUpdating := true;
      }
    }

    /** removeFile: the comparison goes stale even when the index is invalid
        and nothing is removed. */
    method RemoveFile(index: int)
      modifies this, files
      ensures 0 <= index < |old(files.files)| ==>
                files.files == old(files.files)[..index] + old(files.files)[index + 1..]
      ensures !(0 <= index < |old(files.files)|) ==> files.files == old(files.files)
      ensures needsUpdating
      ensures partsThatDiffer == old(partsThatDiffer) && items == old(items)
    {
      var removed := files.Remove(index);
      needsUpdating := true;
    }

    /** The item is the cell item of some row start..end. */
    ghost predicate CellOfRows(it: ComparisonItem, start: int, end: int)
      reads this, files, items
    {
      exists row, col :: start <= row <= end && 0 <= col < |files.files| && GetItem(row, col) == it
    }

    /** validateRange: a non-empty range of rows of a current comparison. */
    predicate ValidateRange(start: int, end: int)
      reads this
      ensures ValidateRange(start, end) <==> !needsUpdating && 0 <= start <= end < |partsThatDiffer|
    {
      start >= 0 && end < GetDifferences() && start <= end
    }

    /** markRowsUndefined: false, changing nothing, unless the range is
        valid; otherwise every cell item of those rows that has a checksum
        becomes UNDEFINED, and no other item changes. */
    method MarkRowsUndefined(start: int, end: int) returns (ok: bool)
      modifies set it | it in items.items
      ensures ok <==> 0 <= start <= end < |partsThatDiffer| && !needsUpdating
      ensures forall it :: it in items.items ==>
                it.mark == if ok && CellOfRows(it, start, end) && it.checksum != "" then UNDEFINED else old(it.mark)
    {
      if !ValidateRange(start, end) {
        return false;
      }
      var row := start;
      while row <= end
        invariant start <= row <= end + 1
        invariant forall it :: it in items.items ==>
                    it.mark == if CellOfRows(it, start, row - 1) && it.checksum != "" then UNDEFINED else old(it.mark)
      {
        ghost var before := map it | it in items.items :: it.mark;
        MarkRowUndefined(row);
        forall it | it in items.items
          ensures CellOfRows(it, start, row) <==> CellOfRows(it, start, row - 1) || CellOfRows(it, row, row)
        {
          if CellOfRows(it, start, row) {
            var r, c :| start <= r <= row && 0 <= c < |files.files| && GetItem(r, c) == it;
            if r == row {
              assert CellOfRows(it, row, row);
            } else {
              assert CellOfRows(it, start, row - 1);
            }
          }
        }
        row := row + 1;
      }
      return true;
    }

    /** The item is the cell item of row `row` in one of the first `cols`
        files. */
    ghost predicate CellOfColumns(it: ComparisonItem, row: int, cols: int)
      reads this, files, items
    {
      exists col :: 0 <= col < cols && col < |files.files| && GetItem(row, col) == it
    }

    /** The inner loop of markRowsUndefined over one row. */
    method MarkRowUndefined(row: int)
      modifies set it | it in items.items
      ensures forall it :: it in items.items ==>
                it.mark == if CellOfRows(it, row, row) && it.checksum != "" then UNDEFINED else old(it.mark)
    {
      var col := 0;
      while col < files.Size()
        invariant 0 <= col <= |files.files|
        invariant forall it :: it in items.items ==>
                    it.mark == if CellOfColumns(it, row, col) && it.checksum != "" then UNDEFINED else old(it.mark)
      {
        label L:
        ghost var cell := GetItem(row, col);
        if IsGoodIndex(row, col) {
          SetMark(row, col, UNDEFINED);
        }
        forall it | it in items.items
          ensures it.mark == if CellOfColumns(it, row, col + 1) && it.checksum != "" then UNDEFINED else old(it.mark)
        {
          if it == cell {
            assert GetItem(row, col) == it;
          } else {
            assert it.mark == old@L(it.mark);
            if CellOfColumns(it, row, col + 1) {
              var c :| 0 <= c < col + 1 && c < |files.files| && GetItem(row, c) == it;
              assert c < col;
            }
          }
        }
        col := col + 1;
      }
      forall it | it in items.items
        ensures CellOfRows(it, row, row) <==> CellOfColumns(it, row, |files.files|)
      {
        if CellOfRows(it, row, row) {
          var r, c :| row <= r <= row && 0 <= c < |files.files| && GetItem(r, c) == it;
        }
      }
    }

    /** doCompare: recomputes the rows from scratch and the comparison is
        current afterwards.  With two or more files the items are kept, with
        their marks, and one is added for each new (part, checksum) of a row;
        with fewer files the items are dropped. */
    method DoCompare()
      requires Valid()
      modifies this, items
      ensures Valid() && !needsUpdating
      ensures partsThatDiffer == Scan.DiffParts(Lists(files.files))
      ensures |files.files| < 2 ==> fresh(items) && items.items == []
      ensures |files.files| < 2 ==>
                fresh(similarity.cells) &&
                similarity.cells.Length0 == |files.files| && similarity.cells.Length1 == |files.files|
      ensures |files.files| == 1 ==> similarity.cells[0, 0] == Finite(1.0)
      ensures |files.files| >= 2 ==> MultipleFilesCompared(old(items.items))
    {
      partsThatDiffer := [];
      if files.Size() > 1 {
        CompareMultipleFiles();
      } else if files.Size() == 1 {
        Scan.NoRowsWithoutTwoFiles(Lists(files.files));
        CompareSingleFile();
      } else {
        Scan.NoRowsWithoutTwoFiles(Lists(files.files));
        CompareNoFile();
      }
    }

    /** The state compareMultipleFiles leaves: the items stored, the counts
        per pair and the similarity as their ratio. */
    ghost predicate MultipleFilesCompared(oldItems: seq<ComparisonItem>)
      reads this, files, items, items.items, similarity.cells
      reads if numberOfDifferences == null then {} else {numberOfDifferences.counts}
    {
      ItemsStored(oldItems, items.items, partsThatDiffer, files.files) &&
      numberOfDifferences != null &&
      CountsPerPair(numberOfDifferences.counts, Lists(files.files)) &&
      RatiosOf(similarity.cells, Lists(files.files))
    }

    /** compareMultipleFiles. */
    method CompareMultipleFiles()
      requires |files.files| > 1 && partsThatDiffer == [] && UniqueKeys(items.items)
      modifies this, items
      ensures Valid() && !needsUpdating && items == old(items)
      ensures partsThatDiffer == Scan.DiffParts(Lists(files.files))
      ensures MultipleFilesCompared(old(items.items))
      ensures forall k :: 0 <= k < |old(items.items)| ==> items.items[k].mark == old(items.items[k].mark)
    {
      var nod := new NumberOfDifferences(files.Size());
      numberOfDifferences := nod;
      CompareEachFilesPair(nod);
      StoreComparisonDataToList();
      similarity := CalculateSimilarity(nod);
      needsUpdating := false;
      Scan.DiffPartsAreTheDisagreements(Lists(files.files));
    }

    /** new SimilarityCalculator(files, numberOfDifferences).calculate(). */
    method CalculateSimilarity(nod: NumberOfDifferences) returns (s: Similarity)
      requires CountsPerPair(nod.counts, Lists(files.files))
      ensures fresh(s) && fresh(s.cells) && RatiosOf(s.cells, Lists(files.files))
    {
      var calculator := new SimilarityCalculator(files, nod);
      s := calculator.Calculate();
      var lists := Lists(files.files);
      forall a, b | 0 <= a <= b < |files.files|
        ensures s.cells[a, b] == Ratio(Scan.DiffCount(lists, a, b, 0), Scan.Shorter(lists, a, b))
      {
        if a == b {
          SelfHasNoDifferences(lists, a, 0);
        }
        assert calculator.PairSimilarity(a, b) == Ratio(Scan.DiffCount(lists, a, b, 0), Scan.Shorter(lists, a, b));
      }
    }

    /** compareEachFilesPair: every pair i < j, in order. */
    method CompareEachFilesPair(nod: NumberOfDifferences)
      requires nod.counts.Length0 == |files.files| && nod.counts.Length1 == |files.files|
      requires forall a, b :: 0 <= a < |files.files| && 0 <= b < |files.files| ==> nod.counts[a, b] == 0
      modifies this`partsThatDiffer, nod.counts
      ensures partsThatDiffer == Scan.ScanFiles(Lists(files.files), 0, old(partsThatDiffer))
      ensures CountsPerPair(nod.counts, Lists(files.files))
    {
      var lists := Lists(files.files);
      var n: int := files.Size();
      var i := 0;
      while i < n - 1
        invariant 0 <= i <= n || (n == 0 && i == 0)
        invariant Scan.ScanFiles(lists, 0, old(partsThatDiffer)) == Scan.ScanFiles(lists, i, partsThatDiffer)
        invariant forall a, b :: 0 <= a < n && 0 <= b < n ==>
                    nod.counts[a, b] == if a < b && a < i then Scan.DiffCount(lists, a, b, 0) else 0
      {
        CompareWithLaterFiles(nod, i);
        i := i + 1;
      }
    }

    /** The inner loop of compareEachFilesPair: file i against each later
        file. */
    method CompareWithLaterFiles(nod: NumberOfDifferences, i: nat)
      requires i < |files.files|
      requires nod.counts.Length0 == |files.files| && nod.counts.Length1 == |files.files|
      modifies this`partsThatDiffer, nod.counts
      ensures partsThatDiffer == Scan.ScanPairs(Lists(files.files), i, i + 1, old(partsThatDiffer))
      ensures forall a, b :: nod.InRange(a, b) ==>
                nod.counts[a, b] == if a == i && i < b then old(nod.counts[a, b]) + Scan.DiffCount(Lists(files.files), a, b, 0)
                                    else old(nod.counts[a, b])
    {
      var lists := Lists(files.files);
      var n := files.Size();
      var j := i + 1;
      while j < n
        invariant i + 1 <= j <= n
        invariant Scan.ScanPairs(lists, i, i + 1, old(partsThatDiffer)) == Scan.ScanPairs(lists, i, j, partsThatDiffer)
        invariant forall a, b :: nod.InRange(a, b) ==>
                    nod.counts[a, b] == if a == i && i < b < j then old(nod.counts[a, b]) + Scan.DiffCount(lists, a, b, 0)
                                        else old(nod.counts[a, b])
      {
        CompareFiles(nod, i, j);
        j := j + 1;
      }
    }

    /** compareFiles: the parts below the shorter file's count that both
        files have with different checksums. */
    method CompareFiles(nod: NumberOfDifferences, file1: nat, file2: nat)
      requires file1 < |files.files| && file2 < |files.files|
      requires nod.counts.Length0 == |files.files| && nod.counts.Length1 == |files.files|
      modifies this`partsThatDiffer, nod.counts
      ensures partsThatDiffer == Scan.ScanParts(Lists(files.files), file1, file2, 0, old(partsThatDiffer))
      ensures nod.counts[file1, file2] == old(nod.counts[file1, file2]) + Scan.DiffCount(Lists(files.files), file1, file2, 0)
      ensures forall a, b :: nod.InRange(a, b) && (a != file1 || b != file2) ==> nod.counts[a, b] == old(nod.counts[a, b])
    {
      var lists := Lists(files.files);
      var shortest := files.FindShorterFileParts(file1, file2);
      assert shortest == Scan.Shorter(lists, file1, file2);
      var part := 0;
      while part < shortest
        invariant 0 <= part <= shortest
        invariant Scan.ScanParts(lists, file1, file2, 0, old(partsThatDiffer)) ==
                  Scan.ScanParts(lists, file1, file2, part, partsThatDiffer)
        invariant old(nod.counts[file1, file2]) + Scan.DiffCount(lists, file1, file2, 0) ==
                  nod.counts[file1, file2] + Scan.DiffCount(lists, file1, file2, part)
        invariant forall a, b :: nod.InRange(a, b) && (a != file1 || b != file2) ==> nod.counts[a, b] == old(nod.counts[a, b])
      {
        PartDiffers(files, file1, file2, part);
        if files.IsPartPresentInBothFiles(part, file1, file2) {
          if !files.ArePartsEquals(part, file1, file2) {
            AddDifference(nod, file1, file2, part);
          }
        }
        part := part + 1;
      }
    }

    /** addDifference: one more difference for the pair, and the part joins
        the rows unless it is already one. */
    method AddDifference(nod: NumberOfDifferences, file1: nat, file2: nat, part: int)
      requires nod.InRange(file1, file2)
      modifies this`partsThatDiffer, nod.counts
      ensures partsThatDiffer == Scan.AddPart(old(partsThatDiffer), part)
      ensures nod.counts[file1, file2] == old(nod.counts[file1, file2]) + 1
      ensures forall a, b :: nod.InRange(a, b) && (a != file1 || b != file2) ==> nod.counts[a, b] == old(nod.counts[a, b])
    {
      nod.Add(file1, file2);
      if part !in partsThatDiffer {
        partsThatDiffer := partsThatDiffer + [part];
      }
    }

    /** storeComparisonDataToList: every cell of every row gets an item. */
    method StoreComparisonDataToList()
      requires UniqueKeys(items.items)
      modifies items
      ensures old(items.items) <= items.items && UniqueKeys(items.items)
      ensures forall k :: |old(items.items)| <= k < |items.items| ==>
                fresh(items.items[k]) && Initial(items.items[k]) && items.items[k].part in partsThatDiffer
      ensures forall d, f :: 0 <= d < |partsThatDiffer| && 0 <= f < |files.files| ==>
                Covered(items.items, partsThatDiffer[d], files.files[f].GetChecksum(partsThatDiffer[d]))
    {
      var r := 0;
      while r < |partsThatDiffer|
        invariant 0 <= r <= |partsThatDiffer|
        invariant old(items.items) <= items.items && UniqueKeys(items.items)
        invariant forall k :: |old(items.items)| <= k < |items.items| ==>
                    fresh(items.items[k]) && Initial(items.items[k]) && items.items[k].part in partsThatDiffer
        invariant forall d, f :: 0 <= d < r && 0 <= f < |files.files| ==>
                    Covered(items.items, partsThatDiffer[d], files.files[f].GetChecksum(partsThatDiffer[d]))
      {
        ghost var before := items.items;
        StorePartComparisonData(partsThatDiffer[r]);
        forall d, f | 0 <= d < r && 0 <= f < |files.files|
          ensures Covered(items.items, partsThatDiffer[d], files.files[f].GetChecksum(partsThatDiffer[d]))
        {
          assert items.items == before + items.items[|before|..];
          CoveredStaysCovered(before, items.items[|before|..], partsThatDiffer[d], files.files[f].GetChecksum(partsThatDiffer[d]));
        }
        r := r + 1;
      }
    }

    /** storePartComparisonData: the cells of one row, file by file. */
    method StorePartComparisonData(part: int)
      requires UniqueKeys(items.items)
      modifies items
      ensures old(items.items) <= items.items && UniqueKeys(items.items)
      ensures forall k :: |old(items.items)| <= k < |items.items| ==>
                fresh(items.items[k]) && Initial(items.items[k]) && items.items[k].part == part
      ensures forall f :: 0 <= f < |files.files| ==> Covered(items.items, part, files.files[f].GetChecksum(part))
    {
      var f := 0;
      while f < files.Size()
        invariant 0 <= f <= |files.files|
        invariant old(items.items) <= items.items && UniqueKeys(items.items)
        invariant forall k :: |old(items.items)| <= k < |items.items| ==>
                    fresh(items.items[k]) && Initial(items.items[k]) && items.items[k].part == part
        invariant forall g :: 0 <= g < f ==> Covered(items.items, part, files.files[g].GetChecksum(part))
      {
        ghost var before := items.items;
        AddComparisonItem(part, files.files[f].GetChecksum(part));
        forall g | 0 <= g < f
          ensures Covered(items.items, part, files.files[g].GetChecksum(part))
        {
          assert items.items == before + items.items[|before|..];
          CoveredStaysCovered(before, items.items[|before|..], part, files.files[g].GetChecksum(part));
        }
        f := f + 1;
      }
    }

    /** addComparisonItem: a new item only when no item matches. */
    method AddComparisonItem(part: int, checksum: Option<string>)
      requires UniqueKeys(items.items)
      modifies items
      ensures UniqueKeys(items.items) && Covered(items.items, part, checksum)
      ensures FindIndex(old(items.items), part, checksum).Some? ==> items.items == old(items.items)
      ensures FindIndex(old(items.items), part, checksum).None? ==>
                |items.items| == |old(items.items)| + 1 && items.items[..|old(items.items)|] == old(items.items) &&
                var item := items.items[|old(items.items)|];
                fresh(item) && Initial(item) && item.part == part &&
                (checksum.Some? ==> item.checksum == checksum.value)
    {
      var found := items.Find(part, checksum);
      if found == null {
        var item := new ComparisonItem(checksum, part);
        ghost var before := items.items;
        items.Add(item);
        if checksum.Some? {
          FindAfterAppend(before, item, part, checksum);
        }
        assert forall a :: 0 <= a < |before| ==> items.items[a] == before[a];
      }
    }

    method CompareSingleFile()
      requires |files.files| == 1 && partsThatDiffer == []
      modifies this
      ensures Valid() && !needsUpdating && partsThatDiffer == []
      ensures fresh(items) && items.items == []
      ensures fresh(similarity.cells) && similarity.cells.Length0 == 1 && similarity.cells.Length1 == 1
      ensures similarity.cells[0, 0] == Finite(1.0)
    {
      items := new ComparisonItems();
      similarity := new Similarity(1);
      similarity.Set(0, 0, Finite(1.0));
      needsUpdating := false;
    }

    method CompareNoFile()
      requires |files.files| == 0 && partsThatDiffer == []
      modifies this
      ensures Valid() && !needsUpdating && partsThatDiffer == []
      ensures fresh(items) && items.items == []
      ensures fresh(similarity.cells) && similarity.cells.Length0 == 0 && similarity.cells.Length1 == 0
    {
      items := new ComparisonItems();
      similarity := new Similarity(0);
      needsUpdating := false;
    }
  }
}
