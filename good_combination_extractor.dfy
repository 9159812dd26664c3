/** combination/GoodCombinationExtractor.java, and the createGoodCombination
    entry point that comparison/Comparison.java offers: walks the rows of a
    comparison and, for each row, takes a range of bytes from the first
    file marked GOOD in it.  The ranges are first specified as a function
    of the comparison's marks, then the extractor class is proved against
    that function. */
module Extraction {
  import opened Wrappers
  import opened JavaIo
  import opened Marks
  import opened ChecksumData
  import opened Comparisons
  import opened Combination
  import Marking

  /** What the extractor reads of a comparison: getMark of every cell of
      the rows it walks, and the files. */
  datatype View = View(grid: seq<seq<Mark>>, files: seq<ChecksumFile>)

  /** Every row has a mark per file. */
  predicate Shaped(v: View)
  {
    forall d :: 0 <= d < |v.grid| ==> |v.grid[d]| == |v.files|
  }

  /** The comparison as the extractor sees it: no rows at all while it is
      stale, since getDifferences() is -1 then. */
  ghost function ViewOf(c: Comparison): (v: View)
    reads c, c.files, c.items, c.items.items
    ensures Shaped(v) && v.files == c.files.files
    ensures c.needsUpdating ==> v.grid == []
    ensures !c.needsUpdating ==> |v.grid| == |c.partsThatDiffer| == c.GetDifferences()
  {
    Marking.ShowsIsGrid(c, Marking.Grid(c));
    View(if c.needsUpdating then [] else Marking.Grid(c), c.files.files)
  }

  /** Each cell of the view is what getMark answers for it. */
  lemma ViewCell(c: Comparison, d: int, f: int)
    requires 0 <= d < |ViewOf(c).grid| && 0 <= f < |c.files.files|
    ensures ViewOf(c).grid[d][f] == c.GetMark(d, f)
  {
    Marking.ShowsIsGrid(c, Marking.Grid(c));
  }

  /** addGoodPart's search: the lowest file index, from `file` on, whose
      mark in the row is GOOD. */
  function FirstGood(row: seq<Mark>, file: nat): (r: Option<nat>)
    requires file <= |row|
    decreases |row| - file
    ensures r.Some? ==> file <= r.value < |row| && row[r.value] == GOOD
    ensures r.Some? ==> forall f :: file <= f < r.value ==> row[f] != GOOD
    ensures r.None? ==> forall f :: file <= f < |row| ==> row[f] != GOOD
  {
    if file == |row| then None
    else if row[file] == GOOD then Some(file)
    else FirstGood(row, file + 1)
  }

  /** findStartPosition: where the range after row `difference`'s range
      starts; the last row leaves it where it was. */
  function After(v: View, difference: nat, p: GoodCombinationPart): (next: int)
    ensures difference != |v.grid| - 1 ==> next == p.endOffset + 1
    ensures difference == |v.grid| - 1 ==> next == p.startOffset
  {
    if difference == |v.grid| - 1 then p.startOffset else p.endOffset + 1
  }

  /** addGoodFilePart's range for a row, starting at `start`: from the first
      GOOD file, ending at that file's length for the last row and
      otherwise at its getEndOffset with the ROW index taken as the part
      number, which throws when the file has no such part.  None when no
      file is GOOD in the row. */
  function RowRange(v: View, difference: nat, start: int): (r: Result<Option<GoodCombinationPart>>)
    requires Shaped(v) && difference < |v.grid|
    ensures r == Success(None) <==> FirstGood(v.grid[difference], 0).None?
    ensures r.Success? && r.value.Some? ==>
              r.value.value.startOffset == start &&
              Some(r.value.value.streamIndex) == FirstGood(v.grid[difference], 0)
    ensures r.Failure? ==> difference < |v.grid| - 1 && r.error == IndexOutOfBoundsException
  {
    match FirstGood(v.grid[difference], 0)
    case None => Success(None)
    case Some(f) =>
      var file := v.files[f];
      var end := if difference == |v.grid| - 1 then Success(file.sourceFileLength)
                 else file.GetEndOffset(difference);
      if end.Failure? then Failure(end.error)
      else Success(Some(GoodCombinationPart(f, start, end.value)))
  }

  /** A row's range comes from its first GOOD file: none when no file is
      GOOD, the whole rest of that file for the last row, and otherwise up
      to that file's end offset for the row index used as a part number,
      which fails when that file has no such part. */
  lemma RowRangeFromFirstGood(v: View, difference: nat, start: int)
    requires Shaped(v) && difference < |v.grid|
    ensures var r := RowRange(v, difference, start);
            (r == Success(None) <==> forall f :: 0 <= f < |v.files| ==> v.grid[difference][f] != GOOD) &&
            (r.Success? && r.value.Some? ==>
               var p := r.value.value;
               p.startOffset == start && 0 <= p.streamIndex < |v.files| &&
               v.grid[difference][p.streamIndex] == GOOD &&
               (forall f :: 0 <= f < p.streamIndex ==> v.grid[difference][f] != GOOD) &&
               (difference == |v.grid| - 1 ==> p.endOffset == v.files[p.streamIndex].sourceFileLength) &&
               (difference < |v.grid| - 1 ==>
                  v.files[p.streamIndex].HasPart(difference) &&
                  p.endOffset <= v.files[p.streamIndex].sourceFileLength - 1)) &&
            (r.Failure? ==>
               exists f :: 0 <= f < |v.files| && v.grid[difference][f] == GOOD && !v.files[f].HasPart(difference))
  {
    var first := FirstGood(v.grid[difference], 0);
    if first.Some? {
      assert v.grid[difference][first.value] == GOOD;
    }
  }

  /** Ranges that follow one another: the first starts at `start` and each
      next one right after the previous one's last byte. */
  predicate Contiguous(ranges: seq<GoodCombinationPart>, start: int)
  {
    (|ranges| > 0 ==> ranges[0].startOffset == start) &&
    forall i :: 0 < i < |ranges| ==> ranges[i].startOffset == ranges[i - 1].endOffset + 1
  }

  /** `done` in front of the ranges of a successful walk; a walk that threw
      or found a row without a GOOD file is left as it is. */
  function Prepend(done: seq<GoodCombinationPart>, r: Result<Option<seq<GoodCombinationPart>>>): (s: Result<Option<seq<GoodCombinationPart>>>)
    ensures r.Success? && r.value.Some? ==> s == Success(Some(done + r.value.value))
    ensures !(r.Success? && r.value.Some?) ==> s == r
  {
    match r
    case Success(Some(ranges)) => Success(Some(done + ranges))
    case _ => r
  }

  /** The ranges of rows `difference` onward, the first starting at `start`:
      one range per row, contiguous, or the exception of the first row that
      throws, or None at the first row without a GOOD file. */
  function RangesFrom(v: View, difference: nat, start: int): (r: Result<Option<seq<GoodCombinationPart>>>)
    requires Shaped(v) && difference <= |v.grid|
    decreases |v.grid| - difference
    ensures r.Success? && r.value.Some? ==> |r.value.value| == |v.grid| - difference
    ensures r.Success? && r.value.Some? ==> Contiguous(r.value.value, start)
  {
    if difference == |v.grid| then Success(Some([]))
    else
      match RowRange(v, difference, start)
      case Failure(e) => Failure(e)
      case Success(None) => Success(None)
      case Success(Some(p)) => Prepend([p], RangesFrom(v, difference + 1, After(v, difference, p)))
  }

  /** The ranges of the whole comparison, from byte 0. */
  ghost function Ranges(c: Comparison): (r: Result<Option<seq<GoodCombinationPart>>>)
    reads c, c.files, c.items, c.items.items
  {
    RangesFrom(ViewOf(c), 0, 0)
  }

  /** The ranges GoodCombination.add keeps: the valid ones, in order. */
  function ValidOnly(ranges: seq<GoodCombinationPart>): (kept: seq<GoodCombinationPart>)
    ensures |kept| <= |ranges|
    ensures forall p :: p in kept ==> p in ranges && p.IsValid()
    ensures forall p :: p in ranges && p.IsValid() ==> p in kept
  {
    if ranges == [] then []
    else (if ranges[0].IsValid() then [ranges[0]] else []) + ValidOnly(ranges[1..])
  }

  /** The file indices the ranges are taken from. */
  function Chosen(ranges: seq<GoodCombinationPart>): (s: set<int>)
  {
    set i | 0 <= i < |ranges| :: ranges[i].streamIndex
  }

  /** The stream getFileStream opens for a file: a stream at byte 0 of its
      contents, or null when the file cannot be opened. */
  ghost predicate StreamFor(s: InputStream?, f: File)
    reads s
  {
    if f.present && f.canRead then
      s != null && s.Valid() && s.data == f.contents && s.unreadableAt == f.unreadableAt && s.pos == 0 && !s.closed
    else s == null
  }

  /** One stream per cached index, opened on that index's file, and no
      stream shared by two indices. */
  ghost predicate Cache(files: seq<ChecksumFile>, streams: map<int, InputStream?>)
    reads StreamSet(streams)
  {
    (forall k :: k in streams ==> 0 <= k < |files| && StreamFor(streams[k], files[k].sourceFile)) &&
    (forall a, b :: a in streams && b in streams && a != b && streams[a] != null ==> streams[a] != streams[b])
  }

  /** The combination built so far from the ranges `done`: their valid
      ones, in order, and a cache holding a stream for each file they use. */
  ghost predicate Holds(files: seq<ChecksumFile>, gc: GoodCombination, done: seq<GoodCombinationPart>)
    reads gc, StreamSet(gc.streams)
  {
    gc.parts == ValidOnly(done) && gc.streams.Keys == Chosen(done) && Cache(files, gc.streams)
  }

  /** Caching a stream opened on a file, and used for no other index, keeps
      the cache sound. */
  lemma CacheAdd(files: seq<ChecksumFile>, streams: map<int, InputStream?>, k: int, s: InputStream?)
    requires Cache(files, streams) && k !in streams && 0 <= k < |files|
    requires StreamFor(s, files[k].sourceFile)
    requires s != null ==> s !in StreamSet(streams)
    ensures Cache(files, streams[k := s])
  {
  }

  lemma PrependNothing(r: Result<Option<seq<GoodCombinationPart>>>)
    ensures Prepend([], r) == r
  {
    if r.Success? && r.value.Some? {
      assert [] + r.value.value == r.value.value;
    }
  }

  lemma PrependTwice(done: seq<GoodCombinationPart>, p: GoodCombinationPart, r: Result<Option<seq<GoodCombinationPart>>>)
    ensures Prepend(done, Prepend([p], r)) == Prepend(done + [p], r)
  {
    if r.Success? && r.value.Some? {
      assert done + ([p] + r.value.value) == (done + [p]) + r.value.value;
    }
  }

  /** One row further along the walk of `RangesFrom(v, 0, 0)`: with `done`
      taken so far and the walk resumed at row `difference`, that row's
      range either ends the walk (its exception, or no GOOD file) or is
      taken, and the walk resumes after it. */
  /** extractGoodCombination's answer read as the walk's: its exception,
      no combination (false), or the ranges taken (true). */
  function Outcome(r: Result<bool>, done: seq<GoodCombinationPart>): (w: Result<Option<seq<GoodCombinationPart>>>)
  {
    match r
    case Failure(e) => Failure(e)
    case Success(b) => Success(if b then Some(done) else None)
  }

  lemma WalkStep(v: View, difference: nat, start: int, done: seq<GoodCombinationPart>)
    requires Shaped(v) && difference < |v.grid|
    requires Prepend(done, RangesFrom(v, difference, start)) == RangesFrom(v, 0, 0)
    ensures var row := RowRange(v, difference, start);
            && (row.Failure? ==> RangesFrom(v, 0, 0) == Failure(row.error))
            && (row == Success(None) ==> RangesFrom(v, 0, 0) == Success(None))
            && (row.Success? && row.value.Some? ==>
                  Prepend(done + [row.value.value], RangesFrom(v, difference + 1, After(v, difference, row.value.value)))
                  == RangesFrom(v, 0, 0))
  {
    var row := RowRange(v, difference, start);
    if row.Success? && row.value.Some? {
      var p := row.value.value;
      PrependTwice(done, p, RangesFrom(v, difference + 1, After(v, difference, p)));
    }
  }

  lemma {:induction false} ValidOnlyAppend(done: seq<GoodCombinationPart>, p: GoodCombinationPart)
    ensures ValidOnly(done + [p]) == ValidOnly(done) + (if p.IsValid() then [p] else [])
  {
    if done == [] {
      assert done + [p] == [p];
    } else {
      assert (done + [p])[1..] == done[1..] + [p];
      ValidOnlyAppend(done[1..], p);
    }
  }

  lemma ChosenAppend(done: seq<GoodCombinationPart>, p: GoodCombinationPart)
    ensures Chosen(done + [p]) == Chosen(done) + {p.streamIndex}
  {
    var ext := done + [p];
    forall k | k in Chosen(ext)
      ensures k in Chosen(done) + {p.streamIndex}
    {
      var i :| 0 <= i < |ext| && ext[i].streamIndex == k;
      if i < |done| {
        assert done[i] == ext[i];
      }
    }
    forall k | k in Chosen(done)
      ensures k in Chosen(ext)
    {
      var i :| 0 <= i < |done| && done[i].streamIndex == k;
      assert ext[i] == done[i];
    }
    assert ext[|done|] == p;
  }

  /** A walk through every row takes, for each row, its range from the
      row's first GOOD file: ending at that file's getEndOffset for the row
      index, or at its sourceFileLength for the last row. */
  lemma {:induction false} RangesFromRows(v: View, difference: nat, start: int, ranges: seq<GoodCombinationPart>, k: nat)
    requires Shaped(v) && difference <= |v.grid|
    requires RangesFrom(v, difference, start) == Success(Some(ranges))
    requires k < |ranges|
    decreases k
    ensures difference + k < |v.grid|
    ensures FirstGood(v.grid[difference + k], 0) == Some(ranges[k].streamIndex)
    ensures difference + k == |v.grid| - 1 ==>
              ranges[k].endOffset == v.files[ranges[k].streamIndex].sourceFileLength
    ensures difference + k < |v.grid| - 1 ==>
              v.files[ranges[k].streamIndex].GetEndOffset(difference + k) == Success(ranges[k].endOffset)
  {
    assert difference < |v.grid|;
    var row := RowRange(v, difference, start);
    assert row.Success? && row.value.Some?;
    var p := row.value.value;
    var rest := RangesFrom(v, difference + 1, After(v, difference, p));
    assert rest.Success? && rest.value.Some? && ranges == [p] + rest.value.value;
    if k > 0 {
      RangesFromRows(v, difference + 1, After(v, difference, p), rest.value.value, k - 1);
      assert ranges[k] == rest.value.value[k - 1];
    }
  }

  /** A walk that throws nothing finds no combination exactly when some row
      has no GOOD file. */
  lemma {:induction false} NoneIffRowWithoutGood(v: View, difference: nat, start: int)
    requires Shaped(v) && difference <= |v.grid|
    requires RangesFrom(v, difference, start).Success?
    decreases |v.grid| - difference
    ensures RangesFrom(v, difference, start).value.None? <==>
              exists d :: difference <= d < |v.grid| && FirstGood(v.grid[d], 0).None?
  {
    if difference < |v.grid| {
      var row := RowRange(v, difference, start);
      if row.value.None? {
        assert FirstGood(v.grid[difference], 0).None?;
      } else {
        var p := row.value.value;
        NoneIffRowWithoutGood(v, difference + 1, After(v, difference, p));
        assert FirstGood(v.grid[difference], 0).Some?;
        if exists d :: difference <= d < |v.grid| && FirstGood(v.grid[d], 0).None? {
          var d :| difference <= d < |v.grid| && FirstGood(v.grid[d], 0).None?;
          assert d != difference;
        }
      }
    }
  }

  class GoodCombinationExtractor {
    const comparison: Comparison
    var differences: int
    var gc: GoodCombination?
    var nextStart: int

    constructor (comparison: Comparison)
      ensures this.comparison == comparison && gc == null
    {
      this.comparison := comparison;
      differences := 0;
      gc := null;
      nextStart := 0;
    }

    /** extract / extractGoodCombination: a fresh combination holding the
        valid ranges of every row and one fresh stream per file used;
        NOT_EXISTS, with the opened streams closed and dropped, as soon as
        a row has no GOOD file; the exception of a row whose end offset
        cannot be found. */
    method Extract() returns (r: Result<CombinationResult>, ghost cached: set<InputStream>)
      modifies this
      ensures gc != null && fresh(gc) && differences == old(comparison.GetDifferences())
      ensures forall s :: s in cached ==> fresh(s)
      ensures old(Ranges(comparison)).Failure? ==> r == Failure(old(Ranges(comparison)).error)
      ensures old(Ranges(comparison)) == Success(None) ==>
                r == Success(NotExists) && gc.streams == map[] && forall s :: s in cached ==> s.closed
      ensures old(Ranges(comparison)).Success? && old(Ranges(comparison)).value.Some? ==>
                r == Success(Exists(gc)) && Holds(old(comparison.files.files), gc, old(Ranges(comparison)).value.value) &&
                cached == StreamSet(gc.streams)
      ensures forall k :: k in gc.streams && gc.streams[k] != null ==> fresh(gc.streams[k])
    {
      ghost var v := ViewOf(comparison);
      gc := new GoodCombination();
      nextStart := 0;
      differences := comparison.GetDifferences();
      var added, done := AddGoodParts(v);
      cached := StreamSet(gc.streams);
      if added.Failure? {
        return Failure(added.error), cached;
      }
      if !added.value {
        CloseStreams();
        return Success(NotExists), cached;
      }
      return Success(Exists(gc)), cached;
    }

    /** The loop of extractGoodCombination: addGoodPart for each row in
        turn, stopping at the first row that has no GOOD file (false) or
        whose range cannot be found; `done` is the ranges added. */
    method AddGoodParts(ghost v: View) returns (r: Result<bool>, ghost done: seq<GoodCombinationPart>)
      requires gc != null && ViewOf(comparison) == v
      requires gc.parts == [] && gc.streams == map[] && nextStart == 0
      requires differences == comparison.GetDifferences()
      modifies this, gc
      ensures gc == old(gc) && differences == old(differences)
      ensures Outcome(r, done) == RangesFrom(v, 0, 0)
      ensures r.Success? ==> Holds(v.files, gc, done)
      ensures forall k :: k in gc.streams && gc.streams[k] != null ==> fresh(gc.streams[k])
    {
      done := [];
      assert Chosen(done) == {};
      PrependNothing(RangesFrom(v, 0, 0));
      var difference := 0;
      while difference < differences
        invariant 0 <= difference <= |v.grid|
        invariant differences == old(differences) && (differences < 0 || differences == |v.grid|)
        invariant gc == old(gc) && ViewOf(comparison) == v
        invariant Prepend(done, RangesFrom(v, difference, nextStart)) == RangesFrom(v, 0, 0)
        invariant Holds(v.files, gc, done)
        invariant forall k :: k in gc.streams && gc.streams[k] != null ==> fresh(gc.streams[k])
      {
        ghost var row := RowRange(v, difference, nextStart);
        WalkStep(v, difference, nextStart, done);
        var added := AddGoodPart(difference, v, done, row);
        if added != Success(true) {
          return added, done;
        }
        done := done + [row.value.value];
        difference := difference + 1;
      }
      assert RangesFrom(v, 0, 0) == Success(Some(done)) by {
        assert done + [] == done;
      }
      return Success(true), done;
    }

    /** closeStreams: the cached streams are closed and dropped. */
    method CloseStreams()
      requires gc != null
      modifies gc, StreamSet(gc.streams)
      ensures gc.streams == map[] && gc.parts == old(gc.parts)
      ensures forall s :: s in old(StreamSet(gc.streams)) ==> s.closed && s.pos == old(s.pos)
    {
      gc.CloseStreams();
    }

    /** addGoodPart: the first GOOD file of the row contributes the row's
        range `row`; false when the row has none. */
    method AddGoodPart(difference: int, ghost v: View, ghost done: seq<GoodCombinationPart>,
                       ghost row: Result<Option<GoodCombinationPart>>) returns (r: Result<bool>)
      requires gc != null && ViewOf(comparison) == v
      requires differences == |v.grid| && 0 <= difference < differences
      requires row == RowRange(v, difference, nextStart)
      requires Holds(v.files, gc, done)
      modifies this, gc
      ensures gc == old(gc) && differences == old(differences) && ViewOf(comparison) == v
      ensures row.Failure? ==> r == Failure(row.error)
      ensures row == Success(None) ==> r == Success(false) && Holds(v.files, gc, done)
      ensures row.Success? && row.value.Some? ==>
                r == Success(true) && Holds(v.files, gc, done + [row.value.value]) &&
                nextStart == After(v, difference, row.value.value)
      ensures forall k :: k in gc.streams && gc.streams[k] != null ==>
                (k in old(gc.streams) && gc.streams[k] == old(gc.streams)[k]) || fresh(gc.streams[k])
    {
      var filesCount := comparison.GetFilesCount();
      assert filesCount == |v.grid[difference]|;
      var fileIndex := 0;
      while fileIndex < filesCount
        invariant 0 <= fileIndex <= filesCount == |v.grid[difference]|
        invariant unchanged(this) && gc != null && unchanged(gc)
        invariant FirstGood(v.grid[difference], fileIndex) == FirstGood(v.grid[difference], 0)
      {
        ViewCell(comparison, difference, fileIndex);
        if comparison.GetMark(difference, fileIndex) == GOOD {
          var added := AddGoodFilePart(difference, fileIndex, v, done, row);
          if added.Failure? {
            return Failure(added.error);
          }
          return Success(true);
        }
        fileIndex := fileIndex + 1;
      }
      return Success(false);
    }

    /** addGoodFilePart: the range from nextStart to the end position, with
        nextStart moved past it unless this is the last row, and a stream
        for the file opened when none is cached yet. */
    method AddGoodFilePart(difference: int, fileIndex: int, ghost v: View, ghost done: seq<GoodCombinationPart>,
                           ghost row: Result<Option<GoodCombinationPart>>) returns (r: Result<()>)
      requires gc != null && Shaped(v) && v.files == comparison.files.files
      requires differences == |v.grid| && 0 <= difference < differences
      requires FirstGood(v.grid[difference], 0) == Some(fileIndex)
      requires row == RowRange(v, difference, nextStart)
      requires Holds(v.files, gc, done)
      modifies this, gc
      ensures gc == old(gc) && differences == old(differences)
      ensures row.Failure? ==> r == Failure(row.error)
      ensures row.Success? ==>
                r.Success? && row.value.Some? && Holds(v.files, gc, done + [row.value.value]) &&
                nextStart == After(v, difference, row.value.value)
      ensures forall k :: k in gc.streams && gc.streams[k] != null ==>
                (k in old(gc.streams) && gc.streams[k] == old(gc.streams)[k]) || fresh(gc.streams[k])
    {
      var partedFile := comparison.files.files[fileIndex];
      var isLastDifference := difference == differences - 1;
      var start := nextStart;
      var end := if isLastDifference then Success(partedFile.sourceFileLength)
                 else partedFile.GetEndOffset(difference);
      if end.Failure? {
        return Failure(end.error);
      }
      ghost var p := GoodCombinationPart(fileIndex, start, end.value);
      assert row == Success(Some(p));
      if !isLastDifference {
        nextStart := end.value + 1;
      }
      assert nextStart == After(v, difference, p);
      ValidOnlyAppend(done, p);
      ChosenAppend(done, p);
      CacheStream(gc, fileIndex, partedFile, v.files, done);
      gc.Add(Some(GoodCombinationPart(fileIndex, start, end.value)));
      return Success(());
    }
  }

  /** The stream caching of addGoodFilePart: a stream is opened on the
      file only when none is cached under its index yet. */
  method CacheStream(gc: GoodCombination, fileIndex: int, partedFile: ChecksumFile,
                     ghost files: seq<ChecksumFile>, ghost done: seq<GoodCombinationPart>)
    requires 0 <= fileIndex < |files| && files[fileIndex] == partedFile
    requires gc.streams.Keys == Chosen(done) && Cache(files, gc.streams)
    modifies gc
    ensures gc.parts == old(gc.parts)
    ensures gc.streams.Keys == old(gc.streams.Keys) + {fileIndex} && Cache(files, gc.streams)
    ensures forall k :: k in gc.streams && gc.streams[k] != null ==>
                (k in old(gc.streams) && gc.streams[k] == old(gc.streams)[k]) || fresh(gc.streams[k])
  {
    if !gc.ContainsStream(fileIndex) {
      var stream := OpenInputStream(partedFile.sourceFile);
      CacheAdd(files, gc.streams, fileIndex, stream);
      gc.AddStream(fileIndex, stream);
    }
  }

  /** The extractor's static createGoodCombination: NOT_EXISTS when
      getDifferences() is not positive, which covers a stale comparison;
      otherwise what extraction yields. */
  method CreateGoodCombination(comparison: Comparison) returns (r: Result<CombinationResult>)
    ensures comparison.GetDifferences() <= 0 ==> r == Success(NotExists)
    ensures comparison.GetDifferences() > 0 && old(Ranges(comparison)).Failure? ==>
              r == Failure(old(Ranges(comparison)).error)
    ensures comparison.GetDifferences() > 0 && old(Ranges(comparison)) == Success(None) ==>
              r == Success(NotExists)
    ensures comparison.GetDifferences() > 0 && old(Ranges(comparison)).Success? && old(Ranges(comparison)).value.Some? ==>
              r.Success? && r.value.Exists? && fresh(r.value.combination) &&
              Holds(old(comparison.files.files), r.value.combination, old(Ranges(comparison)).value.value)
  {
    if comparison.GetDifferences() <= 0 {
      return Success(NotExists);
    }
    var extractor := new GoodCombinationExtractor(comparison);
    ghost var cached;
    r, cached := extractor.Extract();
  }

  /** Comparison.createGoodCombination: NOT_EXISTS for a stale comparison
      and for one without rows; otherwise what extraction yields.  It
      answers exactly as the extractor's static version does. */
  method ComparisonCreateGoodCombination(comparison: Comparison) returns (r: Result<CombinationResult>)
    ensures comparison.needsUpdating || |comparison.partsThatDiffer| == 0 ==> r == Success(NotExists)
    ensures comparison.GetDifferences() <= 0 ==> r == Success(NotExists)
    ensures comparison.GetDifferences() > 0 && old(Ranges(comparison)).Failure? ==>
              r == Failure(old(Ranges(comparison)).error)
    ensures comparison.GetDifferences() > 0 && old(Ranges(comparison)) == Success(None) ==>
              r == Success(NotExists)
    ensures comparison.GetDifferences() > 0 && old(Ranges(comparison)).Success? && old(Ranges(comparison)).value.Some? ==>
              r.Success? && r.value.Exists? && fresh(r.value.combination) &&
              Holds(old(comparison.files.files), r.value.combination, old(Ranges(comparison)).value.value)
  {
    if comparison.needsUpdating {
      return Success(NotExists);
    }
    if comparison.GetDifferences() == 0 {
      return Success(NotExists);
    }
    var extractor := new GoodCombinationExtractor(comparison);
    ghost var cached;
    r, cached := extractor.Extract();
  }
}
