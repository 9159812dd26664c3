/** comparison/GoodPartsMarker.java: marks, row by row, the file whose
    checksum most files share.  The vote is first specified on the row's
    marks and checksums, then the marker class is proved against it. */
module Marking {
  import opened Marks
  import opened Items
  import opened Comparisons
  import Scan

  /** How many of the first k checksums equal c. */
  function CountOf(crcs: seq<string>, k: nat, c: string): (n: nat)
    requires k <= |crcs|
    ensures n <= k
  {
    if k == 0 then 0
    else CountOf(crcs, k - 1, c) + (if crcs[k - 1] == c then 1 else 0)
  }

  /** A longer prefix never holds fewer copies. */
  lemma {:induction false} CountGrows(crcs: seq<string>, i: nat, j: nat, c: string)
    requires i <= j <= |crcs|
    decreases j - i
    ensures CountOf(crcs, i, c) <= CountOf(crcs, j, c)
  {
    if i < j {
      CountGrows(crcs, i, j - 1, c);
    }
  }

  /** The marker's per-row fields: the occurrence table, the leading count,
      the file where it was reached (-1 for none) and whether another
      checksum has drawn level. */
  datatype Tally = Tally(occurrences: map<string, int>, max: int, maxIndex: int, isUnsure: bool)

  /** resetOccurrences: an empty table, max 1, no leader. */
  const ResetTally := Tally(map[], 1, -1, false)

  /** findFileOccurrences for one file's checksum: the empty checksum is
      skipped; otherwise its count goes up, a count above max makes the
      file the leader, and a count equal to max makes the row unsure. */
  function AddCrc(t: Tally, file: int, crc: string): (r: Tally)
    ensures crc == "" ==> r == t
    ensures crc != "" ==> crc in r.occurrences && r.occurrences.Keys == t.occurrences.Keys + {crc}
    ensures crc != "" ==> r.occurrences[crc] == (if crc in t.occurrences then t.occurrences[crc] else 0) + 1
    ensures forall c :: c in t.occurrences && c != crc ==> r.occurrences[c] == t.occurrences[c]
    ensures crc != "" && r.occurrences[crc] > t.max ==>
              r.max == r.occurrences[crc] && r.maxIndex == file && !r.isUnsure
    ensures crc != "" && r.occurrences[crc] == t.max ==>
              r.max == t.max && r.maxIndex == t.maxIndex && r.isUnsure
    ensures crc != "" && r.occurrences[crc] < t.max ==>
              r.max == t.max && r.maxIndex == t.maxIndex && r.isUnsure == t.isUnsure
    ensures r.max >= t.max && (r.maxIndex == t.maxIndex || r.maxIndex == file)
  {
    if crc == "" then t
    else
      var counter := (if crc in t.occurrences then t.occurrences[crc] else 0) + 1;
      var occurrences := t.occurrences[crc := counter];
      if counter > t.max then Tally(occurrences, counter, file, false)
      else if counter == t.max then Tally(occurrences, t.max, t.maxIndex, true)
      else Tally(occurrences, t.max, t.maxIndex, t.isUnsure)
  }

  /** findFilesOccurrences from `file` on: the first mark that is not
      UNDEFINED ends the scan and drops the leader. */
  function Scanned(marks: seq<Mark>, crcs: seq<string>, file: nat, t: Tally): (r: Tally)
    requires |marks| == |crcs| && file <= |crcs|
    decreases |crcs| - file
    ensures r.max >= t.max
    ensures r.maxIndex == t.maxIndex || r.maxIndex == -1 || file <= r.maxIndex < |crcs|
    ensures (exists k :: file <= k < |marks| && marks[k] != UNDEFINED) ==> r.maxIndex == -1
    ensures (forall k :: file <= k < |crcs| ==> marks[k] == UNDEFINED && crcs[k] == "") ==> r == t
  {
    if file == |crcs| then t
    else if marks[file] != UNDEFINED then t.(maxIndex := -1)
    else Scanned(marks, crcs, file + 1, AddCrc(t, file, crcs[file]))
  }

  /** What markPart does to a row: nothing, or one file's mark. */
  datatype Verdict = Unchanged | Marked(file: nat, mark: Mark)

  /** setMarkAccordingToOccurrences after a fresh scan of the row. */
  function Vote(marks: seq<Mark>, crcs: seq<string>): (v: Verdict)
    requires |marks| == |crcs|
    ensures v.Marked? ==> v.mark == GOOD || v.mark == UNSURE
  {
    var t := Scanned(marks, crcs, 0, ResetTally);
    if t.maxIndex >= 0 then Marked(t.maxIndex, if t.isUnsure then UNSURE else GOOD) else Unchanged
  }

  /** The row's marks after the vote: every file sharing the chosen file's
      checksum shares its item and so takes the new mark; the rest keep
      theirs. */
  function Revoted(marks: seq<Mark>, crcs: seq<string>): (r: seq<Mark>)
    requires |marks| == |crcs|
    ensures |r| == |marks|
  {
    match Vote(marks, crcs)
    case Unchanged => marks
    case Marked(g, m) =>
      seq(|marks|, f requires 0 <= f < |marks| => if g < |crcs| && crcs[f] == crcs[g] then m else marks[f])
  }

  /** The table holds the count of every non-empty checksum among the
      first k, and nothing else. */
  ghost predicate Tabled(occurrences: map<string, int>, crcs: seq<string>, k: nat)
    requires k <= |crcs|
  {
    (forall c :: c in occurrences <==> c != "" && CountOf(crcs, k, c) > 0) &&
    (forall c :: c in occurrences ==> occurrences[c] == CountOf(crcs, k, c))
  }

  /** No non-empty checksum among the first k occurs more than max times. */
  ghost predicate Bounded(max: int, crcs: seq<string>, k: nat)
    requires k <= |crcs|
  {
    max >= 1 && forall c :: c != "" ==> CountOf(crcs, k, c) <= max
  }

  /** The leader of a tally over the first k checksums: its checksum was
      counted t.max times up to and including its file and no more since;
      the row is unsure exactly when another checksum has the same count,
      and every such checksum reached it after the leader. */
  ghost predicate Leads(t: Tally, crcs: seq<string>, k: nat)
    requires k <= |crcs|
  {
    var lead := t.maxIndex;
    0 <= lead < k && crcs[lead] != "" &&
    CountOf(crcs, lead + 1, crcs[lead]) == t.max &&
    CountOf(crcs, k, crcs[lead]) == t.max &&
    (t.isUnsure <==> exists c :: c != "" && c != crcs[lead] && CountOf(crcs, k, c) == t.max) &&
    (forall c :: c != "" && c != crcs[lead] && CountOf(crcs, k, c) == t.max ==>
       CountOf(crcs, lead + 1, c) < t.max)
  }

  /** The tally is the one of the first k checksums, and there is a leader
      exactly when some count passed 1. */
  ghost predicate Counted(t: Tally, crcs: seq<string>, k: nat)
    requires k <= |crcs|
  {
    Tabled(t.occurrences, crcs, k) && Bounded(t.max, crcs, k) &&
    t.maxIndex >= -1 && (t.maxIndex == -1 <==> t.max == 1) &&
    (t.maxIndex >= 0 ==> Leads(t, crcs, k))
  }

  /** Counting one more checksum. */
  lemma CountStep(crcs: seq<string>, k: nat, j: nat)
    requires k < |crcs| && j == k + 1
    ensures forall c :: CountOf(crcs, j, c) == CountOf(crcs, k, c) + (if crcs[k] == c then 1 else 0)
  {
  }

  /** addOccurrence keeps the table right. */
  lemma TabledStep(occurrences: map<string, int>, crcs: seq<string>, k: nat)
    requires k < |crcs| && Tabled(occurrences, crcs, k)
    ensures crcs[k] == "" ==> Tabled(occurrences, crcs, k + 1)
    ensures crcs[k] != "" ==>
              (if crcs[k] in occurrences then occurrences[crcs[k]] else 0) == CountOf(crcs, k, crcs[k]) &&
              Tabled(occurrences[crcs[k] := CountOf(crcs, k, crcs[k]) + 1], crcs, k + 1)
  {
    CountStep(crcs, k, k + 1);
  }

  /** A checksum that passes max makes its file the sole leader. */
  lemma LeaderStep(t: Tally, crcs: seq<string>, k: nat)
    requires k < |crcs| && crcs[k] != "" && Bounded(t.max, crcs, k)
    requires CountOf(crcs, k, crcs[k]) + 1 > t.max
    ensures var r := Tally(t.occurrences, CountOf(crcs, k, crcs[k]) + 1, k, false);
            Bounded(r.max, crcs, k + 1) && Leads(r, crcs, k + 1)
  {
    CountStep(crcs, k, k + 1);
  }

  /** A checksum that draws level with the leader makes the row unsure. */
  lemma TieStep(t: Tally, crcs: seq<string>, k: nat)
    requires k < |crcs| && crcs[k] != "" && Bounded(t.max, crcs, k)
    requires t.maxIndex >= 0 ==> Leads(t, crcs, k)
    requires CountOf(crcs, k, crcs[k]) + 1 == t.max
    ensures Bounded(t.max, crcs, k + 1)
    ensures t.maxIndex >= 0 ==> Leads(t.(isUnsure := true), crcs, k + 1)
  {
    CountStep(crcs, k, k + 1);
    if t.maxIndex >= 0 {
      var lead, x := t.maxIndex, crcs[k];
      assert x != crcs[lead];
      CountGrows(crcs, lead + 1, k, x);
      assert CountOf(crcs, k + 1, x) == t.max;
    }
  }

  /** A checksum still below max changes neither the leader nor a tie. */
  lemma BelowStep(t: Tally, crcs: seq<string>, k: nat)
    requires k < |crcs| && crcs[k] != "" && Bounded(t.max, crcs, k)
    requires t.maxIndex >= 0 ==> Leads(t, crcs, k)
    requires CountOf(crcs, k, crcs[k]) + 1 < t.max
    ensures Bounded(t.max, crcs, k + 1)
    ensures t.maxIndex >= 0 ==> Leads(t, crcs, k + 1)
  {
    CountStep(crcs, k, k + 1);
    if t.maxIndex >= 0 {
      assert crcs[k] != crcs[t.maxIndex];
    }
  }

  /** An empty checksum is not counted. */
  lemma EmptyStep(t: Tally, crcs: seq<string>, k: nat)
    requires k < |crcs| && crcs[k] == "" && Bounded(t.max, crcs, k)
    requires t.maxIndex >= 0 ==> Leads(t, crcs, k)
    ensures Bounded(t.max, crcs, k + 1)
    ensures t.maxIndex >= 0 ==> Leads(t, crcs, k + 1)
  {
    CountStep(crcs, k, k + 1);
  }

  /** One more file keeps the tally faithful. */
  lemma AddCrcKeepsCount(t: Tally, crcs: seq<string>, k: nat)
    requires k < |crcs| && Counted(t, crcs, k)
    ensures Counted(AddCrc(t, k, crcs[k]), crcs, k + 1)
  {
    var x := crcs[k];
    TabledStep(t.occurrences, crcs, k);
    if x == "" {
      EmptyStep(t, crcs, k);
      assert AddCrc(t, k, x) == t;
    } else {
      var counter := CountOf(crcs, k, x) + 1;
      var occurrences := t.occurrences[x := counter];
      if counter > t.max {
        LeaderStep(t, crcs, k);
        assert AddCrc(t, k, x) == Tally(occurrences, counter, k, false);
      } else if counter == t.max {
        TieStep(t, crcs, k);
        assert AddCrc(t, k, x) == Tally(occurrences, t.max, t.maxIndex, true);
      } else {
        BelowStep(t, crcs, k);
        assert AddCrc(t, k, x) == Tally(occurrences, t.max, t.maxIndex, t.isUnsure);
      }
    }
  }

  /** Scanning the rest of an all-UNDEFINED row ends with the tally of the
      whole row; a mark that is not UNDEFINED ends it without a leader. */
  lemma {:induction false} ScannedKeepsCount(marks: seq<Mark>, crcs: seq<string>, file: nat, t: Tally)
    requires |marks| == |crcs| && file <= |crcs| && Counted(t, crcs, file)
    decreases |crcs| - file
    ensures (forall g :: file <= g < |crcs| ==> marks[g] == UNDEFINED) ==>
              Counted(Scanned(marks, crcs, file, t), crcs, |crcs|)
    ensures (exists g :: file <= g < |crcs| && marks[g] != UNDEFINED) ==>
              Scanned(marks, crcs, file, t).maxIndex == -1
    ensures Scanned(marks, crcs, file, t).maxIndex < |crcs|
  {
    if file < |crcs| && marks[file] == UNDEFINED {
      AddCrcKeepsCount(t, crcs, file);
      ScannedKeepsCount(marks, crcs, file + 1, AddCrc(t, file, crcs[file]));
    }
  }

  /** A row in which some file's mark is not UNDEFINED (a file lacking the
      part reads BAD) is left unchanged. */
  lemma AlreadyMarkedRowIsUnchanged(marks: seq<Mark>, crcs: seq<string>)
    requires |marks| == |crcs|
    requires exists f :: 0 <= f < |marks| && marks[f] != UNDEFINED
    ensures Vote(marks, crcs) == Unchanged
  {
    assert Counted(ResetTally, crcs, 0);
    ScannedKeepsCount(marks, crcs, 0, ResetTally);
  }

  /** The vote of an all-UNDEFINED row is a plurality vote over its
      non-empty checksums: nothing happens unless some checksum occurs
      twice; otherwise the chosen file holds a most frequent checksum, at
      its last occurrence, and the mark is GOOD exactly when no other
      checksum is as frequent, ties going to the checksum that got there
      first. */
  lemma VoteIsPlurality(marks: seq<Mark>, crcs: seq<string>)
    requires |marks| == |crcs|
    requires forall f :: 0 <= f < |marks| ==> marks[f] == UNDEFINED
    ensures Vote(marks, crcs).Unchanged? <==> forall c :: c != "" ==> CountOf(crcs, |crcs|, c) <= 1
    ensures Vote(marks, crcs).Marked? ==> Vote(marks, crcs).file < |crcs|
    ensures Vote(marks, crcs).Marked? ==>
              var f := Vote(marks, crcs).file;
              var top := CountOf(crcs, |crcs|, crcs[f]);
              crcs[f] != "" && top >= 2 &&
              (forall c :: c != "" ==> CountOf(crcs, |crcs|, c) <= top) &&
              CountOf(crcs, f + 1, crcs[f]) == top &&
              (Vote(marks, crcs).mark == UNSURE <==>
                 exists c :: c != "" && c != crcs[f] && CountOf(crcs, |crcs|, c) == top) &&
              (forall c :: c != "" && c != crcs[f] && CountOf(crcs, |crcs|, c) == top ==>
                 CountOf(crcs, f + 1, c) < top)
  {
    assert Counted(ResetTally, crcs, 0);
    ScannedKeepsCount(marks, crcs, 0, ResetTally);
    var t := Scanned(marks, crcs, 0, ResetTally);
    if t.maxIndex >= 0 {
      var f, top := t.maxIndex, t.max;
      assert Leads(t, crcs, |crcs|);
      assert CountOf(crcs, |crcs|, crcs[f]) == top >= 2;
      assert Vote(marks, crcs).mark == UNSURE <==> t.isUnsure;
      assert Vote(marks, crcs).file == f;
      if t.isUnsure {
        var c :| c != "" && c != crcs[f] && CountOf(crcs, |crcs|, c) == top;
        assert exists c :: c != "" && c != crcs[f] && CountOf(crcs, |crcs|, c) == top;
      } else {
        assert !exists c :: c != "" && c != crcs[f] && CountOf(crcs, |crcs|, c) == top;
      }
    }
  }

  /** The chosen file exists and has a checksum. */
  lemma VoteInRange(marks: seq<Mark>, crcs: seq<string>)
    requires |marks| == |crcs| && Vote(marks, crcs).Marked?
    ensures Vote(marks, crcs).file < |crcs| && crcs[Vote(marks, crcs).file] != ""
    ensures forall f :: 0 <= f < |marks| ==> marks[f] == UNDEFINED
  {
    if exists f :: 0 <= f < |marks| && marks[f] != UNDEFINED {
      AlreadyMarkedRowIsUnchanged(marks, crcs);
    }
    VoteIsPlurality(marks, crcs);
  }

  /** The marks getMark reads along row d. */
  ghost function RowMarks(c: Comparison, d: int): (marks: seq<Mark>)
    reads c, c.files, c.items, c.items.items
    ensures |marks| == |c.files.files|
    ensures forall f :: 0 <= f < |marks| ==> marks[f] == c.GetMark(d, f)
  {
    seq(|c.files.files|, f reads c, c.files, c.items, c.items.items => c.GetMark(d, f))
  }

  /** The checksums getChecksum reads along row d. */
  function RowChecksums(c: Comparison, d: int): (crcs: seq<string>)
    reads c, c.files, c.items
    ensures |crcs| == |c.files.files|
    ensures forall f :: 0 <= f < |crcs| ==> crcs[f] == c.GetChecksum(d, f)
  {
    seq(|c.files.files|, f reads c, c.files, c.items => c.GetChecksum(d, f))
  }

  /** getMark over the rows from d on. */
  ghost function GridFrom(c: Comparison, d: nat): (g: seq<seq<Mark>>)
    reads c, c.files, c.items, c.items.items
    requires d <= |c.partsThatDiffer|
    decreases |c.partsThatDiffer| - d
    ensures |g| == |c.partsThatDiffer| - d
  {
    if d == |c.partsThatDiffer| then [] else [RowMarks(c, d)] + GridFrom(c, d + 1)
  }

  lemma {:induction false} GridFromRow(c: Comparison, d: nat, e: int)
    requires d <= e < |c.partsThatDiffer|
    ensures GridFrom(c, d)[e - d] == RowMarks(c, e)
    decreases e - d
  {
    if d < e {
      GridFromRow(c, d + 1, e);
    }
  }

  /** getMark over the whole table, row by row. */
  ghost function Grid(c: Comparison): (g: seq<seq<Mark>>)
    reads c, c.files, c.items, c.items.items
    ensures |g| == |c.partsThatDiffer|
  {
    GridFrom(c, 0)
  }

  /** getChecksum over the rows from d on. */
  function SumsFrom(c: Comparison, d: nat): (s: seq<seq<string>>)
    reads c, c.files, c.items
    requires d <= |c.partsThatDiffer|
    decreases |c.partsThatDiffer| - d
    ensures |s| == |c.partsThatDiffer| - d
  {
    if d == |c.partsThatDiffer| then [] else [RowChecksums(c, d)] + SumsFrom(c, d + 1)
  }

  lemma {:induction false} SumsFromRow(c: Comparison, d: nat, e: int)
    requires d <= e < |c.partsThatDiffer|
    ensures SumsFrom(c, d)[e - d] == RowChecksums(c, e)
    decreases e - d
  {
    if d < e {
      SumsFromRow(c, d + 1, e);
    }
  }

  /** getChecksum over the whole table, row by row. */
  function Sums(c: Comparison): (s: seq<seq<string>>)
    reads c, c.files, c.items
    ensures |s| == |c.partsThatDiffer|
  {
    SumsFrom(c, 0)
  }

  /** grid holds getMark of every cell. */
  ghost predicate Shows(c: Comparison, grid: seq<seq<Mark>>)
    reads c, c.files, c.items, c.items.items
  {
    |grid| == |c.partsThatDiffer| &&
    (forall d :: 0 <= d < |grid| ==> |grid[d]| == |c.files.files|) &&
    forall d, f :: 0 <= d < |grid| && 0 <= f < |c.files.files| ==> grid[d][f] == c.GetMark(d, f)
  }

  /** sums holds getChecksum of every cell. */
  predicate ChecksumsAre(c: Comparison, sums: seq<seq<string>>)
    reads c, c.files, c.items
  {
    |sums| == |c.partsThatDiffer| &&
    (forall d :: 0 <= d < |sums| ==> |sums[d]| == |c.files.files|) &&
    forall d, f :: 0 <= d < |sums| && 0 <= f < |c.files.files| ==> sums[d][f] == c.GetChecksum(d, f)
  }

  /** Grid is the one table that Shows describes. */
  lemma ShowsIsGrid(c: Comparison, grid: seq<seq<Mark>>)
    ensures Shows(c, Grid(c))
    ensures Shows(c, grid) ==> grid == Grid(c)
  {
    forall d | 0 <= d < |c.partsThatDiffer|
      ensures Grid(c)[d] == RowMarks(c, d)
    {
      GridFromRow(c, 0, d);
    }
    if Shows(c, grid) {
      forall d | 0 <= d < |grid|
        ensures grid[d] == Grid(c)[d]
      {
      }
    }
  }

  /** Sums is the one table that ChecksumsAre describes. */
  lemma ChecksumsAreSums(c: Comparison, sums: seq<seq<string>>)
    ensures ChecksumsAre(c, Sums(c))
    ensures ChecksumsAre(c, sums) ==> sums == Sums(c)
  {
    forall d | 0 <= d < |c.partsThatDiffer|
      ensures Sums(c)[d] == RowChecksums(c, d)
    {
      SumsFromRow(c, 0, d);
    }
    if ChecksumsAre(c, sums) {
      forall d | 0 <= d < |sums|
        ensures sums[d] == Sums(c)[d]
      {
      }
    }
  }

  /** Once the chosen file's item holds the verdict's mark and every cell
      with another item reads as in grid, the table is the revoted one: the
      files sharing the chosen checksum share its item. */
  lemma LeaderMarkGivesRevote(c: Comparison, grid: seq<seq<Mark>>, sums: seq<seq<string>>, d: int)
    requires c.Valid() && 0 <= d < |c.partsThatDiffer|
    requires ChecksumsAre(c, sums) && Shaped(grid, sums)
    requires Vote(grid[d], sums[d]).Marked?
    requires var v := Vote(grid[d], sums[d]);
             v.file < |c.files.files| && c.GetItem(d, v.file) != null && c.GetItem(d, v.file).mark == v.mark
    requires forall e, f :: (0 <= e < |grid| && 0 <= f < |c.files.files| &&
               c.GetItem(e, f) != c.GetItem(d, Vote(grid[d], sums[d]).file)) ==> c.GetMark(e, f) == grid[e][f]
    ensures Shows(c, RevotedRows(grid, sums, d, d + 1))
  {
    var v := Vote(grid[d], sums[d]);
    var target := c.GetItem(d, v.file);
    var after := RevotedRows(grid, sums, d, d + 1);
    VoteInRange(grid[d], sums[d]);
    forall e, f | 0 <= e < |after| && 0 <= f < |c.files.files|
      ensures after[e][f] == c.GetMark(e, f)
    {
      if e == d {
        if sums[d][f] == sums[d][v.file] {
          c.SameChecksumSharesItem(d, f, v.file);
        } else {
          assert c.GetItem(d, f) != target;
        }
      } else {
        assert c.partsThatDiffer[e] != c.partsThatDiffer[d];
        assert c.GetItem(e, f) != target;
      }
    }
  }

  /** Rows of marks and rows of checksums of matching shape. */
  predicate Shaped(grid: seq<seq<Mark>>, sums: seq<seq<string>>)
  {
    |grid| == |sums| && forall d :: 0 <= d < |grid| ==> |grid[d]| == |sums[d]|
  }

  /** The table after rows lo .. hi - 1 have each been voted on. */
  function RevotedRows(grid: seq<seq<Mark>>, sums: seq<seq<string>>, lo: int, hi: int): (r: seq<seq<Mark>>)
    requires Shaped(grid, sums)
    ensures Shaped(r, sums)
    ensures forall d :: 0 <= d < |r| && !(lo <= d < hi) ==> r[d] == grid[d]
  {
    seq(|grid|, d requires 0 <= d < |grid| => if lo <= d < hi then Revoted(grid[d], sums[d]) else grid[d])
  }

  /** Before any row is voted on, the table is as it was. */
  lemma NoneRevoted(grid: seq<seq<Mark>>, sums: seq<seq<string>>, lo: int)
    requires Shaped(grid, sums) && 0 <= lo <= |grid|
    ensures RevotedRows(grid, sums, lo, lo) == grid
    ensures Verdicts(grid, sums, lo, lo) == []
  {
  }

  /** A row whose vote changes nothing leaves the table as it is. */
  lemma UnchangedRowKeepsTable(grid: seq<seq<Mark>>, sums: seq<seq<string>>, d: int)
    requires Shaped(grid, sums) && 0 <= d < |grid|
    requires Vote(grid[d], sums[d]) == Unchanged
    ensures RevotedRows(grid, sums, d, d + 1) == grid
  {
    assert RevotedRows(grid, sums, d, d + 1)[d] == grid[d];
  }

  /** Voting on one more row, which no earlier vote touched. */
  lemma RevotedRowsStep(grid: seq<seq<Mark>>, sums: seq<seq<string>>, lo: int, hi: int)
    requires Shaped(grid, sums) && lo <= hi < |grid|
    ensures RevotedRows(RevotedRows(grid, sums, lo, hi), sums, hi, hi + 1) == RevotedRows(grid, sums, lo, hi + 1)
  {
  }

  /** The verdicts of rows lo .. hi - 1. */
  function Verdicts(grid: seq<seq<Mark>>, sums: seq<seq<string>>, lo: int, hi: int): (vs: seq<Verdict>)
    requires Shaped(grid, sums) && 0 <= lo && hi <= |grid|
    decreases hi - lo
    ensures |vs| == if hi <= lo then 0 else hi - lo
  {
    if hi <= lo then []
    else Verdicts(grid, sums, lo, hi - 1) + [Vote(grid[hi - 1], sums[hi - 1])]
  }

  /** How many verdicts set the mark m. */
  function MarkedCount(vs: seq<Verdict>, m: Mark): (n: nat)
    ensures n <= |vs|
  {
    if vs == [] then 0
    else MarkedCount(vs[..|vs| - 1], m) + (if vs[|vs| - 1].Marked? && vs[|vs| - 1].mark == m then 1 else 0)
  }

  /** How many verdicts leave their row unchanged. */
  function UnchangedCount(vs: seq<Verdict>): (n: nat)
    ensures n <= |vs|
  {
    if vs == [] then 0
    else UnchangedCount(vs[..|vs| - 1]) + (if vs[|vs| - 1].Unchanged? then 1 else 0)
  }

  /** One more verdict adds to exactly one of the three counts. */
  lemma CountsStep(vs: seq<Verdict>, v: Verdict)
    ensures MarkedCount(vs + [v], GOOD) == MarkedCount(vs, GOOD) + (if v.Marked? && v.mark == GOOD then 1 else 0)
    ensures MarkedCount(vs + [v], UNSURE) == MarkedCount(vs, UNSURE) + (if v.Marked? && v.mark == UNSURE then 1 else 0)
    ensures UnchangedCount(vs + [v]) == UnchangedCount(vs) + (if v.Unchanged? then 1 else 0)
  {
    assert (vs + [v])[..|vs|] == vs;
  }

  /** Voting on row hi after rows lo .. hi - 1: that row is still as in
      grid, the table gains its revote and the verdicts its verdict. */
  lemma RowStep(grid: seq<seq<Mark>>, sums: seq<seq<string>>, lo: int, hi: int)
    requires Shaped(grid, sums) && 0 <= lo <= hi < |grid|
    ensures RevotedRows(grid, sums, lo, hi)[hi] == grid[hi]
    ensures RevotedRows(RevotedRows(grid, sums, lo, hi), sums, hi, hi + 1) == RevotedRows(grid, sums, lo, hi + 1)
    ensures Verdicts(grid, sums, lo, hi + 1) == Verdicts(grid, sums, lo, hi) + [Vote(grid[hi], sums[hi])]
  {
    RevotedRowsStep(grid, sums, lo, hi);
  }

  /** The three counters of markGoodParts tally the verdicts vs. */
  predicate Tallies(good: int, unsure: int, undefined: int, vs: seq<Verdict>)
  {
    good == MarkedCount(vs, GOOD) && unsure == MarkedCount(vs, UNSURE) &&
    undefined == UnchangedCount(vs) && good + unsure + undefined == |vs|
  }

  /** A verdict counted by the counter it names keeps the tally. */
  lemma TalliesStep(good: int, unsure: int, undefined: int, vs: seq<Verdict>, v: Verdict)
    requires Tallies(good, unsure, undefined, vs)
    requires v.Marked? ==> v.mark == GOOD || v.mark == UNSURE
    ensures Tallies(good + (if v.Marked? && v.mark == GOOD then 1 else 0),
                    unsure + (if v.Marked? && v.mark == UNSURE then 1 else 0),
                    undefined + (if v.Unchanged? then 1 else 0), vs + [v])
  {
    CountsStep(vs, v);
  }

  class GoodPartsMarker {
    var good: int
    var unsure: int
    var undefined: int
    const comparison: Comparison
    var checksumOccurrences: map<string, int>
    var max: int
    var maxIndex: int
    var isUnsure: bool

    constructor (comparison: Comparison)
      ensures this.comparison == comparison
      ensures good == 0 && unsure == 0 && undefined == 0
    {
      this.comparison := comparison;
      good, unsure, undefined := 0, 0, 0;
      checksumOccurrences := map[];
      max, maxIndex, isUnsure := 0, 0, false;
    }

    /** The per-row fields as a tally. */
    function Current(): (t: Tally)
      reads this
      ensures t.occurrences == checksumOccurrences && t.max == max
      ensures t.maxIndex == maxIndex && t.isUnsure == isUnsure
    {
      Tally(checksumOccurrences, max, maxIndex, isUnsure)
    }

    /** markGoodParts: with an invalid range, false and no mark changed;
        otherwise each row of the range is voted on as it stood before the
        call, the counters tally the verdicts, and rows outside the range
        keep their marks. */
    method MarkGoodParts(diffFrom: int, diffTo: int) returns (ok: bool)
      requires comparison.Valid()
      modifies this, set it | it in comparison.items.items
      ensures ok <==> 0 <= diffFrom <= diffTo < |comparison.partsThatDiffer| && !comparison.needsUpdating
      ensures !ok ==> good == 0 && unsure == 0 && undefined == 0
      ensures !ok ==> Grid(comparison) == old(Grid(comparison))
      ensures ok ==> good + unsure + undefined == diffTo - diffFrom + 1
      ensures ok ==> Shaped(old(Grid(comparison)), Sums(comparison))
      ensures ok ==> Grid(comparison) == RevotedRows(old(Grid(comparison)), Sums(comparison), diffFrom, diffTo + 1)
      ensures ok ==> good == MarkedCount(Verdicts(old(Grid(comparison)), Sums(comparison), diffFrom, diffTo + 1), GOOD)
      ensures ok ==> unsure == MarkedCount(Verdicts(old(Grid(comparison)), Sums(comparison), diffFrom, diffTo + 1), UNSURE)
      ensures ok ==> undefined == UnchangedCount(Verdicts(old(Grid(comparison)), Sums(comparison), diffFrom, diffTo + 1))
    {
      ghost var grid, sums := Grid(comparison), Sums(comparison);
      ShowsIsGrid(comparison, grid);
      ChecksumsAreSums(comparison, sums);
      ResetStatistics(grid, sums);
      if !ValidateRange(diffFrom, diffTo) {
        ShowsIsGrid(comparison, grid);
        return false;
      }
      ShowsIsGrid(comparison, grid);
      ChecksumsAreSums(comparison, sums);
      MarkParts(diffFrom, diffTo, grid, sums);
      return true;
    }

    /** resetStatistics: all three counters back to zero; the comparison
        is left as it was. */
    method ResetStatistics(ghost grid: seq<seq<Mark>>, ghost sums: seq<seq<string>>)
      requires Shows(comparison, grid) && ChecksumsAre(comparison, sums)
      modifies this`good, this`unsure, this`undefined
      ensures good == 0 && unsure == 0 && undefined == 0
      ensures unchanged(comparison) && Shows(comparison, grid) && ChecksumsAre(comparison, sums)
    {
      good := 0;
      unsure := 0;
      undefined := 0;
    }

    /** validateRange: a non-empty range of existing rows of an up-to-date
        comparison. */
    predicate ValidateRange(start: int, end: int)
      reads comparison
      ensures ValidateRange(start, end) <==>
                !comparison.needsUpdating && 0 <= start <= end < |comparison.partsThatDiffer|
    {
      start >= 0 && end < comparison.GetDifferences() && start <= end
    }

    /** markParts: markPart for each row of the range, in order; grid and
        sums are the table as it stands on entry. */
    method MarkParts(diffFrom: int, diffTo: int, ghost grid: seq<seq<Mark>>, ghost sums: seq<seq<string>>)
      requires comparison.Valid() && !comparison.needsUpdating
      requires 0 <= diffFrom <= diffTo < |comparison.partsThatDiffer|
      requires good == 0 && unsure == 0 && undefined == 0
      requires Grid(comparison) == grid && Sums(comparison) == sums && Shaped(grid, sums)
      modifies this, set it | it in comparison.items.items
      ensures Sums(comparison) == sums
      ensures Grid(comparison) == RevotedRows(grid, sums, diffFrom, diffTo + 1)
      ensures Tallies(good, unsure, undefined, Verdicts(grid, sums, diffFrom, diffTo + 1))
    {
      var difference := diffFrom;
      NoneRevoted(grid, sums, diffFrom);
      while difference <= diffTo
        invariant diffFrom <= difference <= diffTo + 1
        invariant comparison.Valid() && !comparison.needsUpdating
        invariant Grid(comparison) == RevotedRows(grid, sums, diffFrom, difference)
        invariant Tallies(good, unsure, undefined, Verdicts(grid, sums, diffFrom, difference))
      {
        MarkPart(diffFrom, difference, grid, sums);
        difference := difference + 1;
      }
      assert difference == diffTo + 1;
    }

    /** markPart: a fresh tally of the row, then its verdict; grid and
        sums are the table as it stood before rows diffFrom .. difference - 1
        were voted on. */
    method MarkPart(diffFrom: int, difference: int, ghost grid: seq<seq<Mark>>, ghost sums: seq<seq<string>>)
      requires comparison.Valid() && !comparison.needsUpdating
      requires 0 <= diffFrom <= difference < |comparison.partsThatDiffer|
      requires Shaped(grid, sums) && Sums(comparison) == sums
      requires Grid(comparison) == RevotedRows(grid, sums, diffFrom, difference)
      requires Tallies(good, unsure, undefined, Verdicts(grid, sums, diffFrom, difference))
      modifies this, set it | it in comparison.items.items
      ensures comparison.Valid() && Sums(comparison) == sums
      ensures Grid(comparison) == RevotedRows(grid, sums, diffFrom, difference + 1)
      ensures Tallies(good, unsure, undefined, Verdicts(grid, sums, diffFrom, difference + 1))
    {
      ghost var current := RevotedRows(grid, sums, diffFrom, difference);
      RowStep(grid, sums, diffFrom, difference);
      ShowsIsGrid(comparison, current);
      ChecksumsAreSums(comparison, sums);
      ResetOccurrences(current, sums);
      FindFilesOccurrences(difference, current, sums);
      SetMarkAccordingToOccurrences(difference, current, sums, Verdicts(grid, sums, diffFrom, difference));
      ShowsIsGrid(comparison, RevotedRows(current, sums, difference, difference + 1));
      ChecksumsAreSums(comparison, sums);
    }

    /** resetOccurrences: an empty table, max 1 and no leader; the
        comparison is left as it was. */
    method ResetOccurrences(ghost grid: seq<seq<Mark>>, ghost sums: seq<seq<string>>)
      requires comparison.Valid() && Shows(comparison, grid) && ChecksumsAre(comparison, sums)
      modifies this`checksumOccurrences, this`max, this`maxIndex, this`isUnsure
      ensures Current() == ResetTally
      ensures comparison.Valid() && Shows(comparison, grid) && ChecksumsAre(comparison, sums)
    {
      checksumOccurrences := map[];
      max := 1;
      maxIndex := -1;
      isUnsure := false;
    }

    /** findFilesOccurrences: the files in order until one whose mark is
        not UNDEFINED. */
    method FindFilesOccurrences(difference: int, ghost grid: seq<seq<Mark>>, ghost sums: seq<seq<string>>)
      requires Current() == ResetTally && 0 <= difference < |comparison.partsThatDiffer|
      requires comparison.Valid() && Shows(comparison, grid) && ChecksumsAre(comparison, sums)
      modifies this`checksumOccurrences, this`max, this`maxIndex, this`isUnsure
      ensures Current() == Scanned(grid[difference], sums[difference], 0, ResetTally)
      ensures comparison.Valid() && Shows(comparison, grid) && ChecksumsAre(comparison, sums)
    {
      ghost var marks, crcs := grid[difference], sums[difference];
      var file := 0;
      while file < comparison.GetFilesCount()
        invariant 0 <= file <= |crcs|
        invariant comparison.Valid() && Shows(comparison, grid) && ChecksumsAre(comparison, sums)
        invariant Scanned(marks, crcs, 0, ResetTally) == Scanned(marks, crcs, file, Current())
      {
        ghost var t := Current();
        var alreadySet := MarkerIsAlreadySet(difference, file, grid, sums);
        if alreadySet {
          assert marks[file] != UNDEFINED;
          assert Current() == t.(maxIndex := -1) == Scanned(marks, crcs, file, t);
          break;
        }
        FindFileOccurrences(difference, file, grid, sums);
        assert Current() == AddCrc(t, file, crcs[file]);
        assert Scanned(marks, crcs, file, t) == Scanned(marks, crcs, file + 1, Current());
        file := file + 1;
      }
    }

    /** markerIsAlreadySet: a mark other than UNDEFINED drops the leader. */
    method MarkerIsAlreadySet(difference: int, file: int, ghost grid: seq<seq<Mark>>, ghost sums: seq<seq<string>>)
      returns (alreadySet: bool)
      requires comparison.Valid() && Shows(comparison, grid) && ChecksumsAre(comparison, sums)
      modifies this`maxIndex
      ensures comparison.Valid() && Shows(comparison, grid) && ChecksumsAre(comparison, sums)
      ensures alreadySet <==> comparison.GetMark(difference, file) != UNDEFINED
      ensures maxIndex == if alreadySet then -1 else old(maxIndex)
    {
      alreadySet := false;
      if comparison.GetMark(difference, file) != UNDEFINED {
        maxIndex := -1;
        alreadySet := true;
      }
    }

    /** findFileOccurrences: the cell's checksum is counted unless the index
        is bad or the checksum is empty. */
    method FindFileOccurrences(difference: int, file: int, ghost grid: seq<seq<Mark>>, ghost sums: seq<seq<string>>)
      requires comparison.Valid() && Shows(comparison, grid) && ChecksumsAre(comparison, sums)
      modifies this`checksumOccurrences, this`max, this`maxIndex, this`isUnsure
      ensures comparison.Valid() && Shows(comparison, grid) && ChecksumsAre(comparison, sums)
      ensures Current() == AddCrc(old(Current()), file, comparison.GetChecksum(difference, file))
    {
      if comparison.IsGoodIndex(difference, file) {
        var crc := comparison.GetChecksum(difference, file);
        if |crc| == 0 {
          return;
        }
        AddCrcOccurrence(file, crc);
      }
    }

    /** addCrcOccurrence with addOccurrence, crcIsRepetitionsLeader and
        crcShareRepetitionLeadership. */
    method AddCrcOccurrence(file: int, crc: string)
      requires crc != ""
      modifies this`checksumOccurrences, this`max, this`maxIndex, this`isUnsure
      ensures Current() == AddCrc(old(Current()), file, crc)
    {
      var counter := AddOccurrence(crc);
      if counter > max {
        max, maxIndex, isUnsure := counter, file, false;
      } else if counter == max {
        isUnsure := true;
      }
    }

    /** addOccurrence: the checksum's count, one higher than before. */
    method AddOccurrence(crc: string) returns (counter: int)
      modifies this`checksumOccurrences
      ensures counter == (if crc in old(checksumOccurrences) then old(checksumOccurrences)[crc] else 0) + 1
      ensures checksumOccurrences == old(checksumOccurrences)[crc := counter]
    {
      counter := 0;
      if crc in checksumOccurrences {
        counter := checksumOccurrences[crc];
        checksumOccurrences := map c | c in checksumOccurrences && c != crc :: checksumOccurrences[c];
      }
      counter := counter + 1;
      checksumOccurrences := checksumOccurrences[crc := counter];
    }

    /** setMarkAccordingToOccurrences: the leader's mark, or the row is
        counted as left undefined. */
    method SetMarkAccordingToOccurrences(difference: int, ghost grid: seq<seq<Mark>>, ghost sums: seq<seq<string>>,
                                         ghost vs: seq<Verdict>)
      requires comparison.Valid() && !comparison.needsUpdating
      requires 0 <= difference < |comparison.partsThatDiffer|
      requires Shows(comparison, grid) && ChecksumsAre(comparison, sums)
      requires Current() == Scanned(grid[difference], sums[difference], 0, ResetTally)
      requires Tallies(good, unsure, undefined, vs)
      modifies this`good, this`unsure, this`undefined, set it | it in comparison.items.items
      ensures comparison.Valid() && ChecksumsAre(comparison, sums) && Shaped(grid, sums)
      ensures Shows(comparison, RevotedRows(grid, sums, difference, difference + 1))
      ensures Tallies(good, unsure, undefined, vs + [Vote(grid[difference], sums[difference])])
    {
      TalliesStep(good, unsure, undefined, vs, Vote(grid[difference], sums[difference]));
      if maxIndex >= 0 {
        SetMark(difference, grid, sums);
      } else {
        LeaveUndefined();
        assert Vote(grid[difference], sums[difference]) == Unchanged;
        UnchangedRowKeepsTable(grid, sums, difference);
      }
    }

    /** setMark: UNSURE when another checksum drew level, GOOD otherwise. */
    method SetMark(difference: int, ghost grid: seq<seq<Mark>>, ghost sums: seq<seq<string>>)
      requires comparison.Valid() && 0 <= difference < |comparison.partsThatDiffer|
      requires Shows(comparison, grid) && ChecksumsAre(comparison, sums)
      requires maxIndex >= 0 && Vote(grid[difference], sums[difference]) == Marked(maxIndex, if isUnsure then UNSURE else GOOD)
      modifies this`good, this`unsure, set it | it in comparison.items.items
      ensures comparison.Valid() && ChecksumsAre(comparison, sums) && Shaped(grid, sums)
      ensures Shows(comparison, RevotedRows(grid, sums, difference, difference + 1))
      ensures good == old(good) + (if old(isUnsure) then 0 else 1)
      ensures unsure == old(unsure) + (if old(isUnsure) then 1 else 0)
    {
      if isUnsure {
        SetUnsure(difference, grid, sums);
      } else {
        SetGood(difference, grid, sums);
      }
    }

    /** leaveUndefined: one more row left as it was. */
    method LeaveUndefined()
      modifies this`undefined
      ensures undefined == old(undefined) + 1
    {
      undefined := undefined + 1;
    }

    /** setUnsure: the leader's item, and with it every file sharing its
        checksum, becomes UNSURE. */
    method SetUnsure(difference: int, ghost grid: seq<seq<Mark>>, ghost sums: seq<seq<string>>)
      requires comparison.Valid() && 0 <= difference < |comparison.partsThatDiffer|
      requires Shows(comparison, grid) && ChecksumsAre(comparison, sums)
      requires maxIndex >= 0 && Vote(grid[difference], sums[difference]) == Marked(maxIndex, UNSURE)
      modifies this`unsure, set it | it in comparison.items.items
      ensures comparison.Valid() && ChecksumsAre(comparison, sums) && Shaped(grid, sums)
      ensures Shows(comparison, RevotedRows(grid, sums, difference, difference + 1))
      ensures unsure == old(unsure) + 1
    {
      VoteInRange(grid[difference], sums[difference]);
      comparison.SetMark(difference, maxIndex, UNSURE);
      unsure := unsure + 1;
      LeaderMarkGivesRevote(comparison, grid, sums, difference);
    }

    /** setGood: the leader's item, and with it every file sharing its
        checksum, becomes GOOD. */
    method SetGood(difference: int, ghost grid: seq<seq<Mark>>, ghost sums: seq<seq<string>>)
      requires comparison.Valid() && 0 <= difference < |comparison.partsThatDiffer|
      requires Shows(comparison, grid) && ChecksumsAre(comparison, sums)
      requires maxIndex >= 0 && Vote(grid[difference], sums[difference]) == Marked(maxIndex, GOOD)
      modifies this`good, set it | it in comparison.items.items
      ensures comparison.Valid() && ChecksumsAre(comparison, sums) && Shaped(grid, sums)
      ensures Shows(comparison, RevotedRows(grid, sums, difference, difference + 1))
      ensures good == old(good) + 1
    {
      VoteInRange(grid[difference], sums[difference]);
      comparison.SetMark(difference, maxIndex, GOOD);
      good := good + 1;
      LeaderMarkGivesRevote(comparison, grid, sums, difference);
    }
  }
}
