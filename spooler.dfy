/**
 * The resumable file spooler origin. Each call to Produce reads at most
 * `batchSize` lines of one file of a directory snapshot, starting where the
 * offset says, and returns the offset to resume from. Files are visited in
 * the configured order, each one completely before the next.
 */
module Spooler {
  import opened Wrappers
  import opened SpoolerLines
  import opened SpoolerOrder

  /** The record headers the spooler sets on every record. */
  datatype HeaderName = FILE | FILE_NAME | OFFSET

  /** One record: a line of a file, with the file's full path, its base name and the line's byte offset. */
  datatype Record = Record(value: string, file: string, fileName: string, offset: nat)

  /** Where to resume: nothing read yet, or the file being read and the byte position reached in it. */
  datatype Offset = NoOffset | Cursor(file: FileKey, pos: nat)

  /** The last path element: everything after the final '/'. */
  function BaseName(path: string): (b: string)
    ensures '/' !in b
    ensures |b| <= |path| && path[|path| - |b|..] == b
    ensures |b| < |path| ==> path[|path| - |b| - 1] == '/'
    decreases |path|
  {
    if |path| == 0 || path[|path| - 1] == '/' then ""
    else BaseName(path[..|path| - 1]) + [path[|path| - 1]]
  }

  function DigitChar(d: nat): (c: char)
    requires d < 10
    ensures '0' <= c <= '9' && (c - '0') as nat == d
  {
    ('0' as int + d) as char
  }

  /** The decimal value of a string of digits (the reference reading of a header value). */
  function DecimalValue(s: string): nat
    requires forall k | 0 <= k < |s| :: '0' <= s[k] <= '9'
  {
    if s == [] then 0 else 10 * DecimalValue(s[..|s| - 1]) + (s[|s| - 1] - '0') as nat
  }

  /** A byte offset written in decimal, as the OFFSET header carries it. */
  function Decimal(n: nat): (s: string)
    ensures |s| > 0 && forall k | 0 <= k < |s| :: '0' <= s[k] <= '9'
    ensures DecimalValue(s) == n
    ensures |s| == 1 || s[0] != '0'
  {
    if n < 10 then [DigitChar(n)]
    else
      var p := Decimal(n / 10);
      var s := p + [DigitChar(n % 10)];
      assert s[..|s| - 1] == p;
      assert s[0] == p[0];
      assert |p| == 1 ==> p[..0] == [] && DecimalValue(p) == (p[0] - '0') as nat;
      assert forall k | 0 <= k < |s| :: '0' <= s[k] <= '9' by {
        forall k | 0 <= k < |s| ensures '0' <= s[k] <= '9' {
          if k < |p| { assert s[k] == p[k]; }
        }
      }
      s
  }

  function Headers(r: Record): map<HeaderName, string>
  {
    map[FILE := r.file, FILE_NAME := r.fileName, OFFSET := Decimal(r.offset)]
  }

  /** The record for one line of file `f`. */
  function ToRecord(f: FileEntry, line: Line): Record
  {
    Record(line.text, f.path, BaseName(f.path), line.start)
  }

  /** The records for some lines of file `f`, one per line and in the same order. */
  function ToRecords(f: FileEntry, lines: seq<Line>): seq<Record>
  {
    seq(|lines|, i requires 0 <= i < |lines| => ToRecord(f, lines[i]))
  }

  lemma ToRecordsAppend(f: FileEntry, a: seq<Line>, b: seq<Line>)
    ensures ToRecords(f, a + b) == ToRecords(f, a) + ToRecords(f, b)
  {
  }

  /** The records of every line of `f` from byte `pos` on. */
  function FileRecords(f: FileEntry, pos: nat): seq<Record>
    requires pos <= |f.contents|
  {
    ToRecords(f, LinesFrom(f.contents, pos))
  }

  /** The file of the snapshot with the given path, if there is one. */
  function FindPath(snap: Snapshot, path: string): (r: Option<FileEntry>)
    ensures r.Some? ==> r.value in snap && r.value.path == path
    ensures r.None? ==> forall g | g in snap :: g.path != path
  {
    if snap == [] then None
    else if snap[0].path == path then Some(snap[0])
    else FindPath(snap[1..], path)
  }

  /** The file the offset points into, when that file is still selectable and has unread bytes. */
  function CurrentFile(cfg: Config, snap: Snapshot, offset: Offset): (r: Option<FileEntry>)
    ensures r.Some? ==> offset.Cursor? && r.value in snap && Selectable(cfg, r.value)
    ensures r.Some? ==> r.value.path == offset.file.path && offset.pos < |r.value.contents|
  {
    if offset.NoOffset? then None
    else match FindPath(snap, offset.file.path)
      case Some(f) => if Selectable(cfg, f) && offset.pos < |f.contents| then Some(f) else None
      case None => None
  }

  /** The position in the order after which the next file is chosen. */
  function AfterKey(offset: Offset): Option<FileKey>
  {
    if offset.NoOffset? then None else Some(offset.file)
  }

  /** Reads at most `n` lines of `f` from byte `pos`. */
  function ReadFrom(f: FileEntry, pos: nat, n: nat): (r: (Offset, seq<Record>))
    requires pos <= |f.contents|
    ensures |r.1| == n || r.0 == Cursor(KeyOf(f), |f.contents|)
  {
    var r := ReadLines(f.contents, pos, n);
    (Cursor(KeyOf(f), r.1), ToRecords(f, r.0))
  }

  /**
   * One call of the origin: continue the current file if it has unread bytes,
   * otherwise start the next file in the configured order; if there is none,
   * return the offset unchanged and no records.
   */
  function Produce(cfg: Config, snap: Snapshot, offset: Offset, batchSize: nat): (r: (Offset, seq<Record>))
    ensures |r.1| <= batchSize
    ensures r.1 == [] ==> r.0 == offset
    ensures forall i | 0 <= i < |r.1| :: r.1[i].file == r.1[0].file && r.1[i].fileName == BaseName(r.1[0].file)
    ensures r.1 != [] ==> InDirectory(cfg.spoolDir, cfg.processSubDirectories, r.1[0].file)
    ensures r.1 != [] ==> r.0.Cursor? && r.0.file.path == r.1[0].file
    ensures r.1 != [] ==> |r.1| == batchSize || exists f | f in snap && f.path == r.0.file.path :: r.0.pos == |f.contents|
  {
    if batchSize == 0 then (offset, [])
    else
      var cur := CurrentFile(cfg, snap, offset);
      if cur.Some? then
        var r := ReadFrom(cur.value, offset.pos, batchSize);
        assert |r.1| == batchSize || (cur.value in snap && cur.value.path == r.0.file.path && r.0.pos == |cur.value.contents|);
        r
      else match FirstAfter(cfg, snap, AfterKey(offset))
        case None => (offset, [])
        case Some(f) =>
          var r := ReadFrom(f, 0, batchSize);
          assert |r.1| == batchSize || (f in snap && f.path == r.0.file.path && r.0.pos == |f.contents|);
          r
  }

  /** How many files could still be picked after `after`: the measure that shrinks along the file order. */
  function CandidateCount(cfg: Config, snap: Snapshot, after: Option<FileKey>): nat
  {
    if snap == [] then 0
    else (if Candidate(cfg, snap[0], after) then 1 else 0) + CandidateCount(cfg, snap[1..], after)
  }

  /** Moving the position forward to a candidate never adds candidates. */
  lemma {:induction false} CandidateCountMonotone(cfg: Config, snap: Snapshot, after: Option<FileKey>, f: FileEntry)
    requires Candidate(cfg, f, after)
    ensures CandidateCount(cfg, snap, Some(KeyOf(f))) <= CandidateCount(cfg, snap, after)
    ensures f in snap ==> CandidateCount(cfg, snap, Some(KeyOf(f))) < CandidateCount(cfg, snap, after)
  {
    if snap != [] {
      CandidateCountMonotone(cfg, snap[1..], after, f);
      var g := snap[0];
      if Candidate(cfg, g, Some(KeyOf(f))) && after.Some? {
        KeyLessTransitive(cfg.readOrder, after.value, KeyOf(f), KeyOf(g));
      }
      KeyLessIrreflexive(cfg.readOrder, KeyOf(f));
      assert f in snap ==> f == g || f in snap[1..];
    }
  }

  /** The files still to be read after `after`, in the order the spooler visits them. */
  function FileOrder(cfg: Config, snap: Snapshot, after: Option<FileKey>): seq<FileEntry>
    decreases CandidateCount(cfg, snap, after)
  {
    match FirstAfter(cfg, snap, after)
    case None => []
    case Some(f) =>
      CandidateCountMonotone(cfg, snap, after, f);
      [f] + FileOrder(cfg, snap, Some(KeyOf(f)))
  }

  /** All records of the given files, each file from its first byte, one file after another. */
  function AllRecords(files: seq<FileEntry>): seq<Record>
  {
    if files == [] then [] else FileRecords(files[0], 0) + AllRecords(files[1..])
  }

  /** Every record a sequence of calls starting at `offset` will still deliver, in delivery order. */
  function Remaining(cfg: Config, snap: Snapshot, offset: Offset): seq<Record>
  {
    var cur := CurrentFile(cfg, snap, offset);
    (if cur.Some? then FileRecords(cur.value, offset.pos) else [])
      + AllRecords(FileOrder(cfg, snap, AfterKey(offset)))
  }

  /** An offset this snapshot can have produced: none yet, or a position inside a selectable file. */
  predicate ValidOffset(cfg: Config, snap: Snapshot, offset: Offset)
  {
    offset.Cursor? ==>
      exists f | f in snap :: KeyOf(f) == offset.file && Selectable(cfg, f) && offset.pos <= |f.contents|
  }

  /**
   * Resuming loses and repeats nothing: the records of one call, followed by
   * everything still to come from the returned offset, are exactly what was
   * still to come before the call. A call returns no records only when
   * nothing is left (or the batch size is zero).
   */
  lemma ProduceResumes(cfg: Config, snap: Snapshot, offset: Offset, batchSize: nat)
    requires DistinctPaths(snap) && ValidOffset(cfg, snap, offset)
    ensures ValidOffset(cfg, snap, Produce(cfg, snap, offset, batchSize).0)
    ensures Produce(cfg, snap, offset, batchSize).1 + Remaining(cfg, snap, Produce(cfg, snap, offset, batchSize).0)
         == Remaining(cfg, snap, offset)
    ensures Produce(cfg, snap, offset, batchSize).1 == [] && batchSize > 0 ==> Remaining(cfg, snap, offset) == []
  {
    if batchSize > 0 {
      var cur := CurrentFile(cfg, snap, offset);
      if cur.Some? {
        var f := cur.value;
        var g :| g in snap && KeyOf(g) == offset.file && Selectable(cfg, g) && offset.pos <= |g.contents|;
        SamePathSameFile(snap, f, g);
        ReadFromResumes(cfg, snap, f, offset.pos, batchSize);
      } else {
        match FirstAfter(cfg, snap, AfterKey(offset))
        case None =>
        case Some(f) =>
          assert FileOrder(cfg, snap, AfterKey(offset)) == [f] + FileOrder(cfg, snap, Some(KeyOf(f)));
          ReadFromResumes(cfg, snap, f, 0, batchSize);
      }
    }
  }

  /** Reading part of a selectable file: what is read plus what is left from the new cursor is what was left. */
  lemma ReadFromResumes(cfg: Config, snap: Snapshot, f: FileEntry, pos: nat, n: nat)
    requires DistinctPaths(snap) && f in snap && Selectable(cfg, f) && pos <= |f.contents|
    ensures ValidOffset(cfg, snap, ReadFrom(f, pos, n).0)
    ensures ReadFrom(f, pos, n).1 + Remaining(cfg, snap, ReadFrom(f, pos, n).0)
         == FileRecords(f, pos) + AllRecords(FileOrder(cfg, snap, Some(KeyOf(f))))
    ensures ReadFrom(f, pos, n).1 == [] ==> n == 0 || pos == |f.contents|
  {
    var end := ReadLines(f.contents, pos, n).1;
    ReadFromSplitsFile(f, pos, n);
    RemainingAtCursor(cfg, snap, f, end);
    SeqAssoc(ReadFrom(f, pos, n).1, FileRecords(f, end), AllRecords(FileOrder(cfg, snap, Some(KeyOf(f)))));
  }

  /** What one read of a file returns, followed by the rest of the file from the new cursor, is the rest of the file. */
  lemma ReadFromSplitsFile(f: FileEntry, pos: nat, n: nat)
    requires pos <= |f.contents|
    ensures ReadFrom(f, pos, n).0 == Cursor(KeyOf(f), ReadLines(f.contents, pos, n).1)
    ensures ReadFrom(f, pos, n).1 + FileRecords(f, ReadLines(f.contents, pos, n).1) == FileRecords(f, pos)
  {
    var r := ReadLines(f.contents, pos, n);
    ToRecordsAppend(f, r.0, LinesFrom(f.contents, r.1));
  }

  lemma SeqAssoc(a: seq<Record>, b: seq<Record>, c: seq<Record>)
    ensures a + (b + c) == (a + b) + c
  {
  }

  /** From a cursor into a selectable file: the rest of that file, then the files after it. */
  lemma RemainingAtCursor(cfg: Config, snap: Snapshot, f: FileEntry, pos: nat)
    requires DistinctPaths(snap) && f in snap && Selectable(cfg, f) && pos <= |f.contents|
    ensures Remaining(cfg, snap, Cursor(KeyOf(f), pos))
         == FileRecords(f, pos) + AllRecords(FileOrder(cfg, snap, Some(KeyOf(f))))
  {
    FindPathFinds(snap, f);
    if pos == |f.contents| {
      assert FileRecords(f, pos) == [];
    }
  }

  lemma SamePathSameFile(snap: Snapshot, f: FileEntry, g: FileEntry)
    requires DistinctPaths(snap) && f in snap && g in snap && f.path == g.path
    ensures f == g
  {
    var i, j :| 0 <= i < |snap| && 0 <= j < |snap| && snap[i] == f && snap[j] == g;
    assert i == j;
  }

  lemma FindPathFinds(snap: Snapshot, f: FileEntry)
    requires DistinctPaths(snap) && f in snap
    ensures FindPath(snap, f.path) == Some(f)
  {
    var r := FindPath(snap, f.path);
    SamePathSameFile(snap, f, r.value);
  }

  /** Every file in the order is a file of the snapshot that may be picked after `after`. */
  lemma {:induction false} FileOrderCandidates(cfg: Config, snap: Snapshot, after: Option<FileKey>)
    ensures forall i | 0 <= i < |FileOrder(cfg, snap, after)| ::
      FileOrder(cfg, snap, after)[i] in snap && Candidate(cfg, FileOrder(cfg, snap, after)[i], after)
    decreases CandidateCount(cfg, snap, after)
  {
    match FirstAfter(cfg, snap, after)
    case None =>
    case Some(f) =>
      CandidateCountMonotone(cfg, snap, after, f);
      FileOrderCandidates(cfg, snap, Some(KeyOf(f)));
      var tail := FileOrder(cfg, snap, Some(KeyOf(f)));
      assert FileOrder(cfg, snap, after) == [f] + tail;
      forall i | 0 <= i < |tail| ensures Candidate(cfg, tail[i], after) {
        if after.Some? {
          KeyLessTransitive(cfg.readOrder, after.value, KeyOf(f), KeyOf(tail[i]));
        }
      }
  }

  /** The file order is strictly increasing in the configured order, so no file is visited twice. */
  lemma {:induction false} FileOrderSorted(cfg: Config, snap: Snapshot, after: Option<FileKey>)
    ensures forall i, j | 0 <= i < j < |FileOrder(cfg, snap, after)| ::
      KeyLess(cfg.readOrder, KeyOf(FileOrder(cfg, snap, after)[i]), KeyOf(FileOrder(cfg, snap, after)[j]))
    decreases CandidateCount(cfg, snap, after)
  {
    match FirstAfter(cfg, snap, after)
    case None =>
    case Some(f) =>
      CandidateCountMonotone(cfg, snap, after, f);
      FileOrderSorted(cfg, snap, Some(KeyOf(f)));
      FileOrderCandidates(cfg, snap, Some(KeyOf(f)));
      var tail := FileOrder(cfg, snap, Some(KeyOf(f)));
      var order := [f] + tail;
      assert FileOrder(cfg, snap, after) == order;
      forall i, j | 0 <= i < j < |order| ensures KeyLess(cfg.readOrder, KeyOf(order[i]), KeyOf(order[j])) {
        assert order[j] == tail[j - 1];
        if i > 0 {
          assert order[i] == tail[i - 1];
        }
      }
  }

  /** No file that may be picked after `after` is missing from the file order. */
  lemma {:induction false} FileOrderComplete(cfg: Config, snap: Snapshot, after: Option<FileKey>)
    requires DistinctPaths(snap)
    ensures forall g | g in snap && Candidate(cfg, g, after) :: g in FileOrder(cfg, snap, after)
    decreases CandidateCount(cfg, snap, after)
  {
    match FirstAfter(cfg, snap, after)
    case None =>
    case Some(f) =>
      CandidateCountMonotone(cfg, snap, after, f);
      FileOrderComplete(cfg, snap, Some(KeyOf(f)));
      var order := [f] + FileOrder(cfg, snap, Some(KeyOf(f)));
      assert FileOrder(cfg, snap, after) == order;
      forall g | g in snap && Candidate(cfg, g, after) ensures g in order {
        FirstAfterIsLeast(cfg, snap, after, g);
      }
  }

  /**
   * From an empty offset the spooler visits exactly the selectable files:
   * by ascending modification time under LastModified, by ascending path
   * under Lexicographical.
   */
  lemma VisitOrder(cfg: Config, snap: Snapshot)
    requires DistinctPaths(snap)
    ensures var order := FileOrder(cfg, snap, None);
      && (forall g | g in snap :: g in order <==> Selectable(cfg, g))
      && (forall i | 0 <= i < |order| :: order[i] in snap)
      && (cfg.readOrder == LastModified ==> forall i, j | 0 <= i < j < |order| :: order[i].mtime <= order[j].mtime)
      && (cfg.readOrder == Lexicographical ==> forall i, j | 0 <= i < j < |order| :: StrLess(order[i].path, order[j].path))
    ensures Remaining(cfg, snap, NoOffset) == AllRecords(FileOrder(cfg, snap, None))
  {
    FileOrderCandidates(cfg, snap, None);
    FileOrderSorted(cfg, snap, None);
    FileOrderComplete(cfg, snap, None);
  }

  /** The records of a sequence of batches, one batch after another. */
  function Concat(batches: seq<seq<Record>>): seq<Record>
  {
    if batches == [] then [] else batches[0] + Concat(batches[1..])
  }

  lemma ConcatAppend(batches: seq<seq<Record>>, b: seq<Record>)
    ensures Concat(batches + [b]) == Concat(batches) + b
  {
    if batches != [] {
      assert (batches + [b])[1..] == batches[1..] + [b];
    }
  }

  /** A batch as one Produce call returns it when there is data: non-empty, bounded, from one file. */
  predicate OneFileBatch(batch: seq<Record>, batchSize: nat)
  {
    && 0 < |batch| <= batchSize
    && forall i | 0 <= i < |batch| :: batch[i].file == batch[0].file
  }

  /** What the drain loop keeps: a valid offset, and the batches so far followed by what is left make up `total`. */
  predicate Drained(cfg: Config, snap: Snapshot, batchSize: nat, batches: seq<seq<Record>>, offset: Offset, total: seq<Record>)
  {
    && ValidOffset(cfg, snap, offset)
    && Concat(batches) + Remaining(cfg, snap, offset) == total
    && forall k | 0 <= k < |batches| :: OneFileBatch(batches[k], batchSize)
  }

  /** Appending a batch taken off the front of what was left keeps the running total. */
  lemma {:induction false} GatherBatch(batches: seq<seq<Record>>, batch: seq<Record>, left: seq<Record>, left': seq<Record>, total: seq<Record>)
    requires Concat(batches) + left == total && batch + left' == left
    ensures Concat(batches + [batch]) + left' == total
  {
    ConcatAppend(batches, batch);
    assert (Concat(batches) + batch) + left' == Concat(batches) + (batch + left');
  }

  /** One step of the drain loop: either nothing is left, or the new batch keeps the loop's invariant and makes progress. */
  lemma DrainStep(cfg: Config, snap: Snapshot, batchSize: nat, batches: seq<seq<Record>>, offset: Offset, total: seq<Record>)
    requires DistinctPaths(snap) && batchSize > 0
    requires Drained(cfg, snap, batchSize, batches, offset, total)
    ensures var r := Produce(cfg, snap, offset, batchSize);
      && (r.1 == [] ==> Concat(batches) == total && Remaining(cfg, snap, offset) == [])
      && (r.1 != [] ==> Drained(cfg, snap, batchSize, batches + [r.1], r.0, total))
      && (r.1 != [] ==> |Remaining(cfg, snap, r.0)| < |Remaining(cfg, snap, offset)|)
  {
    var r := Produce(cfg, snap, offset, batchSize);
    var left, left' := Remaining(cfg, snap, offset), Remaining(cfg, snap, r.0);
    ProduceResumes(cfg, snap, offset, batchSize);
    assert r.1 + left' == left;
    if r.1 != [] {
      GatherBatch(batches, r.1, left, left', total);
      var batches' := batches + [r.1];
      forall k | 0 <= k < |batches'| ensures OneFileBatch(batches'[k], batchSize) {
        if k < |batches| {
          assert batches'[k] == batches[k];
        } else {
          assert batches'[k] == r.1;
        }
      }
      assert ValidOffset(cfg, snap, r.0);
      assert Concat(batches') + left' == total;
    } else {
      assert left == [];
    }
  }

  /**
   * Calls Produce repeatedly, feeding each returned offset into the next
   * call, until a call returns no records. The batches are non-empty, each
   * bounded by the batch size and drawn from a single file, and together
   * they are every line of every selectable file, in visiting order, once.
   */
  method Drain(cfg: Config, snap: Snapshot, batchSize: nat) returns (batches: seq<seq<Record>>, offset: Offset)
    requires DistinctPaths(snap) && batchSize > 0
    ensures Concat(batches) == AllRecords(FileOrder(cfg, snap, None))
    ensures forall k | 0 <= k < |batches| :: OneFileBatch(batches[k], batchSize)
    ensures Remaining(cfg, snap, offset) == []
  {
    batches, offset := [], NoOffset;
    ghost var total := AllRecords(FileOrder(cfg, snap, None));
    while true
      invariant Drained(cfg, snap, batchSize, batches, offset, total)
      decreases |Remaining(cfg, snap, offset)|
    {
      var r := Produce(cfg, snap, offset, batchSize);
      DrainStep(cfg, snap, batchSize, batches, offset, total);
      if r.1 == [] {
        break;
      }
      batches, offset := batches + [r.1], r.0;
    }
  }
}
