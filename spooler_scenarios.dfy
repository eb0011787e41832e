/**
 * The spooler's behaviour on the directories its own tests build: a spool
 * directory `t` holding a.txt, b.txt and c.txt with distinct modification
 * times, read in last-modified and in lexicographic order.
 */
module SpoolerScenarios {
  import opened Wrappers
  import opened SpoolerLines
  import opened SpoolerOrder
  import opened Spooler
  import opened Sequences

  const A: FileEntry := FileEntry("t" + "/" + "a.txt", 1, "123" + [NEWLINE] + "456")
  const C: FileEntry := FileEntry("t" + "/" + "c.txt", 2, "111112113" + [NEWLINE] + "114115116" + [NEWLINE] + "117118119")
  const B: FileEntry := FileEntry("t" + "/" + "b.txt", 3, "111213" + [NEWLINE] + "141516")

  /** The last-modified test's directory: a.txt, then c.txt, then b.txt by modification time. */
  const Dir: Snapshot := [A, C, B]

  /** The lexicographic test writes the same files but makes b.txt older than c.txt. */
  const LexB: FileEntry := FileEntry(B.path, 2, B.contents)
  const LexC: FileEntry := FileEntry(C.path, 3, C.contents)
  const LexDir: Snapshot := [A, LexB, LexC]

  const ByLastModified: Config := Config("t", false, LastModified)
  const ByName: Config := Config("t", false, Lexicographical)

  /** One step of ReadLines over a line whose text is known; `next` is where the following line starts. */
  lemma ReadStep(s: string, pos: nat, n: nat, text: string, next: nat)
    requires 0 < n && pos + |text| <= |s| && s[pos..pos + |text|] == text && NEWLINE !in text
    requires pos + |text| == |s| || (pos + |text| < |s| && s[pos + |text|] == NEWLINE)
    requires pos < |s|
    requires next == if pos + |text| < |s| then pos + |text| + 1 else |s|
    ensures ReadLines(s, pos, n).0 == [Line(text, pos)] + ReadLines(s, next, n - 1).0
    ensures ReadLines(s, pos, n).1 == ReadLines(s, next, n - 1).1
  {
    IndexFromAfter(s, NEWLINE, pos, text);
    assert NextStart(s, pos) == next;
    assert s[pos..IndexFrom(s, NEWLINE, pos)] == text;
  }

  /** Reading a two-line file without a trailing newline, given room for both lines. */
  lemma TwoLines(l1: string, l2: string, n: nat)
    requires NEWLINE !in l1 && NEWLINE !in l2 && l2 != [] && n >= 2
    ensures ReadLines(l1 + [NEWLINE] + l2, 0, n) == ([Line(l1, 0), Line(l2, |l1| + 1)], |l1| + 1 + |l2|)
  {
    var s := l1 + [NEWLINE] + l2;
    assert s[0..|l1|] == l1;
    ReadStep(s, 0, n, l1, |l1| + 1);
    assert s[|l1| + 1..|s|] == l2;
    ReadStep(s, |l1| + 1, n - 1, l2, |s|);
    assert ReadLines(s, |s|, n - 2) == ([], |s|);
    var r := ReadLines(s, 0, n);
    assert r.0 == [Line(l1, 0)] + ([Line(l2, |l1| + 1)] + []);
    assert r.0 == [Line(l1, 0), Line(l2, |l1| + 1)];
    assert r.1 == |s|;
  }

  /** Reading the first two lines of a three-line file. */
  lemma ThreeLinesHead(l1: string, l2: string, l3: string)
    requires NEWLINE !in l1 && NEWLINE !in l2
    ensures ReadLines(l1 + [NEWLINE] + l2 + [NEWLINE] + l3, 0, 2)
         == ([Line(l1, 0), Line(l2, |l1| + 1)], |l1| + |l2| + 2)
  {
    var s := l1 + [NEWLINE] + l2 + [NEWLINE] + l3;
    assert s[0..|l1|] == l1;
    ReadStep(s, 0, 2, l1, |l1| + 1);
    assert s[|l1| + 1..|l1| + 1 + |l2|] == l2;
    ReadStep(s, |l1| + 1, 1, l2, |l1| + |l2| + 2);
    var r := ReadLines(s, 0, 2);
    assert r.0 == [Line(l1, 0)] + ([Line(l2, |l1| + 1)] + []);
    assert r.0 == [Line(l1, 0), Line(l2, |l1| + 1)];
  }

  /** Reading the rest of a three-line file without a trailing newline. */
  lemma ThreeLinesTail(l1: string, l2: string, l3: string, n: nat)
    requires NEWLINE !in l3 && l3 != [] && n >= 1
    ensures ReadLines(l1 + [NEWLINE] + l2 + [NEWLINE] + l3, |l1| + |l2| + 2, n)
         == ([Line(l3, |l1| + |l2| + 2)], |l1| + |l2| + 2 + |l3|)
  {
    var s := l1 + [NEWLINE] + l2 + [NEWLINE] + l3;
    var p := |l1| + |l2| + 2;
    assert s[p..|s|] == l3;
    ReadStep(s, p, n, l3, |s|);
    assert ReadLines(s, |s|, n - 1) == ([], |s|);
    var r := ReadLines(s, p, n);
    assert r.0 == [Line(l3, p)] + [];
    assert r.0 == [Line(l3, p)];
    assert r.1 == |s|;
  }

  /**
   * `f` is picked when it is a candidate and every other candidate comes
   * after it in the configured order.
   */
  lemma FirstAfterIs(cfg: Config, snap: Snapshot, after: Option<FileKey>, f: FileEntry)
    requires f in snap && Candidate(cfg, f, after)
    requires forall g | g in snap && Candidate(cfg, g, after) && g != f :: KeyLess(cfg.readOrder, KeyOf(f), KeyOf(g))
    ensures FirstAfter(cfg, snap, after) == Some(f)
  {
    assert FirstAfter(cfg, snap, after).Some?;
  }

  /** A file directly inside a directory, named without a separator, is in it. */
  lemma InDirectoryDirectly(dir: string, name: string, recurse: bool)
    requires '/' !in name && name != []
    ensures InDirectory(dir, recurse, dir + "/" + name)
  {
    var path := dir + "/" + name;
    assert path[..|dir| + 1] == dir + "/";
    assert path[|dir| + 1..] == name;
  }

  /** Paths in the same directory compare as their names do. */
  lemma {:induction false} StrLessSamePrefix(dir: string, x: string, y: string)
    requires StrLess(x, y)
    ensures StrLess(dir + x, dir + y)
    decreases |dir|
  {
    if dir != [] {
      var a, b := dir + x, dir + y;
      assert |a| > 0 && |b| > 0 && a[0] == b[0];
      assert a[1..] == dir[1..] + x && b[1..] == dir[1..] + y;
      StrLessSamePrefix(dir[1..], x, y);
      assert StrLess(a[1..], b[1..]);
    } else {
      assert dir + x == x && dir + y == y;
    }
  }

  lemma Selectables(cfg: Config)
    requires cfg.spoolDir == "t" && !cfg.processSubDirectories
    ensures Selectable(cfg, A) && Selectable(cfg, B) && Selectable(cfg, C)
    ensures Selectable(cfg, LexB) && Selectable(cfg, LexC)
  {
    InDirectoryDirectly("t", "a.txt", false);
    InDirectoryDirectly("t", "b.txt", false);
    InDirectoryDirectly("t", "c.txt", false);
  }

  lemma NamesOrdered()
    ensures StrLess(A.path, B.path) && StrLess(B.path, C.path) && StrLess(A.path, C.path)
  {
    StrLessSamePrefix("t" + "/", "a.txt", "b.txt");
    StrLessSamePrefix("t" + "/", "b.txt", "c.txt");
    StrLessSamePrefix("t" + "/", "a.txt", "c.txt");
  }

  lemma NamesNotReversed()
    ensures !StrLess(B.path, A.path) && !StrLess(C.path, B.path) && !StrLess(C.path, A.path)
  {
    NamesOrdered();
    StrLessIrreflexive(A.path);
    StrLessIrreflexive(B.path);
    if StrLess(B.path, A.path) { StrLessTransitive(A.path, B.path, A.path); }
    if StrLess(C.path, B.path) { StrLessTransitive(B.path, C.path, B.path); }
    if StrLess(C.path, A.path) { StrLessTransitive(A.path, C.path, A.path); }
  }

  lemma PathsDistinct()
    ensures A.path != B.path && B.path != C.path && A.path != C.path
  {
    assert A.path[2] != B.path[2] && B.path[2] != C.path[2] && A.path[2] != C.path[2];
  }

  /** The base name of a path inside a directory is the name after the directory's separator. */
  lemma {:induction false} BaseNameIn(dir: string, name: string)
    requires '/' !in name
    ensures BaseName(dir + "/" + name) == name
    decreases |name|
  {
    var path := dir + "/" + name;
    if name != [] {
      var init := name[..|name| - 1];
      assert path[..|path| - 1] == dir + "/" + init;
      BaseNameIn(dir, init);
      assert name == init + [name[|name| - 1]];
    }
  }

  lemma BaseNames()
    ensures BaseName(A.path) == "a.txt" && BaseName(B.path) == "b.txt" && BaseName(C.path) == "c.txt"
  {
    BaseNameIn("t", "a.txt");
    BaseNameIn("t", "b.txt");
    BaseNameIn("t", "c.txt");
  }

  /** Two lines of a file become two records carrying its path, base name and the lines' offsets. */
  lemma TwoRecords(f: FileEntry, l1: Line, l2: Line)
    ensures ToRecords(f, [l1, l2]) == [Record(l1.text, f.path, BaseName(f.path), l1.start), Record(l2.text, f.path, BaseName(f.path), l2.start)]
  {
    var rs := ToRecords(f, [l1, l2]);
    assert rs[0] == Record(l1.text, f.path, BaseName(f.path), l1.start);
    assert rs[1] == Record(l2.text, f.path, BaseName(f.path), l2.start);
  }

  lemma RecordsOfA()
    ensures ReadFrom(A, 0, 3) == (Cursor(KeyOf(A), 7), [Record("123", A.path, "a.txt", 0), Record("456", A.path, "a.txt", 4)])
  {
    TwoLines("123", "456", 3);
    BaseNames();
    TwoRecords(A, Line("123", 0), Line("456", 4));
  }

  lemma RecordsOfB(f: FileEntry)
    requires f.path == B.path && f.contents == B.contents
    ensures ReadFrom(f, 0, 2) == (Cursor(KeyOf(f), 13), [Record("111213", B.path, "b.txt", 0), Record("141516", B.path, "b.txt", 7)])
  {
    TwoLines("111213", "141516", 2);
    BaseNames();
    TwoRecords(f, Line("111213", 0), Line("141516", 7));
  }

  lemma RecordsOfCHead(f: FileEntry)
    requires f.path == C.path && f.contents == C.contents
    ensures ReadFrom(f, 0, 2) == (Cursor(KeyOf(f), 20), [Record("111112113", C.path, "c.txt", 0), Record("114115116", C.path, "c.txt", 10)])
  {
    ThreeLinesHead("111112113", "114115116", "117118119");
    BaseNames();
    TwoRecords(f, Line("111112113", 0), Line("114115116", 10));
  }

  lemma RecordsOfCTail(f: FileEntry)
    requires f.path == C.path && f.contents == C.contents
    ensures ReadFrom(f, 20, 2) == (Cursor(KeyOf(f), 29), [Record("117118119", C.path, "c.txt", 20)])
  {
    ThreeLinesTail("111112113", "114115116", "117118119", 2);
    BaseNames();
    assert ToRecords(f, [Line("117118119", 20)]) == [Record("117118119", C.path, "c.txt", 20)];
  }

  /** The first call on an empty offset reads a.txt, the oldest file, to its end. */
  lemma LastModifiedFirstCall()
    ensures Produce(ByLastModified, Dir, NoOffset, 3)
         == (Cursor(KeyOf(A), 7), [Record("123", A.path, "a.txt", 0), Record("456", A.path, "a.txt", 4)])
  {
    Selectables(ByLastModified);
    FirstAfterIs(ByLastModified, Dir, None, A);
    RecordsOfA();
  }

  /** With a.txt finished, the next call starts c.txt and stops after two lines. */
  lemma LastModifiedSecondCall()
    ensures Produce(ByLastModified, Dir, Cursor(KeyOf(A), 7), 2)
         == (Cursor(KeyOf(C), 20), [Record("111112113", C.path, "c.txt", 0), Record("114115116", C.path, "c.txt", 10)])
  {
    Selectables(ByLastModified);
    assert FindPath(Dir, A.path) == Some(A);
    assert CurrentFile(ByLastModified, Dir, Cursor(KeyOf(A), 7)) == None;
    KeyLessIrreflexive(LastModified, KeyOf(A));
    FirstAfterIs(ByLastModified, Dir, Some(KeyOf(A)), C);
    RecordsOfCHead(C);
  }

  /** The third call resumes c.txt at byte 20 and reads its last line. */
  lemma LastModifiedThirdCall()
    ensures Produce(ByLastModified, Dir, Cursor(KeyOf(C), 20), 2)
         == (Cursor(KeyOf(C), 29), [Record("117118119", C.path, "c.txt", 20)])
  {
    Selectables(ByLastModified);
    PathsDistinct();
    assert FindPath(Dir, C.path) == Some(C);
    assert CurrentFile(ByLastModified, Dir, Cursor(KeyOf(C), 20)) == Some(C);
    RecordsOfCTail(C);
  }

  /** The fourth call moves on to b.txt, the newest file. */
  lemma LastModifiedFourthCall()
    ensures Produce(ByLastModified, Dir, Cursor(KeyOf(C), 29), 2)
         == (Cursor(KeyOf(B), 13), [Record("111213", B.path, "b.txt", 0), Record("141516", B.path, "b.txt", 7)])
  {
    Selectables(ByLastModified);
    PathsDistinct();
    assert FindPath(Dir, C.path) == Some(C);
    assert CurrentFile(ByLastModified, Dir, Cursor(KeyOf(C), 29)) == None;
    KeyLessIrreflexive(LastModified, KeyOf(C));
    FirstAfterIs(ByLastModified, Dir, Some(KeyOf(C)), B);
    RecordsOfB(B);
  }

  /** Once b.txt is read there is nothing left: no records and the offset stays. */
  lemma LastModifiedExhausted()
    ensures Produce(ByLastModified, Dir, Cursor(KeyOf(B), 13), 2) == (Cursor(KeyOf(B), 13), [])
  {
    PathsDistinct();
    assert FindPath(Dir, B.path) == Some(B);
    assert FirstAfter(ByLastModified, Dir, Some(KeyOf(B))) == None;
  }

  /** Read by name, a.txt comes first. */
  lemma ByNameFirstCall()
    ensures Produce(ByName, LexDir, NoOffset, 3)
         == (Cursor(KeyOf(A), 7), [Record("123", A.path, "a.txt", 0), Record("456", A.path, "a.txt", 4)])
  {
    Selectables(ByName);
    NamesOrdered();
    FirstAfterIs(ByName, LexDir, None, A);
    RecordsOfA();
  }

  /** ... then b.txt ... */
  lemma ByNameSecondCall()
    ensures Produce(ByName, LexDir, Cursor(KeyOf(A), 7), 2)
         == (Cursor(KeyOf(LexB), 13), [Record("111213", B.path, "b.txt", 0), Record("141516", B.path, "b.txt", 7)])
  {
    Selectables(ByName);
    NamesOrdered();
    assert FindPath(LexDir, A.path) == Some(A);
    assert CurrentFile(ByName, LexDir, Cursor(KeyOf(A), 7)) == None;
    KeyLessIrreflexive(Lexicographical, KeyOf(A));
    FirstAfterIs(ByName, LexDir, Some(KeyOf(A)), LexB);
    RecordsOfB(LexB);
  }

  /** By name, c.txt is the only file after b.txt. */
  lemma ByNameAfterB()
    ensures FirstAfter(ByName, LexDir, Some(KeyOf(LexB))) == Some(LexC)
  {
    Selectables(ByName);
    NamesOrdered();
    PathsDistinct();
    KeyLessIrreflexive(Lexicographical, KeyOf(LexB));
    NamesNotReversed();
    FirstAfterIs(ByName, LexDir, Some(KeyOf(LexB)), LexC);
  }

  /** ... then c.txt, two lines at a time ... */
  lemma ByNameThirdCall()
    ensures Produce(ByName, LexDir, Cursor(KeyOf(LexB), 13), 2)
         == (Cursor(KeyOf(LexC), 20), [Record("111112113", C.path, "c.txt", 0), Record("114115116", C.path, "c.txt", 10)])
  {
    PathsDistinct();
    assert FindPath(LexDir, B.path) == Some(LexB);
    assert CurrentFile(ByName, LexDir, Cursor(KeyOf(LexB), 13)) == None;
    ByNameAfterB();
    RecordsOfCHead(LexC);
  }

  /** ... and c.txt's last line. */
  lemma ByNameFourthCall()
    ensures Produce(ByName, LexDir, Cursor(KeyOf(LexC), 20), 2)
         == (Cursor(KeyOf(LexC), 29), [Record("117118119", C.path, "c.txt", 20)])
  {
    Selectables(ByName);
    PathsDistinct();
    assert FindPath(LexDir, C.path) == Some(LexC);
    assert CurrentFile(ByName, LexDir, Cursor(KeyOf(LexC), 20)) == Some(LexC);
    RecordsOfCTail(LexC);
  }

  /** A non-empty line with no newline is read whole: one line at byte 0, and reading stops at the end. */
  lemma OneLine(s: string, n: nat)
    requires s != [] && NEWLINE !in s && n >= 1
    ensures ReadLines(s, 0, n) == ([Line(s, 0)], |s|)
  {
    assert s[0..|s|] == s;
    ReadStep(s, 0, n, s, |s|);
    assert ReadLines(s, |s|, n - 1) == ([], |s|);
    assert [Line(s, 0)] + [] == [Line(s, 0)];
  }

  /** No file started yet, or a cursor at the very end of a file of the snapshot. */
  predicate AtFileEnd(snap: Snapshot, offset: Offset)
  {
    offset.Cursor? ==> exists g | g in snap :: KeyOf(g) == offset.file && offset.pos == |g.contents|
  }

  /** From the end of a file, no file is current and the next one in the order is picked. */
  lemma NothingCurrentAtFileEnd(cfg: Config, snap: Snapshot, offset: Offset)
    requires DistinctPaths(snap) && AtFileEnd(snap, offset)
    ensures CurrentFile(cfg, snap, offset) == None
  {
    if offset.Cursor? {
      var g :| g in snap && KeyOf(g) == offset.file && offset.pos == |g.contents|;
      FindPathFinds(snap, g);
    }
  }

  /**
   * When every file is a single line without a trailing newline, as in the
   * sub-directory test, each call returns exactly one record: the whole of the
   * next file in the order, at offset 0, and leaves the cursor at that file's
   * end, ready for the next call. When no file is left, the offset stays.
   */
  lemma OneLineFilesOneRecordPerCall(cfg: Config, snap: Snapshot, offset: Offset, batchSize: nat)
    requires DistinctPaths(snap) && batchSize >= 1
    requires forall g | g in snap :: g.contents != [] && NEWLINE !in g.contents
    requires AtFileEnd(snap, offset)
    ensures FirstAfter(cfg, snap, AfterKey(offset)).None? ==> Produce(cfg, snap, offset, batchSize) == (offset, [])
    ensures FirstAfter(cfg, snap, AfterKey(offset)).Some? ==>
      Produce(cfg, snap, offset, batchSize)
        == (Cursor(KeyOf(FirstAfter(cfg, snap, AfterKey(offset)).value), |FirstAfter(cfg, snap, AfterKey(offset)).value.contents|),
            [Record(FirstAfter(cfg, snap, AfterKey(offset)).value.contents, FirstAfter(cfg, snap, AfterKey(offset)).value.path,
                    BaseName(FirstAfter(cfg, snap, AfterKey(offset)).value.path), 0)])
    ensures AtFileEnd(snap, Produce(cfg, snap, offset, batchSize).0)
  {
    NothingCurrentAtFileEnd(cfg, snap, offset);
    var next := FirstAfter(cfg, snap, AfterKey(offset));
    if next.Some? {
      var f := next.value;
      OneLine(f.contents, batchSize);
      assert ToRecords(f, [Line(f.contents, 0)]) == [Record(f.contents, f.path, BaseName(f.path), 0)];
    }
  }

  /** With sub-directory processing on, a file at any depth below the spool directory is read; with it off, only files directly in it. */
  lemma NestedOnlyWhenRecursing(dir: string, rest: string)
    requires rest != []
    ensures InDirectory(dir, true, dir + "/" + rest)
    ensures InDirectory(dir, false, dir + "/" + rest) <==> '/' !in rest
  {
    var path := dir + "/" + rest;
    assert path[..|dir| + 1] == dir + "/";
    assert path[|dir| + 1..] == rest;
  }

  /** The records of the first call carry the header values the origin's tests expect. */
  lemma FirstCallHeaders()
    ensures Headers(Record("456", A.path, "a.txt", 4)) == map[FILE := "t/a.txt", FILE_NAME := "a.txt", OFFSET := "4"]
  {
    assert A.path == "t/a.txt";
  }
}
