/**
 * File ordering for the file spooler origin. A directory snapshot is a
 * sequence of files; the spooler visits them either in byte-wise
 * lexicographic order of their full paths or in ascending order of their
 * last-modified times (path breaking ties). The next file to read is always
 * the smallest eligible file strictly after the file last read.
 */
module SpoolerOrder {
  import opened Wrappers

  datatype ReadOrder = Lexicographical | LastModified

  /** A file in the directory snapshot: its full path, modification time and contents. */
  datatype FileEntry = FileEntry(path: string, mtime: int, contents: string)

  type Snapshot = seq<FileEntry>

  /** What the ordering looks at: modification time and full path. */
  datatype FileKey = FileKey(mtime: int, path: string)

  function KeyOf(f: FileEntry): FileKey
  {
    FileKey(f.mtime, f.path)
  }

  /** A real directory never holds two files with the same path. */
  predicate DistinctPaths(snap: Snapshot)
  {
    forall i, j | 0 <= i < j < |snap| :: snap[i].path != snap[j].path
  }

  /** Byte-wise lexicographic "strictly less" on strings. */
  predicate StrLess(a: string, b: string)
  {
    if |a| == 0 then |b| > 0
    else if |b| == 0 then false
    else if a[0] != b[0] then a[0] < b[0]
    else StrLess(a[1..], b[1..])
  }

  lemma {:induction false} StrLessIrreflexive(a: string)
    ensures !StrLess(a, a)
  {
    if |a| > 0 { StrLessIrreflexive(a[1..]); }
  }

  lemma {:induction false} StrLessTransitive(a: string, b: string, c: string)
    requires StrLess(a, b) && StrLess(b, c)
    ensures StrLess(a, c)
  {
    if |a| > 0 && |b| > 0 && |c| > 0 && a[0] == b[0] && b[0] == c[0] {
      StrLessTransitive(a[1..], b[1..], c[1..]);
    }
  }

  lemma {:induction false} StrLessTotal(a: string, b: string)
    requires a != b
    ensures StrLess(a, b) || StrLess(b, a)
  {
    if |a| > 0 && |b| > 0 && a[0] == b[0] {
      assert a == [a[0]] + a[1..] && b == [b[0]] + b[1..];
      StrLessTotal(a[1..], b[1..]);
    }
  }

  /** The spooler's order on files: by path, or by modification time and then path. */
  predicate KeyLess(order: ReadOrder, a: FileKey, b: FileKey)
  {
    match order
    case Lexicographical => StrLess(a.path, b.path)
    case LastModified => a.mtime < b.mtime || (a.mtime == b.mtime && StrLess(a.path, b.path))
  }

  lemma KeyLessIrreflexive(order: ReadOrder, a: FileKey)
    ensures !KeyLess(order, a, a)
  {
    StrLessIrreflexive(a.path);
  }

  lemma KeyLessTransitive(order: ReadOrder, a: FileKey, b: FileKey, c: FileKey)
    requires KeyLess(order, a, b) && KeyLess(order, b, c)
    ensures KeyLess(order, a, c)
  {
    if StrLess(a.path, b.path) && StrLess(b.path, c.path) {
      StrLessTransitive(a.path, b.path, c.path);
    }
  }

  /** Two files with different paths are always ordered one way or the other. */
  lemma KeyLessTotal(order: ReadOrder, a: FileKey, b: FileKey)
    requires a.path != b.path
    ensures KeyLess(order, a, b) || KeyLess(order, b, a)
  {
    StrLessTotal(a.path, b.path);
  }

  /** Is `path` a file name inside `dir`, directly or (when `recurse` holds) at any depth? */
  predicate InDirectory(dir: string, recurse: bool, path: string)
  {
    && |path| > |dir| + 1
    && path[..|dir| + 1] == dir + "/"
    && (recurse || '/' !in path[|dir| + 1..])
  }

  /** The spooler's settings that decide which files it reads and in which order. */
  datatype Config = Config(spoolDir: string, processSubDirectories: bool, readOrder: ReadOrder)

  /** A file the spooler reads: inside the spool directory and holding at least one byte. */
  predicate Selectable(cfg: Config, f: FileEntry)
  {
    InDirectory(cfg.spoolDir, cfg.processSubDirectories, f.path) && |f.contents| > 0
  }

  /** A file that may be picked next: selectable and strictly after `after` (any file when there is no `after`). */
  predicate Candidate(cfg: Config, f: FileEntry, after: Option<FileKey>)
  {
    Selectable(cfg, f) && (after.None? || KeyLess(cfg.readOrder, after.value, KeyOf(f)))
  }

  /** The first candidate in the configured order, found by one scan of the snapshot. */
  function FirstAfter(cfg: Config, snap: Snapshot, after: Option<FileKey>): (r: Option<FileEntry>)
    ensures r.Some? ==> r.value in snap && Candidate(cfg, r.value, after)
    ensures r.Some? ==> forall g | g in snap && Candidate(cfg, g, after) :: !KeyLess(cfg.readOrder, KeyOf(g), KeyOf(r.value))
    ensures r.None? <==> forall g | g in snap :: !Candidate(cfg, g, after)
  {
    if snap == [] then None
    else
      var rest := FirstAfter(cfg, snap[1..], after);
      if !Candidate(cfg, snap[0], after) then rest
      else if rest.None? || KeyLess(cfg.readOrder, KeyOf(snap[0]), KeyOf(rest.value)) then
        assert forall g | g in snap[1..] && Candidate(cfg, g, after) :: !KeyLess(cfg.readOrder, KeyOf(g), KeyOf(snap[0])) by {
          forall g | g in snap[1..] && Candidate(cfg, g, after)
            ensures !KeyLess(cfg.readOrder, KeyOf(g), KeyOf(snap[0]))
          {
            if KeyLess(cfg.readOrder, KeyOf(g), KeyOf(snap[0])) {
              KeyLessTransitive(cfg.readOrder, KeyOf(g), KeyOf(snap[0]), KeyOf(rest.value));
            }
          }
        }
        KeyLessIrreflexive(cfg.readOrder, KeyOf(snap[0]));
        Some(snap[0])
      else rest
  }

  /** In a snapshot with distinct paths, the chosen file is strictly before every other candidate. */
  lemma FirstAfterIsLeast(cfg: Config, snap: Snapshot, after: Option<FileKey>, g: FileEntry)
    requires DistinctPaths(snap)
    requires g in snap && Candidate(cfg, g, after)
    ensures FirstAfter(cfg, snap, after).Some?
    ensures var f := FirstAfter(cfg, snap, after).value;
      g == f || KeyLess(cfg.readOrder, KeyOf(f), KeyOf(g))
  {
    var f := FirstAfter(cfg, snap, after).value;
    if g != f {
      var i, j :| 0 <= i < |snap| && 0 <= j < |snap| && snap[i] == g && snap[j] == f;
      assert g.path != f.path by {
        if i < j { assert snap[i].path != snap[j].path; }
        else if j < i { assert snap[j].path != snap[i].path; }
      }
      KeyLessTotal(cfg.readOrder, KeyOf(f), KeyOf(g));
    }
  }
}
