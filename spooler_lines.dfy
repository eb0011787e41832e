/**
 * Line splitting for the file spooler origin: a file's contents are cut at
 * every newline, and each line remembers the byte position where it starts.
 * A final line that has no trailing newline is still a line.
 */
module SpoolerLines {
  import opened Sequences

  const NEWLINE: char := '\n'

  /** One line of a file: its text (without the newline) and the byte index where it starts. */
  datatype Line = Line(text: string, start: nat)

  /** Where the line after the one starting at `from` begins: past the newline, or at the end. */
  function NextStart(s: string, from: nat): (n: nat)
    requires from < |s|
    ensures from < n <= |s|
  {
    var e := IndexFrom(s, NEWLINE, from);
    if e < |s| then e + 1 else |s|
  }

  /** Every line of `s` that starts at or after `pos`, in file order. */
  function LinesFrom(s: string, pos: nat): seq<Line>
    requires pos <= |s|
    decreases |s| - pos
  {
    if pos == |s| then []
    else [Line(s[pos..IndexFrom(s, NEWLINE, pos)], pos)] + LinesFrom(s, NextStart(s, pos))
  }

  /**
   * Reads at most `n` lines starting at byte `pos`; returns them and the byte
   * position where reading stopped. What is read, followed by what is left
   * from the returned position, is exactly what was left before.
   */
  function ReadLines(s: string, pos: nat, n: nat): (r: (seq<Line>, nat))
    requires pos <= |s|
    ensures pos <= r.1 <= |s|
    ensures |r.0| <= n
    ensures |r.0| == n || r.1 == |s|
    ensures LinesFrom(s, pos) == r.0 + LinesFrom(s, r.1)
    ensures r.0 == [] <==> (n == 0 || pos == |s|)
    decreases n
  {
    if n == 0 || pos == |s| then ([], pos)
    else
      var line := Line(s[pos..IndexFrom(s, NEWLINE, pos)], pos);
      var rest := ReadLines(s, NextStart(s, pos), n - 1);
      assert LinesFrom(s, pos) == [line] + LinesFrom(s, NextStart(s, pos));
      assert LinesFrom(s, pos) == ([line] + rest.0) + LinesFrom(s, rest.1);
      ([line] + rest.0, rest.1)
  }

  /** The bytes a sequence of lines stands for: each text followed by a newline. */
  function Unlines(lines: seq<Line>): string
  {
    if lines == [] then "" else lines[0].text + [NEWLINE] + Unlines(lines[1..])
  }

  /** `s` ends without a newline, so its last line is unterminated. */
  predicate UnterminatedTail(s: string)
  {
    |s| > 0 && s[|s| - 1] != NEWLINE
  }

  /**
   * Line splitting loses and invents nothing: putting the lines back together
   * gives the unread bytes, plus the one newline the last line lacked.
   */
  lemma {:induction false} LinesCoverRest(s: string, pos: nat)
    requires pos <= |s|
    ensures Unlines(LinesFrom(s, pos)) == s[pos..] + (if pos < |s| && UnterminatedTail(s) then [NEWLINE] else [])
    decreases |s| - pos
  {
    if pos < |s| {
      var e := IndexFrom(s, NEWLINE, pos);
      var n := NextStart(s, pos);
      LinesCoverRest(s, n);
      var lines := LinesFrom(s, pos);
      assert lines[0].text == s[pos..e] && lines[1..] == LinesFrom(s, n);
      assert Unlines(lines) == s[pos..e] + [NEWLINE] + Unlines(LinesFrom(s, n));
      if e < |s| {
        assert s[pos..] == s[pos..e] + [NEWLINE] + s[n..];
      } else {
        assert n == |s| && s[pos..] == s[pos..e];
      }
    }
  }

  /** No line's text holds a newline. */
  lemma {:induction false} LinesHaveNoNewline(s: string, pos: nat)
    requires pos <= |s|
    ensures forall i | 0 <= i < |LinesFrom(s, pos)| :: NEWLINE !in LinesFrom(s, pos)[i].text
    decreases |s| - pos
  {
    if pos < |s| {
      var n := NextStart(s, pos);
      LinesHaveNoNewline(s, n);
      var lines := LinesFrom(s, pos);
      assert lines[1..] == LinesFrom(s, n);
      assert NEWLINE !in lines[0].text by {
        forall k | 0 <= k < |lines[0].text| ensures lines[0].text[k] != NEWLINE {
          assert lines[0].text[k] == s[pos + k];
        }
      }
      forall i | 0 <= i < |lines|
        ensures NEWLINE !in lines[i].text
      {
        if i > 0 { assert lines[i] == lines[1..][i - 1]; }
      }
    }
  }

  /** Each line's start is the number of bytes that the earlier lines (with their newlines) occupy. */
  lemma {:induction false} LineStartsAreByteOffsets(s: string, pos: nat, i: nat)
    requires pos <= |s|
    requires i < |LinesFrom(s, pos)|
    ensures LinesFrom(s, pos)[i].start == pos + |Unlines(LinesFrom(s, pos)[..i])|
    decreases |s| - pos
  {
    var lines := LinesFrom(s, pos);
    if i > 0 {
      var n := NextStart(s, pos);
      LineStartsAreByteOffsets(s, n, i - 1);
      assert lines[1..] == LinesFrom(s, n);
      assert lines[..i][1..] == LinesFrom(s, n)[..i - 1];
      assert IndexFrom(s, NEWLINE, pos) < |s|;
    }
  }
}
