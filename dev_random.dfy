/**
 * The dev-random origin: a comma-separated list of field names, and batches
 * of records whose fields hold pseudo-random numbers. The generator is
 * created afresh with seed 99 on every call, so every call draws the same
 * numbers; the model takes that sequence of draws as a constant of the
 * stage.
 */
module DevRandom {
  import opened Wrappers
  import opened Sequences

  /** What one draw of the generator yields: a non-negative 63-bit integer. */
  type Int63 = x: int | 0 <= x < 0x8000_0000_0000_0000

  const SEPARATOR: char := ','

  /** The offset every call returns. */
  const RANDOM_OFFSET: string := "random"

  /** The source id every record is created with. */
  const SOURCE_ID: string := "dev-random"

  /**
   * The pieces of `s` between separators, as Go's strings.Split cuts them:
   * one more piece than there are separators, the empty string giving one
   * empty piece.
   */
  function Split(s: string): (parts: seq<string>)
    ensures |parts| >= 1
    decreases |s|
  {
    var i := IndexFrom(s, SEPARATOR, 0);
    if i == |s| then [s] else [s[..i]] + Split(s[i + 1..])
  }

  /** The pieces put back together with a separator between each two. */
  function Join(parts: seq<string>): string
  {
    if parts == [] then "" else if |parts| == 1 then parts[0] else parts[0] + [SEPARATOR] + Join(parts[1..])
  }

  function SeparatorCount(s: string): nat
  {
    if s == [] then 0 else (if s[0] == SEPARATOR then 1 else 0) + SeparatorCount(s[1..])
  }

  lemma {:induction false} SeparatorCountAppend(a: string, b: string)
    ensures SeparatorCount(a + b) == SeparatorCount(a) + SeparatorCount(b)
  {
    if a != [] {
      assert (a + b)[1..] == a[1..] + b;
      SeparatorCountAppend(a[1..], b);
    } else {
      assert a + b == b;
    }
  }

  lemma {:induction false} NoSeparatorNoCount(s: string)
    requires SEPARATOR !in s
    ensures SeparatorCount(s) == 0
  {
    if s != [] {
      assert forall c | c in s[1..] :: c in s;
      NoSeparatorNoCount(s[1..]);
    }
  }

  /** A string with no separator is one piece. */
  lemma SplitWhole(s: string)
    requires SEPARATOR !in s
    ensures Split(s) == [s]
  {
    assert forall k | 0 <= k < |s| :: s[k] in s;
  }

  /** Cutting at the first separator: the piece before it, then the pieces of the rest. */
  lemma SplitAtFirst(head: string, tail: string)
    requires SEPARATOR !in head
    ensures Split(head + [SEPARATOR] + tail) == [head] + Split(tail)
  {
    var s := head + [SEPARATOR] + tail;
    assert s[|head|] == SEPARATOR;
    assert forall k | 0 <= k < |head| :: s[k] == head[k] && head[k] in head;
    var i := IndexFrom(s, SEPARATOR, 0);
    assert i == |head|;
    assert s[..i] == head && s[i + 1..] == tail;
  }

  /** Either `s` has no separator, or it is a separator-free head, a separator and a tail. */
  lemma SplitCases(s: string) returns (i: nat)
    ensures i <= |s|
    ensures i == |s| ==> SEPARATOR !in s
    ensures i < |s| ==> SEPARATOR !in s[..i] && s == s[..i] + [SEPARATOR] + s[i + 1..]
  {
    i := IndexFrom(s, SEPARATOR, 0);
    if i == |s| {
      forall k | 0 <= k < |s| ensures s[k] != SEPARATOR { }
    } else {
      forall k | 0 <= k < i ensures s[..i][k] != SEPARATOR { assert s[..i][k] == s[k]; }
      assert s == s[..i] + [SEPARATOR] + s[i + 1..];
    }
  }

  /** Joining the pieces with separators gives the string back. */
  lemma {:induction false} JoinSplit(s: string)
    ensures Join(Split(s)) == s
    decreases |s|
  {
    var i := SplitCases(s);
    if i == |s| {
      SplitWhole(s);
    } else {
      var head, tail := s[..i], s[i + 1..];
      SplitAtFirst(head, tail);
      JoinSplit(tail);
    }
  }

  /** No piece holds a separator. */
  lemma {:induction false} SplitPiecesClean(s: string)
    ensures forall k | 0 <= k < |Split(s)| :: SEPARATOR !in Split(s)[k]
    decreases |s|
  {
    var i := SplitCases(s);
    if i == |s| {
      SplitWhole(s);
    } else {
      var head, tail := s[..i], s[i + 1..];
      SplitAtFirst(head, tail);
      SplitPiecesClean(tail);
      forall k | 0 <= k < |Split(s)|
        ensures SEPARATOR !in Split(s)[k]
      {
        if k > 0 { assert Split(s)[k] == Split(tail)[k - 1]; }
      }
    }
  }

  /** There is one piece more than there are separators. */
  lemma {:induction false} SplitCount(s: string)
    ensures |Split(s)| == SeparatorCount(s) + 1
    decreases |s|
  {
    var i := SplitCases(s);
    if i == |s| {
      SplitWhole(s);
      NoSeparatorNoCount(s);
    } else {
      var head, tail := s[..i], s[i + 1..];
      SplitAtFirst(head, tail);
      SplitCount(tail);
      NoSeparatorNoCount(head);
      SeparatorCountAppend(head + [SEPARATOR], tail);
      SeparatorCountAppend(head, [SEPARATOR]);
    }
  }

  /** A record as the batch maker receives it: its source id and its value, one entry per field. */
  datatype Record = Record(sourceId: string, value: map<string, int>)

  /**
   * The value built for one record: each field in list order is assigned the
   * next draw, starting with draw `first`; a field listed twice keeps the
   * later draw.
   */
  function RecordValue(fields: seq<string>, draws: nat -> Int63, first: nat): map<string, int>
  {
    if fields == [] then map[]
    else RecordValue(fields[..|fields| - 1], draws, first)[fields[|fields| - 1] := draws(first + |fields| - 1)]
  }

  lemma RecordValueStep(fields: seq<string>, draws: nat -> Int63, first: nat, j: nat)
    requires j < |fields|
    ensures RecordValue(fields[..j + 1], draws, first) == RecordValue(fields[..j], draws, first)[fields[j] := draws(first + j)]
  {
    assert fields[..j + 1][..j] == fields[..j];
  }

  /** The position of the last occurrence of `f`. */
  function LastIndex(fields: seq<string>, f: string): (i: nat)
    requires f in fields
    ensures i < |fields| && fields[i] == f
    ensures forall j | i < j < |fields| :: fields[j] != f
  {
    if fields[|fields| - 1] == f then |fields| - 1 else LastIndex(fields[..|fields| - 1], f)
  }

  /** The distinct names in a field list. */
  function FieldSet(fields: seq<string>): set<string>
  {
    set f | f in fields
  }

  /** A record's keys are exactly the listed fields. */
  lemma {:induction false} RecordValueKeys(fields: seq<string>, draws: nat -> Int63, first: nat)
    ensures RecordValue(fields, draws, first).Keys == FieldSet(fields)
  {
    if fields != [] {
      var init := fields[..|fields| - 1];
      RecordValueKeys(init, draws, first);
      assert fields == init + [fields[|fields| - 1]];
      assert FieldSet(fields) == FieldSet(init) + {fields[|fields| - 1]};
    }
  }

  /** Each field holds the draw of its last position in the list. */
  lemma {:induction false} RecordValueDraws(fields: seq<string>, draws: nat -> Int63, first: nat)
    ensures forall f | f in fields ::
      (f in RecordValue(fields, draws, first) && RecordValue(fields, draws, first)[f] == draws(first + LastIndex(fields, f)))
  {
    if fields != [] {
      var init := fields[..|fields| - 1];
      var last := fields[|fields| - 1];
      RecordValueDraws(init, draws, first);
      assert fields == init + [last];
      forall f | f in fields
        ensures f in RecordValue(fields, draws, first) && RecordValue(fields, draws, first)[f] == draws(first + LastIndex(fields, f))
      {
        if f != last {
          assert f in init;
        }
      }
    }
  }

  /** The records added to the batch by the first `attempts` attempts. */
  function Added(fields: seq<string>, draws: nat -> Int63, createError: nat -> Option<string>, attempts: nat): seq<Record>
  {
    if attempts == 0 then []
    else
      var i := attempts - 1;
      Added(fields, draws, createError, i)
        + (if createError(i).None? then [Record(SOURCE_ID, RecordValue(fields, draws, i * |fields|))] else [])
  }

  /** The errors sent to the error sink by the first `attempts` attempts. */
  function Errored(createError: nat -> Option<string>, attempts: nat): seq<string>
  {
    if attempts == 0 then []
    else
      var i := attempts - 1;
      Errored(createError, i) + (if createError(i).Some? then [createError(i).value] else [])
  }

  lemma AttemptStep(fields: seq<string>, draws: nat -> Int63, createError: nat -> Option<string>, i: nat)
    ensures createError(i).None? ==>
      Added(fields, draws, createError, i + 1) == Added(fields, draws, createError, i) + [Record(SOURCE_ID, RecordValue(fields, draws, i * |fields|))]
      && Errored(createError, i + 1) == Errored(createError, i)
    ensures createError(i).Some? ==>
      Added(fields, draws, createError, i + 1) == Added(fields, draws, createError, i)
      && Errored(createError, i + 1) == Errored(createError, i) + [createError(i).value]
  {
  }

  /**
   * Every attempt ends in the batch or in the error sink, and every added
   * record carries the source id and one key per listed field.
   */
  lemma {:induction false} AttemptsAccounted(fields: seq<string>, draws: nat -> Int63, createError: nat -> Option<string>, attempts: nat)
    ensures |Added(fields, draws, createError, attempts)| + |Errored(createError, attempts)| == attempts
    ensures forall k | 0 <= k < |Added(fields, draws, createError, attempts)| ::
      Added(fields, draws, createError, attempts)[k].sourceId == SOURCE_ID
      && Added(fields, draws, createError, attempts)[k].value.Keys == FieldSet(fields)
  {
    if attempts > 0 {
      var i := attempts - 1;
      AttemptsAccounted(fields, draws, createError, i);
      RecordValueKeys(fields, draws, i * |fields|);
    }
  }

  /** With no failures the batch holds one record per attempt, the i-th built from draws i*n to i*n+n-1. */
  lemma {:induction false} AllAdded(fields: seq<string>, draws: nat -> Int63, createError: nat -> Option<string>, attempts: nat)
    requires forall i | 0 <= i < attempts :: createError(i).None?
    ensures |Added(fields, draws, createError, attempts)| == attempts
    ensures forall i | 0 <= i < attempts ::
      Added(fields, draws, createError, attempts)[i] == Record(SOURCE_ID, RecordValue(fields, draws, i * |fields|))
  {
    if attempts > 0 {
      AllAdded(fields, draws, createError, attempts - 1);
    }
  }

  /** Receives the records a call produces. */
  class BatchMaker {
    var records: seq<Record>

    constructor ()
      ensures records == []
    {
      records := [];
    }

    method AddRecord(r: Record)
      modifies this
      ensures records == old(records) + [r]
    {
      records := records + [r];
    }
  }

  /** Receives the errors of records that could not be created. */
  class ErrorSink {
    var errors: seq<string>

    constructor ()
      ensures errors == []
    {
      errors := [];
    }

    method ToError(err: string)
      modifies this
      ensures errors == old(errors) + [err]
    {
      errors := errors + [err];
    }
  }

  class DevRandomSource {
    /** The configured comma-separated field names. */
    var fields: string
    var fieldsList: seq<string>
    /** The draws of a generator freshly seeded with 99. */
    const seeded: nat -> Int63

    constructor (fields: string, seeded: nat -> Int63)
      ensures this.fields == fields && fieldsList == [] && this.seeded == seeded
    {
      this.fields := fields;
      fieldsList := [];
      this.seeded := seeded;
    }

    /** Init: a failing base-stage initialisation is returned as is; otherwise the field list is the configured names split at commas. */
    method Init(baseError: Option<string>) returns (err: Option<string>)
      modifies this
      ensures err == baseError
      ensures fields == old(fields)
      ensures baseError.Some? ==> fieldsList == old(fieldsList)
      ensures baseError.None? ==> fieldsList == Split(fields)
    {
      if baseError.Some? {
        return baseError;
      }
      fieldsList := Split(fields);
      err := None;
    }

    /**
     * Produce: `maxBatchSize` attempts (none when it is not positive); each
     * builds a record value from the next draws and either adds the record
     * to the batch or, when `createError` says the i-th creation fails,
     * sends the error to the sink. The offset is always "random".
     */
    method Produce(lastSourceOffset: string, maxBatchSize: int, createError: nat -> Option<string>,
                   batchMaker: BatchMaker, errorSink: ErrorSink)
      returns (offset: string, err: Option<string>)
      modifies batchMaker, errorSink
      ensures offset == RANDOM_OFFSET && err == None
      ensures batchMaker.records == old(batchMaker.records) + Added(fieldsList, seeded, createError, if maxBatchSize > 0 then maxBatchSize else 0)
      ensures errorSink.errors == old(errorSink.errors) + Errored(createError, if maxBatchSize > 0 then maxBatchSize else 0)
    {
      var drawn := 0;
      var i := 0;
      while i < maxBatchSize
        invariant 0 <= i && (maxBatchSize > 0 ==> i <= maxBatchSize) && (maxBatchSize <= 0 ==> i == 0)
        invariant drawn == i * |fieldsList|
        invariant batchMaker.records == old(batchMaker.records) + Added(fieldsList, seeded, createError, i)
        invariant errorSink.errors == old(errorSink.errors) + Errored(createError, i)
      {
        var recordValue: map<string, int> := map[];
        ghost var first := drawn;
        var j := 0;
        while j < |fieldsList|
          modifies {}
          invariant 0 <= j <= |fieldsList|
          invariant drawn == first + j
          invariant recordValue == RecordValue(fieldsList[..j], seeded, first)
        {
          RecordValueStep(fieldsList, seeded, first, j);
          recordValue := recordValue[fieldsList[j] := seeded(drawn)];
          drawn := drawn + 1;
          j := j + 1;
        }
        assert fieldsList[..j] == fieldsList;
        AttemptStep(fieldsList, seeded, createError, i);
        assert drawn == (i + 1) * |fieldsList| by {
          assert (i + 1) * |fieldsList| == i * |fieldsList| + |fieldsList|;
        }
        if createError(i).None? {
          batchMaker.AddRecord(Record(SOURCE_ID, recordValue));
        } else {
          errorSink.ToError(createError(i).value);
        }
        i := i + 1;
      }
      offset, err := RANDOM_OFFSET, None;
    }
  }

  /** Two calls on the same stage produce the same records, whatever offset each is given. */
  method ProduceTwice(source: DevRandomSource, maxBatchSize: int, createError: nat -> Option<string>)
    returns (first: seq<Record>, second: seq<Record>)
    ensures first == second
    ensures |first| + |Errored(createError, if maxBatchSize > 0 then maxBatchSize else 0)| == if maxBatchSize > 0 then maxBatchSize else 0
  {
    var batch1 := new BatchMaker();
    var sink1 := new ErrorSink();
    var _, _ := source.Produce("", maxBatchSize, createError, batch1, sink1);
    var batch2 := new BatchMaker();
    var sink2 := new ErrorSink();
    var _, _ := source.Produce(RANDOM_OFFSET, maxBatchSize, createError, batch2, sink2);
    first, second := batch1.records, batch2.records;
    AttemptsAccounted(source.fieldsList, source.seeded, createError, if maxBatchSize > 0 then maxBatchSize else 0);
  }
}
