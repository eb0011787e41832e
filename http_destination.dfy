/**
 * The HTTP client destination: its configuration is read from named stage
 * settings, and each batch is sent either as one request per record or as a
 * single request whose body holds every record followed by a newline.
 *
 * The network is a Transport object that records the requests it is given and
 * answers the k-th request with `replyTo(k)`. JSON encoding of non-string
 * values is a function parameter that may fail.
 */
module HttpDestination {
  import opened Wrappers
  import opened Sequences

  newtype byte = x: int | 0 <= x < 256

  type Bytes = seq<byte>

  /** The byte that ends each record in a single-request body. */
  const NEWLINE: byte := 10

  /** A record value: a Go string (its bytes) or any other value. */
  datatype Value =
    | Str(bytes: Bytes)
    | Num(n: int)
    | Flag(b: bool)
    | List(items: seq<Value>)
    | Object(entries: map<string, Value>)
    | Null

  /** A configuration value after resolution. */
  datatype ConfigValue =
    | CStr(s: string)
    | CBool(b: bool)
    | CList(items: seq<ConfigValue>)
    | CMap(entries: map<string, ConfigValue>)

  datatype ConfigEntry = ConfigEntry(name: string, value: ConfigValue)

  const RESOURCE_URL: string := "conf.resourceUrl"
  const HEADERS: string := "conf.headers"
  const SINGLE_REQUEST_PER_BATCH: string := "conf.singleRequestPerBatch"
  const HTTP_COMPRESSION: string := "conf.client.httpCompression"
  const TLS_ENABLED: string := "conf.client.tlsConfig.tlsEnabled"
  const TRUST_STORE_FILE_PATH: string := "conf.client.tlsConfig.trustStoreFilePath"

  const KnownNames: set<string> :=
    {RESOURCE_URL, HEADERS, SINGLE_REQUEST_PER_BATCH, HTTP_COMPRESSION, TLS_ENABLED, TRUST_STORE_FILE_PATH}

  /** The destination's settings, as its fields hold them. */
  datatype Settings = Settings(
    resourceUrl: string,
    headers: seq<ConfigValue>,
    singleRequestPerBatch: bool,
    httpCompression: string,
    tlsEnabled: bool,
    trustStoreFilePath: string)

  /** The settings a field holds, seen as the configuration value that would set it. */
  function Get(s: Settings, name: string): (v: ConfigValue)
    requires name in KnownNames
  {
    if name == RESOURCE_URL then CStr(s.resourceUrl)
    else if name == HEADERS then CList(s.headers)
    else if name == SINGLE_REQUEST_PER_BATCH then CBool(s.singleRequestPerBatch)
    else if name == HTTP_COMPRESSION then CStr(s.httpCompression)
    else if name == TLS_ENABLED then CBool(s.tlsEnabled)
    else CStr(s.trustStoreFilePath)
  }

  /** The entry's value has the type its field needs (a string, a list or a boolean). */
  predicate WellTyped(e: ConfigEntry)
  {
    && (e.name in {RESOURCE_URL, HTTP_COMPRESSION, TRUST_STORE_FILE_PATH} ==> e.value.CStr?)
    && (e.name == HEADERS ==> e.value.CList?)
    && (e.name in {SINGLE_REQUEST_PER_BATCH, TLS_ENABLED} ==> e.value.CBool?)
  }

  /** The failed type assertion on an entry's value, which stops the stage. */
  function ConversionError(name: string): string
  {
    "interface conversion: " + name
  }

  /** The effect of one configuration entry: the field with the entry's name takes its value. */
  function Apply(s: Settings, e: ConfigEntry): (r: Result<Settings, string>)
    ensures r.Err? <==> !WellTyped(e)
    ensures r.Err? ==> r.error == ConversionError(e.name)
    ensures r.Ok? && e.name !in KnownNames ==> r.value == s
    ensures r.Ok? ==> forall k | k in KnownNames && k != e.name :: Get(r.value, k) == Get(s, k)
    ensures r.Ok? && e.name in KnownNames ==> Get(r.value, e.name) == e.value
  {
    if !WellTyped(e) then Err(ConversionError(e.name))
    else if e.name == RESOURCE_URL then Ok(s.(resourceUrl := e.value.s))
    else if e.name == HEADERS then Ok(s.(headers := e.value.items))
    else if e.name == SINGLE_REQUEST_PER_BATCH then Ok(s.(singleRequestPerBatch := e.value.b))
    else if e.name == HTTP_COMPRESSION then Ok(s.(httpCompression := e.value.s))
    else if e.name == TLS_ENABLED then Ok(s.(tlsEnabled := e.value.b))
    else if e.name == TRUST_STORE_FILE_PATH then Ok(s.(trustStoreFilePath := e.value.s))
    else Ok(s)
  }

  /** The settings reached after the entries were applied in order, and the error that stopped them, if any. */
  datatype Applied = Applied(settings: Settings, err: Option<string>)

  function ApplyAll(s: Settings, cs: seq<ConfigEntry>): Applied
    decreases |cs|
  {
    if cs == [] then Applied(s, None)
    else match Apply(s, cs[0])
      case Err(e) => Applied(s, Some(e))
      case Ok(s1) => ApplyAll(s1, cs[1..])
  }

  /** Applying the entries fails exactly when one of them has a value of the wrong type, and then with the first such entry's error. */
  lemma {:induction false} ApplyAllFailsOnFirstIllTyped(s: Settings, cs: seq<ConfigEntry>)
    ensures ApplyAll(s, cs).err.None? <==> forall i | 0 <= i < |cs| :: WellTyped(cs[i])
    ensures ApplyAll(s, cs).err.Some? ==>
      exists i | 0 <= i < |cs| :: !WellTyped(cs[i]) && ApplyAll(s, cs).err == Some(ConversionError(cs[i].name))
        && forall j | 0 <= j < i :: WellTyped(cs[j])
    decreases |cs|
  {
    if cs != [] {
      match Apply(s, cs[0])
      case Err(e) =>
        assert !WellTyped(cs[0]);
      case Ok(s1) =>
        ApplyAllFailsOnFirstIllTyped(s1, cs[1..]);
        assert forall i | 1 <= i < |cs| :: cs[i] == cs[1..][i - 1];
        if ApplyAll(s1, cs[1..]).err.Some? {
          var i :| 0 <= i < |cs[1..]| && !WellTyped(cs[1..][i]) && ApplyAll(s1, cs[1..]).err == Some(ConversionError(cs[1..][i].name))
            && forall j | 0 <= j < i :: WellTyped(cs[1..][j]);
          assert !WellTyped(cs[i + 1]) && forall j | 0 <= j < i + 1 :: WellTyped(cs[j]);
        } else {
          assert forall i | 0 <= i < |cs| :: WellTyped(cs[i]) by {
            forall i | 0 <= i < |cs|
              ensures WellTyped(cs[i])
            {
              if i > 0 { assert cs[i] == cs[1..][i - 1]; }
            }
          }
        }
    }
  }

  /** No entry after position `i` is named `k`, seen from the tail of the entries. */
  lemma NoneNamedAfterInTail(cs: seq<ConfigEntry>, i: int, k: string)
    requires 0 <= i < |cs|
    requires forall j | i < j < |cs| :: cs[j].name != k
    ensures forall j | i - 1 < j < |cs[1..]| :: cs[1..][j].name != k
  {
    forall j | i - 1 < j < |cs[1..]|
      ensures cs[1..][j].name != k
    {
      assert cs[1..][j] == cs[j + 1];
    }
  }

  /**
   * The last entry with a field's name wins; a field no entry names keeps its
   * value; entries with other names change nothing.
   */
  lemma {:induction false} LastEntryWins(s: Settings, cs: seq<ConfigEntry>, k: string)
    requires k in KnownNames
    requires ApplyAll(s, cs).err.None?
    ensures (forall i | 0 <= i < |cs| :: cs[i].name != k) ==> Get(ApplyAll(s, cs).settings, k) == Get(s, k)
    ensures forall i | 0 <= i < |cs| && cs[i].name == k && (forall j | i < j < |cs| :: cs[j].name != k) ::
      Get(ApplyAll(s, cs).settings, k) == cs[i].value
    decreases |cs|
  {
    if cs != [] {
      var s1 := Apply(s, cs[0]).value;
      LastEntryWins(s1, cs[1..], k);
      forall i | 0 <= i < |cs| && cs[i].name == k && (forall j | i < j < |cs| :: cs[j].name != k)
        ensures Get(ApplyAll(s, cs).settings, k) == cs[i].value
      {
        NoneNamedAfterInTail(cs, i, k);
        if i > 0 {
          assert cs[1..][i - 1] == cs[i];
        }
      }
      if forall i | 0 <= i < |cs| :: cs[i].name != k {
        NoneNamedAfterInTail(cs, 0, k);
      }
    }
  }

  /** A request as handed to the network: where it goes, its payload and whether the payload is gzip-compressed on the wire. */
  datatype Request = Request(url: string, payload: Bytes, gzip: bool)

  /** What the network gives back: a transport failure, or a status code and status text. */
  datatype Response = Failed(reason: string) | Answered(statusCode: int, status: string)

  /** A response is an error unless it is answered with status 200; a non-200 answer's error is its status text. */
  function ResponseError(resp: Response): (err: Option<string>)
    ensures err.None? <==> resp.Answered? && resp.statusCode == 200
    ensures resp.Answered? && resp.statusCode != 200 ==> err == Some(resp.status)
    ensures resp.Failed? ==> err == Some(resp.reason)
  {
    match resp
    case Failed(reason) => Some(reason)
    case Answered(code, status) => if code != 200 then Some(status) else None
  }

  /** The network: the requests sent so far, and the answer each request will get. */
  class Transport {
    var sent: seq<Request>
    const replyTo: nat -> Response

    constructor (replyTo: nat -> Response)
      ensures sent == [] && this.replyTo == replyTo
    {
      sent := [];
      this.replyTo := replyTo;
    }

    method Post(req: Request) returns (resp: Response)
      modifies this
      ensures sent == old(sent) + [req]
      ensures resp == replyTo(|old(sent)|)
    {
      resp := replyTo(|sent|);
      sent := sent + [req];
    }
  }

  /** A record's bytes: a string's own bytes, anything else as its JSON encoding. */
  function RecordBytes(v: Value, marshal: Value -> Result<Bytes, string>): (r: Result<Bytes, string>)
    ensures v.Str? ==> r == Ok(v.bytes)
    ensures !v.Str? ==> r == marshal(v)
  {
    if v.Str? then Ok(v.bytes) else marshal(v)
  }

  /** Each part followed by a newline, all joined together. */
  function Frame(parts: seq<Bytes>): Bytes
  {
    if parts == [] then [] else parts[0] + [NEWLINE] + Frame(parts[1..])
  }

  /** The single-request body of a batch, or the first encoding error. */
  function Framed(records: seq<Value>, marshal: Value -> Result<Bytes, string>): Result<Bytes, string>
  {
    if records == [] then Ok([])
    else match RecordBytes(records[0], marshal)
      case Err(e) => Err(e)
      case Ok(b) =>
        match Framed(records[1..], marshal)
        case Err(e) => Err(e)
        case Ok(rest) => Ok(b + [NEWLINE] + rest)
  }

  /** `p` put in front of a body, or the error unchanged. */
  function Prefixed(p: Bytes, r: Result<Bytes, string>): Result<Bytes, string>
  {
    match r
    case Err(e) => Err(e)
    case Ok(b) => Ok(p + b)
  }

  lemma PrefixedEmpty(r: Result<Bytes, string>)
    ensures Prefixed([], r) == r
  {
    if r.Ok? { assert [] + r.value == r.value; }
  }

  lemma PrefixedAssoc(p: Bytes, q: Bytes, r: Result<Bytes, string>)
    ensures Prefixed(p, Prefixed(q, r)) == Prefixed(p + q, r)
  {
    if r.Ok? { assert p + (q + r.value) == (p + q) + r.value; }
  }

  lemma FramedStep(records: seq<Value>, marshal: Value -> Result<Bytes, string>)
    requires records != []
    ensures RecordBytes(records[0], marshal).Err? ==> Framed(records, marshal) == Err(RecordBytes(records[0], marshal).error)
    ensures RecordBytes(records[0], marshal).Ok? ==>
      Framed(records, marshal) == Prefixed(RecordBytes(records[0], marshal).value + [NEWLINE], Framed(records[1..], marshal))
  {
  }

  /** The requests per-record mode sends, and the error that stopped it, if any. */
  datatype Sends = Sends(payloads: seq<Bytes>, err: Option<string>)

  /**
   * Per-record mode: each record is encoded and sent in turn; an encoding
   * error stops before sending, a failed send stops after it. `n` is the
   * number of requests the transport has answered before.
   */
  function PerRecord(records: seq<Value>, marshal: Value -> Result<Bytes, string>, replyTo: nat -> Response, n: nat): Sends
    decreases |records|
  {
    if records == [] then Sends([], None)
    else match RecordBytes(records[0], marshal)
      case Err(e) => Sends([], Some(e))
      case Ok(b) =>
        if ResponseError(replyTo(n)).Some? then Sends([b], ResponseError(replyTo(n)))
        else
          var rest := PerRecord(records[1..], marshal, replyTo, n + 1);
          Sends([b] + rest.payloads, rest.err)
  }

  lemma PerRecordStep(records: seq<Value>, marshal: Value -> Result<Bytes, string>, replyTo: nat -> Response, n: nat)
    requires records != []
    ensures RecordBytes(records[0], marshal).Err? ==>
      PerRecord(records, marshal, replyTo, n) == Sends([], Some(RecordBytes(records[0], marshal).error))
    ensures RecordBytes(records[0], marshal).Ok? && ResponseError(replyTo(n)).Some? ==>
      PerRecord(records, marshal, replyTo, n) == Sends([RecordBytes(records[0], marshal).value], ResponseError(replyTo(n)))
    ensures RecordBytes(records[0], marshal).Ok? && ResponseError(replyTo(n)).None? ==>
      PerRecord(records, marshal, replyTo, n)
        == Sends([RecordBytes(records[0], marshal).value] + PerRecord(records[1..], marshal, replyTo, n + 1).payloads,
                 PerRecord(records[1..], marshal, replyTo, n + 1).err)
  {
  }

  /** The whole outcome is what was sent so far followed by the outcome of the rest. */
  predicate SentSoFar(all: Sends, done: seq<Bytes>, rest: Sends)
  {
    all == Sends(done + rest.payloads, rest.err)
  }

  lemma SentSoFarStart(all: Sends)
    ensures SentSoFar(all, [], all)
  {
    assert [] + all.payloads == all.payloads;
  }

  lemma SentSoFarShift(all: Sends, done: seq<Bytes>, b: Bytes, rest: Sends)
    requires SentSoFar(all, done, Sends([b] + rest.payloads, rest.err))
    ensures SentSoFar(all, done + [b], rest)
  {
    assert done + ([b] + rest.payloads) == (done + [b]) + rest.payloads;
  }

  lemma SentSoFarStops(all: Sends, done: seq<Bytes>, rest: Sends)
    requires SentSoFar(all, done, rest) && rest.payloads == []
    ensures all == Sends(done, rest.err)
  {
    assert done + [] == done;
  }

  /**
   * Per-record mode sends the records' own bytes, in batch order, one request
   * each; it sends every record exactly when it reports no error, and then the
   * framed single-request body is those payloads framed.
   */
  lemma {:induction false} PerRecordSendsInOrder(records: seq<Value>, marshal: Value -> Result<Bytes, string>, replyTo: nat -> Response, n: nat)
    ensures var out := PerRecord(records, marshal, replyTo, n);
      && |out.payloads| <= |records|
      && (forall i | 0 <= i < |out.payloads| :: RecordBytes(records[i], marshal) == Ok(out.payloads[i]))
      && (out.err.None? ==> |out.payloads| == |records| && Framed(records, marshal) == Ok(Frame(out.payloads)))
    decreases |records|
  {
    if records != [] {
      var rest := PerRecord(records[1..], marshal, replyTo, n + 1);
      PerRecordSendsInOrder(records[1..], marshal, replyTo, n + 1);
      match RecordBytes(records[0], marshal)
      case Err(e) =>
      case Ok(b) =>
        if ResponseError(replyTo(n)).None? {
          var out := PerRecord(records, marshal, replyTo, n);
          assert out.payloads == [b] + rest.payloads;
          forall i | 0 <= i < |out.payloads|
            ensures RecordBytes(records[i], marshal) == Ok(out.payloads[i])
          {
            if i > 0 { assert records[i] == records[1..][i - 1]; }
          }
          if out.err.None? {
            assert Frame(out.payloads) == b + [NEWLINE] + Frame(rest.payloads);
          }
        }
    }
  }

  /** Splits a body at its newlines, one part per newline-terminated piece. */
  function Unframe(body: Bytes): seq<Bytes>
    decreases |body|
  {
    if body == [] then []
    else
      var i := IndexFrom(body, NEWLINE, 0);
      if i == |body| then [body] else [body[..i]] + Unframe(body[i + 1..])
  }

  /** A newline-free part followed by a newline is cut off as one piece. */
  lemma UnframeStep(p: Bytes, rest: Bytes)
    requires NEWLINE !in p
    ensures Unframe(p + [NEWLINE] + rest) == [p] + Unframe(rest)
  {
    var body := p + [NEWLINE] + rest;
    assert body[0..|p|] == p;
    IndexFromAfter(body, NEWLINE, 0, p);
    assert body[..|p|] == p;
    assert body[|p| + 1..] == rest;
  }

  /** The receiving side can cut a single-request body back into the records' bytes when none of them holds a newline. */
  lemma {:induction false} UnframeFrame(parts: seq<Bytes>)
    requires forall i | 0 <= i < |parts| :: NEWLINE !in parts[i]
    ensures Unframe(Frame(parts)) == parts
  {
    if parts != [] {
      UnframeStep(parts[0], Frame(parts[1..]));
      UnframeFrame(parts[1..]);
      assert parts == [parts[0]] + parts[1..];
    }
  }

  /** The framed body is the records' bytes framed, or the first encoding error. */
  lemma {:induction false} FramedIsFrame(records: seq<Value>, marshal: Value -> Result<Bytes, string>)
    ensures Framed(records, marshal).Ok? <==> forall i | 0 <= i < |records| :: RecordBytes(records[i], marshal).Ok?
    ensures Framed(records, marshal).Ok? ==>
      Framed(records, marshal).value == Frame(seq(|records|, i requires 0 <= i < |records| => RecordBytes(records[i], marshal).value))
  {
    if records != [] {
      FramedIsFrame(records[1..], marshal);
      assert forall i | 1 <= i < |records| :: records[i] == records[1..][i - 1];
      if Framed(records, marshal).Ok? {
        var parts := seq(|records|, i requires 0 <= i < |records| => RecordBytes(records[i], marshal).value);
        var restParts := seq(|records[1..]|, i requires 0 <= i < |records[1..]| => RecordBytes(records[1..][i], marshal).value);
        assert parts[1..] == restParts;
      }
    }
  }

  /**
   * Single-request mode fails with the encoding error of the first record
   * that does not encode: every record before it encodes.
   */
  lemma {:induction false} FramedFirstError(records: seq<Value>, marshal: Value -> Result<Bytes, string>)
    ensures Framed(records, marshal).Err? ==>
      exists i | 0 <= i < |records| ::
        && RecordBytes(records[i], marshal).Err?
        && Framed(records, marshal).error == RecordBytes(records[i], marshal).error
        && forall j | 0 <= j < i :: RecordBytes(records[j], marshal).Ok?
  {
    if records != [] && RecordBytes(records[0], marshal).Ok? && Framed(records, marshal).Err? {
      FramedFirstError(records[1..], marshal);
      var k :| && 0 <= k < |records[1..]|
               && RecordBytes(records[1..][k], marshal).Err?
               && Framed(records[1..], marshal).error == RecordBytes(records[1..][k], marshal).error
               && forall j | 0 <= j < k :: RecordBytes(records[1..][j], marshal).Ok?;
      assert records[k + 1] == records[1..][k];
      assert forall j | 1 <= j < k + 1 :: records[j] == records[1..][j - 1];
    }
  }

  /**
   * Per-record mode stops at the first error and returns it: every send but
   * the last was answered with status 200 (every send, when no error is
   * reported); a reported error is either the encoding error of the first
   * record not sent, or the failed answer to the last send.
   */
  lemma {:induction false} PerRecordStopsAtFirstError(records: seq<Value>, marshal: Value -> Result<Bytes, string>, replyTo: nat -> Response, n: nat)
    ensures forall i | n <= i < n + |PerRecord(records, marshal, replyTo, n).payloads| - 1 :: ResponseError(replyTo(i)).None?
    ensures PerRecord(records, marshal, replyTo, n).err.None? ==>
      forall i | n <= i < n + |PerRecord(records, marshal, replyTo, n).payloads| :: ResponseError(replyTo(i)).None?
    ensures PerRecord(records, marshal, replyTo, n).err.Some? ==>
      || (&& |PerRecord(records, marshal, replyTo, n).payloads| < |records|
          && RecordBytes(records[|PerRecord(records, marshal, replyTo, n).payloads|], marshal)
             == Err(PerRecord(records, marshal, replyTo, n).err.value))
      || (&& |PerRecord(records, marshal, replyTo, n).payloads| > 0
          && PerRecord(records, marshal, replyTo, n).err
             == ResponseError(replyTo(n + |PerRecord(records, marshal, replyTo, n).payloads| - 1)))
    decreases |records|
  {
    if records != [] && RecordBytes(records[0], marshal).Ok? && ResponseError(replyTo(n)).None? {
      var rest := PerRecord(records[1..], marshal, replyTo, n + 1);
      PerRecordStopsAtFirstError(records[1..], marshal, replyTo, n + 1);
      var out := PerRecord(records, marshal, replyTo, n);
      assert out == Sends([RecordBytes(records[0], marshal).value] + rest.payloads, rest.err);
      assert |out.payloads| == 1 + |rest.payloads|;
      if |rest.payloads| < |records[1..]| {
        assert records[1..][|rest.payloads|] == records[|out.payloads|];
      }
    }
  }

  /**
   * Per-record mode reports no error exactly when every record encodes and
   * every one of its sends, the n-th to the (n + |records| - 1)-th, is
   * answered with status 200.
   */
  lemma {:induction false} PerRecordSucceedsIff(records: seq<Value>, marshal: Value -> Result<Bytes, string>, replyTo: nat -> Response, n: nat)
    ensures PerRecord(records, marshal, replyTo, n).err.None? <==>
      && (forall i | 0 <= i < |records| :: RecordBytes(records[i], marshal).Ok?)
      && (forall i | n <= i < n + |records| :: ResponseError(replyTo(i)).None?)
    decreases |records|
  {
    if records != [] {
      PerRecordSucceedsIff(records[1..], marshal, replyTo, n + 1);
      assert forall i | 1 <= i < |records| :: records[i] == records[1..][i - 1];
    }
  }

  /** The bytes of a batch of string records. */
  function StringBytes(records: seq<Value>): seq<Bytes>
    requires forall i | 0 <= i < |records| :: records[i].Str?
  {
    seq(|records|, i requires 0 <= i < |records| => records[i].bytes)
  }

  /**
   * Strings go out verbatim whatever the JSON encoder does: a batch of string
   * records has the single-request body of their own bytes, each followed by
   * a newline, and when every send is answered with status 200, per-record
   * mode sends exactly those bytes, in order, and reports no error.
   */
  lemma StringsGoOutVerbatim(records: seq<Value>, marshal: Value -> Result<Bytes, string>, replyTo: nat -> Response, n: nat)
    requires forall i | 0 <= i < |records| :: records[i].Str?
    ensures Framed(records, marshal) == Ok(Frame(StringBytes(records)))
    ensures (forall i | n <= i < n + |records| :: ResponseError(replyTo(i)).None?) ==>
      PerRecord(records, marshal, replyTo, n) == Sends(StringBytes(records), None)
  {
    FramedIsFrame(records, marshal);
    assert seq(|records|, i requires 0 <= i < |records| => RecordBytes(records[i], marshal).value) == StringBytes(records);
    if forall i | n <= i < n + |records| :: ResponseError(replyTo(i)).None? {
      PerRecordSucceedsIff(records, marshal, replyTo, n);
      PerRecordSendsInOrder(records, marshal, replyTo, n);
      var out := PerRecord(records, marshal, replyTo, n);
      assert out.payloads == StringBytes(records);
    }
  }

  class HttpClientDestination {
    var resourceUrl: string
    var headers: seq<ConfigValue>
    var singleRequestPerBatch: bool
    var httpCompression: string
    var tlsEnabled: bool
    var trustStoreFilePath: string

    function Current(): Settings
      reads this
    {
      Settings(resourceUrl, headers, singleRequestPerBatch, httpCompression, tlsEnabled, trustStoreFilePath)
    }

    /** A fresh destination: every setting at its zero value. */
    constructor ()
      ensures Current() == Settings("", [], false, "", false, "")
    {
      resourceUrl, headers, singleRequestPerBatch := "", [], false;
      httpCompression, tlsEnabled, trustStoreFilePath := "", false, "";
    }

    method SetSettings(s: Settings)
      modifies this
      ensures Current() == s
    {
      resourceUrl, headers, singleRequestPerBatch := s.resourceUrl, s.headers, s.singleRequestPerBatch;
      httpCompression, tlsEnabled, trustStoreFilePath := s.httpCompression, s.tlsEnabled, s.trustStoreFilePath;
    }

    /**
     * Init: a failing base-stage initialisation is returned as is; otherwise
     * the configuration entries are applied in order, stopping at an entry
     * whose value has the wrong type.
     */
    method Init(baseError: Option<string>, configuration: seq<ConfigEntry>) returns (err: Option<string>)
      modifies this
      ensures baseError.Some? ==> err == baseError && Current() == old(Current())
      ensures baseError.None? ==>
        Current() == ApplyAll(old(Current()), configuration).settings && err == ApplyAll(old(Current()), configuration).err
    {
      if baseError.Some? {
        return baseError;
      }
      var i := 0;
      while i < |configuration|
        invariant 0 <= i <= |configuration|
        invariant ApplyAll(Current(), configuration[i..]) == ApplyAll(old(Current()), configuration)
      {
        var e := configuration[i];
        assert configuration[i..][1..] == configuration[i + 1..];
        var next := Apply(Current(), e);
        if next.Err? {
          return Some(next.error);
        }
        SetSettings(next.value);
        i := i + 1;
      }
      err := None;
    }

    /** sendToSDC: posts the payload to the resource URL; any answer but status 200 is an error. */
    method SendToSDC(transport: Transport, payload: Bytes) returns (err: Option<string>)
      modifies transport
      ensures transport.sent == old(transport.sent) + [Request(resourceUrl, payload, httpCompression == "GZIP")]
      ensures err == ResponseError(transport.replyTo(|old(transport.sent)|))
    {
      var resp := transport.Post(Request(resourceUrl, payload, httpCompression == "GZIP"));
      err := ResponseError(resp);
    }

    function Post(payload: Bytes): Request
      reads this
    {
      Request(resourceUrl, payload, httpCompression == "GZIP")
    }

    function Posts(payloads: seq<Bytes>): (rs: seq<Request>)
      reads this
    {
      if payloads == [] then [] else [Post(payloads[0])] + Posts(payloads[1..])
    }

    /**
     * Write in single-request mode: every record's bytes and a newline, sent
     * as one request when the batch is not empty.
     */
    method WriteSingle(records: seq<Value>, marshal: Value -> Result<Bytes, string>, transport: Transport)
      returns (err: Option<string>)
      modifies transport
      ensures Framed(records, marshal).Err? ==> err == Some(Framed(records, marshal).error) && transport.sent == old(transport.sent)
      ensures records == [] ==> err == None && transport.sent == old(transport.sent)
      ensures records != [] && Framed(records, marshal).Ok? ==>
        && transport.sent == old(transport.sent) + [Post(Framed(records, marshal).value)]
        && err == ResponseError(transport.replyTo(|old(transport.sent)|))
    {
      var batch: Bytes := [];
      var i := 0;
      assert records[0..] == records;
      PrefixedEmpty(Framed(records, marshal));
      while i < |records|
        invariant 0 <= i <= |records|
        invariant Framed(records, marshal) == Prefixed(batch, Framed(records[i..], marshal))
        invariant transport.sent == old(transport.sent)
      {
        FramedStep(records[i..], marshal);
        assert records[i..][0] == records[i] && records[i..][1..] == records[i + 1..];
        var part := RecordBytes(records[i], marshal);
        if part.Err? {
          return Some(part.error);
        }
        PrefixedAssoc(batch, part.value + [NEWLINE], Framed(records[i + 1..], marshal));
        batch := batch + (part.value + [NEWLINE]);
        i := i + 1;
      }
      assert records[i..] == [] && batch + [] == batch;
      if |records| > 0 {
        err := SendToSDC(transport, batch);
      } else {
        err := None;
      }
    }

    /** Write in per-record mode: one request per record, in order, stopping at the first error. */
    method WritePerRecord(records: seq<Value>, marshal: Value -> Result<Bytes, string>, transport: Transport)
      returns (err: Option<string>)
      modifies transport
      ensures transport.sent == old(transport.sent) + Posts(PerRecord(records, marshal, transport.replyTo, |old(transport.sent)|).payloads)
      ensures err == PerRecord(records, marshal, transport.replyTo, |old(transport.sent)|).err
    {
      ghost var replyTo := transport.replyTo;
      ghost var all := PerRecord(records, marshal, replyTo, |transport.sent|);
      ghost var done: seq<Bytes> := [];
      var rest := records;
      SentSoFarStart(all);
      while rest != []
        invariant SentSoFar(all, done, PerRecord(rest, marshal, replyTo, |transport.sent|))
        invariant transport.sent == old(transport.sent) + Posts(done)
        decreases |rest|
      {
        ghost var outcome := PerRecord(rest, marshal, replyTo, |transport.sent|);
        PerRecordStep(rest, marshal, replyTo, |transport.sent|);
        var part := RecordBytes(rest[0], marshal);
        if part.Err? {
          SentSoFarStops(all, done, outcome);
          return Some(part.error);
        }
        var sendErr := SendToSDC(transport, part.value);
        PostsAppend(done, part.value);
        if sendErr.Some? {
          SentSoFarStops(all, done + [part.value], Sends([], outcome.err));
          return sendErr;
        }
        SentSoFarShift(all, done, part.value, PerRecord(rest[1..], marshal, replyTo, |transport.sent|));
        done := done + [part.value];
        rest := rest[1..];
      }
      SentSoFarStops(all, done, Sends([], None));
      err := None;
    }

    lemma {:induction false} PostsAppend(done: seq<Bytes>, payload: Bytes)
      ensures Posts(done + [payload]) == Posts(done) + [Post(payload)]
    {
      if done != [] {
        assert (done + [payload])[1..] == done[1..] + [payload];
        PostsAppend(done[1..], payload);
      }
    }

    /** Write: the batch goes out in the mode the settings choose. */
    method Write(records: seq<Value>, marshal: Value -> Result<Bytes, string>, transport: Transport)
      returns (err: Option<string>)
      modifies transport
      ensures singleRequestPerBatch ==>
        && (records == [] ==> err == None && transport.sent == old(transport.sent))
        && (Framed(records, marshal).Err? ==> err == Some(Framed(records, marshal).error) && transport.sent == old(transport.sent))
        && (records != [] && Framed(records, marshal).Ok? ==>
              transport.sent == old(transport.sent) + [Post(Framed(records, marshal).value)]
              && err == ResponseError(transport.replyTo(|old(transport.sent)|)))
      ensures !singleRequestPerBatch ==>
        && transport.sent == old(transport.sent) + Posts(PerRecord(records, marshal, transport.replyTo, |old(transport.sent)|).payloads)
        && err == PerRecord(records, marshal, transport.replyTo, |old(transport.sent)|).err
    {
      if singleRequestPerBatch {
        err := WriteSingle(records, marshal, transport);
      } else {
        err := WritePerRecord(records, marshal, transport);
      }
    }
  }
}
