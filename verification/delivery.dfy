/** `write` and `send_to_splunk`: the envelopes of a buffer chunk are posted
    to the collector one request per event, or all in one newline-separated
    request in batched mode; a response other than 200 raises
    `SplunkHECOutputError`, which makes Fluentd retry the chunk. The network
    is a parameter: `respond(i)` is the collector's answer to the `i`-th
    request of the flush. */
module Delivery {
  import opened Outcome
  import opened Decimal
  import opened Json
  import opened JsonFacts
  import opened Ruby
  import opened EventEnvelope
  import opened EnvelopeModes

  /** A POST to the collector. */
  datatype Request = Request(url: string, headers: seq<(string, string)>, body: string, useSsl: bool)

  /** The collector's answer: the HTTP status and the response body. */
  datatype Response = Response(status: nat, body: string)

  /** What one flush of a chunk did: the requests it sent, in order, and
      whether it returned or raised. */
  datatype Flush = Flush(sent: seq<Request>, outcome: Result<(), Failure>)

  const CollectorPath := "/services/collector/event"
  const ContentType := "application/json; charset=utf-8"

  /** `protocol://host:port/services/collector/event`, fixed at configure time. */
  function Url(cfg: Config): string {
    cfg.protocol + ("://" + (cfg.host + (":" + (cfg.port + CollectorPath))))
  }

  /** The parts `URI(u)` finds in a URL: the scheme, the host, the port as a
      number, and the path. */
  datatype UriParts = UriParts(scheme: string, host: string, port: nat, path: string)

  /** Length of the longest prefix of `s` that holds none of `stops`. */
  function SpanNot(s: string, stops: set<char>): (k: nat)
    ensures k <= |s| && forall i :: 0 <= i < k ==> s[i] !in stops
    ensures k < |s| ==> s[k] in stops
  {
    if s == [] || s[0] in stops then 0
    else
      var k := 1 + SpanNot(s[1..], stops);
      assert forall i :: 1 <= i < k ==> s[i] == s[1..][i - 1];
      k
  }

  /** A URL reader for the shape `scheme://host:port/path` with an explicit
      numeric port: the scheme ends at the first `:`, the host at the next `:`
      or `/`, and the port at the first non-digit, which must start the path.
      Any other shape gives `None`. */
  function SplitUrl(u: string): Option<UriParts> {
    var i := SpanNot(u, {':'});
    if i + 3 > |u| || u[i..i + 3] != "://" then None
    else
      var a := u[i + 3..];
      var j := SpanNot(a, {':', '/'});
      if j == |a| || a[j] != ':' then None
      else
        var b := a[j + 1..];
        var k := SpanDigits(b);
        if k == 0 || (k < |b| && b[k] != '/') then None
        else Some(UriParts(u[..i], a[..j], DigitsValue(b[..k]), b[k..]))
  }

  /** A character of a host name: a letter, a digit, `-` or `.`. */
  predicate HostChar(c: char) {
    ('a' <= c <= 'z') || ('A' <= c <= 'Z') || IsDigit(c) || c == '-' || c == '.'
  }

  /** A configuration whose URL `URI` reads as `Net::HTTP` uses it: the
      protocol `http` or `https`, a non-empty host name, and a port of
      digits. */
  predicate SplittableUrl(cfg: Config) {
    && (cfg.protocol == "http" || cfg.protocol == "https")
    && 1 <= |cfg.host| && (forall i :: 0 <= i < |cfg.host| ==> HostChar(cfg.host[i]))
    && 1 <= |cfg.port| && AllDigits(cfg.port)
  }

  lemma SchemeHasNoColon(cfg: Config)
    requires cfg.protocol == "http" || cfg.protocol == "https"
    ensures forall i :: 0 <= i < |cfg.protocol| ==> cfg.protocol[i] != ':'
  {
  }

  lemma {:induction false} SpanNotOfAppend(a: string, b: string, stops: set<char>)
    requires forall i :: 0 <= i < |a| ==> a[i] !in stops
    requires b != [] && b[0] in stops
    ensures SpanNot(a + b, stops) == |a|
    decreases |a|
  {
    if a != [] {
      assert (a + b)[1..] == a[1..] + b;
      SpanNotOfAppend(a[1..], b, stops);
    }
  }

  /** The port and the path after the host. */
  lemma PortPathSplits(port: string)
    requires 1 <= |port| && AllDigits(port)
    ensures var b := port + CollectorPath;
            SpanDigits(b) == |port| && b[..|port|] == port && b[|port|..] == CollectorPath
  {
    assert !IsDigit(CollectorPath[0]);
    SpanDigitsOfAppend(port, CollectorPath);
  }

  /** The host, the port and the path after `://`. */
  lemma AuthoritySplits(cfg: Config)
    requires SplittableUrl(cfg)
    ensures var a := cfg.host + (":" + (cfg.port + CollectorPath));
            var j := SpanNot(a, {':', '/'});
            j == |cfg.host| && a[j] == ':' && a[..j] == cfg.host && a[j + 1..] == cfg.port + CollectorPath
  {
    var a := cfg.host + (":" + (cfg.port + CollectorPath));
    SpanNotOfAppend(cfg.host, ":" + (cfg.port + CollectorPath), {':', '/'});
    assert a[|cfg.host| + 1..] == cfg.port + CollectorPath;
  }

  /** For an `http` or `https` URL with a host name and a numeric port, the
      reader finds the configured protocol, host and port and the collector's
      path again: where `Net::HTTP` connects and what it posts to. */
  lemma UrlSplits(cfg: Config)
    requires SplittableUrl(cfg)
    ensures SplitUrl(Url(cfg)) == Some(UriParts(cfg.protocol, cfg.host, DigitsValue(cfg.port), CollectorPath))
  {
    SchemeHasNoColon(cfg);
    SchemeSplits(cfg.protocol, cfg.host + (":" + (cfg.port + CollectorPath)));
    AuthoritySplits(cfg);
    PortPathSplits(cfg.port);
  }

  /** The scheme and what follows `://`. */
  lemma SchemeSplits(p: string, rest: string)
    requires forall i :: 0 <= i < |p| ==> p[i] != ':'
    ensures var u := p + ("://" + rest);
            var i := SpanNot(u, {':'});
            i == |p| && i + 3 <= |u| && u[i..i + 3] == "://" && u[i + 3..] == rest && u[..i] == p
  {
    var u := p + ("://" + rest);
    SpanNotOfAppend(p, "://" + rest, {':'});
    assert u[|p|..|p| + 3] == "://";
    assert u[|p| + 3..] == rest;
  }

  /** The value of the first header called `name`. */
  function HeaderValue(headers: seq<(string, string)>, name: string): Option<string>
    decreases |headers|
  {
    if headers == [] then None
    else if headers[0].0 == name then Some(headers[0].1)
    else HeaderValue(headers[1..], name)
  }

  /** The request of `send_to_splunk`, read back: it goes to the configured
      host and port at the collector's path, carries the token and the JSON
      content type, the given body, and TLS exactly for `https`. */
  lemma RequestTarget(cfg: Config, body: string)
    requires SplittableUrl(cfg)
    ensures var r := MakeRequest(cfg, body);
            && SplitUrl(r.url) == Some(UriParts(cfg.protocol, cfg.host, DigitsValue(cfg.port), CollectorPath))
            && HeaderValue(r.headers, "Authorization") == Some("Splunk " + cfg.token)
            && HeaderValue(r.headers, "Content-Type") == Some(ContentType)
            && r.body == body
            && (r.useSsl <==> cfg.protocol == "https")
  {
    UrlSplits(cfg);
    assert "Content-Type" != "Authorization" by {
      assert "Content-Type"[0] != "Authorization"[0];
    }
  }

  /** The request `send_to_splunk` builds for `body`. TLS is switched on
      exactly for the protocol `https`. */
  function MakeRequest(cfg: Config, body: string): Request {
    Request(Url(cfg), [("Authorization", "Splunk " + cfg.token), ("Content-Type", ContentType)], body,
            cfg.protocol == "https")
  }

  /** The message `SplunkHECOutputError` composes from the collector's
      `text`, the HTTP status, the collector's `code` and the
      `invalid-event-number`. */
  function ErrorMessage(text: string, httpStatus: string, code: string, invalidEvent: string): string {
    text + " (http status code " + httpStatus + ", status code " + code
      + ", invalid event number " + invalidEvent + ")"
  }

  /** A value whose `to_s` is part of this model. */
  predicate Scalar(v: Value) {
    !v.Arr? && !v.Obj?
  }

  /** The error raised for an answer that is not 200 and decodes to `doc`:
      the three `[]` lookups first, then the interpolations left to right. */
  function CollectorError(status: nat, doc: Value): (r: Failure)
    ensures (doc.Obj? && Scalar(Lookup(doc.members, "text")) && Scalar(Lookup(doc.members, "code"))
             && Scalar(Lookup(doc.members, "invalid-event-number"))) ==> r.SplunkHECOutputError?
    ensures (doc.Null? || doc.Bool?) ==> r == NoMethodError
    ensures (doc.Int? || doc.Arr?) ==> r == TypeError
  {
    match Index(doc, "text")
    case Err(e) => e
    case Ok(text) =>
      match Index(doc, "code")
      case Err(e) => e
      case Ok(code) =>
        match Index(doc, "invalid-event-number")
        case Err(e) => e
        case Ok(invalid) =>
          match ToS(text)
          case Err(e) => e
          case Ok(t) =>
            match ToS(code)
            case Err(e) => e
            case Ok(c) =>
              match ToS(invalid)
              case Err(e) => e
              case Ok(n) => SplunkHECOutputError(ErrorMessage(t, IntToString(status), c, n))
  }

  /** `JSON.parse` as `yajl/json_gem` defines it for the reply: a body of
      white space only reads as `nil`, anything else as one JSON value. */
  function ParseReply(body: string): (r: Result<Value, Failure>)
    ensures AllWs(body) ==> r == Ok(Null)
    ensures !AllWs(body) ==> r == Decode(body)
  {
    SkipWsEmpty(body);
    if SkipWs(body) == [] then Ok(Null) else Decode(body)
  }

  /** The check after `http.request`: 200 returns, anything else raises; a
      body that is not JSON raises the parser's error instead, and a blank
      one reads as `nil`, on which `['text']` raises. */
  function CheckResponse(res: Response): (r: Result<(), Failure>)
    ensures r.Ok? <==> res.status == 200
    ensures res.status != 200 && AllWs(res.body) ==> r == Err(NoMethodError)
    ensures res.status != 200 && !AllWs(res.body) && Decode(res.body).Err? ==> r == Err(JsonParserError)
    ensures res.status != 200 && !AllWs(res.body) && Decode(res.body).Ok?
            ==> r == Err(CollectorError(res.status, Decode(res.body).value))
  {
    if res.status == 200 then Ok(())
    else
      match ParseReply(res.body)
      case Err(_) => Err(JsonParserError)
      case Ok(doc) => Err(CollectorError(res.status, doc))
  }

  /** An error answer in the collector's usual shape, a `text` and a numeric
      `code`, raises with exactly those in its message; the missing
      `invalid-event-number` prints as nothing. */
  lemma RejectedMessage(status: nat, members: seq<(string, Value)>, t: string, c: int)
    requires status != 200
    requires Lookup(members, "text") == Str(t) && Lookup(members, "code") == Int(c)
    requires !HasKey(members, "invalid-event-number")
    ensures CheckResponse(Response(status, Serialize(Obj(members))))
         == Err(SplunkHECOutputError(ErrorMessage(t, IntToString(status), IntToString(c), "")))
  {
    DecodeSerialized(Obj(members));
  }

  /** An error answer that also names the rejected event: its number is the
      last part of the message. */
  lemma RejectedEventMessage(status: nat, members: seq<(string, Value)>, t: string, c: int, n: int)
    requires status != 200
    requires Lookup(members, "text") == Str(t) && Lookup(members, "code") == Int(c)
    requires Lookup(members, "invalid-event-number") == Int(n)
    ensures CheckResponse(Response(status, Serialize(Obj(members))))
         == Err(SplunkHECOutputError(ErrorMessage(t, IntToString(status), IntToString(c), IntToString(n))))
  {
    DecodeSerialized(Obj(members));
  }

  /** An error answer whose body is not JSON, such as a plain-text page
      starting with a capital letter, raises the parser's error before any
      field is looked at. */
  lemma TextReply(status: nat, body: string)
    requires status != 200 && body != [] && 'A' <= body[0] <= 'Z'
    ensures CheckResponse(Response(status, body)) == Err(JsonParserError)
  {
    assert !IsWs(body[0]) && SkipWs(body) == body;
    assert ParseValueAt(body) == Err(JsonParserError);
    assert Decode(body) == Err(JsonParserError);
  }

  /** An error answer with an empty or blank body reads as `nil`, so the
      first lookup raises `NoMethodError` rather than the parser's error. */
  lemma BlankReply(status: nat, body: string)
    requires status != 200 && AllWs(body)
    ensures CheckResponse(Response(status, body)) == Err(NoMethodError)
    ensures Decode(body) == Err(JsonParserError)
  {
    SkipWsEmpty(body);
    assert ParseValue(body) == ParseValueAt([]) == Err(JsonParserError);
  }

  /** The answer of a disabled token: status 403 and
      `{"text":"Token disabled","code":1}`. */
  lemma TokenDisabled()
    ensures CheckResponse(Response(403, Serialize(Obj([("text", Str("Token disabled")), ("code", Int(1))]))))
         == Err(SplunkHECOutputError(ErrorMessage("Token disabled", "403", "1", "")))
  {
    var members := [("text", Str("Token disabled")), ("code", Int(1))];
    assert members[1].0 == "code";
    assert members[0].0 == "text";
    assert IntToString(403) == "403";
    assert IntToString(1) == "1";
    RejectedMessage(403, members, "Token disabled", 1);
  }

  // ---------------------------------------------------------------------------
  // One flush

  /** All the envelopes, or the error of the first entry that has none. */
  function Collect(envs: seq<Result<string, Failure>>): (r: Result<seq<string>, Failure>)
    ensures r.Ok? ==> |r.value| == |envs| && forall k :: 0 <= k < |envs| ==> envs[k] == Ok(r.value[k])
    ensures r.Ok? <==> forall k :: 0 <= k < |envs| ==> envs[k].Ok?
    ensures r.Err? ==> exists k :: 0 <= k < |envs| && envs[k] == Err(r.error)
                                   && forall j :: 0 <= j < k ==> envs[j].Ok?
    decreases |envs|
  {
    if envs == [] then Ok([])
    else
      match envs[0]
      case Err(e) => Err(e)
      case Ok(env) =>
        assert forall k :: 1 <= k < |envs| ==> envs[k] == envs[1..][k - 1];
        match Collect(envs[1..])
        case Err(e) =>
          var k :| 0 <= k < |envs[1..]| && envs[1..][k] == Err(e) && forall j :: 0 <= j < k ==> envs[1..][j].Ok?;
          assert envs[k + 1] == Err(e);
          Err(e)
        case Ok(rest) => Ok([env] + rest)
  }

  /** Each envelope followed by a newline, all run together. */
  function Lines(envs: seq<string>): string
    decreases |envs|
  {
    if envs == [] then "" else envs[0] + "\n" + Lines(envs[1..])
  }

  /** The envelope of every entry, or the error building it raises. */
  function EnvelopeResults(cfg: Config, chunk: seq<Entry>): (r: seq<Result<string, Failure>>)
    ensures |r| == |chunk| && forall k :: 0 <= k < |chunk| ==> r[k] == Envelope(cfg, chunk[k])
  {
    seq(|chunk|, k requires 0 <= k < |chunk| => Envelope(cfg, chunk[k]))
  }

  /** What `send_to_splunk` makes of the collector's answers to the first
      `n` requests: `respond(k)` is the answer to request `k`. */
  function Verdicts(respond: nat -> Response, n: nat): (r: seq<Result<(), Failure>>)
    ensures |r| == n && forall k :: 0 <= k < n ==> r[k] == CheckResponse(respond(k))
  {
    seq(n, k requires 0 <= k < n => CheckResponse(respond(k)))
  }

  /** Unbatched mode: each envelope is posted as soon as it is built; the
      first failure, of an envelope or of an answer, ends the flush.
      `verdicts[k]` is the verdict on the answer to the `k`-th post. */
  function SendEach(cfg: Config, envs: seq<Result<string, Failure>>, verdicts: seq<Result<(), Failure>>)
    : (f: Flush)
    requires |verdicts| == |envs|
    ensures |f.sent| <= |envs|
    decreases |envs|
  {
    if envs == [] then Flush([], Ok(()))
    else
      match envs[0]
      case Err(e) => Flush([], Err(e))
      case Ok(env) =>
        var req := MakeRequest(cfg, env);
        match verdicts[0]
        case Err(e) => Flush([req], Err(e))
        case Ok(_) =>
          var f := SendEach(cfg, envs[1..], verdicts[1..]);
          Flush([req] + f.sent, f.outcome)
  }

  /** `write(chunk)`. In batched mode the body is built for the whole chunk
      before anything is sent, and it is sent even when the chunk is empty. */
  function Write(cfg: Config, chunk: seq<Entry>, respond: nat -> Response): (f: Flush)
    ensures cfg.sendBatchedEvents ==> |f.sent| <= 1
    ensures cfg.sendBatchedEvents && !Collect(EnvelopeResults(cfg, chunk)).Ok? ==> f.sent == [] && f.outcome.Err?
    ensures !cfg.sendBatchedEvents ==> |f.sent| <= |chunk|
  {
    if cfg.sendBatchedEvents then
      match Collect(EnvelopeResults(cfg, chunk))
      case Err(e) => Flush([], Err(e))
      case Ok(envs) => Flush([MakeRequest(cfg, Lines(envs))], CheckResponse(respond(0)))
    else SendEach(cfg, EnvelopeResults(cfg, chunk), Verdicts(respond, |chunk|))
  }

  // ---------------------------------------------------------------------------
  // What an unbatched flush sends

  /** The `k`-th request carries the `k`-th envelope. */
  lemma {:induction false} SendEachRequests(cfg: Config, envs: seq<Result<string, Failure>>,
                                            verdicts: seq<Result<(), Failure>>)
    requires |verdicts| == |envs|
    ensures var f := SendEach(cfg, envs, verdicts);
            forall k :: 0 <= k < |f.sent| ==> envs[k].Ok? && f.sent[k] == MakeRequest(cfg, envs[k].value)
    decreases |envs|
  {
    if envs != [] && envs[0].Ok? && verdicts[0].Ok? {
      SendEachRequests(cfg, envs[1..], verdicts[1..]);
      var f := SendEach(cfg, envs, verdicts);
      var g := SendEach(cfg, envs[1..], verdicts[1..]);
      assert f.sent == [MakeRequest(cfg, envs[0].value)] + g.sent;
      forall k | 1 <= k < |f.sent|
        ensures envs[k].Ok? && f.sent[k] == MakeRequest(cfg, envs[k].value)
      {
        assert envs[k] == envs[1..][k - 1];
        assert f.sent[k] == g.sent[k - 1];
      }
    }
  }

  /** Every request before the last was answered well; a flush that returns
      sent every envelope and every answer was good. */
  lemma {:induction false} SendEachAnswers(cfg: Config, envs: seq<Result<string, Failure>>,
                                           verdicts: seq<Result<(), Failure>>)
    requires |verdicts| == |envs|
    ensures var f := SendEach(cfg, envs, verdicts);
            && (forall n :: 0 <= n < |f.sent| - 1 ==> verdicts[n].Ok?)
            && (f.outcome.Ok? ==> |f.sent| == |envs| && forall n :: 0 <= n < |envs| ==> verdicts[n].Ok?)
    decreases |envs|
  {
    if envs != [] && envs[0].Ok? && verdicts[0].Ok? {
      SendEachAnswers(cfg, envs[1..], verdicts[1..]);
      assert forall n :: 1 <= n < |verdicts| ==> verdicts[n] == verdicts[1..][n - 1];
    }
  }

  /** A flush that raises raised either on the last answer or on the first
      envelope it did not send. */
  lemma {:induction false} SendEachFailure(cfg: Config, envs: seq<Result<string, Failure>>,
                                           verdicts: seq<Result<(), Failure>>)
    requires |verdicts| == |envs|
    ensures var f := SendEach(cfg, envs, verdicts);
            f.outcome.Err? ==>
              if |f.sent| > 0 && verdicts[|f.sent| - 1].Err? then f.outcome == verdicts[|f.sent| - 1]
              else |f.sent| < |envs| && envs[|f.sent|].Err? && f.outcome.error == envs[|f.sent|].error
    decreases |envs|
  {
    if envs != [] && envs[0].Ok? && verdicts[0].Ok? {
      SendEachFailure(cfg, envs[1..], verdicts[1..]);
      var g := SendEach(cfg, envs[1..], verdicts[1..]);
      if |g.sent| > 0 {
        assert verdicts[|g.sent|] == verdicts[1..][|g.sent| - 1];
      }
      if |g.sent| < |envs| - 1 {
        assert envs[|g.sent| + 1] == envs[1..][|g.sent|];
      }
    }
  }

  /** An empty chunk: nothing is sent one event at a time, but batched mode
      still posts one request with an empty body. */
  lemma EmptyChunk(cfg: Config, respond: nat -> Response)
    ensures !cfg.sendBatchedEvents ==> Write(cfg, [], respond) == Flush([], Ok(()))
    ensures cfg.sendBatchedEvents ==> Write(cfg, [], respond) == Flush([MakeRequest(cfg, "")], CheckResponse(respond(0)))
  {
    assert Collect(EnvelopeResults(cfg, [])) == Ok([]);
  }

  // ---------------------------------------------------------------------------
  // The batched body

  /** The text up to the first newline, and what follows it. */
  function SplitFirst(s: string): (r: (string, string))
    ensures |r.1| < |s| || (r.0 == s && r.1 == [])
    decreases |s|
  {
    if s == [] then ([], [])
    else if s[0] == '\n' then ([], s[1..])
    else
      var (line, rest) := SplitFirst(s[1..]);
      ([s[0]] + line, rest)
  }

  /** The newline-terminated lines of a text, as the collector splits a
      batched body. */
  function SplitLines(s: string): seq<string>
    decreases |s|
  {
    if s == [] then []
    else
      var (line, rest) := SplitFirst(s);
      if |rest| < |s| then [line] + SplitLines(rest) else [line]
  }

  lemma {:induction false} SplitFirstOfLine(line: string, rest: string)
    requires '\n' !in line
    ensures SplitFirst(line + "\n" + rest) == (line, rest)
    decreases |line|
  {
    if line == [] {
      assert line + "\n" + rest == "\n" + rest;
    } else {
      assert (line + "\n" + rest)[1..] == line[1..] + "\n" + rest;
      SplitFirstOfLine(line[1..], rest);
      assert [line[0]] + line[1..] == line;
    }
  }

  /** Splitting the batched body at its newlines gives back the envelopes,
      provided none of them holds a newline itself. */
  lemma {:induction false} SplitLinesOfLines(envs: seq<string>)
    requires forall k :: 0 <= k < |envs| ==> '\n' !in envs[k]
    ensures SplitLines(Lines(envs)) == envs
    decreases |envs|
  {
    if envs != [] {
      SplitFirstOfLine(envs[0], Lines(envs[1..]));
      SplitLinesOfLines(envs[1..]);
      assert [envs[0]] + envs[1..] == envs;
    }
  }

  /** Appending one more envelope to the batched body. */
  lemma {:induction false} LinesAppend(envs: seq<string>, env: string)
    ensures Lines(envs + [env]) == Lines(envs) + env + "\n"
    decreases |envs|
  {
    if envs == [] {
      assert envs + [env] == [env];
    } else {
      assert (envs + [env])[1..] == envs[1..] + [env];
      LinesAppend(envs[1..], env);
    }
  }

  // ---------------------------------------------------------------------------
  // `write` as a loop

  /** The rest of an unbatched flush after the requests `sent`. */
  function Continue(sent: seq<Request>, f: Flush): Flush {
    Flush(sent + f.sent, f.outcome)
  }

  /** Collecting one more envelope, or stopping at its error. */
  lemma CollectPrefix(envs: seq<Result<string, Failure>>, k: nat)
    requires k < |envs| && Collect(envs[..k]).Ok?
    ensures envs[k].Err? ==> Collect(envs) == Err(envs[k].error)
    ensures envs[k].Ok? ==> Collect(envs[..k + 1]) == Ok(Collect(envs[..k]).value + [envs[k].value])
  {
    assert forall j :: 0 <= j < k ==> envs[..k][j] == envs[j];
    assert forall j :: 0 <= j <= k ==> envs[..k + 1][j] == envs[j];
    if envs[k].Err? {
      var r := Collect(envs);
      var m :| 0 <= m < |envs| && envs[m] == Err(r.error) && forall j :: 0 <= j < m ==> envs[j].Ok?;
      assert m == k;
    } else {
      var a := Collect(envs[..k]).value;
      var b := Collect(envs[..k + 1]).value;
      var c := a + [envs[k].value];
      assert |b| == |c|;
      forall j | 0 <= j < |b|
        ensures b[j] == c[j]
      {
        if j < k {
          assert envs[..k + 1][j] == envs[..k][j];
        }
      }
      assert b == c;
    }
  }

  /** One step of an unbatched flush: the request for entry `k` is sent,
      and its answer either ends the flush or lets it go on. */
  lemma SendEachStep(cfg: Config, envs: seq<Result<string, Failure>>, verdicts: seq<Result<(), Failure>>, k: nat,
                     sent: seq<Request>)
    requires |verdicts| == |envs| && k < |envs| && envs[k].Ok?
    ensures var req := MakeRequest(cfg, envs[k].value);
            var f := Continue(sent, SendEach(cfg, envs[k..], verdicts[k..]));
            if verdicts[k].Err? then f == Flush(sent + [req], Err(verdicts[k].error))
            else f == Continue(sent + [req], SendEach(cfg, envs[k + 1..], verdicts[k + 1..]))
  {
    assert envs[k..][0] == envs[k] && envs[k..][1..] == envs[k + 1..];
    assert verdicts[k..][0] == verdicts[k] && verdicts[k..][1..] == verdicts[k + 1..];
    var g := SendEach(cfg, envs[k + 1..], verdicts[k + 1..]);
    assert sent + [MakeRequest(cfg, envs[k].value)] + g.sent == sent + ([MakeRequest(cfg, envs[k].value)] + g.sent);
  }

  /** One step of a batched flush: the body grows by entry `k`'s envelope
      and a newline, or the envelope's error ends the flush before anything
      is sent. */
  lemma BatchStep(envs: seq<Result<string, Failure>>, k: nat, body: string)
    requires k < |envs| && Collect(envs[..k]).Ok? && body == Lines(Collect(envs[..k]).value)
    ensures envs[k].Err? ==> Collect(envs) == Err(envs[k].error)
    ensures envs[k].Ok? ==> Collect(envs[..k + 1]).Ok?
                            && body + envs[k].value + "\n" == Lines(Collect(envs[..k + 1]).value)
  {
    CollectPrefix(envs, k);
    if envs[k].Ok? {
      LinesAppend(Collect(envs[..k]).value, envs[k].value);
    }
  }

  /** An unbatched flush meeting an entry without an envelope stops there. */
  lemma EachStop(cfg: Config, envs: seq<Result<string, Failure>>, verdicts: seq<Result<(), Failure>>, k: nat)
    requires |verdicts| == |envs| && k < |envs| && envs[k].Err?
    ensures SendEach(cfg, envs[k..], verdicts[k..]) == Flush([], Err(envs[k].error))
  {
    assert envs[k..][0] == envs[k];
  }

  /** `write(chunk)` as the plugin runs it: one pass over the entries with a
      body buffer that is either posted and cleared after each entry or
      posted once at the end. */
  method WriteChunk(cfg: Config, chunk: seq<Entry>, respond: nat -> Response)
    returns (sent: seq<Request>, outcome: Result<(), Failure>)
    ensures Flush(sent, outcome) == Write(cfg, chunk, respond)
  {
    if cfg.sendBatchedEvents {
      sent, outcome := WriteBatched(cfg, chunk, respond);
    } else {
      sent, outcome := WriteEach(cfg, chunk, respond);
    }
  }

  /** The batched pass: the body grows by one line per entry and is posted
      after the last. */
  method WriteBatched(cfg: Config, chunk: seq<Entry>, respond: nat -> Response)
    returns (sent: seq<Request>, outcome: Result<(), Failure>)
    requires cfg.sendBatchedEvents
    ensures Flush(sent, outcome) == Write(cfg, chunk, respond)
  {
    var envs := EnvelopeResults(cfg, chunk);
    var body := "";
    var k := 0;
    while k < |chunk|
      invariant 0 <= k <= |chunk|
      invariant Collect(envs[..k]).Ok? && body == Lines(Collect(envs[..k]).value)
    {
      var env := Envelope(cfg, chunk[k]);
      assert env == envs[k];
      BatchStep(envs, k, body);
      if env.Err? {
        return [], Err(env.error);
      }
      body := body + env.value + "\n";
      k := k + 1;
    }
    assert envs[..k] == envs;
    sent := [MakeRequest(cfg, body)];
    outcome := CheckResponse(respond(0));
  }

  /** The unbatched pass: each envelope is posted as soon as it is built. */
  method WriteEach(cfg: Config, chunk: seq<Entry>, respond: nat -> Response)
    returns (sent: seq<Request>, outcome: Result<(), Failure>)
    requires !cfg.sendBatchedEvents
    ensures Flush(sent, outcome) == Write(cfg, chunk, respond)
  {
    var envs := EnvelopeResults(cfg, chunk);
    var verdicts := Verdicts(respond, |chunk|);
    sent := [];
    var k := 0;
    while k < |chunk|
      invariant 0 <= k <= |chunk|
      invariant |sent| == k && Continue(sent, SendEach(cfg, envs[k..], verdicts[k..])) == SendEach(cfg, envs, verdicts)
    {
      var env := Envelope(cfg, chunk[k]);
      assert env == envs[k];
      if env.Err? {
        EachStop(cfg, envs, verdicts, k);
        return sent, Err(env.error);
      }
      var req := MakeRequest(cfg, env.value);
      var answer := CheckResponse(respond(k));
      assert answer == verdicts[k];
      SendEachStep(cfg, envs, verdicts, k, sent);
      sent := sent + [req];
      if answer.Err? {
        return sent, Err(answer.error);
      }
      k := k + 1;
    }
    outcome := Ok(());
  }

  // ---------------------------------------------------------------------------
  // The flush, entry by entry

  /** Unbatched: the `k`-th request posts exactly the envelope of the `k`-th
      entry, with no newline added, and a flush that returns posted one
      request per entry after every answer was 200. */
  lemma UnbatchedRequests(cfg: Config, chunk: seq<Entry>, respond: nat -> Response)
    requires !cfg.sendBatchedEvents
    ensures var f := Write(cfg, chunk, respond);
            && (forall k :: 0 <= k < |f.sent| ==>
                  Envelope(cfg, chunk[k]).Ok? && f.sent[k] == MakeRequest(cfg, Envelope(cfg, chunk[k]).value))
            && (f.outcome.Ok? ==> |f.sent| == |chunk| && forall n :: 0 <= n < |chunk| ==> respond(n).status == 200)
  {
    var envs := EnvelopeResults(cfg, chunk);
    var verdicts := Verdicts(respond, |chunk|);
    var f := Write(cfg, chunk, respond);
    assert f == SendEach(cfg, envs, verdicts);
    SendEachRequests(cfg, envs, verdicts);
    SendEachAnswers(cfg, envs, verdicts);
    forall k | 0 <= k < |f.sent|
      ensures Envelope(cfg, chunk[k]).Ok? && f.sent[k] == MakeRequest(cfg, Envelope(cfg, chunk[k]).value)
    {
      assert envs[k] == Envelope(cfg, chunk[k]);
    }
    if f.outcome.Ok? {
      forall n | 0 <= n < |chunk|
        ensures respond(n).status == 200
      {
        assert verdicts[n] == CheckResponse(respond(n));
      }
    }
  }

  /** Unbatched: a flush that raises stopped at entry `|sent| - 1` on its
      answer, or at entry `|sent|` on its envelope; later entries are not
      sent. */
  lemma UnbatchedFailure(cfg: Config, chunk: seq<Entry>, respond: nat -> Response)
    requires !cfg.sendBatchedEvents
    ensures var f := Write(cfg, chunk, respond);
            f.outcome.Err? ==>
              if |f.sent| > 0 && respond(|f.sent| - 1).status != 200 then
                f.outcome == CheckResponse(respond(|f.sent| - 1))
              else
                |f.sent| < |chunk| && Envelope(cfg, chunk[|f.sent|]).Err?
                && f.outcome.error == Envelope(cfg, chunk[|f.sent|]).error
  {
    var envs := EnvelopeResults(cfg, chunk);
    var verdicts := Verdicts(respond, |chunk|);
    var f := Write(cfg, chunk, respond);
    assert f == SendEach(cfg, envs, verdicts);
    SendEachFailure(cfg, envs, verdicts);
    if f.outcome.Err? {
      if |f.sent| > 0 {
        assert verdicts[|f.sent| - 1] == CheckResponse(respond(|f.sent| - 1));
      }
      if |f.sent| < |chunk| {
        assert envs[|f.sent|] == Envelope(cfg, chunk[|f.sent|]);
      }
    }
  }

  /** Batched: when every entry has an envelope and none holds a newline,
      the one request's body splits back into the envelopes, in chunk
      order. */
  lemma BatchedBody(cfg: Config, chunk: seq<Entry>, respond: nat -> Response)
    requires cfg.sendBatchedEvents
    requires forall k :: 0 <= k < |chunk| ==> Envelope(cfg, chunk[k]).Ok? && '\n' !in Envelope(cfg, chunk[k]).value
    ensures var f := Write(cfg, chunk, respond);
            && |f.sent| == 1 && f.outcome == CheckResponse(respond(0))
            && |SplitLines(f.sent[0].body)| == |chunk|
            && forall k :: 0 <= k < |chunk| ==> Envelope(cfg, chunk[k]) == Ok(SplitLines(f.sent[0].body)[k])
  {
    var results := EnvelopeResults(cfg, chunk);
    assert forall k :: 0 <= k < |results| ==> results[k].Ok?;
    var envs := Collect(results).value;
    forall k | 0 <= k < |envs|
      ensures '\n' !in envs[k] && Envelope(cfg, chunk[k]) == Ok(envs[k])
    {
      assert results[k] == Ok(envs[k]);
    }
    SplitLinesOfLines(envs);
  }

  /** Batched: when every entry has an envelope and the texts pasted around
      the events hold no line break, the one request's body splits back into
      the envelopes, in chunk order. */
  lemma BatchedOneLineBody(cfg: Config, chunk: seq<Entry>, respond: nat -> Response)
    requires cfg.sendBatchedEvents
    requires forall k :: 0 <= k < |chunk| ==> Envelope(cfg, chunk[k]).Ok? && OneLineMeta(cfg, chunk[k])
    ensures var f := Write(cfg, chunk, respond);
            && |f.sent| == 1 && f.outcome == CheckResponse(respond(0))
            && |SplitLines(f.sent[0].body)| == |chunk|
            && forall k :: 0 <= k < |chunk| ==> Envelope(cfg, chunk[k]) == Ok(SplitLines(f.sent[0].body)[k])
  {
    forall k | 0 <= k < |chunk|
      ensures '\n' !in Envelope(cfg, chunk[k]).value
    {
      EnvelopeOneLine(cfg, chunk[k]);
    }
    BatchedBody(cfg, chunk, respond);
  }
}
