# fluent-plugin-splunkhec, modelled in Dafny

`Fluent::SplunkHECOutput` is a buffered Fluentd output. For every flushed
buffer chunk, `write` does the following for each `(tag, time, record)` triple:

- It turns the record into an *event* with a type switch:
  - an integer becomes its decimal text;
  - a hash becomes its JSON text, with every quote escaped unless `send_event_as_json` is set;
  - anything else is left as it is.
- It picks the *sourcetype*: the tag when the configured sourcetype is the word `tag`, the configured value otherwise.
- It picks the *index*: the configured one, or the `dynamic_index_pattern` evaluated against the record.
- It pastes these into one of three JSON *envelope* templates:
  - `usejson` with `send_event_as_json`: the event goes in unquoted;
  - `usejson` without it: the event goes in between quotes;
  - the "log4j" template: the record's `time` becomes epoch milliseconds, and the event is `time + " " + message`.
- It delivers the envelopes in one of two ways:
  - unbatched: each envelope is POSTed as soon as it is built;
  - batched: the envelopes are joined, each followed by a newline, and sent in one POST after the loop.

`send_to_splunk` builds the POST:

- The URL is fixed at configure time.
- It carries a `Splunk <token>` authorization header and a JSON content type.
- Any answer other than 200 raises `SplunkHECOutputError`. The error message comes from the collector's JSON reply.

The model is purely functional. A record is a JSON-like `Json.Value`. Ruby
exceptions are `Failure` values carried in `Result`. The collector is an
oracle `respond: nat -> Response`: request number `n` of a flush gets
`respond(n)`. A flush is a `Flush`, meaning the requests sent plus the final
outcome.

The modules, in dependency order:

- `Outcome`: `Result`, `Option` and the exceptions a flush can end with.
- `Decimal`: Ruby's `Integer#to_s` and its reader.
- `Json`: `to_json`, meaning compact serialisation with JSON string escaping. Also `JSON.parse`, a parser that accepts white space.
  - `JsonFacts` proves that the parser reads back what the serialiser writes. The envelope statements rest on this.
- `Ruby`: `v['k']`, `String#+` and `"#{v}"` on record values, including the exceptions they raise on `nil`, integers and containers.
- `IndexPattern`: the dynamic index pattern, restricted to a closed grammar:
  - literal text;
  - `${source}`;
  - `${record['k1']['k2']...}`.
  The module has a printer and a reader for patterns, and their evaluation.
- `Quoting`: the two `gsub` calls, `gsub("\"", "\\\"")` and `gsub(/^"|"$/, "")`.
- `Timestamp`: `DateTime.parse` on the layout `YYYY-MM-DD HH:MM:SS` (UTC), the calendar arithmetic behind `strftime("%Q")`, and a writer for the layout.
- `EventEnvelope`: the configuration, the type switch, the sourcetype and index choices, the three templates, and the envelope of one entry.
- `EnvelopeFacts`, `EnvelopeModes`: what the collector reads from each template, proved by applying the model's `JSON.parse` to the envelope text.
- `Delivery`: the request, the response check, and `write` in two forms:
  - a function (`Write`);
  - the plugin's loop (`WriteChunk`), proved equal to it.

The default template (`usejson` without `send_event_as_json`) escapes only
the quotes of a hash's JSON text. When that text holds no backslash, this
is JSON string escaping, and the collector reads the JSON text back as a
string (`EnvelopeModes.StringEventHash`). A backslash breaks this.
`Quoting.EscapeQuotesMisreadsBackslash` shows the smallest case, the JSON
text of the one-character string `\`: with its quotes escaped and placed
between quotes, it reads back as a quote, a backslash and a quote, not as
that JSON text. The model keeps the
substitution exactly as the code writes it.

## Model

| member | source | states |
|---|---|---|
| Decimal.IntToString | lib/fluent/plugin/out_splunkhec.rb:66 | `to_s` of an integer is one or more digits, preceded by `-` exactly for a negative number |
| Decimal.IntToStringRoundTrip | lib/fluent/plugin/out_splunkhec.rb:66 | reading the text of any integer back gives that integer |
| Decimal.IntToStringInjective | lib/fluent/plugin/out_splunkhec.rb:94 | two different event times never print the same `time` field |
| Json.Serialize | lib/fluent/plugin/out_splunkhec.rb:69 | `to_json` text is never empty, never starts with white space and holds no raw control character |
| Json.Escape | lib/fluent/plugin/out_splunkhec.rb:69 | the escaped body of a JSON string holds no raw control character |
| JsonFacts.DecodeSerialized | lib/fluent/plugin/out_splunkhec.rb:69 | the reader gives back every value the writer writes, including objects with repeated keys, which no Ruby hash has |
| EventEnvelope.RecordJsonRoundTrip | lib/fluent/plugin/out_splunkhec.rb:69 | for a hash as Ruby holds it (distinct keys at every depth), `to_json` writes each key once with the value the hash holds for it, and `JSON.parse` of that text gives the hash back |
| Ruby.HashMembersAgree | lib/fluent/plugin/out_splunkhec.rb:91 | with distinct keys, looking up any member's key gives that member's value |
| JsonFacts.SerializeInjective | lib/fluent/plugin/out_splunkhec.rb:69 | different records have different JSON texts |
| JsonFacts.EscapeIdentityIffPlain | lib/fluent/plugin/out_splunkhec.rb:69 | escaping leaves a string unchanged exactly when it holds no quote, backslash or control character |
| JsonFacts.EscapeHasNoNewline | lib/fluent/plugin/out_splunkhec.rb:69 | escaped string bodies never hold a raw newline |
| Ruby.Lookup | lib/fluent/plugin/out_splunkhec.rb:91 | a missing key reads as `nil` |
| Ruby.LookupLast | lib/fluent/plugin/out_splunkhec.rb:91 | a hash built from members holds the value of the last member with the key |
| Ruby.LookupPresent | lib/fluent/plugin/out_splunkhec.rb:91 | a present key reads as the value of one of its members |
| Ruby.ToS | lib/fluent/plugin/out_splunkhec.rb:146 | interpolation prints `nil` as nothing, a string as itself and an integer as text that reads back as it |
| Ruby.IndexPathAppend | lib/fluent/plugin/out_splunkhec.rb:82 | following `['a']['b']...` is following its first part and then the rest, stopping at the first failure |
| IndexPattern.EvalPattern | lib/fluent/plugin/out_splunkhec.rb:82 | a pattern outside the grammar fails with the reader's error before anything is evaluated |
| IndexPattern.ParsePrint | lib/fluent/plugin/out_splunkhec.rb:82 | reading a written pattern gives back its segments |
| IndexPattern.PrintParse | lib/fluent/plugin/out_splunkhec.rb:82 | every pattern that is read is well formed, and writing it back gives the original text |
| IndexPattern.EvalAppend | lib/fluent/plugin/out_splunkhec.rb:82 | the interpolation of two pattern parts is the two interpolations joined, the first failure winning |
| IndexPattern.EvalLiterals | lib/fluent/plugin/out_splunkhec.rb:82 | literal text evaluates to itself |
| IndexPattern.DynamicIndexExample | test/plugin/test_out_splunkhec.rb:189-209 | `prefix_${source}_${record['kubernetes']['pod_name']}` with source `fluentd` and pod `mypod` gives `prefix_fluentd_mypod` |
| Quoting.EscapeQuotes | lib/fluent/plugin/out_splunkhec.rb:71 | the substituted text is never shorter and never starts with a bare quote |
| Quoting.UnescapeEscapeQuotes | lib/fluent/plugin/out_splunkhec.rb:71 | deleting the inserted backslashes recovers the JSON text |
| Quoting.EscapeQuotesInjective | lib/fluent/plugin/out_splunkhec.rb:71 | different texts stay different after the substitution |
| Quoting.EscapeQuotesIdentity | lib/fluent/plugin/out_splunkhec.rb:71 | the substitution changes nothing exactly when the text holds no quote |
| Quoting.EscapeQuotesIsEscape | lib/fluent/plugin/out_splunkhec.rb:71 | on text without backslashes or control characters, the substitution is JSON string escaping |
| Quoting.EscapeQuotesMisreadsBackslash | lib/fluent/plugin/out_splunkhec.rb:71 | the JSON text of the one-character string `\`, with its quotes escaped and placed between quotes, reads back as a different string (a quote, a backslash and a quote) |
| Quoting.StripQuotes | lib/fluent/plugin/out_splunkhec.rb:91 | removing the leading and trailing quote never lengthens the text |
| Quoting.StripQuotesOfQuote | lib/fluent/plugin/out_splunkhec.rb:91 | stripping the quotes of a string's `to_json` leaves exactly its escaped body |
| Quoting.StripQuotesUnquoted | lib/fluent/plugin/out_splunkhec.rb:91 | one-line JSON text that does not start or end with a quote (a number, a hash) passes unchanged |
| Timestamp.ParseDateTime | lib/fluent/plugin/out_splunkhec.rb:92 | a parsed time is a valid calendar date and time of day; every failure is an invalid date or an input outside the model |
| Timestamp.ParseDateTimeOutcome | lib/fluent/plugin/out_splunkhec.rb:92 | on a text of the layout with a Gregorian year, the parse succeeds exactly for a valid date and time and gives the written fields; it raises "invalid date" exactly when the calendar date does not exist or the time of day is out of range and not one of the two times Ruby rolls over |
| Timestamp.ExampleInvalidDates | lib/fluent/plugin/out_splunkhec.rb:92 | `2017-02-29 12:00:00` and `2017-07-02 25:00:00` both raise "invalid date" |
| Timestamp.ParseFormat | lib/fluent/plugin/out_splunkhec.rb:92 | reading a written time gives back the time |
| Timestamp.FormatParse | lib/fluent/plugin/out_splunkhec.rb:92 | every accepted text is the written form of the time read from it |
| Timestamp.EpochStart | lib/fluent/plugin/out_splunkhec.rb:92 | 1970-01-01 is day 0 of the epoch |
| Timestamp.NextDayNumber | lib/fluent/plugin/out_splunkhec.rb:92 | the next calendar day is the next day number |
| Timestamp.EpochDaysOrder | lib/fluent/plugin/out_splunkhec.rb:92 | earlier dates have smaller day numbers |
| Timestamp.EpochDaysInjective | lib/fluent/plugin/out_splunkhec.rb:92 | different valid dates have different day numbers |
| Timestamp.MillisText | lib/fluent/plugin/out_splunkhec.rb:92 | the `time` field exists exactly when the time parses; it reads back as the epoch milliseconds; otherwise the parser's error is raised |
| Timestamp.MillisExample | test/plugin/test_out_splunkhec.rb:118-132 | `2017-07-02 20:52:39` gives `1499028759000` |
| EnvelopeModes.CollectorMeta | lib/fluent/plugin/out_splunkhec.rb:77-85 | in an envelope the collector reads as intended, `sourcetype` is the event's tag exactly when configured as `tag` and otherwise the configured sourcetype whatever the tag; `index` is the configured index, or with `dynamic_index` the pattern's value for the record; `source` and `host` are the configured ones |
| EventEnvelope.NormalizeEvent | lib/fluent/plugin/out_splunkhec.rb:64-75 | integers and hashes become strings; a record of any other kind is left as it is |
| EventEnvelope.NormalizeEventReadsBack | lib/fluent/plugin/out_splunkhec.rb:64-75 | an integer's event reads back as the integer; a hash's event parses back to the hash, directly or after unescaping the quotes |
| EventEnvelope.Log4jEvent | lib/fluent/plugin/out_splunkhec.rb:91 | the log4j event exists only when the record's `time` is a string |
| EventEnvelope.Envelope | lib/fluent/plugin/out_splunkhec.rb:89-97 | an envelope exists exactly when the index is chosen and either the event is a string (JSON templates) or the log4j event and the time both succeed; index errors come first |
| EnvelopeFacts.JsonEventDecodes | lib/fluent/plugin/out_splunkhec.rb:94 | the template with an unquoted JSON event parses to the object `{time, event, sourcetype, source, index, host}` holding the event's value |
| EnvelopeFacts.StringEventDecodes | lib/fluent/plugin/out_splunkhec.rb:96 | the quoted template parses to the same object, with the event as the string its text escapes |
| EnvelopeFacts.Log4jDecodes | lib/fluent/plugin/out_splunkhec.rb:92 | the log4j template parses to the object with the time and the event as strings |
| EnvelopeModes.JsonEventHash | test/plugin/test_out_splunkhec.rb:134-145 | with `send_event_as_json`, the collector reads a hash record back as the `event` itself |
| EnvelopeModes.JsonEventInteger | lib/fluent/plugin/out_splunkhec.rb:94 | with `send_event_as_json`, an integer record arrives as that number |
| EnvelopeModes.StringEventHash | test/plugin/test_out_splunkhec.rb:106-116 | by default, a hash without backslashes in its JSON arrives as the string of its JSON text |
| EnvelopeModes.StringEventInteger | lib/fluent/plugin/out_splunkhec.rb:96 | by default, an integer record arrives as the string of its digits |
| EnvelopeModes.StringEventString | lib/fluent/plugin/out_splunkhec.rb:96 | by default, a string record that needs no escaping arrives unchanged |
| EnvelopeModes.JsonModeRejects | lib/fluent/plugin/out_splunkhec.rb:94-96 | `nil`, booleans and arrays cannot be appended to a JSON template and raise `TypeError` |
| EnvelopeModes.Log4jMode | lib/fluent/plugin/out_splunkhec.rb:90-92 | a hash with a layout `time` and a string `message` arrives with the epoch milliseconds as `time` and `time + " " + message` as `event` |
| EnvelopeModes.Log4jLine | lib/fluent/plugin/out_splunkhec.rb:91 | for a record whose `time` needs no escaping and whose `message` is a string, the log4j event is the JSON-escaped form of `time + " " + message` |
| EnvelopeModes.Log4jMissingTime | lib/fluent/plugin/out_splunkhec.rb:91 | a hash without `time` raises `NoMethodError` in log4j mode |
| EnvelopeModes.Log4jBadTime | lib/fluent/plugin/out_splunkhec.rb:92 | a `time` that is no date raises the date parser's error |
| Delivery.UrlSplits | lib/fluent/plugin/out_splunkhec.rb:33 | a URL reader takes the configured URL apart into the protocol, host, port number and `/services/collector/event` again, when the protocol is `http` or `https`, the host is a host name (letters, digits, `-`, `.`) and the port is digits |
| Delivery.RequestTarget | lib/fluent/plugin/out_splunkhec.rb:115-132 | for an `http` or `https` URL with a host name and a numeric port, read back, every request connects to the configured host and port, posts to the collector path, carries `Splunk <token>` and the JSON content type and the given body, and uses TLS exactly for `https` |
| Delivery.CollectorError | lib/fluent/plugin/out_splunkhec.rb:138-139 | a hash reply with printable fields raises `SplunkHECOutputError`; a `nil`, boolean, integer or array reply raises on its first `[]` |
| Delivery.CheckResponse | lib/fluent/plugin/out_splunkhec.rb:137-139 | status 200 exactly returns; any other status raises: `NoMethodError` for a blank body, which the parser reads as `nil`, the parser's error for a body that is not JSON, and otherwise the error of `Delivery.CollectorError` for the parsed reply |
| Delivery.BlankReply | lib/fluent/plugin/out_splunkhec.rb:137-139 | an answer other than 200 with an empty or white-space body raises `NoMethodError`, although strict JSON would reject that body |
| Delivery.TextReply | lib/fluent/plugin/out_splunkhec.rb:137-138 | an answer other than 200 whose body is plain text starting with a capital letter raises the parser's error before any field is read |
| Delivery.RejectedMessage | lib/fluent/plugin/out_splunkhec.rb:144-147 | a reply with `text` and `code` raises with the message `text (http status code s, status code c, invalid event number )` |
| Delivery.RejectedEventMessage | lib/fluent/plugin/out_splunkhec.rb:138-147 | a reply with `text`, `code` and a numeric `invalid-event-number` raises with the message `text (http status code s, status code c, invalid event number n)` |
| Delivery.TokenDisabled | test/plugin/test_out_splunkhec.rb:165-174 | a 403 with `{"text":"Token disabled","code":1}` raises `Token disabled (http status code 403, status code 1, invalid event number )` |
| Delivery.Collect | lib/fluent/plugin/out_splunkhec.rb:99-100 | all envelopes of a batched chunk, or the error of the first entry that has none |
| Delivery.Write | lib/fluent/plugin/out_splunkhec.rb:60-110 | batched: at most one request, and none if an envelope fails; unbatched: no more requests than entries |
| Delivery.WriteChunk | lib/fluent/plugin/out_splunkhec.rb:60-110 | the plugin's loop, with its shared body buffer and early exits, sends exactly the requests of `Write` and ends with its outcome |
| Delivery.WriteBatched | lib/fluent/plugin/out_splunkhec.rb:99-109 | the batched pass appends each envelope and a newline to one buffer, stops before sending at the first entry without an envelope, and posts the buffer once at the end, exactly as `Write` does |
| Delivery.WriteEach | lib/fluent/plugin/out_splunkhec.rb:99-104 | the unbatched pass posts each envelope as soon as it is built and stops at the first missing envelope or bad answer, exactly as `Write` does |
| Delivery.UnbatchedRequests | lib/fluent/plugin/out_splunkhec.rb:99-104 | unbatched request `k` carries exactly entry `k`'s envelope; a flush that returns sent one request per entry and every answer was 200 |
| Delivery.UnbatchedFailure | lib/fluent/plugin/out_splunkhec.rb:102 | an unbatched flush that raises stopped at the last request's bad answer, or at the first entry without an envelope; nothing after it is sent |
| Delivery.BatchedBody | test/plugin/test_out_splunkhec.rb:147-163 | when every entry has an envelope and no envelope holds a line break, a batched flush sends one request whose body splits at its newlines into the entries' envelopes, in order |
| EnvelopeModes.EnvelopeOneLine | lib/fluent/plugin/out_splunkhec.rb:90-97 | an envelope holds no line break when the sourcetype, source, index and host hold none and a string record holds none, in every template |
| Delivery.BatchedOneLineBody | lib/fluent/plugin/out_splunkhec.rb:99-109 | when every entry has an envelope and those texts hold no line break, the batched body splits at its newlines into the entries' envelopes, in order |
| Delivery.EmptyChunk | lib/fluent/plugin/out_splunkhec.rb:107-109 | an empty chunk sends nothing unbatched, but one request with an empty body when batched |
| Delivery.SplitLinesOfLines | lib/fluent/plugin/out_splunkhec.rb:100 | envelopes without newlines are recovered from their newline-terminated concatenation |

## Left out

- Network and TLS: the socket I/O of `Net::HTTP` and `VERIFY_NONE` are not modelled. The collector is the oracle `respond`, and TLS is only the `useSsl` flag of a request.
- The `hostname` shell-out and its `unknown` fallback: `eventHost` in `Config` is taken as given.
- Msgpack `format` and `chunk.msgpack_each`: these belong to Fluentd's buffer. A chunk is a sequence of `Entry` values.
- Configuration parsing, defaults, the missing-token `ConfigError`, `start`, `shutdown` and debug logging: these are Fluentd machinery, not plugin logic.
- General Ruby `eval` of the index pattern: only literal text, `${source}` and `${record[...]...}` are modelled. Any other pattern fails with `OutsideModel`, because Ruby would run it as code.
- yajl internals and the binary-to-UTF-8 conversion of a test record: strings are sequences of characters, and encodings are not modelled.
- Floats: records hold integers only. The parser rejects numbers with a fraction or exponent.
- `inspect` of hashes and arrays inside the error message: `Ruby.ToS` returns `OutsideModel` for them.
- `\u` escapes of surrogate halves: the parser rejects them instead of combining a pair into one character.
- `DateTime.parse`: only the layout `YYYY-MM-DD HH:MM:SS` is modelled, read as UTC, with years 1583 to 9999. Other layouts and earlier years (Ruby counts them in the Julian calendar) fail with `OutsideModel`.
- `Fixnum`: modelled as Ruby's `Integer`. On Ruby 3.2 and later the constant no longer exists, and `write` would raise `NameError`. Before Ruby 2.4, `Fixnum` does not match a large integer (a `Bignum`): such a record falls to the `else` branch and raises `TypeError` in the JSON templates, where the model prints its digits.
- Repeated hash keys: `Json.Value` admits objects holding a key twice, which no Ruby hash does. Records reach `write` from a Ruby hash through `format`, so they satisfy `Ruby.DistinctKeys`. `JsonFacts.DecodeSerialized` and `EventEnvelope.NormalizeEventReadsBack` hold for every value; their claims about Ruby hashes are meant for values with distinct keys, as `EventEnvelope.RecordJsonRoundTrip` states.
- Delivery.UrlSplits: stated only for the protocol `http` or `https`, a host name of letters, digits, `-` and `.` (no user part, IPv6 literal, query or fragment) and a port of digits. `URI` splits other hosts differently.
- Delivery.RequestTarget: stated only for the configurations of `Delivery.UrlSplits`. `URI` reads the scheme without regard to case, so a protocol such as `HTTPS` or `Http` is accepted by `Net::HTTP::Post.new`; the TLS test compares with `https` exactly, so that request goes out without TLS, which is what `Delivery.MakeRequest` builds. For any other scheme, `Net::HTTP::Post.new` raises `ArgumentError`. A protocol that is empty or holds characters a scheme cannot hold makes `URI` raise `InvalidURIError` first. `Delivery.MakeRequest` and `Delivery.Write` do not model these two raises and build the request anyway.
- `DateTime.parse` of `24:00:00` and of second 60: Ruby rolls these over to the next day or minute. The model reports them as `OutsideModel`.
- The response status is a number, `Response.status`. Ruby keeps it as the text `res.code` and compares `to_i`. The error message prints the number's decimal text.
- Batched mode with an empty chunk: the code sends one request with an empty body, and the model follows the code (`Delivery.EmptyChunk`).
- EnvelopeFacts.JsonEventDecodes: stated only for sourcetype, source, index and host that need no JSON escaping. The templates paste these between quotes unescaped, so other values give text the collector reads differently.
- EnvelopeFacts.StringEventDecodes: stated only for metadata that needs no JSON escaping, for the same reason.
- EnvelopeFacts.Log4jDecodes: stated only for metadata that needs no JSON escaping, for the same reason.
- EnvelopeModes.Log4jMode: stated only for metadata that needs no escaping (`PlainMeta`), as above.
- EnvelopeModes.JsonEventHash: stated only under `PlainMeta`.
- EnvelopeModes.JsonEventInteger: stated only under `PlainMeta`.
- EnvelopeModes.StringEventInteger: stated only under `PlainMeta`.
- EnvelopeModes.CollectorMeta: stated only for envelopes the collector reads as the intended object, which the mode lemmas give under `PlainMeta`.
- EnvelopeModes.EnvelopeOneLine: stated only for one-line metadata and string records. The templates paste these unescaped, so a line break in them ends up in the envelope and splits a batched body.
- EnvelopeModes.StringEventHash: stated only for hashes whose JSON text holds no backslash, under `PlainMeta`. `Quoting.EscapeQuotesMisreadsBackslash` shows what happens otherwise.
- EnvelopeModes.StringEventString: stated only for strings that need no JSON escaping, under `PlainMeta`. Other strings are pasted unescaped.
- Delivery.CheckResponse: apart from a blank body, the reply is read as strict JSON (RFC 8259). The `yajl/json_gem` parser is more lenient, for example it accepts comments, so some bodies that raise `JsonParserError` in the model are read by Ruby and raise from the lookups instead.
- Delivery.CollectorError: states the error class for the reply shapes listed, not the full message. `Delivery.RejectedMessage` gives the message for the collector's usual reply.
