/** One buffered event turned into the text of a Splunk HTTP Event Collector
    envelope: the record's type switch, the sourcetype and index choices and
    the three string templates of `SplunkHECOutput#write`. */
module EventEnvelope {
  import opened Outcome
  import opened Decimal
  import opened Json
  import opened JsonFacts
  import opened Quoting
  import opened Timestamp
  import opened Ruby
  import opened IndexPattern

  /** The plugin's configuration after `configure`. `eventHost` is the
      configured `event_host`, or the machine's host name when none is set. */
  datatype Config = Config(
    host: string,
    protocol: string,
    port: string,
    token: string,
    index: string,
    eventHost: string,
    source: string,
    sourcetype: string,
    sendEventAsJson: bool,
    useJson: bool,
    sendBatchedEvents: bool,
    dynamicIndex: bool,
    dynamicIndexPattern: Option<string>)

  /** One `(tag, time, record)` triple of a buffer chunk. */
  datatype Entry = Entry(tag: string, time: int, record: Value)

  /** The configured sourcetype, or the event's tag when it is the word `tag`. */
  function Sourcetype(cfg: Config, tag: string): string {
    if cfg.sourcetype == "tag" then tag else cfg.sourcetype
  }

  /** The type switch on the record: an integer becomes its decimal text, a
      hash its JSON text (with every quote escaped unless events go out as
      JSON), anything else is left as it is. */
  function NormalizeEvent(cfg: Config, record: Value): (event: Value)
    ensures record.Int? || record.Obj? ==> event.Str?
    ensures !record.Int? && !record.Obj? ==> event == record
  {
    match record
    case Int(i) => Str(IntToString(i))
    case Obj(_) =>
      var text := Serialize(record);
      if cfg.sendEventAsJson then Str(text) else Str(EscapeQuotes(text))
    case _ => record
  }

  /** The event text of an integer reads back as the integer, and that of a
      hash parses back to the hash, directly or once its quotes are
      unescaped. */
  lemma NormalizeEventReadsBack(cfg: Config, record: Value)
    ensures record.Int? ==> ParseInt(NormalizeEvent(cfg, record).s) == Some(record.i)
    ensures record.Obj? && cfg.sendEventAsJson ==> Decode(NormalizeEvent(cfg, record).s) == Ok(record)
    ensures record.Obj? && !cfg.sendEventAsJson ==>
              Decode(UnescapeQuotes(NormalizeEvent(cfg, record).s)) == Ok(record)
  {
    match record
    case Int(i) => IntToStringRoundTrip(i);
    case Obj(_) =>
      DecodeSerialized(record);
      UnescapeEscapeQuotes(Serialize(record));
    case _ =>
  }

  /** A record as Ruby holds it, a hash with distinct keys, is written by
      `to_json` with each key once and the value the hash holds for it, and
      that text reads back as the same hash. */
  lemma RecordJsonRoundTrip(record: Value)
    requires record.Obj? && DistinctKeys(record)
    ensures Decode(Serialize(record)) == Ok(record)
    ensures forall i :: 0 <= i < |record.members| ==>
              Lookup(record.members, record.members[i].0) == record.members[i].1
  {
    DecodeSerialized(record);
    HashMembersAgree(record.members);
  }

  /** The index of an event: the configured one, or the dynamic pattern
      evaluated against the record (a missing pattern is `nil.gsub`). */
  function SelectIndex(cfg: Config, record: Value): Result<string, Failure> {
    if !cfg.dynamicIndex then Ok(cfg.index)
    else
      match cfg.dynamicIndexPattern
      case None => Err(NoMethodError)
      case Some(p) => EvalPattern(p, cfg.source, record)
  }

  // ---------------------------------------------------------------------------
  // The templates

  /** The part all three templates share: sourcetype, source, index and host,
      each between quotes, and the closing brace. */
  function MetaTail(st: string, src: string, idx: string, host: string): string {
    ", \"sourcetype\" :\"" + (st + ("\", \"source\" :\"" + (src + ("\", \"index\" :\""
      + (idx + ("\", \"host\" : \"" + (host + "\"}")))))))
  }

  /** The log4j template (`usejson` false): the time is a quoted millisecond
      count and the event a quoted line of text. */
  function Log4jText(millis: string, event: string, st: string, src: string, idx: string, host: string): string {
    "{\"time\":\"" + (millis + ("\", \"event\":\"" + (event + ("\"" + MetaTail(st, src, idx, host)))))
  }

  /** The JSON template with `send_event_as_json`: the event text goes in as is. */
  function JsonEventText(time: string, event: string, st: string, src: string, idx: string, host: string): string {
    "{\"time\" :" + (time + (", \"event\" :" + (event + MetaTail(st, src, idx, host))))
  }

  /** The default JSON template: the event text goes in between quotes. */
  function StringEventText(time: string, event: string, st: string, src: string, idx: string, host: string): string {
    "{\"time\" :" + (time + (", \"event\" :\"" + (event + ("\"" + MetaTail(st, src, idx, host)))))
  }

  /** `record["time"] + " " + record["message"].to_json.gsub(/^"|"$/, "")`,
      evaluated left to right. */
  function Log4jEvent(record: Value): (r: Result<string, Failure>)
    ensures r.Ok? ==> Index(record, "time").Ok? && Index(record, "time").value.Str?
  {
    match Index(record, "time")
    case Err(e) => Err(e)
    case Ok(t) =>
      match PlusString(t, " ")
      case Err(e) => Err(e)
      case Ok(head) =>
        match Index(record, "message")
        case Err(e) => Err(e)
        case Ok(m) => Ok(head + StripQuotes(Serialize(m)))
  }

  /** The envelope of one entry, or the exception building it raises. */
  function Envelope(cfg: Config, e: Entry): (r: Result<string, Failure>)
    ensures SelectIndex(cfg, e.record).Err? ==> r == Err(SelectIndex(cfg, e.record).error)
    ensures cfg.useJson ==> (r.Ok? <==> SelectIndex(cfg, e.record).Ok? && NormalizeEvent(cfg, e.record).Str?)
    ensures !cfg.useJson ==>
              (r.Ok? <==> SelectIndex(cfg, e.record).Ok? && Log4jEvent(e.record).Ok?
                          && ParseDateTime(Index(e.record, "time").value.s).Ok?)
  {
    var event := NormalizeEvent(cfg, e.record);
    var st := Sourcetype(cfg, e.tag);
    match SelectIndex(cfg, e.record)
    case Err(err) => Err(err)
    case Ok(idx) =>
      if !cfg.useJson then
        match Log4jEvent(e.record)
        case Err(err) => Err(err)
        case Ok(line) =>
          match MillisText(Index(e.record, "time").value.s)
          case Err(err) => Err(err)
          case Ok(ms) => Ok(Log4jText(ms, line, st, cfg.source, idx, cfg.eventHost))
      else
        match StringArgument(event)
        case Err(err) => Err(err)
        case Ok(text) =>
          if cfg.sendEventAsJson then Ok(JsonEventText(IntToString(e.time), text, st, cfg.source, idx, cfg.eventHost))
          else Ok(StringEventText(IntToString(e.time), text, st, cfg.source, idx, cfg.eventHost))
  }
}
