/** What the collector receives for one entry, mode by mode: the record's
    type and the three template switches decide the `event` field, and a
    record of the wrong kind makes `write` raise. */
module EnvelopeModes {
  import opened Outcome
  import opened Decimal
  import opened Json
  import opened JsonFacts
  import opened Quoting
  import opened Timestamp
  import opened Ruby
  import opened EventEnvelope
  import opened EnvelopeFacts
  import opened IndexPattern

  /** The index is chosen and sourcetype, source, index and host need no
      escaping in JSON. */
  predicate PlainMeta(cfg: Config, e: Entry) {
    && SelectIndex(cfg, e.record).Ok?
    && Plain(Sourcetype(cfg, e.tag))
    && Plain(cfg.source)
    && Plain(SelectIndex(cfg, e.record).value)
    && Plain(cfg.eventHost)
  }

  /** The object the collector should see for `e`, given its time and event. */
  function Expected(cfg: Config, e: Entry, time: Value, event: Value): Value
    requires SelectIndex(cfg, e.record).Ok?
  {
    Fields(time, event, Sourcetype(cfg, e.tag), cfg.source, SelectIndex(cfg, e.record).value, cfg.eventHost)
  }

  lemma IntTextPlain(i: int)
    ensures Plain(IntToString(i))
  {
    var s := IntToString(i);
    forall j | 0 <= j < |s|
      ensures PlainChar(s[j])
    {
      if i < 0 && j > 0 {
        assert s[j] == s[1..][j - 1];
      }
    }
  }

  lemma LayoutPlain(s: string)
    requires Layout(s)
    ensures Plain(s)
  {
    forall j | 0 <= j < |s|
      ensures PlainChar(s[j])
    {
      if j < 4 {
        assert IsDigit(s[j]);
      } else if 4 < j < 7 {
        assert IsDigit(s[j]);
      } else if 7 < j < 10 {
        assert IsDigit(s[j]);
      } else if 10 < j < 13 {
        assert IsDigit(s[j]);
      } else if 13 < j < 16 {
        assert IsDigit(s[j]);
      } else if 16 < j {
        assert IsDigit(s[j]);
      }
    }
  }

  // ---------------------------------------------------------------------------
  // The metadata the collector reads

  /** The six members of an envelope's object, in order. */
  lemma FieldsShape(time: Value, event: Value, st: string, src: string, idx: string, host: string)
    ensures var ms := Fields(time, event, st, src, idx, host).members;
            && |ms| == 6 && ms[0] == ("time", time) && ms[1] == ("event", event)
            && ms[2] == ("sourcetype", Str(st)) && ms[3] == ("source", Str(src))
            && ms[4] == ("index", Str(idx)) && ms[5] == ("host", Str(host))
  {
  }

  /** The keys differ from each other. */
  lemma FieldKeysDistinct()
    ensures "host" != "index" && "host" != "source" && "host" != "sourcetype" && "host" != "event" && "host" != "time"
    ensures "index" != "source" && "index" != "sourcetype" && "index" != "event" && "index" != "time"
    ensures "source" != "sourcetype" && "source" != "event" && "source" != "time"
    ensures "sourcetype" != "event" && "sourcetype" != "time" && "event" != "time"
  {
    assert "host"[0] != "time"[0] && "index"[0] != "event"[0];
  }

  /** The event's time and value are found under their keys. */
  lemma FieldsLookupEvent(time: Value, event: Value, st: string, src: string, idx: string, host: string)
    ensures var ms := Fields(time, event, st, src, idx, host).members;
            Lookup(ms, "time") == time && Lookup(ms, "event") == event
  {
    var ms := Fields(time, event, st, src, idx, host).members;
    FieldsShape(time, event, st, src, idx, host);
    FieldKeysDistinct();
    LookupLast(ms, "event", 1);
    LookupLast(ms, "time", 0);
  }

  /** The sourcetype and the source are found under their keys. */
  lemma FieldsLookupSource(time: Value, event: Value, st: string, src: string, idx: string, host: string)
    ensures var ms := Fields(time, event, st, src, idx, host).members;
            Lookup(ms, "sourcetype") == Str(st) && Lookup(ms, "source") == Str(src)
  {
    var ms := Fields(time, event, st, src, idx, host).members;
    FieldsShape(time, event, st, src, idx, host);
    FieldKeysDistinct();
    LookupLast(ms, "source", 3);
    LookupLast(ms, "sourcetype", 2);
  }

  /** The index and the host are found under their keys. */
  lemma FieldsLookupTarget(time: Value, event: Value, st: string, src: string, idx: string, host: string)
    ensures var ms := Fields(time, event, st, src, idx, host).members;
            Lookup(ms, "index") == Str(idx) && Lookup(ms, "host") == Str(host)
  {
    var ms := Fields(time, event, st, src, idx, host).members;
    FieldsShape(time, event, st, src, idx, host);
    FieldKeysDistinct();
    LookupLast(ms, "host", 5);
    LookupLast(ms, "index", 4);
  }

  /** What the collector finds under the metadata keys of an envelope it
      reads as the expected object (every mode lemma below gives one): the
      event's tag as sourcetype exactly when the sourcetype is configured as
      `tag`, and otherwise the configured sourcetype whatever the tag; the
      configured index without `dynamic_index`, and with it the value of the
      pattern for this record; the configured source and host. */
  lemma CollectorMeta(cfg: Config, e: Entry, time: Value, event: Value)
    requires Envelope(cfg, e).Ok?
    requires Decode(Envelope(cfg, e).value) == Ok(Expected(cfg, e, time, event))
    ensures var x := Decode(Envelope(cfg, e).value).value;
            && x.Obj?
            && Lookup(x.members, "time") == time && Lookup(x.members, "event") == event
            && (cfg.sourcetype == "tag" ==> Lookup(x.members, "sourcetype") == Str(e.tag))
            && (cfg.sourcetype != "tag" ==> Lookup(x.members, "sourcetype") == Str(cfg.sourcetype))
            && Lookup(x.members, "source") == Str(cfg.source)
            && (!cfg.dynamicIndex ==> Lookup(x.members, "index") == Str(cfg.index))
            && (cfg.dynamicIndex ==>
                  cfg.dynamicIndexPattern.Some?
                  && EvalPattern(cfg.dynamicIndexPattern.value, cfg.source, e.record).Ok?
                  && Lookup(x.members, "index") == Str(EvalPattern(cfg.dynamicIndexPattern.value, cfg.source, e.record).value))
            && Lookup(x.members, "host") == Str(cfg.eventHost)
  {
    var st, idx := Sourcetype(cfg, e.tag), SelectIndex(cfg, e.record).value;
    FieldsLookupEvent(time, event, st, cfg.source, idx, cfg.eventHost);
    FieldsLookupSource(time, event, st, cfg.source, idx, cfg.eventHost);
    FieldsLookupTarget(time, event, st, cfg.source, idx, cfg.eventHost);
  }

  // ---------------------------------------------------------------------------
  // Envelopes on one line

  /** The texts pasted into an envelope besides the event hold no line
      break, and neither does a string record. */
  predicate OneLineMeta(cfg: Config, e: Entry) {
    && SelectIndex(cfg, e.record).Ok?
    && NoNewline(Sourcetype(cfg, e.tag))
    && NoNewline(cfg.source)
    && NoNewline(SelectIndex(cfg, e.record).value)
    && NoNewline(cfg.eventHost)
    && (e.record.Str? ==> NoNewline(e.record.s))
  }

  lemma OneLineIff(s: string)
    ensures NoNewline(s) <==> '\n' !in s
  {
    if '\n' in s {
      var i :| 0 <= i < |s| && s[i] == '\n';
    }
  }

  lemma PlainOneLine(s: string)
    requires Plain(s)
    ensures '\n' !in s
  {
    assert NoNewline(s) by {
      forall i | 0 <= i < |s| ensures s[i] != '\n' {
        assert PlainChar(s[i]);
      }
    }
    OneLineIff(s);
  }

  lemma SerializedOneLine(v: Value)
    ensures '\n' !in Serialize(v)
  {
    var t := Serialize(v);
    assert NoNewline(t) by {
      forall i | 0 <= i < |t| ensures t[i] != '\n' {
        assert !IsControl(t[i]);
      }
    }
    OneLineIff(t);
  }

  lemma MetaTailOneLine(st: string, src: string, idx: string, host: string)
    requires '\n' !in st && '\n' !in src && '\n' !in idx && '\n' !in host
    ensures '\n' !in MetaTail(st, src, idx, host)
  {
  }

  /** The event text of the JSON templates holds no line break. */
  lemma JsonEventOneLine(cfg: Config, record: Value)
    requires NormalizeEvent(cfg, record).Str?
    requires record.Str? ==> NoNewline(record.s)
    ensures '\n' !in NormalizeEvent(cfg, record).s
  {
    match record
    case Int(i) =>
      IntTextPlain(i);
      PlainOneLine(IntToString(i));
    case Obj(_) =>
      SerializedOneLine(record);
      OneLineIff(Serialize(record));
      EscapeQuotesOneLine(Serialize(record));
      OneLineIff(EscapeQuotes(Serialize(record)));
    case Str(s) =>
      OneLineIff(s);
  }

  /** The log4j event line holds no line break: the time has the layout and
      the message's JSON text has none. */
  lemma Log4jEventOneLine(record: Value)
    requires Log4jEvent(record).Ok?
    requires ParseDateTime(Index(record, "time").value.s).Ok?
    ensures '\n' !in Log4jEvent(record).value
  {
    var t := Index(record, "time").value.s;
    var m := Index(record, "message").value;
    assert MillisText(t).Ok?;
    LayoutPlain(t);
    PlainOneLine(t);
    SerializedOneLine(m);
    OneLineIff(Serialize(m));
    StripFromOneLine(Serialize(m), 0);
    OneLineIff(StripQuotes(Serialize(m)));
    assert Log4jEvent(record).value == t + " " + StripQuotes(Serialize(m));
  }

  /** The three templates add no line break of their own. */
  lemma TemplatesOneLine(time: string, event: string, st: string, src: string, idx: string, host: string)
    requires '\n' !in time && '\n' !in event
    requires '\n' !in MetaTail(st, src, idx, host)
    ensures '\n' !in JsonEventText(time, event, st, src, idx, host)
    ensures '\n' !in StringEventText(time, event, st, src, idx, host)
    ensures '\n' !in Log4jText(time, event, st, src, idx, host)
  {
  }

  /** The envelope of a JSON template holds no line break. */
  lemma JsonEnvelopeOneLine(cfg: Config, e: Entry)
    requires cfg.useJson && Envelope(cfg, e).Ok? && OneLineMeta(cfg, e)
    requires '\n' !in MetaTail(Sourcetype(cfg, e.tag), cfg.source, SelectIndex(cfg, e.record).value, cfg.eventHost)
    ensures '\n' !in Envelope(cfg, e).value
  {
    var event := NormalizeEvent(cfg, e.record);
    JsonEventOneLine(cfg, e.record);
    IntTextPlain(e.time);
    PlainOneLine(IntToString(e.time));
    TemplatesOneLine(IntToString(e.time), event.s, Sourcetype(cfg, e.tag), cfg.source,
                     SelectIndex(cfg, e.record).value, cfg.eventHost);
  }

  /** The envelope of the log4j template holds no line break. */
  lemma Log4jEnvelopeOneLine(cfg: Config, e: Entry)
    requires !cfg.useJson && Envelope(cfg, e).Ok? && OneLineMeta(cfg, e)
    requires '\n' !in MetaTail(Sourcetype(cfg, e.tag), cfg.source, SelectIndex(cfg, e.record).value, cfg.eventHost)
    ensures '\n' !in Envelope(cfg, e).value
  {
    var t := Index(e.record, "time").value.s;
    Log4jEventOneLine(e.record);
    MillisPlain(t);
    PlainOneLine(MillisText(t).value);
    TemplatesOneLine(MillisText(t).value, Log4jEvent(e.record).value, Sourcetype(cfg, e.tag), cfg.source,
                     SelectIndex(cfg, e.record).value, cfg.eventHost);
  }

  /** With one-line metadata, every envelope is one line, whatever the
      template: the line breaks of a batched body separate envelopes. */
  lemma EnvelopeOneLine(cfg: Config, e: Entry)
    requires Envelope(cfg, e).Ok? && OneLineMeta(cfg, e)
    ensures '\n' !in Envelope(cfg, e).value
  {
    var st, idx := Sourcetype(cfg, e.tag), SelectIndex(cfg, e.record).value;
    OneLineIff(st);
    OneLineIff(cfg.source);
    OneLineIff(idx);
    OneLineIff(cfg.eventHost);
    MetaTailOneLine(st, cfg.source, idx, cfg.eventHost);
    if cfg.useJson {
      JsonEnvelopeOneLine(cfg, e);
    } else {
      Log4jEnvelopeOneLine(cfg, e);
    }
  }

  // ---------------------------------------------------------------------------
  // `usejson` with `send_event_as_json`

  /** An event text that is JSON text goes in unquoted, so the collector
      reads the JSON value itself. */
  lemma JsonEventMode(cfg: Config, e: Entry, w: Value)
    requires cfg.useJson && cfg.sendEventAsJson && PlainMeta(cfg, e)
    requires NormalizeEvent(cfg, e.record) == Str(Serialize(w))
    ensures Envelope(cfg, e).Ok?
    ensures Decode(Envelope(cfg, e).value) == Ok(Expected(cfg, e, Int(e.time), w))
  {
    JsonEventDecodes(e.time, w, Sourcetype(cfg, e.tag), cfg.source, SelectIndex(cfg, e.record).value, cfg.eventHost);
  }

  /** A hash record is sent as its JSON text and read back as the same hash. */
  lemma JsonEventHash(cfg: Config, e: Entry)
    requires cfg.useJson && cfg.sendEventAsJson && PlainMeta(cfg, e)
    requires e.record.Obj?
    ensures Envelope(cfg, e).Ok?
    ensures Decode(Envelope(cfg, e).value) == Ok(Expected(cfg, e, Int(e.time), e.record))
  {
    JsonEventMode(cfg, e, e.record);
  }

  /** An integer record is sent as its decimal text and read back as the number. */
  lemma JsonEventInteger(cfg: Config, e: Entry)
    requires cfg.useJson && cfg.sendEventAsJson && PlainMeta(cfg, e)
    requires e.record.Int?
    ensures Envelope(cfg, e).Ok?
    ensures Decode(Envelope(cfg, e).value) == Ok(Expected(cfg, e, Int(e.time), e.record))
  {
    JsonEventMode(cfg, e, e.record);
  }

  // ---------------------------------------------------------------------------
  // `usejson` without `send_event_as_json`

  /** The event text goes in between quotes; text that is the escaped form of
      `x` is read back as the string `x`. */
  lemma StringEventMode(cfg: Config, e: Entry, x: string)
    requires cfg.useJson && !cfg.sendEventAsJson && PlainMeta(cfg, e)
    requires NormalizeEvent(cfg, e.record) == Str(Escape(x))
    ensures Envelope(cfg, e).Ok?
    ensures Decode(Envelope(cfg, e).value) == Ok(Expected(cfg, e, Int(e.time), Str(x)))
  {
    StringEventDecodes(e.time, x, Sourcetype(cfg, e.tag), cfg.source, SelectIndex(cfg, e.record).value, cfg.eventHost);
  }

  /** A hash whose JSON text holds no backslash arrives as a string holding
      that JSON text: escaping only the quotes is JSON string escaping then. */
  lemma StringEventHash(cfg: Config, e: Entry)
    requires cfg.useJson && !cfg.sendEventAsJson && PlainMeta(cfg, e)
    requires e.record.Obj? && NoBackslash(Serialize(e.record))
    ensures Envelope(cfg, e).Ok?
    ensures Decode(Envelope(cfg, e).value) == Ok(Expected(cfg, e, Int(e.time), Str(Serialize(e.record))))
  {
    EscapeQuotesIsEscape(Serialize(e.record));
    StringEventMode(cfg, e, Serialize(e.record));
  }

  /** An integer record arrives as the string of its decimal digits. */
  lemma StringEventInteger(cfg: Config, e: Entry)
    requires cfg.useJson && !cfg.sendEventAsJson && PlainMeta(cfg, e)
    requires e.record.Int?
    ensures Envelope(cfg, e).Ok?
    ensures Decode(Envelope(cfg, e).value) == Ok(Expected(cfg, e, Int(e.time), Str(IntToString(e.record.i))))
  {
    IntTextPlain(e.record.i);
    EscapePlain(IntToString(e.record.i));
    StringEventMode(cfg, e, IntToString(e.record.i));
  }

  /** A string record that needs no escaping arrives unchanged. */
  lemma StringEventString(cfg: Config, e: Entry)
    requires cfg.useJson && !cfg.sendEventAsJson && PlainMeta(cfg, e)
    requires e.record.Str? && Plain(e.record.s)
    ensures Envelope(cfg, e).Ok?
    ensures Decode(Envelope(cfg, e).value) == Ok(Expected(cfg, e, Int(e.time), e.record))
  {
    EscapePlain(e.record.s);
    StringEventMode(cfg, e, e.record.s);
  }

  /** In both JSON templates a record that is neither a hash, an integer nor
      a string cannot be appended to the template: `TypeError`. */
  lemma JsonModeRejects(cfg: Config, e: Entry)
    requires cfg.useJson && SelectIndex(cfg, e.record).Ok?
    requires e.record.Null? || e.record.Bool? || e.record.Arr?
    ensures Envelope(cfg, e) == Err(TypeError)
  {
  }

  // ---------------------------------------------------------------------------
  // The log4j template

  /** A hash with a `time` string in the fixed layout and a `message` string
      arrives with the epoch milliseconds as its time and `time + " " +
      message` as its event. */
  lemma Log4jMode(cfg: Config, e: Entry, ts: string, m: string)
    requires !cfg.useJson && PlainMeta(cfg, e)
    requires e.record.Obj?
    requires Lookup(e.record.members, "time") == Str(ts) && Lookup(e.record.members, "message") == Str(m)
    requires ParseDateTime(ts).Ok?
    ensures Envelope(cfg, e).Ok?
    ensures Decode(Envelope(cfg, e).value)
         == Ok(Expected(cfg, e, Str(MillisText(ts).value), Str(ts + " " + m)))
    ensures ParseInt(MillisText(ts).value) == Some(EpochMillis(ParseDateTime(ts).value))
  {
    LayoutPlain(ts);
    Log4jLine(e.record, ts, m);
    MillisPlain(ts);
    Log4jDecodes(MillisText(ts).value, ts + " " + m, Sourcetype(cfg, e.tag), cfg.source,
                 SelectIndex(cfg, e.record).value, cfg.eventHost);
  }

  /** The event line of a record with a plain `time` string and a `message`
      string is the escaped form of `time + " " + message`. */
  lemma Log4jLine(record: Value, ts: string, m: string)
    requires record.Obj? && Plain(ts)
    requires Lookup(record.members, "time") == Str(ts) && Lookup(record.members, "message") == Str(m)
    ensures Log4jEvent(record) == Ok(Escape(ts + " " + m))
  {
    var head := ts + " ";
    assert Plain(head) by {
      assert forall j :: 0 <= j < |ts| ==> head[j] == ts[j];
    }
    StripQuotesOfQuote(m);
    EscapeAppend(head, m);
    EscapePlain(head);
  }

  lemma MillisPlain(ts: string)
    requires ParseDateTime(ts).Ok?
    ensures Plain(MillisText(ts).value)
  {
    IntTextPlain(EpochMillis(ParseDateTime(ts).value));
  }

  /** A hash without a `time` key makes `nil + " "` raise `NoMethodError`. */
  lemma Log4jMissingTime(cfg: Config, e: Entry)
    requires !cfg.useJson && SelectIndex(cfg, e.record).Ok?
    requires e.record.Obj? && !HasKey(e.record.members, "time")
    ensures Envelope(cfg, e) == Err(NoMethodError)
  {
  }

  /** A `time` string that is not a date raises the date parser's error. */
  lemma Log4jBadTime(cfg: Config, e: Entry, ts: string)
    requires !cfg.useJson && SelectIndex(cfg, e.record).Ok?
    requires e.record.Obj? && Lookup(e.record.members, "time") == Str(ts)
    requires ParseDateTime(ts).Err?
    ensures Envelope(cfg, e) == Err(ParseDateTime(ts).error)
  {
  }
}
