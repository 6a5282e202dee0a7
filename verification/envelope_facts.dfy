/** What the collector reads out of an envelope: when the metadata strings
    need no escaping, every template is a JSON object with the six fields
    `time`, `event`, `sourcetype`, `source`, `index` and `host`. */
module EnvelopeFacts {
  import opened Outcome
  import opened Decimal
  import opened Json
  import opened JsonFacts
  import opened EventEnvelope

  /** The four metadata fields, as read back. */
  function MetaMembers(st: string, src: string, idx: string, host: string): seq<(string, Value)> {
    [("sourcetype", Str(st))] + ([("source", Str(src))] + ([("index", Str(idx))] + [("host", Str(host))]))
  }

  /** The object an envelope stands for. */
  function Fields(time: Value, event: Value, st: string, src: string, idx: string, host: string): Value {
    Obj([("time", time)] + ([("event", event)] + MetaMembers(st, src, idx, host)))
  }

  // ---------------------------------------------------------------------------
  // Members of an object text

  /** `lead` is white space, the key `key` between quotes, white space and
      the colon; the key needs no escaping. */
  predicate KeyLead(lead: string, w0: string, key: string, w1: string) {
    AllWs(w0) && AllWs(w1) && Plain(key) && lead == w0 + ("\"" + key + "\"") + w1 + ":"
  }

  lemma LeadQuote(lead: string, w0: string, key: string, w1: string)
    requires KeyLead(lead, w0, key, w1)
    ensures lead == w0 + Quote(key) + w1 + ":" + ""
  {
    EscapePlain(key);
    assert lead + "" == lead;
  }

  lemma QuotedText(x: string, tail: string)
    ensures "\"" + (Escape(x) + ("\"" + tail)) == Serialize(Str(x)) + tail
  {
    Assoc("\"" + Escape(x), "\"", tail);
    Assoc("\"", Escape(x), "\"" + tail);
  }

  /** Splitting a literal of the template into its pieces. */
  lemma Pieces(lit: string, a: string, b: string, c: string, d: string, x: string)
    requires lit == a + b + c + d
    ensures lit + x == a + (b + (c + (d + x)))
  {
    Assoc(a + b + c, d, x);
    Assoc(a + b, c, d + x);
    Assoc(a, b, c + (d + x));
  }

  /** A member whose value text is `Serialize(v)`, a comma, and the members `rest`. */
  lemma ValueThen(lead: string, w0: string, key: string, w1: string, v: Value, sep: string, nextLead: string,
                  tail: string, rest: seq<(string, Value)>)
    requires KeyLead(lead, w0, key, w1)
    requires sep == "," + nextLead
    requires ParseMembers(nextLead + tail) == Ok((rest, ""))
    ensures ParseMembers(lead + (Serialize(v) + (sep + tail))) == Ok(([(key, v)] + rest, ""))
  {
    LeadQuote(lead, w0, key, w1);
    Assoc(",", nextLead, tail);
    ParseMembersComma(w0, key, w1, "", v, nextLead + tail);
  }

  /** A plain string member, its closing quote, a comma, and the members `rest`. */
  lemma ChainMember(lead: string, w0: string, key: string, w1: string, x: string, sep: string, nextLead: string,
                    tail: string, rest: seq<(string, Value)>)
    requires KeyLead(lead, w0, key, w1) && Plain(x)
    requires sep == "\"" + "," + nextLead + "\""
    requires ParseMembers(nextLead + ("\"" + tail)) == Ok((rest, ""))
    ensures ParseMembers(lead + ("\"" + (x + (sep + tail)))) == Ok(([(key, Str(x))] + rest, ""))
  {
    EscapePlain(x);
    Pieces(sep, "\"", ",", nextLead, "\"", tail);
    QuotedText(x, "," + (nextLead + ("\"" + tail)));
    ValueThen(lead, w0, key, w1, Str(x), "," + nextLead, nextLead, "\"" + tail, rest);
    Assoc(",", nextLead, "\"" + tail);
  }

  // ---------------------------------------------------------------------------
  // The metadata

  /** The last member, a plain string, and the closing brace. */
  lemma LastStringMember(lead: string, w0: string, key: string, w1: string, x: string)
    requires KeyLead(lead, w0, key, w1) && Plain(x)
    ensures ParseMembers(lead + (" " + ("\"" + (x + "\"}")))) == Ok(([(key, Str(x))], ""))
  {
    var close := "\"}";
    assert close == "\"" + ("}" + "");
    LeadQuote(lead, w0, key, w1);
    EscapePlain(x);
    QuotedText(x, "}" + "");
    assert "\"" + (x + close) == Serialize(Str(x)) + ("}" + "");
    Assoc(lead, " ", "\"" + (x + close));
    assert lead + " " == w0 + Quote(key) + w1 + ":" + " ";
    ParseMembersClose(w0, key, w1, " ", Str(x), "");
  }

  /** How the metadata keys and the white space around them are written in the templates. */
  lemma MetaKeys()
    ensures KeyLead(" \"host\" :", " ", "host", " ")
    ensures " \"host\" : " == " \"host\" :" + " "
    ensures KeyLead(" \"sourcetype\" :", " ", "sourcetype", " ")
    ensures KeyLead(" \"source\" :", " ", "source", " ")
    ensures KeyLead(" \"index\" :", " ", "index", " ")
  {
  }

  /** How the text between two metadata values splits into a closing quote, a comma, the next key and an opening quote. */
  lemma MetaSeparators()
    ensures "\", \"source\" :\"" == "\"" + "," + " \"source\" :" + "\""
    ensures "\", \"index\" :\"" == "\"" + "," + " \"index\" :" + "\""
    ensures "\", \"host\" : \"" == "\"" + "," + " \"host\" : " + "\""
    ensures ", \"sourcetype\" :\"" == "," + " \"sourcetype\" :" + "\""
  {
  }

  lemma HostMember(host: string)
    requires Plain(host)
    ensures ParseMembers(" \"host\" : " + ("\"" + (host + "\"}"))) == Ok(([("host", Str(host))], ""))
  {
    MetaKeys();
    LastStringMember(" \"host\" :", " ", "host", " ", host);
    Assoc(" \"host\" :", " ", "\"" + (host + "\"}"));
  }

  lemma IndexHostMembers(idx: string, host: string)
    requires Plain(idx) && Plain(host)
    ensures ParseMembers(" \"index\" :" + ("\"" + (idx + ("\", \"host\" : \"" + (host + "\"}")))))
         == Ok(([("index", Str(idx))] + [("host", Str(host))], ""))
  {
    MetaKeys();
    MetaSeparators();
    HostMember(host);
    ChainMember(" \"index\" :", " ", "index", " ", idx, "\", \"host\" : \"", " \"host\" : ", host + "\"}",
                [("host", Str(host))]);
  }

  lemma SourceMembers(src: string, idx: string, host: string)
    requires Plain(src) && Plain(idx) && Plain(host)
    ensures ParseMembers(" \"source\" :" + ("\"" + (src + ("\", \"index\" :\"" + (idx + ("\", \"host\" : \""
              + (host + "\"}")))))))
         == Ok(([("source", Str(src))] + ([("index", Str(idx))] + [("host", Str(host))]), ""))
  {
    MetaKeys();
    MetaSeparators();
    IndexHostMembers(idx, host);
    ChainMember(" \"source\" :", " ", "source", " ", src, "\", \"index\" :\"", " \"index\" :",
                idx + ("\", \"host\" : \"" + (host + "\"}")), [("index", Str(idx))] + [("host", Str(host))]);
  }

  lemma SourcetypeMembers(st: string, src: string, idx: string, host: string)
    requires Plain(st) && Plain(src) && Plain(idx) && Plain(host)
    ensures ParseMembers(" \"sourcetype\" :" + ("\"" + (st + ("\", \"source\" :\"" + (src + ("\", \"index\" :\""
              + (idx + ("\", \"host\" : \"" + (host + "\"}")))))))))
         == Ok((MetaMembers(st, src, idx, host), ""))
  {
    MetaKeys();
    MetaSeparators();
    SourceMembers(src, idx, host);
    ChainMember(" \"sourcetype\" :", " ", "sourcetype", " ", st, "\", \"source\" :\"", " \"source\" :",
                src + ("\", \"index\" :\"" + (idx + ("\", \"host\" : \"" + (host + "\"}")))),
                [("source", Str(src))] + ([("index", Str(idx))] + [("host", Str(host))]));
  }

  /** The shared tail of the templates is a comma followed by the four
      metadata members and the closing brace. */
  lemma MetaTailMembers(st: string, src: string, idx: string, host: string)
    requires Plain(st) && Plain(src) && Plain(idx) && Plain(host)
    ensures MetaTail(st, src, idx, host) != [] && MetaTail(st, src, idx, host)[0] == ','
    ensures ParseMembers(MetaTail(st, src, idx, host)[1..]) == Ok((MetaMembers(st, src, idx, host), ""))
  {
    var t0 := st + ("\", \"source\" :\"" + (src + ("\", \"index\" :\"" + (idx + ("\", \"host\" : \""
                + (host + "\"}"))))));
    SourcetypeMembers(st, src, idx, host);
    MetaSeparators();
    Assoc(",", " \"sourcetype\" :", "\"" + t0);
    Assoc("," + " \"sourcetype\" :", "\"", t0);
    var more := " \"sourcetype\" :" + ("\"" + t0);
    assert MetaTail(st, src, idx, host) == "," + more;
    assert ("," + more)[1..] == more;
  }

  // ---------------------------------------------------------------------------
  // The time and event members

  /** A member whose value text is `Serialize(v)`, followed by the metadata. */
  lemma ValueLast(lead: string, w0: string, key: string, w1: string, v: Value,
                  st: string, src: string, idx: string, host: string)
    requires KeyLead(lead, w0, key, w1)
    requires Plain(st) && Plain(src) && Plain(idx) && Plain(host)
    ensures ParseMembers(lead + (Serialize(v) + MetaTail(st, src, idx, host)))
         == Ok(([(key, v)] + MetaMembers(st, src, idx, host), ""))
  {
    MetaTailMembers(st, src, idx, host);
    assert MetaTail(st, src, idx, host) == "," + MetaTail(st, src, idx, host)[1..];
    LeadQuote(lead, w0, key, w1);
    ParseMembersComma(w0, key, w1, "", v, MetaTail(st, src, idx, host)[1..]);
  }

  /** A quoted string member, followed by the metadata. */
  lemma StringLast(lead: string, w0: string, key: string, w1: string, x: string,
                   st: string, src: string, idx: string, host: string)
    requires KeyLead(lead, w0, key, w1)
    requires Plain(st) && Plain(src) && Plain(idx) && Plain(host)
    ensures ParseMembers(lead + ("\"" + (Escape(x) + ("\"" + MetaTail(st, src, idx, host)))))
         == Ok(([(key, Str(x))] + MetaMembers(st, src, idx, host), ""))
  {
    QuotedText(x, MetaTail(st, src, idx, host));
    ValueLast(lead, w0, key, w1, Str(x), st, src, idx, host);
  }

  /** How the `time` and `event` keys are written in the JSON and log4j templates. */
  lemma TimeEventKeys()
    ensures KeyLead("\"time\" :", "", "time", " ")
    ensures KeyLead("\"time\":", "", "time", "")
    ensures KeyLead(" \"event\" :", " ", "event", " ")
    ensures KeyLead(" \"event\":", " ", "event", "")
  {
  }

  /** How the templates open with `{` and the `time` key, and how the text before the event splits. */
  lemma EventSeparators()
    ensures ", \"event\" :" == "," + " \"event\" :"
    ensures ", \"event\" :\"" == ", \"event\" :" + "\""
    ensures "\", \"event\":\"" == "\"" + "," + " \"event\":" + "\""
    ensures "{\"time\" :" == "{" + "\"time\" :"
    ensures "{\"time\":\"" == "{" + "\"time\":" + "\""
  {
  }

  // ---------------------------------------------------------------------------
  // The three templates

  /** The JSON templates open with `{"time" :`, the time text and `, "event" :`. */
  lemma JsonTemplateDecodes(t: int, tail: string, rest: seq<(string, Value)>)
    requires ParseMembers(" \"event\" :" + tail) == Ok((rest, ""))
    ensures Decode("{\"time\" :" + (IntToString(t) + (", \"event\" :" + tail))) == Ok(Obj([("time", Int(t))] + rest))
  {
    TimeEventKeys();
    EventSeparators();
    assert Serialize(Int(t)) == IntToString(t);
    ValueThen("\"time\" :", "", "time", " ", Int(t), ", \"event\" :", " \"event\" :", tail, rest);
    var body := "\"time\" :" + (IntToString(t) + (", \"event\" :" + tail));
    Assoc("{", "\"time\" :", IntToString(t) + (", \"event\" :" + tail));
    assert body[0] == '"';
    DecodeObjectText(body, [("time", Int(t))] + rest);
  }

  /** With `send_event_as_json`, an event whose text is the JSON text of `w`
      reaches the collector as `w`. */
  lemma JsonEventDecodes(t: int, w: Value, st: string, src: string, idx: string, host: string)
    requires Plain(st) && Plain(src) && Plain(idx) && Plain(host)
    ensures Decode(JsonEventText(IntToString(t), Serialize(w), st, src, idx, host))
         == Ok(Fields(Int(t), w, st, src, idx, host))
  {
    TimeEventKeys();
    ValueLast(" \"event\" :", " ", "event", " ", w, st, src, idx, host);
    JsonTemplateDecodes(t, Serialize(w) + MetaTail(st, src, idx, host),
                        [("event", w)] + MetaMembers(st, src, idx, host));
  }

  /** In the default JSON template, an event text that is the escaped form
      of `x` reaches the collector as the string `x`. */
  lemma StringEventDecodes(t: int, x: string, st: string, src: string, idx: string, host: string)
    requires Plain(st) && Plain(src) && Plain(idx) && Plain(host)
    ensures Decode(StringEventText(IntToString(t), Escape(x), st, src, idx, host))
         == Ok(Fields(Int(t), Str(x), st, src, idx, host))
  {
    TimeEventKeys();
    EventSeparators();
    var tail := Escape(x) + ("\"" + MetaTail(st, src, idx, host));
    StringLast(" \"event\" :", " ", "event", " ", x, st, src, idx, host);
    JsonTemplateDecodes(t, "\"" + tail, [("event", Str(x))] + MetaMembers(st, src, idx, host));
    Assoc(", \"event\" :", "\"", tail);
  }

  /** The time member of the log4j template, a quoted plain text, then the
      members `rest`. */
  lemma Log4jTimeMember(ms: string, tail: string, rest: seq<(string, Value)>)
    requires Plain(ms)
    requires ParseMembers(" \"event\":" + ("\"" + tail)) == Ok((rest, ""))
    ensures ParseMembers("\"time\":" + ("\"" + (ms + ("\", \"event\":\"" + tail))))
         == Ok(([("time", Str(ms))] + rest, ""))
  {
    TimeEventKeys();
    EventSeparators();
    ChainMember("\"time\":", "", "time", "", ms, "\", \"event\":\"", " \"event\":", tail, rest);
  }

  /** The log4j template opens with `{"time":"`, the time text and `", "event":"`. */
  lemma Log4jTemplateDecodes(ms: string, tail: string, rest: seq<(string, Value)>)
    requires Plain(ms)
    requires ParseMembers(" \"event\":" + ("\"" + tail)) == Ok((rest, ""))
    ensures Decode("{\"time\":\"" + (ms + ("\", \"event\":\"" + tail))) == Ok(Obj([("time", Str(ms))] + rest))
  {
    Log4jTimeMember(ms, tail, rest);
    EventSeparators();
    var body := "\"time\":" + ("\"" + (ms + ("\", \"event\":\"" + tail)));
    Pieces("{\"time\":\"", "{", "\"time\":", "\"", "", ms + ("\", \"event\":\"" + tail));
    assert "" + (ms + ("\", \"event\":\"" + tail)) == ms + ("\", \"event\":\"" + tail);
    assert "{\"time\":\"" == "{" + "\"time\":" + "\"" + "";
    assert body[0] == '"';
    DecodeObjectText(body, [("time", Str(ms))] + rest);
  }

  /** In the log4j template, a plain millisecond text and an event text that
      is the escaped form of `x` reach the collector as two strings. */
  lemma Log4jDecodes(ms: string, x: string, st: string, src: string, idx: string, host: string)
    requires Plain(ms)
    requires Plain(st) && Plain(src) && Plain(idx) && Plain(host)
    ensures Decode(Log4jText(ms, Escape(x), st, src, idx, host))
         == Ok(Fields(Str(ms), Str(x), st, src, idx, host))
  {
    TimeEventKeys();
    StringLast(" \"event\":", " ", "event", "", x, st, src, idx, host);
    Log4jTemplateDecodes(ms, Escape(x) + ("\"" + MetaTail(st, src, idx, host)),
                         [("event", Str(x))] + MetaMembers(st, src, idx, host));
  }
}
