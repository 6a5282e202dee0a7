/** The dynamic index: `dynamic_index_pattern` has every `$` turned into `#`
    and is evaluated as the body of a Ruby double-quoted string, so that
    `${source}` reads the configured source and `${record['a']['b']}` reads a
    nested record field. The model reads the pattern in a closed grammar of
    literal characters and these two references; any other text (which Ruby
    would evaluate as code) is outside the model. */
module IndexPattern {
  import opened Outcome
  import opened Json
  import opened Ruby
  import opened JsonFacts

  datatype Segment =
    | Lit(c: char)
    | SourceRef
    | RecordRef(keys: seq<string>)

  /** Characters that stand for themselves inside the double-quoted string;
      `$` and `#` could start an interpolation, `"` would close the string and
      `\` would start an escape. */
  predicate LiteralChar(c: char) {
    c != '$' && c != '#' && c != '"' && c != '\\'
  }

  /** Characters that stand for themselves inside a single-quoted key; a `$`
      would be rewritten to `#` before evaluation. */
  predicate KeyChar(c: char) {
    c != '\'' && c != '\\' && c != '$'
  }

  predicate KeyText(k: string) {
    forall i :: 0 <= i < |k| ==> KeyChar(k[i])
  }

  predicate WellFormed(seg: Segment) {
    match seg
    case Lit(c) => LiteralChar(c)
    case SourceRef => true
    case RecordRef(keys) => forall i :: 0 <= i < |keys| ==> KeyText(keys[i])
  }

  predicate AllWellFormed(segs: seq<Segment>) {
    forall i :: 0 <= i < |segs| ==> WellFormed(segs[i])
  }

  // ---------------------------------------------------------------------------
  // Writing a pattern

  function PrintKeys(keys: seq<string>): string
    decreases |keys|
  {
    if keys == [] then "" else "['" + keys[0] + "']" + PrintKeys(keys[1..])
  }

  function PrintSegment(seg: Segment): (t: string)
    ensures t != []
  {
    match seg
    case Lit(c) => [c]
    case SourceRef => "${source}"
    case RecordRef(keys) => "${record" + PrintKeys(keys) + "}"
  }

  function Print(segs: seq<Segment>): string
    decreases |segs|
  {
    if segs == [] then "" else PrintSegment(segs[0]) + Print(segs[1..])
  }

  // ---------------------------------------------------------------------------
  // Reading a pattern

  /** Length of the longest prefix made of key characters. */
  function SpanKey(s: string): (k: nat)
    ensures k <= |s| && KeyText(s[..k])
    ensures k < |s| ==> !KeyChar(s[k])
  {
    if s == [] || !KeyChar(s[0]) then 0
    else
      var k := 1 + SpanKey(s[1..]);
      assert s[..k] == [s[0]] + s[1..][..k - 1];
      k
  }

  /** Reads `['k1']['k2']...` and returns the keys and what follows. */
  function ParseKeys(s: string): (r: Result<(seq<string>, string), Failure>)
    ensures r.Ok? ==> |r.value.1| <= |s|
    decreases |s|
  {
    if |s| >= 2 && s[..2] == "['" then
      var k := SpanKey(s[2..]);
      var after := s[2 + k..];
      if |after| >= 2 && after[..2] == "']" then
        match ParseKeys(after[2..])
        case Err(e) => Err(e)
        case Ok((keys, rest)) => Ok(([s[2..2 + k]] + keys, rest))
      else Err(OutsideModel("record key"))
    else Ok(([], s))
  }

  function Parse(p: string): (r: Result<seq<Segment>, Failure>)
    decreases |p|
  {
    if p == [] then Ok([])
    else if |p| >= 9 && p[..9] == "${source}" then
      match Parse(p[9..])
      case Err(e) => Err(e)
      case Ok(segs) => Ok([SourceRef] + segs)
    else if |p| >= 8 && p[..8] == "${record" then
      match ParseKeys(p[8..])
      case Err(e) => Err(e)
      case Ok((keys, rest)) =>
        if rest != [] && rest[0] == '}' then
          match Parse(rest[1..])
          case Err(e) => Err(e)
          case Ok(segs) => Ok([RecordRef(keys)] + segs)
        else Err(OutsideModel("index pattern reference"))
    else if LiteralChar(p[0]) then
      match Parse(p[1..])
      case Err(e) => Err(e)
      case Ok(segs) => Ok([Lit(p[0])] + segs)
    else Err(OutsideModel("index pattern character"))
  }

  // ---------------------------------------------------------------------------
  // Evaluating a pattern

  function EvalSegment(seg: Segment, source: string, record: Value): Result<string, Failure> {
    match seg
    case Lit(c) => Ok([c])
    case SourceRef => Ok(source)
    case RecordRef(keys) =>
      match IndexPath(record, keys)
      case Err(e) => Err(e)
      case Ok(v) => ToS(v)
  }

  /** The interpolated string, left to right; the first failing reference
      ends the evaluation. */
  function Eval(segs: seq<Segment>, source: string, record: Value): Result<string, Failure>
    decreases |segs|
  {
    if segs == [] then Ok("")
    else
      match EvalSegment(segs[0], source, record)
      case Err(e) => Err(e)
      case Ok(t) =>
        match Eval(segs[1..], source, record)
        case Err(e) => Err(e)
        case Ok(u) => Ok(t + u)
  }

  /** `eval('"' + pattern.gsub(/\$/, "#") + '"')` within the model's grammar. */
  function EvalPattern(p: string, source: string, record: Value): (r: Result<string, Failure>)
    ensures Parse(p).Err? ==> r == Err(Parse(p).error)
  {
    match Parse(p)
    case Err(e) => Err(e)
    case Ok(segs) => Eval(segs, source, record)
  }

  function Join(a: Result<string, Failure>, b: Result<string, Failure>): Result<string, Failure> {
    match a
    case Err(e) => Err(e)
    case Ok(t) =>
      match b
      case Err(e) => Err(e)
      case Ok(u) => Ok(t + u)
  }

  function PrependSegment(seg: Segment, r: Result<seq<Segment>, Failure>): Result<seq<Segment>, Failure> {
    match r
    case Err(e) => Err(e)
    case Ok(segs) => Ok([seg] + segs)
  }

  // ---------------------------------------------------------------------------
  // Facts

  /** Evaluating a pattern made of two parts joins the two evaluations. */
  lemma {:induction false} EvalAppend(a: seq<Segment>, b: seq<Segment>, source: string, record: Value)
    ensures Eval(a + b, source, record) == Join(Eval(a, source, record), Eval(b, source, record))
    decreases |a|
  {
    if a == [] {
      assert a + b == b;
      match Eval(b, source, record)
      case Err(_) =>
      case Ok(u) => assert "" + u == u;
    } else {
      assert (a + b)[0] == a[0] && (a + b)[1..] == a[1..] + b;
      EvalAppend(a[1..], b, source, record);
      match EvalSegment(a[0], source, record)
      case Err(_) =>
      case Ok(t) =>
        match Eval(a[1..], source, record)
        case Err(_) =>
        case Ok(u) =>
          match Eval(b, source, record)
          case Err(_) =>
          case Ok(w) => assert t + u + w == t + (u + w);
    }
  }

  /** Literal text evaluates to itself. */
  lemma {:induction false} EvalLiterals(segs: seq<Segment>, source: string, record: Value)
    requires forall i :: 0 <= i < |segs| ==> segs[i].Lit?
    ensures Eval(segs, source, record) == Ok(Print(segs))
    decreases |segs|
  {
    if segs != [] {
      EvalLiterals(segs[1..], source, record);
    }
  }

  function PrependKey(k: string, r: Result<(seq<string>, string), Failure>): Result<(seq<string>, string), Failure> {
    match r
    case Err(e) => Err(e)
    case Ok((keys, rest)) => Ok(([k] + keys, rest))
  }

  /** One bracketed key is read, then the keys after it. */
  lemma ParseKeysOne(s: string, k: string, more: string)
    requires KeyText(k) && s == "['" + (k + ("']" + more))
    ensures ParseKeys(s) == PrependKey(k, ParseKeys(more))
  {
    assert s[..2] == "['" && s[2..] == k + ("']" + more);
    SpanKeyOf(k, "']" + more);
    assert s[2..2 + |k|] == k;
    var after := s[2 + |k|..];
    assert after == "']" + more;
    assert after[..2] == "']" && after[2..] == more;
  }

  lemma KeysText(keys: seq<string>, rest: string)
    requires keys != []
    ensures PrintKeys(keys) + rest == "['" + (keys[0] + ("']" + (PrintKeys(keys[1..]) + rest)))
  {
    var k, t := keys[0], PrintKeys(keys[1..]);
    assert PrintKeys(keys) == "['" + k + "']" + t;
    Assoc("['" + k + "']", t, rest);
    Assoc("['" + k, "']", t + rest);
    Assoc("['", k, "']" + (t + rest));
  }

  /** Text that does not start with a bracket holds no keys. */
  lemma ParseKeysNone(rest: string)
    requires rest == [] || rest[0] != '['
    ensures ParseKeys(rest) == Ok(([], rest))
  {
    assert !(|rest| >= 2 && rest[..2] == "['") by {
      if |rest| >= 2 { assert rest[..2][0] == rest[0]; }
    }
  }

  lemma ParseKeysCons(keys: seq<string>, rest: string)
    requires keys != [] && KeyText(keys[0])
    requires ParseKeys(PrintKeys(keys[1..]) + rest) == Ok((keys[1..], rest))
    ensures ParseKeys(PrintKeys(keys) + rest) == Ok((keys, rest))
  {
    KeysText(keys, rest);
    ParseKeysOne(PrintKeys(keys) + rest, keys[0], PrintKeys(keys[1..]) + rest);
    assert [keys[0]] + keys[1..] == keys;
  }

  lemma {:induction false} ParseKeysPrinted(keys: seq<string>, rest: string)
    requires forall i :: 0 <= i < |keys| ==> KeyText(keys[i])
    requires rest == [] || rest[0] != '['
    ensures ParseKeys(PrintKeys(keys) + rest) == Ok((keys, rest))
    decreases |keys|
  {
    if keys == [] {
      assert PrintKeys(keys) + rest == rest;
      ParseKeysNone(rest);
    } else {
      ParseKeysPrinted(keys[1..], rest);
      ParseKeysCons(keys, rest);
    }
  }

  lemma SpanKeyOf(k: string, rest: string)
    requires KeyText(k) && rest != [] && rest[0] == '\''
    ensures SpanKey(k + rest) == |k|
    decreases |k|
  {
    if k != [] {
      assert (k + rest)[1..] == k[1..] + rest;
      SpanKeyOf(k[1..], rest);
    } else {
      assert k + rest == rest;
    }
  }

  lemma ParseLitPrinted(c: char, rest: string)
    requires LiteralChar(c)
    ensures Parse([c] + rest) == PrependSegment(Lit(c), Parse(rest))
  {
    var p := [c] + rest;
    assert p[0] == c && p[1..] == rest;
  }

  lemma ParseSourcePrinted(rest: string)
    ensures Parse("${source}" + rest) == PrependSegment(SourceRef, Parse(rest))
  {
    var p := "${source}" + rest;
    assert p[..9] == "${source}" && p[9..] == rest;
  }

  /** A record reference: the keys are read up to the closing brace. */
  lemma ParseRecordAt(p: string, keys: seq<string>, rest: string)
    requires !(|p| >= 9 && p[..9] == "${source}")
    requires |p| >= 8 && p[..8] == "${record"
    requires ParseKeys(p[8..]) == Ok((keys, "}" + rest))
    ensures Parse(p) == PrependSegment(RecordRef(keys), Parse(rest))
  {
    assert ("}" + rest)[1..] == rest;
  }

  lemma ParseRecordPrinted(keys: seq<string>, rest: string)
    requires forall i :: 0 <= i < |keys| ==> KeyText(keys[i])
    ensures Parse(PrintSegment(RecordRef(keys)) + rest) == PrependSegment(RecordRef(keys), Parse(rest))
  {
    var kt := PrintKeys(keys);
    var p := PrintSegment(RecordRef(keys)) + rest;
    assert p == "${record" + (kt + ("}" + rest));
    assert p[..8] == "${record" && p[8..] == kt + ("}" + rest);
    assert !(|p| >= 9 && p[..9] == "${source}") by {
      assert p[2] == 'r';
      if |p| >= 9 { assert p[..9][2] == p[2]; }
    }
    ParseKeysPrinted(keys, "}" + rest);
    ParseRecordAt(p, keys, rest);
  }

  lemma ParseSegmentPrinted(seg: Segment, rest: string)
    requires WellFormed(seg)
    ensures Parse(PrintSegment(seg) + rest) == PrependSegment(seg, Parse(rest))
  {
    match seg
    case Lit(c) => ParseLitPrinted(c, rest);
    case SourceRef => ParseSourcePrinted(rest);
    case RecordRef(keys) => ParseRecordPrinted(keys, rest);
  }

  /** Reading a written pattern gives back its segments. */
  lemma {:induction false} ParsePrint(segs: seq<Segment>)
    requires AllWellFormed(segs)
    ensures Parse(Print(segs)) == Ok(segs)
    decreases |segs|
  {
    if segs != [] {
      ParsePrint(segs[1..]);
      ParseSegmentPrinted(segs[0], Print(segs[1..]));
      assert [segs[0]] + segs[1..] == segs;
    }
  }

  /** What `ParseKeys` does on text that starts with a bracketed key. */
  lemma ParseKeysUnfold(s: string)
    requires |s| >= 2 && s[..2] == "['"
    requires var after := s[2 + SpanKey(s[2..])..]; |after| >= 2 && after[..2] == "']"
    ensures var k := SpanKey(s[2..]);
            var key, tail := s[2..2 + k], s[2 + k + 2..];
            ParseKeys(s) == PrependKey(key, ParseKeys(tail))
            && s == "['" + key + "']" + tail && KeyText(key)
  {
    var k := SpanKey(s[2..]);
    var after := s[2 + k..];
    assert after[2..] == s[2 + k + 2..];
    assert s[2..2 + k] == s[2..][..k];
    assert s == s[..2] + s[2..2 + k] + after[..2] + after[2..];
  }

  lemma PrintKeysStep(s: string, key: string, tail: string, keys: seq<string>, rest: string)
    requires s == "['" + key + "']" + tail && PrintKeys(keys) + rest == tail
    ensures PrintKeys([key] + keys) + rest == s
  {
    assert ([key] + keys)[1..] == keys;
    Assoc("['" + key + "']", PrintKeys(keys), rest);
  }

  lemma {:induction false} PrintParseKeys(s: string)
    requires ParseKeys(s).Ok?
    ensures var (keys, rest) := ParseKeys(s).value;
            PrintKeys(keys) + rest == s && forall i :: 0 <= i < |keys| ==> KeyText(keys[i])
    decreases |s|
  {
    if |s| >= 2 && s[..2] == "['" {
      ParseKeysUnfold(s);
      var k := SpanKey(s[2..]);
      var key, tail := s[2..2 + k], s[2 + k + 2..];
      PrintParseKeys(tail);
      var (keys, rest) := ParseKeys(tail).value;
      PrintKeysStep(s, key, tail, keys, rest);
      assert forall i :: 1 <= i < |[key] + keys| ==> ([key] + keys)[i] == keys[i - 1];
    }
  }

  lemma PrintParseSource(p: string)
    requires |p| >= 9 && p[..9] == "${source}" && Parse(p[9..]).Ok?
    requires Print(Parse(p[9..]).value) == p[9..] && AllWellFormed(Parse(p[9..]).value)
    ensures Parse(p).Ok? && Print(Parse(p).value) == p && AllWellFormed(Parse(p).value)
  {
    var segs := Parse(p[9..]).value;
    assert Parse(p).value == [SourceRef] + segs;
    assert ([SourceRef] + segs)[1..] == segs;
    assert p == p[..9] + p[9..];
  }

  lemma WellFormedCons(seg: Segment, segs: seq<Segment>)
    requires WellFormed(seg) && AllWellFormed(segs)
    ensures AllWellFormed([seg] + segs)
  {
    assert forall i :: 1 <= i < |[seg] + segs| ==> ([seg] + segs)[i] == segs[i - 1];
  }

  lemma RecordText(p: string, keys: seq<string>, r0: string, rest: string)
    requires |p| >= 8 && p[..8] == "${record" && PrintKeys(keys) + r0 == p[8..] && r0 == "}" + rest
    ensures p == PrintSegment(RecordRef(keys)) + rest
  {
    assert p == p[..8] + p[8..];
    Assoc("${record", PrintKeys(keys), "}" + rest);
    Assoc("${record" + PrintKeys(keys), "}", rest);
  }

  lemma PrintParseRecord(p: string)
    requires !(|p| >= 9 && p[..9] == "${source}")
    requires |p| >= 8 && p[..8] == "${record" && ParseKeys(p[8..]).Ok?
    requires var rest := ParseKeys(p[8..]).value.1;
             rest != [] && rest[0] == '}' && Parse(rest[1..]).Ok?
             && Print(Parse(rest[1..]).value) == rest[1..] && AllWellFormed(Parse(rest[1..]).value)
    ensures Parse(p).Ok? && Print(Parse(p).value) == p && AllWellFormed(Parse(p).value)
  {
    PrintParseKeys(p[8..]);
    var (keys, r0) := ParseKeys(p[8..]).value;
    var rest := r0[1..];
    assert r0 == "}" + rest;
    ParseRecordAt(p, keys, rest);
    var segs := Parse(rest).value;
    PrintCons(RecordRef(keys), segs);
    WellFormedCons(RecordRef(keys), segs);
    RecordText(p, keys, r0, rest);
  }

  lemma PrintParseLiteral(p: string)
    requires p != [] && !(|p| >= 9 && p[..9] == "${source}") && !(|p| >= 8 && p[..8] == "${record")
    requires LiteralChar(p[0]) && Parse(p[1..]).Ok?
    requires Print(Parse(p[1..]).value) == p[1..] && AllWellFormed(Parse(p[1..]).value)
    ensures Parse(p).Ok? && Print(Parse(p).value) == p && AllWellFormed(Parse(p).value)
  {
    var segs := Parse(p[1..]).value;
    assert Parse(p).value == [Lit(p[0])] + segs;
    assert ([Lit(p[0])] + segs)[1..] == segs;
  }

  /** Writing the segments read from a pattern gives the pattern back, and
      they are all well formed. */
  lemma {:induction false} PrintParse(p: string)
    requires Parse(p).Ok?
    ensures Print(Parse(p).value) == p && AllWellFormed(Parse(p).value)
    decreases |p|
  {
    if p != [] {
      if |p| >= 9 && p[..9] == "${source}" {
        PrintParse(p[9..]);
        PrintParseSource(p);
      } else if |p| >= 8 && p[..8] == "${record" {
        var rest := ParseKeys(p[8..]).value.1;
        PrintParse(rest[1..]);
        PrintParseRecord(p);
      } else {
        PrintParse(p[1..]);
        PrintParseLiteral(p);
      }
    }
  }

  /** Literal segments for each character of `s`. */
  function Literal(s: string): (segs: seq<Segment>)
    ensures |segs| == |s| && forall i :: 0 <= i < |s| ==> segs[i] == Lit(s[i])
  {
    seq(|s|, i requires 0 <= i < |s| => Lit(s[i]))
  }

  lemma {:induction false} PrintLiteral(s: string)
    ensures Print(Literal(s)) == s
    decreases |s|
  {
    if s != [] {
      assert Literal(s)[1..] == Literal(s[1..]);
      PrintLiteral(s[1..]);
    }
  }

  /** `prefix_${source}_${record['kubernetes']['pod_name']}`, written in pieces. */
  const ExamplePattern := "prefix_" + ("${source}" + ("_" + "${record['kubernetes']['pod_name']}"))
  const ExampleRecord := Obj([("message", Str("data")), ("kubernetes", Obj([("pod_name", Str("mypod"))]))])

  const ExampleKeys := ["kubernetes", "pod_name"]
  const ExampleRefs := [SourceRef, Lit('_'), RecordRef(ExampleKeys)]

  lemma PrintCons(seg: Segment, rest: seq<Segment>)
    ensures Print([seg] + rest) == PrintSegment(seg) + Print(rest)
  {
    assert ([seg] + rest)[0] == seg && ([seg] + rest)[1..] == rest;
  }

  lemma PrintKeysCons(k: string, keys: seq<string>)
    ensures PrintKeys([k] + keys) == "['" + k + "']" + PrintKeys(keys)
  {
    assert ([k] + keys)[0] == k && ([k] + keys)[1..] == keys;
  }

  lemma EvalCons(seg: Segment, rest: seq<Segment>, source: string, record: Value)
    ensures Eval([seg] + rest, source, record) == Join(EvalSegment(seg, source, record), Eval(rest, source, record))
  {
    assert ([seg] + rest)[0] == seg && ([seg] + rest)[1..] == rest;
  }

  lemma ExampleKeysText()
    ensures PrintKeys(ExampleKeys) == "['kubernetes']['pod_name']"
  {
    PrintKeysCons("pod_name", []);
    PrintKeysCons("kubernetes", ["pod_name"]);
    assert ExampleKeys == ["kubernetes"] + ["pod_name"];
    assert PrintKeys([]) == "";
    assert "['" + "pod_name" + "']" + "" == "['pod_name']";
    assert "['" + "kubernetes" + "']" + "['pod_name']" == "['kubernetes']['pod_name']";
  }

  lemma ExampleRecordRefText()
    ensures PrintSegment(RecordRef(ExampleKeys)) == "${record['kubernetes']['pod_name']}"
  {
    ExampleKeysText();
    assert "${record" + "['kubernetes']['pod_name']" + "}" == "${record['kubernetes']['pod_name']}";
  }

  lemma ExampleRefsText()
    ensures Print(ExampleRefs) == "${source}" + ("_" + "${record['kubernetes']['pod_name']}")
  {
    var last := RecordRef(ExampleKeys);
    var r := "${record['kubernetes']['pod_name']}";
    ExampleRecordRefText();
    PrintCons(last, []);
    assert Print([last]) == r + "" == r;
    PrintCons(Lit('_'), [last]);
    assert [Lit('_'), last] == [Lit('_')] + [last];
    assert Print([Lit('_'), last]) == ['_'] + r;
    PrintCons(SourceRef, [Lit('_'), last]);
    assert ExampleRefs == [SourceRef] + [Lit('_'), last];
  }

  lemma ExampleWellFormed()
    ensures AllWellFormed(Literal("prefix_") + ExampleRefs)
  {
    var prefix, refs := Literal("prefix_"), ExampleRefs;
    var segs := prefix + refs;
    assert KeyText("kubernetes") && KeyText("pod_name");
    forall i | 0 <= i < |segs| ensures WellFormed(segs[i]) {
      if i >= |prefix| {
        assert segs[i] == refs[i - |prefix|];
      }
    }
  }

  lemma ExampleSegments()
    ensures Parse(ExamplePattern) == Ok(Literal("prefix_") + ExampleRefs)
  {
    var segs := Literal("prefix_") + ExampleRefs;
    ExampleRefsText();
    PrintAppend(Literal("prefix_"), ExampleRefs);
    PrintLiteral("prefix_");
    ExampleWellFormed();
    ParsePrint(segs);
  }

  lemma ExampleRefsValue()
    ensures Eval(ExampleRefs, "fluentd", ExampleRecord) == Ok("fluentd_mypod")
  {
    var keys := ExampleKeys;
    var last := RecordRef(keys);
    assert IndexPath(ExampleRecord, keys) == Ok(Str("mypod")) by {
      assert Index(ExampleRecord, "kubernetes") == Ok(Obj([("pod_name", Str("mypod"))]));
      assert keys[1..] == ["pod_name"];
      assert IndexPath(Obj([("pod_name", Str("mypod"))]), ["pod_name"]) == Ok(Str("mypod"));
    }
    assert EvalSegment(last, "fluentd", ExampleRecord) == Ok("mypod");
    EvalCons(last, [], "fluentd", ExampleRecord);
    EvalCons(Lit('_'), [last], "fluentd", ExampleRecord);
    EvalCons(SourceRef, [Lit('_'), last], "fluentd", ExampleRecord);
    assert [Lit('_'), last] == [Lit('_')] + [last];
    assert ExampleRefs == [SourceRef] + [Lit('_'), last];
    assert Eval([], "fluentd", ExampleRecord) == Ok("");
    assert "mypod" + "" == "mypod" && ['_'] + "mypod" == "_mypod" && "fluentd" + "_mypod" == "fluentd_mypod";
  }

  lemma ExampleEvaluation()
    ensures Eval(Literal("prefix_") + ExampleRefs, "fluentd", ExampleRecord) == Ok("prefix_fluentd_mypod")
  {
    var prefix := Literal("prefix_");
    EvalAppend(prefix, ExampleRefs, "fluentd", ExampleRecord);
    EvalLiterals(prefix, "fluentd", ExampleRecord);
    PrintLiteral("prefix_");
    ExampleRefsValue();
    assert "prefix_" + "fluentd_mypod" == "prefix_fluentd_mypod";
  }

  /** The pattern `prefix_${source}_${record['kubernetes']['pod_name']}`,
      source `fluentd` and a record whose `kubernetes` hash has `pod_name`
      `mypod` give the index `prefix_fluentd_mypod`. */
  lemma DynamicIndexExample()
    ensures EvalPattern(ExamplePattern, "fluentd", ExampleRecord) == Ok("prefix_fluentd_mypod")
  {
    ExampleSegments();
    ExampleEvaluation();
  }

  lemma {:induction false} PrintAppend(a: seq<Segment>, b: seq<Segment>)
    ensures Print(a + b) == Print(a) + Print(b)
    decreases |a|
  {
    if a == [] {
      assert a + b == b;
    } else {
      assert (a + b)[0] == a[0] && (a + b)[1..] == a[1..] + b;
      PrintAppend(a[1..], b);
    }
  }
}
