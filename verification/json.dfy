/** JSON text of record values, as produced by `to_json`, and a JSON reader,
    used both as the inverse of `to_json` and to read the collector's error
    responses (`JSON.parse`). */
module Json {
  import opened Outcome
  import opened Decimal

  /** A record value as it arrives from the buffer: what msgpack can carry,
      without floating point numbers. Hash keys are strings. */
  datatype Value =
    | Null
    | Bool(b: bool)
    | Int(i: int)
    | Str(s: string)
    | Arr(items: seq<Value>)
    | Obj(members: seq<(string, Value)>)

  predicate IsControl(c: char) {
    c as int < 0x20
  }

  predicate IsWs(c: char) {
    c == ' ' || c == '\t' || c == '\n' || c == '\r'
  }

  predicate AllWs(s: string) {
    forall i :: 0 <= i < |s| ==> IsWs(s[i])
  }

  /** Characters that appear unchanged inside a JSON string. */
  predicate PlainChar(c: char) {
    c != '"' && c != '\\' && !IsControl(c)
  }

  predicate Plain(s: string) {
    forall i :: 0 <= i < |s| ==> PlainChar(s[i])
  }

  predicate NoControl(s: string) {
    forall i :: 0 <= i < |s| ==> !IsControl(s[i])
  }

  // ---------------------------------------------------------------------------
  // Writing

  function HexDigit(n: nat): (c: char)
    requires n < 16
    ensures !IsControl(c) && c != '"' && c != '\\'
  {
    if n < 10 then DigitChar(n) else (55 + n) as char
  }

  function HexValue(c: char): (r: Option<nat>)
    ensures r.Some? ==> r.value < 16
  {
    if IsDigit(c) then Some(DigitValue(c))
    else if 'A' <= c <= 'F' then Some(c as int - 55)
    else if 'a' <= c <= 'f' then Some(c as int - 87)
    else None
  }

  /** The text standing for one character inside a JSON string. */
  function EscapeChar(c: char): (e: string)
    ensures 1 <= |e| && NoControl(e)
    ensures PlainChar(c) <==> e == [c]
  {
    if c == '"' then "\\\""
    else if c == '\\' then "\\\\"
    else if c == '\n' then "\\n"
    else if c == '\r' then "\\r"
    else if c == '\t' then "\\t"
    else if c as int == 8 then "\\b"
    else if c as int == 12 then "\\f"
    else if IsControl(c) then "\\u00" + [HexDigit(c as int / 16), HexDigit(c as int % 16)]
    else [c]
  }

  /** The body of a JSON string literal (without the surrounding quotes). */
  function Escape(s: string): (e: string)
    ensures NoControl(e)
  {
    if s == [] then [] else EscapeChar(s[0]) + Escape(s[1..])
  }

  function Quote(s: string): string {
    "\"" + Escape(s) + "\""
  }

  /** `to_json`: compact JSON text, members and items separated by a bare comma. */
  function Serialize(v: Value): (t: string)
    ensures 1 <= |t| && !IsWs(t[0]) && NoControl(t)
    decreases v
  {
    match v
    case Null => "null"
    case Bool(b) => if b then "true" else "false"
    case Int(i) => IntToString(i)
    case Str(s) => Quote(s)
    case Arr(items) => "[" + SerializeItems(items) + "]"
    case Obj(members) => "{" + SerializeMembers(members) + "}"
  }

  function SerializeItems(items: seq<Value>): (t: string)
    ensures NoControl(t)
    ensures items != [] ==> 1 <= |t| && !IsWs(t[0]) && t[0] != ']'
    decreases items
  {
    if items == [] then ""
    else if |items| == 1 then Serialize(items[0])
    else Serialize(items[0]) + "," + SerializeItems(items[1..])
  }

  function SerializeMembers(members: seq<(string, Value)>): (t: string)
    ensures NoControl(t)
    ensures members != [] ==> 1 <= |t| && t[0] == '"'
    decreases members
  {
    if members == [] then ""
    else
      var m := members[0];
      assert m.1 < m;
      var first := Quote(m.0) + ":" + Serialize(m.1);
      if |members| == 1 then first else first + "," + SerializeMembers(members[1..])
  }

  // ---------------------------------------------------------------------------
  // Reading

  function SkipWs(s: string): (r: string)
    ensures |r| <= |s|
    ensures r == [] || !IsWs(r[0])
  {
    if s != [] && IsWs(s[0]) then SkipWs(s[1..]) else s
  }

  /** Reads one JSON value after optional white space; returns it and the text after it. */
  function ParseValue(s: string): (r: Result<(Value, string), Failure>)
    ensures r.Ok? ==> |r.value.1| < |s|
    decreases |s|, 2
  {
    ParseValueAt(SkipWs(s))
  }

  /** Reads one JSON value that starts right at the beginning of `t`. */
  function ParseValueAt(t: string): (r: Result<(Value, string), Failure>)
    ensures r.Ok? ==> |r.value.1| < |t|
    decreases |t|, 1
  {
    if t == [] then Err(JsonParserError)
    else if t[0] == 'n' then ParseWord(t, "null", Null)
    else if t[0] == 't' then ParseWord(t, "true", Bool(true))
    else if t[0] == 'f' then ParseWord(t, "false", Bool(false))
    else if t[0] == '"' then
      match ParseStringBody(t[1..])
      case Err(e) => Err(e)
      case Ok((str, rest)) => Ok((Str(str), rest))
    else if t[0] == '[' then ParseArray(t[1..])
    else if t[0] == '{' then ParseObject(t[1..])
    else if t[0] == '-' || IsDigit(t[0]) then ParseNumber(t)
    else Err(JsonParserError)
  }

  function ParseWord(t: string, word: string, v: Value): (r: Result<(Value, string), Failure>)
    requires 1 <= |word|
    ensures r.Ok? ==> |r.value.1| < |t|
  {
    if |word| <= |t| && t[..|word|] == word then Ok((v, t[|word|..])) else Err(JsonParserError)
  }

  /** An optional minus sign and digits, without a superfluous leading zero. */
  function ParseNumber(t: string): (r: Result<(Value, string), Failure>)
    ensures r.Ok? ==> |r.value.1| < |t|
  {
    var negative := |t| >= 1 && t[0] == '-';
    var d := if negative then t[1..] else t;
    var k := SpanDigits(d);
    if k == 0 || (k > 1 && d[0] == '0') then Err(JsonParserError)
    else
      var n: int := DigitsValue(d[..k]);
      Ok((Int(if negative then -n else n), d[k..]))
  }

  /** Reads the rest of a string literal after its opening quote. */
  function ParseStringBody(s: string): (r: Result<(string, string), Failure>)
    ensures r.Ok? ==> |r.value.1| < |s|
    decreases |s|
  {
    if s == [] then Err(JsonParserError)
    else if s[0] == '"' then Ok(("", s[1..]))
    else if s[0] == '\\' then
      match ParseEscape(s[1..])
      case Err(e) => Err(e)
      case Ok((c, k)) =>
        match ParseStringBody(s[1 + k..])
        case Err(e) => Err(e)
        case Ok((str, rest)) => Ok(([c] + str, rest))
    else if IsControl(s[0]) then Err(JsonParserError)
    else
      match ParseStringBody(s[1..])
      case Err(e) => Err(e)
      case Ok((str, rest)) => Ok(([s[0]] + str, rest))
  }

  /** Reads what follows a backslash; returns the character and how many characters it took. */
  function ParseEscape(s: string): (r: Result<(char, nat), Failure>)
    ensures r.Ok? ==> 1 <= r.value.1 <= |s|
  {
    if s == [] then Err(JsonParserError)
    else if s[0] == '"' || s[0] == '\\' || s[0] == '/' then Ok((s[0], 1))
    else if s[0] == 'b' then Ok((8 as char, 1))
    else if s[0] == 'f' then Ok((12 as char, 1))
    else if s[0] == 'n' then Ok(('\n', 1))
    else if s[0] == 'r' then Ok(('\r', 1))
    else if s[0] == 't' then Ok(('\t', 1))
    else if s[0] == 'u' && |s| >= 5 then
      match (HexValue(s[1]), HexValue(s[2]), HexValue(s[3]), HexValue(s[4]))
      case (Some(a), Some(b), Some(c), Some(d)) =>
        var code := ((a * 16 + b) * 16 + c) * 16 + d;
        // a lone surrogate half is not a character
        if 0xD800 <= code < 0xE000 then Err(JsonParserError) else Ok((code as char, 5))
      case _ => Err(JsonParserError)
    else Err(JsonParserError)
  }

  /** Reads the rest of an array after its opening bracket. */
  function ParseArray(s: string): (r: Result<(Value, string), Failure>)
    ensures r.Ok? ==> |r.value.1| < |s|
    decreases |s|, 4
  {
    var t := SkipWs(s);
    if t != [] && t[0] == ']' then Ok((Arr([]), t[1..]))
    else
      match ParseItems(t)
      case Err(e) => Err(e)
      case Ok((items, rest)) => Ok((Arr(items), rest))
  }

  /** Reads one or more comma-separated values and the closing bracket. */
  function ParseItems(s: string): (r: Result<(seq<Value>, string), Failure>)
    ensures r.Ok? ==> |r.value.1| < |s|
    decreases |s|, 3
  {
    match ParseValue(s)
    case Err(e) => Err(e)
    case Ok((v, afterValue)) =>
      var t := SkipWs(afterValue);
      if t == [] then Err(JsonParserError)
      else if t[0] == ',' then
        match ParseItems(t[1..])
        case Err(e) => Err(e)
        case Ok((items, rest)) => Ok(([v] + items, rest))
      else if t[0] == ']' then Ok(([v], t[1..]))
      else Err(JsonParserError)
  }

  /** Reads the rest of an object after its opening brace. */
  function ParseObject(s: string): (r: Result<(Value, string), Failure>)
    ensures r.Ok? ==> |r.value.1| < |s|
    decreases |s|, 4
  {
    var t := SkipWs(s);
    if t != [] && t[0] == '}' then Ok((Obj([]), t[1..]))
    else
      match ParseMembers(t)
      case Err(e) => Err(e)
      case Ok((members, rest)) => Ok((Obj(members), rest))
  }

  /** Reads one `"key": value` member after optional white space. */
  function ParseMember(s: string): (r: Result<((string, Value), string), Failure>)
    ensures r.Ok? ==> |r.value.1| < |s|
    decreases |s|, 1
  {
    var t := SkipWs(s);
    if t == [] || t[0] != '"' then Err(JsonParserError)
    else
      match ParseStringBody(t[1..])
      case Err(e) => Err(e)
      case Ok((key, afterKey)) =>
        var u := SkipWs(afterKey);
        if u == [] || u[0] != ':' then Err(JsonParserError)
        else
          match ParseValue(u[1..])
          case Err(e) => Err(e)
          case Ok((v, rest)) => Ok(((key, v), rest))
  }

  /** Reads one or more comma-separated members and the closing brace. */
  function ParseMembers(s: string): (r: Result<(seq<(string, Value)>, string), Failure>)
    ensures r.Ok? ==> |r.value.1| < |s|
    decreases |s|, 2
  {
    match ParseMember(s)
    case Err(e) => Err(e)
    case Ok((m, afterMember)) =>
      var w := SkipWs(afterMember);
      if w == [] then Err(JsonParserError)
      else if w[0] == ',' then
        match ParseMembers(w[1..])
        case Err(e) => Err(e)
        case Ok((members, rest)) => Ok(([m] + members, rest))
      else if w[0] == '}' then Ok(([m], w[1..]))
      else Err(JsonParserError)
  }

  /** `JSON.parse`: one value, surrounded by nothing but white space. */
  function Decode(s: string): Result<Value, Failure> {
    match ParseValue(s)
    case Err(e) => Err(e)
    case Ok((v, rest)) => if SkipWs(rest) == [] then Ok(v) else Err(JsonParserError)
  }
}
