/** Properties of the JSON writer and reader: the reader inverts `to_json`
    for every value, and tolerates the white space the plugin's envelope
    templates put around colons and after commas. */
module JsonFacts {
  import opened Outcome
  import opened Decimal
  import opened Json

  /** Text that may follow a value without changing how the value is read:
      only a number could otherwise absorb following digits. */
  predicate Delimited(rest: string) {
    rest == [] || !IsDigit(rest[0])
  }

  function PrependMember(m: (string, Value), r: Result<(seq<(string, Value)>, string), Failure>)
    : Result<(seq<(string, Value)>, string), Failure>
  {
    match r
    case Ok(p) => Ok(([m] + p.0, p.1))
    case Err(e) => Err(e)
  }

  function PrependChar(c: char, r: Result<(string, string), Failure>): Result<(string, string), Failure> {
    match r
    case Ok(p) => Ok(([c] + p.0, p.1))
    case Err(e) => Err(e)
  }

  /** Regrouping of a concatenation, used to peel text off the front. */
  lemma Assoc(a: string, b: string, c: string)
    ensures a + b + c == a + (b + c)
  {
  }

  // ---------------------------------------------------------------------------
  // White space and escaping

  lemma SkipWsOfNonWs(s: string)
    requires s == [] || !IsWs(s[0])
    ensures SkipWs(s) == s
  {
  }

  lemma {:induction false} SkipWsOfAppend(w: string, s: string)
    requires AllWs(w)
    ensures SkipWs(w + s) == SkipWs(s)
    decreases |w|
  {
    if w != [] {
      assert (w + s)[0] == w[0] && (w + s)[1..] == w[1..] + s;
      SkipWsOfAppend(w[1..], s);
    } else {
      assert w + s == s;
    }
  }

  /** Skipping white space leaves nothing exactly when the text is blank. */
  lemma {:induction false} SkipWsEmpty(s: string)
    ensures SkipWs(s) == [] <==> AllWs(s)
    decreases |s|
  {
    if s != [] && IsWs(s[0]) {
      SkipWsEmpty(s[1..]);
      assert AllWs(s[1..]) ==> AllWs(s) by {
        if AllWs(s[1..]) {
          forall i | 0 <= i < |s| ensures IsWs(s[i]) {
            if i > 0 { assert s[i] == s[1..][i - 1]; }
          }
        }
      }
      assert AllWs(s) ==> AllWs(s[1..]) by {
        if AllWs(s) {
          forall i | 0 <= i < |s[1..]| ensures IsWs(s[1..][i]) {
            assert s[1..][i] == s[i + 1];
          }
        }
      }
    }
  }

  /** Escaping works character by character. */
  lemma {:induction false} EscapeAppend(a: string, b: string)
    ensures Escape(a + b) == Escape(a) + Escape(b)
    decreases |a|
  {
    if a != [] {
      assert (a + b)[0] == a[0] && (a + b)[1..] == a[1..] + b;
      EscapeAppend(a[1..], b);
    } else {
      assert a + b == b;
    }
  }

  lemma {:induction false} EscapeLength(s: string)
    ensures |Escape(s)| >= |s|
    ensures !Plain(s) ==> |Escape(s)| > |s|
    decreases |s|
  {
    if s != [] {
      EscapeLength(s[1..]);
      if !PlainChar(s[0]) {
        assert |EscapeChar(s[0])| >= 2;
      } else if !Plain(s) {
        var i :| 0 <= i < |s| && !PlainChar(s[i]);
        assert s[1..][i - 1] == s[i];
      }
    }
  }

  /** Escaping leaves a string unchanged exactly when it holds no quote,
      backslash or control character. */
  lemma {:induction false} EscapeIdentityIffPlain(s: string)
    ensures Escape(s) == s <==> Plain(s)
    decreases |s|
  {
    if s != [] {
      EscapeIdentityIffPlain(s[1..]);
      if Plain(s) {
        assert PlainChar(s[0]);
        assert Plain(s[1..]) by {
          forall i | 0 <= i < |s[1..]| ensures PlainChar(s[1..][i]) {
            assert s[1..][i] == s[i + 1];
          }
        }
      } else {
        EscapeLength(s);
      }
    }
  }

  lemma EscapePlain(s: string)
    requires Plain(s)
    ensures Escape(s) == s
    ensures Quote(s) == "\"" + s + "\""
  {
    EscapeIdentityIffPlain(s);
  }

  /** Escaped text never contains a line break, so line anchors in a regular
      expression can only match at its two ends. */
  lemma EscapeHasNoNewline(s: string)
    ensures forall i :: 0 <= i < |Escape(s)| ==> Escape(s)[i] != '\n'
  {
  }

  // ---------------------------------------------------------------------------
  // Strings

  lemma HexRoundTrip(n: nat)
    requires n < 16
    ensures HexValue(HexDigit(n)) == Some(n)
  {
    if n < 10 {
      assert DigitChar(DigitValue(HexDigit(n))) == DigitChar(n);
    }
  }

  /** A character that needs no escaping is read as itself. */
  lemma PlainThen(c: char, tail: string)
    requires PlainChar(c)
    ensures ParseStringBody([c] + tail) == PrependChar(c, ParseStringBody(tail))
  {
    assert ([c] + tail)[1..] == tail;
  }

  /** A backslash followed by an escape of `k` characters. */
  lemma BackslashThen(s: string, c: char, k: nat, tail: string)
    requires s != [] && s[0] == '\\' && ParseEscape(s[1..]) == Ok((c, k)) && s[1 + k..] == tail
    ensures ParseStringBody(s) == PrependChar(c, ParseStringBody(tail))
  {
  }

  /** The six-character escape `\u00XY` of a control character. */
  lemma ControlEscape(c: char, rest: string)
    requires IsControl(c)
    ensures ParseEscape(['u', '0', '0', HexDigit(c as int / 16), HexDigit(c as int % 16)] + rest) == Ok((c, 5))
  {
    var hi, lo := c as int / 16, c as int % 16;
    HexRoundTrip(0);
    HexRoundTrip(hi);
    HexRoundTrip(lo);
    var u := ['u', '0', '0', HexDigit(hi), HexDigit(lo)] + rest;
    assert u[1] == '0' && u[2] == '0' && u[3] == HexDigit(hi) && u[4] == HexDigit(lo);
    assert ((0 * 16 + 0) * 16 + hi) * 16 + lo == c as int;
  }

  /** A control character without a short escape is written as `\u00XY`. */
  predicate HexEscaped(c: char) {
    IsControl(c) && c != '\n' && c != '\r' && c != '\t' && c as int != 8 && c as int != 12
  }

  lemma HexEscapeText(c: char)
    requires HexEscaped(c)
    ensures EscapeChar(c) == ['\\'] + ['u', '0', '0', HexDigit(c as int / 16), HexDigit(c as int % 16)]
  {
  }

  lemma HexEscapeThen(c: char, tail: string)
    requires HexEscaped(c)
    ensures ParseStringBody(EscapeChar(c) + tail) == PrependChar(c, ParseStringBody(tail))
  {
    var hex := ['u', '0', '0', HexDigit(c as int / 16), HexDigit(c as int % 16)];
    HexEscapeText(c);
    var s := ['\\'] + hex + tail;
    assert s[0] == '\\' && s[1..] == hex + tail && s[6..] == tail;
    ControlEscape(c, tail);
    BackslashThen(s, c, 5, tail);
  }

  lemma ShortEscapeThen(c: char, tail: string)
    requires !PlainChar(c) && !HexEscaped(c)
    ensures ParseStringBody(EscapeChar(c) + tail) == PrependChar(c, ParseStringBody(tail))
  {
    var s := EscapeChar(c) + tail;
    assert |EscapeChar(c)| == 2 && s[0] == '\\';
    assert s[2..] == tail;
    BackslashThen(s, c, 1, tail);
  }

  /** Reading the escape text of one character gives that character back. */
  lemma ParseEscapeChar(c: char, tail: string)
    ensures ParseStringBody(EscapeChar(c) + tail) == PrependChar(c, ParseStringBody(tail))
  {
    if PlainChar(c) {
      PlainThen(c, tail);
    } else if HexEscaped(c) {
      HexEscapeThen(c, tail);
    } else {
      ShortEscapeThen(c, tail);
    }
  }

  lemma {:induction false} StringRoundTrip(x: string, rest: string)
    ensures ParseStringBody(Escape(x) + ("\"" + rest)) == Ok((x, rest))
    decreases |x|
  {
    if x == [] {
      assert Escape(x) + ("\"" + rest) == "\"" + rest;
    } else {
      Assoc(EscapeChar(x[0]), Escape(x[1..]), "\"" + rest);
      ParseEscapeChar(x[0], Escape(x[1..]) + ("\"" + rest));
      StringRoundTrip(x[1..], rest);
      assert [x[0]] + x[1..] == x;
    }
  }

  // ---------------------------------------------------------------------------
  // Numbers

  /** Canonical digits followed by a delimiter are read as one digit run. */
  lemma DigitsThen(n: nat, rest: string)
    requires Delimited(rest)
    ensures var d := NatToString(n);
      && SpanDigits(d + rest) == |d| && (d + rest)[..|d|] == d && (d + rest)[|d|..] == rest
      && (|d| > 1 ==> (d + rest)[0] != '0')
      && DigitsValue(d) == n
  {
    var d := NatToString(n);
    SpanDigitsOfAppend(d, rest);
    assert (d + rest)[..|d|] == d;
    NatToStringRoundTrip(n);
  }

  lemma NonNegativeNumberRoundTrip(i: int, rest: string)
    requires i >= 0 && Delimited(rest)
    ensures ParseNumber(IntToString(i) + rest) == Ok((Int(i), rest))
  {
    var d := NatToString(i);
    DigitsThen(i, rest);
    assert IsDigit(d[0]);
  }

  /** A minus sign before canonical digits and a delimiter. */
  lemma MinusDigitsThen(n: nat, rest: string)
    requires n > 0 && Delimited(rest)
    ensures ParseNumber("-" + (NatToString(n) + rest)) == Ok((Int(0 - n), rest))
  {
    var t := "-" + (NatToString(n) + rest);
    assert t[0] == '-' && t[1..] == NatToString(n) + rest;
    DigitsThen(n, rest);
  }

  lemma NegativeNumberRoundTrip(i: int, rest: string)
    requires i < 0 && Delimited(rest)
    ensures ParseNumber(IntToString(i) + rest) == Ok((Int(i), rest))
  {
    var n: nat := -i;
    var t := "-" + (NatToString(n) + rest);
    assert IntToString(i) + rest == t by {
      assert IntToString(i) == "-" + NatToString(n);
      Assoc("-", NatToString(n), rest);
    }
    MinusDigitsThen(n, rest);
  }

  lemma NumberRoundTrip(i: int, rest: string)
    requires Delimited(rest)
    ensures ParseNumber(IntToString(i) + rest) == Ok((Int(i), rest))
  {
    if i < 0 {
      NegativeNumberRoundTrip(i, rest);
    } else {
      NonNegativeNumberRoundTrip(i, rest);
    }
  }

  // ---------------------------------------------------------------------------
  // Values

  function PrependItem(v: Value, r: Result<(seq<Value>, string), Failure>): Result<(seq<Value>, string), Failure> {
    match r
    case Ok(p) => Ok(([v] + p.0, p.1))
    case Err(e) => Err(e)
  }

  lemma ParseValueOfString(y: string)
    ensures ParseValue("\"" + y) == (
      var p := ParseStringBody(y);
      if p.Err? then Err(p.error) else Ok((Str(p.value.0), p.value.1)))
  {
    SkipWsOfNonWs("\"" + y);
    assert ("\"" + y)[1..] == y;
  }

  lemma ParseValueOfArray(y: string)
    ensures ParseValue("[" + y) == ParseArray(y)
  {
    SkipWsOfNonWs("[" + y);
    assert ("[" + y)[1..] == y;
  }

  lemma ParseValueOfObject(y: string)
    ensures ParseValue("{" + y) == ParseObject(y)
  {
    SkipWsOfNonWs("{" + y);
    assert ("{" + y)[1..] == y;
  }

  lemma ParseArrayOfItems(y: string)
    requires y != [] && !IsWs(y[0]) && y[0] != ']'
    ensures ParseArray(y) == (var p := ParseItems(y); if p.Err? then Err(p.error) else Ok((Arr(p.value.0), p.value.1)))
  {
    SkipWsOfNonWs(y);
  }

  lemma ParseObjectOfMembers(y: string)
    requires y != [] && y[0] == '"'
    ensures ParseObject(y) == (var p := ParseMembers(y); if p.Err? then Err(p.error) else Ok((Obj(p.value.0), p.value.1)))
  {
    SkipWsOfNonWs(y);
  }

  /** A punctuation character followed by any text: white space skipping
      stops at it, and the text after it is what follows. */
  lemma Punctuated(c: char, more: string)
    requires !IsWs(c)
    ensures SkipWs([c] + more) == [c] + more
    ensures ([c] + more)[0] == c && ([c] + more)[1..] == more
  {
    SkipWsOfNonWs([c] + more);
  }

  /** An item followed by the closing bracket ends the array. */
  lemma ParseItemsLast(s: string, v: Value, tail: string, rest: string)
    requires ParseValue(s) == Ok((v, tail))
    requires SkipWs(tail) == tail && tail != [] && tail[0] == ']' && tail[1..] == rest
    ensures ParseItems(s) == Ok(([v], rest))
  {
  }

  /** An item followed by a comma is followed by more items. */
  lemma ParseItemsNext(s: string, v: Value, tail: string, more: string)
    requires ParseValue(s) == Ok((v, tail))
    requires SkipWs(tail) == tail && tail != [] && tail[0] == ',' && tail[1..] == more
    ensures ParseItems(s) == PrependItem(v, ParseItems(more))
  {
  }

  /** A member followed by the closing brace ends the object. */
  lemma ParseMembersLast(s: string, m: (string, Value), tail: string, rest: string)
    requires ParseMember(s) == Ok((m, tail))
    requires SkipWs(tail) == tail && tail != [] && tail[0] == '}' && tail[1..] == rest
    ensures ParseMembers(s) == Ok(([m], rest))
  {
  }

  /** A member followed by a comma is followed by more members. */
  lemma ParseMembersNext(s: string, m: (string, Value), tail: string, more: string)
    requires ParseMember(s) == Ok((m, tail))
    requires SkipWs(tail) == tail && tail != [] && tail[0] == ',' && tail[1..] == more
    ensures ParseMembers(s) == PrependMember(m, ParseMembers(more))
  {
  }

  lemma ParseScalarSerialized(v: Value, rest: string)
    requires v.Null? || v.Bool? || v.Int? || v.Str?
    requires Delimited(rest)
    ensures ParseValue(Serialize(v) + rest) == Ok((v, rest))
  {
    var t := Serialize(v) + rest;
    SkipWsOfNonWs(t);
    match v
    case Null =>
      assert t[..4] == "null" && t[4..] == rest;
    case Bool(b) =>
      if b { assert t[..4] == "true" && t[4..] == rest; }
      else { assert t[..5] == "false" && t[5..] == rest; }
    case Int(i) =>
      NumberRoundTrip(i, rest);
    case Str(x) =>
      var e := Escape(x);
      Assoc("\"" + e, "\"", rest);
      Assoc("\"", e, "\"" + rest);
      ParseValueOfString(e + ("\"" + rest));
      StringRoundTrip(x, rest);
  }

  lemma ParseArrayEmpty(y: string, rest: string)
    requires SkipWs(y) == y && y != [] && y[0] == ']' && y[1..] == rest
    ensures ParseArray(y) == Ok((Arr([]), rest))
  {
  }

  lemma ParseObjectEmpty(y: string, rest: string)
    requires SkipWs(y) == y && y != [] && y[0] == '}' && y[1..] == rest
    ensures ParseObject(y) == Ok((Obj([]), rest))
  {
  }

  /** The reader reads back exactly the value `to_json` wrote, leaving what follows. */
  lemma {:induction false} ParseSerialized(v: Value, rest: string)
    requires Delimited(rest)
    ensures ParseValue(Serialize(v) + rest) == Ok((v, rest))
    decreases v, 2
  {
    match v
    case Arr(items) => ArrayRoundTrip(items, rest);
    case Obj(members) => ObjectRoundTrip(members, rest);
    case _ => ParseScalarSerialized(v, rest);
  }

  /** An array text is read as an array from what follows its opening bracket. */
  lemma ArrayText(t: string, body: string, rest: string)
    requires t == "[" + body + "]"
    ensures ParseValue(t + rest) == ParseArray(body + ("]" + rest))
  {
    Assoc("[" + body, "]", rest);
    Assoc("[", body, "]" + rest);
    ParseValueOfArray(body + ("]" + rest));
  }

  lemma ArrayEmptyText(rest: string)
    ensures ParseArray("]" + rest) == Ok((Arr([]), rest))
  {
    Punctuated(']', rest);
    ParseArrayEmpty("]" + rest, rest);
  }

  lemma {:induction false} ArrayRoundTrip(items: seq<Value>, rest: string)
    ensures ParseValue(Serialize(Arr(items)) + rest) == Ok((Arr(items), rest))
    decreases items, 2
  {
    ArrayText(Serialize(Arr(items)), SerializeItems(items), rest);
    if items == [] {
      assert SerializeItems(items) + ("]" + rest) == "]" + rest;
      ArrayEmptyText(rest);
    } else {
      ArrayBodyRoundTrip(items, rest);
    }
  }

  lemma {:induction false} ArrayBodyRoundTrip(items: seq<Value>, rest: string)
    requires items != []
    ensures ParseArray(SerializeItems(items) + ("]" + rest)) == Ok((Arr(items), rest))
    decreases items, 1
  {
    var body := SerializeItems(items);
    var y := body + ("]" + rest);
    assert y[0] == body[0];
    ParseArrayOfItems(y);
    ItemsRoundTrip(items, rest);
  }

  /** An object text is read as an object from what follows its opening brace. */
  lemma ObjectText(t: string, body: string, rest: string)
    requires t == "{" + body + "}"
    ensures ParseValue(t + rest) == ParseObject(body + ("}" + rest))
  {
    Assoc("{" + body, "}", rest);
    Assoc("{", body, "}" + rest);
    ParseValueOfObject(body + ("}" + rest));
  }

  lemma ObjectEmptyText(rest: string)
    ensures ParseObject("}" + rest) == Ok((Obj([]), rest))
  {
    Punctuated('}', rest);
    ParseObjectEmpty("}" + rest, rest);
  }

  lemma {:induction false} ObjectRoundTrip(members: seq<(string, Value)>, rest: string)
    ensures ParseValue(Serialize(Obj(members)) + rest) == Ok((Obj(members), rest))
    decreases members, 2
  {
    ObjectText(Serialize(Obj(members)), SerializeMembers(members), rest);
    if members == [] {
      assert SerializeMembers(members) + ("}" + rest) == "}" + rest;
      ObjectEmptyText(rest);
    } else {
      ObjectBodyRoundTrip(members, rest);
    }
  }

  lemma {:induction false} ObjectBodyRoundTrip(members: seq<(string, Value)>, rest: string)
    requires members != []
    ensures ParseObject(SerializeMembers(members) + ("}" + rest)) == Ok((Obj(members), rest))
    decreases members, 1
  {
    var body := SerializeMembers(members);
    var y := body + ("}" + rest);
    assert y[0] == body[0];
    ParseObjectOfMembers(y);
    MembersRoundTrip(members, rest);
  }

  /** The text of two or more items: the first, a comma, the others. */
  lemma ItemsText(items: seq<Value>)
    requires |items| > 1
    ensures SerializeItems(items) == Serialize(items[0]) + "," + SerializeItems(items[1..])
  {
  }

  lemma ItemsMoreText(t: string, first: string, tailText: string, rest: string)
    requires t == first + "," + tailText
    ensures t + ("]" + rest) == first + ("," + (tailText + ("]" + rest)))
  {
    Assoc(first + ",", tailText, "]" + rest);
    Assoc(first, ",", tailText + ("]" + rest));
  }

  lemma {:induction false} LastItemRoundTrip(v: Value, rest: string)
    ensures ParseItems(Serialize(v) + ("]" + rest)) == Ok(([v], rest))
    decreases v, 3
  {
    ParseSerialized(v, "]" + rest);
    Punctuated(']', rest);
    ParseItemsLast(Serialize(v) + ("]" + rest), v, "]" + rest, rest);
  }

  lemma {:induction false} NextItemRoundTrip(items: seq<Value>, rest: string)
    requires |items| > 1
    requires ParseItems(SerializeItems(items[1..]) + ("]" + rest)) == Ok((items[1..], rest))
    ensures ParseItems(SerializeItems(items) + ("]" + rest)) == Ok((items, rest))
    decreases items[0], 3
  {
    var first := Serialize(items[0]);
    var more := SerializeItems(items[1..]) + ("]" + rest);
    ItemsText(items);
    ItemsMoreText(SerializeItems(items), first, SerializeItems(items[1..]), rest);
    ParseSerialized(items[0], "," + more);
    Punctuated(',', more);
    ParseItemsNext(first + ("," + more), items[0], "," + more, more);
    assert [items[0]] + items[1..] == items;
  }

  lemma {:induction false} ItemsRoundTrip(items: seq<Value>, rest: string)
    requires items != []
    ensures ParseItems(SerializeItems(items) + ("]" + rest)) == Ok((items, rest))
    decreases items, 0
  {
    if |items| == 1 {
      LastItemRoundTrip(items[0], rest);
      assert [items[0]] == items;
    } else {
      ItemsRoundTrip(items[1..], rest);
      NextItemRoundTrip(items, rest);
    }
  }

  /** Reading a value skips the white space before it. */
  lemma ParseValueAfterWs(w: string, x: string)
    requires AllWs(w)
    ensures ParseValue(w + x) == ParseValue(x)
  {
    SkipWsOfAppend(w, x);
  }

  lemma ParseMemberSteps(s: string, afterKey: string, key: string, v: Value, tail: string)
    requires SkipWs(s) != [] && SkipWs(s)[0] == '"'
    requires ParseStringBody(SkipWs(s)[1..]) == Ok((key, afterKey))
    requires SkipWs(afterKey) != [] && SkipWs(afterKey)[0] == ':'
    requires ParseValue(SkipWs(afterKey)[1..]) == Ok((v, tail))
    ensures ParseMember(s) == Ok(((key, v), tail))
  {
  }

  /** White space before a character that is not white space is skipped. */
  lemma SkipWsBefore(s: string, w: string, t: string)
    requires AllWs(w) && s == w + t && t != [] && !IsWs(t[0])
    ensures SkipWs(s) == t
  {
    SkipWsOfAppend(w, t);
    SkipWsOfNonWs(t);
  }

  /** A member whose value text reads as `v` is read as that key and value. */
  lemma ParseMemberOfText(w0: string, key: string, w1: string, w2: string, x: string, v: Value, tail: string)
    requires AllWs(w0) && AllWs(w1) && AllWs(w2)
    requires ParseValue(x) == Ok((v, tail))
    ensures ParseMember(w0 + Quote(key) + w1 + ":" + w2 + x) == Ok(((key, v), tail))
  {
    var q, e := Quote(key), Escape(key);
    var s := w0 + q + w1 + ":" + w2 + x;
    var afterColon := w2 + x;
    var u := ":" + afterColon;
    var afterKey := w1 + u;
    Assoc(w0 + q + w1 + ":", w2, x);
    Assoc(w0 + q + w1, ":", afterColon);
    Assoc(w0 + q, w1, u);
    Assoc(w0, q, afterKey);
    Assoc("\"" + e, "\"", afterKey);
    Assoc("\"", e, "\"" + afterKey);
    var t := "\"" + (e + ("\"" + afterKey));
    assert s == w0 + t;
    SkipWsBefore(s, w0, t);
    assert t[1..] == e + ("\"" + afterKey);
    StringRoundTrip(key, afterKey);
    SkipWsBefore(afterKey, w1, u);
    assert u[1..] == afterColon;
    ParseValueAfterWs(w2, x);
    ParseMemberSteps(s, afterKey, key, v, tail);
  }

  /** One member, with any white space before it, around its colon and
      nowhere else, is read back as that key and value. */
  lemma {:induction false} ParseMemberSpaced(w0: string, key: string, w1: string, w2: string, v: Value, tail: string)
    requires AllWs(w0) && AllWs(w1) && AllWs(w2) && Delimited(tail)
    ensures ParseMember(w0 + Quote(key) + w1 + ":" + w2 + (Serialize(v) + tail)) == Ok(((key, v), tail))
    decreases v, 3
  {
    ParseSerialized(v, tail);
    ParseMemberOfText(w0, key, w1, w2, Serialize(v) + tail, v, tail);
  }

  lemma CompactMemberText(q: string, x: string)
    ensures q + ":" + x == "" + q + "" + ":" + "" + x
  {
  }

  /** A compact member, as `to_json` writes it. */
  lemma {:induction false} ParseMemberCompact(m: (string, Value), tail: string)
    requires Delimited(tail)
    ensures ParseMember(Quote(m.0) + ":" + Serialize(m.1) + tail) == Ok((m, tail))
    decreases m, 0
  {
    assert m.1 < m;
    var x := Serialize(m.1) + tail;
    ParseSerialized(m.1, tail);
    ParseMemberOfText("", m.0, "", "", x, m.1, tail);
    CompactMemberText(Quote(m.0), x);
    Assoc(Quote(m.0) + ":", Serialize(m.1), tail);
  }

  lemma MembersMoreText(t: string, first: string, tailText: string, rest: string)
    requires t == first + "," + tailText
    ensures t + ("}" + rest) == first + ("," + (tailText + ("}" + rest)))
  {
    Assoc(first + ",", tailText, "}" + rest);
    Assoc(first, ",", tailText + ("}" + rest));
  }

  /** The last member is followed by the closing brace. */
  lemma {:induction false} LastMemberRoundTrip(m: (string, Value), rest: string)
    ensures ParseMembers(SerializeMembers([m]) + ("}" + rest)) == Ok(([m], rest))
    decreases m, 1
  {
    var first := Quote(m.0) + ":" + Serialize(m.1);
    assert SerializeMembers([m]) == first;
    ParseMemberCompact(m, "}" + rest);
    Punctuated('}', rest);
    ParseMembersLast(first + ("}" + rest), m, "}" + rest, rest);
  }

  /** A member followed by a comma is followed by the members after it. */
  lemma {:induction false} NextMemberRoundTrip(members: seq<(string, Value)>, rest: string)
    requires |members| > 1
    requires ParseMembers(SerializeMembers(members[1..]) + ("}" + rest)) == Ok((members[1..], rest))
    ensures ParseMembers(SerializeMembers(members) + ("}" + rest)) == Ok((members, rest))
    decreases members[0], 1
  {
    var m := members[0];
    var first := Quote(m.0) + ":" + Serialize(m.1);
    var tailText := SerializeMembers(members[1..]);
    var more := tailText + ("}" + rest);
    MembersMoreText(SerializeMembers(members), first, tailText, rest);
    ParseMemberCompact(m, "," + more);
    Punctuated(',', more);
    ParseMembersNext(first + ("," + more), m, "," + more, more);
    assert [m] + members[1..] == members;
  }

  lemma {:induction false} MembersRoundTrip(members: seq<(string, Value)>, rest: string)
    requires members != []
    ensures ParseMembers(SerializeMembers(members) + ("}" + rest)) == Ok((members, rest))
    decreases members, 0
  {
    if |members| == 1 {
      assert [members[0]] == members;
      LastMemberRoundTrip(members[0], rest);
    } else {
      MembersRoundTrip(members[1..], rest);
      NextMemberRoundTrip(members, rest);
    }
  }

  /** `JSON.parse(v.to_json) == v` for every value. */
  lemma DecodeSerialized(v: Value)
    ensures Decode(Serialize(v)) == Ok(v)
  {
    ParseSerialized(v, "");
    assert Serialize(v) + "" == Serialize(v);
  }

  /** Different values have different JSON texts. */
  lemma SerializeInjective(v: Value, w: Value)
    requires Serialize(v) == Serialize(w)
    ensures v == w
  {
    DecodeSerialized(v);
    DecodeSerialized(w);
  }

  // ---------------------------------------------------------------------------
  // Objects laid out with white space

  /** A member followed by a comma: the rest of the members are read after it. */
  lemma ParseMembersComma(w0: string, key: string, w1: string, w2: string, v: Value, more: string)
    requires AllWs(w0) && AllWs(w1) && AllWs(w2)
    ensures ParseMembers(w0 + Quote(key) + w1 + ":" + w2 + (Serialize(v) + ("," + more)))
         == PrependMember((key, v), ParseMembers(more))
  {
    var s := w0 + Quote(key) + w1 + ":" + w2 + (Serialize(v) + ("," + more));
    ParseMemberSpaced(w0, key, w1, w2, v, "," + more);
    Punctuated(',', more);
    ParseMembersNext(s, (key, v), "," + more, more);
  }

  /** The last member, followed by the closing brace. */
  lemma ParseMembersClose(w0: string, key: string, w1: string, w2: string, v: Value, rest: string)
    requires AllWs(w0) && AllWs(w1) && AllWs(w2)
    ensures ParseMembers(w0 + Quote(key) + w1 + ":" + w2 + (Serialize(v) + ("}" + rest))) == Ok(([(key, v)], rest))
  {
    var s := w0 + Quote(key) + w1 + ":" + w2 + (Serialize(v) + ("}" + rest));
    ParseMemberSpaced(w0, key, w1, w2, v, "}" + rest);
    Punctuated('}', rest);
    ParseMembersLast(s, (key, v), "}" + rest, rest);
  }

  /** An object text is read through its members. */
  lemma DecodeObjectText(body: string, members: seq<(string, Value)>)
    requires body != [] && body[0] == '"'
    requires ParseMembers(body) == Ok((members, ""))
    ensures Decode("{" + body) == Ok(Obj(members))
  {
    ParseValueOfObject(body);
    ParseObjectOfMembers(body);
  }
}
