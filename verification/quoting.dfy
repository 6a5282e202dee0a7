/** The two regular-expression substitutions the plugin applies to JSON text
    before splicing it into an envelope: `gsub("\"", %q(\\\"))`, which puts a
    backslash before every double quote, and `gsub(/^"|"$/, "")`, which drops
    a double quote standing at the start or at the end of a line. */
module Quoting {
  import opened Outcome
  import opened Json
  import opened JsonFacts

  predicate NoBackslash(s: string) {
    forall i :: 0 <= i < |s| ==> s[i] != '\\'
  }

  predicate NoNewline(s: string) {
    forall i :: 0 <= i < |s| ==> s[i] != '\n'
  }

  // ---------------------------------------------------------------------------
  // Escaping double quotes

  /** `s.gsub("\"", %q(\\\"))`: every `"` becomes `\"`, every other character
      stays as it is. */
  function EscapeQuotes(s: string): (r: string)
    ensures |r| >= |s|
    ensures r != [] ==> r[0] != '"'
    decreases |s|
  {
    if s == [] then []
    else if s[0] == '"' then "\\\"" + EscapeQuotes(s[1..])
    else [s[0]] + EscapeQuotes(s[1..])
  }

  /** Deletes every backslash that stands directly before a double quote. */
  function UnescapeQuotes(t: string): (s: string)
    decreases |t|
  {
    if t == [] then []
    else if |t| >= 2 && t[0] == '\\' && t[1] == '"' then "\"" + UnescapeQuotes(t[2..])
    else [t[0]] + UnescapeQuotes(t[1..])
  }

  /** Deleting the inserted backslashes gives the original text back, whatever
      backslashes it held already. */
  lemma {:induction false} UnescapeEscapeQuotes(s: string)
    ensures UnescapeQuotes(EscapeQuotes(s)) == s
    decreases |s|
  {
    if s != [] {
      UnescapeEscapeQuotes(s[1..]);
      var t := EscapeQuotes(s[1..]);
      if s[0] == '"' {
        assert ("\\\"" + t)[2..] == t;
      } else {
        assert ([s[0]] + t)[1..] == t;
      }
    }
  }

  /** The substitution adds no line break. */
  lemma {:induction false} EscapeQuotesOneLine(s: string)
    requires NoNewline(s)
    ensures NoNewline(EscapeQuotes(s))
    decreases |s|
  {
    if s != [] {
      EscapeQuotesOneLine(s[1..]);
      var t := EscapeQuotes(s[1..]);
      var r := EscapeQuotes(s);
      var head := if s[0] == '"' then "\\\"" else [s[0]];
      assert r == head + t;
      forall i | 0 <= i < |r|
        ensures r[i] != '\n'
      {
        if i >= |head| {
          assert r[i] == t[i - |head|];
        }
      }
    }
  }

  lemma EscapeQuotesInjective(s: string, s': string)
    requires EscapeQuotes(s) == EscapeQuotes(s')
    ensures s == s'
  {
    UnescapeEscapeQuotes(s);
    UnescapeEscapeQuotes(s');
  }

  /** The substitution changes nothing exactly when there is no quote. */
  lemma {:induction false} EscapeQuotesIdentity(s: string)
    ensures EscapeQuotes(s) == s <==> forall i :: 0 <= i < |s| ==> s[i] != '"'
    decreases |s|
  {
    if s != [] {
      EscapeQuotesIdentity(s[1..]);
      if s[0] == '"' {
        assert |EscapeQuotes(s)| > |s|;
      } else if exists i :: 0 <= i < |s| && s[i] == '"' {
        var i :| 0 <= i < |s| && s[i] == '"';
        assert s[1..][i - 1] == '"';
      } else {
        forall i | 0 <= i < |s[1..]| ensures s[1..][i] != '"' {
          assert s[1..][i] == s[i + 1];
        }
      }
    }
  }

  /** On a text without backslashes or control characters, putting a backslash
      before each quote is exactly JSON string escaping, so the text placed
      between quotes reads back as itself. */
  lemma {:induction false} EscapeQuotesIsEscape(s: string)
    requires NoBackslash(s) && NoControl(s)
    ensures EscapeQuotes(s) == Escape(s)
    decreases |s|
  {
    if s != [] {
      assert NoBackslash(s[1..]) && NoControl(s[1..]) by {
        forall i | 0 <= i < |s[1..]| ensures s[1..][i] == s[i + 1] { }
      }
      EscapeQuotesIsEscape(s[1..]);
      assert s[0] != '\\' && !IsControl(s[0]);
    }
  }

  /** With a backslash in the text the correspondence breaks: the JSON text
      of the one-character string `\` is `"\\"`, and once its quotes are
      escaped and it is placed between quotes a JSON reader reads `"\"` back,
      one character short. */
  lemma EscapeQuotesMisreadsBackslash()
    ensures var t := Serialize(Str("\\"));
            ParseStringBody(EscapeQuotes(t) + "\"") == Ok(("\"\\\"", ""))
            && t != "\"\\\""
  {
    var t := Serialize(Str("\\"));
    assert Escape("\\") == EscapeChar('\\') + Escape([]);
    assert t == "\"" + "\\\\" + "\"";
    assert t == "\"\\\\\"";
    var u := EscapeQuotes(t) + "\"";
    assert u == EscapeChar('"') + (EscapeChar('\\') + (EscapeChar('"') + "\""));
    ParseEscapeChar('"', "\"");
    ParseEscapeChar('\\', EscapeChar('"') + "\"");
    ParseEscapeChar('"', EscapeChar('\\') + (EscapeChar('"') + "\""));
    assert ParseStringBody("\"") == Ok(("", ""));
    assert ['"'] + "" == "\"" && ['\\'] + "\"" == "\\\"" && ['"'] + "\\\"" == "\"\\\"";
    assert ParseStringBody(EscapeChar('"') + "\"") == Ok(("\"", ""));
    assert ParseStringBody(EscapeChar('\\') + (EscapeChar('"') + "\"")) == Ok(("\\\"", ""));
  }

  // ---------------------------------------------------------------------------
  // Dropping quotes at line ends

  /** Whether `gsub(/^"|"$/, "")` removes position `p` of `s`: a quote at the
      start of the text or after a line break, or at the end of the text or
      before a line break. */
  predicate StrippedAt(s: string, p: nat)
    requires p < |s|
  {
    s[p] == '"' && (p == 0 || s[p - 1] == '\n' || p + 1 == |s| || s[p + 1] == '\n')
  }

  function StripFrom(s: string, p: nat): (r: string)
    requires p <= |s|
    ensures |r| <= |s| - p
    decreases |s| - p
  {
    if p == |s| then []
    else (if StrippedAt(s, p) then [] else [s[p]]) + StripFrom(s, p + 1)
  }

  /** `s.gsub(/^"|"$/, "")`. */
  function StripQuotes(s: string): (r: string)
    ensures |r| <= |s|
  {
    StripFrom(s, 0)
  }

  /** Dropping quotes adds no line break. */
  lemma {:induction false} StripFromOneLine(s: string, p: nat)
    requires p <= |s| && NoNewline(s)
    ensures NoNewline(StripFrom(s, p))
    decreases |s| - p
  {
    if p < |s| {
      StripFromOneLine(s, p + 1);
      var t := StripFrom(s, p + 1);
      var head := if StrippedAt(s, p) then [] else [s[p]];
      var r := StripFrom(s, p);
      assert r == head + t;
      forall i | 0 <= i < |r|
        ensures r[i] != '\n'
      {
        if i >= |head| {
          assert r[i] == t[i - |head|];
        }
      }
    }
  }

  /** On one line, everything strictly between the first and the last
      position is kept. */
  lemma {:induction false} StripFromInterior(s: string, p: nat)
    requires NoNewline(s) && 1 <= p <= |s| - 1
    ensures StripFrom(s, p) == s[p..|s| - 1] + StripFrom(s, |s| - 1)
    decreases |s| - p
  {
    if p < |s| - 1 {
      StripFromInterior(s, p + 1);
      assert !StrippedAt(s, p);
      assert s[p..|s| - 1] == [s[p]] + s[p + 1..|s| - 1];
    }
  }

  /** On a text without line breaks, exactly a leading and a trailing quote
      are removed. */
  lemma StripQuotesOneLine(s: string)
    requires NoNewline(s)
    ensures var a := if |s| > 0 && s[0] == '"' then 1 else 0;
            var b := if |s| > a && s[|s| - 1] == '"' then |s| - 1 else |s|;
            StripQuotes(s) == s[a..b]
  {
    if |s| == 1 {
      assert StripFrom(s, 1) == [];
    } else if |s| >= 2 {
      StripFromInterior(s, 1);
      var last := |s| - 1;
      assert StripFrom(s, last + 1) == [];
      assert StrippedAt(s, last) <==> s[last] == '"';
      assert StrippedAt(s, 0) <==> s[0] == '"';
    }
  }

  /** The quotes around a JSON string are removed and its escaped body is
      left: what the log4j event takes from a string message. */
  lemma StripQuotesOfQuote(m: string)
    ensures StripQuotes(Quote(m)) == Escape(m)
  {
    var q := Quote(m);
    EscapeHasNoNewline(m);
    assert NoNewline(q) by {
      forall i | 0 <= i < |q| ensures q[i] != '\n' {
        if 0 < i < |q| - 1 {
          assert q[i] == Escape(m)[i - 1];
        }
      }
    }
    StripQuotesOneLine(q);
    assert q[1..|q| - 1] == Escape(m);
  }

  /** JSON text that does not begin or end with a quote passes unchanged. */
  lemma StripQuotesUnquoted(t: string)
    requires NoNewline(t)
    requires t != [] ==> t[0] != '"' && t[|t| - 1] != '"'
    ensures StripQuotes(t) == t
  {
    StripQuotesOneLine(t);
  }
}
