/**
 The quoting functions of `pg_helpers.rs` and the PostgreSQL lexers that read their output
 back: quoted identifiers and string constants (sections 4.1.1 and 4.1.2 of the PostgreSQL
 documentation) and the string values of postgresql.conf.
 */
module PgText {
  import opened Prelude

  // ----- printers --------------------------------------------------------------------

  /** `str::replace` with a one-character pattern. */
  function Replace(s: string, c: char, t: string): string {
    if s == "" then "" else (if s[0] == c then t else [s[0]]) + Replace(s[1..], c, t)
  }

  /** `pg_quote`: a quoted SQL identifier. */
  function PgQuote(s: string): string {
    "\"" + Replace(s, '\"', "\"\"") + "\""
  }

  /** The two replacements shared by `escape_literal` and `escape_conf_value`. */
  function EscapeQuotes(s: string): string {
    Replace(Replace(s, '\'', "''"), '\\', "\\\\")
  }

  function EscapeLiteral(s: string): string {
    var res := EscapeQuotes(s);
    if '\\' in res then "E'" + res + "'" else "'" + res + "'"
  }

  function EscapeConfValue(s: string): string {
    "'" + EscapeQuotes(s) + "'"
  }

  lemma {:induction false} ReplaceConcat(a: string, b: string, c: char, t: string)
    ensures Replace(a + b, c, t) == Replace(a, c, t) + Replace(b, c, t)
  {
    if a == "" {
      assert a + b == b;
    } else {
      assert (a + b)[1..] == a[1..] + b;
      ReplaceConcat(a[1..], b, c, t);
    }
  }

  lemma {:induction false} ReplaceNotShorter(s: string, c: char, t: string)
    requires |t| >= 1
    ensures |Replace(s, c, t)| >= |s|
  {
    if s != "" {
      ReplaceNotShorter(s[1..], c, t);
    }
  }

  lemma PgQuoteMarks(s: string)
    ensures StartsWith(PgQuote(s), "\"") && |PgQuote(s)| >= |s| + 2
  {
    ReplaceNotShorter(s, '\"', "\"\"");
  }

  /** One character escaped by `EscapeQuotes`. */
  function EscapeChar(c: char): string {
    if c == '\'' then "''" else if c == '\\' then "\\\\" else [c]
  }

  /** The two sequential replacements are one pass over the characters. */
  lemma EscapeQuotesCons(s: string)
    requires s != ""
    ensures EscapeQuotes(s) == EscapeChar(s[0]) + EscapeQuotes(s[1..])
    ensures EscapeChar(s[0]) == (if s[0] == '\'' || s[0] == '\\' then [s[0], s[0]] else [s[0]])
  {
    var head := if s[0] == '\'' then "''" else [s[0]];
    ReplaceConcat(head, Replace(s[1..], '\'', "''"), '\\', "\\\\");
    assert "''"[1..] == "'" && "'"[1..] == "" && [s[0]][1..] == "";
    assert Replace("'", '\\', "\\\\") == "'";
    assert Replace(head, '\\', "\\\\") == EscapeChar(s[0]);
  }

  lemma {:induction false} BackslashSurvives(s: string)
    ensures '\\' in EscapeQuotes(s) <==> '\\' in s
  {
    if s != "" {
      EscapeQuotesCons(s);
      BackslashSurvives(s[1..]);
      assert s == [s[0]] + s[1..];
    }
  }

  /** Quotes around the escaped text, and the mark of an escape string exactly when the text holds a backslash. */
  lemma LiteralForm(s: string)
    ensures EscapeLiteral(s) == (if '\\' in s then "E" else "") + EscapeConfValue(s)
    ensures EscapeConfValue(s) == "'" + EscapeQuotes(s) + "'"
  {
    BackslashSurvives(s);
    assert "E" + ("'" + EscapeQuotes(s) + "'") == "E'" + EscapeQuotes(s) + "'";
  }

  lemma StartsWithChar(s: string, c: char)
    ensures StartsWith(s, [c]) <==> s != "" && s[0] == c
  {
    if s != "" && s[0] == c {
      assert s[..1] == [c];
    }
  }

  // ----- readers -----------------------------------------------------------------------

  /** What a lexer returns: the value and the text after it. */
  datatype Token = Token(value: string, rest: string)

  function Prepend(s: string, t: Option<Token>): Option<Token> {
    match t
    case None => None
    case Some(token) => Some(Token(s + token.value, token.rest))
  }

  lemma PrependPrepend(a: string, b: string, t: Option<Token>)
    ensures Prepend(a, Prepend(b, t)) == Prepend(a + b, t)
  {
    if t.Some? {
      assert a + (b + t.value.value) == (a + b) + t.value.value;
    }
  }

  lemma PrependCons(s: string, t: Option<Token>)
    requires s != ""
    ensures Prepend([s[0]], Prepend(s[1..], t)) == Prepend(s, t)
  {
    PrependPrepend([s[0]], s[1..], t);
    assert [s[0]] + s[1..] == s;
  }

  lemma Regroup(a: string, b: string, c: string)
    ensures (a + b) + c == a + (b + c)
  {
  }

  lemma PrependEmpty(t: Option<Token>)
    ensures Prepend("", t) == t
  {
    if t.Some? {
      assert "" + t.value.value == t.value.value;
    }
  }

  /** Inside double quotes: a doubled quote is a quote, a single one ends the identifier. */
  function IdentBody(t: string): Option<Token> {
    if t == "" then None
    else if t[0] != '\"' then Prepend([t[0]], IdentBody(t[1..]))
    else if |t| > 1 && t[1] == '\"' then Prepend("\"", IdentBody(t[2..]))
    else Some(Token("", t[1..]))
  }

  /** A zero-length delimited identifier is an error. */
  function ReadIdent(text: string): Option<Token> {
    if !StartsWith(text, "\"") then None
    else
      var token := IdentBody(text[1..]);
      if token.Some? && token.value.value == "" then None else token
  }

  lemma IdentBodyStep(c: char, tail: string)
    ensures IdentBody((if c == '\"' then "\"\"" else [c]) + tail) == Prepend([c], IdentBody(tail))
  {
    var head := if c == '\"' then "\"\"" else [c];
    assert (head + tail)[|head|..] == tail;
  }

  lemma {:induction false} IdentBodyQuoted(s: string, t: string)
    ensures IdentBody(Replace(s, '\"', "\"\"") + t) == Prepend(s, IdentBody(t))
  {
    if s == "" {
      assert Replace(s, '\"', "\"\"") + t == t;
      PrependEmpty(IdentBody(t));
    } else {
      var head := if s[0] == '\"' then "\"\"" else [s[0]];
      Regroup(head, Replace(s[1..], '\"', "\"\""), t);
      IdentBodyStep(s[0], Replace(s[1..], '\"', "\"\"") + t);
      IdentBodyQuoted(s[1..], t);
      PrependCons(s, IdentBody(t));
    }
  }

  /** Quoting an identifier and reading it gives it back, exactly when it is not empty and no quote follows. */
  lemma IdentRoundTrip(s: string, rest: string)
    ensures ReadIdent(PgQuote(s) + rest) == Some(Token(s, rest)) <==> s != "" && !StartsWith(rest, "\"")
  {
    var text := PgQuote(s) + rest;
    assert text[1..] == Replace(s, '\"', "\"\"") + ("\"" + rest);
    IdentBodyQuoted(s, "\"" + rest);
    assert ("\"" + rest)[1..] == rest;
    if StartsWith(rest, "\"") {
      assert rest[0] == '\"';
      assert ("\"" + rest)[2..] == rest[1..];
      PrependPrepend(s, "\"", IdentBody(rest[1..]));
      assert IdentBody("\"" + rest) == Prepend("\"", IdentBody(rest[1..]));
    } else {
      StartsWithChar(rest, '\"');
      assert IdentBody("\"" + rest) == Some(Token("", rest));
      assert s + "" == s;
    }
  }

  predicate IsNewline(c: char) { c == '\n' || c == '\r' }

  predicate IsBlank(c: char) { c == ' ' || c == '\t' || c == '\U{0C}' || c == '\U{0B}' }

  /**
   Two string constants separated only by white space with at least one newline are one
   constant: the text after the second opening quote, if `t` is such a continuation.
   Comments up to the end of a line count as white space.
   */
  function Continuation(t: string, sawNewline: bool, inComment: bool): (r: Option<string>)
    ensures r.Some? ==> |r.value| < |t|
  {
    if t == "" then None
    else if IsNewline(t[0]) then Continuation(t[1..], true, false)
    else if inComment || IsBlank(t[0]) then Continuation(t[1..], sawNewline, inComment)
    else if StartsWith(t, "--") then Continuation(t[1..], sawNewline, true)
    else if t[0] == '\'' && sawNewline then Some(t[1..])
    else None
  }

  function Continues(t: string): Option<string> { Continuation(t, false, false) }

  /** The character named by a backslash escape; numeric escapes are not modelled. */
  function Unescape(c: char): Option<char> {
    match c
    case 'b' => Some('\U{08}')
    case 'f' => Some('\U{0C}')
    case 'n' => Some('\n')
    case 'r' => Some('\r')
    case 't' => Some('\t')
    case _ => if '0' <= c <= '7' || c == 'x' || c == 'u' || c == 'U' then None else Some(c)
  }

  /** Inside a string constant; with `esc` backslashes escape. */
  function LiteralBody(t: string, esc: bool): Option<Token>
    decreases |t|
  {
    if t == "" then None
    else if t[0] == '\'' then
      if |t| > 1 && t[1] == '\'' then Prepend("'", LiteralBody(t[2..], esc))
      else
        match Continues(t[1..])
        case Some(more) => LiteralBody(more, esc)
        case None => Some(Token("", t[1..]))
    else if esc && t[0] == '\\' then
      if |t| > 1 && Unescape(t[1]).Some? then Prepend([Unescape(t[1]).value], LiteralBody(t[2..], esc)) else None
    else Prepend([t[0]], LiteralBody(t[1..], esc))
  }

  /** A plain constant (`standard_conforming_strings` on) or an escape constant. */
  function ReadLiteral(text: string): Option<Token> {
    if StartsWith(text, "'") then LiteralBody(text[1..], false)
    else if StartsWith(text, "E'") then LiteralBody(text[2..], true)
    else None
  }

  lemma {:induction false} LiteralBodyShrinks(t: string, esc: bool)
    ensures LiteralBody(t, esc).Some? ==> |LiteralBody(t, esc).value.rest| < |t|
    decreases |t|
  {
    if t != "" && LiteralBody(t, esc).Some? {
      if t[0] == '\'' {
        if |t| > 1 && t[1] == '\'' {
          LiteralBodyShrinks(t[2..], esc);
        } else if Continues(t[1..]).Some? {
          LiteralBodyShrinks(Continues(t[1..]).value, esc);
        }
      } else if esc && t[0] == '\\' {
        LiteralBodyShrinks(t[2..], esc);
      } else {
        LiteralBodyShrinks(t[1..], esc);
      }
    }
  }

  lemma LiteralBodyStep(c: char, esc: bool, tail: string)
    requires c == '\\' ==> esc
    ensures LiteralBody(EscapeChar(c) + tail, esc) == Prepend([c], LiteralBody(tail, esc))
  {
    var text := EscapeChar(c) + tail;
    assert text[|EscapeChar(c)|..] == tail;
  }

  lemma {:induction false} LiteralBodyEscaped(s: string, esc: bool, t: string)
    requires '\\' in s ==> esc
    ensures LiteralBody(EscapeQuotes(s) + t, esc) == Prepend(s, LiteralBody(t, esc))
  {
    if s == "" {
      assert EscapeQuotes(s) + t == t;
      PrependEmpty(LiteralBody(t, esc));
    } else {
      EscapeQuotesCons(s);
      Regroup(EscapeChar(s[0]), EscapeQuotes(s[1..]), t);
      LiteralBodyStep(s[0], esc, EscapeQuotes(s[1..]) + t);
      LiteralBodyEscaped(s[1..], esc, t);
      PrependCons(s, LiteralBody(t, esc));
    }
  }

  /** Text that neither doubles the closing quote nor continues the constant. */
  predicate Separated(rest: string) {
    !StartsWith(rest, "'") && Continues(rest).None?
  }

  lemma ClosingQuote(s: string, esc: bool, rest: string)
    ensures Prepend(s, LiteralBody("'" + rest, esc)) == Some(Token(s, rest)) <==> Separated(rest)
  {
    var t := "'" + rest;
    assert t[1..] == rest;
    if StartsWith(rest, "'") {
      assert rest[0] == '\'' && t[2..] == rest[1..];
      LiteralBodyShrinks(rest[1..], esc);
    } else {
      StartsWithChar(rest, '\'');
      if Continues(rest).Some? {
        LiteralBodyShrinks(Continues(rest).value, esc);
      } else {
        assert s + "" == s;
      }
    }
  }

  lemma ReadLiteralOpens(body: string, esc: bool, rest: string)
    ensures ReadLiteral((if esc then "E'" + body + "'" else "'" + body + "'") + rest)
            == LiteralBody(body + ("'" + rest), esc)
  {
    if esc {
      var text := "E'" + body + "'" + rest;
      assert text[0] == 'E' && text[..2] == "E'" && text[2..] == body + ("'" + rest);
    } else {
      var text := "'" + body + "'" + rest;
      assert text[..1] == "'" && text[1..] == body + ("'" + rest);
    }
  }

  /** `escape_literal` reads back as the string, exactly when the text after it keeps apart from the constant. */
  lemma LiteralRoundTrip(s: string, rest: string)
    ensures ReadLiteral(EscapeLiteral(s) + rest) == Some(Token(s, rest)) <==> Separated(rest)
  {
    BackslashSurvives(s);
    var esc := '\\' in EscapeQuotes(s);
    ReadLiteralOpens(EscapeQuotes(s), esc, rest);
    LiteralBodyEscaped(s, esc, "'" + rest);
    ClosingQuote(s, esc, rest);
  }

  // ----- passwords -----------------------------------------------------------------------

  /** `to_pg_options` for a role: the verifier goes between quotes as it is. */
  method RolePgOptions(options: string, encryptedPassword: Option<string>) returns (params: string)
    ensures params == options + " LOGIN" + PasswordClause(encryptedPassword)
  {
    params := options;
    params := params + " LOGIN";
    match encryptedPassword {
      case Some(pass) =>
        if StartsWith(pass, "SCRAM-SHA-256") {
          params := params + " PASSWORD '" + pass + "'";
        } else {
          params := params + " PASSWORD 'md5" + pass + "'";
        }
      case None => params := params + " PASSWORD NULL";
    }
    assert params == options + " LOGIN" + PasswordClause(encryptedPassword);
  }

  /** The verifier Postgres is asked to store. */
  function StoredVerifier(password: Option<string>): Option<string> {
    match password
    case None => None
    case Some(pass) => Some(if StartsWith(pass, "SCRAM-SHA-256") then pass else "md5" + pass)
  }

  function PasswordClause(password: Option<string>): string {
    match StoredVerifier(password)
    case None => " PASSWORD NULL"
    case Some(verifier) => " PASSWORD '" + verifier + "'"
  }

  function QuoteCount(s: string): nat {
    if s == "" then 0 else (if s[0] == '\'' then 1 else 0) + QuoteCount(s[1..])
  }

  lemma {:induction false} QuoteCountZero(s: string)
    ensures QuoteCount(s) == 0 <==> '\'' !in s
  {
    if s != "" {
      QuoteCountZero(s[1..]);
      assert s == [s[0]] + s[1..];
    }
  }

  /** Every quote in the value took two characters to write. */
  lemma {:induction false} LiteralBodyLength(t: string)
    ensures LiteralBody(t, false).Some? ==>
              var token := LiteralBody(t, false).value;
              |token.value| + QuoteCount(token.value) + 1 + |token.rest| <= |t|
    decreases |t|
  {
    if t != "" && LiteralBody(t, false).Some? {
      var token := LiteralBody(t, false).value;
      if t[0] == '\'' {
        if |t| > 1 && t[1] == '\'' {
          LiteralBodyLength(t[2..]);
          assert token.value[1..] == LiteralBody(t[2..], false).value.value;
        } else if Continues(t[1..]).Some? {
          LiteralBodyLength(Continues(t[1..]).value);
        }
      } else {
        LiteralBodyLength(t[1..]);
        assert token.value[1..] == LiteralBody(t[1..], false).value.value;
      }
    }
  }

  lemma {:induction false} LiteralBodyPlain(s: string, t: string)
    requires '\'' !in s
    ensures LiteralBody(s + t, false) == Prepend(s, LiteralBody(t, false))
  {
    if s == "" {
      assert s + t == t;
      PrependEmpty(LiteralBody(t, false));
    } else {
      assert (s + t)[1..] == s[1..] + t;
      LiteralBodyPlain(s[1..], t);
      PrependPrepend([s[0]], s[1..], LiteralBody(t, false));
      assert [s[0]] + s[1..] == s;
    }
  }

  /** The unescaped PASSWORD clause stores the intended verifier, exactly when the password holds no quote. */
  lemma PasswordRoundTrip(pass: string, rest: string)
    requires Separated(rest)
    ensures var verifier := StoredVerifier(Some(pass)).value;
            && StartsWith(PasswordClause(Some(pass)), " PASSWORD ")
            && (ReadLiteral(PasswordClause(Some(pass))[10..] + rest) == Some(Token(verifier, rest)) <==> '\'' !in pass)
  {
    var verifier := StoredVerifier(Some(pass)).value;
    assert '\'' in verifier <==> '\'' in pass;
    var text := PasswordClause(Some(pass))[10..] + rest;
    assert text == "'" + verifier + "'" + rest;
    assert text[1..] == verifier + ("'" + rest);
    LiteralBodyLength(text[1..]);
    QuoteCountZero(verifier);
    if '\'' !in verifier {
      LiteralBodyPlain(verifier, "'" + rest);
      ClosingQuote(verifier, false, rest);
    }
  }

  // ----- postgresql.conf values --------------------------------------------------------------

  /** A quoted value of postgresql.conf: no newline inside, a backslash escapes, a doubled quote is a quote. */
  function ConfBody(t: string): Option<Token> {
    if t == "" || t[0] == '\n' then None
    else if t[0] == '\'' then
      if |t| > 1 && t[1] == '\'' then Prepend("'", ConfBody(t[2..])) else Some(Token("", t[1..]))
    else if t[0] == '\\' then
      if |t| > 1 && t[1] != '\n' && ConfUnescape(t[1]).Some?
      then Prepend([ConfUnescape(t[1]).value], ConfBody(t[2..]))
      else None
    else Prepend([t[0]], ConfBody(t[1..]))
  }

  /** As in string constants, but only octal escapes are numeric. */
  function ConfUnescape(c: char): Option<char> {
    if '0' <= c <= '7' then None
    else if c == 'x' || c == 'u' || c == 'U' then Some(c)
    else Unescape(c)
  }

  function ReadConfValue(text: string): Option<Token> {
    if StartsWith(text, "'") then ConfBody(text[1..]) else None
  }

  lemma ConfBodyStep(c: char, tail: string)
    ensures ConfBody(EscapeChar(c) + tail) == if c == '\n' then None else Prepend([c], ConfBody(tail))
  {
    var text := EscapeChar(c) + tail;
    assert text[|EscapeChar(c)|..] == tail;
  }

  lemma {:induction false} ConfBodyEscaped(s: string, t: string)
    ensures ConfBody(EscapeQuotes(s) + t) == if '\n' in s then None else Prepend(s, ConfBody(t))
  {
    if s == "" {
      assert EscapeQuotes(s) + t == t;
      PrependEmpty(ConfBody(t));
    } else {
      EscapeQuotesCons(s);
      Regroup(EscapeChar(s[0]), EscapeQuotes(s[1..]), t);
      ConfBodyStep(s[0], EscapeQuotes(s[1..]) + t);
      ConfBodyEscaped(s[1..], t);
      PrependCons(s, ConfBody(t));
    }
  }

  /** `escape_conf_value` reads back, exactly when the value holds no newline. */
  lemma ConfValueRoundTrip(s: string, rest: string)
    requires !StartsWith(rest, "'")
    ensures ReadConfValue(EscapeConfValue(s) + rest) == Some(Token(s, rest)) <==> '\n' !in s
  {
    var text := EscapeConfValue(s) + rest;
    assert text[1..] == EscapeQuotes(s) + ("'" + rest);
    ConfBodyEscaped(s, "'" + rest);
    assert ("'" + rest)[1..] == rest;
    StartsWithChar(rest, '\'');
    assert s + "" == s;
  }
}
