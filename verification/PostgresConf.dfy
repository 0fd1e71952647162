/**
 `PostgresConf`: an in-memory postgresql.conf that is only ever appended to, its text, and
 the file reader of PostgreSQL that must get every setting back.
 */
module PostgresConfFile {
  import opened Prelude
  import opened PgText

  // ----- character classes of guc-file.l -----------------------------------------------

  predicate IsAsciiLetter(c: char) { 'a' <= c <= 'z' || 'A' <= c <= 'Z' }

  predicate IsDigit(c: char) { '0' <= c <= '9' }

  predicate IsLetter(c: char) { IsAsciiLetter(c) || c == '_' || c >= '\U{80}' }

  predicate IsLetterOrDigit(c: char) { IsLetter(c) || IsDigit(c) }

  /** Characters of an unquoted token, numbers included. */
  predicate IsWordChar(c: char) {
    IsLetterOrDigit(c) || c == '-' || c == '.' || c == ':' || c == '/' || c == '+'
  }

  predicate IsId(s: string) {
    s != "" && IsLetter(s[0]) && forall c <- s :: IsLetterOrDigit(c)
  }

  /** ID or QUALIFIED_ID */
  predicate IsName(s: string) {
    IsId(s) || exists i | 0 <= i < |s| :: s[i] == '.' && IsId(s[..i]) && IsId(s[i + 1..])
  }

  /** How many leading characters satisfy `p`. */
  function RunLength(s: string, p: char -> bool): (n: nat)
    ensures n <= |s|
  {
    if s != "" && p(s[0]) then 1 + RunLength(s[1..], p) else 0
  }

  lemma {:induction false} RunStops(a: string, b: string, p: char -> bool)
    requires (forall c <- a :: p(c)) && (b == "" || !p(b[0]))
    ensures RunLength(a + b, p) == |a|
  {
    if a == "" {
      assert a + b == b;
    } else {
      assert (a + b)[1..] == a[1..] + b;
      RunStops(a[1..], b, p);
    }
  }

  /** `[-+]?[0-9]+[a-zA-Z]*`, the INTEGER rule */
  predicate IsInteger(s: string) {
    var body := if s != "" && (s[0] == '-' || s[0] == '+') then s[1..] else s;
    var n := RunLength(body, IsDigit);
    n > 0 && forall c <- body[n..] :: IsAsciiLetter(c)
  }

  /** `[a-zA-Z][a-zA-Z0-9]*` */
  predicate IsPlainWord(s: string) {
    s != "" && IsAsciiLetter(s[0]) && forall c <- s :: IsAsciiLetter(c) || IsDigit(c)
  }

  // ----- writing ----------------------------------------------------------------------------

  /** The three sequential replacements of `escape_str`. */
  function EscapeSpecial(s: string): string {
    Replace(Replace(Replace(s, '\\', "\\\\"), '\n', "\\n"), '\'', "''")
  }

  function EscapeStr(s: string): string {
    if IsInteger(s) || IsPlainWord(s) then s else "'" + EscapeSpecial(s) + "'"
  }

  function EscapeSpecialChar(c: char): string {
    if c == '\\' then "\\\\" else if c == '\n' then "\\n" else if c == '\'' then "''" else [c]
  }

  /** Digits from `i` to `j`, after a sign if `i` is 1, and letters from there on. */
  predicate NumberSplit(s: string, i: nat, j: nat) {
    && i <= 1 && i < j <= |s| && (i == 1 ==> s[0] == '-' || s[0] == '+')
    && (forall k :: i <= k < j ==> IsDigit(s[k])) && (forall k :: j <= k < |s| ==> IsAsciiLetter(s[k]))
  }

  lemma {:induction false} RunLengthMeans(s: string, p: char -> bool)
    ensures forall k :: 0 <= k < RunLength(s, p) ==> p(s[k])
    ensures RunLength(s, p) < |s| ==> !p(s[RunLength(s, p)])
  {
    if s != "" && p(s[0]) {
      RunLengthMeans(s[1..], p);
      assert forall k :: 0 < k < |s| ==> s[k] == s[1..][k - 1];
    }
  }

  function SignLength(s: string): nat {
    if s != "" && (s[0] == '-' || s[0] == '+') then 1 else 0
  }

  lemma IntegerSplits(s: string)
    requires IsInteger(s)
    ensures NumberSplit(s, SignLength(s), SignLength(s) + RunLength(s[SignLength(s)..], IsDigit))
  {
    var i := SignLength(s);
    var body := s[i..];
    var n := RunLength(body, IsDigit);
    RunLengthMeans(body, IsDigit);
    forall k | i + n <= k < |s| ensures IsAsciiLetter(s[k]) {
      assert s[k] == body[n..][k - i - n] && s[k] in body[n..];
    }
    forall k | i <= k < i + n ensures IsDigit(s[k]) {
      assert s[k] == body[k - i];
    }
  }

  lemma SplitIsInteger(s: string, i: nat, j: nat)
    requires NumberSplit(s, i, j)
    ensures IsInteger(s)
  {
    assert IsDigit(s[i]) && i == SignLength(s);
    var digits, unit := s[i..j], s[j..];
    assert s[i..] == digits + unit;
    forall c <- digits ensures IsDigit(c) {
      var k :| 0 <= k < |digits| && digits[k] == c;
      assert c == s[i + k];
    }
    RunStops(digits, unit, IsDigit);
    assert s[i..][j - i..] == unit;
    forall c <- unit ensures IsAsciiLetter(c) {
      var k :| 0 <= k < |unit| && unit[k] == c;
      assert c == s[j + k];
    }
  }

  lemma IntegerMeans(s: string)
    ensures IsInteger(s) <==> exists i: nat, j: nat :: NumberSplit(s, i, j)
  {
    if IsInteger(s) {
      IntegerSplits(s);
    }
    if i: nat, j: nat :| NumberSplit(s, i, j) {
      SplitIsInteger(s, i, j);
    }
  }

  /** A value is written without quotes exactly when it is a number, perhaps with a unit, or a plain word. */
  lemma BareExactlyWhen(s: string)
    ensures EscapeStr(s) == s <==> (exists i: nat, j: nat :: NumberSplit(s, i, j)) || IsPlainWord(s)
    ensures EscapeStr(s) != s ==> EscapeStr(s) == "'" + EscapeSpecial(s) + "'"
  {
    IntegerMeans(s);
    SpecialNotShorter(s);
  }

  lemma {:induction false} SpecialNotShorter(s: string)
    ensures |EscapeSpecial(s)| >= |s|
  {
    if s != "" {
      EscapeSpecialCons(s);
      SpecialNotShorter(s[1..]);
    }
  }

  lemma ReplaceOne(c: char, d: char, t: string)
    ensures Replace([c], d, t) == if c == d then t else [c]
  {
    assert [c][1..] == "";
  }

  /** The three replacements in sequence are one pass over the characters. */
  lemma EscapeSpecialCons(s: string)
    requires s != ""
    ensures EscapeSpecial(s) == EscapeSpecialChar(s[0]) + EscapeSpecial(s[1..])
    ensures EscapeSpecialChar(s[0]) ==
            (if s[0] == '\n' then ['\\', 'n'] else if s[0] == '\\' || s[0] == '\'' then [s[0], s[0]] else [s[0]])
  {
    var h1 := if s[0] == '\\' then "\\\\" else [s[0]];
    var r1 := Replace(s[1..], '\\', "\\\\");
    ReplaceConcat(h1, r1, '\n', "\\n");
    var h2 := Replace(h1, '\n', "\\n");
    var r2 := Replace(r1, '\n', "\\n");
    ReplaceConcat(h2, r2, '\'', "''");
    assert Replace(h2, '\'', "''") == EscapeSpecialChar(s[0]) by {
      ReplaceOne(s[0], '\n', "\\n");
      ReplaceOne(s[0], '\'', "''");
      if s[0] == '\\' {
        TwoChars('\\', '\\', '\n', "\\n");
        TwoChars('\\', '\\', '\'', "''");
      } else if s[0] == '\n' {
        TwoChars('\\', 'n', '\'', "''");
      }
    }
  }

  lemma TwoChars(a: char, b: char, c: char, t: string)
    requires a != c && b != c
    ensures Replace([a, b], c, t) == [a, b]
  {
    assert [a, b][1..] == [b];
    ReplaceOne(b, c, t);
  }

  lemma {:induction false} ConfBodyEscapedSpecial(s: string, t: string)
    ensures ConfBody(EscapeSpecial(s) + t) == Prepend(s, ConfBody(t))
  {
    if s == "" {
      assert EscapeSpecial(s) + t == t;
      PrependEmpty(ConfBody(t));
    } else {
      EscapeSpecialCons(s);
      Regroup(EscapeSpecialChar(s[0]), EscapeSpecial(s[1..]), t);
      SpecialBodyStep(s[0], EscapeSpecial(s[1..]) + t);
      ConfBodyEscapedSpecial(s[1..], t);
      PrependCons(s, ConfBody(t));
    }
  }

  lemma SpecialBodyStep(c: char, tail: string)
    ensures ConfBody(EscapeSpecialChar(c) + tail) == Prepend([c], ConfBody(tail))
  {
    var head := EscapeSpecialChar(c);
    var text := head + tail;
    assert text[|head|..] == tail;
    assert text[0] == head[0] && (|head| == 2 ==> text[1] == head[1]);
  }

  // ----- reading -----------------------------------------------------------------------------

  predicate IsConfBlank(c: char) { c == ' ' || c == '\t' || c == '\r' }

  function SkipBlanks(t: string): string {
    t[RunLength(t, IsConfBlank)..]
  }

  /** A value token: quoted, or a word that is a number or starts with a letter. */
  function ReadValue(t: string): Option<Token> {
    if StartsWith(t, "'") then ConfBody(t[1..])
    else
      var n := RunLength(t, IsWordChar);
      if IsInteger(t[..n]) || (n > 0 && IsLetter(t[0])) then Some(Token(t[..n], t[n..])) else None
  }

  datatype Setting = Setting(name: string, value: string)

  /** `name = value` up to the end of the line; the equals sign may be missing, blanks are free. */
  function ReadLine(t: string): Option<(Setting, string)> {
    var start := SkipBlanks(t);
    var n := RunLength(start, IsWordChar);
    if IsName(start[..n]) then ReadAfterName(start[..n], start[n..]) else None
  }

  function ReadAfterName(name: string, t: string): Option<(Setting, string)> {
    var eq := SkipBlanks(t);
    var value := ReadValue(SkipBlanks(if StartsWith(eq, "=") then eq[1..] else eq));
    if value.None? then None
    else
      var end := SkipBlanks(value.value.rest);
      if end == "" then Some((Setting(name, value.value.value), ""))
      else if end[0] == '\n' then Some((Setting(name, value.value.value), end[1..]))
      else None
  }

  lemma {:induction false} ConfBodyShrinks(t: string)
    ensures ConfBody(t).Some? ==> |ConfBody(t).value.rest| < |t|
    decreases |t|
  {
    if t != "" && ConfBody(t).Some? {
      if t[0] == '\'' {
        if |t| > 1 && t[1] == '\'' { ConfBodyShrinks(t[2..]); }
      } else if t[0] == '\\' {
        ConfBodyShrinks(t[2..]);
      } else {
        ConfBodyShrinks(t[1..]);
      }
    }
  }

  lemma ReadAfterNameShrinks(name: string, t: string)
    ensures ReadAfterName(name, t).Some? ==>
              |ReadAfterName(name, t).value.1| <= |t| && ReadAfterName(name, t).value.0.name == name
  {
    SkipShrinks(t);
    var eq := SkipBlanks(t);
    var after := if StartsWith(eq, "=") then eq[1..] else eq;
    SkipShrinks(after);
    var value := ReadValue(SkipBlanks(after));
    ReadValueShrinks(SkipBlanks(after));
    if value.Some? {
      SkipShrinks(value.value.rest);
    }
  }

  lemma SkipShrinks(t: string)
    ensures |SkipBlanks(t)| <= |t|
  {
  }

  lemma ReadValueShrinks(t: string)
    ensures ReadValue(t).Some? ==> |ReadValue(t).value.rest| <= |t|
  {
    if StartsWith(t, "'") {
      ConfBodyShrinks(t[1..]);
    }
  }

  lemma ReadLineShrinks(t: string)
    ensures ReadLine(t).Some? ==> |ReadLine(t).value.1| < |t| && IsName(ReadLine(t).value.0.name)
  {
    var start := SkipBlanks(t);
    var n := RunLength(start, IsWordChar);
    ReadAfterNameShrinks(start[..n], start[n..]);
  }

  /** Line after line, the last setting of a name winning; an error anywhere rejects the file. */
  function ReadFile(t: string, settings: map<string, string>): Option<map<string, string>>
    decreases |t|
  {
    if t == "" then Some(settings)
    else
      ReadLineShrinks(t);
      match ReadLine(t)
      case None => None
      case Some((s, rest)) => ReadFile(rest, settings[s.name := s.value])
  }

  lemma {:induction false} ReadFileNames(t: string, settings: map<string, string>)
    requires forall n <- settings :: IsName(n)
    ensures ReadFile(t, settings).Some? ==> forall n <- ReadFile(t, settings).value :: IsName(n)
    decreases |t|
  {
    if t != "" {
      ReadLineShrinks(t);
      if ReadLine(t).Some? {
        var (s, rest) := ReadLine(t).value;
        ReadFileNames(rest, settings[s.name := s.value]);
      }
    }
  }

  // ----- what was written is what is read -----------------------------------------------------

  function Line(s: Setting): string {
    s.name + "=" + EscapeStr(s.value) + "\n"
  }

  function Text(settings: seq<Setting>): string {
    if settings == [] then "" else Line(settings[0]) + Text(settings[1..])
  }

  function LastWins(settings: seq<Setting>, m: map<string, string>): map<string, string> {
    if settings == [] then m else LastWins(settings[1..], m[settings[0].name := settings[0].value])
  }

  lemma NoBlanks(t: string)
    requires t == "" || !IsConfBlank(t[0])
    ensures SkipBlanks(t) == t
  {
  }

  lemma IntegerIsWord(s: string)
    requires IsInteger(s)
    ensures s != "" && !IsConfBlank(s[0]) && s[0] != '\'' && forall c <- s :: IsWordChar(c)
  {
    var signed := s[0] == '-' || s[0] == '+';
    var body := if signed then s[1..] else s;
    var n := RunLength(body, IsDigit);
    RunAll(body, IsDigit);
    assert body == body[..n] + body[n..];
    assert signed ==> s == [s[0]] + body;
  }

  lemma {:induction false} RunAll(s: string, p: char -> bool)
    ensures forall c <- s[..RunLength(s, p)] :: p(c)
  {
    if s != "" && p(s[0]) {
      RunAll(s[1..], p);
      assert s[..RunLength(s, p)] == [s[0]] + s[1..][..RunLength(s[1..], p)];
    }
  }

  lemma NameIsWord(s: string)
    requires IsName(s)
    ensures s != "" && IsLetter(s[0]) && forall c <- s :: IsWordChar(c)
  {
    if !IsId(s) {
      var i :| 0 <= i < |s| && s[i] == '.' && IsId(s[..i]) && IsId(s[i + 1..]);
      assert s == s[..i] + [s[i]] + s[i + 1..];
    }
  }

  /** The value part of a line reads back, for every value. */
  lemma ValueRoundTrip(value: string, rest: string)
    ensures ReadValue(EscapeStr(value) + ("\n" + rest)) == Some(Token(value, "\n" + rest))
    ensures EscapeStr(value) != "" && !IsConfBlank(EscapeStr(value)[0])
  {
    if IsInteger(value) || IsPlainWord(value) {
      if IsInteger(value) { IntegerIsWord(value); }
      WordRoundTrip(value, "\n" + rest);
    } else {
      QuotedRoundTrip(value, "\n" + rest);
    }
  }

  lemma WordRoundTrip(value: string, after: string)
    requires (IsInteger(value) || IsPlainWord(value)) && after != "" && !IsWordChar(after[0])
    ensures ReadValue(value + after) == Some(Token(value, after))
  {
    if IsInteger(value) { IntegerIsWord(value); }
    var t := value + after;
    RunStops(value, after, IsWordChar);
    assert t[..|value|] == value && t[|value|..] == after;
    StartsWithChar(t, '\'');
  }

  lemma QuotedRoundTrip(value: string, after: string)
    requires after != "" && after[0] != '\''
    ensures ReadValue("'" + EscapeSpecial(value) + "'" + after) == Some(Token(value, after))
  {
    var t := "'" + EscapeSpecial(value) + "'" + after;
    assert t[1..] == EscapeSpecial(value) + ("'" + after);
    ConfBodyEscapedSpecial(value, "'" + after);
    assert ("'" + after)[1..] == after;
    assert ConfBody("'" + after) == Some(Token("", after));
    assert value + "" == value;
  }

  lemma AfterEquals(t: string)
    ensures var tail := SkipBlanks("=" + t); StartsWith(tail, "=") && tail[1..] == t
  {
    NoBlanks("=" + t);
    StartsWithChar("=" + t, '=');
  }

  lemma AfterNameRoundTrip(name: string, token: string, value: string, rest: string)
    requires token != "" && !IsConfBlank(token[0])
    requires ReadValue(token + ("\n" + rest)) == Some(Token(value, "\n" + rest))
    ensures ReadAfterName(name, "=" + (token + ("\n" + rest))) == Some((Setting(name, value), rest))
  {
    AfterEquals(token + ("\n" + rest));
    NoBlanks(token + ("\n" + rest));
    NoBlanks("\n" + rest);
    assert ("\n" + rest)[1..] == rest;
  }

  lemma LineOpens(name: string, tail: string)
    requires IsName(name) && tail != "" && !IsWordChar(tail[0])
    ensures ReadLine(name + tail) == ReadAfterName(name, tail)
  {
    NameIsWord(name);
    NoBlanks(name + tail);
    RunStops(name, tail, IsWordChar);
    assert (name + tail)[..|name|] == name && (name + tail)[|name|..] == tail;
  }

  lemma RegroupLine(a: string, b: string, c: string, d: string, e: string)
    ensures a + b + c + d + e == a + (b + (c + (d + e)))
  {
  }

  lemma LineRoundTrip(s: Setting, rest: string)
    requires IsName(s.name)
    ensures ReadLine(Line(s) + rest) == Some((s, rest))
  {
    ValueRoundTrip(s.value, rest);
    AfterNameRoundTrip(s.name, EscapeStr(s.value), s.value, rest);
    LineOpens(s.name, "=" + (EscapeStr(s.value) + ("\n" + rest)));
    RegroupLine(s.name, "=", EscapeStr(s.value), "\n", rest);
  }

  lemma {:induction false} FileRoundTrip(settings: seq<Setting>, m: map<string, string>)
    requires forall s <- settings :: IsName(s.name)
    ensures ReadFile(Text(settings), m) == Some(LastWins(settings, m))
  {
    if settings != [] {
      LineRoundTrip(settings[0], Text(settings[1..]));
      FileRoundTrip(settings[1..], m[settings[0].name := settings[0].value]);
    }
  }

  lemma {:induction false} LastWinsKeys(settings: seq<Setting>, m: map<string, string>)
    ensures LastWins(settings, m).Keys == m.Keys + set s | s in settings :: s.name
  {
    if settings != [] {
      LastWinsKeys(settings[1..], m[settings[0].name := settings[0].value]);
      assert forall s :: s in settings <==> s == settings[0] || s in settings[1..];
    }
  }

  /** The file gives back exactly the settings, if and only if every option name is an identifier. */
  lemma ReadsBackExactlyWhen(settings: seq<Setting>)
    ensures ReadFile(Text(settings), map[]) == Some(LastWins(settings, map[])) <==>
            forall s <- settings :: IsName(s.name)
  {
    if forall s <- settings :: IsName(s.name) {
      FileRoundTrip(settings, map[]);
    } else {
      var s :| s in settings && !IsName(s.name);
      LastWinsKeys(settings, map[]);
      ReadFileNames(Text(settings), map[]);
      assert s.name in LastWins(settings, map[]);
    }
  }

  // ----- the object ---------------------------------------------------------------------------

  function Concat(lines: seq<string>): string {
    if lines == [] then "" else Concat(lines[..|lines| - 1]) + lines[|lines| - 1]
  }

  lemma {:induction false} TextSnoc(settings: seq<Setting>, s: Setting)
    ensures Text(settings + [s]) == Text(settings) + Line(s)
  {
    if settings == [] {
      assert settings + [s] == [s] && [s][1..] == [];
    } else {
      assert (settings + [s])[1..] == settings[1..] + [s];
      TextSnoc(settings[1..], s);
    }
  }

  lemma {:induction false} LastWinsSnoc(settings: seq<Setting>, s: Setting, m: map<string, string>)
    ensures LastWins(settings + [s], m) == LastWins(settings, m)[s.name := s.value]
  {
    if settings == [] {
      assert settings + [s] == [s] && [s][1..] == [];
    } else {
      assert (settings + [s])[1..] == settings[1..] + [s];
      LastWinsSnoc(settings[1..], s, m[settings[0].name := settings[0].value]);
    }
  }

  /** `value` is what the last setting of `option` says. */
  ghost predicate IsLast(settings: seq<Setting>, option: string, value: string) {
    exists i :: 0 <= i < |settings| && settings[i] == Setting(option, value) && NoneAfter(settings, option, i)
  }

  predicate NoneAfter(settings: seq<Setting>, option: string, i: int) {
    forall j :: i < j < |settings| && 0 <= j ==> settings[j].name != option
  }

  lemma OneLast(settings: seq<Setting>, option: string, v: string, w: string)
    requires IsLast(settings, option, v) && IsLast(settings, option, w)
    ensures v == w
  {
  }

  lemma {:induction false} LastWinsMeans(settings: seq<Setting>, option: string)
    ensures option in LastWins(settings, map[]) <==> exists s <- settings :: s.name == option
    ensures option in LastWins(settings, map[]) ==> IsLast(settings, option, LastWins(settings, map[])[option])
  {
    if settings != [] {
      var init, last := settings[..|settings| - 1], settings[|settings| - 1];
      assert settings == init + [last];
      LastWinsSnoc(init, last, map[]);
      LastWinsMeans(init, option);
      if last.name == option {
        assert NoneAfter(settings, option, |settings| - 1);
      } else if option in LastWins(init, map[]) {
        var i :| 0 <= i < |init| && init[i] == Setting(option, LastWins(init, map[])[option]) && NoneAfter(init, option, i);
        assert settings[i] == init[i] && NoneAfter(settings, option, i);
      }
    }
  }

  class PostgresConf {
    var lines: seq<string>
    var hash: map<string, string>

    constructor ()
      ensures BuiltFrom([])
    {
      lines := [];
      hash := map[];
    }

    /** The object after these calls of `append`, in this order. */
    ghost predicate BuiltFrom(settings: seq<Setting>)
      reads this
    {
      Concat(lines) == Text(settings) && hash == LastWins(settings, map[])
    }

    /** The value of the last setting of the option, if there is one. */
    method Get(option: string) returns (value: Option<string>)
      ensures forall settings: seq<Setting> :: BuiltFrom(settings) ==>
                && (value.None? <==> forall s <- settings :: s.name != option)
                && forall v :: value == Some(v) <==> IsLast(settings, option, v)
    {
      value := if option in hash then Some(hash[option]) else None;
      forall settings: seq<Setting> | BuiltFrom(settings)
        ensures value.None? <==> forall s <- settings :: s.name != option
        ensures forall v :: value == Some(v) <==> IsLast(settings, option, v)
      {
        LastWinsMeans(settings, option);
        forall v ensures value == Some(v) <==> IsLast(settings, option, v) {
          if value.Some? && IsLast(settings, option, v) {
            OneLast(settings, option, v, value.value);
          }
        }
      }
    }

    method Append(option: string, value: string)
      modifies this
      ensures lines == old(lines) + [option + "=" + EscapeStr(value) + "\n"] && hash == old(hash)[option := value]
      ensures forall settings: seq<Setting> :: old(BuiltFrom(settings)) ==> BuiltFrom(settings + [Setting(option, value)])
    {
      ghost var before := lines;
      lines := lines + [option + "=" + EscapeStr(value) + "\n"];
      assert lines[..|lines| - 1] == before;
      hash := hash[option := value];
      forall settings: seq<Setting> | old(BuiltFrom(settings)) ensures BuiltFrom(settings + [Setting(option, value)]) {
        TextSnoc(settings, Setting(option, value));
        LastWinsSnoc(settings, Setting(option, value), map[]);
      }
    }

    /** `Display`: what is written to the file, and when it reads back as the settings. */
    method Display() returns (text: string)
      ensures text == Concat(lines)
      ensures forall settings: seq<Setting> :: BuiltFrom(settings) ==>
                (ReadFile(text, map[]) == Some(hash) <==> forall s <- settings :: IsName(s.name))
    {
      text := "";
      for i := 0 to |lines|
        invariant text == Concat(lines[..i])
      {
        assert lines[..i + 1][..i] == lines[..i];
        text := text + lines[i];
      }
      assert lines[..|lines|] == lines;
      forall settings: seq<Setting> | BuiltFrom(settings)
        ensures ReadFile(text, map[]) == Some(hash) <==> forall s <- settings :: IsName(s.name)
      {
        ReadsBackExactlyWhen(settings);
      }
    }
  }
}
