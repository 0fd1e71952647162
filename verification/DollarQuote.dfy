/**
 `pg_quote_dollar`: a dollar-quoted string whose tag does not occur in the string, and an
 outer tag for the PL/pgSQL block it is pasted into.
 */
module DollarQuote {
  import opened Prelude

  function Xs(k: nat): string {
    seq(k, _ => 'x')
  }

  /** `$tag$` */
  function Delimiter(tag: string): string {
    "$" + tag + "$"
  }

  predicate OccursAt(s: string, t: string, i: nat) {
    i + |t| <= |s| && s[i..i + |t|] == t
  }

  /** `str::contains` */
  predicate Contains(s: string, t: string) {
    exists i | 0 <= i <= |s| :: OccursAt(s, t, i)
  }

  lemma Mismatch(s: string, t: string, i: nat, k: nat)
    requires k < |t| && i + k < |s| && s[i + k] != t[k]
    ensures !OccursAt(s, t, i)
  {
    if i + |t| <= |s| {
      assert s[i..i + |t|][k] == s[i + k];
    }
  }

  lemma ContainsBound(s: string, k: nat)
    requires Contains(s, Xs(k))
    ensures k <= |s|
  {
  }

  /** The least number of x's, from `k` up, that does not occur in `s`. */
  function TagLengthFrom(s: string, k: nat): (n: nat)
    requires k <= |s| + 1
    ensures k <= n <= |s| + 1 && !Contains(s, Xs(n)) && forall j :: k <= j < n ==> Contains(s, Xs(j))
    decreases |s| + 1 - k
  {
    if Contains(s, Xs(k)) then ContainsBound(s, k); TagLengthFrom(s, k + 1) else k
  }

  function TagLength(s: string): (n: nat)
    ensures 1 <= n <= |s| + 1 && !Contains(s, Xs(n)) && forall j :: 1 <= j < n ==> Contains(s, Xs(j))
  {
    TagLengthFrom(s, 1)
  }

  function Quoted(s: string, tag: string): string {
    Delimiter(tag) + s + Delimiter(tag)
  }

  /** The loop ends with the shortest usable tag, at most one longer than the string. */
  method PgQuoteDollar(s: string) returns (escaped: string, outerTag: string)
    ensures escaped == Quoted(s, Xs(TagLength(s)))
    ensures outerTag == Xs(TagLength(s) + 1)
  {
    var tag := "x";
    outerTag := "xx";
    assert tag == Xs(1) && outerTag == Xs(2);
    ghost var k := 1;
    while Contains(s, tag)
      invariant 1 <= k <= |s| + 1 && tag == Xs(k) && outerTag == Xs(k + 1)
      invariant TagLength(s) == TagLengthFrom(s, k)
      decreases |s| + 1 - |tag|
    {
      ContainsBound(s, k);
      tag := tag + "x";
      outerTag := tag + "x";
      k := k + 1;
      assert tag == Xs(k) && outerTag == Xs(k + 1);
    }
    escaped := "$" + tag + "$" + s + "$" + tag + "$";
    assert escaped == Quoted(s, tag);
  }

  // ----- the scanner -------------------------------------------------------------------

  predicate IsTagStart(c: char) {
    'a' <= c <= 'z' || 'A' <= c <= 'Z' || c == '_' || c >= '\U{80}'
  }

  predicate IsTagChar(c: char) {
    IsTagStart(c) || '0' <= c <= '9'
  }

  predicate IsTag(tag: string) {
    tag != "" ==> IsTagStart(tag[0]) && forall c <- tag :: IsTagChar(c)
  }

  /** Where the longest run of tag characters starting at `i` ends. */
  function RunEnd(text: string, i: nat): (j: nat)
    requires i <= |text|
    ensures i <= j <= |text| && (forall k :: i <= k < j ==> IsTagChar(text[k]))
    ensures j < |text| ==> !IsTagChar(text[j])
    decreases |text| - i
  {
    if i < |text| && IsTagChar(text[i]) then RunEnd(text, i + 1) else i
  }

  /** Where the tag that may follow a dollar sign at `i - 1` ends; a tag cannot start with a digit. */
  function TagEnd(text: string, i: nat): (j: nat)
    requires i <= |text|
    ensures i <= j <= |text| && forall k :: i <= k < j ==> IsTagChar(text[k])
  {
    if i < |text| && IsTagStart(text[i]) then RunEnd(text, i) else i
  }

  /**
   The scanner's dollar-quote state: plain text is consumed up to the next dollar; there, a
   complete `$other$` that is not the opening delimiter is consumed except for its last
   dollar, an incomplete one entirely.  The result is where the closing delimiter begins.
   */
  function ScanDollar(tag: string, text: string, i: nat): Option<nat>
    requires i <= |text|
    decreases |text| - i
  {
    if i == |text| then None
    else if text[i] != '$' then ScanDollar(tag, text, i + 1)
    else
      var j := TagEnd(text, i + 1);
      if j < |text| && text[j] == '$' then
        if text[i + 1..j] == tag then Some(i) else ScanDollar(tag, text, j)
      else ScanDollar(tag, text, j)
  }

  /** `p` is the first place at or after `i` where `t` occurs. */
  ghost predicate IsFirst(text: string, t: string, i: nat, p: nat) {
    i <= p && OccursAt(text, t, p) && forall q :: i <= q < p ==> !OccursAt(text, t, q)
  }

  lemma {:induction false} RunCovers(text: string, i: nat, t: string)
    requires OccursAt(text, t, i) && forall c <- t :: IsTagChar(c)
    ensures RunEnd(text, i) >= i + |t|
    decreases |t|
  {
    if t != "" {
      assert text[i] == text[i..i + |t|][0] == t[0];
      assert text[i + 1..i + 1 + |t[1..]|] == t[1..];
      RunCovers(text, i + 1, t[1..]);
    }
  }

  lemma SliceOfSlice(text: string, i: nat, j: nat, a: nat, b: nat)
    requires i <= j <= |text| && a <= b <= j - i
    ensures text[i..j][a..b] == text[i + a..i + b]
  {
    var outer := text[i..j];
    forall k | 0 <= k < b - a ensures outer[a..b][k] == text[i + a..i + b][k] {
      assert outer[a..b][k] == outer[a + k] == text[i + a + k];
    }
  }

  lemma DelimiterParts(tag: string)
    ensures var d := Delimiter(tag); |d| == |tag| + 2 && d[1..1 + |tag|] == tag && d[1 + |tag|] == '$'
  {
  }

  lemma DelimiterStands(tag: string, text: string, i: nat)
    requires OccursAt(text, Delimiter(tag), i)
    ensures var j := i + 1 + |tag|; j < |text| && text[i + 1..j] == tag && text[j] == '$'
  {
    DelimiterParts(tag);
    var e := i + |tag| + 2;
    assert text[i..e] == Delimiter(tag);
    SliceOfSlice(text, i, e, 1, 1 + |tag|);
    assert text[i..e][1 + |tag|] == text[i + 1 + |tag|];
  }

  lemma TagEndAt(tag: string, text: string, i: nat)
    requires IsTag(tag) && OccursAt(text, tag, i) && i + |tag| < |text| && text[i + |tag|] == '$'
    ensures TagEnd(text, i) == i + |tag|
  {
    if tag != "" {
      assert text[i] == text[i..i + |tag|][0];
      RunCovers(text, i, tag);
    }
  }

  lemma DelimiterHere(tag: string, text: string, i: nat)
    requires IsTag(tag) && i < |text| && text[i] == '$'
    ensures var j := TagEnd(text, i + 1);
            OccursAt(text, Delimiter(tag), i) <==> j < |text| && text[j] == '$' && text[i + 1..j] == tag
  {
    var j := TagEnd(text, i + 1);
    if OccursAt(text, Delimiter(tag), i) {
      DelimiterStands(tag, text, i);
      TagEndAt(tag, text, i + 1);
    }
    if j < |text| && text[j] == '$' && text[i + 1..j] == tag {
      assert text[i..j + 1] == Delimiter(tag);
    }
  }

  /** The scanner finds the first occurrence of the delimiter, whatever other dollars are in the way. */
  lemma {:induction false} ScanDollarFindsFirst(tag: string, text: string, i: nat)
    requires IsTag(tag) && i <= |text|
    ensures var r := ScanDollar(tag, text, i);
            && (r.Some? ==> IsFirst(text, Delimiter(tag), i, r.value))
            && (r.None? ==> forall q :: i <= q ==> !OccursAt(text, Delimiter(tag), q))
    decreases |text| - i
  {
    var d := Delimiter(tag);
    if i < |text| {
      if text[i] != '$' {
        ScanDollarFindsFirst(tag, text, i + 1);
        Mismatch(text, d, i, 0);
      } else {
        var j := TagEnd(text, i + 1);
        DelimiterHere(tag, text, i);
        if !OccursAt(text, d, i) {
          ScanDollarFindsFirst(tag, text, j);
          forall q | i < q < j ensures !OccursAt(text, d, q) {
            Mismatch(text, d, q, 0);
          }
        }
      }
    }
  }

  /** Reading a whole dollar-quoted constant: its content and the text after it. */
  function ReadDollar(text: string): Option<(string, string)> {
    if text == "" || text[0] != '$' then None
    else
      var j := TagEnd(text, 1);
      if j == |text| || text[j] != '$' then None
      else
        var tag, body := text[1..j], text[j + 1..];
        match ScanDollar(tag, body, 0)
        case None => None
        case Some(p) => if p + |tag| + 2 <= |body| then Some((body[..p], body[p + |tag| + 2..])) else None
  }

  lemma OpeningDelimiter(tag: string, body: string)
    requires IsTag(tag)
    ensures var text, j := Delimiter(tag) + body, |tag| + 1;
            && text[0] == '$' && text[j] == '$'
            && TagEnd(text, 1) == j && text[1..j] == tag && text[j + 1..] == body
  {
    var text := Delimiter(tag) + body;
    assert text[..|tag| + 2] == Delimiter(tag);
    assert text[1..|tag| + 1] == tag;
    DelimiterHere(tag, text, 0);
  }

  lemma Middle(d: string, content: string, rest: string)
    ensures d + content + d + rest == d + (content + d + rest)
    ensures (content + d + rest)[..|content|] == content && (content + d + rest)[|content| + |d|..] == rest
  {
  }

  lemma ScanFinds(tag: string, text: string, p: nat)
    requires IsTag(tag) && IsFirst(text, Delimiter(tag), 0, p)
    ensures ScanDollar(tag, text, 0) == Some(p)
  {
    ScanDollarFindsFirst(tag, text, 0);
  }

  lemma ReadDollarOpens(tag: string, content: string, rest: string)
    requires IsTag(tag)
    requires IsFirst(content + Delimiter(tag) + rest, Delimiter(tag), 0, |content|)
    ensures ReadDollar(Quoted(content, tag) + rest) == Some((content, rest))
  {
    var d := Delimiter(tag);
    Middle(d, content, rest);
    OpeningDelimiter(tag, content + d + rest);
    ScanFinds(tag, content + d + rest, |content|);
  }

  lemma XsIsTag(k: nat)
    ensures IsTag(Xs(k))
  {
  }

  // ----- no early end -----------------------------------------------------------------------

  /** A dollar less than `k + 2` further on rules out `$x..x$` with `k` x's. */
  lemma DollarBetween(text: string, k: nat, p: nat, d: nat)
    requires p < d < p + k + 1 && d < |text| && text[d] == '$'
    ensures !OccursAt(text, Delimiter(Xs(k)), p)
  {
    assert Delimiter(Xs(k))[d - p] == 'x';
    Mismatch(text, Delimiter(Xs(k)), p, d - p);
  }

  /** The x's of a delimiter that lie inside `s` occur in `s`. */
  lemma RunInside(text: string, s: string, at: nat, m: nat, k: nat, p: nat)
    requires k <= m && OccursAt(text, Delimiter(Xs(m)), p)
    requires at <= p + 1 && p + 1 + k <= at + |s| <= |text| && text[at..at + |s|] == s
    ensures Contains(s, Xs(k))
  {
    var d := Delimiter(Xs(m));
    assert forall i :: 0 <= i < |d| ==> text[p..p + |d|][i] == d[i];
    var run := s[p + 1 - at..p + 1 - at + k];
    forall i | 0 <= i < k ensures run[i] == 'x' {
      assert run[i] == s[p + 1 - at + i] == text[p + 1 + i] == text[p..p + |d|][1 + i];
    }
    assert run == Xs(k);
    assert OccursAt(s, Xs(k), p + 1 - at);
  }

  /** `$tag$` does not occur before the end of the body, not even across its end. */
  lemma FirstAtEnd(s: string, k: nat, rest: string)
    requires k >= 1 && !Contains(s, Xs(k))
    ensures IsFirst(s + Delimiter(Xs(k)) + rest, Delimiter(Xs(k)), 0, |s|)
  {
    var d := Delimiter(Xs(k));
    var text := s + d + rest;
    assert text[|s|..|s| + |d|] == d;
    assert text[0..|s|] == s && text[|s|] == '$';
    forall q: nat | q < |s| ensures !OccursAt(text, d, q) {
      if OccursAt(text, d, q) {
        if q + 1 + k <= |s| {
          RunInside(text, s, 0, k, k, q);
        } else {
          DollarBetween(text, k, q, |s|);
        }
      }
    }
  }

  /** Dollar quoting reads back as the string, whatever follows. */
  lemma DollarRoundTrip(s: string, rest: string)
    ensures ReadDollar(Quoted(s, Xs(TagLength(s))) + rest) == Some((s, rest))
  {
    var k := TagLength(s);
    FirstAtEnd(s, k, rest);
    XsIsTag(k);
    ReadDollarOpens(Xs(k), s, rest);
  }

  // ----- nested quoting ------------------------------------------------------------------------

  /** A template with the quoted string pasted between consecutive pieces. */
  function Filled(pieces: seq<string>, quoted: string): string
    requires pieces != []
    decreases |pieces|
  {
    if |pieces| == 1 then pieces[0] else pieces[0] + quoted + Filled(pieces[1..], quoted)
  }

  /** No dollars in the template, and no gap between or after two pasted strings that is just a run of x's. */
  ghost predicate GoodTemplate(pieces: seq<string>) {
    && pieces != []
    && (forall i :: 0 <= i < |pieces| ==> '$' !in pieces[i])
    && (forall i, k: nat :: 0 < i < |pieces| && pieces[i] == Xs(k) ==> k == 0)
  }

  lemma OccursShift(a: string, b: string, t: string, i: nat)
    ensures OccursAt(a + b, t, |a| + i) == OccursAt(b, t, i)
  {
    if i + |t| <= |b| {
      assert (a + b)[|a| + i..|a| + i + |t|] == b[i..i + |t|];
    }
  }

  lemma NotXs(s: string) returns (i: nat)
    requires s != Xs(|s|)
    ensures i < |s| && s[i] != 'x'
  {
    i :| 0 <= i < |s| && s[i] != Xs(|s|)[i];
  }

  /** A dollar followed by a dollar-free gap that is not `m` x's, then a dollar, is no `$x..x$`. */
  lemma GapIsNoTag(text: string, gap: string, m: nat, p: nat)
    requires '$' !in gap && gap != Xs(m)
    requires p + 1 + |gap| < |text| && text[p + 1..p + 1 + |gap|] == gap && text[p + 1 + |gap|] == '$'
    ensures !OccursAt(text, Delimiter(Xs(m)), p)
  {
    var d := Delimiter(Xs(m));
    var copy := text[p + 1..p + 1 + |gap|];
    if |gap| < m {
      DollarBetween(text, m, p, p + 1 + |gap|);
    } else if |gap| > m {
      assert text[p + 1 + m] == copy[m] == gap[m];
      Mismatch(text, d, p, m + 1);
    } else {
      var i := NotXs(gap);
      assert d[i + 1] == 'x' && text[p + 1 + i] == copy[i] == gap[i];
      Mismatch(text, d, p, i + 1);
    }
  }

  /** `s`, quoted with `k` x's, stands in the text; `at` is where `s` itself begins. */
  ghost predicate QuotedStands(text: string, s: string, k: nat, at: nat) {
    && k + 2 <= at && at + |s| + k + 1 < |text|
    && text[at - k - 2] == '$' && text[at - k - 1..at - 1] == Xs(k) && text[at - 1] == '$'
    && text[at..at + |s|] == s
    && text[at + |s|] == '$' && text[at + |s| + 1..at + |s| + 1 + k] == Xs(k) && text[at + |s| + 1 + k] == '$'
  }

  lemma PastedStands(b: string, s: string, k: nat, tail: string)
    ensures QuotedStands(b + Quoted(s, Xs(k)) + tail, s, k, |b| + k + 2)
  {
    var q := Quoted(s, Xs(k));
    var text := b + q + tail;
    assert forall i :: 0 <= i < |q| ==> text[|b| + i] == q[i];
    assert q[1..k + 1] == Xs(k) && q[k + 2..k + 2 + |s|] == s && q[k + 3 + |s|..2 * k + 3 + |s|] == Xs(k);
  }

  lemma NotAtAnX(text: string, from: nat, k: nat, m: nat, p: nat)
    requires from <= p < from + k <= |text| && text[from..from + k] == Xs(k)
    ensures !OccursAt(text, Delimiter(Xs(m)), p)
  {
    assert text[p] == text[from..from + k][p - from] == 'x';
    Mismatch(text, Delimiter(Xs(m)), p, 0);
  }

  /** Inside a pasted quoted string, up to but not including its last dollar, the outer delimiter does not start. */
  lemma NoOuterInQuoted(text: string, s: string, k: nat, at: nat, p: nat)
    requires k >= 1 && !Contains(s, Xs(k)) && QuotedStands(text, s, k, at)
    requires at - k - 2 <= p < at + |s| + k + 1
    ensures !OccursAt(text, Delimiter(Xs(k + 1)), p)
  {
    var e := at + |s|;
    if p == at - k - 2 {
      DollarBetween(text, k + 1, p, at - 1);
    } else if p < at - 1 {
      NotAtAnX(text, at - k - 1, k, k + 1, p);
    } else if p < e && p + 1 + k <= e {
      if OccursAt(text, Delimiter(Xs(k + 1)), p) {
        RunInside(text, s, at, k + 1, k, p);
      }
    } else if p < e {
      DollarBetween(text, k + 1, p, e);
    } else if p == e {
      DollarBetween(text, k + 1, p, e + k + 1);
    } else {
      NotAtAnX(text, e + 1, k, k + 1, p);
    }
  }

  /** The last dollar of a pasted string, with the piece after it, does not start the outer delimiter either. */
  lemma NoOuterAcross(before: string, pieces: seq<string>, q: string, m: nat, rest: string)
    requires GoodTemplate(pieces) && pieces[0] != Xs(m) && before != "" && q != "" && q[0] == '$'
    ensures !OccursAt(before + (Filled(pieces, q) + Delimiter(Xs(m)) + rest), Delimiter(Xs(m)), |before| - 1)
  {
    var tail := Filled(pieces, q) + Delimiter(Xs(m)) + rest;
    TailStarts(pieces, q, Delimiter(Xs(m)), rest);
    var text := before + tail;
    assert text[|before|..|before| + |pieces[0]|] == tail[..|pieces[0]|];
    GapIsNoTag(text, pieces[0], m, |before| - 1);
  }

  lemma NoOuterInPasted(b: string, s: string, k: nat, pieces: seq<string>, rest: string, p: nat)
    requires k >= 1 && !Contains(s, Xs(k)) && GoodTemplate(pieces) && pieces[0] != Xs(k + 1)
    requires |b| <= p < |b| + |Quoted(s, Xs(k))|
    ensures var q, d := Quoted(s, Xs(k)), Delimiter(Xs(k + 1));
            !OccursAt(b + q + (Filled(pieces, q) + d + rest), d, p)
  {
    var q := Quoted(s, Xs(k));
    var tail := Filled(pieces, q) + Delimiter(Xs(k + 1)) + rest;
    if p < |b| + |q| - 1 {
      PastedStands(b, s, k, tail);
      NoOuterInQuoted(b + q + tail, s, k, |b| + k + 2, p);
    } else {
      NoOuterAcross(b + q, pieces, q, k + 1, rest);
    }
  }

  lemma TemplateTail(pieces: seq<string>, m: nat)
    requires GoodTemplate(pieces) && |pieces| > 1 && m > 0
    ensures GoodTemplate(pieces[1..]) && pieces[1] != Xs(m)
  {
    assert forall i :: 0 <= i < |pieces| - 1 ==> pieces[1..][i] == pieces[i + 1];
  }

  lemma FilledStarts(pieces: seq<string>, q: string, d: string, rest: string)
    requires pieces != []
    ensures pieces[0] <= Filled(pieces, q) + d + rest
  {
  }

  lemma FilledCons(pieces: seq<string>, q: string, d: string, rest: string)
    requires |pieces| > 1
    ensures Filled(pieces, q) + d + rest == pieces[0] + q + (Filled(pieces[1..], q) + d + rest)
    ensures |Filled(pieces, q)| == |pieces[0]| + |q| + |Filled(pieces[1..], q)|
  {
  }

  lemma NoDollarHere(text: string, piece: string, m: nat, p: nat)
    requires piece <= text && '$' !in piece && p < |piece|
    ensures !OccursAt(text, Delimiter(Xs(m)), p)
  {
    assert text[p] == piece[p];
    Mismatch(text, Delimiter(Xs(m)), p, 0);
  }

  lemma {:induction false} NoOuterInFilled(pieces: seq<string>, s: string, k: nat, rest: string, p: nat)
    requires k >= 1 && !Contains(s, Xs(k)) && GoodTemplate(pieces)
    requires p < |Filled(pieces, Quoted(s, Xs(k)))|
    ensures !OccursAt(Filled(pieces, Quoted(s, Xs(k))) + Delimiter(Xs(k + 1)) + rest, Delimiter(Xs(k + 1)), p)
    decreases |pieces|
  {
    var d, q := Delimiter(Xs(k + 1)), Quoted(s, Xs(k));
    if p < |pieces[0]| {
      FilledStarts(pieces, q, d, rest);
      NoDollarHere(Filled(pieces, q) + d + rest, pieces[0], k + 1, p);
    } else {
      FilledCons(pieces, q, d, rest);
      TemplateTail(pieces, k + 1);
      var before := |pieces[0]| + |q|;
      if p < before {
        NoOuterInPasted(pieces[0], s, k, pieces[1..], rest, p);
      } else {
        NoOuterInFilled(pieces[1..], s, k, rest, p - before);
        OccursShift(pieces[0] + q, Filled(pieces[1..], q) + d + rest, d, p - before);
      }
    }
  }

  lemma TailStarts(pieces: seq<string>, q: string, d: string, rest: string)
    requires pieces != [] && q != "" && q[0] == '$' && d != "" && d[0] == '$'
    ensures var t := Filled(pieces, q) + d + rest;
            |pieces[0]| < |t| && t[..|pieces[0]|] == pieces[0] && t[|pieces[0]|] == '$'
  {
  }

  lemma OuterIsFirst(pieces: seq<string>, s: string, k: nat, rest: string)
    requires k >= 1 && !Contains(s, Xs(k)) && GoodTemplate(pieces)
    ensures var body, d := Filled(pieces, Quoted(s, Xs(k))), Delimiter(Xs(k + 1));
            IsFirst(body + d + rest, d, 0, |body|)
  {
    var body, d := Filled(pieces, Quoted(s, Xs(k))), Delimiter(Xs(k + 1));
    OccursAfter(body, d, rest);
    forall p: nat | p < |body| ensures !OccursAt(body + d + rest, d, p) {
      NoOuterInFilled(pieces, s, k, rest, p);
    }
  }

  lemma OccursAfter(body: string, d: string, rest: string)
    ensures OccursAt(body + d + rest, d, |body|)
  {
  }

  /**
   A block `$outer$ ... $outer$` with the quoted string pasted into it any number of times
   is read as exactly that block, and inside it the pasted text reads back as the string.
   */
  lemma NestedRoundTrip(pieces: seq<string>, s: string, rest: string, after: string)
    requires GoodTemplate(pieces)
    ensures var k := TagLength(s);
            var body := Filled(pieces, Quoted(s, Xs(k)));
            && ReadDollar(Quoted(body, Xs(k + 1)) + rest) == Some((body, rest))
            && ReadDollar(Quoted(s, Xs(k)) + after) == Some((s, after))
  {
    var k := TagLength(s);
    OuterIsFirst(pieces, s, k, rest);
    XsIsTag(k + 1);
    ReadDollarOpens(Xs(k + 1), Filled(pieces, Quoted(s, Xs(k))), rest);
    DollarRoundTrip(s, after);
  }
}
