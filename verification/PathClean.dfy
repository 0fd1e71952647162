/**
 The path canonicaliser of the endpoint storage service and the object keys built on it.
 Paths are Unix paths in text form, so there is no prefix component.
 */
module PathClean {
  import opened Prelude

  datatype Comp = Root | CurDir | Parent | Normal(name: string)

  // ----- components of a path ------------------------------------------------------------

  /** The text between slashes. */
  function Split(s: string): (r: seq<string>)
    ensures |r| >= 1
  {
    if s == "" then [""]
    else if s[0] == '/' then [""] + Split(s[1..])
    else [[s[0]] + Split(s[1..])[0]] + Split(s[1..])[1..]
  }

  function SegComp(seg: string): seq<Comp> {
    if seg == "" || seg == "." then [] else if seg == ".." then [Parent] else [Normal(seg)]
  }

  function SegComps(segs: seq<string>): seq<Comp> {
    if segs == [] then [] else SegComp(segs[0]) + SegComps(segs[1..])
  }

  /** `Utf8Path::components`: repeated and trailing slashes and inner dots vanish, a leading dot stays. */
  function Comps(path: string): seq<Comp> {
    Lead(path) + SegComps(Split(path))
  }

  function Lead(path: string): seq<Comp> {
    if StartsWith(path, "/") then [Root] else if Split(path)[0] == "." then [CurDir] else []
  }

  predicate IsFileName(s: string) {
    s != "" && s != "." && s != ".." && '/' !in s
  }

  /** What `Comps` yields: a root or a dot only in front, and real names. */
  predicate Plain(c: Comp) {
    c.Parent? || (c.Normal? && IsFileName(c.name))
  }

  predicate WellFormed(cs: seq<Comp>) {
    forall i :: 0 <= i < |cs| ==> Plain(cs[i]) || (i == 0 && !cs[0].Normal?)
  }

  lemma {:induction false} SplitHasNoSlash(s: string)
    ensures forall seg <- Split(s) :: '/' !in seg
  {
    if s != "" {
      SplitHasNoSlash(s[1..]);
      assert Split(s[1..])[0] in Split(s[1..]);
    }
  }

  lemma {:induction false} SegCompsPlain(segs: seq<string>)
    requires forall seg <- segs :: '/' !in seg
    ensures forall c <- SegComps(segs) :: Plain(c)
  {
    if segs != [] {
      SegCompsPlain(segs[1..]);
    }
  }

  lemma CompsWellFormed(path: string)
    ensures WellFormed(Comps(path))
  {
    SplitHasNoSlash(path);
    SegCompsPlain(Split(path));
    var cs := SegComps(Split(path));
    assert forall i :: 0 <= i < |cs| ==> cs[i] in cs;
  }

  // ----- the stack algorithm -------------------------------------------------------------------

  function Pushed(out: seq<Comp>, c: Comp): seq<Comp> {
    match c
    case CurDir => out
    case Parent =>
      if out != [] && out[|out| - 1].Root? then out
      else if out != [] && out[|out| - 1].Normal? then out[..|out| - 1]
      else out + [c]
    case _ => out + [c]
  }

  function CleanComps(cs: seq<Comp>): seq<Comp> {
    if cs == [] then [] else Pushed(CleanComps(cs[..|cs| - 1]), cs[|cs| - 1])
  }

  /** Collecting components into a path buffer. */
  function Render(out: seq<Comp>): string {
    if out != [] && out[0].Root? then "/" + Join(out[1..]) else Join(out)
  }

  function TextOf(c: Comp): string {
    match c
    case Root => "/"
    case CurDir => "."
    case Parent => ".."
    case Normal(name) => name
  }

  function Join(cs: seq<Comp>): string {
    if cs == [] then "" else if |cs| == 1 then TextOf(cs[0]) else TextOf(cs[0]) + "/" + Join(cs[1..])
  }

  function Clean(path: string): string {
    var out := CleanComps(Comps(path));
    if out == [] then "." else Render(out)
  }

  lemma CleanSnoc(cs: seq<Comp>, i: nat)
    requires i < |cs|
    ensures CleanComps(cs[..i + 1]) == Pushed(CleanComps(cs[..i]), cs[i])
  {
    assert cs[..i + 1][..i] == cs[..i];
  }

  method PushComp(stack: seq<Comp>, comp: Comp) returns (out: seq<Comp>)
    ensures out == Pushed(stack, comp)
  {
    out := stack;
    match comp {
      case CurDir =>
      case Parent =>
        if out == [] {
          out := out + [Parent];
        } else {
          match out[|out| - 1] {
            case Root =>
            case Normal(_) => out := out[..|out| - 1];
            case _ => out := out + [Parent];
          }
        }
      case _ => out := out + [comp];
    }
  }

  method CleanUtf8(path: string) returns (cleaned: string)
    ensures cleaned == Clean(path) && Tidy(cleaned) && SameWalk(path, cleaned)
  {
    var comps := Comps(path);
    var out: seq<Comp> := [];
    for i := 0 to |comps|
      invariant out == CleanComps(comps[..i])
    {
      CleanSnoc(comps, i);
      out := PushComp(out, comps[i]);
    }
    assert comps[..|comps|] == comps;
    if out != [] {
      cleaned := Render(out);
    } else {
      cleaned := ".";
    }
    CleanIsTheTidyText(path, cleaned);
  }

  // ----- what a path means ---------------------------------------------------------------------

  /** Where one ends up walking the path from the directory `start`, given as the names below the root. */
  function Walk(start: seq<string>, cs: seq<Comp>): seq<string> {
    if cs == [] then start
    else Step(Walk(start, cs[..|cs| - 1]), cs[|cs| - 1])
  }

  function Step(dir: seq<string>, c: Comp): seq<string> {
    match c
    case Root => []
    case CurDir => dir
    case Parent => if dir == [] then [] else dir[..|dir| - 1]
    case Normal(n) => dir + [n]
  }

  lemma WalkSnoc(start: seq<string>, cs: seq<Comp>, c: Comp)
    ensures Walk(start, cs + [c]) == Step(Walk(start, cs), c)
  {
    assert (cs + [c])[..|cs|] == cs;
  }

  /** Pushing a component onto the stack takes the step. */
  lemma PushedWalk(start: seq<string>, out: seq<Comp>, c: Comp)
    ensures Walk(start, Pushed(out, c)) == Step(Walk(start, out), c)
  {
    if c.Parent? && out != [] && out[|out| - 1].Normal? {
      var dir := Walk(start, out[..|out| - 1]);
      assert (dir + [out[|out| - 1].name])[..|dir|] == dir;
    } else if !c.CurDir? {
      WalkSnoc(start, out, c);
    }
  }

  /** A root or a run of parents, then only names. */
  predicate Canonical(out: seq<Comp>) {
    && (forall i :: 0 <= i < |out| ==> Plain(out[i]) || (i == 0 && out[0].Root?))
    && (forall i :: 0 < i < |out| && out[i].Parent? ==> out[i - 1].Parent?)
  }

  lemma {:induction false} CleanCompsCanonical(cs: seq<Comp>)
    requires WellFormed(cs)
    ensures Canonical(CleanComps(cs))
    ensures cs != [] && cs[0].Root? ==> CleanComps(cs) != [] && CleanComps(cs)[0].Root?
    ensures cs == [] || !cs[0].Root? ==> forall c <- CleanComps(cs) :: !c.Root?
  {
    if cs != [] {
      var init := cs[..|cs| - 1];
      CleanCompsCanonical(init);
      if |cs| > 1 {
        assert init[0] == cs[0];
      }
    }
  }

  /** Cleaning does not change where the path leads, from any directory. */
  lemma {:induction false} CleanKeepsWalk(start: seq<string>, cs: seq<Comp>)
    ensures Walk(start, CleanComps(cs)) == Walk(start, cs)
  {
    if cs != [] {
      var init := cs[..|cs| - 1];
      CleanKeepsWalk(start, init);
      PushedWalk(start, CleanComps(init), cs[|cs| - 1]);
    }
  }

  lemma {:induction false} CleanCanonicalIsSame(out: seq<Comp>)
    requires Canonical(out)
    ensures CleanComps(out) == out
  {
    if out != [] {
      var init := out[..|out| - 1];
      CleanCanonicalIsSame(init);
      assert out == init + [out[|out| - 1]];
    }
  }

  // ----- canonical forms and walks determine each other ---------------------------------------

  predicate Rooted(out: seq<Comp>) {
    out != [] && out[0].Root?
  }

  /** How far up a relative path leads. */
  function Up(out: seq<Comp>): nat {
    if out == [] then 0 else Up(out[..|out| - 1]) + (if out[|out| - 1].Parent? then 1 else 0)
  }

  function Names(out: seq<Comp>): seq<string> {
    if out == [] then []
    else Names(out[..|out| - 1]) + (if out[|out| - 1].Normal? then [out[|out| - 1].name] else [])
  }

  function Climb(start: seq<string>, k: nat): seq<string> {
    if k <= |start| then start[..|start| - k] else []
  }

  lemma {:induction false} AllParents(out: seq<Comp>)
    requires Canonical(out) && out != [] && out[|out| - 1].Parent?
    ensures forall c <- out :: c.Parent?
    ensures Names(out) == [] && Up(out) == |out|
  {
    if |out| > 1 {
      AllParents(out[..|out| - 1]);
      assert out == out[..|out| - 1] + [out[|out| - 1]];
    }
  }

  lemma ClimbOneMore(start: seq<string>, k: nat)
    ensures Step(Climb(start, k), Parent) == Climb(start, k + 1)
  {
  }

  /** Parents only: a climb. */
  lemma {:induction false} ParentsWalk(start: seq<string>, out: seq<Comp>)
    requires forall i :: 0 <= i < |out| ==> out[i].Parent?
    ensures Walk(start, out) == Climb(start, |out|) && Names(out) == [] && Up(out) == |out|
  {
    if out == [] {
      assert Climb(start, 0) == start;
    } else {
      ParentsWalk(start, out[..|out| - 1]);
      ClimbOneMore(start, |out| - 1);
    }
  }

  /** A canonical path is a jump to the root or a climb, followed by a descent. */
  lemma {:induction false} CanonicalWalk(start: seq<string>, out: seq<Comp>)
    requires Canonical(out)
    ensures Walk(start, out) == (if Rooted(out) then Names(out) else Climb(start, Up(out)) + Names(out))
    ensures Rooted(out) ==> Up(out) == 0
  {
    if out == [] || out[|out| - 1].Parent? {
      if out != [] {
        AllParents(out);
      }
      ParentsWalk(start, out);
      assert Climb(start, |out|) + [] == Climb(start, |out|);
    } else if out[|out| - 1].Root? {
      LastKind(out);
      assert Walk(start, out) == [];
    } else {
      var init := out[..|out| - 1];
      CanonicalInit(out);
      CanonicalWalk(start, init);
      NameWalk(start, out);
    }
  }

  lemma NameWalk(start: seq<string>, out: seq<Comp>)
    requires Canonical(out) && out != [] && out[|out| - 1].Normal?
    requires var init := out[..|out| - 1];
             && Walk(start, init) == (if Rooted(init) then Names(init) else Climb(start, Up(init)) + Names(init))
             && (Rooted(init) ==> Up(init) == 0)
    ensures Walk(start, out) == (if Rooted(out) then Names(out) else Climb(start, Up(out)) + Names(out))
    ensures Rooted(out) ==> Up(out) == 0
  {
    var init, name := out[..|out| - 1], out[|out| - 1].name;
    assert Walk(start, out) == Walk(start, init) + [name];
    assert Names(out) == Names(init) + [name] && Up(out) == Up(init);
    assert Rooted(out) == Rooted(init);
    Append(Climb(start, Up(init)), Names(init), name);
  }

  lemma Append(a: seq<string>, b: seq<string>, x: string)
    ensures (a + b) + [x] == a + (b + [x])
  {
  }

  /** Root or not, height and names make up the canonical form. */
  lemma {:induction false} SameParts(a: seq<Comp>, b: seq<Comp>)
    requires Canonical(a) && Canonical(b)
    requires Rooted(a) == Rooted(b) && Up(a) == Up(b) && Names(a) == Names(b)
    ensures a == b
    decreases |a|
  {
    if a == [] {
      if b != [] {
        LastKind(b);
      }
    } else if b == [] {
      LastKind(a);
    } else {
      LastKind(a);
      LastKind(b);
      SameLast(a, b);
      CanonicalInit(a);
      CanonicalInit(b);
      if !a[|a| - 1].Root? {
        SameParts(a[..|a| - 1], b[..|b| - 1]);
      }
      SameSnoc(a, b);
    }
  }

  lemma CanonicalInit(a: seq<Comp>)
    requires Canonical(a) && a != []
    ensures Canonical(a[..|a| - 1])
  {
  }

  lemma SameSnoc(a: seq<Comp>, b: seq<Comp>)
    requires a != [] && b != [] && a[..|a| - 1] == b[..|b| - 1] && a[|a| - 1] == b[|b| - 1]
    ensures a == b
  {
    assert a == a[..|a| - 1] + [a[|a| - 1]] && b == b[..|b| - 1] + [b[|b| - 1]];
  }

  lemma SameLast(a: seq<Comp>, b: seq<Comp>)
    requires Canonical(a) && Canonical(b) && a != [] && b != []
    requires Rooted(a) == Rooted(b) && Up(a) == Up(b) && Names(a) == Names(b)
    ensures a[|a| - 1] == b[|b| - 1]
    ensures Up(a[..|a| - 1]) == Up(b[..|b| - 1]) && Names(a[..|a| - 1]) == Names(b[..|b| - 1])
  {
    LastKind(a);
    LastKind(b);
    if a[|a| - 1].Normal? {
      LastName(a);
      LastName(b);
    }
  }

  lemma LastName(a: seq<Comp>)
    requires a != [] && a[|a| - 1].Normal?
    ensures Names(a) != [] && Names(a)[..|Names(a)| - 1] == Names(a[..|a| - 1])
    ensures Names(a)[|Names(a)| - 1] == a[|a| - 1].name && Up(a) == Up(a[..|a| - 1])
  {
  }

  /** The last component shows in the parts. */
  lemma LastKind(a: seq<Comp>)
    requires Canonical(a) && a != []
    ensures a[|a| - 1].Normal? ==> Names(a) != []
    ensures a[|a| - 1].Parent? ==> Names(a) == [] && Up(a) == |a| && !Rooted(a)
    ensures a[|a| - 1].Root? ==> |a| == 1 && Names(a) == [] && Up(a) == 0 && Rooted(a)
    ensures |a| > 1 ==> Rooted(a[..|a| - 1]) == Rooted(a)
    ensures |a| == 1 && a[0].Normal? ==> !Rooted(a)
  {
    if a[|a| - 1].Parent? {
      AllParents(a);
    }
  }

  /** Two different canonical forms lead to different places from some directory. */
  lemma Distinguish(a: seq<Comp>, b: seq<Comp>) returns (start: seq<string>)
    requires Canonical(a) && Canonical(b) && a != b
    ensures Walk(start, a) != Walk(start, b)
  {
    if Names(a) != Names(b) {
      start := [];
      CanonicalWalk(start, a);
      CanonicalWalk(start, b);
      assert Climb(start, Up(a)) == [] && Climb(start, Up(b)) == [];
      assert Walk(start, a) == Names(a) && Walk(start, b) == Names(b);
    } else {
      if Rooted(a) == Rooted(b) && Up(a) == Up(b) {
        SameParts(a, b);
        assert false;
      }
      start := seq(Up(a) + Up(b) + 1, _ => "d");
      CanonicalWalk(start, a);
      CanonicalWalk(start, b);
    }
  }

  // ----- reading the cleaned text back ----------------------------------------------------------

  lemma {:induction false} SplitConcat(a: string, b: string)
    ensures Split(a + "/" + b) == Split(a) + Split(b)
  {
    if a == "" {
      assert a + "/" + b == "/" + b && ("/" + b)[1..] == b;
    } else {
      assert (a + "/" + b)[1..] == a[1..] + "/" + b;
      SplitConcat(a[1..], b);
    }
  }

  lemma {:induction false} SplitName(n: string)
    requires '/' !in n
    ensures Split(n) == [n]
  {
    if n != "" {
      SplitName(n[1..]);
      assert [n[0]] + n[1..] == n;
    }
  }

  lemma PlainSegment(c: Comp)
    requires Plain(c)
    ensures Split(TextOf(c)) == [TextOf(c)] && SegComp(TextOf(c)) == [c] && SegComps([TextOf(c)]) == [c]
  {
    SplitName(TextOf(c));
    assert [TextOf(c)][1..] == [];
  }

  lemma {:induction false} SegCompsConcat(a: seq<string>, b: seq<string>)
    ensures SegComps(a + b) == SegComps(a) + SegComps(b)
  {
    if a == [] {
      assert a + b == b;
    } else {
      assert (a + b)[1..] == a[1..] + b;
      SegCompsConcat(a[1..], b);
    }
  }

  lemma {:induction false} JoinReadsBack(cs: seq<Comp>)
    requires forall c <- cs :: Plain(c)
    ensures SegComps(Split(Join(cs))) == cs
    ensures cs != [] ==> Split(Join(cs))[0] == TextOf(cs[0]) && Join(cs) != "" && Join(cs)[0] != '/'
  {
    if cs == [] {
      assert SegComps([""]) == [];
    } else {
      PlainSegment(cs[0]);
      assert TextOf(cs[0]) != "" && TextOf(cs[0])[0] in TextOf(cs[0]);
      if |cs| == 1 {
        assert cs == [cs[0]];
      } else {
        JoinReadsBack(cs[1..]);
        SplitConcat(TextOf(cs[0]), Join(cs[1..]));
        SegCompsConcat([TextOf(cs[0])], Split(Join(cs[1..])));
        assert cs == [cs[0]] + cs[1..];
      }
    }
  }

  function Texts(cs: seq<Comp>): seq<string> {
    seq(|cs|, i requires 0 <= i < |cs| => TextOf(cs[i]))
  }

  /** Between its slashes the text holds the components, one each. */
  lemma {:induction false} JoinSegments(cs: seq<Comp>)
    requires cs != [] && forall c <- cs :: Plain(c)
    ensures Split(Join(cs)) == Texts(cs)
  {
    PlainSegment(cs[0]);
    if |cs| == 1 {
      assert Texts(cs) == [TextOf(cs[0])];
    } else {
      JoinSegments(cs[1..]);
      SplitConcat(TextOf(cs[0]), Join(cs[1..]));
      assert Texts(cs) == [TextOf(cs[0])] + Texts(cs[1..]);
    }
  }

  /** The components of the cleaned text are the stack it was made from. */
  lemma RenderReadsBack(out: seq<Comp>)
    requires Canonical(out) && out != []
    ensures Comps(Render(out)) == out
  {
    if Rooted(out) {
      var rest := out[1..];
      assert forall i :: 0 <= i < |rest| ==> rest[i] == out[i + 1];
      JoinReadsBack(rest);
      CompsOfRooted(Join(rest));
      assert out == [Root] + rest;
    } else {
      JoinReadsBack(out);
      assert Plain(out[0]);
      RelativeLead(out);
    }
  }

  lemma CompsOfRooted(text: string)
    ensures Comps("/" + text) == [Root] + SegComps(Split(text))
  {
    var path := "/" + text;
    assert path[1..] == text && path[..1] == "/";
    assert ([""] + Split(text))[1..] == Split(text);
    assert [] + SegComps(Split(text)) == SegComps(Split(text));
  }

  lemma RelativeLead(out: seq<Comp>)
    requires out != [] && Plain(out[0])
    requires Split(Join(out))[0] == TextOf(out[0]) && Join(out) != "" && Join(out)[0] != '/'
    ensures Lead(Join(out)) == []
  {
  }

  // ----- the canonicaliser, on text -------------------------------------------------------------

  lemma CompsOfClean(path: string)
    ensures var out := CleanComps(Comps(path));
            Canonical(out) && Comps(Clean(path)) == (if out == [] then [CurDir] else out)
  {
    CompsWellFormed(path);
    CleanCompsCanonical(Comps(path));
    var out := CleanComps(Comps(path));
    if out != [] {
      RenderReadsBack(out);
    } else {
      CompsOfDot();
    }
  }

  lemma CompsOfDot()
    ensures Comps(".") == [CurDir]
  {
    SplitName(".");
    assert ["."][1..] == [];
    assert SegComps(["."]) == [];
  }

  lemma CleanIsIdempotent(path: string)
    ensures Clean(Clean(path)) == Clean(path)
  {
    CompsOfClean(path);
    var out := CleanComps(Comps(path));
    if out == [] {
      assert [CurDir][..0] == [];
      assert CleanComps([CurDir]) == [];
    } else {
      CleanCanonicalIsSame(out);
    }
  }

  /** The cleaned path leads where the path leads, from everywhere. */
  lemma CleanLeadsToTheSame(path: string, start: seq<string>)
    ensures Walk(start, Comps(Clean(path))) == Walk(start, Comps(path))
  {
    CompsOfClean(path);
    CompsWellFormed(path);
    CleanKeepsWalk(start, Comps(path));
    if CleanComps(Comps(path)) == [] {
      assert [CurDir][..0] == [];
      assert Walk(start, [CurDir]) == start;
    }
  }

  ghost predicate SameWalk(p: string, q: string) {
    forall start :: Walk(start, Comps(p)) == Walk(start, Comps(q))
  }

  /** Two paths clean to the same text exactly when they lead to the same place from everywhere. */
  lemma CleanDecidesWalk(p: string, q: string)
    ensures Clean(p) == Clean(q) <==> SameWalk(p, q)
  {
    if Clean(p) == Clean(q) {
      forall start ensures Walk(start, Comps(p)) == Walk(start, Comps(q)) {
        CleanLeadsToTheSame(p, start);
        CleanLeadsToTheSame(q, start);
      }
    } else {
      CompsOfClean(p);
      CompsOfClean(q);
      var a, b := CleanComps(Comps(p)), CleanComps(Comps(q));
      CompsWellFormed(p);
      CompsWellFormed(q);
      var start := Distinguish(a, b);
      CleanKeepsWalk(start, Comps(p));
      CleanKeepsWalk(start, Comps(q));
    }
  }

  // ----- which text it is ---------------------------------------------------------------------------

  /** A segment that stands for a step, and is not taken back by a later one. */
  predicate TidyAt(segs: seq<string>, i: nat)
    requires i < |segs|
  {
    && segs[i] != "." && (segs[i] == "" ==> i == 0 && |segs| > 1)
    && (segs[i] == ".." && i > 0 ==> segs[i - 1] == "..")
  }

  /** Nothing between slashes but names, after a run of `..` or the slash of the root; or a single dot or slash. */
  predicate Tidy(text: string) {
    text == "." || text == "/" || (text != "" && forall i :: 0 <= i < |Split(text)| ==> TidyAt(Split(text), i))
  }

  lemma CutAtSlash(s: string, i: nat)
    requires i < |s| && s[i] == '/'
    ensures s == s[..i] + "/" + s[i + 1..]
  {
    assert s[i..] == [s[i]] + s[i + 1..];
  }

  lemma SplitAtSlash(s: string, i: nat)
    requires i < |s| && s[i] == '/'
    ensures Split(s) == Split(s[..i]) + Split(s[i + 1..])
  {
    CutAtSlash(s, i);
    SplitConcat(s[..i], s[i + 1..]);
  }

  lemma EmptyBetween(s: string, i: nat)
    requires i + 1 < |s| && s[i] == '/' && s[i + 1] == '/'
    ensures exists k :: 0 < k < |Split(s)| && Split(s)[k] == ""
  {
    SplitAtSlash(s, i);
    var k := |Split(s[..i])|;
    assert Split(s)[k] == Split(s[i + 1..])[0] == "";
  }

  lemma EmptyAtEnd(s: string)
    requires s != "" && s[|s| - 1] == '/'
    ensures |Split(s)| > 1 && Split(s)[|Split(s)| - 1] == ""
  {
    SplitAtSlash(s, |s| - 1);
    assert s[|s|..] == "";
  }

  /** In characters: no two slashes in a row, and none at the end but that of the root. */
  lemma TidyCharacters(text: string)
    requires Tidy(text)
    ensures text != ""
    ensures forall i :: 0 <= i < |text| - 1 ==> !(text[i] == '/' && text[i + 1] == '/')
    ensures text[|text| - 1] == '/' ==> text == "/"
  {
    if text != "." && text != "/" {
      forall k: nat | 0 < k < |Split(text)| ensures Split(text)[k] != "" {
        assert TidyAt(Split(text), k);
      }
      forall i: nat | i < |text| - 1 ensures !(text[i] == '/' && text[i + 1] == '/') {
        if text[i] == '/' && text[i + 1] == '/' {
          EmptyBetween(text, i);
          assert false;
        }
      }
      if text[|text| - 1] == '/' {
        EmptyAtEnd(text);
      }
    }
  }

  lemma PlainIsTidy(out: seq<Comp>)
    requires out != [] && Canonical(out) && !Rooted(out)
    ensures Tidy(Join(out))
  {
    assert forall i :: 0 <= i < |out| ==> Plain(out[i]);
    JoinSegments(out);
    JoinReadsBack(out);
    forall i: nat | i < |out| ensures TidyAt(Texts(out), i) {
      assert Plain(out[i]);
      if Texts(out)[i] == ".." && i > 0 {
        assert out[i].Parent? && out[i - 1].Parent?;
      }
    }
  }

  lemma RenderIsTidy(out: seq<Comp>)
    requires out != [] && Canonical(out)
    ensures Tidy(Render(out))
  {
    if !Rooted(out) {
      PlainIsTidy(out);
    } else if |out| > 1 {
      var rest := out[1..];
      CanonicalTail(out);
      NoClimb(out);
      assert forall i :: 0 <= i < |rest| ==> Plain(rest[i]);
      JoinSegments(rest);
      SplitAtSlash("/" + Join(rest), 0);
      assert ("/" + Join(rest))[..0] == "" && ("/" + Join(rest))[1..] == Join(rest);
      forall i: nat | i < |rest| + 1 ensures TidyAt([""] + Texts(rest), i) {
        if i > 0 {
          assert rest[i - 1] in rest && rest[i - 1].Normal? && Plain(rest[i - 1]);
        }
      }
    }
  }

  lemma CleanIsTidy(path: string)
    ensures Tidy(Clean(path))
  {
    CompsOfClean(path);
    if CleanComps(Comps(path)) != [] {
      RenderIsTidy(CleanComps(Comps(path)));
    }
  }

  /** Putting the slashes back. */
  function Unsplit(segs: seq<string>): string {
    if segs == [] then "" else if |segs| == 1 then segs[0] else segs[0] + "/" + Unsplit(segs[1..])
  }

  lemma UnsplitFirst(head: string, segs: seq<string>)
    requires segs != []
    ensures Unsplit([head + segs[0]] + segs[1..]) == head + Unsplit(segs)
  {
    var longer := [head + segs[0]] + segs[1..];
    assert longer[1..] == segs[1..];
    if |segs| > 1 {
      assert (head + segs[0]) + "/" + Unsplit(segs[1..]) == head + (segs[0] + "/" + Unsplit(segs[1..]));
    }
  }

  lemma UnsplitSlash(segs: seq<string>)
    requires segs != []
    ensures Unsplit([""] + segs) == "/" + Unsplit(segs)
  {
    assert ([""] + segs)[1..] == segs;
    assert "" + "/" + Unsplit(segs) == "/" + Unsplit(segs);
  }

  lemma {:induction false} UnsplitSplit(s: string)
    ensures Unsplit(Split(s)) == s
  {
    if s != "" {
      UnsplitSplit(s[1..]);
      assert s == [s[0]] + s[1..];
      if s[0] == '/' {
        UnsplitSlash(Split(s[1..]));
      } else {
        UnsplitFirst([s[0]], Split(s[1..]));
      }
    }
  }

  lemma {:induction false} JoinUnsplits(cs: seq<Comp>)
    ensures Join(cs) == Unsplit(Texts(cs))
  {
    if |cs| > 1 {
      JoinUnsplits(cs[1..]);
      assert Texts(cs)[1..] == Texts(cs[1..]);
    }
  }

  lemma {:induction false} SegmentTexts(segs: seq<string>)
    requires forall seg <- segs :: seg != "" && seg != "."
    ensures Texts(SegComps(segs)) == segs
  {
    if segs != [] {
      assert segs[0] in segs && forall seg <- segs[1..] :: seg in segs;
      SegmentTexts(segs[1..]);
      var first := SegComp(segs[0]);
      assert |first| == 1 && TextOf(first[0]) == segs[0];
      assert Texts(first + SegComps(segs[1..])) == [segs[0]] + Texts(SegComps(segs[1..]));
    }
  }

  lemma TidySegments(segs: seq<string>)
    requires forall seg <- segs :: seg != "" && seg != "." && '/' !in seg
    requires forall i :: 0 < i < |segs| && segs[i] == ".." ==> segs[i - 1] == ".."
    ensures Canonical(SegComps(segs)) && !Rooted(SegComps(segs)) && |SegComps(segs)| == |segs|
    ensures forall i :: 0 <= i < |segs| ==> (SegComps(segs)[i].Parent? <==> segs[i] == "..")
  {
    SegCompsPlain(segs);
    SegmentTexts(segs);
    var cs := SegComps(segs);
    assert |Texts(cs)| == |cs|;
    forall i | 0 <= i < |cs| ensures Plain(cs[i]) && (cs[i].Parent? <==> segs[i] == "..") {
      assert cs[i] in cs && Texts(cs)[i] == TextOf(cs[i]);
    }
  }

  lemma RelativeTidyIsClean(text: string)
    requires Tidy(text) && text != "." && text != "/" && text[0] != '/'
    ensures Clean(text) == text
  {
    var segs := Split(text);
    SplitHasNoSlash(text);
    forall seg <- segs ensures seg != "" && seg != "." {
      var i :| 0 <= i < |segs| && segs[i] == seg;
      assert TidyAt(segs, i);
    }
    forall i | 0 < i < |segs| && segs[i] == ".." ensures segs[i - 1] == ".." {
      assert TidyAt(segs, i);
    }
    TidySegments(segs);
    SegmentTexts(segs);
    assert segs[0] in segs;
    assert Comps(text) == SegComps(segs);
    CleanCanonicalIsSame(SegComps(segs));
    JoinUnsplits(SegComps(segs));
    UnsplitSplit(text);
  }

  /** Below the root there are only names. */
  lemma RootedSegments(segs: seq<string>)
    requires |segs| > 1 && segs[0] == "" && forall i :: 0 <= i < |segs| ==> TidyAt(segs, i)
    ensures forall i :: 0 <= i < |segs| - 1 ==> segs[1..][i] != "" && segs[1..][i] != "." && segs[1..][i] != ".."
  {
    forall i: nat | i < |segs| - 1 ensures segs[1..][i] != "" && segs[1..][i] != "." && segs[1..][i] != ".." {
      RootedHasNoParent(segs, i + 1);
      assert TidyAt(segs, i + 1);
    }
  }

  lemma RootedCanonical(cs: seq<Comp>)
    requires Canonical(cs) && forall i :: 0 <= i < |cs| ==> cs[i].Normal?
    ensures Canonical([Root] + cs)
  {
    var out := [Root] + cs;
    forall i | 0 <= i < |out| ensures (Plain(out[i]) && !out[i].Parent?) || (i == 0 && out[0].Root?) {
      if i > 0 {
        assert out[i] == cs[i - 1];
      }
    }
  }

  /** The stack for a run of names below the root is read off its text. */
  lemma NamesBelowRoot(rest: string)
    requires forall i :: 0 <= i < |Split(rest)| ==> Split(rest)[i] != "" && Split(rest)[i] != "." && Split(rest)[i] != ".."
    ensures CleanComps(Comps("/" + rest)) == [Root] + SegComps(Split(rest)) && Join(SegComps(Split(rest))) == rest
  {
    var segs := Split(rest);
    SplitHasNoSlash(rest);
    TidySegments(segs);
    CompsOfRooted(rest);
    RootedCanonical(SegComps(segs));
    CleanCanonicalIsSame([Root] + SegComps(segs));
    SegmentTexts(segs);
    JoinUnsplits(SegComps(segs));
    UnsplitSplit(rest);
  }

  lemma RootedTidyIsClean(text: string)
    requires Tidy(text) && text != "/" && text[0] == '/'
    ensures Clean(text) == text
  {
    var rest := text[1..];
    assert text == "/" + rest && Split(text)[1..] == Split(rest);
    RootedSegments(Split(text));
    NamesBelowRoot(rest);
    var cs := SegComps(Split(rest));
    assert ([Root] + cs)[1..] == cs;
  }

  lemma {:induction false} RootedHasNoParent(segs: seq<string>, i: nat)
    requires i < |segs| && segs[0] == "" && forall j :: 0 <= j < |segs| ==> TidyAt(segs, j)
    ensures segs[i] != ".."
  {
    if i > 0 {
      RootedHasNoParent(segs, i - 1);
      assert TidyAt(segs, i);
    }
  }

  lemma TidyIsClean(text: string)
    requires Tidy(text)
    ensures Clean(text) == text
  {
    if text == "." {
      CompsOfDot();
      assert [CurDir][..0] == [];
      assert CleanComps([CurDir]) == [];
    } else if text == "/" {
      CompsOfRooted("");
      assert "/" + "" == "/" && SegComps([""]) == [];
      assert [Root][..0] == [] && [Root][1..] == [];
      assert CleanComps([Root]) == [Root];
    } else if text[0] == '/' {
      RootedTidyIsClean(text);
    } else {
      RelativeTidyIsClean(text);
    }
  }

  /** The cleaned path is the one tidy text that leads where the path leads. */
  lemma CleanIsTheTidyText(path: string, text: string)
    ensures text == Clean(path) <==> Tidy(text) && SameWalk(path, text)
  {
    CleanIsTidy(path);
    CleanIsIdempotent(path);
    CleanDecidesWalk(path, text);
    if Tidy(text) {
      TidyIsClean(text);
    }
  }

  // ----- object keys -----------------------------------------------------------------------------

  /** `normalize_key`: rejects keys that climb out or name no object, and makes the rest relative. */
  function NormalizeKey(key: string): Result<string, string> {
    var k := Clean(key);
    var cs := Comps(k);
    if (cs != [] && cs[0].Parent?) || cs == [CurDir] || cs == [Root] then Err(k)
    else if cs != [] && cs[0].Root? then Ok(Join(cs[1..]))
    else Ok(k)
  }

  function Normals(names: seq<string>): seq<Comp> {
    seq(|names|, i requires 0 <= i < |names| => Normal(names[i]))
  }

  /** From no directory does the key lead outside that directory. */
  ghost predicate StaysBelow(key: string) {
    forall start :: start <= Walk(start, Comps(key))
  }

  lemma {:induction false} NamesOnly(out: seq<Comp>)
    requires forall c <- out :: c.Normal?
    ensures out == Normals(Names(out)) && Up(out) == 0
  {
    if out != [] {
      var init := out[..|out| - 1];
      NamesOnly(init);
      assert out == init + [out[|out| - 1]];
      assert Normals(Names(out)) == Normals(Names(init)) + [out[|out| - 1]];
    }
  }

  lemma {:induction false} NoClimb(out: seq<Comp>)
    requires Canonical(out)
    ensures Up(out) == 0 <==> out == [] || !out[0].Parent?
    ensures Up(out) == 0 && !Rooted(out) ==> forall c <- out :: c.Normal?
    ensures Rooted(out) ==> forall c <- out[1..] :: c.Normal?
    ensures Rooted(out) ==> Names(out) == Names(out[1..])
  {
    if out != [] {
      var init := out[..|out| - 1];
      NoClimb(init);
      assert out == init + [out[|out| - 1]];
      LastKind(out);
      if |out| > 1 && Rooted(out) {
        assert out[1..][..|out| - 2] == init[1..];
        assert out[1..] == init[1..] + [out[|out| - 1]];
      }
    }
  }

  /**
   A key is accepted exactly when it is absolute or stays below every directory, and leads
   somewhere; the normalized key then consists of the names it leads to from the root.
   */
  lemma NormalizeKeyMeans(key: string)
    ensures var where := Walk([], Comps(key));
            && (NormalizeKey(key).Ok? <==> where != [] && (StartsWith(key, "/") || StaysBelow(key)))
            && (NormalizeKey(key).Ok? ==> Comps(NormalizeKey(key).value) == Normals(where))
  {
    var out := CleanComps(Comps(key));
    CompsOfClean(key);
    RootedExactlyWhen(key);
    WhereFromRoot(key);
    NormalizedExactlyWhen(key);
    if Rooted(out) {
      if |out| > 1 {
        NoClimb(out);
        NamesOnly(out[1..]);
        CanonicalTail(out);
        RenderReadsBack(out[1..]);
      }
    } else {
      StaysBelowMeans(key);
      NoClimb(out);
      if Up(out) == 0 {
        NamesOnly(out);
      }
    }
  }

  lemma RootedExactlyWhen(key: string)
    ensures Rooted(CleanComps(Comps(key))) <==> StartsWith(key, "/")
  {
    CompsWellFormed(key);
    CleanCompsCanonical(Comps(key));
    if !StartsWith(key, "/") {
      RelativeHasNoRoot(key);
    }
  }

  lemma WhereFromRoot(key: string)
    ensures Walk([], Comps(key)) == Names(CleanComps(Comps(key)))
  {
    CompsOfClean(key);
    CleanKeepsWalk([], Comps(key));
    CanonicalWalk([], CleanComps(Comps(key)));
  }

  lemma NormalizedExactlyWhen(key: string)
    ensures var out := CleanComps(Comps(key));
            NormalizeKey(key).Ok? <==> Names(out) != [] && (Rooted(out) || Up(out) == 0)
  {
    var out := CleanComps(Comps(key));
    CompsOfClean(key);
    NoClimb(out);
    if Rooted(out) {
      NamesOnly(out[1..]);
    } else if Up(out) == 0 {
      NamesOnly(out);
    }
  }

  lemma RelativeHasNoRoot(key: string)
    requires !StartsWith(key, "/")
    ensures forall c <- Comps(key) :: !c.Root?
  {
    SplitHasNoSlash(key);
    SegCompsPlain(Split(key));
  }

  lemma CanonicalTail(out: seq<Comp>)
    requires Canonical(out) && Rooted(out)
    ensures Canonical(out[1..]) && !Rooted(out[1..])
  {
    NoClimb(out);
    assert forall i :: 0 <= i < |out| - 1 ==> out[1..][i] == out[i + 1] && out[1..][i] in out[1..];
  }

  lemma StaysBelowMeans(key: string)
    requires !Rooted(CleanComps(Comps(key)))
    ensures StaysBelow(key) <==> Up(CleanComps(Comps(key))) == 0
  {
    var out := CleanComps(Comps(key));
    CompsWellFormed(key);
    CleanCompsCanonical(Comps(key));
    forall start ensures Walk(start, Comps(key)) == Climb(start, Up(out)) + Names(out) {
      CleanKeepsWalk(start, Comps(key));
      CanonicalWalk(start, out);
    }
    if Up(out) > 0 {
      var start := Outside(Up(out), Names(out));
      assert !(start <= Walk(start, Comps(key)));
    }
  }

  /** A directory whose names differ from those that follow the climb. */
  lemma Outside(up: nat, names: seq<string>) returns (start: seq<string>)
    requires up > 0
    ensures !(start <= Climb(start, up) + names)
  {
    var other := if names == [] then "x" else names[0] + "x";
    start := seq(up, _ => other);
    assert Climb(start, up) + names == names;
    assert names != [] ==> |names[0]| != |start[0]|;
  }

  /** The object name: the endpoint's prefix, then the normalized key. */
  function ObjectPath(prefix: string, key: string): Result<string, string> {
    match NormalizeKey(key)
    case Err(e) => Err(e)
    case Ok(k) => Ok(prefix + "/" + k)
  }

  lemma CompsConcat(prefix: string, k: string)
    requires prefix != ""
    ensures Comps(prefix + "/" + k) == Comps(prefix) + SegComps(Split(k))
  {
    SplitConcat(prefix, k);
    SegCompsConcat(Split(prefix), Split(k));
    SameLead(prefix, k);
    Regroup(Lead(prefix), SegComps(Split(prefix)), SegComps(Split(k)));
  }

  lemma Regroup(a: seq<Comp>, b: seq<Comp>, c: seq<Comp>)
    ensures a + (b + c) == a + b + c
  {
  }

  lemma SameLead(prefix: string, k: string)
    requires prefix != ""
    ensures Lead(prefix + "/" + k) == Lead(prefix)
  {
    assert (prefix + "/" + k)[..1] == prefix[..1];
    SplitConcat(prefix, k);
  }

  lemma NormalComps(k: string, names: seq<string>)
    requires names != [] && Comps(k) == Normals(names)
    ensures SegComps(Split(k)) == Normals(names)
  {
    assert Normals(names)[0].Normal?;
  }

  lemma NormalsInjective(u: seq<string>, v: seq<string>)
    requires Normals(u) == Normals(v)
    ensures u == v
  {
    assert |u| == |Normals(u)| && |v| == |Normals(v)|;
    forall i | 0 <= i < |u| ensures u[i] == v[i] {
      assert Normals(u)[i].name == u[i] && Normals(v)[i].name == v[i];
    }
  }

  /** Every accepted key names an object strictly below the endpoint's prefix. */
  lemma ObjectPathIsConfined(prefix: string, key: string)
    requires prefix != "" && ObjectPath(prefix, key).Ok?
    ensures var where := Walk([], Comps(key));
            && where != [] && Comps(ObjectPath(prefix, key).value) == Comps(prefix) + Normals(where)
            && Split(ObjectPath(prefix, key).value) == Split(prefix) + where
  {
    NormalizeKeyMeans(key);
    NormalizedSegments(key);
    CompsConcat(prefix, NormalizeKey(key).value);
    SplitConcat(prefix, NormalizeKey(key).value);
    NormalComps(NormalizeKey(key).value, Walk([], Comps(key)));
  }

  /** Two accepted keys of one endpoint share an object exactly when they lead to the same place from the root. */
  lemma SameObjectExactlyWhen(prefix: string, p: string, q: string)
    requires NormalizeKey(p).Ok? && NormalizeKey(q).Ok?
    ensures ObjectPath(prefix, p) == ObjectPath(prefix, q) <==> Walk([], Comps(p)) == Walk([], Comps(q))
  {
    NormalizedText(p);
    NormalizedText(q);
    var a, b := NormalizeKey(p).value, NormalizeKey(q).value;
    assert (prefix + "/" + a)[|prefix| + 1..] == a && (prefix + "/" + b)[|prefix| + 1..] == b;
    if a == b {
      NormalsInjective(Walk([], Comps(p)), Walk([], Comps(q)));
    }
  }

  lemma NormalizedText(key: string)
    requires NormalizeKey(key).Ok?
    ensures NormalizeKey(key).value == Join(Normals(Walk([], Comps(key))))
    ensures Comps(NormalizeKey(key).value) == Normals(Walk([], Comps(key)))
  {
    NormalizeKeyMeans(key);
    var out := CleanComps(Comps(key));
    CompsOfClean(key);
    NoClimb(out);
    CompsWellFormed(key);
    CleanKeepsWalk([], Comps(key));
    CanonicalWalk([], out);
    if Rooted(out) {
      NamesOnly(out[1..]);
    } else {
      NamesOnly(out);
    }
  }

  /** Between its slashes the normalized key holds the names it leads to and nothing else. */
  lemma NormalizedSegments(key: string)
    requires NormalizeKey(key).Ok?
    ensures Split(NormalizeKey(key).value) == Walk([], Comps(key))
  {
    var value, where := NormalizeKey(key).value, Walk([], Comps(key));
    NormalizeKeyMeans(key);
    NormalizedText(key);
    CompsWellFormed(value);
    forall c <- Normals(where) ensures Plain(c) {
      var i :| 0 <= i < |where| && Normals(where)[i] == c;
      assert Plain(Comps(value)[i]);
    }
    JoinSegments(Normals(where));
    assert Texts(Normals(where)) == where;
  }
}
