/** Path patterns: how a request path is matched against a route's pattern. */
module Routing {
  import opened Collections

  // ---------------------------------------------------------------- segments

  /** The text up to the next slash, and what is left after it. */
  function Word(s: string): (w: string)
    ensures |w| <= |s|
  {
    if s == [] || s[0] == '/' then [] else [s[0]] + Word(s[1..])
  }

  function Split(s: string): seq<string>
    decreases |s|
  {
    if s == [] then []
    else if s[0] == '/' then Split(s[1..])
    else [Word(s)] + Split(s[|Word(s)|..])
  }

  function HasTrailingSlash(path: string): bool {
    |path| > 1 && path[|path| - 1] == '/'
  }

  predicate Slashes(s: string) {
    forall i | 0 <= i < |s| :: s[i] == '/'
  }

  predicate IsSegment(s: string) {
    s != [] && '/' !in s
  }

  predicate AreSegments(segments: seq<string>) {
    forall s | s in segments :: IsSegment(s)
  }

  /** Text laid out from its segments: one gap in front of each, and one at the end. Gaps are slashes, and only the
      first and the last may be empty. */
  function Layout(gaps: seq<string>, segments: seq<string>): string
    requires |gaps| == |segments| + 1
  {
    if segments == [] then gaps[0] else gaps[0] + (segments[0] + Layout(gaps[1..], segments[1..]))
  }

  predicate Separates(gaps: seq<string>) {
    && (forall i | 0 <= i < |gaps| :: Slashes(gaps[i]))
    && (forall i | 0 < i < |gaps| - 1 :: gaps[i] != [])
  }

  /** A slash ends the word before it. */
  lemma {:induction false} WordThenSlash(w: string, rest: string)
    requires '/' !in w && (rest == [] || rest[0] == '/')
    ensures Word(w + rest) == w
  {
    if w == [] {
      assert w + rest == rest;
    } else {
      assert (w + rest)[1..] == w[1..] + rest;
      WordThenSlash(w[1..], rest);
    }
  }

  lemma SplitWord(w: string, rest: string)
    requires IsSegment(w) && (rest == [] || rest[0] == '/')
    ensures Split(w + rest) == [w] + Split(rest)
  {
    WordThenSlash(w, rest);
    assert (w + rest)[0] == w[0] && w[0] in w;
    assert (w + rest)[|w|..] == rest;
  }

  lemma {:induction false} SplitSlashes(g: string, rest: string)
    requires Slashes(g)
    ensures Split(g + rest) == Split(rest)
  {
    if g == [] {
      assert g + rest == rest;
    } else {
      assert (g + rest)[1..] == g[1..] + rest;
      SplitSlashes(g[1..], rest);
    }
  }

  /** Splitting undoes laying out, whatever the gaps. */
  lemma {:induction false} SplitInvertsLayout(gaps: seq<string>, segments: seq<string>)
    requires |gaps| == |segments| + 1 && Separates(gaps) && AreSegments(segments)
    ensures Split(Layout(gaps, segments)) == segments
  {
    if segments == [] {
      SplitSlashes(gaps[0], []);
      assert gaps[0] + [] == gaps[0];
    } else {
      var rest := Layout(gaps[1..], segments[1..]);
      TailSeparates(gaps);
      SplitInvertsLayout(gaps[1..], segments[1..]);
      LayoutStart(gaps[1..], segments[1..]);
      SplitSlashes(gaps[0], segments[0] + rest);
      SplitWord(segments[0], rest);
    }
  }

  lemma TailSeparates(gaps: seq<string>)
    requires |gaps| > 1 && Separates(gaps)
    ensures Separates(gaps[1..]) && (|gaps| > 2 ==> gaps[1] != [])
  {
    var t := gaps[1..];
    assert forall i | 0 < i < |t| - 1 :: t[i] == gaps[i + 1];
  }

  lemma LayoutStart(gaps: seq<string>, segments: seq<string>)
    requires |gaps| == |segments| + 1 && Slashes(gaps[0]) && (segments != [] ==> gaps[0] != [])
    ensures var s := Layout(gaps, segments); s == [] || s[0] == '/'
  {
  }

  /** The gaps of a text. */
  function Gaps(s: string): (gaps: seq<string>)
    decreases |s|
  {
    if s == [] then [""]
    else if s[0] == '/' then Widen(Gaps(s[1..]))
    else [""] + Gaps(s[|Word(s)|..])
  }

  function Widen(gaps: seq<string>): seq<string> {
    if gaps == [] then [] else ["/" + gaps[0]] + gaps[1..]
  }

  lemma {:induction false} WordProperties(s: string)
    ensures Word(s) + s[|Word(s)|..] == s && '/' !in Word(s)
    ensures s != [] && s[0] != '/' ==> Word(s) != []
    ensures |Word(s)| < |s| ==> s[|Word(s)|] == '/'
  {
    if s != [] && s[0] != '/' {
      WordProperties(s[1..]);
      assert s == [s[0]] + s[1..];
    }
  }

  /** Every text is laid out from its segments. */
  lemma {:induction false} LayoutOfSplit(s: string)
    ensures AreSegments(Split(s)) && |Gaps(s)| == |Split(s)| + 1 && Separates(Gaps(s))
    ensures Layout(Gaps(s), Split(s)) == s
    ensures s == [] || s[0] == '/' ==> s == [] || Gaps(s)[0] != []
    decreases |s|
  {
    if s == [] {
    } else if s[0] == '/' {
      LayoutOfSplit(s[1..]);
      WidenLayout(Gaps(s[1..]), Split(s[1..]));
      assert s == "/" + s[1..];
    } else {
      WordProperties(s);
      var rest := s[|Word(s)|..];
      LayoutOfSplit(rest);
      PrependSeparates(Gaps(rest));
      assert Gaps(s)[1..] == Gaps(rest) && Split(s)[1..] == Split(rest);
      assert "" + (Word(s) + rest) == s;
    }
  }

  lemma WidenLayout(gaps: seq<string>, segments: seq<string>)
    requires |gaps| == |segments| + 1 && Separates(gaps)
    ensures Separates(Widen(gaps)) && Layout(Widen(gaps), segments) == "/" + Layout(gaps, segments)
  {
    var wide := Widen(gaps);
    assert wide[1..] == gaps[1..];
    assert forall i | 0 < i < |wide| :: wide[i] == gaps[i];
    assert wide[0] == "/" + gaps[0];
    if segments != [] {
      Assoc("/", gaps[0], segments[0] + Layout(gaps[1..], segments[1..]));
    }
  }

  lemma PrependSeparates(gaps: seq<string>)
    requires Separates(gaps) && |gaps| > 0 && (|gaps| > 1 ==> gaps[0] != [])
    ensures Separates([""] + gaps)
  {
    var all := [""] + gaps;
    assert forall i | 0 < i < |all| :: all[i] == gaps[i - 1];
  }

  // ---------------------------------------------------------------- patterns

  /** ':name' and '{name}' capture; any other segment stands for itself. */
  function CaptureName(segment: string): Option<string> {
    if segment != [] && segment[0] == ':' then Some(segment[1..])
    else if |segment| >= 2 && segment[0] == '{' && segment[|segment| - 1] == '}' then Some(segment[1..|segment| - 1])
    else None
  }

  /** The two spellings of a capture, and what is neither. */
  lemma CaptureForms(name: string, segment: string)
    ensures CaptureName(":" + name) == Some(name)
    ensures CaptureName("{" + name + "}") == Some(name)
    ensures segment != [] && segment[0] != ':' && (segment[0] != '{' || |segment| < 2 || segment[|segment| - 1] != '}') ==>
      CaptureName(segment) == None
  {
    assert (":" + name)[1..] == name;
    var braced := "{" + name + "}";
    assert braced[1..|braced| - 1] == name;
  }

  function Names(pattern: seq<string>): seq<string> {
    if pattern == [] then []
    else match CaptureName(pattern[0])
      case Some(name) => [name] + Names(pattern[1..])
      case None => Names(pattern[1..])
  }

  /** The pattern with its captures filled, in order. */
  function Fill(pattern: seq<string>, values: seq<string>): seq<string>
    requires |values| == |Names(pattern)|
  {
    if pattern == [] then []
    else match CaptureName(pattern[0])
      case Some(_) => [values[0]] + Fill(pattern[1..], values[1..])
      case None => [pattern[0]] + Fill(pattern[1..], values)
  }

  type Captures = seq<(string, string)>

  function MatchSegments(pattern: seq<string>, path: seq<string>): Option<Captures>
    requires |pattern| == |path|
  {
    if pattern == [] then Some([])
    else
      match CaptureName(pattern[0])
      case Some(name) =>
        (match MatchSegments(pattern[1..], path[1..])
         case Some(rest) => Some([(name, path[0])] + rest)
         case None => None)
      case None => if pattern[0] == path[0] then MatchSegments(pattern[1..], path[1..]) else None
  }

  function Match(pattern: string, path: string): Option<Captures> {
    if HasTrailingSlash(pattern) != HasTrailingSlash(path) || |Split(pattern)| != |Split(path)| then None
    else MatchSegments(Split(pattern), Split(path))
  }

  function Pairs(names: seq<string>, values: seq<string>): Captures
    requires |names| == |values|
  {
    if names == [] then [] else [(names[0], values[0])] + Pairs(names[1..], values[1..])
  }

  /** The values a request path gives to the captures. */
  function Values(captures: Captures): seq<string> {
    if captures == [] then [] else [captures[0].1] + Values(captures[1..])
  }

  lemma {:induction false} FillMatches(pattern: seq<string>, values: seq<string>)
    requires |values| == |Names(pattern)|
    ensures |Fill(pattern, values)| == |pattern|
    ensures MatchSegments(pattern, Fill(pattern, values)) == Some(Pairs(Names(pattern), values))
  {
    if pattern != [] {
      var captures := CaptureName(pattern[0]).Some?;
      FillMatches(pattern[1..], if captures then values[1..] else values);
    }
  }

  lemma {:induction false} FillKeepsSegments(pattern: seq<string>, values: seq<string>)
    requires |values| == |Names(pattern)| && AreSegments(pattern) && AreSegments(values)
    ensures AreSegments(Fill(pattern, values)) && |Fill(pattern, values)| == |pattern|
  {
    if pattern != [] {
      var captures := CaptureName(pattern[0]).Some?;
      FillKeepsSegments(pattern[1..], if captures then values[1..] else values);
    }
  }

  lemma {:induction false} MatchFills(pattern: seq<string>, path: seq<string>)
    requires |pattern| == |path| && MatchSegments(pattern, path).Some?
    ensures var values := Values(MatchSegments(pattern, path).value);
      && |values| == |Names(pattern)| && path == Fill(pattern, values)
      && (forall v | v in values :: v in path)
  {
    if pattern != [] {
      MatchFills(pattern[1..], path[1..]);
      assert path == [path[0]] + path[1..];
      assert forall v | v in path[1..] :: v in path;
    }
  }

  /** A request path made from a pattern by putting a value in the place of each capture, slashes and all. */
  function Instantiate(pattern: string, values: seq<string>): string
    requires |values| == |Names(Split(pattern))| && AreSegments(values)
  {
    LayoutOfSplit(pattern);
    FillKeepsSegments(Split(pattern), values);
    Layout(Gaps(pattern), Fill(Split(pattern), values))
  }

  lemma {:induction false} LayoutEnd(gaps: seq<string>, a: seq<string>, b: seq<string>)
    requires |a| == |b| && |gaps| == |a| + 1 && Separates(gaps) && AreSegments(a) && AreSegments(b)
    ensures HasTrailingSlash(Layout(gaps, a)) == HasTrailingSlash(Layout(gaps, b))
  {
    if a != [] {
      EndSlash(gaps, a);
      EndSlash(gaps, b);
    }
  }

  lemma {:induction false} EndSlash(gaps: seq<string>, segments: seq<string>)
    requires |gaps| == |segments| + 1 && Separates(gaps) && AreSegments(segments) && segments != []
    ensures HasTrailingSlash(Layout(gaps, segments)) <==> gaps[|segments|] != []
  {
    TailSeparates(gaps);
    var rest := Layout(gaps[1..], segments[1..]);
    var s := Layout(gaps, segments);
    assert IsSegment(segments[0]);
    assert s[|gaps[0]|..] == segments[0] + rest;
    if |segments| == 1 {
      var last, word := gaps[1], segments[0];
      assert rest == last && s == gaps[0] + (word + last);
      assert last == [] ==> s[|s| - 1] == word[|word| - 1] && word[|word| - 1] in word;
      assert last != [] ==> s[|s| - 1] == last[|last| - 1];
    } else {
      EndSlash(gaps[1..], segments[1..]);
      LayoutLong(gaps[1..], segments[1..]);
      assert s[|s| - 1] == rest[|rest| - 1];
    }
  }

  lemma LayoutLong(gaps: seq<string>, segments: seq<string>)
    requires |gaps| == |segments| + 1 && AreSegments(segments) && segments != [] && gaps[0] != []
    ensures |Layout(gaps, segments)| > 1
  {
    assert IsSegment(segments[0]);
  }

  // ---------------------------------------------------------------- the theorems

  /** Matching undoes instantiation: any values that are non-empty and free of slashes come back, in order, under
      the names of the captures they filled. */
  lemma MatchInvertsInstantiation(pattern: string, values: seq<string>)
    requires |values| == |Names(Split(pattern))| && AreSegments(values)
    ensures Match(pattern, Instantiate(pattern, values)) == Some(Pairs(Names(Split(pattern)), values))
  {
    LayoutOfSplit(pattern);
    FillKeepsSegments(Split(pattern), values);
    FillMatches(Split(pattern), values);
    SplitInvertsLayout(Gaps(pattern), Fill(Split(pattern), values));
    LayoutEnd(Gaps(pattern), Split(pattern), Fill(Split(pattern), values));
  }

  /** Nothing else matches: a path that does has the pattern's trailing slash, and its segments are the pattern's with
      the captured values filled in. */
  lemma MatchIffFilled(pattern: string, path: string, captures: Captures)
    ensures Match(pattern, path) == Some(captures) <==>
      && HasTrailingSlash(pattern) == HasTrailingSlash(path)
      && |Values(captures)| == |Names(Split(pattern))|
      && Split(path) == Fill(Split(pattern), Values(captures))
      && captures == Pairs(Names(Split(pattern)), Values(captures))
  {
    if |Values(captures)| == |Names(Split(pattern))| {
      FillMatches(Split(pattern), Values(captures));
    }
    if Match(pattern, path) == Some(captures) {
      MatchFills(Split(pattern), Split(path));
    }
  }

  /** A slash at the end is significant: no pattern matches a path both with and without it. The root is its own. */
  lemma TrailingSlashMatters(pattern: string, path: string)
    requires path != [] && path[|path| - 1] != '/'
    ensures HasTrailingSlash(path + "/") && !HasTrailingSlash(path) && !HasTrailingSlash("/")
    ensures Match(pattern, path).None? || Match(pattern, path + "/").None?
  {
  }

  /** What is captured is never empty and never holds a slash. */
  lemma CapturesAreSegments(pattern: string, path: string)
    requires Match(pattern, path).Some?
    ensures AreSegments(Values(Match(pattern, path).value))
  {
    MatchFills(Split(pattern), Split(path));
    LayoutOfSplit(path);
  }

  // ---------------------------------------------------------------- the matching loops

  method SplitPath(path: string) returns (segments: seq<string>)
    ensures segments == Split(path)
  {
    segments := [];
    var current := "";
    assert "" + path[0..] == path;
    for i := 0 to |path|
      invariant '/' !in current
      invariant Split(path) == segments + Split(current + path[i..])
    {
      var rest := path[i + 1..];
      assert path[i..] == [path[i]] + rest;
      if path[i] == '/' {
        if current != [] {
          SplitWord(current, ['/'] + rest);
          segments := segments + [current];
          current := "";
        }
        assert Split(['/'] + rest) == Split(rest);
        assert "" + path[i..] == ['/'] + rest && "" + rest == rest;
      } else {
        Assoc(current, [path[i]], rest);
        current := current + [path[i]];
      }
    }
    assert current + path[|path|..] == current;
    if current != [] {
      SplitWord(current, []);
      assert current + [] == current;
      segments := segments + [current];
    }
  }

  /** `captures` is meaningful only for a match; a failed one may have collected some. */
  method MatchPattern(pattern: string, path: string) returns (matched: bool, captures: Captures)
    ensures matched <==> Match(pattern, path).Some?
    ensures matched ==> captures == Match(pattern, path).value
  {
    captures := [];
    if HasTrailingSlash(pattern) != HasTrailingSlash(path) { return false, captures; }
    var patternSegments := SplitPath(pattern);
    var pathSegments := SplitPath(path);
    if |patternSegments| != |pathSegments| { return false, captures; }
    assert patternSegments[0..] == patternSegments && pathSegments[0..] == pathSegments;
    EmptyPrefix(MatchSegments(patternSegments, pathSegments));
    for i := 0 to |patternSegments|
      invariant Match(pattern, path) == Prefixed(captures, MatchSegments(patternSegments[i..], pathSegments[i..]))
    {
      var ps := patternSegments[i];
      ghost var rest := MatchSegments(patternSegments[i + 1..], pathSegments[i + 1..]);
      assert patternSegments[i..][1..] == patternSegments[i + 1..] && pathSegments[i..][1..] == pathSegments[i + 1..];
      if ps != [] && ps[0] == ':' {
        PrefixedTwice(captures, (ps[1..], pathSegments[i]), rest);
        captures := captures + [(ps[1..], pathSegments[i])];
      } else if |ps| >= 2 && ps[0] == '{' && ps[|ps| - 1] == '}' {
        PrefixedTwice(captures, (ps[1..|ps| - 1], pathSegments[i]), rest);
        captures := captures + [(ps[1..|ps| - 1], pathSegments[i])];
      } else if ps != pathSegments[i] {
        return false, captures;
      }
    }
    matched := true;
  }

  function Prefixed(first: Captures, rest: Option<Captures>): Option<Captures> {
    match rest
    case Some(c) => Some(first + c)
    case None => None
  }

  lemma EmptyPrefix(rest: Option<Captures>)
    ensures Prefixed([], rest) == rest
  {
    if rest.Some? { assert [] + rest.value == rest.value; }
  }

  lemma PrefixedTwice(first: Captures, c: (string, string), rest: Option<Captures>)
    ensures Prefixed(first, Prefixed([c], rest)) == Prefixed(first + [c], rest)
  {
    if rest.Some? { Assoc(first, [c], rest.value); }
  }
}
