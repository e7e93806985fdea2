/** Ignorable text as section 2.1 of the GraphQL specification (October 2021) has it: a comment ends at a line feed or a
    carriage return, and byte order marks are ignored. */
module GraphQLSpec {
  import opened Collections
  import opened GraphQL
  import opened GraphQLProofs

  predicate LineEnd(c: char) {
    c == '\n' || c == '\r'
  }

  predicate AtBom(s: string) {
    |s| >= 3 && s[..3] == Bom
  }

  /** From a `#` up to the end of the line. */
  function SpecAfterComment(s: string): (r: string)
    ensures |r| <= |s|
  {
    if s != "" && !LineEnd(s[0]) then SpecAfterComment(s[1..]) else s
  }

  function SpecSkip(s: string): (r: string)
    ensures |r| <= |s|
    decreases |s|
  {
    if s == "" then s
    else if Blank(s[0]) then SpecSkip(s[1..])
    else if s[0] == '#' then SpecSkip(SpecAfterComment(s[1..]))
    else if AtBom(s) then SpecSkip(s[3..])
    else s
  }

  /** The text in front of the next line feed. */
  function Line(s: string): (r: string)
    ensures |r| <= |s| && s == r + s[|r|..] && '\n' !in r
    ensures s[|r|..] == "" || s[|r|..][0] == '\n'
  {
    if s == "" || s[0] == '\n' then "" else [s[0]] + Line(s[1..])
  }

  // ---------------------------------------------------------------- when the parser skips what the specification does

  /** No byte order mark is reached, and a comment that is reached and that a carriage return ends has nothing but
      ignorable text behind it up to the next line feed. */
  predicate SkipsAlike(s: string)
    decreases |s|
  {
    if s == "" then true
    else if Blank(s[0]) then SkipsAlike(s[1..])
    else if s[0] == '#' then
      var r := SpecAfterComment(s[1..]);
      SpecSkip(Line(r)) == "" && SkipsAlike(r[|Line(r)|..])
    else !AtBom(s)
  }

  lemma {:induction false} CommentSplits(s: string)
    ensures AfterComment(s) == s[|Line(s)|..]
  {
    if s != "" && s[0] != '\n' {
      CommentSplits(s[1..]);
      assert s[|Line(s)|..] == s[1..][|Line(s[1..])|..];
    }
  }

  /** The line feed that ends a comment here lies behind the line end that ends it in the specification. */
  lemma {:induction false} CommentGoesOn(s: string)
    ensures AfterComment(s) == AfterComment(SpecAfterComment(s))
  {
    if s != "" && !LineEnd(s[0]) { CommentGoesOn(s[1..]); }
  }

  lemma {:induction false} SpecCommentOnLine(line: string, rest: string)
    requires '\n' !in line && (rest == "" || rest[0] == '\n')
    ensures SpecAfterComment(line + rest) == SpecAfterComment(line) + rest
    ensures '\n' !in SpecAfterComment(line)
  {
    if line == "" {
      assert line + rest == rest;
      assert "" + rest == rest;
    } else {
      assert line[0] in line && (line + rest)[1..] == line[1..] + rest;
      assert forall c | c in line[1..] :: c in line;
      if !LineEnd(line[0]) { SpecCommentOnLine(line[1..], rest); }
    }
  }

  /** A line feed is a boundary: what stands before it is skipped, or not, on its own. */
  lemma {:induction false} SpecSkipLine(line: string, rest: string)
    requires '\n' !in line && (rest == "" || rest[0] == '\n')
    ensures SpecSkip(line + rest) == if SpecSkip(line) == "" then SpecSkip(rest) else SpecSkip(line) + rest
    decreases |line|
  {
    var s := line + rest;
    if line == "" {
      assert s == rest;
    } else {
      assert s[0] == line[0];
      if Blank(line[0]) {
        assert s[1..] == line[1..] + rest;
        assert forall c | c in line[1..] :: c in line;
        SpecSkipLine(line[1..], rest);
      } else if line[0] == '#' {
        assert s[1..] == line[1..] + rest;
        assert forall c | c in line[1..] :: c in line;
        SpecCommentOnLine(line[1..], rest);
        SpecSkipLine(SpecAfterComment(line[1..]), rest);
      } else {
        BomOnLine(line, rest);
        if AtBom(line) {
          assert s[3..] == line[3..] + rest;
          assert forall c | c in line[3..] :: c in line;
          SpecSkipLine(line[3..], rest);
        }
      }
    }
  }

  lemma BomOnLine(line: string, rest: string)
    requires rest == "" || rest[0] == '\n'
    ensures AtBom(line + rest) <==> AtBom(line)
  {
    var s := line + rest;
    assert forall i | 0 <= i < |line| :: s[i] == line[i];
    if |line| >= 3 {
      assert s[..3] == line[..3];
    } else if |s| >= 3 {
      assert s[|line|] == '\n' && s[..3][|line|] == '\n';
      assert '\n' !in Bom;
    }
  }

  /** The parser and the specification skip the same text exactly when `SkipsAlike`. */
  lemma {:induction false} SkipsAlikeIff(s: string)
    ensures SkipWs(s) == SpecSkip(s) <==> SkipsAlike(s)
    decreases |s|
  {
    if s != "" {
      if Blank(s[0]) {
        SkipsAlikeIff(s[1..]);
      } else if s[0] == '#' {
        var r := SpecAfterComment(s[1..]);
        var line, rest := Line(r), r[|Line(r)|..];
        CommentGoesOn(s[1..]);
        CommentSplits(r);
        SpecSkipLine(line, rest);
        assert line + rest == r;
        SkipsAlikeIff(rest);
      }
    }
  }
}
