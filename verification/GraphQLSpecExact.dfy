/** The documents of the specification that the parser reads as the specification does: exactly those without a harmful
    gap. */
module GraphQLSpecExact {
  import opened Collections
  import opened GraphQL
  import opened GraphQLProofs
  import opened GraphQLSpec
  import opened GraphQLSpecDocuments

  // ---------------------------------------------------------------- counting tokens

  /** The start of a token that the parser knows. */
  predicate Known(c: char) {
    NameStart(c) || c == '{' || c == '}'
  }

  function TokenLen(t: string): (n: nat)
    requires t != ""
    ensures 1 <= n <= |t|
  {
    if NameStart(t[0]) then NameLen(t) else 1
  }

  function Weight(t: string): nat
    requires t != ""
  {
    if Known(t[0]) then 1 else 0
  }

  /** The known tokens of a text, as the parser separates them and as the specification does. */
  function CodeCount(s: string): nat
    decreases |s|
  {
    var t := SkipWs(s);
    if t == "" then 0 else Weight(t) + CodeCount(t[TokenLen(t)..])
  }

  function SpecCount(s: string): nat
    decreases |s|
  {
    var t := SpecSkip(s);
    if t == "" then 0 else Weight(t) + SpecCount(t[TokenLen(t)..])
  }

  /** The parser meets known tokens only. */
  predicate Clean(s: string)
    decreases |s|
  {
    var t := SkipWs(s);
    t == "" || (Known(t[0]) && Clean(t[TokenLen(t)..]))
  }

  lemma {:induction false} SpecSkipOnLine(s: string)
    requires '\n' !in s
    ensures '\n' !in SpecSkip(s)
    decreases |s|
  {
    if s != "" {
      if Blank(s[0]) {
        assert forall c | c in s[1..] :: c in s;
        SpecSkipOnLine(s[1..]);
      } else if s[0] == '#' {
        assert forall c | c in s[1..] :: c in s;
        SpecCommentOnLine(s[1..], "");
        SpecSkipOnLine(SpecAfterComment(s[1..]));
      } else if AtBom(s) {
        assert forall c | c in s[3..] :: c in s;
        SpecSkipOnLine(s[3..]);
      }
    }
  }

  lemma {:induction false} NameLenOnLine(t: string, rest: string)
    requires rest == "" || rest[0] == '\n'
    ensures NameLen(t + rest) == NameLen(t)
  {
    if t == "" {
      assert t + rest == rest;
    } else {
      assert (t + rest)[1..] == t[1..] + rest;
      NameLenOnLine(t[1..], rest);
    }
  }

  /** A line feed separates tokens. */
  lemma {:induction false} SpecCountLine(line: string, rest: string)
    requires '\n' !in line && (rest == "" || rest[0] == '\n')
    ensures SpecCount(line + rest) == SpecCount(line) + SpecCount(rest)
    decreases |line|
  {
    SpecSkipLine(line, rest);
    SpecSkipOnLine(line);
    var t := SpecSkip(line);
    if t != "" {
      NameLenOnLine(t, rest);
      var n := TokenLen(t);
      assert (t + rest)[0] == t[0] && (t + rest)[n..] == t[n..] + rest;
      assert forall c | c in t[n..] :: c in t;
      SpecCountLine(t[n..], rest);
    }
  }

  lemma BomStarts(s: string)
    requires AtBom(s)
    ensures s[0] == Bom[0]
  {
    assert s[..3][0] == s[0];
  }

  lemma BomCounts(s: string)
    requires AtBom(s)
    ensures CodeCount(s) == CodeCount(s[3..])
  {
    assert s[..3][0] == s[0] && s[..3][1] == s[1] && s[..3][2] == s[2];
    assert CodeCount(s) == CodeCount(s[1..]);
    assert CodeCount(s[1..]) == CodeCount(s[2..]) by { assert s[1..][1..] == s[2..]; }
    assert CodeCount(s[2..]) == CodeCount(s[3..]) by { assert s[2..][1..] == s[3..]; }
  }

  /** The parser never sees more tokens than there are. */
  lemma {:induction false} NeverMore(s: string)
    ensures CodeCount(s) <= SpecCount(s)
    decreases |s|
  {
    if s != "" {
      if Blank(s[0]) {
        NeverMore(s[1..]);
      } else if s[0] == '#' {
        var r := SpecAfterComment(s[1..]);
        CommentGoesOn(s[1..]);
        CommentSplits(r);
        SpecCountLine(Line(r), r[|Line(r)|..]);
        NeverMore(AfterComment(s[1..]));
      } else if AtBom(s) {
        BomCounts(s);
        NeverMore(s[3..]);
      } else {
        NeverMore(s[TokenLen(s)..]);
      }
    }
  }

  // ---------------------------------------------------------------- what a harmful gap costs

  lemma KnownStands(t: string)
    requires t != "" && Known(t[0])
    ensures SpecSkip(t) == t && SpecCount(t) >= 1
  {
    if AtBom(t) { BomStarts(t); }
  }

  lemma LineStarts(x: string)
    requires x != "" && x[0] != '\n'
    ensures Line(x) != "" && Line(x)[0] == x[0]
  {
  }

  /** A comment that swallows the token in front of which it stands. */
  lemma SwallowCosts(x: string)
    requires x != "" && Known(x[0])
    ensures CodeCount(AfterComment(x)) < SpecCount(x)
  {
    var line, rest := Line(x), AfterComment(x);
    CommentSplits(x);
    assert x == line + rest;
    SpecCountLine(line, rest);
    NeverMore(rest);
    LineStarts(x);
    KnownStands(line);
  }

  lemma {:induction false} HarmCosts(g: Gap, x: string)
    requires SpecGap(g) && !Harmless(g, false) && x != "" && Known(x[0])
    ensures !Clean(GapText(g) + x) || CodeCount(GapText(g) + x) < SpecCount(x)
    decreases |g|
  {
    SpecTail(g);
    GapSplits(g, x);
    match g[0]
    case Space(_) => SkipPiece(g[0], GapText(g[1..]) + x); HarmCosts(g[1..], x);
    case Comment(_) => SkipPiece(g[0], GapText(g[1..]) + x); HarmCosts(g[1..], x);
    case ReturnComment(text) =>
      ReturnCommentSkips(text, g[1..], x);
      if HasFeed(g[1..]) {
        LineOfText(g[1..]);
        HarmCosts(AfterFeed(g[1..]), x);
      } else {
        SwallowCosts(x);
      }
    case ByteOrderMark =>
      assert (GapText(g) + x)[0] == Bom[0];
  }

  /** A token of a printed document. */
  predicate Token(tok: string, rest: string) {
    tok == "{" || tok == "}" || (IsName(tok) && EndsName(rest))
  }

  lemma TokenTakes(tok: string, rest: string)
    requires Token(tok, rest)
    ensures var x := tok + rest;
      x != "" && Known(x[0]) && StartsToken(x) && !AtBom(x) && TokenLen(x) == |tok| && x[|tok|..] == rest
  {
    var x := tok + rest;
    assert x[0] == tok[0];
    if IsName(tok) && EndsName(rest) { NameLenTakes(tok, rest); }
    if AtBom(x) { BomStarts(x); }
  }

  /** The parser and the specification see the same number of tokens from here, all of them known. */
  predicate Alike(s: string) {
    Clean(s) && CodeCount(s) == SpecCount(s)
  }

  lemma SpecTokenStep(g: Gap, tok: string, rest: string)
    requires SpecGap(g) && Token(tok, rest)
    ensures var s := GapText(g) + (tok + rest);
      SpecCount(s) == 1 + SpecCount(rest) && (Alike(s) ==> Harmless(g, false) && Alike(rest))
  {
    var x := tok + rest;
    var s := GapText(g) + x;
    TokenTakes(tok, rest);
    SpecSkipGap(g, x);
    assert SpecSkip(x) == x;
    if Alike(s) {
      if !Harmless(g, false) { HarmCosts(g, x); }
      HarmlessIff(g, x);
    }
  }

  lemma CodeTokenStep(g: Gap, tok: string, rest: string)
    requires ValidGap(g) && Token(tok, rest)
    ensures var s := GapText(g) + (tok + rest); CodeCount(s) == 1 + CodeCount(rest) && Clean(s) == Clean(rest)
  {
    TokenTakes(tok, rest);
    SkipGap(g, tok + rest);
  }

  // ---------------------------------------------------------------- along a document of the specification

  lemma SpecGapEndsName(g: Gap, x: string)
    requires SpecGap(g) && (g != [] || EndsName(x))
    ensures EndsName(GapText(g) + x)
  {
    if g == [] {
      assert GapText(g) + x == x;
    } else {
      GapSplits(g, x);
      assert SpecPiece(g[0]) && (GapText(g) + x)[0] == PieceText(g[0])[0];
    }
  }

  lemma SpecColumnsEndName(cs: seq<PrintedName>, rest: string)
    requires SpecColumns(cs, true) && EndsName(rest)
    ensures EndsName(ColumnsText(cs, rest))
  {
    if cs != [] { SpecGapEndsName(cs[0].gap, cs[0].name + ColumnsText(cs[1..], rest)); }
  }

  lemma {:induction false} SpecColumnsCount(cs: seq<PrintedName>, afterName: bool, rest: string)
    requires SpecColumns(cs, afterName) && EndsName(rest)
    ensures SpecCount(ColumnsText(cs, rest)) == |ColumnNames(cs)| + SpecCount(rest)
    ensures Alike(ColumnsText(cs, rest)) ==> HarmlessColumns(cs) && Alike(rest)
    decreases cs
  {
    if cs != [] {
      var more := ColumnsText(cs[1..], rest);
      SpecColumnsEndName(cs[1..], rest);
      SpecTokenStep(cs[0].gap, cs[0].name, more);
      SpecColumnsCount(cs[1..], true, rest);
      assert forall i | 0 < i < |cs| :: cs[i] == cs[1..][i - 1];
    }
  }

  function FieldTokens(f: Field): nat {
    3 + |f.columns|
  }

  function RootTokens(fs: seq<Field>): nat {
    if fs == [] then 0 else FieldTokens(fs[0]) + RootTokens(fs[1..])
  }

  lemma SpecFieldCount(f: PrintedField, rest: string)
    requires SpecField(f)
    ensures SpecCount(FieldText(f, rest)) == FieldTokens(FieldOf(f)) + SpecCount(rest)
    ensures Alike(FieldText(f, rest)) ==> HarmlessField(f) && Alike(rest)
  {
    var close := GapText(f.close) + ("}" + rest);
    var body := ColumnsText(f.columns, close);
    SpecGapEndsName(f.open, "{" + body);
    SpecGapEndsName(f.close, "}" + rest);
    SpecTokenStep(f.name.gap, f.name.name, GapText(f.open) + ("{" + body));
    SpecTokenStep(f.open, "{", body);
    SpecColumnsCount(f.columns, false, close);
    SpecTokenStep(f.close, "}", rest);
  }

  lemma {:induction false} SpecFieldsCount(fs: seq<PrintedField>, rest: string)
    requires forall i | 0 <= i < |fs| :: SpecField(fs[i])
    ensures SpecCount(FieldsText(fs, rest)) == RootTokens(RootsOf(fs)) + SpecCount(rest)
    ensures Alike(FieldsText(fs, rest)) ==> (forall i | 0 <= i < |fs| :: HarmlessField(fs[i])) && Alike(rest)
    decreases fs
  {
    if fs != [] {
      SpecFieldCount(fs[0], FieldsText(fs[1..], rest));
      SpecFieldsCount(fs[1..], rest);
      assert forall i | 0 < i < |fs| :: fs[i] == fs[1..][i - 1];
    }
  }

  lemma SpecHeaderCount(h: Header, rest: string)
    requires SpecHeader(h) && EndsName(rest)
    ensures SpecCount(HeaderText(h, rest)) == HeaderSize(h) + SpecCount(rest)
    ensures Alike(HeaderText(h, rest)) ==> HarmlessHeader(h) && Alike(rest)
  {
    match h
    case Shorthand =>
    case Keyword(gap) => SpecTokenStep(gap, "query", rest);
    case Named(gap, op) =>
      SpecGapEndsName(op.gap, op.name + rest);
      SpecTokenStep(gap, "query", NameText(op, rest));
      SpecTokenStep(op.gap, op.name, rest);
  }

  lemma SpecDocumentCount(p: Printed)
    requires SpecPrinted(p)
    ensures SpecCount(PrintedText(p)) == HeaderSize(p.header) + 2 + RootTokens(RootsOf(p.fields))
    ensures Alike(PrintedText(p)) ==> HarmlessDocument(p)
  {
    var end := GapText(p.trail) + p.last;
    var close := GapText(p.close) + ("}" + end);
    var body := FieldsText(p.fields, close);
    SpecGapEndsName(p.open, "{" + body);
    SpecHeaderCount(p.header, GapText(p.open) + ("{" + body));
    SpecTokenStep(p.open, "{", body);
    SpecFieldsCount(p.fields, close);
    SpecTokenStep(p.close, "}", end);
    SpecSkipGap(p.trail, p.last);
    LastSkips(p.last);
    HarmlessTrailIff(p.trail, p.last);
  }

  // ---------------------------------------------------------------- along a document of the parser

  lemma CodeColumnsEndName(cs: seq<PrintedName>, rest: string)
    requires ValidColumns(cs, true) && EndsName(rest)
    ensures EndsName(ColumnsText(cs, rest))
  {
    if cs != [] { GapEndsName(cs[0].gap, cs[0].name + ColumnsText(cs[1..], rest)); }
  }

  lemma {:induction false} CodeColumnsCount(cs: seq<PrintedName>, afterName: bool, rest: string)
    requires ValidColumns(cs, afterName) && EndsName(rest)
    ensures CodeCount(ColumnsText(cs, rest)) == |ColumnNames(cs)| + CodeCount(rest)
    ensures Clean(ColumnsText(cs, rest)) == Clean(rest)
    decreases cs
  {
    if cs != [] {
      CodeColumnsEndName(cs[1..], rest);
      CodeTokenStep(cs[0].gap, cs[0].name, ColumnsText(cs[1..], rest));
      CodeColumnsCount(cs[1..], true, rest);
    }
  }

  lemma CodeFieldCount(f: PrintedField, rest: string)
    requires ValidPrintedField(f)
    ensures CodeCount(FieldText(f, rest)) == FieldTokens(FieldOf(f)) + CodeCount(rest) && Clean(FieldText(f, rest)) == Clean(rest)
  {
    var close := GapText(f.close) + ("}" + rest);
    var body := ColumnsText(f.columns, close);
    GapEndsName(f.open, "{" + body);
    GapEndsName(f.close, "}" + rest);
    CodeTokenStep(f.name.gap, f.name.name, GapText(f.open) + ("{" + body));
    CodeTokenStep(f.open, "{", body);
    CodeColumnsCount(f.columns, false, close);
    CodeTokenStep(f.close, "}", rest);
  }

  lemma {:induction false} CodeFieldsCount(fs: seq<PrintedField>, rest: string)
    requires forall i | 0 <= i < |fs| :: ValidPrintedField(fs[i])
    ensures CodeCount(FieldsText(fs, rest)) == RootTokens(RootsOf(fs)) + CodeCount(rest) && Clean(FieldsText(fs, rest)) == Clean(rest)
    decreases fs
  {
    if fs != [] {
      CodeFieldCount(fs[0], FieldsText(fs[1..], rest));
      CodeFieldsCount(fs[1..], rest);
    }
  }

  /** The names that the parser reads in front of the selection set. */
  function HeaderNames(doc: string): nat {
    var first := ReadName(doc);
    if first.Err? || first.value.0 != "query" then 0 else if ReadName(first.value.1).Err? then 1 else 2
  }

  lemma NamedHeaderCount(gap: Gap, op: PrintedName, rest: string)
    requires ValidGap(gap) && ValidName(op) && op.gap != [] && EndsName(rest)
    ensures var s := HeaderText(Named(gap, op), rest);
      CodeCount(s) == 2 + CodeCount(rest) && Clean(s) == Clean(rest) && HeaderNames(s) == 2
  {
    var more := NameText(op, rest);
    GapEndsName(op.gap, op.name + rest);
    CodeTokenStep(gap, "query", more);
    CodeTokenStep(op.gap, op.name, rest);
    ReadNameTakes(PrintedName(gap, "query"), more);
    ReadNameTakes(op, rest);
  }

  lemma CodeHeaderCount(h: Header, open_: Gap, body: string)
    requires ValidHeader(h) && ValidGap(open_)
    ensures var rest := GapText(open_) + ("{" + body); var s := HeaderText(h, rest);
      CodeCount(s) == HeaderSize(h) + CodeCount(rest) && Clean(s) == Clean(rest) && HeaderNames(s) == HeaderSize(h)
  {
    var rest := GapText(open_) + ("{" + body);
    GapEndsName(open_, "{" + body);
    SkipGap(open_, "{" + body);
    assert ReadName(rest).Err?;
    match h
    case Shorthand =>
    case Keyword(gap) =>
      CodeTokenStep(gap, "query", rest);
      ReadNameTakes(PrintedName(gap, "query"), rest);
    case Named(gap, op) => NamedHeaderCount(gap, op, rest);
  }

  lemma CodeDocumentCount(p: Printed)
    requires ValidPrinted(p)
    ensures var s := PrintedText(p);
      && CodeCount(s) == HeaderSize(p.header) + 2 + RootTokens(RootsOf(p.fields)) && Clean(s)
      && HeaderNames(s) == HeaderSize(p.header)
  {
    var end := GapText(p.trail) + p.last;
    var close := GapText(p.close) + ("}" + end);
    var body := FieldsText(p.fields, close);
    CodeHeaderCount(p.header, p.open, body);
    CodeTokenStep(p.open, "{", body);
    CodeFieldsCount(p.fields, close);
    CodeTokenStep(p.close, "}", end);
    SkipLast(p.trail, p.last);
  }

  // ---------------------------------------------------------------- the theorems

  /** A document of the specification parses to its roots, with nothing of its header lost, exactly when none of its gaps
      does harm. */
  lemma ParsesAsSpecifiedIff(p: Printed)
    requires SpecPrinted(p)
    ensures Parse(PrintedText(p)) == Ok(RootsOf(p.fields)) && HeaderNames(PrintedText(p)) == HeaderSize(p.header)
        <==> HarmlessDocument(p)
  {
    var doc := PrintedText(p);
    if HarmlessDocument(p) {
      var d := ReadDocument(p);
      HarmlessDocumentParses(p);
      CodeDocumentCount(d);
    }
    if Parse(doc) == Ok(RootsOf(p.fields)) && HeaderNames(doc) == HeaderSize(p.header) {
      var d := ParseAcceptsOnlyPrintings(doc);
      CodeDocumentCount(d);
      SpecDocumentCount(p);
    }
  }

  /** A document without a header has none to lose. */
  lemma ShorthandParsesIff(p: Printed)
    requires SpecPrinted(p) && p.header.Shorthand?
    ensures Parse(PrintedText(p)) == Ok(RootsOf(p.fields)) <==> HarmlessDocument(p)
  {
    var doc := PrintedText(p);
    ParsesAsSpecifiedIff(p);
    if Parse(doc) == Ok(RootsOf(p.fields)) {
      var d := ParseAcceptsOnlyPrintings(doc);
      CodeDocumentCount(d);
      SpecDocumentCount(p);
      NeverMore(doc);
    }
  }

  /** A smallest document: one field with one column, behind a gap. */
  function Smallest(open_: Gap): Printed {
    Printed(Shorthand, open_, [PrintedField(PrintedName([], "a"), [], [PrintedName([], "b")], [])], [], [], "")
  }

  lemma NoGap(x: string)
    ensures GapText([]) + x == x
  {
  }

  lemma SmallestLetters()
    ensures "{" + ("a" + ("{" + ("b" + ("}" + ("}" + ""))))) == "{a{b}}"
  {
    assert "}" + "" == "}";
    assert "}" + "}" == "}}";
    assert "b" + "}}" == "b}}";
    assert "{" + "b}}" == "{b}}";
    assert "a" + "{b}}" == "a{b}}";
    assert "{" + "a{b}}" == "{a{b}}";
  }

  lemma SmallestText(open_: Gap)
    ensures PrintedText(Smallest(open_)) == GapText(open_) + "{a{b}}"
  {
    var p := Smallest(open_);
    var f, b := p.fields[0], PrintedName([], "b");
    NoGap("");
    NoGap("}" + "");
    NoGap("}" + ("}" + ""));
    NoGap("b" + ("}" + ("}" + "")));
    NoGap("{" + ("b" + ("}" + ("}" + ""))));
    NoGap("a" + ("{" + ("b" + ("}" + ("}" + "")))));
    assert f.columns == [b] && f.columns[1..] == [] && p.fields == [f] && p.fields[1..] == [];
    assert ColumnsText(f.columns, "}" + ("}" + "")) == "b" + ("}" + ("}" + ""));
    assert FieldText(f, "}" + "") == "a" + ("{" + ("b" + ("}" + ("}" + ""))));
    assert FieldsText(p.fields, "}" + "") == FieldText(f, "}" + "");
    SmallestLetters();
  }

  lemma SmallestIsSpecified(open_: Gap)
    requires SpecGap(open_) && |GapText(open_)| <= 100
    ensures SpecPrinted(Smallest(open_)) && PrintedText(Smallest(open_)) == GapText(open_) + "{a{b}}"
  {
    var p := Smallest(open_);
    var f := p.fields[0];
    SmallestText(open_);
    assert f.columns[1..] == [] && p.fields[1..] == [];
    assert ColumnNames(f.columns) == ["b"];
    assert RootsOf(p.fields) == [Field("a", ["b"])];
    assert TotalColumns([Field("a", ["b"])]) == 1 by { assert [Field("a", ["b"])][..0] == []; }
    assert SpecColumns(f.columns, false);
  }

  /** `#<CR>{a{b}}` is a document of the specification that the parser refuses. */
  lemma CommentedButRefused()
    ensures SpecPrinted(Smallest([ReturnComment("")])) && Parse(PrintedText(Smallest([ReturnComment("")]))).Err?
  {
    var g := [ReturnComment("")];
    assert g[1..] == [] && GapText([]) == "";
    assert "" + "\r" == "\r" && "#" + "\r" == "#\r" && "#\r" + "" == "#\r";
    assert GapText(g) == "#\r";
    SmallestIsSpecified(g);
    CarriageReturnKeepsComment("{a{b}}");
  }

  /** So is `<BOM>{a{b}}`. */
  lemma MarkedButRefused()
    ensures SpecPrinted(Smallest([ByteOrderMark])) && Parse(PrintedText(Smallest([ByteOrderMark]))).Err?
  {
    var g := [ByteOrderMark];
    assert g[1..] == [] && GapText([]) == "" && Bom + "" == Bom;
    assert GapText(g) == Bom;
    SmallestIsSpecified(g);
    BomRefused("{a{b}}");
  }

  /** Nothing behind a comment that only a carriage return ends is seen. */
  lemma CarriageReturnKeepsComment(rest: string)
    requires '\n' !in rest
    ensures Parse("#\r" + rest).Err?
  {
    var doc := "#\r" + rest;
    assert doc[1..] == "\r" + rest;
    AfterCommentEnds("\r" + rest);
  }

  /** A document with a byte order mark in front is refused, whatever it holds. */
  lemma BomRefused(rest: string)
    ensures Parse(Bom + rest).Err?
  {
    var doc := Bom + rest;
    assert doc[0] == Bom[0];
    assert SkipWs(doc) == doc;
  }
}
