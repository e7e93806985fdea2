/** Documents of the specification, and what the parser makes of them. */
module GraphQLSpecDocuments {
  import opened Collections
  import opened GraphQL
  import opened GraphQLProofs
  import opened GraphQLSpec

  // ---------------------------------------------------------------- ignorable text of the specification

  predicate InLine(text: string) {
    '\n' !in text && '\r' !in text
  }

  predicate SpecPiece(p: Piece) {
    match p
    case Space(c) => Blank(c)
    case Comment(text) => InLine(text)
    case ReturnComment(text) => InLine(text)
    case ByteOrderMark => true
  }

  predicate SpecGap(g: Gap) {
    forall i | 0 <= i < |g| :: SpecPiece(g[i])
  }

  /** A piece with a line feed, which is always its last character. */
  predicate Feeds(p: Piece) {
    p == Space('\n') || p.Comment?
  }

  predicate HasFeed(g: Gap) {
    g != [] && (Feeds(g[0]) || HasFeed(g[1..]))
  }

  /** The text before the first line feed, and the pieces after it. */
  function LineOf(g: Gap): string
    requires HasFeed(g)
  {
    match g[0]
    case Comment(text) => "#" + text
    case _ => if Feeds(g[0]) then "" else PieceText(g[0]) + LineOf(g[1..])
  }

  function AfterFeed(g: Gap): (r: Gap)
    requires HasFeed(g)
    ensures |r| < |g|
  {
    if Feeds(g[0]) then g[1..] else AfterFeed(g[1..])
  }

  /** Ignorable text that the parser ignores too: it reaches no byte order mark, and a line feed follows every comment
      that a carriage return ends. `last` when the document ends behind it. */
  predicate Harmless(g: Gap, last: bool)
    decreases |g|
  {
    g == [] ||
    match g[0]
    case Space(_) => Harmless(g[1..], last)
    case Comment(_) => Harmless(g[1..], last)
    case ReturnComment(_) => if HasFeed(g[1..]) then Harmless(AfterFeed(g[1..]), last) else last
    case ByteOrderMark => false
  }

  lemma GapSplits(g: Gap, x: string)
    requires g != []
    ensures GapText(g) + x == PieceText(g[0]) + (GapText(g[1..]) + x)
  {
    Assoc(PieceText(g[0]), GapText(g[1..]), x);
  }

  lemma SpecTail(g: Gap)
    requires g != [] && SpecGap(g)
    ensures SpecPiece(g[0]) && SpecGap(g[1..])
  {
    assert forall i | 0 < i < |g| :: g[i] == g[1..][i - 1];
  }

  lemma CommentEndsLine(text: string, rest: string)
    ensures ("#" + (text + "\n")) + rest == ("#" + text) + ("\n" + rest)
  {
    Assoc("#", text, "\n");
    Assoc("#" + text, "\n", rest);
  }

  lemma PieceInLine(p: Piece)
    requires SpecPiece(p) && !Feeds(p)
    ensures '\n' !in PieceText(p)
  {
    if p.ReturnComment? {
      assert forall c | c in "#" + (p.text + "\r") :: c == '#' || c in p.text || c == '\r';
    }
  }

  lemma {:induction false} LineOfText(g: Gap)
    requires SpecGap(g) && HasFeed(g)
    ensures GapText(g) == LineOf(g) + ("\n" + GapText(AfterFeed(g)))
    ensures '\n' !in LineOf(g) && SpecGap(AfterFeed(g))
  {
    SpecTail(g);
    var rest := GapText(g[1..]);
    if g[0].Comment? {
      CommentEndsLine(g[0].text, rest);
    } else if Feeds(g[0]) {
      assert "" + ("\n" + rest) == "\n" + rest;
    } else {
      LineOfText(g[1..]);
      PieceInLine(g[0]);
      Assoc(PieceText(g[0]), LineOf(g[1..]), "\n" + GapText(AfterFeed(g)));
    }
  }

  lemma {:induction false} NoFeedNoLineFeed(g: Gap)
    requires SpecGap(g) && !HasFeed(g)
    ensures '\n' !in GapText(g)
  {
    if g != [] {
      SpecTail(g);
      NoFeedNoLineFeed(g[1..]);
    }
  }

  // ---------------------------------------------------------------- a gap, read by both

  lemma {:induction false} SpecCommentTakes(text: string, x: string)
    requires InLine(text) && (x == "" || LineEnd(x[0]))
    ensures SpecAfterComment(text + x) == x
  {
    if text == "" {
      assert text + x == x;
    } else {
      assert text[0] in text && (text + x)[1..] == text[1..] + x;
      assert forall c | c in text[1..] :: c in text;
      SpecCommentTakes(text[1..], x);
    }
  }

  lemma CommentParts(text: string, end: string, x: string)
    ensures var s := ("#" + (text + end)) + x; s != "" && s[0] == '#' && s[1..] == text + (end + x)
  {
    Assoc("#", text + end, x);
    Assoc(text, end, x);
  }

  lemma SpecSkipComment(text: string, end: char, x: string)
    requires InLine(text) && LineEnd(end)
    ensures SpecSkip(("#" + (text + [end])) + x) == SpecSkip(x)
  {
    CommentParts(text, [end], x);
    SpecCommentTakes(text, [end] + x);
    assert ([end] + x)[0] == end && ([end] + x)[1..] == x;
  }

  lemma SpecSkipPiece(p: Piece, x: string)
    requires SpecPiece(p)
    ensures SpecSkip(PieceText(p) + x) == SpecSkip(x)
  {
    var s := PieceText(p) + x;
    match p
    case Space(c) => assert s[1..] == x;
    case Comment(text) => SpecSkipComment(text, '\n', x);
    case ReturnComment(text) => SpecSkipComment(text, '\r', x);
    case ByteOrderMark => assert s[..3] == Bom && s[3..] == x;
  }

  /** The specification's skip takes every gap. */
  lemma {:induction false} SpecSkipGap(g: Gap, x: string)
    requires SpecGap(g)
    ensures SpecSkip(GapText(g) + x) == SpecSkip(x)
  {
    if g == [] {
      assert GapText(g) + x == x;
    } else {
      SpecTail(g);
      GapSplits(g, x);
      SpecSkipPiece(g[0], GapText(g[1..]) + x);
      SpecSkipGap(g[1..], x);
    }
  }

  lemma {:induction false} AfterCommentThrough(u: string, x: string)
    requires '\n' !in u
    ensures AfterComment(u + x) == AfterComment(x)
  {
    if u == "" {
      assert u + x == x;
    } else {
      assert u[0] in u && (u + x)[1..] == u[1..] + x;
      assert forall c | c in u[1..] :: c in u;
      AfterCommentThrough(u[1..], x);
    }
  }

  lemma ReturnCommentTail(text: string, x: string)
    ensures (PieceText(ReturnComment(text)) + x)[0] == '#'
    ensures (PieceText(ReturnComment(text)) + x)[1..] == (text + "\r") + x
  {
  }

  lemma FeedTail(g: Gap, x: string)
    requires SpecGap(g) && HasFeed(g)
    ensures GapText(g) + x == LineOf(g) + ("\n" + (GapText(AfterFeed(g)) + x))
  {
    LineOfText(g);
    var rest := GapText(AfterFeed(g));
    Assoc(LineOf(g), "\n" + rest, x);
    Assoc("\n", rest, x);
  }

  lemma SkipFeed(rest: string)
    ensures SkipWs(AfterComment("\n" + rest)) == SkipWs(rest)
  {
    assert ("\n" + rest)[1..] == rest;
  }

  /** A comment that a carriage return ends goes on to the first line feed. */
  lemma ReturnCommentSkips(text: string, g: Gap, x: string)
    requires InLine(text) && SpecGap(g)
    ensures SkipWs(PieceText(ReturnComment(text)) + (GapText(g) + x)) ==
      if HasFeed(g) then SkipWs(GapText(AfterFeed(g)) + x) else SkipWs(AfterComment(x))
  {
    var tail := GapText(g) + x;
    ReturnCommentTail(text, tail);
    AfterCommentThrough(text + "\r", tail);
    if HasFeed(g) {
      LineOfText(g);
      FeedTail(g, x);
      AfterCommentThrough(LineOf(g), "\n" + (GapText(AfterFeed(g)) + x));
      SkipFeed(GapText(AfterFeed(g)) + x);
    } else {
      NoFeedNoLineFeed(g);
      AfterCommentThrough(GapText(g), x);
    }
  }

  /** In front of a token, the parser ignores a gap exactly when it is harmless. */
  lemma {:induction false} HarmlessIff(g: Gap, x: string)
    requires SpecGap(g) && x != "" && StartsToken(x)
    ensures SkipWs(GapText(g) + x) == x <==> Harmless(g, false)
    decreases |g|
  {
    var s := GapText(g) + x;
    if g == [] {
      assert s == x;
    } else {
      SpecTail(g);
      GapSplits(g, x);
      match g[0]
      case Space(_) => SkipPiece(g[0], GapText(g[1..]) + x); HarmlessIff(g[1..], x);
      case Comment(_) => SkipPiece(g[0], GapText(g[1..]) + x); HarmlessIff(g[1..], x);
      case ReturnComment(text) =>
        ReturnCommentSkips(text, g[1..], x);
        if HasFeed(g[1..]) {
          LineOfText(g[1..]);
          HarmlessIff(AfterFeed(g[1..]), x);
        }
      case ByteOrderMark =>
        assert |s| > |x| && s[0] == Bom[0];
    }
  }

  predicate SpecLast(last: string) {
    last == "" || (last[0] == '#' && InLine(last))
  }

  lemma LastSkips(last: string)
    requires SpecLast(last)
    ensures SkipWs(last) == "" && SpecSkip(last) == "" && AfterComment(last) == ""
  {
    AfterCommentEnds(last);
    if last != "" {
      assert forall c | c in last[1..] :: c in last;
      AfterCommentEnds(last[1..]);
      SpecCommentTakes(last[1..], "");
      assert last[1..] + "" == last[1..];
    }
  }

  /** At the end of a document likewise. */
  lemma {:induction false} HarmlessTrailIff(g: Gap, last: string)
    requires SpecGap(g) && SpecLast(last)
    ensures SkipWs(GapText(g) + last) == "" <==> Harmless(g, true)
    decreases |g|
  {
    LastSkips(last);
    if g == [] {
      assert GapText(g) + last == last;
    } else {
      SpecTail(g);
      GapSplits(g, last);
      match g[0]
      case Space(_) => SkipPiece(g[0], GapText(g[1..]) + last); HarmlessTrailIff(g[1..], last);
      case Comment(_) => SkipPiece(g[0], GapText(g[1..]) + last); HarmlessTrailIff(g[1..], last);
      case ReturnComment(text) =>
        ReturnCommentSkips(text, g[1..], last);
        if HasFeed(g[1..]) {
          LineOfText(g[1..]);
          HarmlessTrailIff(AfterFeed(g[1..]), last);
        }
      case ByteOrderMark =>
        assert (GapText(g) + last)[0] == Bom[0];
    }
  }

  /** So a gap is harmless exactly when parser and specification skip alike there. */
  lemma HarmlessIsAlike(g: Gap, x: string)
    requires SpecGap(g) && x != "" && StartsToken(x) && !AtBom(x)
    ensures Harmless(g, false) <==> SkipsAlike(GapText(g) + x)
  {
    HarmlessIff(g, x);
    SpecSkipGap(g, x);
    SkipsAlikeIff(GapText(g) + x);
  }

  // ---------------------------------------------------------------- documents of the specification

  predicate SpecName(n: PrintedName) {
    SpecGap(n.gap) && IsName(n.name)
  }

  predicate SpecColumns(cs: seq<PrintedName>, afterName: bool) {
    cs == [] || (SpecName(cs[0]) && (afterName ==> cs[0].gap != []) && SpecColumns(cs[1..], true))
  }

  predicate SpecField(f: PrintedField) {
    SpecName(f.name) && SpecGap(f.open) && SpecColumns(f.columns, false) && SpecGap(f.close)
  }

  predicate SpecHeader(h: Header) {
    match h
    case Shorthand => true
    case Keyword(gap) => SpecGap(gap)
    case Named(gap, op) => SpecGap(gap) && SpecName(op) && op.gap != []
  }

  /** A document as the specification prints it. */
  predicate SpecPrinted(p: Printed) {
    && SpecHeader(p.header) && SpecGap(p.open) && SpecGap(p.close) && SpecGap(p.trail) && SpecLast(p.last)
    && p.fields != [] && (forall i | 0 <= i < |p.fields| :: SpecField(p.fields[i]))
    && ValidRoots(RootsOf(p.fields)) && |PrintedText(p)| <= 65536
  }

  // ---------------------------------------------------------------- no gap does harm

  predicate HarmlessColumns(cs: seq<PrintedName>) {
    forall i | 0 <= i < |cs| :: Harmless(cs[i].gap, false)
  }

  predicate HarmlessField(f: PrintedField) {
    Harmless(f.name.gap, false) && Harmless(f.open, false) && HarmlessColumns(f.columns) && Harmless(f.close, false)
  }

  predicate HarmlessHeader(h: Header) {
    match h
    case Shorthand => true
    case Keyword(gap) => Harmless(gap, false)
    case Named(gap, op) => Harmless(gap, false) && Harmless(op.gap, false)
  }

  /** No comment ended by a carriage return has a token behind it on the same line, as line feeds count lines, and no
      byte order mark stands outside such comments. */
  predicate HarmlessDocument(p: Printed) {
    && HarmlessHeader(p.header) && Harmless(p.open, false) && Harmless(p.close, false) && Harmless(p.trail, true)
    && forall i | 0 <= i < |p.fields| :: HarmlessField(p.fields[i])
  }

  // ---------------------------------------------------------------- the same text, as the parser reads it

  lemma RegroupLine(text: string, line: string, rest: string)
    ensures PieceText(ReturnComment(text)) + (line + ("\n" + rest)) == PieceText(Comment(text + ("\r" + line))) + rest
  {
    Assoc("#", text + "\r", line + ("\n" + rest));
    Assoc(text, "\r", line + ("\n" + rest));
    Assoc("#", (text + ("\r" + line)) + "\n", rest);
    Assoc(text + ("\r" + line), "\n", rest);
    Assoc(text, "\r" + line, "\n" + rest);
    Assoc("\r", line, "\n" + rest);
  }

  /** A comment that a carriage return ends, with what follows up to the line feed, is one comment to the parser. */
  lemma ReadComment(g: Gap, x: string) returns (p: Piece)
    requires g != [] && SpecGap(g) && g[0].ReturnComment? && HasFeed(g[1..])
    ensures SpecGap(AfterFeed(g[1..])) && ValidPiece(p)
    ensures GapText(g) + x == PieceText(p) + (GapText(AfterFeed(g[1..])) + x)
  {
    SpecTail(g);
    LineOfText(g[1..]);
    p := Comment(g[0].text + ("\r" + LineOf(g[1..])));
    GapSplits(g, x);
    FeedTail(g[1..], x);
    RegroupLine(g[0].text, LineOf(g[1..]), GapText(AfterFeed(g[1..])) + x);
  }

  lemma {:induction false} ReadGap(g: Gap) returns (h: Gap)
    requires SpecGap(g) && Harmless(g, false)
    ensures ValidGap(h) && GapText(h) == GapText(g) && (g != [] ==> h != [])
  {
    var end;
    h, end := ReadTrail(g, "", false);
    assert GapText(h) + "" == GapText(h) && GapText(g) + "" == GapText(g);
  }

  /** Behind the document a comment may be cut short by its end. */
  lemma {:induction false} ReadTrail(g: Gap, last: string, atEnd: bool) returns (h: Gap, end: string)
    requires SpecGap(g) && Harmless(g, atEnd) && SpecLast(last)
    ensures ValidGap(h) && ValidLast(end) && GapText(h) + end == GapText(g) + last
    ensures !atEnd ==> end == last && (g != [] ==> h != [])
    decreases |g|
  {
    if g == [] {
      h, end := [], last;
    } else if g[0].ReturnComment? && !HasFeed(g[1..]) {
      SpecTail(g);
      NoFeedNoLineFeed(g[1..]);
      h, end := [], GapText(g) + last;
      ReturnCommentTail(g[0].text, GapText(g[1..]));
      assert GapText([]) + end == end;
    } else {
      SpecTail(g);
      var p, rest := g[0], g[1..];
      if g[0].ReturnComment? {
        p := ReadComment(g, last);
        rest := AfterFeed(g[1..]);
      } else {
        GapSplits(g, last);
      }
      var more;
      more, end := ReadTrail(rest, last, atEnd);
      h := [p] + more;
      GapSplits(h, end);
      assert h[1..] == more;
    }
  }

  lemma ReadPrintedName(n: PrintedName) returns (m: PrintedName)
    requires SpecName(n) && Harmless(n.gap, false)
    ensures ValidName(m) && m.name == n.name && (n.gap != [] ==> m.gap != []) && GapText(m.gap) == GapText(n.gap)
  {
    var h := ReadGap(n.gap);
    m := PrintedName(h, n.name);
  }

  lemma {:induction false} ReadColumns(cs: seq<PrintedName>, afterName: bool, rest: string) returns (ds: seq<PrintedName>)
    requires SpecColumns(cs, afterName) && HarmlessColumns(cs)
    ensures ValidColumns(ds, afterName) && ColumnsText(ds, rest) == ColumnsText(cs, rest) && ColumnNames(ds) == ColumnNames(cs)
    decreases cs
  {
    ds := [];
    if cs != [] {
      var m := ReadPrintedName(cs[0]);
      assert forall i | 0 < i < |cs| :: cs[i] == cs[1..][i - 1];
      var more := ReadColumns(cs[1..], true, rest);
      ds := [m] + more;
    }
  }

  lemma ReadField(f: PrintedField, rest: string) returns (d: PrintedField)
    requires SpecField(f) && HarmlessField(f)
    ensures ValidPrintedField(d) && FieldText(d, rest) == FieldText(f, rest) && FieldOf(d) == FieldOf(f)
  {
    var name := ReadPrintedName(f.name);
    var open_ := ReadGap(f.open);
    var close := ReadGap(f.close);
    var columns := ReadColumns(f.columns, false, GapText(f.close) + ("}" + rest));
    d := PrintedField(name, open_, columns, close);
  }

  lemma {:induction false} ReadFields(fs: seq<PrintedField>, rest: string) returns (ds: seq<PrintedField>)
    requires forall i | 0 <= i < |fs| :: SpecField(fs[i]) && HarmlessField(fs[i])
    ensures (forall i | 0 <= i < |ds| :: ValidPrintedField(ds[i])) && |ds| == |fs|
    ensures FieldsText(ds, rest) == FieldsText(fs, rest) && RootsOf(ds) == RootsOf(fs)
    decreases fs
  {
    ds := [];
    if fs != [] {
      var more := ReadFields(fs[1..], rest);
      var d := ReadField(fs[0], FieldsText(fs[1..], rest));
      ds := [d] + more;
    }
  }

  /** The names in front of the selection set. */
  function HeaderSize(h: Header): nat {
    match h
    case Shorthand => 0
    case Keyword(_) => 1
    case Named(_, _) => 2
  }

  lemma ReadHeader(h: Header, rest: string) returns (d: Header)
    requires SpecHeader(h) && HarmlessHeader(h)
    ensures ValidHeader(d) && HeaderText(d, rest) == HeaderText(h, rest) && HeaderSize(d) == HeaderSize(h)
  {
    match h
    case Shorthand => d := Shorthand;
    case Keyword(gap) =>
      var g := ReadGap(gap);
      d := Keyword(g);
    case Named(gap, op) =>
      var g := ReadGap(gap);
      var m := ReadPrintedName(op);
      d := Named(g, m);
  }

  /** A document of the specification none of whose gaps does harm is one of the parser's. */
  lemma ReadDocument(p: Printed) returns (d: Printed)
    requires SpecPrinted(p) && HarmlessDocument(p)
    ensures ValidPrinted(d) && PrintedText(d) == PrintedText(p) && RootsOf(d.fields) == RootsOf(p.fields)
    ensures d.fields != [] && HeaderSize(d.header) == HeaderSize(p.header)
  {
    var end := GapText(p.trail) + p.last;
    var body := FieldsText(p.fields, GapText(p.close) + ("}" + end));
    var header := ReadHeader(p.header, GapText(p.open) + ("{" + body));
    var open_ := ReadGap(p.open);
    var close := ReadGap(p.close);
    var trail, last := ReadTrail(p.trail, p.last, true);
    var fields := ReadFields(p.fields, GapText(p.close) + ("}" + end));
    d := Printed(header, open_, fields, close, trail, last);
  }

  /** So it parses to its roots. */
  lemma HarmlessDocumentParses(p: Printed)
    requires SpecPrinted(p) && HarmlessDocument(p)
    ensures Parse(PrintedText(p)) == Ok(RootsOf(p.fields))
  {
    var d := ReadDocument(p);
    ParseInvertsPrinting(d);
  }
}
