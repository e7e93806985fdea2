/** The parser inverts printing, and accepts nothing else. */
module GraphQLProofs {
  import opened Collections
  import opened GraphQL

  // ---------------------------------------------------------------- ignorable text

  predicate StartsToken(s: string) {
    s == "" || (!Blank(s[0]) && s[0] != '#')
  }

  predicate EndsName(s: string) {
    s == "" || !NameCont(s[0])
  }

  lemma {:induction false} AfterCommentTakes(text: string, x: string)
    requires '\n' !in text
    ensures AfterComment(text + ("\n" + x)) == "\n" + x
  {
    var s := text + ("\n" + x);
    if text == "" {
      assert s == "\n" + x;
    } else {
      assert s[1..] == text[1..] + ("\n" + x);
      assert s[0] == text[0] && text[0] in text;
      AfterCommentTakes(text[1..], x);
    }
  }

  lemma {:induction false} AfterCommentEnds(text: string)
    requires '\n' !in text
    ensures AfterComment(text) == ""
  {
    if text != "" {
      assert text[0] in text;
      AfterCommentEnds(text[1..]);
    }
  }

  lemma SkipPiece(p: Piece, x: string)
    requires ValidPiece(p)
    ensures SkipWs(PieceText(p) + x) == SkipWs(x)
  {
    var s := PieceText(p) + x;
    match p
    case Space(c) => assert s[1..] == x;
    case Comment(text) =>
      assert s[1..] == text + ("\n" + x);
      AfterCommentTakes(text, x);
      assert ("\n" + x)[1..] == x;
  }

  lemma {:induction false} SkipGap(g: Gap, x: string)
    requires ValidGap(g)
    ensures SkipWs(GapText(g) + x) == SkipWs(x)
  {
    if g == [] {
      assert GapText(g) + x == x;
    } else {
      assert GapText(g) + x == PieceText(g[0]) + (GapText(g[1..]) + x);
      SkipPiece(g[0], GapText(g[1..]) + x);
      SkipGap(g[1..], x);
    }
  }

  /** Skipping takes ignorable text and stops at a token. */
  lemma {:induction false} SkipWsStops(s: string)
    ensures StartsToken(SkipWs(s))
    decreases |s|
  {
    if s != "" {
      if Blank(s[0]) { SkipWsStops(s[1..]); } else if s[0] == '#' { SkipWsStops(AfterComment(s[1..])); }
    }
  }

  lemma SkipWsTwice(s: string)
    ensures SkipWs(SkipWs(s)) == SkipWs(s)
  {
    SkipWsStops(s);
  }

  lemma SkipLast(g: Gap, last: string)
    requires ValidGap(g) && ValidLast(last)
    ensures SkipWs(GapText(g) + last) == ""
  {
    SkipGap(g, last);
    if last != "" { AfterCommentEnds(last[1..]); }
  }

  /** A gap in front of a token does not continue a name. */
  lemma GapEndsName(g: Gap, x: string)
    requires ValidGap(g) && (g != [] || EndsName(x))
    ensures EndsName(GapText(g) + x)
  {
    if g == [] {
      assert GapText(g) + x == x;
    } else {
      assert (GapText(g) + x)[0] == PieceText(g[0])[0];
    }
  }

  // ---------------------------------------------------------------- names

  lemma {:induction false} NameLenTakes(name: string, x: string)
    requires (forall i | 0 <= i < |name| :: NameCont(name[i])) && EndsName(x)
    ensures NameLen(name + x) == |name|
  {
    if name == "" {
      assert name + x == x;
    } else {
      assert (name + x)[1..] == name[1..] + x;
      NameLenTakes(name[1..], x);
    }
  }

  lemma ReadNameTakes(n: PrintedName, rest: string)
    requires ValidName(n) && EndsName(rest)
    ensures ReadName(NameText(n, rest)) == Ok((n.name, rest))
    ensures SkipWs(NameText(n, rest)) == n.name + rest
  {
    SkipGap(n.gap, n.name + rest);
    var t := n.name + rest;
    assert t[0] == n.name[0];
    NameLenTakes(n.name, rest);
    assert t[..|n.name|] == n.name && t[|n.name|..] == rest;
  }

  lemma ReadNameSkips(s: string)
    ensures ReadName(SkipWs(s)) == ReadName(s)
  {
    SkipWsTwice(s);
  }

  // ---------------------------------------------------------------- printing, then parsing: columns

  lemma ParseColumnsSkips(s: string, field: string, columns: seq<string>)
    ensures ParseColumns(SkipWs(s), field, columns) == ParseColumns(s, field, columns)
  {
    SkipWsTwice(s);
  }

  lemma ColumnsEndName(cs: seq<PrintedName>, close: Gap, rest: string)
    requires ValidColumns(cs, true) && ValidGap(close)
    ensures EndsName(ColumnsText(cs, GapText(close) + ("}" + rest)))
  {
    if cs == [] {
      GapEndsName(close, "}" + rest);
    } else {
      GapEndsName(cs[0].gap, cs[0].name + ColumnsText(cs[1..], GapText(close) + ("}" + rest)));
    }
  }

  /** What stands in front of the rest of a column list is a name or the brace. */
  lemma ColumnsStart(cs: seq<PrintedName>, close: Gap, rest: string)
    requires ValidColumns(cs, true) && ValidGap(close)
    ensures var u := SkipWs(ColumnsText(cs, GapText(close) + ("}" + rest))); u != "" && (u[0] == '}' || NameStart(u[0]))
  {
    if cs == [] {
      SkipGap(close, "}" + rest);
    } else {
      ColumnsEndName(cs[1..], close, rest);
      ReadNameTakes(cs[0], ColumnsText(cs[1..], GapText(close) + ("}" + rest)));
    }
  }

  lemma ColumnTurn(s: string, field: string, done: seq<string>, column: string, rest: string)
    requires ReadName(s) == Ok((column, rest)) && column !in done && |done| < MaxColumnsPerField
    requires var u := SkipWs(rest); u != "" && (u[0] == '}' || NameStart(u[0]))
    ensures ParseColumns(s, field, done) == ParseColumns(rest, field, done + [column])
  {
    ReadNameSkips(s);
    ParseColumnsSkips(rest, field, done + [column]);
  }

  lemma {:induction false} ColumnsTake(cs: seq<PrintedName>, afterName: bool, close: Gap, rest: string,
                                       field: string, done: seq<string>)
    requires ValidColumns(cs, afterName) && ValidGap(close)
    requires Distinct(done + ColumnNames(cs)) && |done + ColumnNames(cs)| <= MaxColumnsPerField
    ensures ParseColumns(ColumnsText(cs, GapText(close) + ("}" + rest)), field, done) == Ok((done + ColumnNames(cs), rest))
    decreases cs
  {
    if cs == [] {
      SkipGap(close, "}" + rest);
      assert ("}" + rest)[1..] == rest && done + ColumnNames(cs) == done;
    } else {
      var more := ColumnsText(cs[1..], GapText(close) + ("}" + rest));
      var all := done + ColumnNames(cs);
      ColumnsEndName(cs[1..], close, rest);
      ReadNameTakes(cs[0], more);
      ColumnsStart(cs[1..], close, rest);
      assert all == (done + [cs[0].name]) + ColumnNames(cs[1..]);
      assert all[|done|] == cs[0].name && forall i | 0 <= i < |done| :: all[i] == done[i];
      ColumnTurn(NameText(cs[0], more), field, done, cs[0].name, more);
      ColumnsTake(cs[1..], true, close, rest, field, done + [cs[0].name]);
    }
  }

  // ---------------------------------------------------------------- printing, then parsing: fields

  lemma FieldTakes(f: PrintedField, rest: string)
    requires ValidPrintedField(f) && ValidField(FieldOf(f))
    ensures ReadName(FieldText(f, rest)).Ok?
    ensures var (name, after) := ReadName(FieldText(f, rest)).value;
      name == f.name.name && ParseField(name, after) == Ok((FieldOf(f), rest))
    ensures !At(SkipWs(FieldText(f, rest)), '}')
  {
    var body := ColumnsText(f.columns, GapText(f.close) + ("}" + rest));
    var after := GapText(f.open) + ("{" + body);
    GapEndsName(f.open, "{" + body);
    ReadNameTakes(f.name, after);
    SkipGap(f.open, "{" + body);
    assert ("{" + body)[1..] == body;
    assert [] + ColumnNames(f.columns) == ColumnNames(f.columns);
    ColumnsTake(f.columns, false, f.close, rest, f.name.name, []);
  }

  lemma RootTurn(s: string, roots: seq<Field>, field: Field, rest: string)
    requires !At(SkipWs(s), '}') && ReadName(s).Ok?
    requires ParseField(ReadName(s).value.0, ReadName(s).value.1) == Ok((field, rest))
    requires ValidRoots(roots + [field])
    ensures ParseRoots(s, roots) == ParseRoots(rest, roots + [field])
  {
    ReadNameSkips(s);
    var more := roots + [field];
    assert more[|roots|] == field && forall i | 0 <= i < |roots| :: more[i] == roots[i];
  }

  lemma {:induction false} ValidPrefix(roots: seq<Field>, more: seq<Field>)
    requires ValidRoots(roots + more)
    ensures ValidRoots(roots)
    decreases |more|
  {
    var all := roots + more;
    if more == [] {
      assert all == roots;
    } else {
      var init := more[..|more| - 1];
      assert all[..|all| - 1] == roots + init;
      assert forall i | 0 <= i < |roots + init| :: (roots + init)[i] == all[i];
      ValidPrefix(roots, init);
    }
  }

  lemma {:induction false} RootsTake(fs: seq<PrintedField>, close: Gap, rest: string, roots: seq<Field>)
    requires (forall i | 0 <= i < |fs| :: ValidPrintedField(fs[i])) && ValidGap(close)
    requires ValidRoots(roots + RootsOf(fs))
    ensures ParseRoots(FieldsText(fs, GapText(close) + ("}" + rest)), roots) == Ok((roots + RootsOf(fs), rest))
    decreases fs
  {
    if fs == [] {
      SkipGap(close, "}" + rest);
      assert ("}" + rest)[1..] == rest && roots + RootsOf(fs) == roots;
    } else {
      var more := FieldsText(fs[1..], GapText(close) + ("}" + rest));
      var next := roots + [FieldOf(fs[0])];
      assert roots + RootsOf(fs) == next + RootsOf(fs[1..]);
      ValidPrefix(next, RootsOf(fs[1..]));
      assert next[|roots|] == FieldOf(fs[0]);
      FieldTakes(fs[0], more);
      RootTurn(FieldText(fs[0], more), roots, FieldOf(fs[0]), more);
      RootsTake(fs[1..], close, rest, next);
    }
  }

  // ---------------------------------------------------------------- printing, then parsing: the document

  lemma NamedHeaderTakes(gap: Gap, op: PrintedName, sel: string, body: string)
    requires ValidGap(gap) && ValidName(op) && op.gap != [] && EndsName(sel) && SkipWs(sel) == "{" + body
    ensures var text := HeaderText(Named(gap, op), sel);
      SkipWs(text) != "" && ParseHeader(SkipWs(text)) == Ok("{" + body) && SkipWs("{" + body) == "{" + body
  {
    ReadNameSkips(HeaderText(Named(gap, op), sel));
    ReadNameTakes(op, sel);
    GapEndsName(op.gap, op.name + sel);
    ReadNameTakes(PrintedName(gap, "query"), NameText(op, sel));
  }

  lemma KeywordHeaderTakes(gap: Gap, sel: string, body: string)
    requires ValidGap(gap) && EndsName(sel) && SkipWs(sel) == "{" + body
    ensures var text := HeaderText(Keyword(gap), sel);
      SkipWs(text) != "" && ParseHeader(SkipWs(text)) == Ok(sel)
  {
    ReadNameSkips(HeaderText(Keyword(gap), sel));
    ReadNameTakes(PrintedName(gap, "query"), sel);
  }

  lemma HeaderTakes(h: Header, open: Gap, body: string)
    requires ValidHeader(h) && ValidGap(open)
    ensures var text := HeaderText(h, GapText(open) + ("{" + body));
      && SkipWs(text) != "" && ParseHeader(SkipWs(text)).Ok?
      && SkipWs(ParseHeader(SkipWs(text)).value) == "{" + body
  {
    var sel := GapText(open) + ("{" + body);
    SkipGap(open, "{" + body);
    GapEndsName(open, "{" + body);
    match h
    case Shorthand => SkipWsTwice(sel);
    case Keyword(gap) => KeywordHeaderTakes(gap, sel, body);
    case Named(gap, op) => NamedHeaderTakes(gap, op, sel, body);
  }

  /** Any document with valid roots, printed with any ignorable text between its tokens, parses back to itself. */
  lemma ParseInvertsPrinting(p: Printed)
    requires ValidPrinted(p) && p.fields != [] && ValidRoots(RootsOf(p.fields)) && |PrintedText(p)| <= 65536
    ensures Parse(PrintedText(p)) == Ok(RootsOf(p.fields))
  {
    var end := GapText(p.trail) + p.last;
    var body := FieldsText(p.fields, GapText(p.close) + ("}" + end));
    HeaderTakes(p.header, p.open, body);
    assert ("{" + body)[1..] == body;
    assert [] + RootsOf(p.fields) == RootsOf(p.fields);
    RootsTake(p.fields, p.close, end, []);
    SkipLast(p.trail, p.last);
  }

  // ---------------------------------------------------------------- parsing, then printing

  lemma {:induction false} AfterCommentIs(s: string) returns (text: string)
    ensures '\n' !in text && s == text + AfterComment(s) && (AfterComment(s) == "" || AfterComment(s)[0] == '\n')
  {
    if s != "" && s[0] != '\n' {
      var more := AfterCommentIs(s[1..]);
      text := [s[0]] + more;
      HeadTail(s);
      Assoc([s[0]], more, AfterComment(s));
    } else {
      text := "";
    }
  }

  lemma CommentIs(s: string, text: string, tail: string) returns (p: Piece)
    requires s == "#" + (text + ("\n" + tail)) && '\n' !in text
    ensures ValidPiece(p) && s == PieceText(p) + tail
  {
    p := Comment(text);
  }

  lemma GapTextMore(p: Piece, g: Gap, x: string)
    ensures GapText([p] + g) + x == PieceText(p) + (GapText(g) + x)
  {
    assert ([p] + g)[1..] == g;
  }

  /** What was skipped is a gap, ended by a cut-short comment only at the end of the text. */
  lemma {:induction false} SkipWsIs(s: string) returns (g: Gap, last: string)
    ensures ValidGap(g) && ValidLast(last) && s == GapText(g) + (last + SkipWs(s)) && (last != "" ==> SkipWs(s) == "")
    decreases |s|
  {
    g, last := [], "";
    if s != "" {
      assert s == [s[0]] + s[1..];
      if Blank(s[0]) {
        g, last := SkipWsIs(s[1..]);
        GapTextMore(Space(s[0]), g, last + SkipWs(s));
        g := [Space(s[0])] + g;
      } else if s[0] == '#' {
        var text := AfterCommentIs(s[1..]);
        var after := AfterComment(s[1..]);
        if after == "" {
          last := "#" + text;
        } else {
          assert after == "\n" + after[1..];
          var p := CommentIs(s, text, after[1..]);
          g, last := SkipWsIs(after[1..]);
          GapTextMore(p, g, last + SkipWs(s));
          g := [p] + g;
        }
      }
    }
  }

  lemma SkipToToken(s: string) returns (g: Gap)
    requires SkipWs(s) != ""
    ensures ValidGap(g) && s == GapText(g) + SkipWs(s)
  {
    var last;
    g, last := SkipWsIs(s);
  }

  lemma {:induction false} NameLenIs(s: string)
    ensures (forall i | 0 <= i < NameLen(s) :: NameCont(s[i])) && EndsName(s[NameLen(s)..])
  {
    if s != "" && NameCont(s[0]) { NameLenIs(s[1..]); }
  }

  lemma ReadNameIs(s: string) returns (n: PrintedName)
    requires ReadName(s).Ok?
    ensures var (name, rest) := ReadName(s).value;
      n.name == name && ValidName(n) && s == NameText(n, rest) && EndsName(rest) && (EndsName(s) ==> n.gap != [])
  {
    var t := SkipWs(s);
    var g := SkipToToken(s);
    NameLenIs(t);
    n := PrintedName(g, t[..NameLen(t)]);
    NameSplits(t);
  }

  lemma NameSplits(t: string)
    ensures t == t[..NameLen(t)] + t[NameLen(t)..]
  {
  }

  lemma ColumnTurnIs(s: string, field: string, done: seq<string>)
    requires ParseColumns(s, field, done).Ok? && !At(SkipWs(s), '}')
    ensures ReadName(s).Ok?
    ensures var (column, rest) := ReadName(s).value;
      && column !in done && |done| < MaxColumnsPerField
      && ParseColumns(s, field, done) == ParseColumns(rest, field, done + [column])
  {
    ReadNameSkips(s);
    var (column, rest) := ReadName(s).value;
    ParseColumnsSkips(rest, field, done + [column]);
  }

  lemma ColumnsCons(n: PrintedName, more: seq<PrintedName>, afterName: bool, tail: string)
    requires ValidName(n) && (afterName ==> n.gap != []) && ValidColumns(more, true)
    ensures ValidColumns([n] + more, afterName)
    ensures ColumnNames([n] + more) == [n.name] + ColumnNames(more)
    ensures ColumnsText([n] + more, tail) == NameText(n, ColumnsText(more, tail))
  {
    assert ([n] + more)[1..] == more;
  }

  lemma ColumnsEnd(s: string, field: string, done: seq<string>) returns (close: Gap, rest: string)
    requires At(SkipWs(s), '}')
    ensures ValidGap(close) && s == GapText(close) + ("}" + rest) && ParseColumns(s, field, done) == Ok((done, rest))
  {
    close := SkipToToken(s);
    rest := SkipWs(s)[1..];
    assert SkipWs(s) == "}" + rest;
  }

  lemma {:induction false} ColumnsAre(s: string, field: string, done: seq<string>, afterName: bool)
    returns (cs: seq<PrintedName>, close: Gap, columns: seq<string>, rest: string)
    requires ParseColumns(s, field, done).Ok? && (afterName ==> EndsName(s))
    requires Distinct(done) && |done| <= MaxColumnsPerField
    ensures ParseColumns(s, field, done) == Ok((columns, rest))
    ensures ValidColumns(cs, afterName) && ValidGap(close) && s == ColumnsText(cs, GapText(close) + ("}" + rest))
    ensures columns == done + ColumnNames(cs) && Distinct(columns) && |columns| <= MaxColumnsPerField
    decreases |s|
  {
    if At(SkipWs(s), '}') {
      close, rest := ColumnsEnd(s, field, done);
      cs, columns := [], done;
      assert done + ColumnNames(cs) == done;
    } else {
      ColumnTurnIs(s, field, done);
      var n := ReadNameIs(s);
      var after := ReadName(s).value.1;
      var more;
      more, close, columns, rest := ColumnsAre(after, field, done + [n.name], true);
      ColumnsCons(n, more, afterName, GapText(close) + ("}" + rest));
      cs := [n] + more;
      Assoc(done, [n.name], ColumnNames(more));
    }
  }

  lemma {:induction false} ColumnNamesAreNames(cs: seq<PrintedName>, afterName: bool)
    requires ValidColumns(cs, afterName)
    ensures forall i | 0 <= i < |ColumnNames(cs)| :: IsName(ColumnNames(cs)[i])
    decreases cs
  {
    if cs != [] { ColumnNamesAreNames(cs[1..], true); }
  }

  /** An accepted field: what its selection set was. */
  lemma ParseFieldIs(name: string, after: string)
    requires ParseField(name, after).Ok?
    ensures name != "__schema" && name != "__type" && At(SkipWs(after), '{') && SkipWs(after) == "{" + SkipWs(after)[1..]
    ensures var c := ParseColumns(SkipWs(after)[1..], name, []);
      c.Ok? && c.value.0 != [] && ParseField(name, after).value == (Field(name, c.value.0), c.value.1)
  {
  }

  lemma FieldIs(s: string) returns (f: PrintedField)
    requires ReadName(s).Ok? && ParseField(ReadName(s).value.0, ReadName(s).value.1).Ok?
    ensures var (field, rest) := ParseField(ReadName(s).value.0, ReadName(s).value.1).value;
      ValidPrintedField(f) && FieldOf(f) == field && ValidField(field) && s == FieldText(f, rest)
  {
    var n := ReadNameIs(s);
    var (name, after) := ReadName(s).value;
    ParseFieldIs(name, after);
    var open := SkipToToken(after);
    var cs, close, columns, rest := ColumnsAre(SkipWs(after)[1..], name, [], false);
    assert [] + ColumnNames(cs) == ColumnNames(cs);
    ColumnNamesAreNames(cs, false);
    f := PrintedField(n, open, cs, close);
  }

  lemma RootTurnIs(s: string, roots: seq<Field>)
    requires ParseRoots(s, roots).Ok? && !At(SkipWs(s), '}')
    ensures ReadName(s).Ok? && ParseField(ReadName(s).value.0, ReadName(s).value.1).Ok?
    ensures var (field, rest) := ParseField(ReadName(s).value.0, ReadName(s).value.1).value;
      && !HasRoot(roots, field.name) && |roots + [field]| <= MaxRootFields && TotalColumns(roots + [field]) <= MaxTotalFields
      && |rest| < |s| && ParseRoots(s, roots) == ParseRoots(rest, roots + [field])
  {
    ReadNameSkips(s);
  }

  lemma ValidExtend(roots: seq<Field>, field: Field)
    requires ValidRoots(roots) && ValidField(field) && !HasRoot(roots, field.name)
    requires |roots + [field]| <= MaxRootFields && TotalColumns(roots + [field]) <= MaxTotalFields
    ensures ValidRoots(roots + [field])
  {
  }

  lemma FieldsCons(f: PrintedField, more: seq<PrintedField>, tail: string)
    ensures RootsOf([f] + more) == [FieldOf(f)] + RootsOf(more)
    ensures FieldsText([f] + more, tail) == FieldText(f, FieldsText(more, tail))
  {
    assert ([f] + more)[1..] == more;
  }

  lemma RootsEnd(s: string, roots: seq<Field>) returns (close: Gap, rest: string)
    requires At(SkipWs(s), '}')
    ensures ValidGap(close) && s == GapText(close) + ("}" + rest) && ParseRoots(s, roots) == Ok((roots, rest))
  {
    close := SkipToToken(s);
    rest := SkipWs(s)[1..];
    assert SkipWs(s) == "}" + rest;
  }

  lemma {:induction false} RootsAre(s: string, roots: seq<Field>)
    returns (fs: seq<PrintedField>, close: Gap, all: seq<Field>, rest: string)
    requires ParseRoots(s, roots).Ok? && ValidRoots(roots)
    ensures ParseRoots(s, roots) == Ok((all, rest))
    ensures (forall i | 0 <= i < |fs| :: ValidPrintedField(fs[i])) && ValidGap(close)
    ensures s == FieldsText(fs, GapText(close) + ("}" + rest))
    ensures all == roots + RootsOf(fs) && ValidRoots(all)
    decreases |s|
  {
    if At(SkipWs(s), '}') {
      close, rest := RootsEnd(s, roots);
      fs, all := [], roots;
      assert roots + RootsOf(fs) == roots;
    } else {
      RootTurnIs(s, roots);
      var f := FieldIs(s);
      var after := ParseField(ReadName(s).value.0, ReadName(s).value.1).value.1;
      ValidExtend(roots, FieldOf(f));
      var more;
      more, close, all, rest := RootsAre(after, roots + [FieldOf(f)]);
      FieldsCons(f, more, GapText(close) + ("}" + rest));
      fs := [f] + more;
      Assoc(roots, [FieldOf(f)], RootsOf(more));
    }
  }

  lemma HeaderIs(s: string) returns (h: Header, open: Gap, body: string)
    requires SkipWs(s) != "" && ParseHeader(SkipWs(s)).Ok? && At(SkipWs(ParseHeader(SkipWs(s)).value), '{')
    ensures ValidHeader(h) && ValidGap(open) && s == HeaderText(h, GapText(open) + ("{" + body))
    ensures SkipWs(ParseHeader(SkipWs(s)).value) == "{" + body
  {
    ReadNameSkips(s);
    SkipWsTwice(s);
    var sel := ParseHeader(SkipWs(s)).value;
    body := SkipWs(sel)[1..];
    assert SkipWs(sel) == "{" + body;
    if ReadName(s).Err? {
      h := Shorthand;
      open := SkipToToken(s);
    } else {
      var first := ReadNameIs(s);
      var rest := ReadName(s).value.1;
      if ReadName(rest).Err? {
        h := Keyword(first.gap);
        open := SkipToToken(rest);
      } else {
        var op := ReadNameIs(rest);
        h := Named(first.gap, op);
        SkipWsTwice(ReadName(rest).value.1);
        open := SkipToToken(ReadName(rest).value.1);
      }
    }
  }

  /** Whatever is accepted is a printing of the roots it returns, and those obey all the rules. */
  lemma ParseAcceptsOnlyPrintings(doc: string) returns (p: Printed)
    requires Parse(doc).Ok?
    ensures ValidPrinted(p) && PrintedText(p) == doc && RootsOf(p.fields) == Parse(doc).value
    ensures p.fields != [] && ValidRoots(Parse(doc).value) && |doc| <= 65536
  {
    var h, open, body := HeaderIs(doc);
    assert ("{" + body)[1..] == body;
    var fs, close, all, rest := RootsAre(body, []);
    assert [] + RootsOf(fs) == RootsOf(fs);
    var trail, last := SkipWsIs(rest);
    assert last + "" == last;
    p := Printed(h, open, fs, close, trail, last);
  }

  /** Accepted exactly when printed from valid roots; the result does not depend on how. */
  lemma ParseIff(doc: string)
    ensures Parse(doc).Ok? <==>
      exists p :: ValidPrinted(p) && p.fields != [] && ValidRoots(RootsOf(p.fields)) && PrintedText(p) == doc && |doc| <= 65536
    ensures forall p | ValidPrinted(p) && p.fields != [] && ValidRoots(RootsOf(p.fields)) && PrintedText(p) == doc && |doc| <= 65536 ::
      Parse(doc) == Ok(RootsOf(p.fields))
  {
    forall p | ValidPrinted(p) && p.fields != [] && ValidRoots(RootsOf(p.fields)) && PrintedText(p) == doc && |doc| <= 65536
      ensures Parse(doc) == Ok(RootsOf(p.fields))
    {
      ParseInvertsPrinting(p);
    }
    if Parse(doc).Ok? {
      var p := ParseAcceptsOnlyPrintings(doc);
    }
  }

  /** What some refusals say: of a document that is too long, and of one without a token. */
  lemma RefusalsSay(doc: string)
    ensures |doc| > 65536 ==> Parse(doc) == Err("GraphQL document exceeds the 64 KiB limit")
    ensures |doc| <= 65536 && SkipWs(doc) == "" ==> Parse(doc) == Err("empty GraphQL document")
  {
  }

  lemma OperationsAreNames()
    ensures IsName("mutation") && IsName("subscription")
  {
  }

  lemma OperationHeader(s: string, operation: string, rest: string)
    requires ReadName(s) == Ok((operation, rest)) && (operation == "mutation" || operation == "subscription")
    ensures ParseHeader(s) == Err("mutations and subscriptions are not supported in GraphQL v0")
  {
    assert operation != "query";
  }

  /** Only queries are served, and the refusal says so. */
  lemma OtherOperationsRefused(gap: Gap, operation: string, rest: string)
    requires ValidGap(gap) && EndsName(rest) && (operation == "mutation" || operation == "subscription")
    requires |NameText(PrintedName(gap, operation), rest)| <= 65536
    ensures Parse(NameText(PrintedName(gap, operation), rest)) ==
      Err("mutations and subscriptions are not supported in GraphQL v0")
  {
    var text := NameText(PrintedName(gap, operation), rest);
    OperationsAreNames();
    ReadNameTakes(PrintedName(gap, operation), rest);
    ReadNameSkips(text);
    assert SkipWs(text) != "";
    OperationHeader(SkipWs(text), operation, rest);
  }
}
