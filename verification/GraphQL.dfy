/** The thin GraphQL parser: `[query [Name]] { field { column+ }+ }`, with ignorable text between tokens. */
module GraphQL {

  const MaxDocumentBytes := 64 * 1024
  const MaxRootFields := 16
  const MaxColumnsPerField := 64
  const MaxTotalFields := 128

  datatype Field = Field(name: string, columns: seq<string>)

  datatype Result<+T> = Ok(value: T) | Err(message: string)

  // ---------------------------------------------------------------- names

  predicate NameStart(c: char) {
    'A' <= c <= 'Z' || 'a' <= c <= 'z' || c == '_'
  }

  predicate NameCont(c: char) {
    NameStart(c) || '0' <= c <= '9'
  }

  predicate IsName(s: string) {
    s != "" && NameStart(s[0]) && forall i | 0 <= i < |s| :: NameCont(s[i])
  }

  // ---------------------------------------------------------------- the documents that are meant

  predicate Distinct(names: seq<string>) {
    forall i, k | 0 <= i < k < |names| :: names[i] != names[k]
  }

  predicate ValidField(f: Field) {
    && IsName(f.name) && f.name != "__schema" && f.name != "__type"
    && 0 < |f.columns| <= 64 && Distinct(f.columns)
    && forall i | 0 <= i < |f.columns| :: IsName(f.columns[i])
  }

  predicate DistinctRoots(roots: seq<Field>) {
    forall i, k | 0 <= i < k < |roots| :: roots[i].name != roots[k].name
  }

  function TotalColumns(roots: seq<Field>): nat {
    if roots == [] then 0 else TotalColumns(roots[..|roots| - 1]) + |roots[|roots| - 1].columns|
  }

  predicate ValidRoots(roots: seq<Field>) {
    && |roots| <= 16 && DistinctRoots(roots) && TotalColumns(roots) <= 128
    && forall i | 0 <= i < |roots| :: ValidField(roots[i])
  }

  // ---------------------------------------------------------------- ignorable text

  predicate Blank(c: char) {
    c == ' ' || c == '\t' || c == '\n' || c == '\r' || c == ','
  }

  /** The byte order mark in UTF-8; characters stand for bytes. */
  const Bom: string := "\U{EF}\U{BB}\U{BF}"

  /** A blank, a comma, a comment with the line feed or the carriage return that ends it, or a byte order mark. */
  datatype Piece = Space(c: char) | Comment(text: string) | ReturnComment(text: string) | ByteOrderMark

  /** What the parser ignores: only a line feed ends a comment, and a byte order mark is not skipped. */
  predicate ValidPiece(p: Piece) {
    match p
    case Space(c) => Blank(c)
    case Comment(text) => '\n' !in text
    case _ => false
  }

  function PieceText(p: Piece): string {
    match p
    case Space(c) => [c]
    case Comment(text) => "#" + (text + "\n")
    case ReturnComment(text) => "#" + (text + "\r")
    case ByteOrderMark => Bom
  }

  type Gap = seq<Piece>

  predicate ValidGap(g: Gap) {
    forall i | 0 <= i < |g| :: ValidPiece(g[i])
  }

  function GapText(g: Gap): string {
    if g == [] then "" else PieceText(g[0]) + GapText(g[1..])
  }

  /** The classes by their codes: letters, digits and the underscore in names; space, tab, line feed, carriage return and
      comma between tokens. */
  lemma CharacterCodes(c: char)
    ensures NameStart(c) <==> 0x41 <= c as int <= 0x5A || 0x61 <= c as int <= 0x7A || c as int == 0x5F
    ensures NameCont(c) <==> NameStart(c) || 0x30 <= c as int <= 0x39
    ensures Blank(c) <==> c as int == 0x20 || c as int == 0x09 || c as int == 0x0A || c as int == 0x0D || c as int == 0x2C
  {
  }

  /** The total that is limited is that of the columns of all roots. */
  lemma TotalColumnsAre(roots: seq<Field>, f: Field)
    ensures TotalColumns([]) == 0 && TotalColumns(roots + [f]) == TotalColumns(roots) + |f.columns|
  {
    assert (roots + [f])[..|roots|] == roots;
  }

  // ---------------------------------------------------------------- printed documents

  datatype PrintedName = PrintedName(gap: Gap, name: string)

  /** A root field with the ignorable text before its name, its opening and its closing brace. */
  datatype PrintedField = PrintedField(name: PrintedName, open: Gap, columns: seq<PrintedName>, close: Gap)

  datatype Header = Shorthand | Keyword(gap: Gap) | Named(gap: Gap, operation: PrintedName)

  /** `last` is a comment that the end of the document cuts short. */
  datatype Printed = Printed(header: Header, open: Gap, fields: seq<PrintedField>, close: Gap, trail: Gap, last: string)

  predicate ValidName(n: PrintedName) {
    ValidGap(n.gap) && IsName(n.name)
  }

  /** Two names need something between them. */
  predicate ValidColumns(cs: seq<PrintedName>, afterName: bool) {
    cs == [] || (ValidName(cs[0]) && (afterName ==> cs[0].gap != []) && ValidColumns(cs[1..], true))
  }

  predicate ValidPrintedField(f: PrintedField) {
    ValidName(f.name) && ValidGap(f.open) && ValidColumns(f.columns, false) && ValidGap(f.close)
  }

  predicate ValidHeader(h: Header) {
    match h
    case Shorthand => true
    case Keyword(gap) => ValidGap(gap)
    case Named(gap, op) => ValidGap(gap) && ValidName(op) && op.gap != []
  }

  predicate ValidLast(last: string) {
    last == "" || (last[0] == '#' && '\n' !in last)
  }

  predicate ValidPrinted(p: Printed) {
    && ValidHeader(p.header) && ValidGap(p.open) && ValidGap(p.close) && ValidGap(p.trail) && ValidLast(p.last)
    && forall i | 0 <= i < |p.fields| :: ValidPrintedField(p.fields[i])
  }

  function NameText(n: PrintedName, rest: string): string {
    GapText(n.gap) + (n.name + rest)
  }

  function ColumnsText(cs: seq<PrintedName>, rest: string): string {
    if cs == [] then rest else NameText(cs[0], ColumnsText(cs[1..], rest))
  }

  function FieldText(f: PrintedField, rest: string): string {
    NameText(f.name, GapText(f.open) + ("{" + ColumnsText(f.columns, GapText(f.close) + ("}" + rest))))
  }

  function FieldsText(fs: seq<PrintedField>, rest: string): string {
    if fs == [] then rest else FieldText(fs[0], FieldsText(fs[1..], rest))
  }

  function HeaderText(h: Header, rest: string): string {
    match h
    case Shorthand => rest
    case Keyword(gap) => NameText(PrintedName(gap, "query"), rest)
    case Named(gap, op) => NameText(PrintedName(gap, "query"), NameText(op, rest))
  }

  function PrintedText(p: Printed): string {
    HeaderText(p.header, GapText(p.open) + ("{" + FieldsText(p.fields, GapText(p.close) + ("}" + (GapText(p.trail) + p.last)))))
  }

  function ColumnNames(cs: seq<PrintedName>): seq<string> {
    if cs == [] then [] else [cs[0].name] + ColumnNames(cs[1..])
  }

  function FieldOf(f: PrintedField): Field {
    Field(f.name.name, ColumnNames(f.columns))
  }

  function RootsOf(fs: seq<PrintedField>): seq<Field> {
    if fs == [] then [] else [FieldOf(fs[0])] + RootsOf(fs[1..])
  }

  // ---------------------------------------------------------------- the parser

  /** From a `#` up to the newline, which is left to be skipped as a blank. */
  function AfterComment(s: string): (r: string)
    ensures |r| <= |s|
  {
    if s != "" && s[0] != '\n' then AfterComment(s[1..]) else s
  }

  function SkipWs(s: string): (r: string)
    ensures |r| <= |s|
    decreases |s|
  {
    if s == "" then s
    else if Blank(s[0]) then SkipWs(s[1..])
    else if s[0] == '#' then SkipWs(AfterComment(s[1..]))
    else s
  }

  function NameLen(s: string): (n: nat)
    ensures n <= |s|
  {
    if s != "" && NameCont(s[0]) then 1 + NameLen(s[1..]) else 0
  }

  /** The name after any ignorable text, and what follows it. */
  function ReadName(s: string): (r: Result<(string, string)>)
    ensures r.Ok? ==> |r.value.1| < |s|
  {
    var t := SkipWs(s);
    if t == "" || !NameStart(t[0]) then Err("") else Ok((t[..NameLen(t)], t[NameLen(t)..]))
  }

  predicate At(s: string, c: char) {
    s != "" && s[0] == c
  }

  /** The columns up to and including the closing brace. */
  function ParseColumns(s: string, field: string, columns: seq<string>): (r: Result<(seq<string>, string)>)
    ensures r.Ok? ==> |r.value.1| < |s|
    decreases |s|
  {
    var t := SkipWs(s);
    if At(t, '}') then Ok((columns, t[1..]))
    else
      var n := ReadName(t);
      if n.Err? then Err("expected column name inside " + field)
      else
        var (column, rest) := n.value;
        var u := SkipWs(rest);
        if At(u, '{') then Err("nested selections are not supported in GraphQL v0")
        else if At(u, '(') then Err("field arguments are not supported in GraphQL v0")
        else if column in columns then Err("duplicate column '" + column + "' in " + field)
        else if |columns| + 1 > MaxColumnsPerField then Err("selection for " + field + " exceeds the column limit")
        else ParseColumns(u, field, columns + [column])
  }

  predicate HasRoot(roots: seq<Field>, name: string) {
    exists i | 0 <= i < |roots| :: roots[i].name == name
  }

  /** One root field after its name has been read. */
  function ParseField(name: string, s: string): (r: Result<(Field, string)>)
    ensures r.Ok? ==> |r.value.1| < |s|
  {
    if name == "__schema" || name == "__type" then
      Err("introspection fields are not supported in v0; use GET /graphql/schema")
    else
      var t := SkipWs(s);
      if !At(t, '{') then Err("v0 requires a column selection set: { " + name + " { col1 col2 } }")
      else
        var c := ParseColumns(t[1..], name, []);
        if c.Err? then Err(c.message)
        else if c.value.0 == [] then Err("selection set for " + name + " must list at least one column")
        else Ok((Field(name, c.value.0), c.value.1))
  }

  /** The root fields up to and including the closing brace. */
  function ParseRoots(s: string, roots: seq<Field>): (r: Result<(seq<Field>, string)>)
    decreases |s|
  {
    var t := SkipWs(s);
    if At(t, '}') then Ok((roots, t[1..]))
    else
      var n := ReadName(t);
      if n.Err? then Err("expected field name in root selection set")
      else
        var f := ParseField(n.value.0, n.value.1);
        if f.Err? then Err(f.message)
        else
          var (field, rest) := f.value;
          var more := roots + [field];
          if HasRoot(roots, field.name) then Err("duplicate root field '" + field.name + "' is not supported in GraphQL v0")
          else if |more| > MaxRootFields then Err("GraphQL document exceeds the root-field limit")
          else if TotalColumns(more) > MaxTotalFields then Err("GraphQL document exceeds the total-field limit")
          else ParseRoots(rest, more)
  }

  /** The optional operation: what is left in front of the selection set. */
  function ParseHeader(s: string): Result<string> {
    var first := ReadName(s);
    if first.Err? then Ok(s)
    else if first.value.0 == "query" then
      var rest := first.value.1;
      var op := ReadName(rest);
      if op.Err? then Ok(rest)
      else if At(SkipWs(op.value.1), '{') then Ok(SkipWs(op.value.1))
      else Err("expected selection set '{' after query")
    else if first.value.0 == "mutation" || first.value.0 == "subscription" then
      Err("mutations and subscriptions are not supported in GraphQL v0")
    else Ok(s)
  }

  function Parse(doc: string): Result<seq<Field>> {
    if |doc| > MaxDocumentBytes then Err("GraphQL document exceeds the 64 KiB limit")
    else if SkipWs(doc) == "" then Err("empty GraphQL document")
    else
      var h := ParseHeader(SkipWs(doc));
      if h.Err? then Err(h.message)
      else
        var t := SkipWs(h.value);
        if !At(t, '{') then Err("expected selection set '{'")
        else
          var r := ParseRoots(t[1..], []);
          if r.Err? then Err(r.message)
          else if SkipWs(r.value.1) != "" then Err("unexpected trailing content after selection set")
          else if r.value.0 == [] then Err("selection set is empty")
          else Ok(r.value.0)
  }
}
