/** The CSV form of a result, and a reader for RFC 4180 that gives the cells back. */
module Csv {
  import opened Collections

  // ---------------------------------------------------------------- writing

  predicate Special(c: char) {
    c == '"' || c == ',' || c == '\n' || c == '\r'
  }

  predicate NeedsQuote(cell: string) {
    exists i | 0 <= i < |cell| :: Special(cell[i])
  }

  function Doubled(cell: string): string {
    if cell == "" then "" else (if cell[0] == '"' then "\"\"" else [cell[0]]) + Doubled(cell[1..])
  }

  function FieldText(cell: string): string {
    if NeedsQuote(cell) then "\"" + (Doubled(cell) + "\"") else cell
  }

  /** The cells of one line, with a comma in front of all but the first. */
  function CellsText(cells: seq<string>): string {
    if cells == [] then ""
    else if |cells| == 1 then FieldText(cells[0])
    else FieldText(cells[0]) + ("," + CellsText(cells[1..]))
  }

  function Text(records: seq<seq<string>>): string {
    if records == [] then "" else CellsText(records[0]) + ("\n" + Text(records[1..]))
  }

  // ---------------------------------------------------------------- reading (RFC 4180, section 2, with bare line feeds)

  /** The rest of a quoted field, and what follows its closing quote. */
  function ReadQuoted(s: string): (r: Option<(string, string)>)
    ensures r.Some? ==> |r.value.1| < |s|
    decreases |s|
  {
    if s == "" then None
    else if s[0] != '"' then
      (match ReadQuoted(s[1..])
       case Some((cell, rest)) => Some(([s[0]] + cell, rest))
       case None => None)
    else if |s| > 1 && s[1] == '"' then
      (match ReadQuoted(s[2..])
       case Some((cell, rest)) => Some((['"'] + cell, rest))
       case None => None)
    else Some(("", s[1..]))
  }

  function PlainLen(s: string): (n: nat)
    ensures n <= |s|
  {
    if s == "" || Special(s[0]) then 0 else 1 + PlainLen(s[1..])
  }

  function ReadField(s: string): (r: Option<(string, string)>)
    ensures r.Some? ==> |r.value.1| <= |s|
  {
    if s != "" && s[0] == '"' then ReadQuoted(s[1..]) else Some((s[..PlainLen(s)], s[PlainLen(s)..]))
  }

  /** One record, up to and including its line feed. */
  function ReadRecord(s: string): (r: Option<(seq<string>, string)>)
    ensures r.Some? ==> |r.value.1| < |s|
    decreases |s|
  {
    match ReadField(s)
    case None => None
    case Some((cell, rest)) =>
      if rest == "" then None
      else if rest[0] == '\n' then Some(([cell], rest[1..]))
      else if rest[0] == ',' then
        (match ReadRecord(rest[1..])
         case Some((cells, more)) => Some(([cell] + cells, more))
         case None => None)
      else None
  }

  function Read(s: string): Option<seq<seq<string>>>
    decreases |s|
  {
    if s == "" then Some([])
    else match ReadRecord(s)
      case None => None
      case Some((record, rest)) =>
        match Read(rest)
        case Some(records) => Some([record] + records)
        case None => None
  }

  // ---------------------------------------------------------------- the round trip

  predicate EndsField(x: string) {
    x != "" && (x[0] == ',' || x[0] == '\n')
  }

  lemma {:induction false} QuotedBack(cell: string, x: string)
    requires EndsField(x)
    ensures ReadQuoted(Doubled(cell) + ("\"" + x)) == Some((cell, x))
  {
    var s := Doubled(cell) + ("\"" + x);
    if cell == "" {
      assert s == "\"" + x;
      assert s[1..] == x;
    } else {
      var more := Doubled(cell[1..]) + ("\"" + x);
      QuotedBack(cell[1..], x);
      HeadTail(cell);
      if cell[0] == '"' {
        assert s == "\"\"" + more;
        assert s[0] == '"' && s[1] == '"' && s[2..] == more;
      } else {
        assert s == [cell[0]] + more;
        assert s[1..] == more;
      }
    }
  }

  lemma {:induction false} PlainBack(cell: string, x: string)
    requires !NeedsQuote(cell) && EndsField(x)
    ensures PlainLen(cell + x) == |cell|
  {
    if cell == "" {
      assert cell + x == x;
    } else {
      assert (cell + x)[1..] == cell[1..] + x && !Special(cell[0]);
      assert forall i | 0 <= i < |cell[1..]| :: cell[1..][i] == cell[i + 1];
      PlainBack(cell[1..], x);
    }
  }

  lemma QuotedTail(d: string, x: string)
    ensures var s := ("\"" + (d + "\"")) + x; s != "" && s[0] == '"' && s[1..] == d + ("\"" + x)
  {
    Assoc("\"", d + "\"", x);
    Assoc(d, "\"", x);
  }

  lemma PlainParts(cell: string, x: string)
    requires !NeedsQuote(cell) && EndsField(x)
    ensures var s := cell + x; s != "" && s[0] != '"' && s[..|cell|] == cell && s[|cell|..] == x
  {
    if cell != "" { assert !Special(cell[0]); }
  }

  lemma FieldBack(cell: string, x: string)
    requires EndsField(x)
    ensures ReadField(FieldText(cell) + x) == Some((cell, x))
  {
    if NeedsQuote(cell) {
      QuotedTail(Doubled(cell), x);
      QuotedBack(cell, x);
    } else {
      PlainBack(cell, x);
      PlainParts(cell, x);
    }
  }

  lemma {:induction false} RecordBack(cells: seq<string>, x: string)
    requires cells != []
    ensures ReadRecord(CellsText(cells) + ("\n" + x)) == Some((cells, x))
    decreases |cells|
  {
    if |cells| == 1 {
      FieldBack(cells[0], "\n" + x);
      assert ("\n" + x)[1..] == x && cells == [cells[0]];
    } else {
      var more := CellsText(cells[1..]) + ("\n" + x);
      RecordBack(cells[1..], x);
      FieldBack(cells[0], "," + more);
      assert ("," + more)[1..] == more;
      Assoc(FieldText(cells[0]), "," + CellsText(cells[1..]), "\n" + x);
      Assoc(",", CellsText(cells[1..]), "\n" + x);
      HeadTail(cells);
    }
  }

  /** Whatever the cells hold - quotes, commas, line ends - reading gives them back. */
  lemma {:induction false} ReadInvertsText(records: seq<seq<string>>)
    requires forall r | r in records :: r != []
    ensures Read(Text(records)) == Some(records)
  {
    if records != [] {
      assert records[0] in records && forall r | r in records[1..] :: r in records;
      ReadInvertsText(records[1..]);
      RecordBack(records[0], Text(records[1..]));
      HeadTail(records);
    }
  }

  // ---------------------------------------------------------------- a result

  /** The data columns of a row; a row that is too short gives empty cells. */
  function Cells(columns: seq<nat>, row: seq<string>): seq<string> {
    seq(|columns|, i requires 0 <= i < |columns| => if columns[i] < |row| then row[columns[i]] else "")
  }

  function Records(names: seq<string>, columns: seq<nat>, rows: seq<seq<string>>): seq<seq<string>> {
    [Cells(columns, names)] + seq(|rows|, i requires 0 <= i < |rows| => Cells(columns, rows[i]))
  }

  /** The body reads back as the header and the rows exactly when there is a data column. */
  lemma CsvRoundTripIff(names: seq<string>, columns: seq<nat>, rows: seq<seq<string>>)
    ensures Read(Text(Records(names, columns, rows))) == Some(Records(names, columns, rows)) <==> columns != []
  {
    var records := Records(names, columns, rows);
    assert forall r | r in records :: |r| == |columns|;
    if columns != [] {
      ReadInvertsText(records);
    } else {
      // the header's line is empty, and an empty line is one empty cell
      var s := Text(records);
      assert records[0] == [] && s == "" + ("\n" + Text(records[1..]));
      assert s[0] == '\n';
      assert ReadField(s) == Some(("", s)) by { assert s[..0] == "" && s[0..] == s; }
      assert ReadRecord(s) == Some(([""], s[1..]));
      assert Read(s).Some? ==> Read(s).value[0] == [""];
      assert |[""]| != |records[0]|;
    }
  }

  /** The cells that come back are those of the data columns, in their order: the header's names first, then each row's
      values, empty where a row is too short. */
  lemma CellsComeBack(names: seq<string>, columns: seq<nat>, rows: seq<seq<string>>, r: nat, c: nat)
    requires r < |rows| && c < |columns|
    ensures var read := Read(Text(Records(names, columns, rows)));
      && read.Some? && |read.value| == |rows| + 1 && |read.value[0]| == |columns| && |read.value[r + 1]| == |columns|
      && (columns[c] < |names| ==> read.value[0][c] == names[columns[c]])
      && (columns[c] < |rows[r]| ==> read.value[r + 1][c] == rows[r][columns[c]])
      && (columns[c] >= |rows[r]| ==> read.value[r + 1][c] == "")
  {
    CsvRoundTripIff(names, columns, rows);
  }

  /** A cell is quoted exactly when it holds a quote, a comma or a line end. */
  lemma QuotedIff(cell: string)
    ensures (exists i | 0 <= i < |cell| :: cell[i] == '"' || cell[i] == ',' || cell[i] == '\n' || cell[i] == '\r') ==>
      FieldText(cell) != cell && FieldText(cell)[0] == '"'
    ensures (forall i | 0 <= i < |cell| :: cell[i] != '"' && cell[i] != ',' && cell[i] != '\n' && cell[i] != '\r') ==>
      FieldText(cell) == cell
  {
    DoubledLength(cell);
    if exists i | 0 <= i < |cell| :: cell[i] == '"' || cell[i] == ',' || cell[i] == '\n' || cell[i] == '\r' {
      assert NeedsQuote(cell);
    }
  }

  lemma {:induction false} DoubledLength(cell: string)
    ensures |Doubled(cell)| >= |cell|
  {
    if cell != "" { DoubledLength(cell[1..]); }
  }

  // ---------------------------------------------------------------- the loops

  method CsvEscapeField(input: string) returns (out: string)
    ensures out == FieldText(input)
  {
    var needQuote := false;
    for i := 0 to |input|
      invariant !needQuote && forall k | 0 <= k < i :: !Special(input[k])
    {
      if Special(input[i]) {
        needQuote := true;
        break;
      }
    }
    if !needQuote { return input; }
    out := "\"";
    assert input[0..] == input;
    for i := 0 to |input|
      invariant out + Doubled(input[i..]) == "\"" + Doubled(input)
    {
      Advance(input, i);
      var c := if input[i] == '"' then "\"\"" else [input[i]];
      Assoc(out, c, Doubled(input[i + 1..]));
      out := out + c;
    }
    assert Doubled(input[|input|..]) == "" && out + "" == out;
    Assoc("\"", Doubled(input), "\"");
    out := out + "\"";
  }

  /** One line without its line feed. */
  method LineText(columns: seq<nat>, row: seq<string>) returns (line: string)
    ensures line == CellsText(Cells(columns, row))
  {
    ghost var cells := Cells(columns, row);
    line := "";
    assert cells[0..] == cells;
    for i := 0 to |columns|
      invariant CellsText(cells) == line + Rest(cells, i)
    {
      RestStep(cells, i, line);
      if i > 0 { line := line + ","; }
      var cell := if columns[i] < |row| then row[columns[i]] else "";
      var text := CsvEscapeField(cell);
      line := line + text;
    }
    assert line + "" == line;
  }

  /** What is still to be written before cell i. */
  ghost function Rest(cells: seq<string>, i: nat): string
    requires i <= |cells|
  {
    if i == |cells| then "" else if i == 0 then CellsText(cells) else "," + CellsText(cells[i..])
  }

  lemma RestStep(cells: seq<string>, i: nat, line: string)
    requires i < |cells|
    ensures line + Rest(cells, i) == (if i > 0 then line + "," else line) + FieldText(cells[i]) + Rest(cells, i + 1)
  {
    var more := cells[i..];
    assert more[0] == cells[i] && more[1..] == cells[i + 1..] && (i == 0 ==> more == cells);
    var text, rest := FieldText(cells[i]), Rest(cells, i + 1);
    if i + 1 == |cells| { assert text + rest == text; }
    assert CellsText(more) == text + rest;
    if i > 0 {
      Assoc(line, ",", text + rest);
      Assoc(line + ",", text, rest);
    } else {
      Assoc(line, text, rest);
    }
  }

  lemma {:induction false} TextAppend(a: seq<seq<string>>, record: seq<string>)
    ensures Text(a + [record]) == Text(a) + (CellsText(record) + "\n")
  {
    if a == [] {
      assert a + [record] == [record] && [record][1..] == [];
      assert "\n" + "" == "\n" && "" + (CellsText(record) + "\n") == CellsText(record) + "\n";
    } else {
      assert (a + [record])[1..] == a[1..] + [record];
      TextAppend(a[1..], record);
      Assoc("\n", Text(a[1..]), CellsText(record) + "\n");
      Assoc(CellsText(a[0]), "\n" + Text(a[1..]), CellsText(record) + "\n");
    }
  }

  method SerializeRowsCsv(names: seq<string>, columns: seq<nat>, rows: seq<seq<string>>) returns (body: string)
    ensures body == Text(Records(names, columns, rows))
  {
    ghost var records := Records(names, columns, rows);
    var header := LineText(columns, names);
    body := header + "\n";
    assert records[..1] == [] + [records[0]];
    TextAppend([], records[0]);
    assert "" + (header + "\n") == body;
    for i := 0 to |rows|
      invariant body == Text(records[..i + 1])
    {
      var line := LineText(columns, rows[i]);
      assert records[..i + 2] == records[..i + 1] + [records[i + 1]];
      TextAppend(records[..i + 1], records[i + 1]);
      body := body + (line + "\n");
    }
    assert records[..|rows| + 1] == records;
  }
}
