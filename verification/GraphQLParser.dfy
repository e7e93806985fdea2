/** The parser as it runs: one cursor passed by reference through nested loops. */
module GraphQLParser {
  import opened Collections
  import opened GraphQL
  import opened GraphQLProofs

  method SkipWsAt(s: string, i: nat) returns (j: nat)
    requires i <= |s|
    ensures i <= j <= |s| && s[j..] == SkipWs(s[i..])
  {
    j := i;
    while j < |s|
      invariant i <= j <= |s| && SkipWs(s[j..]) == SkipWs(s[i..])
      decreases |s| - j
    {
      Advance(s, j);
      if Blank(s[j]) {
        j := j + 1;
      } else if s[j] == '#' {
        j := CommentEnd(s, j);
      } else {
        break;
      }
    }
  }

  method CommentEnd(s: string, i: nat) returns (j: nat)
    requires i < |s| && s[i] == '#'
    ensures i < j <= |s| && s[j..] == AfterComment(s[i + 1..])
  {
    j := i + 1;
    while j < |s| && s[j] != '\n'
      invariant i < j <= |s| && AfterComment(s[j..]) == AfterComment(s[i + 1..])
    {
      Advance(s, j);
      j := j + 1;
    }
    if j < |s| { Advance(s, j); }
  }

  lemma SliceOfSuffix(s: string, start: nat, j: nat)
    requires start <= j <= |s|
    ensures s[start..][..j - start] == s[start..j] && s[start..][j - start..] == s[j..]
  {
  }

  method ReadNameAt(s: string, i: nat) returns (ok: bool, name: string, j: nat)
    requires i <= |s|
    ensures ok <==> ReadName(s[i..]).Ok?
    ensures i <= j <= |s| && (ok ==> i < j && ReadName(s[i..]) == Ok((name, s[j..])))
  {
    var start := SkipWsAt(s, i);
    j, name := start, "";
    if start < |s| { Advance(s, start); }
    if start >= |s| || !NameStart(s[start]) { return false, name, j; }
    j := start + 1;
    while j < |s| && NameCont(s[j])
      invariant start < j <= |s| && NameLen(s[start..]) == (j - start) + NameLen(s[j..])
    {
      Advance(s, j);
      j := j + 1;
    }
    if j < |s| { Advance(s, j); }
    name := s[start..j];
    SliceOfSuffix(s, start, j);
    return true, name, j;
  }

  method ContainsName(names: seq<string>, name: string) returns (found: bool)
    ensures found <==> name in names
  {
    for i := 0 to |names|
      invariant forall k | 0 <= k < i :: names[k] != name
    {
      if names[i] == name { return true; }
    }
    return false;
  }

  /** The inner loop, from behind the opening brace. */
  method ParseColumnsAt(s: string, start: nat, field: string) returns (r: Result<seq<string>>, i: nat)
    requires start <= |s|
    ensures r.Err? ==> ParseColumns(s[start..], field, []) == Err(r.message)
    ensures r.Ok? ==> start < i <= |s| && ParseColumns(s[start..], field, []) == Ok((r.value, s[i..]))
  {
    var columns: seq<string> := [];
    i := start;
    while true
      invariant start <= i <= |s| && ParseColumns(s[start..], field, []) == ParseColumns(s[i..], field, columns)
      decreases |s| - i
    {
      var at := SkipWsAt(s, i);
      if at < |s| { Advance(s, at); }
      if at < |s| && s[at] == '}' {
        return Ok(columns), at + 1;
      }
      var ok, column, j := ReadNameAt(s, at);
      if !ok { return Err("expected column name inside " + field), i; }
      j := SkipWsAt(s, j);
      if j < |s| { Advance(s, j); }
      if j < |s| && s[j] == '{' { return Err("nested selections are not supported in GraphQL v0"), i; }
      if j < |s| && s[j] == '(' { return Err("field arguments are not supported in GraphQL v0"), i; }
      var found := ContainsName(columns, column);
      if found { return Err("duplicate column '" + column + "' in " + field), i; }
      if |columns| + 1 > MaxColumnsPerField { return Err("selection for " + field + " exceeds the column limit"), i; }
      columns, i := columns + [column], j;
    }
  }

  method ParseFieldAt(s: string, name: string, start: nat) returns (r: Result<Field>, i: nat)
    requires start <= |s|
    ensures r.Err? ==> ParseField(name, s[start..]) == Err(r.message)
    ensures r.Ok? ==> start < i <= |s| && ParseField(name, s[start..]) == Ok((r.value, s[i..]))
  {
    i := start;
    if name == "__schema" || name == "__type" {
      return Err("introspection fields are not supported in v0; use GET /graphql/schema"), i;
    }
    i := SkipWsAt(s, start);
    if i < |s| { Advance(s, i); }
    if i >= |s| || s[i] != '{' {
      return Err("v0 requires a column selection set: { " + name + " { col1 col2 } }"), i;
    }
    var c;
    c, i := ParseColumnsAt(s, i + 1, name);
    if c.Err? { return Err(c.message), i; }
    if c.value == [] { return Err("selection set for " + name + " must list at least one column"), i; }
    return Ok(Field(name, c.value)), i;
  }

  method HasRootNamed(roots: seq<Field>, name: string) returns (found: bool)
    ensures found <==> HasRoot(roots, name)
  {
    for i := 0 to |roots|
      invariant forall k | 0 <= k < i :: roots[k].name != name
    {
      if roots[i].name == name { return true; }
    }
    return false;
  }

  method CountColumns(roots: seq<Field>) returns (total: nat)
    ensures total == TotalColumns(roots)
  {
    total := 0;
    for i := 0 to |roots|
      invariant total == TotalColumns(roots[..i])
    {
      assert roots[..i + 1][..i] == roots[..i];
      total := total + |roots[i].columns|;
    }
    assert roots[..|roots|] == roots;
  }

  /** The outer loop, from behind the opening brace. */
  method ParseRootsAt(s: string, start: nat) returns (r: Result<seq<Field>>, i: nat)
    requires start <= |s|
    ensures r.Err? ==> ParseRoots(s[start..], []) == Err(r.message)
    ensures r.Ok? ==> i <= |s| && ParseRoots(s[start..], []) == Ok((r.value, s[i..]))
  {
    var roots: seq<Field> := [];
    i := start;
    while true
      invariant i <= |s| && ParseRoots(s[start..], []) == ParseRoots(s[i..], roots)
      decreases |s| - i
    {
      var at := SkipWsAt(s, i);
      if at < |s| { Advance(s, at); }
      if at < |s| && s[at] == '}' {
        return Ok(roots), at + 1;
      }
      var ok, name, j := ReadNameAt(s, at);
      if !ok { return Err("expected field name in root selection set"), i; }
      var f, k := ParseFieldAt(s, name, j);
      if f.Err? { return Err(f.message), i; }
      var found := HasRootNamed(roots, f.value.name);
      if found { return Err("duplicate root field '" + f.value.name + "' is not supported in GraphQL v0"), i; }
      roots := roots + [f.value];
      if |roots| > MaxRootFields { return Err("GraphQL document exceeds the root-field limit"), i; }
      var total := CountColumns(roots);
      if total > MaxTotalFields { return Err("GraphQL document exceeds the total-field limit"), i; }
      i := k;
    }
  }

  /** The optional operation in front of the selection set. */
  method ParseHeaderAt(s: string, start: nat) returns (r: Result<nat>)
    requires start <= |s|
    ensures r.Err? ==> ParseHeader(s[start..]) == Err(r.message)
    ensures r.Ok? ==> r.value <= |s| && ParseHeader(s[start..]) == Ok(s[r.value..])
  {
    var ok, first, i := ReadNameAt(s, start);
    if !ok { return Ok(start); }
    if first == "query" {
      var named, op, j := ReadNameAt(s, i);
      if !named { return Ok(i); }
      j := SkipWsAt(s, j);
      if j < |s| { Advance(s, j); }
      if j < |s| && s[j] == '{' { return Ok(j); }
      return Err("expected selection set '{' after query");
    }
    if first == "mutation" || first == "subscription" {
      return Err("mutations and subscriptions are not supported in GraphQL v0");
    }
    return Ok(start);
  }

  method ParseThinGraphql(doc: string) returns (r: Result<seq<Field>>)
    ensures r == Parse(doc)
  {
    if |doc| > MaxDocumentBytes { return Err("GraphQL document exceeds the 64 KiB limit"); }
    assert doc[0..] == doc;
    var i := SkipWsAt(doc, 0);
    if i >= |doc| { return Err("empty GraphQL document"); }
    var h := ParseHeaderAt(doc, i);
    if h.Err? { return Err(h.message); }
    i := SkipWsAt(doc, h.value);
    if i < |doc| { Advance(doc, i); }
    if i >= |doc| || doc[i] != '{' { return Err("expected selection set '{'"); }
    var roots;
    roots, i := ParseRootsAt(doc, i + 1);
    if roots.Err? { return Err(roots.message); }
    i := SkipWsAt(doc, i);
    if i < |doc| { return Err("unexpected trailing content after selection set"); }
    if roots.value == [] { return Err("selection set is empty"); }
    return roots;
  }
}
