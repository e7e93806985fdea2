/** GraphQL mounts: each answers queries at its path and gives its schema below it. */
module GraphQLMounts {
  import opened Collections
  import opened Identifiers
  import opened Routing

  datatype Mount = Mount(name: string, verb: string, path: string, tables: seq<string>, requireAuth: string)

  function UpperChar(c: char): char {
    if 'a' <= c <= 'z' then (c as int - 32) as char else c
  }

  function Upper(s: string): string {
    seq(|s|, i requires 0 <= i < |s| => UpperChar(s[i]))
  }

  /** A method is taken for POST whatever the case of its letters, and nothing else is. */
  lemma UpperIsPost(verb: string)
    ensures Upper(verb) == "POST" <==> Respelled(verb, "POST")
  {
    if Upper(verb) == "POST" {
      forall i | 0 <= i < |verb| ensures SameLetter(verb[i], "POST"[i]) { assert UpperChar(verb[i]) == Upper(verb)[i]; }
    }
    if Respelled(verb, "POST") {
      forall i | 0 <= i < 4 ensures Upper(verb)[i] == "POST"[i] { assert SameLetter(verb[i], "POST"[i]); }
    }
  }

  predicate Reserved(path: string) {
    path == "/graphql" || path == "/graphql/schema"
  }

  function SchemaPath(path: string): string {
    path + "/schema"
  }

  /** A path without its trailing slashes, unless it is the root. */
  function Normal(path: string): (r: string)
    ensures r <= path && !HasTrailingSlash(r)
    ensures forall i | |r| <= i < |path| :: path[i] == '/'
    ensures path != [] ==> r != []
    decreases |path|
  {
    if HasTrailingSlash(path) then Normal(path[..|path| - 1]) else path
  }

  method NormalizePath(path: string) returns (p: string)
    ensures p == Normal(path)
  {
    p := path;
    while |p| > 1 && p[|p| - 1] == '/'
      invariant Normal(path) == Normal(p)
      decreases |p|
    {
      p := p[..|p| - 1];
    }
  }

  /** Two mounts can stand side by side: different names and paths, and neither lies on the other's schema. */
  predicate Apart(a: Mount, b: Mount) {
    && a.name != b.name
    && a.path != b.path && SchemaPath(a.path) != b.path && a.path != SchemaPath(b.path)
  }

  predicate WellFormed(m: Mount) {
    && m.name != [] && m.tables != [] && m.verb == "POST"
    && m.path != [] && m.path[0] == '/' && !HasTrailingSlash(m.path)
    && !Reserved(m.path) && !Reserved(SchemaPath(m.path))
  }

  ghost predicate Consistent(mounts: seq<Mount>) {
    && (forall m | m in mounts :: WellFormed(m))
    && (forall i, j | 0 <= i < j < |mounts| :: Apart(mounts[i], mounts[j]))
  }

  /** A mount as it is registered. */
  function Canonical(m: Mount): Mount {
    m.(path := Normal(m.path), verb := Upper(m.verb))
  }

  predicate Acceptable(m: Mount) {
    m.path != [] && m.path[0] == '/' && WellFormed(Canonical(m))
  }

  predicate Collides(existing: Mount, m: Mount) {
    existing.name != m.name && !Apart(existing, m)
  }

  /** What a mount must be like on its own: named, absolute, over some table, for POST, and not on a built-in path. */
  lemma AcceptableIff(m: Mount)
    ensures Acceptable(m) <==>
      && m.name != "" && m.tables != [] && Respelled(m.verb, "POST") && m.path != "" && m.path[0] == '/'
      && Normal(m.path) != "/graphql" && Normal(m.path) != "/graphql/schema"
  {
    UpperIsPost(m.verb);
    var p := Normal(m.path);
    assert p + "/schema" == "/graphql/schema" ==> p == "/graphql" by {
      assert "/graphql/schema"[..8] == "/graphql";
      if p + "/schema" == "/graphql/schema" { assert (p + "/schema")[..|p|] == p && |p| == 8; }
    }
    assert |p + "/schema"| >= 7 && (p + "/schema" == "/graphql" ==> (p + "/schema")[|p|] == "/graphql"[|p|] && |p| == 1);
  }

  /** And next to the others: another mount keeps it out exactly when they share a path or one lies on the other's
      schema. */
  lemma CollidesIff(existing: Mount, m: Mount)
    ensures Collides(existing, m) <==>
      && existing.name != m.name
      && (existing.path == m.path || existing.path + "/schema" == m.path || existing.path == m.path + "/schema")
  {
  }

  predicate Named(mounts: seq<Mount>, name: string) {
    exists i | 0 <= i < |mounts| :: mounts[i].name == name
  }

  function Put(mounts: seq<Mount>, m: Mount): seq<Mount> {
    if Named(mounts, m.name) then seq(|mounts|, i requires 0 <= i < |mounts| => if mounts[i].name == m.name then m else mounts[i])
    else mounts + [m]
  }

  function Create(mounts: seq<Mount>, m: Mount, replace: bool): Option<seq<Mount>> {
    var c := Canonical(m);
    if !Acceptable(m) || (exists i | 0 <= i < |mounts| :: Collides(mounts[i], c)) || (Named(mounts, c.name) && !replace) then None
    else Some(Put(mounts, c))
  }

  function Drop(mounts: seq<Mount>, name: string): seq<Mount> {
    if mounts == [] then [] else if mounts[0].name == name then mounts[1..] else [mounts[0]] + Drop(mounts[1..], name)
  }

  /** A mount is registered exactly when the registry with it is consistent and its name is free or replaceable. */
  lemma CreateSucceedsIff(mounts: seq<Mount>, m: Mount, replace: bool)
    requires Consistent(mounts)
    ensures Create(mounts, m, replace).Some? <==>
      Consistent(Put(mounts, Canonical(m))) && (replace || !Named(mounts, m.name))
  {
    var c := Canonical(m);
    var after := Put(mounts, c);
    var at := if Named(mounts, c.name) then NamedAt(mounts, c.name) else |mounts|;
    assert after[at] == c;
    assert forall i | 0 <= i < |mounts| && i != at :: after[i] == mounts[i];
    if Create(mounts, m, replace).Some? {
      forall x | x in after ensures WellFormed(x) {
        var i :| 0 <= i < |after| && after[i] == x;
        assert i != at ==> mounts[i] in mounts;
      }
    }
    if Consistent(after) {
      assert c in after;
      forall i | 0 <= i < |mounts| ensures !Collides(mounts[i], c) {
        assert i != at ==> Apart(after[i], c);
      }
    }
  }

  ghost function NamedAt(mounts: seq<Mount>, name: string): (i: int)
    requires Named(mounts, name)
    ensures 0 <= i < |mounts| && mounts[i].name == name
  {
    var i :| 0 <= i < |mounts| && mounts[i].name == name;
    i
  }

  lemma {:induction false} DropKeepsConsistent(mounts: seq<Mount>, name: string)
    requires Consistent(mounts)
    ensures Consistent(Drop(mounts, name))
    ensures forall m :: m in Drop(mounts, name) <==> m in mounts && m.name != name
  {
    if mounts != [] {
      assert mounts == [mounts[0]] + mounts[1..];
      assert forall i | 0 < i < |mounts| :: mounts[i] == mounts[1..][i - 1];
      if mounts[0].name != name {
        DropKeepsConsistent(mounts[1..], name);
        var d := Drop(mounts[1..], name);
        forall i | 0 <= i < |d| ensures Apart(mounts[0], d[i]) {
          assert d[i] in mounts[1..];
        }
      }
    }
  }

  datatype Ddl = CreateMount(mount: Mount, replace: bool) | DropMount(name: string)

  function Apply(mounts: seq<Mount>, d: Ddl): seq<Mount> {
    match d
    case CreateMount(m, replace) =>
      (match Create(mounts, m, replace)
       case Some(after) => after
       case None => mounts)
    case DropMount(name) => Drop(mounts, name)
  }

  function RunAll(ddl: seq<Ddl>): seq<Mount> {
    if ddl == [] then [] else Apply(RunAll(ddl[..|ddl| - 1]), ddl[|ddl| - 1])
  }

  lemma {:induction false} MountsStayConsistent(ddl: seq<Ddl>)
    ensures Consistent(RunAll(ddl))
  {
    if ddl != [] {
      var before, d := RunAll(ddl[..|ddl| - 1]), ddl[|ddl| - 1];
      MountsStayConsistent(ddl[..|ddl| - 1]);
      match d
      case CreateMount(m, replace) => if Create(before, m, replace).Some? { CreateSucceedsIff(before, m, replace); }
      case DropMount(name) => DropKeepsConsistent(before, name);
    }
  }

  /** What a mount answers at a path. */
  predicate Answers(m: Mount, path: string, schema: bool) {
    if schema then Normal(path) == SchemaPath(m.path) else Normal(path) == m.path
  }

  /** After any sequence of statements a path is answered by one mount at most and in one role only, and the built-in
      endpoint's paths by none. */
  lemma OneAnswerPerPath(ddl: seq<Ddl>, path: string, i: nat, asSchema: bool, j: nat, alsoSchema: bool)
    requires i < |RunAll(ddl)| && j < |RunAll(ddl)|
    requires Answers(RunAll(ddl)[i], path, asSchema) && Answers(RunAll(ddl)[j], path, alsoSchema)
    ensures i == j && asSchema == alsoSchema && Normal(path) != "/graphql" && Normal(path) != "/graphql/schema"
  {
    MountsStayConsistent(ddl);
    var a, b := RunAll(ddl)[i], RunAll(ddl)[j];
    assert WellFormed(a);
    if asSchema && alsoSchema { assert SchemaPath(a.path)[..|a.path|] == a.path && SchemaPath(b.path)[..|b.path|] == b.path; }
  }

  class Registry {
    var mounts: seq<Mount>

    constructor ()
      ensures mounts == []
    {
      mounts := [];
    }

    method AddGraphqlRoute(m: Mount, replace: bool) returns (ok: bool)
      requires Consistent(mounts)
      modifies this
      ensures ok <==> Create(old(mounts), m, replace).Some?
      ensures mounts == Apply(old(mounts), CreateMount(m, replace)) && Consistent(mounts)
    {
      if m.name == [] || m.path == [] || m.path[0] != '/' || m.tables == [] { return false; }
      CreateSucceedsIff(mounts, m, replace);
      var path := NormalizePath(m.path);
      var c := m.(path := path, verb := Upper(m.verb));
      if c.verb != "POST" || Reserved(c.path) || Reserved(SchemaPath(c.path)) { return false; }
      for i := 0 to |mounts|
        invariant mounts == old(mounts)
        invariant forall j | 0 <= j < i :: !Collides(mounts[j], c)
      {
        if mounts[i].name != c.name {
          if mounts[i].path == c.path { return false; }
          if SchemaPath(mounts[i].path) == c.path || mounts[i].path == SchemaPath(c.path) { return false; }
        }
      }
      for i := 0 to |mounts|
        invariant mounts == old(mounts)
        invariant forall j | 0 <= j < i :: mounts[j].name != c.name
      {
        if mounts[i].name == c.name {
          if !replace { return false; }
          assert mounts[i := c] == Put(mounts, c);
          mounts := mounts[i := c];
          return true;
        }
      }
      mounts := mounts + [c];
      return true;
    }

    method DropGraphqlRoute(name: string) returns (found: bool)
      requires Consistent(mounts)
      modifies this
      ensures found <==> Named(old(mounts), name)
      ensures mounts == Apply(old(mounts), DropMount(name)) && Consistent(mounts)
    {
      DropKeepsConsistent(mounts, name);
      for i := 0 to |mounts|
        invariant mounts == old(mounts)
        invariant forall j | 0 <= j < i :: mounts[j].name != name
      {
        if mounts[i].name == name {
          DropAt(mounts, i, name);
          mounts := mounts[..i] + mounts[i + 1..];
          return true;
        }
      }
      DropAt(mounts, |mounts|, name);
      return false;
    }
  }

  lemma {:induction false} DropAt(mounts: seq<Mount>, i: nat, name: string)
    requires i <= |mounts| && (forall j | 0 <= j < i :: mounts[j].name != name) && (i < |mounts| ==> mounts[i].name == name)
    ensures Drop(mounts, name) == if i == |mounts| then mounts else mounts[..i] + mounts[i + 1..]
  {
    if i > 0 {
      DropAt(mounts[1..], i - 1, name);
      assert mounts == [mounts[0]] + mounts[1..];
    }
  }
}
