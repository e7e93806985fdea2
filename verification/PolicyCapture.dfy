/** The condition under which the rewrite preserves meaning is exact. With operators that remember
    all their inputs, a query whose policies are captured by a CTE gives a different result. */
module PolicyCapture {
  import opened Collections
  import opened Identifiers
  import opened PolicySyntax
  import opened PolicySemantics
  import opened PolicyRewriter
  import opened PolicyMeaning

  // ---------------------------------------------------------------- remembering operators

  /** A relation of one cell. */
  function One(tag: string, relations: seq<Rel>, lists: seq<seq<Columns>>): Rel {
    [map["" := Composite(tag, relations, lists)]]
  }

  predicate IsOne(rel: Rel) {
    |rel| == 1 && rel[0].Keys == {""}
  }

  /** Operators that keep all the relations and columns they are given, whatever else they are told. */
  ghost predicate Remembers(ops: Ops) {
    && (forall t, rows, cs :: ops.apply(t, rows, cs) == [Composite("apply", [], [[cs]])])
    && (forall t, rows, rels, cs :: ops.nest(t, rows, rels, cs) == [Composite("nest", rels, [[cs]])])
    && (forall alias, rel :: ops.scan(alias, rel) == One("scan", [rel], []))
    && (forall rel, cs :: ops.filter(rel, cs) == One("filter", [rel], [[cs]]))
    && (forall rel, names, cs :: ops.mask(rel, names, cs) == One("mask", [rel], [[cs]]))
    && (forall rel, cs :: ops.group(rel, cs) == [One("group", [rel], [[cs]])])
    && (forall t, parts, a, b, c :: ops.project(t, parts, a, b, c) == One("project", parts, [a, b, c]))
    && (forall t, rel, a, b :: ops.finish(t, rel, a, b) == One("finish", [rel], [[a], [b]]))
    && (forall t, rels :: ops.combine(t, rels) == One("combine", rels, []))
    && (forall l, r :: ops.cross(l, r) == One("cross", [l, r], []))
    && (forall t, l, r, cs :: ops.join(t, l, r, cs) == One("join", [l, r], [[cs]]))
    && (forall t, cs :: ops.values(t, cs) == One("values", [], [[cs]]))
    && (forall defs, rel :: ops.define(defs, rel) == One("define", [rel] + defs, []))
  }

  function KeepApply(t: string, rows: Rel, cs: Columns): Column {
    [Composite("apply", [], [[cs]])]
  }

  function KeepNest(t: string, rows: Rel, rels: seq<Rel>, cs: Columns): Column {
    [Composite("nest", rels, [[cs]])]
  }

  function KeepScan(alias: string, rel: Rel): Rel {
    One("scan", [rel], [])
  }

  function KeepFilter(rel: Rel, cs: Columns): Rel {
    One("filter", [rel], [[cs]])
  }

  function KeepMask(rel: Rel, names: seq<string>, cs: Columns): Rel {
    One("mask", [rel], [[cs]])
  }

  function KeepGroup(rel: Rel, cs: Columns): seq<Rel> {
    [One("group", [rel], [[cs]])]
  }

  function KeepProject(t: string, parts: seq<Rel>, a: seq<Columns>, b: seq<Columns>, c: seq<Columns>): Rel {
    One("project", parts, [a, b, c])
  }

  function KeepFinish(t: string, rel: Rel, a: Columns, b: Columns): Rel {
    One("finish", [rel], [[a], [b]])
  }

  function KeepCombine(t: string, rels: seq<Rel>): Rel {
    One("combine", rels, [])
  }

  function KeepCross(l: Rel, r: Rel): Rel {
    One("cross", [l, r], [])
  }

  function KeepJoin(t: string, l: Rel, r: Rel, cs: Columns): Rel {
    One("join", [l, r], [[cs]])
  }

  function KeepValues(t: string, cs: Columns): Rel {
    One("values", [], [[cs]])
  }

  function KeepDefine(defs: seq<Rel>, rel: Rel): Rel {
    One("define", [rel] + defs, [])
  }

  function TableCell(key: TableIdentity): Rel {
    [map["" := Text("table")]]
  }

  /** A CTE is never mistaken for a table. */
  ghost predicate Derived(env: Env) {
    forall n | n in env :: IsOne(env[n]) && env[n][0][""].Composite?
  }

  ghost predicate Single(outer: Row) {
    outer == map[] || outer.Keys == {""}
  }

  lemma WidenOne(outer: Row, rel: Rel)
    requires IsOne(rel) && Single(outer)
    ensures Widen(outer, rel) == rel
  {
    assert outer + rel[0] == rel[0];
  }

  /** A cell determines what it remembers. */
  lemma OneInverse(t1: string, r1: seq<Rel>, l1: seq<seq<Columns>>, t2: string, r2: seq<Rel>, l2: seq<seq<Columns>>)
    requires One(t1, r1, l1) == One(t2, r2, l2)
    ensures t1 == t2 && r1 == r2 && l1 == l2
  {
    assert One(t1, r1, l1)[0][""] == One(t2, r2, l2)[0][""];
  }

  lemma OneListInverse(t1: string, r1: seq<Rel>, c1: Columns, t2: string, r2: seq<Rel>, c2: Columns)
    requires One(t1, r1, [[c1]]) == One(t2, r2, [[c2]])
    ensures r1 == r2 && c1 == c2
  {
    OneInverse(t1, r1, [[c1]], t2, r2, [[c2]]);
    assert [c1] == [[c1]][0] == [[c2]][0] == [c2];
    assert c1 == [c1][0] == [c2][0] == c2;
  }

  predicate IsCell(rel: Rel) {
    IsOne(rel) && rel[0][""].Composite?
  }

  lemma DefineIsCell(ops: Ops, defs: seq<Rel>, rel: Rel)
    requires Remembers(ops)
    ensures IsCell(ops.define(defs, rel))
  {
  }

  lemma ScanIsCell(ops: Ops, alias: string, rel: Rel)
    requires Remembers(ops)
    ensures IsCell(ops.scan(alias, rel))
  {
  }

  lemma ValuesAreCell(ops: Ops, t: string, cs: Columns)
    requires Remembers(ops)
    ensures IsCell(ops.values(t, cs))
  {
  }

  lemma JoinIsCell(ops: Ops, t: string, l: Rel, r: Rel, cs: Columns)
    requires Remembers(ops)
    ensures IsCell(ops.join(t, l, r, cs))
  {
  }

  lemma {:induction false} OneQuery(q: Query, w: World, env: Env, outer: Row)
    requires Remembers(w.ops)
    ensures IsOne(EvalQuery(q, w, env, outer)) && EvalQuery(q, w, env, outer)[0][""].Composite?
  {
    if q.OtherQuery? {
      ValuesAreCell(w.ops, "other query", []);
    } else {
      var defs := EvalCtes(q.ctes, w, env, outer);
      DefineIsCell(w.ops, defs, EvalBody(q, w, Bind(q.ctes, defs, env), outer));
    }
    assert IsCell(EvalQuery(q, w, env, outer));
  }

  lemma {:induction false} OneRef(r: Ref, w: World, env: Env, outer: Row)
    requires Remembers(w.ops)
    ensures IsOne(EvalRef(r, w, env, outer))
  {
    match r {
      case Base(name, alias) => ScanIsCell(w.ops, EffectiveAlias(name, alias), Resolve(name, w, env));
      case Subquery(query, alias) => ScanIsCell(w.ops, alias, EvalQuery(query, w, env, outer));
      case Join(left, right, condition, kind) =>
        var a, b := EvalRef(left, w, env, outer), EvalRef(right, w, env, outer);
        JoinIsCell(w.ops, kind, a, b, EvalExprs(condition, w, env, Widen(outer, w.ops.cross(a, b))));
      case ExpressionList(values, shape) => ValuesAreCell(w.ops, shape, EvalExprs(values, w, env, [outer]));
      case EmptyFrom => ValuesAreCell(w.ops, "no source", []);
      case TableFunction => ValuesAreCell(w.ops, "table function", []);
      case OtherRef => ValuesAreCell(w.ops, "other source", []);
      case Secure(table, rowFilter, masks, alias) =>
        var raw := w.tables(Key(IdentityFromName(table, w.catalog)));
        var kept := w.ops.filter(raw, EvalExprs(rowFilter, w, env, raw));
        ScanIsCell(w.ops, alias, w.ops.mask(kept, MaskedColumns(masks), EvalMasks(masks, w, env, kept)));
    }
    assert IsCell(EvalRef(r, w, env, outer));
  }

  // ---------------------------------------------------------------- equal results have equal parts

  /** One evaluation of a query tree: the two sides of a comparison differ in some of the three. */
  datatype Side = Side(w: World, env: Env)

  ghost predicate SameExprs(es1: seq<Expr>, s1: Side, es2: seq<Expr>, s2: Side, rows: Rel) {
    EvalExprs(es1, s1.w, s1.env, rows) == EvalExprs(es2, s2.w, s2.env, rows)
  }

  /** Two selects with equal results agree clause by clause, on witnesses for the rows of each clause. */
  lemma SelectParts(q1: Query, s1: Side, q2: Query, s2: Side, outer: Row)
    returns (rows: Rel, kept: Rel, part: Rel)
    requires q1.Select? && q2.Select? && Single(outer)
    requires Remembers(s1.w.ops) && Remembers(s2.w.ops)
    requires EvalBody(q1, s1.w, s1.env, outer) == EvalBody(q2, s2.w, s2.env, outer)
    ensures IsOne(rows) && IsOne(kept) && IsOne(part)
    ensures EvalRef(q1.from, s1.w, s1.env, outer) == EvalRef(q2.from, s2.w, s2.env, outer)
    ensures SameExprs(q1.where, s1, q2.where, s2, rows) && SameExprs(q1.groups, s1, q2.groups, s2, kept)
    ensures SameExprs(q1.columns, s1, q2.columns, s2, part) && SameExprs(q1.having, s1, q2.having, s2, part)
    ensures SameExprs(q1.qualify, s1, q2.qualify, s2, part) && SameExprs(q1.modifiers, s1, q2.modifiers, s2, kept)
  {
    var r1, r2 := EvalRef(q1.from, s1.w, s1.env, outer), EvalRef(q2.from, s2.w, s2.env, outer);
    OneRef(q1.from, s1.w, s1.env, outer);
    OneRef(q2.from, s2.w, s2.env, outer);
    WidenOne(outer, r1);
    WidenOne(outer, r2);
    var w1, w2 := EvalExprs(q1.where, s1.w, s1.env, r1), EvalExprs(q2.where, s2.w, s2.env, r2);
    var k1, k2 := One("filter", [r1], [[w1]]), One("filter", [r2], [[w2]]);
    var g1, g2 := EvalExprs(q1.groups, s1.w, s1.env, k1), EvalExprs(q2.groups, s2.w, s2.env, k2);
    var p1, p2 := One("group", [k1], [[g1]]), One("group", [k2], [[g2]]);
    var c1, c2 := EvalParts(q1.columns, s1.w, s1.env, [p1]), EvalParts(q2.columns, s2.w, s2.env, [p2]);
    var h1, h2 := EvalParts(q1.having, s1.w, s1.env, [p1]), EvalParts(q2.having, s2.w, s2.env, [p2]);
    var y1, y2 := EvalParts(q1.qualify, s1.w, s1.env, [p1]), EvalParts(q2.qualify, s2.w, s2.env, [p2]);
    var o1, o2 := One("project", [p1], [c1, h1, y1]), One("project", [p2], [c2, h2, y2]);
    var m1, m2 := EvalExprs(q1.modifiers, s1.w, s1.env, k1), EvalExprs(q2.modifiers, s2.w, s2.env, k2);
    var n1, n2 := EvalExprs(q1.modifiers, s1.w, s1.env, o1), EvalExprs(q2.modifiers, s2.w, s2.env, o2);
    assert EvalBody(q1, s1.w, s1.env, outer) == One("finish", [o1], [[m1], [n1]]);
    assert EvalBody(q2, s2.w, s2.env, outer) == One("finish", [o2], [[m2], [n2]]);
    OneInverse("finish", [o1], [[m1], [n1]], "finish", [o2], [[m2], [n2]]);
    OneInverse("project", [p1], [c1, h1, y1], "project", [p2], [c2, h2, y2]);
    OneInverse("group", [k1], [[g1]], "group", [k2], [[g2]]);
    OneInverse("filter", [r1], [[w1]], "filter", [r2], [[w2]]);
    rows, kept, part := r1, k1, p1;
    assert c1[0] == c2[0] && h1[0] == h2[0] && y1[0] == y2[0];
  }

  /** The two sides of a set operation, likewise. */
  lemma SetParts(q1: Query, s1: Side, q2: Query, s2: Side, outer: Row) returns (rows: Rel)
    requires q1.SetOperation? && q2.SetOperation?
    requires Remembers(s1.w.ops) && Remembers(s2.w.ops)
    requires EvalBody(q1, s1.w, s1.env, outer) == EvalBody(q2, s2.w, s2.env, outer)
    ensures IsOne(rows)
    ensures EvalQueries(q1.children, s1.w, s1.env, outer) == EvalQueries(q2.children, s2.w, s2.env, outer)
    ensures SameExprs(q1.modifiers, s1, q2.modifiers, s2, rows)
  {
    var c1, c2 := EvalQueries(q1.children, s1.w, s1.env, outer), EvalQueries(q2.children, s2.w, s2.env, outer);
    var o1, o2 := One("combine", c1, []), One("combine", c2, []);
    var n1, n2 := EvalExprs(q1.modifiers, s1.w, s1.env, o1), EvalExprs(q2.modifiers, s2.w, s2.env, o2);
    OneInverse("finish", [o1], [[[]], [n1]], "finish", [o2], [[[]], [n2]]);
    OneInverse("combine", c1, [], "combine", c2, []);
    rows := o1;
  }

  lemma JoinParts(r1: Ref, s1: Side, r2: Ref, s2: Side, outer: Row) returns (cross: Rel)
    requires r1.Join? && r2.Join? && Single(outer)
    requires Remembers(s1.w.ops) && Remembers(s2.w.ops)
    requires EvalRef(r1, s1.w, s1.env, outer) == EvalRef(r2, s2.w, s2.env, outer)
    ensures IsOne(cross)
    ensures EvalRef(r1.left, s1.w, s1.env, outer) == EvalRef(r2.left, s2.w, s2.env, outer)
    ensures EvalRef(r1.right, s1.w, s1.env, outer) == EvalRef(r2.right, s2.w, s2.env, outer)
    ensures SameExprs(r1.condition, s1, r2.condition, s2, cross)
  {
    var a1, a2 := EvalRef(r1.left, s1.w, s1.env, outer), EvalRef(r2.left, s2.w, s2.env, outer);
    var b1, b2 := EvalRef(r1.right, s1.w, s1.env, outer), EvalRef(r2.right, s2.w, s2.env, outer);
    var x1, x2 := One("cross", [a1, b1], []), One("cross", [a2, b2], []);
    WidenOne(outer, x1);
    WidenOne(outer, x2);
    var c1, c2 := EvalExprs(r1.condition, s1.w, s1.env, x1), EvalExprs(r2.condition, s2.w, s2.env, x2);
    OneListInverse("join", [a1, b1], c1, "join", [a2, b2], c2);
    assert [a1, b1][0] == [a2, b2][0] && [a1, b1][1] == [a2, b2][1];
    cross := x1;
  }

  /** Queries with equal results have equal CTE definitions and equal bodies. */
  lemma QueryParts(q1: Query, s1: Side, q2: Query, s2: Side, outer: Row)
    requires !q1.OtherQuery? && !q2.OtherQuery? && |q1.ctes| == |q2.ctes|
    requires Remembers(s1.w.ops) && Remembers(s2.w.ops)
    requires EvalQuery(q1, s1.w, s1.env, outer) == EvalQuery(q2, s2.w, s2.env, outer)
    ensures EvalCtes(q1.ctes, s1.w, s1.env, outer) == EvalCtes(q2.ctes, s2.w, s2.env, outer)
    ensures var defs := EvalCtes(q1.ctes, s1.w, s1.env, outer);
      EvalBody(q1, s1.w, Bind(q1.ctes, defs, s1.env), outer) == EvalBody(q2, s2.w, Bind(q2.ctes, defs, s2.env), outer)
  {
    var d1, d2 := EvalCtes(q1.ctes, s1.w, s1.env, outer), EvalCtes(q2.ctes, s2.w, s2.env, outer);
    var b1 := EvalBody(q1, s1.w, Bind(q1.ctes, d1, s1.env), outer);
    var b2 := EvalBody(q2, s2.w, Bind(q2.ctes, d2, s2.env), outer);
    OneInverse("define", [b1] + d1, [], "define", [b2] + d2, []);
    assert ([b1] + d1)[0] == ([b2] + d2)[0] && ([b1] + d1)[1..] == d1 && ([b2] + d2)[1..] == d2;
  }

  // ---------------------------------------------------------------- a captured name shows

  ghost predicate TableCells(w: World) {
    Remembers(w.ops) && forall key :: w.tables(key) == TableCell(key)
  }

  /** None of the bare names read is a CTE of `env`. */
  ghost predicate Unseen(env: Env, sites: set<Site>) {
    forall s | s in sites && s.Read? && s.bare :: s.table.table !in env
  }

  lemma {:induction false} BindDerived(ctes: seq<Cte>, w: World, env: Env, here: Env, outer: Row)
    requires Remembers(w.ops) && Derived(env)
    ensures Derived(Bind(ctes, EvalCtes(ctes, w, here, outer), env))
    decreases ctes
  {
    if ctes != [] {
      var k, rel := Lower(ctes[0].name), EvalQuery(ctes[0].definition, w, here, outer);
      OneQuery(ctes[0].definition, w, here, outer);
      BindDerived(ctes[1..], w, env[k := rel], here[k := rel], outer);
      assert EvalCtes(ctes, w, here, outer)[1..] == EvalCtes(ctes[1..], w, here[k := rel], outer);
    }
  }

  /** If a query gives the same remembered result with and without the extra CTEs of `env1`,
      then it reads none of them. */
  lemma {:induction false} ObserveQuery(q: Query, w: World, env1: Env, env2: Env, outer: Row)
    requires TableCells(w) && Derived(env1) && Single(outer) && AgreeScope(env1, env2, env2.Keys)
    requires EvalQuery(q, w, env1, outer) == EvalQuery(q, w, env2, outer)
    ensures Unseen(env1, QuerySites(q, w.catalog, env2.Keys))
    decreases q, 1
  {
    if !q.OtherQuery? {
      var defs := EvalCtes(q.ctes, w, env1, outer);
      var in1, in2 := Bind(q.ctes, defs, env1), Bind(q.ctes, defs, env2);
      QueryParts(q, Side(w, env1), q, Side(w, env2), outer);
      ObserveCtes(q.ctes, w, env1, env2, outer);
      BindDerived(q.ctes, w, env1, env1, outer);
      BindKeys(q.ctes, defs, env2);
      ScopeAfterUnion(q.ctes, env2.Keys);
      forall n | n in in2 || n in env1 ensures n in in1 && (n in in2 ==> AgreeOn(in1, in2, n)) {
        BindAgree(q.ctes, defs, env1, env1, n);
        if n in in2 { BindAgree(q.ctes, defs, env1, env2, n); }
      }
      ObserveBody(q, w, in1, in2, outer);
    }
  }

  lemma {:induction false} ObserveBody(q: Query, w: World, env1: Env, env2: Env, outer: Row)
    requires !q.OtherQuery?
    requires TableCells(w) && Derived(env1) && Single(outer) && AgreeScope(env1, env2, env2.Keys)
    requires EvalBody(q, w, env1, outer) == EvalBody(q, w, env2, outer)
    ensures Unseen(env1, BodySites(q, w.catalog, env2.Keys))
    decreases q, 0
  {
    if q.Select? {
      var rows, kept, part := SelectParts(q, Side(w, env1), q, Side(w, env2), outer);
      ObserveRef(q.from, w, env1, env2, outer);
      ObserveExprs(q.where, w, env1, env2, rows);
      ObserveExprs(q.groups, w, env1, env2, kept);
      ObserveExprs(q.columns, w, env1, env2, part);
      ObserveExprs(q.having, w, env1, env2, part);
      ObserveExprs(q.qualify, w, env1, env2, part);
      ObserveExprs(q.modifiers, w, env1, env2, kept);
    } else {
      var rows := SetParts(q, Side(w, env1), q, Side(w, env2), outer);
      forall i | 0 <= i < |q.children| ensures Unseen(env1, QuerySites(q.children[i], w.catalog, env2.Keys)) {
        assert EvalQueries(q.children, w, env1, outer)[i] == EvalQueries(q.children, w, env2, outer)[i];
        ObserveQuery(q.children[i], w, env1, env2, outer);
      }
      ObserveExprs(q.modifiers, w, env1, env2, rows);
    }
  }

  lemma {:induction false} ObserveCtes(ctes: seq<Cte>, w: World, env1: Env, env2: Env, outer: Row)
    requires TableCells(w) && Derived(env1) && Single(outer) && AgreeScope(env1, env2, env2.Keys)
    requires EvalCtes(ctes, w, env1, outer) == EvalCtes(ctes, w, env2, outer)
    ensures Unseen(env1, CteSites(ctes, w.catalog, env2.Keys))
    decreases ctes
  {
    if ctes != [] {
      var k, rel := Lower(ctes[0].name), EvalQuery(ctes[0].definition, w, env1, outer);
      assert EvalCtes(ctes, w, env1, outer)[0] == EvalCtes(ctes, w, env2, outer)[0];
      ObserveQuery(ctes[0].definition, w, env1, env2, outer);
      OneQuery(ctes[0].definition, w, env1, outer);
      assert EvalCtes(ctes, w, env1, outer)[1..] == EvalCtes(ctes, w, env2, outer)[1..];
      assert env2[k := rel].Keys == env2.Keys + {k};
      ObserveCtes(ctes[1..], w, env1[k := rel], env2[k := rel], outer);
    }
  }

  lemma {:induction false} ObserveRef(r: Ref, w: World, env1: Env, env2: Env, outer: Row)
    requires TableCells(w) && Derived(env1) && Single(outer) && AgreeScope(env1, env2, env2.Keys)
    requires EvalRef(r, w, env1, outer) == EvalRef(r, w, env2, outer)
    ensures Unseen(env1, RefSites(r, w.catalog, env2.Keys))
    decreases r, 1
  {
    match r
    case Base(_, _) => ObserveBase(r, w, env1, env2, outer);
    case Subquery(_, _) => ObserveSubquery(r, w, env1, env2, outer);
    case Join(_, _, _, _) => ObserveJoin(r, w, env1, env2, outer);
    case ExpressionList(_, _) => ObserveValues(r, w, env1, env2, outer);
    case Secure(_, _, _, _) =>
      ObserveSecure(r, w, env1, env2, outer);
      UnseenSecure(r, w.catalog, env1, env2.Keys);
    case EmptyFrom => case TableFunction => case OtherRef =>
  }

  lemma UnseenSecure(r: Ref, catalog: string, env: Env, scope: set<string>)
    requires r.Secure?
    requires Unseen(env, ExprsSites(r.rowFilter, catalog, scope)) && Unseen(env, MaskSites(r.masks, catalog, scope))
    ensures Unseen(env, RefSites(r, catalog, scope))
  {
    forall s | s in RefSites(r, catalog, scope) && s.Read? && s.bare ensures s.table.table !in env {
      if t :| t in ExprsSites(r.rowFilter, catalog, scope) && s == Inside(t) {
      } else {
        var t :| t in MaskSites(r.masks, catalog, scope) && s == Inside(t);
      }
    }
  }

  lemma {:induction false} ObserveSubquery(r: Ref, w: World, env1: Env, env2: Env, outer: Row)
    requires r.Subquery?
    requires TableCells(w) && Derived(env1) && Single(outer) && AgreeScope(env1, env2, env2.Keys)
    requires EvalRef(r, w, env1, outer) == EvalRef(r, w, env2, outer)
    ensures Unseen(env1, RefSites(r, w.catalog, env2.Keys))
    decreases r, 0
  {
    OneInverse("scan", [EvalQuery(r.query, w, env1, outer)], [], "scan", [EvalQuery(r.query, w, env2, outer)], []);
    ObserveQuery(r.query, w, env1, env2, outer);
  }

  lemma {:induction false} ObserveValues(r: Ref, w: World, env1: Env, env2: Env, outer: Row)
    requires r.ExpressionList?
    requires TableCells(w) && Derived(env1) && Single(outer) && AgreeScope(env1, env2, env2.Keys)
    requires EvalRef(r, w, env1, outer) == EvalRef(r, w, env2, outer)
    ensures Unseen(env1, RefSites(r, w.catalog, env2.Keys))
    decreases r, 0
  {
    OneListInverse("values", [], EvalExprs(r.values, w, env1, [outer]), "values", [], EvalExprs(r.values, w, env2, [outer]));
    ObserveExprs(r.values, w, env1, env2, [outer]);
  }

  lemma ObserveBase(r: Ref, w: World, env1: Env, env2: Env, outer: Row)
    requires r.Base?
    requires TableCells(w) && Derived(env1) && AgreeScope(env1, env2, env2.Keys)
    requires EvalRef(r, w, env1, outer) == EvalRef(r, w, env2, outer)
    ensures Unseen(env1, RefSites(r, w.catalog, env2.Keys))
  {
    OneInverse("scan", [Resolve(r.name, w, env1)], [], "scan", [Resolve(r.name, w, env2)], []);
  }

  lemma {:induction false} ObserveJoin(r: Ref, w: World, env1: Env, env2: Env, outer: Row)
    requires r.Join?
    requires TableCells(w) && Derived(env1) && Single(outer) && AgreeScope(env1, env2, env2.Keys)
    requires EvalRef(r, w, env1, outer) == EvalRef(r, w, env2, outer)
    ensures Unseen(env1, RefSites(r, w.catalog, env2.Keys))
    decreases r, 0
  {
    var cross := JoinParts(r, Side(w, env1), r, Side(w, env2), outer);
    ObserveRef(r.left, w, env1, env2, outer);
    ObserveRef(r.right, w, env1, env2, outer);
    ObserveExprs(r.condition, w, env1, env2, cross);
  }

  /** The policy expressions of a secure subquery. */
  lemma {:induction false} ObserveSecure(r: Ref, w: World, env1: Env, env2: Env, outer: Row)
    requires r.Secure?
    requires TableCells(w) && Derived(env1) && AgreeScope(env1, env2, env2.Keys)
    requires EvalRef(r, w, env1, outer) == EvalRef(r, w, env2, outer)
    ensures Unseen(env1, ExprsSites(r.rowFilter, w.catalog, env2.Keys))
    ensures Unseen(env1, MaskSites(r.masks, w.catalog, env2.Keys))
    decreases r, 0
  {
    var raw := w.tables(Key(IdentityFromName(r.table, w.catalog)));
    var f1, f2 := EvalExprs(r.rowFilter, w, env1, raw), EvalExprs(r.rowFilter, w, env2, raw);
    var k1, k2 := One("filter", [raw], [[f1]]), One("filter", [raw], [[f2]]);
    var x1, x2 := EvalMasks(r.masks, w, env1, k1), EvalMasks(r.masks, w, env2, k2);
    var m1, m2 := One("mask", [k1], [[x1]]), One("mask", [k2], [[x2]]);
    OneInverse("scan", [m1], [], "scan", [m2], []);
    OneListInverse("mask", [k1], x1, "mask", [k2], x2);
    OneListInverse("filter", [raw], f1, "filter", [raw], f2);
    ObserveExprs(r.rowFilter, w, env1, env2, raw);
    forall i | 0 <= i < |r.masks| ensures Unseen(env1, ExprSites(r.masks[i].expression, w.catalog, env2.Keys)) {
      assert x1[i] == x2[i];
      ObserveExpr(r.masks[i].expression, w, env1, env2, k1);
    }
  }

  lemma {:induction false} ObserveExprs(es: seq<Expr>, w: World, env1: Env, env2: Env, rows: Rel)
    requires TableCells(w) && Derived(env1) && AgreeScope(env1, env2, env2.Keys)
    requires |rows| == 1 && Single(rows[0])
    requires EvalExprs(es, w, env1, rows) == EvalExprs(es, w, env2, rows)
    ensures Unseen(env1, ExprsSites(es, w.catalog, env2.Keys))
    decreases es, 0
  {
    forall i | 0 <= i < |es| ensures Unseen(env1, ExprSites(es[i], w.catalog, env2.Keys)) {
      assert EvalExprs(es, w, env1, rows)[i] == EvalExprs(es, w, env2, rows)[i];
      ObserveExpr(es[i], w, env1, env2, rows);
    }
  }

  lemma {:induction false} ObserveExpr(e: Expr, w: World, env1: Env, env2: Env, rows: Rel)
    requires TableCells(w) && Derived(env1) && AgreeScope(env1, env2, env2.Keys)
    requires |rows| == 1 && Single(rows[0])
    requires EvalExpr(e, w, env1, rows) == EvalExpr(e, w, env2, rows)
    ensures Unseen(env1, ExprSites(e, w.catalog, env2.Keys))
    decreases e
  {
    var v1, v2 := EvalExpr(e, w, env1, rows)[0], EvalExpr(e, w, env2, rows)[0];
    var c1, c2 := EvalExprs(e.operands, w, env1, rows), EvalExprs(e.operands, w, env2, rows);
    assert v1.lists == [[c1]] && v2.lists == [[c2]];
    assert [[c1]][0][0] == [[c2]][0][0];
    ObserveExprs(e.operands, w, env1, env2, rows);
    if e.SubqueryExpr? {
      assert EvalNested(e.query, w, env1, rows) == EvalNested(e.query, w, env2, rows);
      assert EvalNested(e.query, w, env1, rows)[0] == EvalNested(e.query, w, env2, rows)[0];
      ObserveQuery(e.query, w, env1, env2, rows[0]);
    }
  }

  // ---------------------------------------------------------------- the condition is necessary

  lemma {:induction false} CompleteQuery(q: Query, ctx: Context, w: World, env: Env, outer: Row)
    requires TableCells(w) && ctx.catalog == w.catalog && Derived(env) && Single(outer)
    requires Plain(QuerySites(q, w.catalog, env.Keys))
    requires EvalQuery(ImageQuery(q, ctx, env.Keys), w, env, outer) == EvalQuery(q, Secured(w, ctx), env, outer)
    ensures NoCapture(ctx, QuerySites(q, w.catalog, env.Keys))
    decreases q, 1
  {
    if !q.OtherQuery? {
      var sw := Secured(w, ctx);
      var image := ImageCtes(q.ctes, ctx, env.Keys);
      var defs := EvalCtes(image, w, env, outer);
      QueryParts(ImageQuery(q, ctx, env.Keys), Side(w, env), q, Side(sw, env), outer);
      CompleteCtes(q.ctes, ctx, w, env, outer);
      BindImage(q.ctes, ctx, env.Keys, defs, env);
      BindKeys(q.ctes, defs, env);
      BindDerived(q.ctes, sw, env, env, outer);
      CompleteBody(q, image, ctx, w, Bind(q.ctes, defs, env), outer);
    }
  }

  lemma {:induction false} CompleteBody(q: Query, ctes: seq<Cte>, ctx: Context, w: World, env: Env, outer: Row)
    requires !q.OtherQuery?
    requires TableCells(w) && ctx.catalog == w.catalog && Derived(env) && Single(outer)
    requires Plain(BodySites(q, w.catalog, env.Keys))
    requires EvalBody(ImageBody(q, ctes, ctx, env.Keys), w, env, outer) == EvalBody(q, Secured(w, ctx), env, outer)
    ensures NoCapture(ctx, BodySites(q, w.catalog, env.Keys))
    decreases q, 0
  {
    var sw := Secured(w, ctx);
    var image := ImageBody(q, ctes, ctx, env.Keys);
    if q.Select? {
      var rows, kept, part := SelectParts(image, Side(w, env), q, Side(sw, env), outer);
      CompleteRef(q.from, ctx, w, env, outer);
      CompleteExprs(q.where, ctx, w, env, rows);
      CompleteExprs(q.groups, ctx, w, env, kept);
      CompleteExprs(q.columns, ctx, w, env, part);
      CompleteExprs(q.having, ctx, w, env, part);
      CompleteExprs(q.qualify, ctx, w, env, part);
      CompleteExprs(q.modifiers, ctx, w, env, kept);
    } else {
      var rows := SetParts(image, Side(w, env), q, Side(sw, env), outer);
      forall i | 0 <= i < |q.children| ensures NoCapture(ctx, QuerySites(q.children[i], w.catalog, env.Keys)) {
        assert EvalQueries(image.children, w, env, outer)[i] == EvalQueries(q.children, sw, env, outer)[i];
        CompleteQuery(q.children[i], ctx, w, env, outer);
      }
      CompleteExprs(q.modifiers, ctx, w, env, rows);
    }
  }

  lemma {:induction false} CompleteCtes(ctes: seq<Cte>, ctx: Context, w: World, env: Env, outer: Row)
    requires TableCells(w) && ctx.catalog == w.catalog && Derived(env) && Single(outer)
    requires Plain(CteSites(ctes, w.catalog, env.Keys))
    requires EvalCtes(ImageCtes(ctes, ctx, env.Keys), w, env, outer) == EvalCtes(ctes, Secured(w, ctx), env, outer)
    ensures NoCapture(ctx, CteSites(ctes, w.catalog, env.Keys))
    decreases ctes
  {
    if ctes != [] {
      var sw := Secured(w, ctx);
      var image := ImageCtes(ctes, ctx, env.Keys);
      var k, rel := Lower(ctes[0].name), EvalQuery(ctes[0].definition, sw, env, outer);
      var next := env[k := rel];
      assert EvalCtes(image, w, env, outer)[0] == EvalCtes(ctes, sw, env, outer)[0];
      assert EvalCtes(image, w, env, outer)[1..] == EvalCtes(ctes, sw, env, outer)[1..];
      assert next.Keys == env.Keys + {k} && image[1..] == ImageCtes(ctes[1..], ctx, next.Keys);
      CompleteQuery(ctes[0].definition, ctx, w, env, outer);
      OneQuery(ctes[0].definition, sw, env, outer);
      CompleteCtes(ctes[1..], ctx, w, next, outer);
    }
  }

  /** One protected reference: equal results mean that no CTE captures its policies. */
  lemma CompleteBase(name: QualifiedName, alias: string, ctx: Context, w: World, env: Env, outer: Row)
    requires TableCells(w) && ctx.catalog == w.catalog && Derived(env)
    requires EvalRef(SecureRef(ctx, name, alias), w, env, outer)
          == w.ops.scan(EffectiveAlias(name, alias), SecuredRows(w, ctx, Key(IdentityFromName(name, ctx.catalog))))
    ensures CaptureFree(ctx, Key(IdentityFromName(name, ctx.catalog)), env.Keys)
  {
    KeyPolicies(ctx, IdentityFromName(name, ctx.catalog));
    var none: Env := map[];
    assert none.Keys == {};
    SecureRefIsSecuredTable(name, alias, ctx, w, none, outer);
    ObserveSecure(SecureRef(ctx, name, alias), w, env, none, outer);
  }

  lemma {:induction false} CompleteRef(r: Ref, ctx: Context, w: World, env: Env, outer: Row)
    requires TableCells(w) && ctx.catalog == w.catalog && Derived(env) && Single(outer)
    requires Plain(RefSites(r, w.catalog, env.Keys))
    requires EvalRef(ImageRef(r, ctx, env.Keys), w, env, outer) == EvalRef(r, Secured(w, ctx), env, outer)
    ensures NoCapture(ctx, RefSites(r, w.catalog, env.Keys))
    decreases r, 1
  {
    var sw, image := Secured(w, ctx), ImageRef(r, ctx, env.Keys);
    match r
    case Base(name, alias) =>
      var id := IdentityFromName(name, ctx.catalog);
      KeyPolicies(ctx, id);
      if !Shadowed(name, env.Keys) && Protected(ctx, id) {
        CompleteBase(name, alias, ctx, w, env, outer);
      }
    case Subquery(query, _) =>
      OneInverse("scan", [EvalQuery(image.query, w, env, outer)], [], "scan", [EvalQuery(query, sw, env, outer)], []);
      CompleteQuery(query, ctx, w, env, outer);
    case Join(_, _, _, _) => CompleteJoin(r, ctx, w, env, outer);
    case ExpressionList(values, _) =>
      OneListInverse("values", [], EvalExprs(image.values, w, env, [outer]), "values", [], EvalExprs(values, sw, env, [outer]));
      CompleteExprs(values, ctx, w, env, [outer]);
    case Secure(_, _, _, _) =>
      assert false;
    case _ =>
  }

  lemma {:induction false} CompleteJoin(r: Ref, ctx: Context, w: World, env: Env, outer: Row)
    requires r.Join?
    requires TableCells(w) && ctx.catalog == w.catalog && Derived(env) && Single(outer)
    requires Plain(RefSites(r, w.catalog, env.Keys))
    requires EvalRef(ImageRef(r, ctx, env.Keys), w, env, outer) == EvalRef(r, Secured(w, ctx), env, outer)
    ensures NoCapture(ctx, RefSites(r, w.catalog, env.Keys))
    decreases r, 0
  {
    var cross := JoinParts(ImageRef(r, ctx, env.Keys), Side(w, env), r, Side(Secured(w, ctx), env), outer);
    CompleteRef(r.left, ctx, w, env, outer);
    CompleteRef(r.right, ctx, w, env, outer);
    CompleteExprs(r.condition, ctx, w, env, cross);
  }

  lemma {:induction false} CompleteExprs(es: seq<Expr>, ctx: Context, w: World, env: Env, rows: Rel)
    requires TableCells(w) && ctx.catalog == w.catalog && Derived(env)
    requires |rows| == 1 && Single(rows[0])
    requires Plain(ExprsSites(es, w.catalog, env.Keys))
    requires EvalExprs(ImageExprs(es, ctx, env.Keys), w, env, rows) == EvalExprs(es, Secured(w, ctx), env, rows)
    ensures NoCapture(ctx, ExprsSites(es, w.catalog, env.Keys))
    decreases es, 0
  {
    forall i | 0 <= i < |es| ensures NoCapture(ctx, ExprSites(es[i], w.catalog, env.Keys)) {
      assert EvalExprs(ImageExprs(es, ctx, env.Keys), w, env, rows)[i] == EvalExprs(es, Secured(w, ctx), env, rows)[i];
      CompleteExpr(es[i], ctx, w, env, rows);
    }
  }

  lemma {:induction false} CompleteExpr(e: Expr, ctx: Context, w: World, env: Env, rows: Rel)
    requires TableCells(w) && ctx.catalog == w.catalog && Derived(env)
    requires |rows| == 1 && Single(rows[0])
    requires Plain(ExprSites(e, w.catalog, env.Keys))
    requires EvalExpr(ImageExpr(e, ctx, env.Keys), w, env, rows) == EvalExpr(e, Secured(w, ctx), env, rows)
    ensures NoCapture(ctx, ExprSites(e, w.catalog, env.Keys))
    decreases e
  {
    var sw, image := Secured(w, ctx), ImageExpr(e, ctx, env.Keys);
    var v1, v2 := EvalExpr(image, w, env, rows)[0], EvalExpr(e, sw, env, rows)[0];
    var c1, c2 := EvalExprs(image.operands, w, env, rows), EvalExprs(e.operands, sw, env, rows);
    assert v1.lists == [[c1]] && v2.lists == [[c2]];
    assert [[c1]][0][0] == [[c2]][0][0];
    CompleteExprs(e.operands, ctx, w, env, rows);
    if e.SubqueryExpr? {
      assert EvalNested(image.query, w, env, rows) == EvalNested(e.query, sw, env, rows);
      assert EvalNested(image.query, w, env, rows)[0] == EvalNested(e.query, sw, env, rows)[0];
      CompleteQuery(e.query, ctx, w, env, rows[0]);
    }
  }

  // ---------------------------------------------------------------- the theorem

  /** Same result on the raw tables as the original has on the secured tables. */
  ghost predicate MeaningPreserved(q: Query, ctx: Context, w: World) {
    EvalQuery(ImageQuery(q, ctx, {}), w, map[], map[]) == EvalQuery(q, Secured(w, ctx), map[], map[])
  }

  /** Such operators exist. */
  lemma RememberingWorld(catalog: string) returns (w: World)
    ensures TableCells(w) && w.catalog == catalog
  {
    var ops := Ops(KeepApply, KeepNest, KeepScan, KeepFilter, KeepMask, KeepGroup, KeepProject, KeepFinish,
                   KeepCombine, KeepCross, KeepJoin, KeepValues, KeepDefine);
    assert Remembers(ops);
    w := World(ops, TableCell, catalog);
  }

  /** For every parsed query and every set of bindings: the rewrite preserves meaning under all
      operators and all tables exactly when no CTE in scope at a protected reference has the name of
      something that table's policies read. */
  lemma {:induction false} RewritePreservesMeaningIffNoCapture(q: Query, ctx: Context)
    requires Plain(QuerySites(q, ctx.catalog, {}))
    ensures (forall w: World | w.catalog == ctx.catalog :: MeaningPreserved(q, ctx, w))
        <==> NoCapture(ctx, QuerySites(q, ctx.catalog, {}))
  {
    var none: Env := map[];
    assert none.Keys == {};
    if NoCapture(ctx, QuerySites(q, ctx.catalog, {})) {
      forall w: World | w.catalog == ctx.catalog ensures MeaningPreserved(q, ctx, w) {
        SoundQuery(q, ctx, w, none, map[]);
      }
    }
    if forall w: World | w.catalog == ctx.catalog :: MeaningPreserved(q, ctx, w) {
      var w := RememberingWorld(ctx.catalog);
      assert MeaningPreserved(q, ctx, w);
      PreservedByTagged(q, ctx, w);
    }
  }

  lemma {:induction false} PreservedByTagged(q: Query, ctx: Context, w: World)
    requires TableCells(w) && w.catalog == ctx.catalog
    requires Plain(QuerySites(q, ctx.catalog, {})) && MeaningPreserved(q, ctx, w)
    ensures NoCapture(ctx, QuerySites(q, ctx.catalog, {}))
  {
    var none: Env := map[];
    assert none.Keys == {};
    CompleteQuery(q, ctx, w, none, map[]);
  }

  // ---------------------------------------------------------------- an instance

  function SelectFrom(ctes: seq<Cte>, name: string): Query {
    Select(ctes, Base(QualifiedName("", "", name), ""), [], [], [], [], [], [], "")
  }

  /** `orders` has a row policy that looks its rows up in `allowed`. */
  function LookupPolicy(): Expr {
    SubqueryExpr("IN", SelectFrom([], "allowed"), [])
  }

  function LookupContext(): Context {
    Context([RowBinding(Some(TableIdentity("db", "main", "orders")), Found(LookupPolicy()))], [], true, "db",
            id => NotAView, name => false)
  }

  /** `WITH allowed AS (SELECT .. FROM mine) SELECT .. FROM orders`: the handler's own `allowed` replaces the
      table that the policy meant. */
  lemma CaptureChangesMeaning()
    ensures exists w: World :: !MeaningPreserved(SelectFrom([Cte("allowed", SelectFrom([], "mine"))], "orders"), LookupContext(), w)
  {
    var ctx, ctes := LookupContext(), [Cte("allowed", SelectFrom([], "mine"))];
    var q := SelectFrom(ctes, "orders");
    var orders, allowed := TableIdentity("db", "main", "orders"), TableIdentity("db", "main", "allowed");
    LowerFixed();
    var scope := ScopeAfter(ctes, {});
    assert Lower(ctes[0].name) == "allowed" && scope == {"allowed"};
    assert QuerySites(q, "db", {}) == CteSites(ctes, "db", {}) + BodySites(q, "db", scope);
    assert RefSites(q.from, "db", scope) == {Read(orders, true, scope, false)};
    assert Read(orders, true, scope, false) in QuerySites(q, "db", {});
    SitesOfSelectFrom("mine", "db");
    assert ctes[1..] == [];
    assert CteSites(ctes, "db", {}) == QuerySites(ctes[0].definition, "db", {});
    assert Plain(QuerySites(q, "db", {}));
    assert SameTable(orders, ctx.rows[0].table.value) && Protected(ctx, orders);
    assert RowFilter(ctx, orders) == [LookupPolicy()];
    SitesOfSelectFrom("allowed", "db");
    assert ScopeAfter([], {}) == {};
    var policy := Read(allowed, true, {}, false);
    assert policy in QuerySites(SelectFrom([], "allowed"), "db", {});
    assert policy in ExprSites(LookupPolicy(), "db", {});
    assert policy in ExprsSites([LookupPolicy()], "db", {}) by { assert [LookupPolicy()][0] == LookupPolicy(); }
    assert policy in PolicySites(ctx, orders);
    assert !CaptureFree(ctx, orders, scope);
    RewritePreservesMeaningIffNoCapture(q, ctx);
  }

  lemma LowerFixed()
    ensures Lower("allowed") == "allowed" && Lower("orders") == "orders" && Lower("mine") == "mine"
    ensures Lower("db") == "db" && Lower("main") == "main"
  {
  }

  lemma SitesOfSelectFrom(name: string, catalog: string)
    ensures QuerySites(SelectFrom([], name), catalog, {})
         == {Read(Key(TableIdentity(catalog, "main", name)), true, {}, false)}
  {
    var q := SelectFrom([], name);
    assert ScopeAfter([], {}) == {};
    assert CteSites([], catalog, {}) == {} && ExprsSites([], catalog, {}) == {};
    assert BodySites(q, catalog, {}) == RefSites(q.from, catalog, {});
  }
}
