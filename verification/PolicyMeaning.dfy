/** The rewritten query on the raw tables means what the original query means on the secured tables. */
module PolicyMeaning {
  import opened Identifiers
  import opened PolicySyntax
  import opened PolicySemantics
  import opened PolicyRewriter

  /** The table a reader is meant to see: the rows that the first matching row policy keeps, with the
      masked columns replaced. The policies read the raw tables, and no CTE. */
  function SecuredRows(w: World, ctx: Context, key: TableIdentity): Rel {
    var raw := w.tables(key);
    var kept := w.ops.filter(raw, EvalExprs(RowFilter(ctx, key), w, map[], raw));
    var masks := MasksOf(ctx.masks, key);
    w.ops.mask(kept, MaskedColumns(masks), EvalMasks(masks, w, map[], kept))
  }

  function Secured(w: World, ctx: Context): World {
    w.(tables := key => if Protected(ctx, key) then SecuredRows(w, ctx, key) else w.tables(key))
  }

  /** What the policies of a table read themselves. */
  ghost function PolicySites(ctx: Context, key: TableIdentity): set<Site> {
    ExprsSites(RowFilter(ctx, key), ctx.catalog, {})
    + MaskSites(MasksOf(ctx.masks, key), ctx.catalog, {})
  }

  /** No policy of the table reads, by a bare name, something that a CTE in scope is called. */
  ghost predicate CaptureFree(ctx: Context, key: TableIdentity, scope: set<string>) {
    forall s | s in PolicySites(ctx, key) && s.Read? && s.bare :: s.table.table !in scope
  }

  /** The query is as parsed, with no secure subquery in it yet. */
  ghost predicate Plain(sites: set<Site>) {
    forall s | s in sites && s.Read? :: !s.inside
  }

  ghost predicate NoCapture(ctx: Context, sites: set<Site>) {
    forall s | s in sites && s.Read? && Protected(ctx, s.table) :: CaptureFree(ctx, s.table, s.scope)
  }

  ghost predicate Clean(ctx: Context, sites: set<Site>) {
    Plain(sites) && NoCapture(ctx, sites)
  }

  // ---------------------------------------------------------------- identities and keys

  lemma KeyNamesSameTable(id: TableIdentity, other: TableIdentity)
    ensures SameTable(Key(id), other) == SameTable(id, other)
  {
    LowerIdempotent(id.catalog);
    LowerIdempotent(id.schema);
    LowerIdempotent(id.table);
  }

  lemma {:induction false} KeyFirstRow(bindings: seq<RowBinding>, id: TableIdentity)
    ensures FirstRow(bindings, Key(id)) == FirstRow(bindings, id)
  {
    if bindings != [] {
      if bindings[0].table.Some? { KeyNamesSameTable(id, bindings[0].table.value); }
      KeyFirstRow(bindings[1..], id);
    }
  }

  lemma {:induction false} KeyMasksOf(bindings: seq<MaskBinding>, id: TableIdentity)
    ensures MasksOf(bindings, Key(id)) == MasksOf(bindings, id)
  {
    if bindings != [] {
      if bindings[0].table.Some? { KeyNamesSameTable(id, bindings[0].table.value); }
      KeyMasksOf(bindings[1..], id);
    }
  }

  /** Whether a table is protected, and by what, depends on its canonical key alone. */
  lemma KeyPolicies(ctx: Context, id: TableIdentity)
    ensures Protected(ctx, Key(id)) == Protected(ctx, id)
    ensures RowFilter(ctx, Key(id)) == RowFilter(ctx, id)
    ensures MasksOf(ctx.masks, Key(id)) == MasksOf(ctx.masks, id)
  {
    forall other: TableIdentity { KeyNamesSameTable(id, other); }
    KeyFirstRow(ctx.rows, id);
    KeyMasksOf(ctx.masks, id);
  }

  // ---------------------------------------------------------------- environments

  ghost predicate AgreeOn(env1: Env, env2: Env, n: string) {
    (n in env1 <==> n in env2) && (n in env1 ==> env1[n] == env2[n])
  }

  /** The environments give the same relation to every bare name read at one of the sites. */
  ghost predicate Agree(env1: Env, env2: Env, sites: set<Site>) {
    forall s | s in sites && s.Read? && s.bare :: AgreeOn(env1, env2, s.table.table)
  }

  ghost predicate AgreeScope(env1: Env, env2: Env, scope: set<string>) {
    forall n | n in scope :: n in env1 && AgreeOn(env1, env2, n)
  }

  lemma {:induction false} BindAgree(ctes: seq<Cte>, defs: seq<Rel>, env1: Env, env2: Env, n: string)
    requires |ctes| == |defs|
    requires AgreeOn(env1, env2, n) || n in ScopeAfter(ctes, {})
    ensures AgreeOn(Bind(ctes, defs, env1), Bind(ctes, defs, env2), n)
    ensures n in ScopeAfter(ctes, {}) ==> n in Bind(ctes, defs, env1)
    ensures n in env1 ==> n in Bind(ctes, defs, env1)
    ensures n in Bind(ctes, defs, env1) ==> n in env1 || n in ScopeAfter(ctes, {})
  {
    if ctes != [] {
      ScopeAfterStep(ctes, {});
      ScopeAfterUnion(ctes[1..], {Lower(ctes[0].name)});
      var k := Lower(ctes[0].name);
      BindAgree(ctes[1..], defs[1..], env1[k := defs[0]], env2[k := defs[0]], n);
    }
  }

  lemma ScopeAfterStep(ctes: seq<Cte>, scope: set<string>)
    requires ctes != []
    ensures ScopeAfter(ctes, scope) == ScopeAfter(ctes[1..], scope + {Lower(ctes[0].name)})
  {
    var one, two := ScopeAfter(ctes, scope), ScopeAfter(ctes[1..], scope + {Lower(ctes[0].name)});
    forall n | n in one ensures n in two {
      if n !in scope {
        var i :| 0 <= i < |ctes| && n == Lower(ctes[i].name);
        if i > 0 { assert ctes[1..][i - 1] == ctes[i]; }
      }
    }
    forall n | n in two ensures n in one {
      if n !in scope && n != Lower(ctes[0].name) {
        var i :| 0 <= i < |ctes[1..]| && n == Lower(ctes[1..][i].name);
        assert ctes[i + 1] == ctes[1..][i];
      }
    }
  }

  lemma ScopeAfterUnion(ctes: seq<Cte>, scope: set<string>)
    ensures ScopeAfter(ctes, scope) == scope + ScopeAfter(ctes, {})
  {
  }

  lemma BindKeys(ctes: seq<Cte>, defs: seq<Rel>, env: Env)
    requires |ctes| == |defs|
    ensures Bind(ctes, defs, env).Keys == ScopeAfter(ctes, env.Keys)
  {
    ScopeAfterUnion(ctes, env.Keys);
    forall n ensures n in Bind(ctes, defs, env) <==> n in ScopeAfter(ctes, env.Keys) {
      BindAgree(ctes, defs, env, env, n);
    }
  }

  // ---------------------------------------------------------------- only the names read matter

  lemma {:induction false} AgreeQuery(q: Query, w: World, env1: Env, env2: Env, scope: set<string>, outer: Row)
    requires AgreeScope(env1, env2, scope)
    requires Agree(env1, env2, QuerySites(q, w.catalog, scope))
    ensures EvalQuery(q, w, env1, outer) == EvalQuery(q, w, env2, outer)
    decreases q, 1
  {
    if !q.OtherQuery? {
      AgreeCtes(q.ctes, w, env1, env2, scope, outer);
      var defs := EvalCtes(q.ctes, w, env1, outer);
      var in1, in2 := Bind(q.ctes, defs, env1), Bind(q.ctes, defs, env2);
      var inner := ScopeAfter(q.ctes, scope);
      ScopeAfterUnion(q.ctes, scope);
      forall n | AgreeOn(env1, env2, n) || n in inner ensures AgreeOn(in1, in2, n) && (n in inner ==> n in in1) {
        BindAgree(q.ctes, defs, env1, env2, n);
      }
      AgreeBody(q, w, in1, in2, inner, outer);
    }
  }

  lemma {:induction false} AgreeBody(q: Query, w: World, env1: Env, env2: Env, scope: set<string>, outer: Row)
    requires !q.OtherQuery?
    requires AgreeScope(env1, env2, scope)
    requires Agree(env1, env2, BodySites(q, w.catalog, scope))
    ensures EvalBody(q, w, env1, outer) == EvalBody(q, w, env2, outer)
    decreases q, 0
  {
    if q.Select? {
      AgreeRef(q.from, w, env1, env2, scope, outer);
      var rows := Widen(outer, EvalRef(q.from, w, env1, outer));
      AgreeExprs(q.where, w, env1, env2, scope, rows);
      var kept := w.ops.filter(rows, EvalExprs(q.where, w, env1, rows));
      AgreeExprs(q.groups, w, env1, env2, scope, kept);
      var parts := w.ops.group(kept, EvalExprs(q.groups, w, env1, kept));
      AgreeParts(q.columns, w, env1, env2, scope, parts);
      AgreeParts(q.having, w, env1, env2, scope, parts);
      AgreeParts(q.qualify, w, env1, env2, scope, parts);
      var out := w.ops.project(q.shape, parts, EvalParts(q.columns, w, env1, parts),
                               EvalParts(q.having, w, env1, parts), EvalParts(q.qualify, w, env1, parts));
      AgreeExprs(q.modifiers, w, env1, env2, scope, kept);
      AgreeExprs(q.modifiers, w, env1, env2, scope, out);
    } else {
      forall i | 0 <= i < |q.children|
        ensures EvalQuery(q.children[i], w, env1, outer) == EvalQuery(q.children[i], w, env2, outer)
      {
        AgreeQuery(q.children[i], w, env1, env2, scope, outer);
      }
      assert EvalQueries(q.children, w, env1, outer) == EvalQueries(q.children, w, env2, outer);
      AgreeExprs(q.modifiers, w, env1, env2, scope, w.ops.combine(q.shape, EvalQueries(q.children, w, env1, outer)));
    }
  }

  lemma {:induction false} AgreeParts(es: seq<Expr>, w: World, env1: Env, env2: Env, scope: set<string>, parts: seq<Rel>)
    requires AgreeScope(env1, env2, scope)
    requires Agree(env1, env2, ExprsSites(es, w.catalog, scope))
    ensures EvalParts(es, w, env1, parts) == EvalParts(es, w, env2, parts)
    decreases es, 1
  {
    forall i | 0 <= i < |parts| ensures EvalExprs(es, w, env1, parts[i]) == EvalExprs(es, w, env2, parts[i]) {
      AgreeExprs(es, w, env1, env2, scope, parts[i]);
    }
  }

  lemma {:induction false} AgreeCtes(ctes: seq<Cte>, w: World, env1: Env, env2: Env, scope: set<string>, outer: Row)
    requires AgreeScope(env1, env2, scope)
    requires Agree(env1, env2, CteSites(ctes, w.catalog, scope))
    ensures EvalCtes(ctes, w, env1, outer) == EvalCtes(ctes, w, env2, outer)
    decreases ctes
  {
    if ctes != [] {
      var k := Lower(ctes[0].name);
      AgreeQuery(ctes[0].definition, w, env1, env2, scope, outer);
      var rel := EvalQuery(ctes[0].definition, w, env1, outer);
      AgreeCtes(ctes[1..], w, env1[k := rel], env2[k := rel], scope + {k}, outer);
    }
  }

  lemma {:induction false} AgreeRef(r: Ref, w: World, env1: Env, env2: Env, scope: set<string>, outer: Row)
    requires AgreeScope(env1, env2, scope)
    requires Agree(env1, env2, RefSites(r, w.catalog, scope))
    ensures EvalRef(r, w, env1, outer) == EvalRef(r, w, env2, outer)
    decreases r
  {
    match r
    case Base(name, _) =>
      if !Shadowed(name, scope) {
        var s := Read(Key(IdentityFromName(name, w.catalog)), Bare(name), scope, false);
        assert s in RefSites(r, w.catalog, scope);
      }
    case Subquery(query, _) => AgreeQuery(query, w, env1, env2, scope, outer);
    case Join(left, right, condition, _) =>
      AgreeRef(left, w, env1, env2, scope, outer);
      AgreeRef(right, w, env1, env2, scope, outer);
      var l, r := EvalRef(left, w, env1, outer), EvalRef(right, w, env1, outer);
      AgreeExprs(condition, w, env1, env2, scope, Widen(outer, w.ops.cross(l, r)));
    case ExpressionList(values, _) => AgreeExprs(values, w, env1, env2, scope, [outer]);
    case Secure(table, rowFilter, masks, _) =>
      forall s | s in ExprsSites(rowFilter, w.catalog, scope) && s.Read? && s.bare
        ensures AgreeOn(env1, env2, s.table.table)
      {
        assert Inside(s) in RefSites(r, w.catalog, scope);
      }
      forall s | s in MaskSites(masks, w.catalog, scope) && s.Read? && s.bare
        ensures AgreeOn(env1, env2, s.table.table)
      {
        assert Inside(s) in RefSites(r, w.catalog, scope);
      }
      var raw := w.tables(Key(IdentityFromName(table, w.catalog)));
      AgreeExprs(rowFilter, w, env1, env2, scope, raw);
      AgreeMasks(masks, w, env1, env2, scope, w.ops.filter(raw, EvalExprs(rowFilter, w, env1, raw)));
    case _ =>
  }

  lemma {:induction false} AgreeMasks(masks: seq<Mask>, w: World, env1: Env, env2: Env, scope: set<string>, rows: Rel)
    requires AgreeScope(env1, env2, scope)
    requires Agree(env1, env2, MaskSites(masks, w.catalog, scope))
    ensures EvalMasks(masks, w, env1, rows) == EvalMasks(masks, w, env2, rows)
    decreases masks
  {
    forall i | 0 <= i < |masks|
      ensures EvalExpr(masks[i].expression, w, env1, rows) == EvalExpr(masks[i].expression, w, env2, rows)
    {
      AgreeExpr(masks[i].expression, w, env1, env2, scope, rows);
    }
  }

  lemma {:induction false} AgreeExprs(es: seq<Expr>, w: World, env1: Env, env2: Env, scope: set<string>, rows: Rel)
    requires AgreeScope(env1, env2, scope)
    requires Agree(env1, env2, ExprsSites(es, w.catalog, scope))
    ensures EvalExprs(es, w, env1, rows) == EvalExprs(es, w, env2, rows)
    decreases es, 0
  {
    forall i | 0 <= i < |es| ensures EvalExpr(es[i], w, env1, rows) == EvalExpr(es[i], w, env2, rows) {
      AgreeExpr(es[i], w, env1, env2, scope, rows);
    }
  }

  lemma {:induction false} AgreeExpr(e: Expr, w: World, env1: Env, env2: Env, scope: set<string>, rows: Rel)
    requires AgreeScope(env1, env2, scope)
    requires Agree(env1, env2, ExprSites(e, w.catalog, scope))
    ensures EvalExpr(e, w, env1, rows) == EvalExpr(e, w, env2, rows)
    decreases e
  {
    AgreeExprs(e.operands, w, env1, env2, scope, rows);
    if e.SubqueryExpr? {
      forall i | 0 <= i < |rows|
        ensures EvalQuery(e.query, w, env1, rows[i]) == EvalQuery(e.query, w, env2, rows[i])
      {
        AgreeQuery(e.query, w, env1, env2, scope, rows[i]);
      }
      assert EvalNested(e.query, w, env1, rows) == EvalNested(e.query, w, env2, rows);
    }
  }

  // ---------------------------------------------------------------- the rewrite preserves meaning

  /** One protected reference: the secure subquery in scope `env` is the secured table. */
  lemma SecureRefIsSecuredTable(name: QualifiedName, alias: string, ctx: Context, w: World, env: Env, outer: Row)
    requires ctx.catalog == w.catalog
    requires CaptureFree(ctx, Key(IdentityFromName(name, ctx.catalog)), env.Keys)
    ensures EvalRef(SecureRef(ctx, name, alias), w, env, outer)
         == w.ops.scan(EffectiveAlias(name, alias), SecuredRows(w, ctx, Key(IdentityFromName(name, ctx.catalog))))
  {
    var id := IdentityFromName(name, ctx.catalog);
    KeyPolicies(ctx, id);
    assert IdentityFromName(Qualify(id), ctx.catalog) == id;
    var filters, masks := RowFilter(ctx, id), MasksOf(ctx.masks, id);
    var raw := w.tables(Key(id));
    AgreeExprs(filters, w, env, map[], {}, raw);
    AgreeMasks(masks, w, env, map[], {}, w.ops.filter(raw, EvalExprs(filters, w, env, raw)));
  }

  /** The main theorem, at any place in a query: `env` is the CTEs in scope there. */
  lemma {:induction false} SoundQuery(q: Query, ctx: Context, w: World, env: Env, outer: Row)
    requires ctx.catalog == w.catalog
    requires Clean(ctx, QuerySites(q, w.catalog, env.Keys))
    ensures EvalQuery(ImageQuery(q, ctx, env.Keys), w, env, outer) == EvalQuery(q, Secured(w, ctx), env, outer)
    decreases q, 1
  {
    if !q.OtherQuery? {
      SoundCtes(q.ctes, ctx, w, env, outer);
      var defs := EvalCtes(q.ctes, Secured(w, ctx), env, outer);
      BindImage(q.ctes, ctx, env.Keys, defs, env);
      BindKeys(q.ctes, defs, env);
      SoundBody(q, ImageCtes(q.ctes, ctx, env.Keys), ctx, w, Bind(q.ctes, defs, env), outer);
    }
  }

  /** Renaming nothing, the rewrite of a CTE list binds the same names. */
  lemma {:induction false} BindImage(ctes: seq<Cte>, ctx: Context, scope: set<string>, defs: seq<Rel>, env: Env)
    requires |ctes| == |defs|
    ensures Bind(ImageCtes(ctes, ctx, scope), defs, env) == Bind(ctes, defs, env)
    decreases ctes
  {
    if ctes != [] {
      var k := Lower(ctes[0].name);
      assert ImageCtes(ctes, ctx, scope)[1..] == ImageCtes(ctes[1..], ctx, scope + {k});
      BindImage(ctes[1..], ctx, scope + {k}, defs[1..], env[k := defs[0]]);
    }
  }

  lemma {:induction false} SoundBody(q: Query, ctes: seq<Cte>, ctx: Context, w: World, env: Env, outer: Row)
    requires !q.OtherQuery?
    requires ctx.catalog == w.catalog
    requires Clean(ctx, BodySites(q, w.catalog, env.Keys))
    ensures EvalBody(ImageBody(q, ctes, ctx, env.Keys), w, env, outer) == EvalBody(q, Secured(w, ctx), env, outer)
    decreases q, 0
  {
    var sw := Secured(w, ctx);
    if q.Select? {
      SoundRef(q.from, ctx, w, env, outer);
      var rows := Widen(outer, EvalRef(q.from, sw, env, outer));
      SoundExprs(q.where, ctx, w, env, rows);
      var kept := w.ops.filter(rows, EvalExprs(q.where, sw, env, rows));
      SoundExprs(q.groups, ctx, w, env, kept);
      var parts := w.ops.group(kept, EvalExprs(q.groups, sw, env, kept));
      SoundParts(q.columns, ctx, w, env, parts);
      SoundParts(q.having, ctx, w, env, parts);
      SoundParts(q.qualify, ctx, w, env, parts);
      var out := w.ops.project(q.shape, parts, EvalParts(q.columns, sw, env, parts),
                               EvalParts(q.having, sw, env, parts), EvalParts(q.qualify, sw, env, parts));
      SoundExprs(q.modifiers, ctx, w, env, kept);
      SoundExprs(q.modifiers, ctx, w, env, out);
    } else {
      var image := ImageQueries(q.children, ctx, env.Keys);
      forall i | 0 <= i < |q.children|
        ensures EvalQuery(image[i], w, env, outer) == EvalQuery(q.children[i], sw, env, outer)
      {
        SoundQuery(q.children[i], ctx, w, env, outer);
      }
      assert EvalQueries(image, w, env, outer) == EvalQueries(q.children, sw, env, outer);
      SoundExprs(q.modifiers, ctx, w, env, w.ops.combine(q.shape, EvalQueries(q.children, sw, env, outer)));
    }
  }

  lemma {:induction false} SoundParts(es: seq<Expr>, ctx: Context, w: World, env: Env, parts: seq<Rel>)
    requires ctx.catalog == w.catalog
    requires Clean(ctx, ExprsSites(es, w.catalog, env.Keys))
    ensures EvalParts(ImageExprs(es, ctx, env.Keys), w, env, parts) == EvalParts(es, Secured(w, ctx), env, parts)
    decreases es, 1
  {
    forall i | 0 <= i < |parts|
      ensures EvalExprs(ImageExprs(es, ctx, env.Keys), w, env, parts[i]) == EvalExprs(es, Secured(w, ctx), env, parts[i])
    {
      SoundExprs(es, ctx, w, env, parts[i]);
    }
  }

  lemma {:induction false} SoundCtes(ctes: seq<Cte>, ctx: Context, w: World, env: Env, outer: Row)
    requires ctx.catalog == w.catalog
    requires Clean(ctx, CteSites(ctes, w.catalog, env.Keys))
    ensures EvalCtes(ImageCtes(ctes, ctx, env.Keys), w, env, outer) == EvalCtes(ctes, Secured(w, ctx), env, outer)
    decreases ctes
  {
    if ctes != [] {
      var k := Lower(ctes[0].name);
      SoundQuery(ctes[0].definition, ctx, w, env, outer);
      var next := env[k := EvalQuery(ctes[0].definition, Secured(w, ctx), env, outer)];
      assert next.Keys == env.Keys + {k};
      assert ImageCtes(ctes, ctx, env.Keys)[1..] == ImageCtes(ctes[1..], ctx, next.Keys);
      SoundCtes(ctes[1..], ctx, w, next, outer);
    }
  }

  lemma {:induction false} SoundRef(r: Ref, ctx: Context, w: World, env: Env, outer: Row)
    requires ctx.catalog == w.catalog
    requires Clean(ctx, RefSites(r, w.catalog, env.Keys))
    ensures EvalRef(ImageRef(r, ctx, env.Keys), w, env, outer) == EvalRef(r, Secured(w, ctx), env, outer)
    decreases r
  {
    match r
    case Base(name, alias) =>
      if !Shadowed(name, env.Keys) {
        var id := IdentityFromName(name, ctx.catalog);
        KeyPolicies(ctx, id);
        var s := Read(Key(id), Bare(name), env.Keys, false);
        assert s in RefSites(r, w.catalog, env.Keys);
        if Protected(ctx, id) {
          SecureRefIsSecuredTable(name, alias, ctx, w, env, outer);
        }
      }
    case Subquery(query, _) => SoundQuery(query, ctx, w, env, outer);
    case Join(left, right, condition, _) =>
      SoundRef(left, ctx, w, env, outer);
      SoundRef(right, ctx, w, env, outer);
      var l, r := EvalRef(left, Secured(w, ctx), env, outer), EvalRef(right, Secured(w, ctx), env, outer);
      SoundExprs(condition, ctx, w, env, Widen(outer, w.ops.cross(l, r)));
    case ExpressionList(values, _) => SoundExprs(values, ctx, w, env, [outer]);
    case Secure(_, _, _, _) =>
      assert false;
    case _ =>
  }

  lemma {:induction false} SoundExprs(es: seq<Expr>, ctx: Context, w: World, env: Env, rows: Rel)
    requires ctx.catalog == w.catalog
    requires Clean(ctx, ExprsSites(es, w.catalog, env.Keys))
    ensures EvalExprs(ImageExprs(es, ctx, env.Keys), w, env, rows) == EvalExprs(es, Secured(w, ctx), env, rows)
    decreases es, 0
  {
    forall i | 0 <= i < |es|
      ensures EvalExpr(ImageExpr(es[i], ctx, env.Keys), w, env, rows) == EvalExpr(es[i], Secured(w, ctx), env, rows)
    {
      SoundExpr(es[i], ctx, w, env, rows);
    }
  }

  lemma {:induction false} SoundExpr(e: Expr, ctx: Context, w: World, env: Env, rows: Rel)
    requires ctx.catalog == w.catalog
    requires Clean(ctx, ExprSites(e, w.catalog, env.Keys))
    ensures EvalExpr(ImageExpr(e, ctx, env.Keys), w, env, rows) == EvalExpr(e, Secured(w, ctx), env, rows)
    decreases e
  {
    SoundExprs(e.operands, ctx, w, env, rows);
    if e.SubqueryExpr? {
      var image := ImageQuery(e.query, ctx, env.Keys);
      forall i | 0 <= i < |rows|
        ensures EvalQuery(image, w, env, rows[i]) == EvalQuery(e.query, Secured(w, ctx), env, rows[i])
      {
        SoundQuery(e.query, ctx, w, env, rows[i]);
      }
      assert EvalNested(image, w, env, rows) == EvalNested(e.query, Secured(w, ctx), env, rows);
    }
  }
}
