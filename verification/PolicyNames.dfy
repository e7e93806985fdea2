/** Which references a policy reaches, in terms of the names as they are written; and what a refusal says. */
module PolicyNames {
  import opened Collections
  import opened Identifiers
  import opened PolicySyntax
  import opened PolicyRewriter
  import opened PolicyCoverage

  /** Some binding names the table, in any spelling. */
  predicate BoundSomewhere(ctx: Context, table: TableIdentity) {
    || (exists i | 0 <= i < |ctx.rows| :: ctx.rows[i].table.Some? && RespelledTable(table, ctx.rows[i].table.value))
    || (exists i | 0 <= i < |ctx.masks| :: ctx.masks[i].table.Some? && RespelledTable(table, ctx.masks[i].table.value))
  }

  /** A table is protected exactly when a binding names it, whatever the case of the letters on either side. */
  lemma ProtectedIff(ctx: Context, table: TableIdentity)
    ensures Protected(ctx, table) <==> BoundSomewhere(ctx, table)
  {
    forall other: TableIdentity ensures SameTable(table, other) <==> RespelledTable(table, other) {
      SameTableIff(table, other);
    }
  }

  /** A CTE shadows a bare name exactly when it has that name, whatever the case. */
  lemma ShadowedIff(name: QualifiedName, ctes: seq<Cte>)
    ensures Shadowed(name, ScopeAfter(ctes, {})) <==>
      name.schema == "" && name.catalog == "" && exists i | 0 <= i < |ctes| :: Respelled(name.name, ctes[i].name)
  {
    forall i | 0 <= i < |ctes| ensures Lower(name.name) == Lower(ctes[i].name) <==> Respelled(name.name, ctes[i].name) {
      SameIdentifierIff(name.name, ctes[i].name);
    }
  }

  /** What stands in the place of a protected reference: the table under its full name and the reference's own alias, or
      the table's name if it has none, with the expression of the first row binding and the masks bound to it. */
  lemma SecureRefIs(ctx: Context, name: QualifiedName, alias: string, i: nat)
    requires i < |ctx.rows| && ctx.rows[i].table.Some? && ctx.rows[i].policy.Found?
    requires RespelledTable(IdentityFromName(name, ctx.catalog), ctx.rows[i].table.value)
    requires forall j | 0 <= j < i ::
      ctx.rows[j].table.Some? && !RespelledTable(IdentityFromName(name, ctx.catalog), ctx.rows[j].table.value)
    ensures var r := SecureRef(ctx, name, alias); var id := IdentityFromName(name, ctx.catalog);
      && r.Secure? && r.rowFilter == [ctx.rows[i].policy.expression]
      && r.table.catalog == id.catalog && r.table.schema == id.schema && r.table.name == name.name
      && (alias != "" ==> r.alias == alias) && (alias == "" ==> r.alias == name.name)
  {
    var id := IdentityFromName(name, ctx.catalog);
    forall j | 0 <= j <= i ensures ctx.rows[j].table.Some? && (SameTable(id, ctx.rows[j].table.value) <==> j == i) {
      SameTableIff(id, ctx.rows[j].table.value);
    }
    RowFilterIsFirst(ctx, id, i);
  }

  /** Without a row binding nothing is filtered. */
  lemma NoRowFilter(ctx: Context, table: TableIdentity)
    requires forall j | 0 <= j < |ctx.rows| :: ctx.rows[j].table.Some? && !RespelledTable(table, ctx.rows[j].table.value)
    ensures RowFilter(ctx, table) == []
  {
    NoFirstRow(ctx.rows, table);
  }

  lemma {:induction false} NoFirstRow(bindings: seq<RowBinding>, table: TableIdentity)
    requires forall j | 0 <= j < |bindings| :: bindings[j].table.Some? && !RespelledTable(table, bindings[j].table.value)
    ensures FirstRow(bindings, table).Unbound?
  {
    if bindings != [] {
      SameTableIff(table, bindings[0].table.value);
      NoFirstRow(bindings[1..], table);
    }
  }

  /** If a binding names a table, then a reference to it in any spelling that no CTE shadows is refused before
      authentication, and gives way to the secure subquery. */
  lemma AnySpellingIsCovered(ctx: Context, name: QualifiedName, alias: string, scope: set<string>)
    requires BoundSomewhere(ctx, IdentityFromName(name, ctx.catalog)) && !Shadowed(name, scope)
    ensures ImageRef(Base(name, alias), ctx, scope) == SecureRef(ctx, name, alias)
    ensures !ctx.authenticated ==> VerdictRef(Base(name, alias), ctx, scope).Fail?
  {
    var id := IdentityFromName(name, ctx.catalog);
    ProtectedIff(ctx, id);
    NeverUnbound(ctx.rows, ctx.masks, id);
  }

  lemma {:induction false} NeverUnbound(rows: seq<RowBinding>, masks: seq<MaskBinding>, table: TableIdentity)
    requires
      || (exists i | 0 <= i < |rows| :: rows[i].table.Some? && SameTable(table, rows[i].table.value))
      || (exists i | 0 <= i < |masks| :: masks[i].table.Some? && SameTable(table, masks[i].table.value))
    ensures !FirstRow(rows, table).Unbound? || !FirstMask(masks, table).Unbound?
    decreases |rows| + |masks|
  {
    if rows != [] {
      if FirstRow(rows, table).Unbound? {
        assert forall i | 0 < i < |rows| :: rows[i] == rows[1..][i - 1];
        NeverUnbound(rows[1..], masks, table);
      }
    } else if FirstMask(masks, table).Unbound? {
      assert forall i | 0 < i < |masks| :: masks[i] == masks[1..][i - 1];
      NeverUnbound(rows, masks[1..], table);
    }
  }

  // ---------------------------------------------------------------- what a refusal says

  /** A refusal denies exactly the unauthenticated, and gives the others a reason. */
  predicate Honest(v: Verdict, ctx: Context) {
    v.Fail? ==> (v.deny <==> !ctx.authenticated) && (ctx.authenticated ==> v.error != "")
  }

  lemma {:induction false} QueryHonest(q: Query, ctx: Context, scope: set<string>)
    ensures Honest(VerdictQuery(q, ctx, scope), ctx)
    decreases q, 1
  {
    if !q.OtherQuery? {
      CtesHonest(q.ctes, ctx, scope);
      BodyHonest(q, ctx, ScopeAfter(q.ctes, scope));
    }
  }

  lemma {:induction false} BodyHonest(q: Query, ctx: Context, scope: set<string>)
    requires !q.OtherQuery?
    ensures Honest(VerdictBody(q, ctx, scope), ctx)
    decreases q, 0
  {
    ExprsHonest(q.modifiers, ctx, scope);
    if q.Select? {
      RefHonest(q.from, ctx, scope);
      ExprsHonest(q.columns, ctx, scope);
      ExprsHonest(q.groups, ctx, scope);
      ExprsHonest(q.where, ctx, scope);
      ExprsHonest(q.having, ctx, scope);
      ExprsHonest(q.qualify, ctx, scope);
    } else {
      QueriesHonest(q.children, ctx, scope);
    }
  }

  lemma {:induction false} QueriesHonest(qs: seq<Query>, ctx: Context, scope: set<string>)
    ensures Honest(VerdictQueries(qs, ctx, scope), ctx)
    decreases qs
  {
    if qs != [] {
      QueryHonest(qs[0], ctx, scope);
      QueriesHonest(qs[1..], ctx, scope);
    }
  }

  lemma {:induction false} CtesHonest(ctes: seq<Cte>, ctx: Context, scope: set<string>)
    ensures Honest(VerdictCtes(ctes, ctx, scope), ctx)
    decreases ctes
  {
    if ctes != [] {
      QueryHonest(ctes[0].definition, ctx, scope);
      CtesHonest(ctes[1..], ctx, scope + {Lower(ctes[0].name)});
    }
  }

  lemma {:induction false} MasksHonest(bindings: seq<MaskBinding>, table: TableIdentity, ctx: Context)
    ensures Honest(MaskVerdict(bindings, table, ctx), ctx)
  {
    if bindings != [] { MasksHonest(bindings[1..], table, ctx); }
  }

  lemma {:induction false} RefHonest(r: Ref, ctx: Context, scope: set<string>)
    ensures Honest(VerdictRef(r, ctx, scope), ctx)
    decreases r
  {
    match r
    case Base(name, _) => MasksHonest(ctx.masks, IdentityFromName(name, ctx.catalog), ctx);
    case Subquery(query, _) => QueryHonest(query, ctx, scope);
    case Join(left, right, condition, _) =>
      RefHonest(left, ctx, scope);
      RefHonest(right, ctx, scope);
      ExprsHonest(condition, ctx, scope);
    case ExpressionList(values, _) => ExprsHonest(values, ctx, scope);
    case _ =>
  }

  lemma {:induction false} ExprsHonest(es: seq<Expr>, ctx: Context, scope: set<string>)
    ensures Honest(VerdictExprs(es, ctx, scope), ctx)
    decreases es
  {
    if es != [] {
      ExprHonest(es[0], ctx, scope);
      ExprsHonest(es[1..], ctx, scope);
    }
  }

  lemma {:induction false} ExprHonest(e: Expr, ctx: Context, scope: set<string>)
    ensures Honest(VerdictExpr(e, ctx, scope), ctx)
    decreases e
  {
    ExprsHonest(e.operands, ctx, scope);
    if e.SubqueryExpr? { QueryHonest(e.query, ctx, scope); }
  }

  /** A handler: with no binding at all nothing is refused; with one, text that is not a single SELECT is; and a refusal
      denies exactly the unauthenticated. */
  lemma HandlerIsHonest(h: Handler, ctx: Context)
    ensures Honest(HandlerVerdict(h, ctx), ctx)
    ensures ctx.rows == [] && ctx.masks == [] ==> HandlerVerdict(h, ctx).Pass?
    ensures (ctx.rows != [] || ctx.masks != []) && !h.OneSelect? ==> HandlerVerdict(h, ctx).Fail?
  {
    if h.OneSelect? { QueryHonest(h.query, ctx, {}); }
  }
}
