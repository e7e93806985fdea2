/** What the rewrite touches: exactly the unshadowed references to protected tables. */
module PolicyCoverage {
  import opened Identifiers
  import opened PolicySyntax
  import opened PolicySemantics
  import opened PolicyRewriter
  import opened PolicyMeaning

  // ---------------------------------------------------------------- nothing protected is left outside

  /** No read outside a secure subquery is of a protected table. */
  ghost predicate Covered(ctx: Context, sites: set<Site>) {
    forall s | s in sites && s.Read? && !s.inside :: !Protected(ctx, s.table)
  }

  lemma ScopeAfterImage(ctes: seq<Cte>, ctx: Context, scope: set<string>, base: set<string>)
    ensures ScopeAfter(ImageCtes(ctes, ctx, scope), base) == ScopeAfter(ctes, base)
  {
    var image := ImageCtes(ctes, ctx, scope);
    assert (set i | 0 <= i < |image| :: Lower(image[i].name)) == (set i | 0 <= i < |ctes| :: Lower(ctes[i].name));
  }

  lemma {:induction false} CoveredQuery(q: Query, ctx: Context, scope: set<string>)
    ensures Covered(ctx, QuerySites(ImageQuery(q, ctx, scope), ctx.catalog, scope))
    decreases q, 1
  {
    if !q.OtherQuery? {
      CoveredCtes(q.ctes, ctx, scope);
      ScopeAfterImage(q.ctes, ctx, scope, scope);
      CoveredBody(q, ImageCtes(q.ctes, ctx, scope), ctx, ScopeAfter(q.ctes, scope));
    }
  }

  lemma {:induction false} CoveredBody(q: Query, ctes: seq<Cte>, ctx: Context, scope: set<string>)
    requires !q.OtherQuery?
    ensures Covered(ctx, BodySites(ImageBody(q, ctes, ctx, scope), ctx.catalog, scope))
    decreases q, 0
  {
    CoveredExprs(q.modifiers, ctx, scope);
    if q.Select? {
      CoveredRef(q.from, ctx, scope);
      CoveredExprs(q.columns, ctx, scope);
      CoveredExprs(q.groups, ctx, scope);
      CoveredExprs(q.where, ctx, scope);
      CoveredExprs(q.having, ctx, scope);
      CoveredExprs(q.qualify, ctx, scope);
    } else {
      var image := ImageQueries(q.children, ctx, scope);
      forall i | 0 <= i < |image| ensures Covered(ctx, QuerySites(image[i], ctx.catalog, scope)) {
        CoveredQuery(q.children[i], ctx, scope);
      }
    }
  }

  lemma {:induction false} CoveredCtes(ctes: seq<Cte>, ctx: Context, scope: set<string>)
    ensures Covered(ctx, CteSites(ImageCtes(ctes, ctx, scope), ctx.catalog, scope))
    decreases ctes
  {
    if ctes != [] {
      var k := Lower(ctes[0].name);
      CoveredQuery(ctes[0].definition, ctx, scope);
      CoveredCtes(ctes[1..], ctx, scope + {k});
      assert ImageCtes(ctes, ctx, scope)[1..] == ImageCtes(ctes[1..], ctx, scope + {k});
    }
  }

  lemma {:induction false} CoveredRef(r: Ref, ctx: Context, scope: set<string>)
    ensures Covered(ctx, RefSites(ImageRef(r, ctx, scope), ctx.catalog, scope))
    decreases r
  {
    match r
    case Base(_, _) => CoveredBase(r, ctx, scope);
    case Subquery(query, _) => CoveredQuery(query, ctx, scope);
    case Join(left, right, condition, _) =>
      CoveredRef(left, ctx, scope);
      CoveredRef(right, ctx, scope);
      CoveredExprs(condition, ctx, scope);
    case ExpressionList(values, _) => CoveredExprs(values, ctx, scope);
    case _ =>
  }

  lemma CoveredBase(r: Ref, ctx: Context, scope: set<string>)
    requires r.Base?
    ensures Covered(ctx, RefSites(ImageRef(r, ctx, scope), ctx.catalog, scope))
  {
    KeyPolicies(ctx, IdentityFromName(r.name, ctx.catalog));
    forall s | s in RefSites(ImageRef(r, ctx, scope), ctx.catalog, scope) && s.Read? && !s.inside
      ensures !Protected(ctx, s.table)
    {
      assert !Shadowed(r.name, scope);
    }
  }

  lemma {:induction false} CoveredExprs(es: seq<Expr>, ctx: Context, scope: set<string>)
    ensures Covered(ctx, ExprsSites(ImageExprs(es, ctx, scope), ctx.catalog, scope))
    decreases es
  {
    var image := ImageExprs(es, ctx, scope);
    forall i | 0 <= i < |image| ensures Covered(ctx, ExprSites(image[i], ctx.catalog, scope)) {
      CoveredExpr(es[i], ctx, scope);
    }
  }

  lemma {:induction false} CoveredExpr(e: Expr, ctx: Context, scope: set<string>)
    ensures Covered(ctx, ExprSites(ImageExpr(e, ctx, scope), ctx.catalog, scope))
    decreases e
  {
    CoveredExprs(e.operands, ctx, scope);
    if e.SubqueryExpr? { CoveredQuery(e.query, ctx, scope); }
  }

  // ---------------------------------------------------------------- nothing else is changed

  /** A query with its secure subqueries erased and every table name spelled out. */
  function BareQuery(q: Query, catalog: string, scope: set<string>): Query
    decreases q, 1
  {
    if q.OtherQuery? then q
    else BareBody(q, BareCtes(q.ctes, catalog, scope), catalog, ScopeAfter(q.ctes, scope))
  }

  function BareBody(q: Query, ctes: seq<Cte>, catalog: string, scope: set<string>): Query
    requires !q.OtherQuery?
    decreases q, 0
  {
    match q
    case Select(_, from, columns, groups, where, having, qualify, modifiers, shape) =>
      Select(ctes, BareRef(from, catalog, scope), BareExprs(columns, catalog, scope), BareExprs(groups, catalog, scope),
             BareExprs(where, catalog, scope), BareExprs(having, catalog, scope), BareExprs(qualify, catalog, scope),
             BareExprs(modifiers, catalog, scope), shape)
    case SetOperation(_, children, modifiers, shape) =>
      SetOperation(ctes, seq(|children|, i requires 0 <= i < |children| => BareQuery(children[i], catalog, scope)),
                   BareExprs(modifiers, catalog, scope), shape)
  }

  function BareCtes(ctes: seq<Cte>, catalog: string, scope: set<string>): seq<Cte>
    decreases ctes
  {
    if ctes == [] then []
    else [Cte(ctes[0].name, BareQuery(ctes[0].definition, catalog, scope))]
         + BareCtes(ctes[1..], catalog, scope + {Lower(ctes[0].name)})
  }

  function BareRef(r: Ref, catalog: string, scope: set<string>): Ref
    decreases r
  {
    match r
    case Base(name, alias) =>
      if Shadowed(name, scope) then r
      else Base(Qualify(IdentityFromName(name, catalog)), EffectiveAlias(name, alias))
    case Secure(table, _, _, alias) => Base(Qualify(IdentityFromName(table, catalog)), EffectiveAlias(table, alias))
    case Subquery(query, alias) => Subquery(BareQuery(query, catalog, scope), alias)
    case Join(left, right, condition, kind) =>
      Join(BareRef(left, catalog, scope), BareRef(right, catalog, scope), BareExprs(condition, catalog, scope), kind)
    case ExpressionList(values, shape) => ExpressionList(BareExprs(values, catalog, scope), shape)
    case _ => r
  }

  function BareExprs(es: seq<Expr>, catalog: string, scope: set<string>): seq<Expr>
    decreases es
  {
    seq(|es|, i requires 0 <= i < |es| => BareExpr(es[i], catalog, scope))
  }

  function BareExpr(e: Expr, catalog: string, scope: set<string>): Expr
    decreases e
  {
    match e
    case Operator(text, operands) => Operator(text, BareExprs(operands, catalog, scope))
    case Call(name, operands) => Call(name, BareExprs(operands, catalog, scope))
    case SubqueryExpr(kind, query, operands) =>
      SubqueryExpr(kind, BareQuery(query, catalog, scope), BareExprs(operands, catalog, scope))
  }

  /** Erasing the inserted subqueries gives the original back, with its table names spelled out. */
  lemma {:induction false} EraseQuery(q: Query, ctx: Context, scope: set<string>)
    ensures BareQuery(ImageQuery(q, ctx, scope), ctx.catalog, scope) == BareQuery(q, ctx.catalog, scope)
    decreases q, 1
  {
    if !q.OtherQuery? {
      EraseCtes(q.ctes, ctx, scope);
      ScopeAfterImage(q.ctes, ctx, scope, scope);
      EraseBody(q, ImageCtes(q.ctes, ctx, scope), BareCtes(q.ctes, ctx.catalog, scope), ctx, ScopeAfter(q.ctes, scope));
    }
  }

  lemma {:induction false} EraseBody(q: Query, image: seq<Cte>, ctes: seq<Cte>, ctx: Context, scope: set<string>)
    requires !q.OtherQuery?
    ensures BareBody(ImageBody(q, image, ctx, scope), ctes, ctx.catalog, scope) == BareBody(q, ctes, ctx.catalog, scope)
    decreases q, 0
  {
    EraseExprs(q.modifiers, ctx, scope);
    if q.Select? {
      EraseRef(q.from, ctx, scope);
      EraseExprs(q.columns, ctx, scope);
      EraseExprs(q.groups, ctx, scope);
      EraseExprs(q.where, ctx, scope);
      EraseExprs(q.having, ctx, scope);
      EraseExprs(q.qualify, ctx, scope);
    } else {
      forall i | 0 <= i < |q.children|
        ensures BareQuery(ImageQuery(q.children[i], ctx, scope), ctx.catalog, scope)
             == BareQuery(q.children[i], ctx.catalog, scope)
      {
        EraseQuery(q.children[i], ctx, scope);
      }
    }
  }

  lemma {:induction false} EraseCtes(ctes: seq<Cte>, ctx: Context, scope: set<string>)
    ensures BareCtes(ImageCtes(ctes, ctx, scope), ctx.catalog, scope) == BareCtes(ctes, ctx.catalog, scope)
    decreases ctes
  {
    if ctes != [] {
      var k := Lower(ctes[0].name);
      EraseQuery(ctes[0].definition, ctx, scope);
      EraseCtes(ctes[1..], ctx, scope + {k});
      assert ImageCtes(ctes, ctx, scope)[1..] == ImageCtes(ctes[1..], ctx, scope + {k});
    }
  }

  lemma {:induction false} EraseRef(r: Ref, ctx: Context, scope: set<string>)
    ensures BareRef(ImageRef(r, ctx, scope), ctx.catalog, scope) == BareRef(r, ctx.catalog, scope)
    decreases r
  {
    match r
    case Base(name, alias) =>
    case Subquery(query, _) => EraseQuery(query, ctx, scope);
    case Join(left, right, condition, _) =>
      EraseRef(left, ctx, scope);
      EraseRef(right, ctx, scope);
      EraseExprs(condition, ctx, scope);
    case ExpressionList(values, _) => EraseExprs(values, ctx, scope);
    case _ =>
  }

  lemma {:induction false} EraseExprs(es: seq<Expr>, ctx: Context, scope: set<string>)
    ensures BareExprs(ImageExprs(es, ctx, scope), ctx.catalog, scope) == BareExprs(es, ctx.catalog, scope)
    decreases es
  {
    forall i | 0 <= i < |es|
      ensures BareExpr(ImageExpr(es[i], ctx, scope), ctx.catalog, scope) == BareExpr(es[i], ctx.catalog, scope)
    {
      EraseExpr(es[i], ctx, scope);
    }
  }

  lemma {:induction false} EraseExpr(e: Expr, ctx: Context, scope: set<string>)
    ensures BareExpr(ImageExpr(e, ctx, scope), ctx.catalog, scope) == BareExpr(e, ctx.catalog, scope)
    decreases e
  {
    EraseExprs(e.operands, ctx, scope);
    if e.SubqueryExpr? { EraseQuery(e.query, ctx, scope); }
  }

  // ---------------------------------------------------------------- when the rewriter refuses

  /** Every binding names a table. */
  predicate ValidBindings(ctx: Context) {
    && (forall i | 0 <= i < |ctx.rows| :: ctx.rows[i].table.Some?)
    && (forall i | 0 <= i < |ctx.masks| :: ctx.masks[i].table.Some?)
  }

  /** A binding whose table name does not parse is met before the table's own: among the row bindings if it comes before
      the first for the table, among the masks anywhere, since all of them are looked through. */
  predicate Unreadable(ctx: Context, table: TableIdentity) {
    || (exists i | 0 <= i < |ctx.rows| :: ctx.rows[i].table.None? && !BoundBefore(ctx.rows, i, table))
    || (exists i | 0 <= i < |ctx.masks| :: ctx.masks[i].table.None?)
  }

  predicate BoundBefore(bindings: seq<RowBinding>, i: nat, table: TableIdentity)
    requires i <= |bindings|
  {
    exists j | 0 <= j < i :: bindings[j].table.Some? && SameTable(table, bindings[j].table.value)
  }

  /** The first row policy of the table and all its masks exist and can be put into a subquery. */
  predicate PoliciesUsable(ctx: Context, table: TableIdentity) {
    && (FirstRow(ctx.rows, table).BoundTo? ==> FirstRow(ctx.rows, table).binding.policy.Found?)
    && (forall i | 0 <= i < |ctx.masks| && ctx.masks[i].table.Some? && SameTable(table, ctx.masks[i].table.value) ::
          ctx.masks[i].policy.Found?)
  }

  /** What stops the rewrite: a view or unresolvable object, a binding whose table name does not parse, a protected table
      whose policies cannot be applied for this caller, a macro, or a source that cannot be inspected. */
  ghost predicate Blocks(ctx: Context, s: Site) {
    match s
    case Read(table, _, _, _) =>
      || !ctx.entry(Key(table)).NotAView? || Unreadable(ctx, table)
      || (Protected(ctx, table) && !(ctx.authenticated && PoliciesUsable(ctx, table)))
    case Calls(name) => ctx.isMacro(name)
    case Opaque => true
  }

  ghost predicate Blocked(ctx: Context, sites: set<Site>) {
    exists s :: s in sites && Blocks(ctx, s)
  }

  lemma {:induction false} FirstRowFinds(bindings: seq<RowBinding>, table: TableIdentity)
    ensures FirstRow(bindings, table).Invalid? <==>
      exists i | 0 <= i < |bindings| :: bindings[i].table.None? && !BoundBefore(bindings, i, table)
    ensures !FirstRow(bindings, table).Invalid? ==>
      (FirstRow(bindings, table).BoundTo? <==>
         exists i | 0 <= i < |bindings| :: bindings[i].table.Some? && SameTable(table, bindings[i].table.value))
  {
    if bindings != [] {
      var rest := bindings[1..];
      FirstRowFinds(rest, table);
      assert forall i | 0 < i < |bindings| :: bindings[i] == rest[i - 1];
      if bindings[0].table.None? {
        assert !BoundBefore(bindings, 0, table);
      } else if !SameTable(table, bindings[0].table.value) {
        forall i | 0 < i < |bindings| ensures BoundBefore(bindings, i, table) == BoundBefore(rest, i - 1, table) {
          if BoundBefore(rest, i - 1, table) {
            var j :| 0 <= j < i - 1 && rest[j].table.Some? && SameTable(table, rest[j].table.value);
            assert bindings[j + 1] == rest[j];
          }
        }
      } else {
        assert forall i | 0 < i < |bindings| :: BoundBefore(bindings, i, table);
      }
    }
  }

  lemma {:induction false} FirstMaskFinds(bindings: seq<MaskBinding>, table: TableIdentity, ctx: Context)
    ensures (forall i | 0 <= i < |bindings| :: bindings[i].table.Some?) ==>
      && !FirstMask(bindings, table).Invalid?
      && (FirstMask(bindings, table).BoundTo?
          <==> exists i | 0 <= i < |bindings| :: SameTable(table, bindings[i].table.value))
      && (MaskVerdict(bindings, table, ctx).Pass?
          <==> forall i | 0 <= i < |bindings| && SameTable(table, bindings[i].table.value) :: !bindings[i].policy.Missing?)
    ensures (exists i | 0 <= i < |bindings| :: bindings[i].table.None?) ==>
      !FirstMask(bindings, table).Unbound? && MaskVerdict(bindings, table, ctx).Fail?
  {
    if bindings != [] {
      FirstMaskFinds(bindings[1..], table, ctx);
      assert forall i | 0 < i < |bindings| :: bindings[i] == bindings[1..][i - 1];
    }
  }

  lemma {:induction false} FirstRowIsFirst(bindings: seq<RowBinding>, table: TableIdentity, i: nat)
    requires i < |bindings| && bindings[i].table.Some? && SameTable(table, bindings[i].table.value)
    requires forall j | 0 <= j < i :: bindings[j].table.Some? && !SameTable(table, bindings[j].table.value)
    ensures FirstRow(bindings, table) == BoundTo(bindings[i])
  {
    if i > 0 { FirstRowIsFirst(bindings[1..], table, i - 1); }
  }

  /** The row policy applied is that of the first binding for the table. */
  lemma RowFilterIsFirst(ctx: Context, table: TableIdentity, i: nat)
    requires i < |ctx.rows| && ctx.rows[i].table.Some? && SameTable(table, ctx.rows[i].table.value)
    requires forall j | 0 <= j < i :: ctx.rows[j].table.Some? && !SameTable(table, ctx.rows[j].table.value)
    requires ctx.rows[i].policy.Found?
    ensures RowFilter(ctx, table) == [ctx.rows[i].policy.expression]
  {
    FirstRowIsFirst(ctx.rows, table, i);
  }

  /** A mask is applied exactly when it is bound to the table. */
  lemma {:induction false} MasksAreThoseBound(bindings: seq<MaskBinding>, table: TableIdentity, m: Mask)
    ensures m in MasksOf(bindings, table) <==>
      exists i | 0 <= i < |bindings| ::
        && bindings[i].table.Some? && SameTable(table, bindings[i].table.value)
        && bindings[i].policy == Found(m.expression) && bindings[i].column == m.column
  {
    if bindings != [] {
      MasksAreThoseBound(bindings[1..], table, m);
      assert forall i | 0 < i < |bindings| :: bindings[i] == bindings[1..][i - 1];
    }
  }

  /** Masks keep the order of their bindings. */
  lemma {:induction false} MasksInOrder(first: seq<MaskBinding>, second: seq<MaskBinding>, table: TableIdentity)
    ensures MasksOf(first + second, table) == MasksOf(first, table) + MasksOf(second, table)
  {
    if first == [] {
      assert first + second == second;
    } else {
      assert (first + second)[1..] == first[1..] + second;
      MasksInOrder(first[1..], second, table);
    }
  }

  lemma TableVerdict(table: TableIdentity, ctx: Context)
    ensures VerdictTable(table, ctx).Pass? <==>
      ctx.entry(Key(table)).NotAView? && !Unreadable(ctx, table) && (Protected(ctx, table) ==> ctx.authenticated && PoliciesUsable(ctx, table))
  {
    FirstRowFinds(ctx.rows, table);
    FirstMaskFinds(ctx.masks, table, ctx);
  }

  /** The verdict on a table depends on its key alone. */
  lemma BlocksByKey(id: TableIdentity, ctx: Context, bare: bool, scope: set<string>)
    ensures Blocks(ctx, Read(Key(id), bare, scope, false)) <==> VerdictTable(id, ctx).Fail?
  {
    TableVerdict(id, ctx);
    KeyPolicies(ctx, id);
    KeyFirstRow(ctx.rows, id);
    LowerIdempotent(id.catalog);
    LowerIdempotent(id.schema);
    LowerIdempotent(id.table);
    forall other: TableIdentity { KeyNamesSameTable(id, other); }
  }

  lemma BlockedUnion(ctx: Context, a: set<Site>, b: set<Site>)
    ensures Blocked(ctx, a + b) <==> Blocked(ctx, a) || Blocked(ctx, b)
  {
    if Blocked(ctx, a) { var s :| s in a && Blocks(ctx, s); assert s in a + b; }
    if Blocked(ctx, b) { var s :| s in b && Blocks(ctx, s); assert s in a + b; }
  }

  lemma {:induction false} VerdictOfQuery(q: Query, ctx: Context, scope: set<string>)
    requires Plain(QuerySites(q, ctx.catalog, scope))
    ensures VerdictQuery(q, ctx, scope).Fail? <==> Blocked(ctx, QuerySites(q, ctx.catalog, scope))
    decreases q, 1
  {
    if q.OtherQuery? {
      assert Opaque in QuerySites(q, ctx.catalog, scope);
    } else {
      var inner := ScopeAfter(q.ctes, scope);
      VerdictOfCtes(q.ctes, ctx, scope);
      VerdictOfBody(q, ctx, inner);
      BlockedUnion(ctx, CteSites(q.ctes, ctx.catalog, scope), BodySites(q, ctx.catalog, inner));
    }
  }

  lemma {:induction false} VerdictOfBody(q: Query, ctx: Context, scope: set<string>)
    requires !q.OtherQuery?
    requires Plain(BodySites(q, ctx.catalog, scope))
    ensures VerdictBody(q, ctx, scope).Fail? <==> Blocked(ctx, BodySites(q, ctx.catalog, scope))
    decreases q, 0
  {
    VerdictOfExprs(q.modifiers, ctx, scope);
    var m := ExprsSites(q.modifiers, ctx.catalog, scope);
    if q.Select? {
      VerdictOfRef(q.from, ctx, scope);
      VerdictOfExprs(q.columns, ctx, scope);
      VerdictOfExprs(q.groups, ctx, scope);
      VerdictOfExprs(q.where, ctx, scope);
      VerdictOfExprs(q.having, ctx, scope);
      VerdictOfExprs(q.qualify, ctx, scope);
      var f, c := RefSites(q.from, ctx.catalog, scope), ExprsSites(q.columns, ctx.catalog, scope);
      var g, w := ExprsSites(q.groups, ctx.catalog, scope), ExprsSites(q.where, ctx.catalog, scope);
      var h, y := ExprsSites(q.having, ctx.catalog, scope), ExprsSites(q.qualify, ctx.catalog, scope);
      BlockedUnion(ctx, f, c);
      BlockedUnion(ctx, f + c, g);
      BlockedUnion(ctx, f + c + g, w);
      BlockedUnion(ctx, f + c + g + w, h);
      BlockedUnion(ctx, f + c + g + w + h, y);
      BlockedUnion(ctx, f + c + g + w + h + y, m);
    } else {
      VerdictOfQueries(q.children, ctx, scope);
      BlockedUnion(ctx, QueriesSites(q.children, ctx.catalog, scope), m);
    }
  }

  ghost function QueriesSites(qs: seq<Query>, catalog: string, scope: set<string>): set<Site> {
    set i, s | 0 <= i < |qs| && s in QuerySites(qs[i], catalog, scope) :: s
  }

  lemma {:induction false} VerdictOfQueries(qs: seq<Query>, ctx: Context, scope: set<string>)
    requires Plain(QueriesSites(qs, ctx.catalog, scope))
    ensures VerdictQueries(qs, ctx, scope).Fail? <==> Blocked(ctx, QueriesSites(qs, ctx.catalog, scope))
    decreases qs
  {
    if qs != [] {
      var first, rest := QuerySites(qs[0], ctx.catalog, scope), QueriesSites(qs[1..], ctx.catalog, scope);
      assert forall i | 0 < i < |qs| :: qs[i] == qs[1..][i - 1];
      assert QueriesSites(qs, ctx.catalog, scope) == first + rest;
      VerdictOfQuery(qs[0], ctx, scope);
      VerdictOfQueries(qs[1..], ctx, scope);
      BlockedUnion(ctx, first, rest);
    }
  }

  lemma {:induction false} VerdictOfCtes(ctes: seq<Cte>, ctx: Context, scope: set<string>)
    requires Plain(CteSites(ctes, ctx.catalog, scope))
    ensures VerdictCtes(ctes, ctx, scope).Fail? <==> Blocked(ctx, CteSites(ctes, ctx.catalog, scope))
    decreases ctes
  {
    if ctes != [] {
      var next := scope + {Lower(ctes[0].name)};
      VerdictOfQuery(ctes[0].definition, ctx, scope);
      VerdictOfCtes(ctes[1..], ctx, next);
      BlockedUnion(ctx, QuerySites(ctes[0].definition, ctx.catalog, scope), CteSites(ctes[1..], ctx.catalog, next));
    }
  }

  lemma {:induction false} VerdictOfRef(r: Ref, ctx: Context, scope: set<string>)
    requires Plain(RefSites(r, ctx.catalog, scope))
    ensures VerdictRef(r, ctx, scope).Fail? <==> Blocked(ctx, RefSites(r, ctx.catalog, scope))
    decreases r
  {
    match r
    case Base(name, _) =>
      BlocksByKey(IdentityFromName(name, ctx.catalog), ctx, Bare(name), scope);
    case Subquery(query, _) => VerdictOfQuery(query, ctx, scope);
    case Join(left, right, condition, _) =>
      var a, b := RefSites(left, ctx.catalog, scope), RefSites(right, ctx.catalog, scope);
      VerdictOfRef(left, ctx, scope);
      VerdictOfRef(right, ctx, scope);
      VerdictOfExprs(condition, ctx, scope);
      BlockedUnion(ctx, a, b);
      BlockedUnion(ctx, a + b, ExprsSites(condition, ctx.catalog, scope));
    case ExpressionList(values, _) => VerdictOfExprs(values, ctx, scope);
    case EmptyFrom =>
    case TableFunction => assert Opaque in RefSites(r, ctx.catalog, scope);
    case OtherRef => assert Opaque in RefSites(r, ctx.catalog, scope);
    case Secure(_, _, _, _) =>
      assert false;
  }

  lemma {:induction false} VerdictOfExprs(es: seq<Expr>, ctx: Context, scope: set<string>)
    requires Plain(ExprsSites(es, ctx.catalog, scope))
    ensures VerdictExprs(es, ctx, scope).Fail? <==> Blocked(ctx, ExprsSites(es, ctx.catalog, scope))
    decreases es
  {
    if es != [] {
      var first, rest := ExprSites(es[0], ctx.catalog, scope), ExprsSites(es[1..], ctx.catalog, scope);
      assert forall i | 0 < i < |es| :: es[i] == es[1..][i - 1];
      assert ExprsSites(es, ctx.catalog, scope) == first + rest;
      VerdictOfExpr(es[0], ctx, scope);
      VerdictOfExprs(es[1..], ctx, scope);
      BlockedUnion(ctx, first, rest);
    }
  }

  lemma {:induction false} VerdictOfExpr(e: Expr, ctx: Context, scope: set<string>)
    requires Plain(ExprSites(e, ctx.catalog, scope))
    ensures VerdictExpr(e, ctx, scope).Fail? <==> Blocked(ctx, ExprSites(e, ctx.catalog, scope))
    decreases e
  {
    VerdictOfExprs(e.operands, ctx, scope);
    match e
    case Operator(_, _) =>
    case Call(name, operands) => BlockedUnion(ctx, {Calls(name)}, ExprsSites(operands, ctx.catalog, scope));
    case SubqueryExpr(_, query, operands) =>
      VerdictOfQuery(query, ctx, scope);
      BlockedUnion(ctx, QuerySites(query, ctx.catalog, scope), ExprsSites(operands, ctx.catalog, scope));
  }

  /** A query reads a protected table somewhere: in FROM, in an expression, in a join condition, in a
      set operation or in a CTE body. */
  ghost predicate ReadsProtected(q: Query, ctx: Context) {
    exists s :: s in QuerySites(q, ctx.catalog, {}) && s.Read? && Protected(ctx, s.table)
  }

  /** No view, unresolvable object, macro or source that cannot be inspected. */
  ghost predicate Inspectable(q: Query, ctx: Context) {
    forall s | s in QuerySites(q, ctx.catalog, {}) ::
      !s.Opaque? && (s.Calls? ==> !ctx.isMacro(s.function_)) && (s.Read? ==> ctx.entry(Key(s.table)).NotAView?)
  }

  /** A query reads a table while a binding cannot be read. */
  ghost predicate ReadsUnreadable(q: Query, ctx: Context) {
    exists s :: s in QuerySites(q, ctx.catalog, {}) && s.Read? && Unreadable(ctx, s.table)
  }

  /** Without authentication, and with everything inspectable, it is tables alone that stop a rewrite. */
  lemma AnonymouslyBlocked(q: Query, ctx: Context)
    requires Inspectable(q, ctx)
    ensures Blocked(ctx.(authenticated := false), QuerySites(q, ctx.catalog, {})) <==>
      ReadsProtected(q, ctx) || ReadsUnreadable(q, ctx)
  {
    var anonymous := ctx.(authenticated := false);
    if ReadsProtected(q, ctx) {
      var s :| s in QuerySites(q, ctx.catalog, {}) && s.Read? && Protected(ctx, s.table);
      assert Blocks(anonymous, s);
    }
    if ReadsUnreadable(q, ctx) {
      var s :| s in QuerySites(q, ctx.catalog, {}) && s.Read? && Unreadable(ctx, s.table);
      assert Blocks(anonymous, s);
    }
  }

  /** Before authentication: a handler is refused exactly when it reads a protected table, or one of which an unreadable
      binding leaves open whether it is; if all bindings can be read, exactly when it reads a protected table. */
  lemma TouchesIffReadsProtected(q: Query, ctx: Context)
    requires Plain(QuerySites(q, ctx.catalog, {})) && Inspectable(q, ctx)
    ensures HandlerTouchesPoliciedTable(OneSelect(q), ctx) <==> ReadsProtected(q, ctx) || ReadsUnreadable(q, ctx)
    ensures ValidBindings(ctx) ==> (HandlerTouchesPoliciedTable(OneSelect(q), ctx) <==> ReadsProtected(q, ctx))
  {
    VerdictOfQuery(q, ctx.(authenticated := false), {});
    AnonymouslyBlocked(q, ctx);
  }
}
