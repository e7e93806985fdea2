/** The rewrite place by place: every table reference of a query, in order, with the CTE names in scope where it stands. */
module PolicyPlaces {
  import opened Collections
  import opened Identifiers
  import opened PolicySyntax
  import opened PolicyRewriter

  /** A reference to a table or CTE, or the secure subquery in its place. */
  datatype Place = Place(source: Ref, scope: set<string>)

  function QueryPlaces(q: Query, scope: set<string>): seq<Place>
    decreases q, 1
  {
    if q.OtherQuery? then []
    else CtePlaces(q.ctes, scope) + BodyPlaces(q, ScopeAfter(q.ctes, scope))
  }

  function BodyPlaces(q: Query, scope: set<string>): seq<Place>
    requires !q.OtherQuery?
    decreases q, 0
  {
    match q
    case Select(_, from, columns, groups, where, having, qualify, modifiers, _) =>
      RefPlaces(from, scope) + (ExprsPlaces(columns, scope) + (ExprsPlaces(groups, scope) + (ExprsPlaces(where, scope)
      + (ExprsPlaces(having, scope) + (ExprsPlaces(qualify, scope) + ExprsPlaces(modifiers, scope))))))
    case SetOperation(_, children, modifiers, _) =>
      QueriesPlaces(children, scope) + ExprsPlaces(modifiers, scope)
  }

  function QueriesPlaces(qs: seq<Query>, scope: set<string>): seq<Place>
    decreases qs
  {
    if qs == [] then [] else QueryPlaces(qs[0], scope) + QueriesPlaces(qs[1..], scope)
  }

  /** A definition sees the CTEs before it. */
  function CtePlaces(ctes: seq<Cte>, scope: set<string>): seq<Place>
    decreases ctes
  {
    if ctes == [] then []
    else QueryPlaces(ctes[0].definition, scope) + CtePlaces(ctes[1..], scope + {Lower(ctes[0].name)})
  }

  function RefPlaces(r: Ref, scope: set<string>): seq<Place>
    decreases r
  {
    match r
    case Base(_, _) => [Place(r, scope)]
    case Secure(_, _, _, _) => [Place(r, scope)]
    case Subquery(query, _) => QueryPlaces(query, scope)
    case Join(left, right, condition, _) =>
      RefPlaces(left, scope) + (RefPlaces(right, scope) + ExprsPlaces(condition, scope))
    case ExpressionList(values, _) => ExprsPlaces(values, scope)
    case _ => []
  }

  function ExprsPlaces(es: seq<Expr>, scope: set<string>): seq<Place>
    decreases es
  {
    if es == [] then [] else ExprPlaces(es[0], scope) + ExprsPlaces(es[1..], scope)
  }

  function ExprPlaces(e: Expr, scope: set<string>): seq<Place>
    decreases e
  {
    match e
    case SubqueryExpr(_, query, operands) => QueryPlaces(query, scope) + ExprsPlaces(operands, scope)
    case _ => ExprsPlaces(e.operands, scope)
  }

  /** What is to become of a place: an unshadowed reference to a protected table gives way to the secure subquery for it;
      a shadowed one, and one to a table without policies, stays. */
  function Rewritten(p: Place, ctx: Context): Place {
    if p.source.Base? && !Shadowed(p.source.name, p.scope) && Protected(ctx, IdentityFromName(p.source.name, ctx.catalog))
    then Place(SecureRef(ctx, p.source.name, p.source.alias), p.scope)
    else p
  }

  function RewrittenAll(ps: seq<Place>, ctx: Context): seq<Place> {
    seq(|ps|, i requires 0 <= i < |ps| => Rewritten(ps[i], ctx))
  }

  lemma RewrittenAppend(a: seq<Place>, b: seq<Place>, ctx: Context)
    ensures RewrittenAll(a + b, ctx) == RewrittenAll(a, ctx) + RewrittenAll(b, ctx)
  {
  }

  /** The places of a rewritten query are those of the original, one by one and in order, each rewritten in its own scope,
      wherever it stands: in any CTE definition, subquery, join, set operation or expression. */
  lemma {:induction false} RewriteIsPlaceByPlace(q: Query, ctx: Context, scope: set<string>)
    ensures QueryPlaces(ImageQuery(q, ctx, scope), scope) == RewrittenAll(QueryPlaces(q, scope), ctx)
    decreases q, 1
  {
    if !q.OtherQuery? {
      var inner := ScopeAfter(q.ctes, scope);
      var image := ImageCtes(q.ctes, ctx, scope);
      assert ScopeAfter(image, scope) == inner by { SameScopeAfter(q.ctes, image, scope); }
      CtesPlaceByPlace(q.ctes, ctx, scope);
      BodyPlaceByPlace(q, image, ctx, inner);
      RewrittenAppend(CtePlaces(q.ctes, scope), BodyPlaces(q, inner), ctx);
    }
  }

  lemma SameScopeAfter(a: seq<Cte>, b: seq<Cte>, scope: set<string>)
    requires |a| == |b| && forall i | 0 <= i < |a| :: a[i].name == b[i].name
    ensures ScopeAfter(a, scope) == ScopeAfter(b, scope)
  {
    assert (set i | 0 <= i < |a| :: Lower(a[i].name)) == (set i | 0 <= i < |b| :: Lower(b[i].name));
  }

  lemma {:induction false} BodyPlaceByPlace(q: Query, ctes: seq<Cte>, ctx: Context, scope: set<string>)
    requires !q.OtherQuery?
    ensures BodyPlaces(ImageBody(q, ctes, ctx, scope), scope) == RewrittenAll(BodyPlaces(q, scope), ctx)
    decreases q, 0
  {
    ExprsPlaceByPlace(q.modifiers, ctx, scope);
    var m := ExprsPlaces(q.modifiers, scope);
    if q.Select? {
      RefPlaceByPlace(q.from, ctx, scope);
      ExprsPlaceByPlace(q.columns, ctx, scope);
      ExprsPlaceByPlace(q.groups, ctx, scope);
      ExprsPlaceByPlace(q.where, ctx, scope);
      ExprsPlaceByPlace(q.having, ctx, scope);
      ExprsPlaceByPlace(q.qualify, ctx, scope);
      var f, c := RefPlaces(q.from, scope), ExprsPlaces(q.columns, scope);
      var g, w := ExprsPlaces(q.groups, scope), ExprsPlaces(q.where, scope);
      var h, y := ExprsPlaces(q.having, scope), ExprsPlaces(q.qualify, scope);
      RewrittenAppend(y, m, ctx);
      RewrittenAppend(h, y + m, ctx);
      RewrittenAppend(w, h + (y + m), ctx);
      RewrittenAppend(g, w + (h + (y + m)), ctx);
      RewrittenAppend(c, g + (w + (h + (y + m))), ctx);
      RewrittenAppend(f, c + (g + (w + (h + (y + m)))), ctx);
    } else {
      QueriesPlaceByPlace(q.children, ctx, scope);
      RewrittenAppend(QueriesPlaces(q.children, scope), m, ctx);
    }
  }

  lemma {:induction false} QueriesPlaceByPlace(qs: seq<Query>, ctx: Context, scope: set<string>)
    ensures QueriesPlaces(ImageQueries(qs, ctx, scope), scope) == RewrittenAll(QueriesPlaces(qs, scope), ctx)
    decreases qs
  {
    if qs != [] {
      RewriteIsPlaceByPlace(qs[0], ctx, scope);
      QueriesPlaceByPlace(qs[1..], ctx, scope);
      assert ImageQueries(qs, ctx, scope)[1..] == ImageQueries(qs[1..], ctx, scope);
      RewrittenAppend(QueryPlaces(qs[0], scope), QueriesPlaces(qs[1..], scope), ctx);
    }
  }

  lemma {:induction false} CtesPlaceByPlace(ctes: seq<Cte>, ctx: Context, scope: set<string>)
    ensures CtePlaces(ImageCtes(ctes, ctx, scope), scope) == RewrittenAll(CtePlaces(ctes, scope), ctx)
    decreases ctes
  {
    if ctes != [] {
      var next := scope + {Lower(ctes[0].name)};
      RewriteIsPlaceByPlace(ctes[0].definition, ctx, scope);
      CtesPlaceByPlace(ctes[1..], ctx, next);
      assert ImageCtes(ctes, ctx, scope)[1..] == ImageCtes(ctes[1..], ctx, next);
      RewrittenAppend(QueryPlaces(ctes[0].definition, scope), CtePlaces(ctes[1..], next), ctx);
    }
  }

  lemma {:induction false} RefPlaceByPlace(r: Ref, ctx: Context, scope: set<string>)
    ensures RefPlaces(ImageRef(r, ctx, scope), scope) == RewrittenAll(RefPlaces(r, scope), ctx)
    decreases r
  {
    match r
    case Subquery(query, _) => RewriteIsPlaceByPlace(query, ctx, scope);
    case Join(left, right, condition, _) =>
      RefPlaceByPlace(left, ctx, scope);
      RefPlaceByPlace(right, ctx, scope);
      ExprsPlaceByPlace(condition, ctx, scope);
      RewrittenAppend(RefPlaces(right, scope), ExprsPlaces(condition, scope), ctx);
      RewrittenAppend(RefPlaces(left, scope), RefPlaces(right, scope) + ExprsPlaces(condition, scope), ctx);
    case ExpressionList(values, _) => ExprsPlaceByPlace(values, ctx, scope);
    case _ =>
  }

  lemma {:induction false} ExprsPlaceByPlace(es: seq<Expr>, ctx: Context, scope: set<string>)
    ensures ExprsPlaces(ImageExprs(es, ctx, scope), scope) == RewrittenAll(ExprsPlaces(es, scope), ctx)
    decreases es
  {
    if es != [] {
      ExprPlaceByPlace(es[0], ctx, scope);
      ExprsPlaceByPlace(es[1..], ctx, scope);
      assert ImageExprs(es, ctx, scope)[1..] == ImageExprs(es[1..], ctx, scope);
      RewrittenAppend(ExprPlaces(es[0], scope), ExprsPlaces(es[1..], scope), ctx);
    }
  }

  lemma {:induction false} ExprPlaceByPlace(e: Expr, ctx: Context, scope: set<string>)
    ensures ExprPlaces(ImageExpr(e, ctx, scope), scope) == RewrittenAll(ExprPlaces(e, scope), ctx)
    decreases e
  {
    ExprsPlaceByPlace(e.operands, ctx, scope);
    if e.SubqueryExpr? {
      RewriteIsPlaceByPlace(e.query, ctx, scope);
      RewrittenAppend(QueryPlaces(e.query, scope), ExprsPlaces(e.operands, scope), ctx);
    }
  }

  // ---------------------------------------------------------------- what a CTE shadows

  /** The definitions from any point of a CTE list on stand in the scope of those before it, and of no others. */
  lemma {:induction false} LaterDefinitions(before: seq<Cte>, after: seq<Cte>, scope: set<string>)
    ensures CtePlaces(before + after, scope) == CtePlaces(before, scope) + CtePlaces(after, ScopeAfter(before, scope))
    decreases before
  {
    if before == [] {
      assert before + after == after && ScopeAfter(before, scope) == scope;
    } else {
      var next := scope + {Lower(before[0].name)};
      var rest := before[1..];
      assert (before + after)[1..] == rest + after;
      LaterDefinitions(rest, after, next);
      assert before == [before[0]] + rest;
      assert ScopeAfter(rest, next) == ScopeAfter(before, scope) by { ScopeAfterHead(before, scope); }
      Assoc(QueryPlaces(before[0].definition, scope), CtePlaces(rest, next), CtePlaces(after, ScopeAfter(before, scope)));
    }
  }

  lemma ScopeAfterHead(ctes: seq<Cte>, scope: set<string>)
    requires ctes != []
    ensures ScopeAfter(ctes[1..], scope + {Lower(ctes[0].name)}) == ScopeAfter(ctes, scope)
  {
    var rest := ctes[1..];
    forall n | n in ScopeAfter(ctes, scope) ensures n in ScopeAfter(rest, scope + {Lower(ctes[0].name)}) {
      if n !in scope {
        var i :| 0 <= i < |ctes| && n == Lower(ctes[i].name);
        if i > 0 { assert rest[i - 1] == ctes[i]; }
      }
    }
    forall n | n in ScopeAfter(rest, scope + {Lower(ctes[0].name)}) ensures n in ScopeAfter(ctes, scope) {
      if n !in scope + {Lower(ctes[0].name)} {
        var i :| 0 <= i < |rest| && n == Lower(rest[i].name);
        assert rest[i] == ctes[i + 1];
      }
    }
  }

  /** `WITH .., n AS (.. n ..), .. ..n..` for any list of CTEs: in the definition of n a bare reference to n that no earlier
      CTE shadows is to the table, and is secured if that is protected; in every later definition and in the body it
      is to the CTE, and stays. */
  lemma CteNameIsSecuredInItsDefinitionOnly(before: seq<Cte>, c: Cte, after: seq<Cte>, name: QualifiedName, alias: string, ctx: Context)
    requires Bare(name) && SameIdentifier(name.name, c.name) && Protected(ctx, IdentityFromName(name, ctx.catalog))
    requires forall i | 0 <= i < |before| :: !SameIdentifier(before[i].name, c.name)
    ensures Rewritten(Place(Base(name, alias), ScopeAfter(before, {})), ctx).source == SecureRef(ctx, name, alias)
    ensures forall k | 0 <= k <= |after| ::
      Rewritten(Place(Base(name, alias), ScopeAfter(before + [c] + after[..k], {})), ctx).source == Base(name, alias)
  {
    forall k | 0 <= k <= |after| ensures Lower(c.name) in ScopeAfter(before + [c] + after[..k], {}) {
      var all := before + [c] + after[..k];
      assert all[|before|] == c;
    }
  }
}
