/** The rewriter as it runs: a recursion over the tree that pushes and truncates one list of CTE names
    and records the first failure in fields of its context. */
module PolicyRewriterState {
  import opened Collections
  import opened Identifiers
  import opened PolicySyntax
  import opened PolicyRewriter
  import opened PolicyMeaning

  ghost function NameSet(names: seq<string>): set<string> {
    set i | 0 <= i < |names| :: Lower(names[i])
  }

  lemma NameSetPush(names: seq<string>, name: string)
    ensures NameSet(names + [name]) == NameSet(names) + {Lower(name)}
  {
    var more := names + [name];
    assert more[|names|] == name;
    assert forall i | 0 <= i < |names| :: more[i] == names[i];
  }

  /** The CTE loop after `i` turns: `done` is rewritten and `scope` is the names in scope now. */
  ghost predicate CtesDone(ctes: seq<Cte>, i: nat, ctx: Context, start: set<string>, scope: set<string>, done: seq<Cte>)
  {
    && i <= |ctes|
    && VerdictCtes(ctes, ctx, start) == VerdictCtes(ctes[i..], ctx, scope)
    && ImageCtes(ctes, ctx, start) == done + ImageCtes(ctes[i..], ctx, scope)
    && ScopeAfter(ctes, start) == ScopeAfter(ctes[i..], scope)
  }

  lemma CtesStep(ctes: seq<Cte>, i: nat, ctx: Context, start: set<string>, scope: set<string>, done: seq<Cte>)
    requires i < |ctes| && CtesDone(ctes, i, ctx, start, scope, done)
    ensures var v := VerdictQuery(ctes[i].definition, ctx, scope);
      && (v.Fail? ==> VerdictCtes(ctes, ctx, start) == Refuse(v, ctx, BadCte))
      && (v.Pass? ==> CtesDone(ctes, i + 1, ctx, start, scope + {Lower(ctes[i].name)},
                               done + [Cte(ctes[i].name, ImageQuery(ctes[i].definition, ctx, scope))]))
  {
    assert ctes[i..][0] == ctes[i] && ctes[i..][1..] == ctes[i + 1..];
    ScopeAfterStep(ctes[i..], scope);
  }

  lemma CtesEnd(ctes: seq<Cte>, ctx: Context, start: set<string>, scope: set<string>, done: seq<Cte>)
    requires CtesDone(ctes, |ctes|, ctx, start, scope, done)
    ensures VerdictCtes(ctes, ctx, start).Pass? && ImageCtes(ctes, ctx, start) == done && ScopeAfter(ctes, start) == scope
  {
    assert ctes[|ctes|..] == [];
  }

  class Rewriter {
    const ctx: Context
    var error: string
    var deny: bool
    var cteNames: seq<string>

    constructor (ctx: Context)
      ensures this.ctx == ctx && Reports(Pass) && cteNames == []
    {
      this.ctx := ctx;
      error, deny, cteNames := "", false, [];
    }

    /** The CTE names in scope, as the reverse scan over the list compares them. */
    ghost function Scope(): set<string>
      reads this
    {
      NameSet(cteNames)
    }

    ghost predicate Reports(v: Verdict)
      reads this
    {
      error == (if v.Fail? then v.error else "") && deny == (v.Fail? && v.deny)
    }

    method Reject(reason: string)
      modifies this`error, this`deny
      ensures error == if old(error) == "" then reason else old(error)
      ensures deny == (old(deny) || !ctx.authenticated)
    {
      if error == "" { error := reason; }
      if !ctx.authenticated { deny := true; }
    }

    method InScope(name: string) returns (found: bool)
      ensures found <==> Lower(name) in Scope()
    {
      var i := |cteNames|;
      found := false;
      while i > 0
        invariant 0 <= i <= |cteNames| && !found
        invariant forall j | i <= j < |cteNames| :: !SameIdentifier(cteNames[j], name)
      {
        i := i - 1;
        if SameIdentifier(cteNames[i], name) { return true; }
      }
    }

    /** The expressions of one clause, in order, up to the first that fails. */
    method RewriteExpressions(es: seq<Expr>) returns (ok: bool, image: seq<Expr>)
      requires Reports(Pass)
      modifies this
      ensures cteNames == old(cteNames) && Reports(VerdictExprs(es, ctx, Scope()))
      ensures ok <==> VerdictExprs(es, ctx, Scope()).Pass?
      ensures ok ==> image == ImageExprs(es, ctx, Scope())
      decreases es
    {
      image := [];
      for i := 0 to |es|
        invariant Reports(Pass) && cteNames == old(cteNames)
        invariant VerdictExprs(es, ctx, Scope()) == VerdictExprs(es[i..], ctx, Scope())
        invariant image == ImageExprs(es[..i], ctx, Scope())
      {
        var good, one := RewriteExpression(es[i]);
        assert es[i..][0] == es[i] && es[i..][1..] == es[i + 1..];
        if !good { return false, image; }
        assert es[..i + 1] == es[..i] + [es[i]];
        image := image + [one];
      }
      assert es[..|es|] == es;
      return true, image;
    }

    method RewriteExpression(e: Expr) returns (ok: bool, image: Expr)
      requires Reports(Pass)
      modifies this
      ensures cteNames == old(cteNames) && Reports(VerdictExpr(e, ctx, Scope()))
      ensures ok <==> VerdictExpr(e, ctx, Scope()).Pass?
      ensures ok ==> image == ImageExpr(e, ctx, Scope())
      decreases e
    {
      image := e;
      if e.Call? && ctx.isMacro(e.function_) {
        Reject(MacroCall);
        return false, image;
      }
      if e.SubqueryExpr? {
        var good, query := RewriteQueryNode(e.query);
        if !good {
          if error == "" { Reject(BadSubquery); }
          return false, image;
        }
        image := image.(query := query);
      }
      var good, operands := RewriteExpressions(e.operands);
      image := image.(operands := operands);
      return good, image;
    }
  
    /** All the masks of a table, in binding order. */
    method CollectMasks(id: TableIdentity) returns (ok: bool, masked: seq<Mask>, malformed: bool)
      requires Reports(Pass)
      modifies this`error, this`deny
      ensures Reports(MaskVerdict(ctx.masks, id, ctx)) && (ok <==> MaskVerdict(ctx.masks, id, ctx).Pass?)
      ensures ok ==> masked == MasksOf(ctx.masks, id) && (malformed <==> SomeMaskMalformed(ctx.masks, id))
    {
      masked, malformed := [], false;
      for i := 0 to |ctx.masks|
        invariant Reports(Pass)
        invariant MaskVerdict(ctx.masks, id, ctx) == MaskVerdict(ctx.masks[i..], id, ctx)
        invariant MasksOf(ctx.masks, id) == masked + MasksOf(ctx.masks[i..], id)
        invariant malformed <==> SomeMaskMalformed(ctx.masks[..i], id)
      {
        var b := ctx.masks[i];
        assert ctx.masks[i..][0] == b && ctx.masks[i..][1..] == ctx.masks[i + 1..];
        assert ctx.masks[..i + 1] == ctx.masks[..i] + [b];
        MalformedStep(ctx.masks[..i], b, id);
        if b.table.None? {
          Reject(InvalidBinding);
          return false, masked, malformed;
        }
        if SameTable(id, b.table.value) {
          if b.policy.Missing? {
            Reject(MissingMaskPolicy);
            return false, masked, malformed;
          }
          if b.policy.Found? { masked := masked + [Mask(b.column, b.policy.expression)]; } else { malformed := true; }
        }
      }
      assert ctx.masks[..|ctx.masks|] == ctx.masks;
      ok := true;
    }

    /** The bindings of a table that is not shadowed, and the subquery built from them. */
    method RewriteBase(name: QualifiedName, alias: string) returns (ok: bool, image: Ref)
      requires Reports(Pass) && !Shadowed(name, Scope())
      modifies this`error, this`deny
      ensures Reports(VerdictTable(IdentityFromName(name, ctx.catalog), ctx))
      ensures ok <==> VerdictTable(IdentityFromName(name, ctx.catalog), ctx).Pass?
      ensures ok ==> image == ImageRef(Base(name, alias), ctx, Scope())
    {
      image := Base(name, alias);
      var id := IdentityFromName(name, ctx.catalog);
      if ctx.entry(Key(id)).Unresolvable? {
        Reject(UnresolvedObject);
        return false, image;
      }
      if ctx.entry(Key(id)).View? {
        Reject(ViewRead);
        return false, image;
      }
      var row, mask := FirstRow(ctx.rows, id), FirstMask(ctx.masks, id);
      FirstRowBound(ctx.rows, id);
      FirstMaskBound(ctx.masks, id);
      if row.Invalid? || mask.Invalid? {
        Reject(InvalidBinding);
        return false, image;
      }
      if row.Unbound? && mask.Unbound? { return true, image; }
      if !ctx.authenticated {
        deny := true;
        return false, image;
      }
      if row.BoundTo? && row.binding.policy.Missing? {
        Reject(MissingRowPolicy);
        return false, image;
      }
      var masked, malformed;
      ok, masked, malformed := CollectMasks(id);
      if !ok { return; }
      if (row.BoundTo? && row.binding.policy.Malformed?) || malformed {
        Reject(NoSecureSubquery);
        return false, image;
      }
      var filter := if row.BoundTo? then [row.binding.policy.expression] else [];
      image := Secure(Qualify(id), filter, masked, EffectiveAlias(name, alias));
      return true, image;
    }

    method RewriteTableRef(r: Ref) returns (ok: bool, image: Ref)
      requires Reports(Pass)
      modifies this
      ensures cteNames == old(cteNames) && Reports(VerdictRef(r, ctx, Scope()))
      ensures ok <==> VerdictRef(r, ctx, Scope()).Pass?
      ensures ok ==> image == ImageRef(r, ctx, Scope())
      decreases r
    {
      image := r;
      match r
      case Base(name, alias) =>
        if Bare(name) {
          var found := InScope(name.name);
          if found { return true, image; }
        }
        ok, image := RewriteBase(name, alias);
      case Subquery(query, alias) =>
        var node;
        ok, node := RewriteQueryNode(query);
        image := Subquery(node, alias);
      case Join(left, right, condition, kind) =>
        var l, r, c;
        ok, l := RewriteTableRef(left);
        if !ok { return; }
        ok, r := RewriteTableRef(right);
        if !ok { return; }
        ok, c := RewriteExpressions(condition);
        image := Join(l, r, c, kind);
      case ExpressionList(values, shape) =>
        var v;
        ok, v := RewriteExpressions(values);
        image := ExpressionList(v, shape);
      case TableFunction =>
        Reject(TableFunctionRead);
        ok := false;
      case OtherRef =>
        Reject(UnsupportedSource);
        ok := false;
      case EmptyFrom => ok := true;
      case Secure(_, _, _, _) => ok := true;
    }

    /** One CTE: its name comes into scope only after its own definition. */
    method RewriteCte(c: Cte) returns (ok: bool, image: Cte)
      requires Reports(Pass)
      modifies this
      ensures Reports(Refuse(VerdictQuery(c.definition, ctx, old(Scope())), ctx, BadCte))
      ensures ok <==> VerdictQuery(c.definition, ctx, old(Scope())).Pass?
      ensures cteNames == if ok then old(cteNames) + [c.name] else old(cteNames)
      ensures ok ==> Scope() == old(Scope()) + {Lower(c.name)}
      ensures ok ==> image == Cte(c.name, ImageQuery(c.definition, ctx, old(Scope())))
      decreases c
    {
      var node;
      ok, node := RewriteQueryNode(c.definition);
      image := Cte(c.name, node);
      if !ok {
        Reject(BadCte);
        return;
      }
      NameSetPush(cteNames, c.name);
      cteNames := cteNames + [c.name];
    }

    /** The CTE list of a query, which leaves its names in scope. */
    method RewriteCtes(ctes: seq<Cte>) returns (ok: bool, image: seq<Cte>)
      requires Reports(Pass)
      modifies this
      ensures old(cteNames) <= cteNames
      ensures Reports(VerdictCtes(ctes, ctx, old(Scope())))
      ensures ok <==> VerdictCtes(ctes, ctx, old(Scope())).Pass?
      ensures ok ==> image == ImageCtes(ctes, ctx, old(Scope())) && Scope() == ScopeAfter(ctes, old(Scope()))
      decreases ctes
    {
      image := [];
      ghost var start, names := Scope(), cteNames;
      for i := 0 to |ctes|
        invariant Reports(Pass)
        invariant names <= cteNames
        invariant CtesDone(ctes, i, ctx, start, Scope(), image)
      {
        CtesStep(ctes, i, ctx, start, Scope(), image);
        var good, one := RewriteCte(ctes[i]);
        if !good { return false, image; }
        image := image + [one];
      }
      CtesEnd(ctes, ctx, start, Scope(), image);
      return true, image;
    }

    method RewriteQueryNode(q: Query) returns (ok: bool, image: Query)
      requires Reports(Pass)
      modifies this
      ensures cteNames == old(cteNames) && Reports(VerdictQuery(q, ctx, Scope()))
      ensures ok <==> VerdictQuery(q, ctx, Scope()).Pass?
      ensures ok ==> image == ImageQuery(q, ctx, Scope())
      decreases q, 1
    {
      image := q;
      if q.OtherQuery? {
        Reject(UnsupportedQuery);
        return false, image;
      }
      var size := |cteNames|;
      var ctes;
      ok, ctes := RewriteCtes(q.ctes);
      if ok {
        ok, image := RewriteBody(q, ctes);
      }
      cteNames := cteNames[..size];
    }

    method RewriteBody(q: Query, ctes: seq<Cte>) returns (ok: bool, image: Query)
      requires Reports(Pass) && !q.OtherQuery?
      modifies this
      ensures cteNames == old(cteNames) && Reports(VerdictBody(q, ctx, Scope()))
      ensures ok <==> VerdictBody(q, ctx, Scope()).Pass?
      ensures ok ==> image == ImageBody(q, ctes, ctx, Scope())
      decreases q, 0
    {
      image := q;
      if q.Select? {
        var from, columns, groups, where, having, qualify, modifiers;
        ok, from := RewriteTableRef(q.from);
        if !ok { return; }
        ok, columns := RewriteExpressions(q.columns);
        if !ok { return; }
        ok, groups := RewriteExpressions(q.groups);
        if !ok { return; }
        ok, where := RewriteExpressions(q.where);
        if !ok { return; }
        ok, having := RewriteExpressions(q.having);
        if !ok { return; }
        ok, qualify := RewriteExpressions(q.qualify);
        if !ok { return; }
        ok, modifiers := RewriteExpressions(q.modifiers);
        image := Select(ctes, from, columns, groups, where, having, qualify, modifiers, q.shape);
      } else {
        var children: seq<Query> := [];
        for i := 0 to |q.children|
          invariant Reports(Pass) && cteNames == old(cteNames)
          invariant VerdictQueries(q.children, ctx, Scope()) == VerdictQueries(q.children[i..], ctx, Scope())
          invariant children == ImageQueries(q.children[..i], ctx, Scope())
        {
          assert q.children[i..][0] == q.children[i] && q.children[i..][1..] == q.children[i + 1..];
          var good, node := RewriteQueryNode(q.children[i]);
          if !good { return false, image; }
          assert q.children[..i + 1] == q.children[..i] + [q.children[i]];
          children := children + [node];
        }
        assert q.children[..|q.children|] == q.children;
        var modifiers;
        ok, modifiers := RewriteExpressions(q.modifiers);
        image := SetOperation(ctes, children, modifiers, q.shape);
      }
    }
  }

  lemma {:induction false} FirstRowBound(bindings: seq<RowBinding>, table: TableIdentity)
    ensures FirstRow(bindings, table).BoundTo? ==>
      exists i | 0 <= i < |bindings| :: bindings[i].table.Some? && SameTable(table, bindings[i].table.value)
    ensures FirstRow(bindings, table).Unbound? ==>
      forall i | 0 <= i < |bindings| :: bindings[i].table.Some? && !SameTable(table, bindings[i].table.value)
  {
    if bindings != [] {
      FirstRowBound(bindings[1..], table);
      assert forall i | 0 < i < |bindings| :: bindings[i] == bindings[1..][i - 1];
    }
  }

  lemma {:induction false} FirstMaskBound(bindings: seq<MaskBinding>, table: TableIdentity)
    ensures FirstMask(bindings, table).BoundTo? ==>
      exists i | 0 <= i < |bindings| :: bindings[i].table.Some? && SameTable(table, bindings[i].table.value)
    ensures FirstMask(bindings, table).Unbound? ==>
      forall i | 0 <= i < |bindings| :: bindings[i].table.Some? && !SameTable(table, bindings[i].table.value)
  {
    if bindings != [] {
      FirstMaskBound(bindings[1..], table);
      assert forall i | 0 < i < |bindings| :: bindings[i] == bindings[1..][i - 1];
    }
  }

  lemma MalformedStep(bindings: seq<MaskBinding>, b: MaskBinding, table: TableIdentity)
    ensures SomeMaskMalformed(bindings + [b], table) <==>
      || SomeMaskMalformed(bindings, table)
      || (b.table.Some? && SameTable(table, b.table.value) && b.policy.Malformed?)
  {
    assert (bindings + [b])[|bindings|] == b;
    assert forall i | 0 <= i < |bindings| :: (bindings + [b])[i] == bindings[i];
  }
}
