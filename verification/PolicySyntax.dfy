/** The part of DuckDB's parsed SELECT tree that the policy rewriter walks. */
module PolicySyntax {
  import opened Identifiers

  datatype Cte = Cte(name: string, definition: Query)

  datatype Query =
    | Select(ctes: seq<Cte>, from: Ref, columns: seq<Expr>, groups: seq<Expr>, where: seq<Expr>,
             having: seq<Expr>, qualify: seq<Expr>, modifiers: seq<Expr>, shape: string)
    | SetOperation(ctes: seq<Cte>, children: seq<Query>, modifiers: seq<Expr>, shape: string)
    | OtherQuery

  /** `Secure` never comes out of the parser: it is the subquery that the rewriter puts in the place
      of a protected table, `SELECT * EXCLUDE (m), (e) AS m FROM table WHERE (w)`. */
  datatype Ref =
    | Base(name: QualifiedName, alias: string)
    | Subquery(query: Query, alias: string)
    | Join(left: Ref, right: Ref, condition: seq<Expr>, kind: string)
    | ExpressionList(values: seq<Expr>, shape: string)
    | EmptyFrom
    | TableFunction
    | OtherRef
    | Secure(table: QualifiedName, rowFilter: seq<Expr>, masks: seq<Mask>, alias: string)

  datatype Mask = Mask(column: string, expression: Expr)

  /** Constants, column references and operators are `Operator`; `Call` is a named function, which the
      catalog may turn out to define as a macro. */
  datatype Expr =
    | Operator(text: string, operands: seq<Expr>)
    | Call(function_: string, operands: seq<Expr>)
    | SubqueryExpr(kind: string, query: Query, operands: seq<Expr>)

  function EffectiveAlias(name: QualifiedName, alias: string): string {
    if alias == "" then name.name else alias
  }

  /** One thing a query depends on: a table read, with the CTE names in scope where it is read and
      whether it lies inside a secure subquery; a function call; or a source that cannot be inspected. */
  datatype Site =
    | Read(table: TableIdentity, bare: bool, scope: set<string>, inside: bool)
    | Calls(function_: string)
    | Opaque

  function Inside(s: Site): Site {
    if s.Read? then s.(inside := true) else s
  }

  /** All the sites of a query, given the lowered CTE names visible where it stands. */
  ghost function QuerySites(q: Query, catalog: string, scope: set<string>): set<Site>
    decreases q, 1
  {
    if q.OtherQuery? then {Opaque}
    else CteSites(q.ctes, catalog, scope) + BodySites(q, catalog, ScopeAfter(q.ctes, scope))
  }

  /** The sites of a query outside its CTE definitions; `scope` already has the CTE names. */
  ghost function BodySites(q: Query, catalog: string, scope: set<string>): set<Site>
    requires !q.OtherQuery?
    decreases q, 0
  {
    match q
    case Select(_, from, columns, groups, where, having, qualify, modifiers, _) =>
      RefSites(from, catalog, scope)
      + ExprsSites(columns, catalog, scope) + ExprsSites(groups, catalog, scope)
      + ExprsSites(where, catalog, scope) + ExprsSites(having, catalog, scope)
      + ExprsSites(qualify, catalog, scope) + ExprsSites(modifiers, catalog, scope)
    case SetOperation(_, children, modifiers, _) =>
      (set i, s | 0 <= i < |children| && s in QuerySites(children[i], catalog, scope) :: s)
      + ExprsSites(modifiers, catalog, scope)
  }

  /** A definition sees the CTEs before it, not itself and not the later ones. */
  ghost function CteSites(ctes: seq<Cte>, catalog: string, scope: set<string>): set<Site>
    decreases ctes
  {
    if ctes == [] then {}
    else QuerySites(ctes[0].definition, catalog, scope)
         + CteSites(ctes[1..], catalog, scope + {Lower(ctes[0].name)})
  }

  ghost function RefSites(r: Ref, catalog: string, scope: set<string>): set<Site>
    decreases r
  {
    match r
    case Base(name, _) =>
      if Bare(name) && Lower(name.name) in scope then {}
      else {Read(Key(IdentityFromName(name, catalog)), Bare(name), scope, false)}
    case Subquery(query, _) => QuerySites(query, catalog, scope)
    case Join(left, right, condition, _) =>
      RefSites(left, catalog, scope) + RefSites(right, catalog, scope) + ExprsSites(condition, catalog, scope)
    case ExpressionList(values, _) => ExprsSites(values, catalog, scope)
    case EmptyFrom => {}
    case TableFunction => {Opaque}
    case OtherRef => {Opaque}
    case Secure(table, rowFilter, masks, _) =>
      {Read(Key(IdentityFromName(table, catalog)), false, scope, true)}
      + (set s | s in ExprsSites(rowFilter, catalog, scope) :: Inside(s))
      + (set s | s in MaskSites(masks, catalog, scope) :: Inside(s))
  }

  ghost function ExprsSites(es: seq<Expr>, catalog: string, scope: set<string>): set<Site>
    decreases es
  {
    set i, s | 0 <= i < |es| && s in ExprSites(es[i], catalog, scope) :: s
  }

  ghost function MaskSites(masks: seq<Mask>, catalog: string, scope: set<string>): set<Site>
    decreases masks
  {
    set i, s | 0 <= i < |masks| && s in ExprSites(masks[i].expression, catalog, scope) :: s
  }

  ghost function ExprSites(e: Expr, catalog: string, scope: set<string>): set<Site>
    decreases e
  {
    match e
    case Operator(_, operands) => ExprsSites(operands, catalog, scope)
    case Call(name, operands) => {Calls(name)} + ExprsSites(operands, catalog, scope)
    case SubqueryExpr(_, query, operands) =>
      QuerySites(query, catalog, scope) + ExprsSites(operands, catalog, scope)
  }

  function ScopeAfter(ctes: seq<Cte>, scope: set<string>): set<string> {
    scope + set i | 0 <= i < |ctes| :: Lower(ctes[i].name)
  }
}
