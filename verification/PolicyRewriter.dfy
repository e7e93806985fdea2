/** What the policy rewriter computes: the verdict on a query, and the tree it leaves behind. */
module PolicyRewriter {
  import opened Collections
  import opened Identifiers
  import opened PolicySyntax

  /** What a binding's policy name leads to, after its columns have been substituted. `Malformed`
      is text from which no secure subquery can be parsed. */
  datatype Policy = Missing | Malformed | Found(expression: Expr)

  /** A binding's table is `None` when its name does not parse as a catalog identity. */
  datatype RowBinding = RowBinding(table: Option<TableIdentity>, policy: Policy)
  datatype MaskBinding = MaskBinding(table: Option<TableIdentity>, column: string, policy: Policy)

  datatype CatalogEntry = NotAView | View | Unresolvable

  datatype Context = Context(
    rows: seq<RowBinding>, masks: seq<MaskBinding>, authenticated: bool, catalog: string,
    entry: TableIdentity -> CatalogEntry, isMacro: string -> bool)

  datatype Outcome = Pass | Fail(error: string, deny: bool)

  /** `deny` is the unauthenticated denial; an empty error with `deny` is a plain 403. A failure is never
      silent: the handler text goes out rewritten only when there is neither an error nor a denial. */
  type Verdict = v: Outcome | v.Fail? ==> v.error != "" || v.deny witness Pass

  const InvalidBinding := "policy binding has an invalid catalog identity"
  const UnresolvedObject := "policy enforcement could not resolve catalog object identity"
  const ViewRead := "policy enforcement rejects indirect view reads"
  const MissingRowPolicy := "row-access policy binding references a missing policy"
  const MissingMaskPolicy := "masking policy binding references a missing policy"
  const NoSecureSubquery := "policy enforcement could not construct a secure subquery"
  const TableFunctionRead := "policy enforcement rejects table functions and table macros"
  const UnsupportedSource := "policy enforcement rejects an unsupported relation source"
  const UnsupportedQuery := "policy enforcement rejects an unsupported query form"
  const MacroCall := "policy enforcement rejects scalar macro dependencies"
  const BadSubquery := "policy enforcement could not inspect a nested subquery"
  const BadCte := "policy enforcement could not inspect a common table expression"

  function Reject(ctx: Context, reason: string): Verdict
    requires reason != ""
  {
    Fail(reason, !ctx.authenticated)
  }

  /** A second `Reject` on the way out keeps the first reason and only fills an empty one. */
  function Refuse(v: Verdict, ctx: Context, reason: string): Verdict
    requires reason != ""
  {
    if v.Pass? then v
    else Fail(if v.error == "" then reason else v.error, v.deny || !ctx.authenticated)
  }

  /** A failure without a reason gets one. */
  function Explain(v: Verdict, ctx: Context, reason: string): Verdict
    requires reason != ""
  {
    if v.Fail? && v.error == "" then Fail(reason, v.deny || !ctx.authenticated) else v
  }

  function Then(first: Verdict, second: Verdict): Verdict {
    if first.Pass? then second else first
  }

  /** The first binding for a table, unless an unparsable binding comes before it. */
  datatype Scan<+B> = Unbound | Invalid | BoundTo(binding: B)

  function FirstRow(bindings: seq<RowBinding>, table: TableIdentity): Scan<RowBinding> {
    if bindings == [] then Unbound
    else if bindings[0].table.None? then Invalid
    else if SameTable(table, bindings[0].table.value) then BoundTo(bindings[0])
    else FirstRow(bindings[1..], table)
  }

  function FirstMask(bindings: seq<MaskBinding>, table: TableIdentity): Scan<MaskBinding> {
    if bindings == [] then Unbound
    else if bindings[0].table.None? then Invalid
    else if SameTable(table, bindings[0].table.value) then BoundTo(bindings[0])
    else FirstMask(bindings[1..], table)
  }

  /** All masks of a table, in binding order. */
  function MasksOf(bindings: seq<MaskBinding>, table: TableIdentity): seq<Mask> {
    if bindings == [] then []
    else
      var rest := MasksOf(bindings[1..], table);
      var b := bindings[0];
      if b.table.Some? && SameTable(table, b.table.value) && b.policy.Found?
      then [Mask(b.column, b.policy.expression)] + rest else rest
  }

  function MaskVerdict(bindings: seq<MaskBinding>, table: TableIdentity, ctx: Context): Verdict {
    if bindings == [] then Pass
    else if bindings[0].table.None? then Reject(ctx, InvalidBinding)
    else if SameTable(table, bindings[0].table.value) && bindings[0].policy.Missing? then
      Reject(ctx, MissingMaskPolicy)
    else MaskVerdict(bindings[1..], table, ctx)
  }

  predicate SomeMaskMalformed(bindings: seq<MaskBinding>, table: TableIdentity) {
    exists i | 0 <= i < |bindings| ::
      && bindings[i].table.Some? && SameTable(table, bindings[i].table.value)
      && bindings[i].policy.Malformed?
  }

  function RowFilter(ctx: Context, table: TableIdentity): seq<Expr> {
    match FirstRow(ctx.rows, table)
    case BoundTo(b) => if b.policy.Found? then [b.policy.expression] else []
    case _ => []
  }

  /** A table is protected when some binding names it. */
  predicate Protected(ctx: Context, table: TableIdentity) {
    || (exists i | 0 <= i < |ctx.rows| :: ctx.rows[i].table.Some? && SameTable(table, ctx.rows[i].table.value))
    || (exists i | 0 <= i < |ctx.masks| :: ctx.masks[i].table.Some? && SameTable(table, ctx.masks[i].table.value))
  }

  predicate Shadowed(name: QualifiedName, scope: set<string>) {
    Bare(name) && Lower(name.name) in scope
  }

  function Qualify(id: TableIdentity): QualifiedName {
    QualifiedName(id.catalog, id.schema, id.table)
  }

  /** The subquery that replaces a reference to a protected table. */
  function SecureRef(ctx: Context, name: QualifiedName, alias: string): Ref {
    var id := IdentityFromName(name, ctx.catalog);
    Secure(Qualify(id), RowFilter(ctx, id), MasksOf(ctx.masks, id), EffectiveAlias(name, alias))
  }

  // ---------------------------------------------------------------- the rewritten tree

  function ImageQuery(q: Query, ctx: Context, scope: set<string>): Query
    decreases q, 1
  {
    if q.OtherQuery? then q
    else ImageBody(q, ImageCtes(q.ctes, ctx, scope), ctx, ScopeAfter(q.ctes, scope))
  }

  /** The rest of a query whose CTE list has been rewritten; `scope` already has the CTE names. */
  function ImageBody(q: Query, ctes: seq<Cte>, ctx: Context, scope: set<string>): Query
    requires !q.OtherQuery?
    decreases q, 0
  {
    match q
    case Select(_, from, columns, groups, where, having, qualify, modifiers, shape) =>
      Select(ctes, ImageRef(from, ctx, scope), ImageExprs(columns, ctx, scope), ImageExprs(groups, ctx, scope),
             ImageExprs(where, ctx, scope), ImageExprs(having, ctx, scope), ImageExprs(qualify, ctx, scope),
             ImageExprs(modifiers, ctx, scope), shape)
    case SetOperation(_, children, modifiers, shape) =>
      SetOperation(ctes, ImageQueries(children, ctx, scope), ImageExprs(modifiers, ctx, scope), shape)
  }

  function ImageQueries(qs: seq<Query>, ctx: Context, scope: set<string>): seq<Query>
    decreases qs
  {
    seq(|qs|, i requires 0 <= i < |qs| => ImageQuery(qs[i], ctx, scope))
  }

  function ImageCtes(ctes: seq<Cte>, ctx: Context, scope: set<string>): (image: seq<Cte>)
    ensures |image| == |ctes|
    ensures forall i | 0 <= i < |ctes| :: image[i].name == ctes[i].name
    decreases ctes
  {
    if ctes == [] then []
    else [Cte(ctes[0].name, ImageQuery(ctes[0].definition, ctx, scope))]
         + ImageCtes(ctes[1..], ctx, scope + {Lower(ctes[0].name)})
  }

  function ImageRef(r: Ref, ctx: Context, scope: set<string>): Ref
    decreases r
  {
    match r
    case Base(name, alias) =>
      if !Shadowed(name, scope) && Protected(ctx, IdentityFromName(name, ctx.catalog))
      then SecureRef(ctx, name, alias) else r
    case Subquery(query, alias) => Subquery(ImageQuery(query, ctx, scope), alias)
    case Join(left, right, condition, kind) =>
      Join(ImageRef(left, ctx, scope), ImageRef(right, ctx, scope), ImageExprs(condition, ctx, scope), kind)
    case ExpressionList(values, shape) => ExpressionList(ImageExprs(values, ctx, scope), shape)
    case _ => r
  }

  function ImageExprs(es: seq<Expr>, ctx: Context, scope: set<string>): seq<Expr>
    decreases es
  {
    seq(|es|, i requires 0 <= i < |es| => ImageExpr(es[i], ctx, scope))
  }

  function ImageExpr(e: Expr, ctx: Context, scope: set<string>): Expr
    decreases e
  {
    match e
    case Operator(text, operands) => Operator(text, ImageExprs(operands, ctx, scope))
    case Call(name, operands) => Call(name, ImageExprs(operands, ctx, scope))
    case SubqueryExpr(kind, query, operands) =>
      SubqueryExpr(kind, ImageQuery(query, ctx, scope), ImageExprs(operands, ctx, scope))
  }

  // ---------------------------------------------------------------- the verdict

  function VerdictQuery(q: Query, ctx: Context, scope: set<string>): Verdict
    decreases q, 1
  {
    if q.OtherQuery? then Reject(ctx, UnsupportedQuery)
    else Then(VerdictCtes(q.ctes, ctx, scope), VerdictBody(q, ctx, ScopeAfter(q.ctes, scope)))
  }

  function VerdictBody(q: Query, ctx: Context, scope: set<string>): Verdict
    requires !q.OtherQuery?
    decreases q, 0
  {
    match q
    case Select(_, from, columns, groups, where, having, qualify, modifiers, _) =>
      Then(VerdictRef(from, ctx, scope),
      Then(VerdictExprs(columns, ctx, scope),
      Then(VerdictExprs(groups, ctx, scope),
      Then(VerdictExprs(where, ctx, scope),
      Then(VerdictExprs(having, ctx, scope),
      Then(VerdictExprs(qualify, ctx, scope), VerdictExprs(modifiers, ctx, scope)))))))
    case SetOperation(_, children, modifiers, _) =>
      Then(VerdictQueries(children, ctx, scope), VerdictExprs(modifiers, ctx, scope))
  }

  function VerdictQueries(qs: seq<Query>, ctx: Context, scope: set<string>): Verdict
    decreases qs
  {
    if qs == [] then Pass
    else Then(VerdictQuery(qs[0], ctx, scope), VerdictQueries(qs[1..], ctx, scope))
  }

  function VerdictCtes(ctes: seq<Cte>, ctx: Context, scope: set<string>): Verdict
    decreases ctes
  {
    if ctes == [] then Pass
    else Then(Refuse(VerdictQuery(ctes[0].definition, ctx, scope), ctx, BadCte),
              VerdictCtes(ctes[1..], ctx, scope + {Lower(ctes[0].name)}))
  }

  /** A base reference that no CTE shadows. */
  function VerdictTable(table: TableIdentity, ctx: Context): Verdict {
    var entry := ctx.entry(Key(table));
    var row := FirstRow(ctx.rows, table);
    var mask := FirstMask(ctx.masks, table);
    if entry.Unresolvable? then Reject(ctx, UnresolvedObject)
    else if entry.View? then Reject(ctx, ViewRead)
    else if row.Invalid? || mask.Invalid? then Reject(ctx, InvalidBinding)
    else if row.Unbound? && mask.Unbound? then Pass
    else if !ctx.authenticated then Fail("", true)
    else if row.BoundTo? && row.binding.policy.Missing? then Reject(ctx, MissingRowPolicy)
    else if !MaskVerdict(ctx.masks, table, ctx).Pass? then MaskVerdict(ctx.masks, table, ctx)
    else if (row.BoundTo? && row.binding.policy.Malformed?) || SomeMaskMalformed(ctx.masks, table) then
      Reject(ctx, NoSecureSubquery)
    else Pass
  }

  function VerdictRef(r: Ref, ctx: Context, scope: set<string>): Verdict
    decreases r
  {
    match r
    case Base(name, _) =>
      if Shadowed(name, scope) then Pass else VerdictTable(IdentityFromName(name, ctx.catalog), ctx)
    case Subquery(query, _) => VerdictQuery(query, ctx, scope)
    case Join(left, right, condition, _) =>
      Then(VerdictRef(left, ctx, scope), Then(VerdictRef(right, ctx, scope), VerdictExprs(condition, ctx, scope)))
    case ExpressionList(values, _) => VerdictExprs(values, ctx, scope)
    case EmptyFrom => Pass
    case TableFunction => Reject(ctx, TableFunctionRead)
    case OtherRef => Reject(ctx, UnsupportedSource)
    case Secure(_, _, _, _) => Pass
  }

  function VerdictExprs(es: seq<Expr>, ctx: Context, scope: set<string>): Verdict
    decreases es
  {
    if es == [] then Pass
    else Then(VerdictExpr(es[0], ctx, scope), VerdictExprs(es[1..], ctx, scope))
  }

  function VerdictExpr(e: Expr, ctx: Context, scope: set<string>): Verdict
    decreases e
  {
    match e
    case Operator(_, operands) => VerdictExprs(operands, ctx, scope)
    case Call(name, operands) =>
      if ctx.isMacro(name) then Reject(ctx, MacroCall) else VerdictExprs(operands, ctx, scope)
    case SubqueryExpr(_, query, operands) =>
      Then(Explain(VerdictQuery(query, ctx, scope), ctx, BadSubquery), VerdictExprs(operands, ctx, scope))
  }

  // ---------------------------------------------------------------- the handler

  /** The handler text as the parser sees it. */
  datatype Handler = Unparsable | NotOneSelect | OneSelect(query: Query)

  const UnparsableHandler := "policy enforcement could not parse handler SQL"
  const NotOneSelectHandler := "policy enforcement supports one SELECT statement per handler"

  function HandlerVerdict(h: Handler, ctx: Context): Verdict {
    if ctx.rows == [] && ctx.masks == [] then Pass
    else
      match h
      case Unparsable => Reject(ctx, UnparsableHandler)
      case NotOneSelect => Reject(ctx, NotOneSelectHandler)
      case OneSelect(q) => VerdictQuery(q, ctx, {})
  }

  /** The check made before a caller is authenticated. */
  predicate HandlerTouchesPoliciedTable(h: Handler, ctx: Context) {
    HandlerVerdict(h, ctx.(authenticated := false)).Fail?
  }
}
