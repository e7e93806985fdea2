/** A compositional meaning for queries. The relational operators are parameters: every statement
    made with them holds whatever they compute. */
module PolicySemantics {
  import opened Identifiers
  import opened PolicySyntax

  /** Values nest, as the lists, structs and maps of a table do. */
  datatype Value = Null | Text(text: string) | Composite(tag: string, relations: seq<Rel>, lists: seq<seq<Columns>>)

  /** A row is a map from column name to value, so column order is not part of a result. */
  type Row = map<string, Value>
  type Rel = seq<Row>

  /** The values of one expression over the rows of a relation. */
  type Column = seq<Value>
  type Columns = seq<Column>

  datatype Ops = Ops(
    apply: (string, Rel, Columns) -> Column,
    nest: (string, Rel, seq<Rel>, Columns) -> Column,
    scan: (string, Rel) -> Rel,
    filter: (Rel, Columns) -> Rel,
    mask: (Rel, seq<string>, Columns) -> Rel,
    group: (Rel, Columns) -> seq<Rel>,
    project: (string, seq<Rel>, seq<Columns>, seq<Columns>, seq<Columns>) -> Rel,
    finish: (string, Rel, Columns, Columns) -> Rel,
    combine: (string, seq<Rel>) -> Rel,
    cross: (Rel, Rel) -> Rel,
    join: (string, Rel, Rel, Columns) -> Rel,
    values: (string, Columns) -> Rel,
    define: (seq<Rel>, Rel) -> Rel)

  /** The operators, the tables by canonical identity, and the catalog that unqualified names mean. */
  datatype World = World(ops: Ops, tables: TableIdentity -> Rel, catalog: string)

  /** The CTEs in scope, by lowered name. */
  type Env = map<string, Rel>

  /** The rows that an expression sees: its own columns first, then the enclosing query's row. */
  function Widen(outer: Row, rows: Rel): Rel {
    seq(|rows|, i requires 0 <= i < |rows| => outer + rows[i])
  }

  /** The relation a base reference denotes: the CTE of that name if the name is bare and one is in
      scope, and otherwise the table. */
  function Resolve(name: QualifiedName, w: World, env: Env): Rel {
    if Bare(name) && Lower(name.name) in env then env[Lower(name.name)]
    else w.tables(Key(IdentityFromName(name, w.catalog)))
  }

  /** The CTE definitions are part of the result even when unused, since a definition can fail. */
  function EvalQuery(q: Query, w: World, env: Env, outer: Row): Rel
    decreases q, 1
  {
    if q.OtherQuery? then w.ops.values("other query", [])
    else
      var defs := EvalCtes(q.ctes, w, env, outer);
      w.ops.define(defs, EvalBody(q, w, Bind(q.ctes, defs, env), outer))
  }

  /** A query without its CTE list, which `env` already holds. */
  function EvalBody(q: Query, w: World, env: Env, outer: Row): Rel
    requires !q.OtherQuery?
    decreases q, 0
  {
    match q
    case Select(_, from, columns, groups, where, having, qualify, modifiers, shape) =>
      var rows := Widen(outer, EvalRef(from, w, env, outer));
      var kept := w.ops.filter(rows, EvalExprs(where, w, env, rows));
      var parts := w.ops.group(kept, EvalExprs(groups, w, env, kept));
      var out := w.ops.project(shape, parts, EvalParts(columns, w, env, parts),
                               EvalParts(having, w, env, parts), EvalParts(qualify, w, env, parts));
      w.ops.finish(shape, out, EvalExprs(modifiers, w, env, kept), EvalExprs(modifiers, w, env, out))
    case SetOperation(_, children, modifiers, shape) =>
      var out := w.ops.combine(shape, EvalQueries(children, w, env, outer));
      w.ops.finish(shape, out, [], EvalExprs(modifiers, w, env, out))
  }

  function EvalQueries(qs: seq<Query>, w: World, env: Env, outer: Row): seq<Rel>
    decreases qs
  {
    seq(|qs|, i requires 0 <= i < |qs| => EvalQuery(qs[i], w, env, outer))
  }

  /** The CTE relations in order; each definition is read with the ones before it in scope. */
  function EvalCtes(ctes: seq<Cte>, w: World, env: Env, outer: Row): (defs: seq<Rel>)
    ensures |defs| == |ctes|
    decreases ctes
  {
    if ctes == [] then []
    else
      var rel := EvalQuery(ctes[0].definition, w, env, outer);
      [rel] + EvalCtes(ctes[1..], w, env[Lower(ctes[0].name) := rel], outer)
  }

  function Bind(ctes: seq<Cte>, defs: seq<Rel>, env: Env): Env
    requires |ctes| == |defs|
  {
    if ctes == [] then env
    else Bind(ctes[1..], defs[1..], env[Lower(ctes[0].name) := defs[0]])
  }

  function EvalRef(r: Ref, w: World, env: Env, outer: Row): Rel
    decreases r
  {
    match r
    case Base(name, alias) => w.ops.scan(EffectiveAlias(name, alias), Resolve(name, w, env))
    case Subquery(query, alias) => w.ops.scan(alias, EvalQuery(query, w, env, outer))
    case Join(left, right, condition, kind) =>
      var l := EvalRef(left, w, env, outer);
      var r := EvalRef(right, w, env, outer);
      w.ops.join(kind, l, r, EvalExprs(condition, w, env, Widen(outer, w.ops.cross(l, r))))
    case ExpressionList(values, shape) => w.ops.values(shape, EvalExprs(values, w, env, [outer]))
    case EmptyFrom => w.ops.values("no source", [])
    case TableFunction => w.ops.values("table function", [])
    case OtherRef => w.ops.values("other source", [])
    case Secure(table, rowFilter, masks, alias) =>
      var raw := w.tables(Key(IdentityFromName(table, w.catalog)));
      var kept := w.ops.filter(raw, EvalExprs(rowFilter, w, env, raw));
      w.ops.scan(alias, w.ops.mask(kept, MaskedColumns(masks), EvalMasks(masks, w, env, kept)))
  }

  function MaskedColumns(masks: seq<Mask>): seq<string> {
    seq(|masks|, i requires 0 <= i < |masks| => masks[i].column)
  }

  function EvalMasks(masks: seq<Mask>, w: World, env: Env, rows: Rel): Columns
    decreases masks
  {
    seq(|masks|, i requires 0 <= i < |masks| => EvalExpr(masks[i].expression, w, env, rows))
  }

  function EvalExprs(es: seq<Expr>, w: World, env: Env, rows: Rel): Columns
    decreases es, 0
  {
    seq(|es|, i requires 0 <= i < |es| => EvalExpr(es[i], w, env, rows))
  }

  /** A list of expressions over each group of a grouping. */
  function EvalParts(es: seq<Expr>, w: World, env: Env, parts: seq<Rel>): seq<Columns>
    decreases es, 1
  {
    seq(|parts|, i requires 0 <= i < |parts| => EvalExprs(es, w, env, parts[i]))
  }

  /** A nested query is evaluated once per row, so it may be correlated. */
  function EvalNested(q: Query, w: World, env: Env, rows: Rel): seq<Rel>
    decreases q, 2
  {
    seq(|rows|, i requires 0 <= i < |rows| => EvalQuery(q, w, env, rows[i]))
  }

  function EvalExpr(e: Expr, w: World, env: Env, rows: Rel): Column
    decreases e
  {
    match e
    case Operator(text, operands) => w.ops.apply(text, rows, EvalExprs(operands, w, env, rows))
    case Call(name, operands) => w.ops.apply(name, rows, EvalExprs(operands, w, env, rows))
    case SubqueryExpr(kind, query, operands) =>
      w.ops.nest(kind, rows, EvalNested(query, w, env, rows), EvalExprs(operands, w, env, rows))
  }
}
