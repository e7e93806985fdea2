/** What the secured tables hold, for operators that filter and mask as SQL does. */
module PolicyRows {
  import opened Identifiers
  import opened PolicySyntax
  import opened PolicySemantics
  import opened PolicyRewriter
  import opened PolicyMeaning

  const True := Text("true")

  /** WHERE keeps the rows for which the condition is true. */
  function Keep(rows: Rel, condition: Column): Rel {
    if rows == [] || condition == [] then []
    else if condition[0] == True then [rows[0]] + Keep(rows[1..], condition[1..])
    else Keep(rows[1..], condition[1..])
  }

  /** EXCLUDE and AS put one value in the place of each masked column. */
  function Overwrite(row: Row, names: seq<string>, values: Column): Row
    decreases |names|
  {
    if names == [] || values == [] then row else Overwrite(row[names[0] := values[0]], names[1..], values[1..])
  }

  /** The values of all columns in one row. */
  function RowOf(columns: Columns, i: nat): Column {
    seq(|columns|, k requires 0 <= k < |columns| => if i < |columns[k]| then columns[k][i] else Null)
  }

  ghost predicate Standard(ops: Ops) {
    && (forall rel, c :: ops.filter(rel, [c]) == Keep(rel, c))
    && (forall rel :: ops.filter(rel, []) == rel)
    && (forall rel, names, cs ::
          ops.mask(rel, names, cs) == seq(|rel|, i requires 0 <= i < |rel| => Overwrite(rel[i], names, RowOf(cs, i))))
  }

  lemma {:induction false} KeptFrom(rows: Rel, condition: Column, j: nat) returns (i: nat)
    requires j < |Keep(rows, condition)|
    ensures i < |rows| && i < |condition| && condition[i] == True && Keep(rows, condition)[j] == rows[i]
    decreases |rows|
  {
    if condition[0] == True && j == 0 {
      i := 0;
    } else {
      var k := KeptFrom(rows[1..], condition[1..], if condition[0] == True then j - 1 else j);
      i := k + 1;
    }
  }

  lemma {:induction false} KeptAll(rows: Rel, condition: Column, i: nat) returns (j: nat)
    requires i < |rows| && i < |condition| && condition[i] == True
    ensures j < |Keep(rows, condition)| && Keep(rows, condition)[j] == rows[i]
    decreases |rows|
  {
    if i == 0 {
      j := 0;
    } else {
      var k := KeptAll(rows[1..], condition[1..], i - 1);
      j := if condition[0] == True then k + 1 else k;
    }
  }

  lemma {:induction false} OtherColumnsKept(row: Row, names: seq<string>, values: Column, c: string)
    requires c !in names
    ensures c in Overwrite(row, names, values) <==> c in row
    ensures c in row ==> Overwrite(row, names, values)[c] == row[c]
    decreases |names|
  {
    if names != [] && values != [] { OtherColumnsKept(row[names[0] := values[0]], names[1..], values[1..], c); }
  }

  lemma {:induction false} MaskedColumnsReplaced(row: Row, names: seq<string>, values: Column, m: nat)
    requires |names| == |values| && m < |names| && forall k | m < k < |names| :: names[k] != names[m]
    ensures names[m] in Overwrite(row, names, values) && Overwrite(row, names, values)[names[m]] == values[m]
    decreases |names|
  {
    var next := row[names[0] := values[0]];
    if m == 0 {
      assert names[0] !in names[1..] by { assert forall k | 0 < k < |names| :: names[k] == names[1..][k - 1]; }
      OtherColumnsKept(next, names[1..], values[1..], names[0]);
    } else {
      assert forall k | 0 < k < |names| :: names[k] == names[1..][k - 1];
      MaskedColumnsReplaced(next, names[1..], values[1..], m - 1);
    }
  }

  /** Every row that can be seen of a table with a row policy is a row of the table for which the policy, applied to the
      raw rows, is true; outside the masked columns it is that row. */
  lemma SeenRowIs(w: World, ctx: Context, key: TableIdentity, e: Expr, j: nat, c: string) returns (i: nat)
    requires Standard(w.ops) && RowFilter(ctx, key) == [e] && j < |SecuredRows(w, ctx, key)|
    requires forall m | m in MasksOf(ctx.masks, key) :: m.column != c
    ensures var raw := w.tables(key); var condition := EvalExpr(e, w, map[], raw);
      && i < |raw| && i < |condition| && condition[i] == True
      && (c in SecuredRows(w, ctx, key)[j] <==> c in raw[i])
      && (c in raw[i] ==> SecuredRows(w, ctx, key)[j][c] == raw[i][c])
  {
    var raw, masks := w.tables(key), MasksOf(ctx.masks, key);
    assert EvalExprs([e], w, map[], raw) == [EvalExpr(e, w, map[], raw)];
    var kept := Keep(raw, EvalExpr(e, w, map[], raw));
    assert w.ops.filter(raw, EvalExprs(RowFilter(ctx, key), w, map[], raw)) == kept;
    i := KeptFrom(raw, EvalExpr(e, w, map[], raw), j);
    var values := RowOf(EvalMasks(masks, w, map[], kept), j);
    assert SecuredRows(w, ctx, key)[j] == Overwrite(kept[j], MaskedColumns(masks), values);
    OtherColumnsKept(kept[j], MaskedColumns(masks), values, c);
  }

  /** And every row of the table for which the policy is true is seen. */
  lemma AllowedRowIsSeen(w: World, ctx: Context, key: TableIdentity, e: Expr, i: nat, c: string) returns (j: nat)
    requires Standard(w.ops) && RowFilter(ctx, key) == [e] && i < |w.tables(key)|
    requires i < |EvalExpr(e, w, map[], w.tables(key))| && EvalExpr(e, w, map[], w.tables(key))[i] == True
    requires forall m | m in MasksOf(ctx.masks, key) :: m.column != c
    ensures j < |SecuredRows(w, ctx, key)|
    ensures c in SecuredRows(w, ctx, key)[j] <==> c in w.tables(key)[i]
    ensures c in w.tables(key)[i] ==> SecuredRows(w, ctx, key)[j][c] == w.tables(key)[i][c]
  {
    var raw, masks := w.tables(key), MasksOf(ctx.masks, key);
    assert EvalExprs([e], w, map[], raw) == [EvalExpr(e, w, map[], raw)];
    var kept := Keep(raw, EvalExpr(e, w, map[], raw));
    assert w.ops.filter(raw, EvalExprs(RowFilter(ctx, key), w, map[], raw)) == kept;
    j := KeptAll(raw, EvalExpr(e, w, map[], raw), i);
    var values := RowOf(EvalMasks(masks, w, map[], kept), j);
    assert SecuredRows(w, ctx, key)[j] == Overwrite(kept[j], MaskedColumns(masks), values);
    OtherColumnsKept(kept[j], MaskedColumns(masks), values, c);
  }

  /** A masked column holds the value of its mask over the kept raw rows; of several masks of a column the last counts. */
  lemma MaskedColumnIs(w: World, ctx: Context, key: TableIdentity, j: nat, m: nat)
    requires Standard(w.ops) && j < |SecuredRows(w, ctx, key)| && m < |MasksOf(ctx.masks, key)|
    requires forall k | m < k < |MasksOf(ctx.masks, key)| :: MasksOf(ctx.masks, key)[k].column != MasksOf(ctx.masks, key)[m].column
    ensures var mask := MasksOf(ctx.masks, key)[m]; var raw := w.tables(key);
      var kept := w.ops.filter(raw, EvalExprs(RowFilter(ctx, key), w, map[], raw));
      var column := EvalExpr(mask.expression, w, map[], kept);
      mask.column in SecuredRows(w, ctx, key)[j]
      && SecuredRows(w, ctx, key)[j][mask.column] == if j < |column| then column[j] else Null
  {
    var raw, masks := w.tables(key), MasksOf(ctx.masks, key);
    var kept := w.ops.filter(raw, EvalExprs(RowFilter(ctx, key), w, map[], raw));
    var values := RowOf(EvalMasks(masks, w, map[], kept), j);
    assert SecuredRows(w, ctx, key)[j] == Overwrite(kept[j], MaskedColumns(masks), values);
    MaskedColumnsReplaced(kept[j], MaskedColumns(masks), values, m);
  }
}
