/** Catalog identifiers. DuckDB compares them without regard to ASCII case, and so does every
    comparison in the policy code. */
module Identifiers {

  function LowerChar(c: char): char {
    if 'A' <= c <= 'Z' then (c as int + 32) as char else c
  }

  function Lower(s: string): (r: string)
    ensures |r| == |s|
  {
    seq(|s|, i requires 0 <= i < |s| => LowerChar(s[i]))
  }

  /** Lowering twice is lowering once, so a lowered name is a canonical representative. */
  lemma LowerIdempotent(s: string)
    ensures Lower(Lower(s)) == Lower(s)
  {
  }

  predicate SameIdentifier(left: string, right: string) {
    Lower(left) == Lower(right)
  }

  /** Two letters that differ at most in case: upper and lower case ASCII letters are 32 codes apart. */
  predicate SameLetter(a: char, b: char) {
    || a == b
    || ('A' <= a <= 'Z' && b as int - a as int == 32)
    || ('A' <= b <= 'Z' && a as int - b as int == 32)
  }

  /** One name written in two ways. */
  predicate Respelled(a: string, b: string) {
    |a| == |b| && forall i | 0 <= i < |a| :: SameLetter(a[i], b[i])
  }

  /** Identifiers are the same exactly when they are one name up to the case of its ASCII letters. */
  lemma SameIdentifierIff(a: string, b: string)
    ensures SameIdentifier(a, b) <==> Respelled(a, b)
  {
    var x, y := Lower(a), Lower(b);
    if x == y {
      forall i | 0 <= i < |a| ensures SameLetter(a[i], b[i]) {
        assert x[i] == y[i] && x[i] == LowerChar(a[i]) && y[i] == LowerChar(b[i]);
      }
    }
  }

  /** A name as written: catalog and schema are empty when the text does not give them. */
  datatype QualifiedName = QualifiedName(catalog: string, schema: string, name: string)

  datatype TableIdentity = TableIdentity(catalog: string, schema: string, table: string)

  predicate Bare(name: QualifiedName) {
    name.schema == "" && name.catalog == ""
  }

  function IdentityFromName(name: QualifiedName, defaultCatalog: string): TableIdentity {
    TableIdentity(if name.catalog == "" then defaultCatalog else name.catalog,
                  if name.schema == "" then "main" else name.schema,
                  name.name)
  }

  /** An omitted schema means "main", an omitted catalog the default one; what is given is kept. */
  lemma IdentityIs(name: QualifiedName, defaultCatalog: string)
    ensures var id := IdentityFromName(name, defaultCatalog);
      && id.table == name.name
      && (name.schema != "" ==> id.schema == name.schema) && (name.schema == "" ==> id.schema == "main")
      && (name.catalog != "" ==> id.catalog == name.catalog) && (name.catalog == "" ==> id.catalog == defaultCatalog)
  {
  }

  /** Names with different explicit catalogs or schemas never mean one table. */
  lemma DifferentPlacesDiffer(a: QualifiedName, b: QualifiedName, defaultCatalog: string)
    requires a.catalog != "" && b.catalog != "" && a.schema != "" && b.schema != ""
    requires !Respelled(a.catalog, b.catalog) || !Respelled(a.schema, b.schema)
    ensures !SameTable(IdentityFromName(a, defaultCatalog), IdentityFromName(b, defaultCatalog))
  {
    SameIdentifierIff(a.catalog, b.catalog);
    SameIdentifierIff(a.schema, b.schema);
  }

  predicate SameTable(left: TableIdentity, right: TableIdentity) {
    && SameIdentifier(left.catalog, right.catalog)
    && SameIdentifier(left.schema, right.schema)
    && SameIdentifier(left.table, right.table)
  }

  /** The canonical form of an identity: two identities name one table exactly when their keys agree. */
  function Key(id: TableIdentity): (k: TableIdentity)
  {
    TableIdentity(Lower(id.catalog), Lower(id.schema), Lower(id.table))
  }

  predicate RespelledTable(a: TableIdentity, b: TableIdentity) {
    Respelled(a.catalog, b.catalog) && Respelled(a.schema, b.schema) && Respelled(a.table, b.table)
  }

  /** Two identities are one table exactly when catalog, schema and table agree up to case; and then they have one key. */
  lemma SameTableIff(a: TableIdentity, b: TableIdentity)
    ensures SameTable(a, b) <==> RespelledTable(a, b)
    ensures Key(a) == Key(b) <==> RespelledTable(a, b)
  {
    SameIdentifierIff(a.catalog, b.catalog);
    SameIdentifierIff(a.schema, b.schema);
    SameIdentifierIff(a.table, b.table);
  }
}
