/** The GET /users/search handler's statement builder (app.js): a base query
    with an always-true predicate, extended with one `AND <col> LIKE ?` clause
    and one `%v%` parameter per truthy filter, in the fixed order nombre,
    correo, profesional; and the store's evaluation of the built statement
    over the table's rows. */
module SearchQuery {
  import opened JsValues
  import opened Usuarios

  /** The three optional filters of `req.query`. */
  datatype Filters = Filters(nombre: Option<string>, correo: Option<string>, profesional: Option<string>)

  /** One `AND <column> LIKE ?` condition with the pattern bound to its `?`. */
  datatype Clause = Clause(column: Field, pattern: string)

  const BaseQuery: string := "SELECT * FROM usuarios WHERE 1=1"

  /** The template literal `%${v}%`. */
  function Wildcard(v: string): string {
    "%" + v + "%"
  }

  function ClauseSql(c: Clause): string {
    " AND " + Key(c.column) + " LIKE ?"
  }

  /** The filter given for a column; only nombre, correo and profesional can
      be filtered on. */
  function FilterOn(f: Filters, col: Field): Option<string> {
    match col
    case Nombre => f.nombre
    case Correo => f.correo
    case Profesional => f.profesional
    case _ => None
  }

  /** Position of a filterable column in the builder's fixed order. */
  function Rank(col: Field): nat {
    match col
    case Nombre => 0
    case Correo => 1
    case _ => 2
  }

  function ClauseFor(col: Field, v: Option<string>): seq<Clause> {
    if Truthy(v) then [Clause(col, Wildcard(v.value))] else []
  }

  /** The conditions the filters ask for, in the builder's order. */
  function Clauses(f: Filters): (cs: seq<Clause>)
    ensures |cs| <= 3
    ensures forall i :: 0 <= i < |cs| ==>
      Truthy(FilterOn(f, cs[i].column)) && cs[i].pattern == Wildcard(FilterOn(f, cs[i].column).value)
  {
    ClauseFor(Nombre, f.nombre) + ClauseFor(Correo, f.correo) + ClauseFor(Profesional, f.profesional)
  }

  /** The statement text for a list of conditions, each appended at the end. */
  function Render(cs: seq<Clause>): (sql: string)
    ensures BaseQuery <= sql
    decreases |cs|
  {
    if cs == [] then BaseQuery else Render(cs[..|cs| - 1]) + ClauseSql(cs[|cs| - 1])
  }

  /** The positional parameters for a list of conditions, in order. */
  function Patterns(cs: seq<Clause>): (ps: seq<string>)
    ensures |ps| == |cs|
    ensures forall i {:trigger ps[i]} :: 0 <= i < |cs| ==> ps[i] == cs[i].pattern
    decreases |cs|
  {
    if cs == [] then [] else Patterns(cs[..|cs| - 1]) + [cs[|cs| - 1].pattern]
  }

  /** The three appended conditions, spelled out as in the handler. */
  lemma ColumnSqlLiterals(p: string)
    ensures ClauseSql(Clause(Nombre, p)) == " AND nombre LIKE ?"
    ensures ClauseSql(Clause(Correo, p)) == " AND correo LIKE ?"
    ensures ClauseSql(Clause(Profesional, p)) == " AND profesional LIKE ?"
  {
  }

  /** Appending one condition extends the text by its SQL and the parameters
      by its pattern. */
  lemma AppendClause(cs: seq<Clause>, c: Clause)
    ensures Render(cs + [c]) == Render(cs) + ClauseSql(c)
    ensures Patterns(cs + [c]) == Patterns(cs) + [c.pattern]
  {
    assert (cs + [c])[..|cs|] == cs;
  }

  /** The handler's `let query` / `params.push` sequence. */
  method BuildSearchQuery(f: Filters) returns (query: string, params: seq<string>)
    ensures query == Render(Clauses(f)) && params == Patterns(Clauses(f))
  {
    query := "SELECT * FROM usuarios WHERE 1=1";
    params := [];
    ghost var cs: seq<Clause> := [];

    if Truthy(f.nombre) {
      ghost var c := Clause(Nombre, Wildcard(f.nombre.value));
      AppendClause(cs, c);
      ColumnSqlLiterals(c.pattern);
      query := query + " AND nombre LIKE ?";
      params := params + [Wildcard(f.nombre.value)];
      cs := cs + [c];
    }
    assert query == Render(cs) && params == Patterns(cs);

    if Truthy(f.correo) {
      ghost var c := Clause(Correo, Wildcard(f.correo.value));
      AppendClause(cs, c);
      ColumnSqlLiterals(c.pattern);
      query := query + " AND correo LIKE ?";
      params := params + [Wildcard(f.correo.value)];
      cs := cs + [c];
    }
    assert query == Render(cs) && params == Patterns(cs);

    if Truthy(f.profesional) {
      ghost var c := Clause(Profesional, Wildcard(f.profesional.value));
      AppendClause(cs, c);
      ColumnSqlLiterals(c.pattern);
      query := query + " AND profesional LIKE ?";
      params := params + [Wildcard(f.profesional.value)];
      cs := cs + [c];
    }
    assert query == Render(cs) && params == Patterns(cs);
    assert cs == Clauses(f);
  }

  // ---------------------------------------------------------------------------
  // What the built statement contains

  /** The number of `?` placeholders in a statement. */
  function Placeholders(sql: string): nat
    decreases |sql|
  {
    if sql == [] then 0 else (if sql[0] == '?' then 1 else 0) + Placeholders(sql[1..])
  }

  lemma {:induction false} NoPlaceholders(sql: string)
    requires '?' !in sql
    ensures Placeholders(sql) == 0
    decreases |sql|
  {
    if sql != [] {
      NoPlaceholders(sql[1..]);
    }
  }

  lemma {:induction false} PlaceholdersAppend(a: string, b: string)
    ensures Placeholders(a + b) == Placeholders(a) + Placeholders(b)
    decreases |a|
  {
    if a != [] {
      PlaceholdersAppend(a[1..], b);
      assert (a + b)[0] == a[0] && (a + b)[1..] == a[1..] + b;
    } else {
      assert a + b == b;
    }
  }

  /** No column name contains a placeholder. */
  lemma NoPlaceholderInColumn(col: Field)
    ensures Placeholders(Key(col)) == 0
  {
    match col {
      case Nombre => NoPlaceholders("nombre");
      case Telefono => NoPlaceholders("teléfono");
      case Correo => NoPlaceholders("correo");
      case Profesional => NoPlaceholders("profesional");
      case Mensaje => NoPlaceholders("mensaje");
      case Disponibilidad => NoPlaceholders("disponibilidad");
      case Tarifa => NoPlaceholders("tarifa");
      case Ciudad => NoPlaceholders("ciudad");
    }
  }

  /** Each appended condition carries exactly one placeholder. */
  lemma OnePlaceholderPerClause(c: Clause)
    ensures Placeholders(ClauseSql(c)) == 1
  {
    var key := Key(c.column);
    NoPlaceholderInColumn(c.column);
    NoPlaceholders(" AND ");
    NoPlaceholders(" LIKE ");
    PlaceholdersAppend(" LIKE ", "?");
    assert Placeholders(" LIKE ?") == 1 by { assert " LIKE " + "?" == " LIKE ?"; }
    PlaceholdersAppend(" AND ", key);
    PlaceholdersAppend(" AND " + key, " LIKE ?");
  }

  /** Every placeholder has exactly one parameter. */
  lemma {:induction false} PlaceholdersMatchParams(cs: seq<Clause>)
    ensures Placeholders(Render(cs)) == |Patterns(cs)|
    decreases |cs|
  {
    if cs == [] {
      NoPlaceholders(BaseQuery);
    } else {
      PlaceholdersMatchParams(cs[..|cs| - 1]);
      OnePlaceholderPerClause(cs[|cs| - 1]);
      PlaceholdersAppend(Render(cs[..|cs| - 1]), ClauseSql(cs[|cs| - 1]));
    }
  }

  /** A truthy filter contributes exactly one clause, `%v%` for its column; a
      falsy one contributes none; the columns come in the fixed order. */
  lemma ClausesFollowFilters(f: Filters)
    ensures forall c :: c in Clauses(f) ==>
      c.column in {Nombre, Correo, Profesional} && Truthy(FilterOn(f, c.column)) &&
      c.pattern == Wildcard(FilterOn(f, c.column).value)
    ensures forall col :: col in {Nombre, Correo, Profesional} && Truthy(FilterOn(f, col)) ==>
      Clause(col, Wildcard(FilterOn(f, col).value)) in Clauses(f)
    ensures forall i, j :: 0 <= i < j < |Clauses(f)| ==> Rank(Clauses(f)[i].column) < Rank(Clauses(f)[j].column)
    ensures |Clauses(f)| ==
      (if Truthy(f.nombre) then 1 else 0) + (if Truthy(f.correo) then 1 else 0) +
      (if Truthy(f.profesional) then 1 else 0)
  {
  }

  /** With no truthy filter the statement is the bare base query with no
      parameters. */
  lemma NoFilterIsBaseQuery(f: Filters)
    ensures Clauses(f) == [] <==> !Truthy(f.nombre) && !Truthy(f.correo) && !Truthy(f.profesional)
    ensures Clauses(f) == [] ==> Render(Clauses(f)) == BaseQuery && Patterns(Clauses(f)) == []
  {
  }

  /** The statement text depends only on which filters are present, never on
      their values: user input reaches the store only as bound parameters. */
  lemma {:induction false} SqlIgnoresFilterValues(f: Filters, g: Filters)
    requires Truthy(f.nombre) == Truthy(g.nombre)
    requires Truthy(f.correo) == Truthy(g.correo)
    requires Truthy(f.profesional) == Truthy(g.profesional)
    ensures Render(Clauses(f)) == Render(Clauses(g))
  {
    SameColumnsSameSql(Clauses(f), Clauses(g));
  }

  lemma {:induction false} SameColumnsSameSql(cs: seq<Clause>, ds: seq<Clause>)
    requires |cs| == |ds|
    requires forall i :: 0 <= i < |cs| ==> cs[i].column == ds[i].column
    ensures Render(cs) == Render(ds)
    decreases |cs|
  {
    if cs != [] {
      SameColumnsSameSql(cs[..|cs| - 1], ds[..|ds| - 1]);
    }
  }

  // ---------------------------------------------------------------------------
  // Evaluation by the store. How LIKE matches (case, collation) is the
  // database's choice, so it is a parameter: like(value, pattern).

  predicate Satisfies(row: Row, cs: seq<Clause>, like: (string, string) -> bool) {
    forall c :: c in cs ==> like(Value(row.user, c.column), c.pattern)
  }

  /** The rows the statement for cs selects, in table order. */
  function Select(rows: seq<Row>, cs: seq<Clause>, like: (string, string) -> bool): (r: seq<Row>)
    ensures |r| <= |rows|
    ensures forall x :: x in r <==> x in rows && Satisfies(x, cs, like)
  {
    if rows == [] then []
    else
      var rest := Select(rows[1..], cs, like);
      if Satisfies(rows[0], cs, like) then [rows[0]] + rest else rest
  }

  /** Each row comes back at most as often as it is stored: the store never
      repeats a row. */
  lemma {:induction false} SelectKeepsMultiplicity(rows: seq<Row>, cs: seq<Clause>, like: (string, string) -> bool)
    ensures multiset(Select(rows, cs, like)) <= multiset(rows)
  {
    if rows != [] {
      SelectKeepsMultiplicity(rows[1..], cs, like);
      assert rows == [rows[0]] + rows[1..];
    }
  }

  /** `WHERE 1=1` alone selects every row, in order. */
  lemma {:induction false} SelectAll(rows: seq<Row>, like: (string, string) -> bool)
    ensures Select(rows, [], like) == rows
  {
    if rows != [] {
      SelectAll(rows[1..], like);
      assert [rows[0]] + rows[1..] == rows;
    }
  }

  /** A search returns exactly the rows whose every filtered column LIKE-matches
      `%v%` for its filter v. */
  lemma SearchMatches(rows: seq<Row>, f: Filters, like: (string, string) -> bool, x: Row)
    ensures x in Select(rows, Clauses(f), like) <==>
      x in rows &&
      (Truthy(f.nombre) ==> like(x.user.nombre, Wildcard(f.nombre.value))) &&
      (Truthy(f.correo) ==> like(x.user.correo, Wildcard(f.correo.value))) &&
      (Truthy(f.profesional) ==> like(x.user.profesional, Wildcard(f.profesional.value)))
  {
    ClausesFollowFilters(f);
  }
}
