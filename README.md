# usuarios service: handlers and token gate

A model of the core of a small Express/MySQL CRUD service for "usuarios"
(service-provider listings with eight text fields: nombre, teléfono, correo,
profesional, mensaje, disponibilidad, tarifa, ciudad, plus a server-assigned
integer id).

Two pieces are modelled:

- **The `/users` handlers of `app.js`** over an abstract `usuarios` table
  (`UsersTable.Table`, a class whose `records: map<int, Usuario>` field the
  create, update and delete handlers change in place, and whose `nextId` field
  is the AUTO_INCREMENT counter). The table stands in for `pool.query`:
  `SELECT * FROM usuarios` is `Rows()`, the records in ascending id order.
  - the required-field check shared by POST and PUT (`Usuarios.Validate`): all
    eight fields must be JavaScript-truthy, where a field is an optional string
    and "falsy" means absent or `""`;
  - the search statement builder (`SearchQuery.BuildSearchQuery`): it starts
    from `SELECT * FROM usuarios WHERE 1=1` and appends `AND <col> LIKE ?` and a
    `%v%` parameter for each truthy filter, in the order nombre, correo,
    profesional; the store's evaluation of that statement (`SearchQuery.Select`)
    takes the database's LIKE as a parameter `like(value, pattern)`, so no case
    or collation policy is assumed;
  - the two row projections (`Usuarios.ProjectList` with `id`,
    `Usuarios.ProjectSearch` without it), with JSON objects as maps from key to
    value;
  - create, delete and update as state changes of the table, with their error
    precedence (400 before any storage access, then 500 for a failing store,
    then 404 for an absent id). A failing store is the parameter
    `fault: Option<string>`; `Some(msg)` answers 500 `{error: msg}` and leaves
    the table unchanged.
- **The bearer-token check of `authMiddleware.js`** (`AuthMiddleware.Authorize`),
  a pure admit/deny decision over the `authorization` header and the configured
  secret (`JWT_TOKEN`), both optional strings. `String.prototype.split(' ')` is
  modelled by `Split`, proved inverse to `Join`, and the decision is also
  characterised by character index (`WordEnd`, `SecondWord`) without `Split`.

Where the repository describes more than the code does, the model follows the
code:

- swagger.js:20-30 declares one global `bearerAuth` security scheme of HTTP
  scheme `bearer`, but the gate takes the second space-separated segment of
  the header and never looks at the first word, so `"Basic <secret>"` is
  admitted (`BasicSchemeAdmitted`);
- the same global scheme presents every route as protected, but `app.js`
  never imports `authMiddleware` (its only `require`s are at app.js:1-6), so
  the gate is modelled as a standalone decision and is not connected to the
  handlers;
- search objects omit `id` (app.js:188-197), so a search with no filter
  returns the listed rows, in the same order, each without its `id`
  (`SearchWithoutFiltersIsList`).

## Model

| member | source | states |
|---|---|---|
| `Usuarios.Validate` | app.js:277-282 | a body is accepted iff all eight fields are present and non-empty (and rejected iff some field is missing or `""`); an accepted body yields a record holding exactly the submitted values, none of them empty |
| `Usuarios.ValidateBodyOf` | app.js:277-282 | every record with non-empty fields is accepted when submitted as a body, and comes back unchanged |
| `Usuarios.ListObject` | app.js:85-95 | the listed object of a row has `id` = the row's id and, under each field's key, exactly that field's value |
| `Usuarios.SearchObject` | app.js:188-197 | the search object of a row has no `id` key and, under each field's key, exactly that field's value |
| `Usuarios.ObjectKeys` | app.js:85-95 | the listed object's keys are exactly `id` and the eight field names; the search object's keys are exactly the eight field names |
| `Usuarios.SearchObjectDropsId` | app.js:188-197 | the search object of a row is its listed object with `id` removed |
| `Usuarios.ProjectList` | app.js:85-95 | the list projection keeps the number and order of rows, row i becoming the listed object of row i |
| `Usuarios.ProjectSearch` | app.js:188-197 | the search projection keeps the number and order of rows, row i becoming the search object of row i |
| `SearchQuery.Clauses` | app.js:171-184 | at most three conditions, each on a column whose filter is truthy, with that filter's `%v%` as pattern (completeness and order in `ClausesFollowFilters`) |
| `SearchQuery.Render` | app.js:168-184 | every statement text begins with `SELECT * FROM usuarios WHERE 1=1`, conditions only being appended (placeholder count in `PlaceholdersMatchParams`) |
| `SearchQuery.Patterns` | app.js:169-183 | one parameter per condition, parameter i being condition i's pattern, in order |
| `SearchQuery.BuildSearchQuery` | app.js:166-184 | the built statement and parameters are exactly the rendering of the clause list the truthy filters ask for |
| `SearchQuery.ClausesFollowFilters` | app.js:171-184 | each truthy filter contributes exactly one clause `%v%` on its own column, no falsy filter contributes one, and the columns come in the order nombre, correo, profesional |
| `SearchQuery.NoFilterIsBaseQuery` | app.js:168-169 | there are no clauses iff no filter is truthy, and then the statement is exactly `SELECT * FROM usuarios WHERE 1=1` with no parameters |
| `SearchQuery.OnePlaceholderPerClause` | app.js:172-182 | each appended condition carries exactly one `?` |
| `SearchQuery.PlaceholdersMatchParams` | app.js:168-186 | for every clause list, the number of `?` in the statement equals the number of parameters |
| `SearchQuery.SqlIgnoresFilterValues` | app.js:168-184 | two searches with the same filters present produce the same statement text: filter values reach the store only as bound parameters |
| `SearchQuery.Select` | app.js:186 | the store returns at most the table's rows, and a row iff it is in the table and LIKE-matches every clause |
| `SearchQuery.SelectKeepsMultiplicity` | app.js:186 | the store returns each row at most as often as the table holds it, so a matching row comes back once |
| `SearchQuery.SelectAll` | app.js:168 | with no clauses the statement selects every row, in table order |
| `SearchQuery.SearchMatches` | app.js:171-186 | a row is found iff it is in the table and, for each truthy filter v, its column LIKE-matches `%v%` |
| `UsersTable.Scan` | app.js:83 | the rows of `SELECT * FROM usuarios` are exactly the stored records, each with its id |
| `UsersTable.ScanAscending` | app.js:83 | the rows come in strictly ascending id order, so no id appears twice |
| `UsersTable.ScanInsert` | app.js:284-289 | inserting under a fresh id above all others appends exactly that row and leaves the earlier rows as they were |
| `UsersTable.ScanRemove` | app.js:358 | deleting an id removes exactly its row and keeps the others in order |
| `UsersTable.ScanReplace` | app.js:420-426 | updating an id replaces that row's record in place and keeps every other row and every id |
| `UsersTable.ListAfterCreate` | app.js:284-294 | after a create, the list is the old list followed by one object with the new id and exactly the submitted values |
| `UsersTable.ListAfterDelete` | app.js:351-360 | after a delete, the listed rows are the old ones except that id, and no listed object carries it |
| `UsersTable.ListAfterUpdate` | app.js:419-428 | after an update, the list has the same length and ids; the updated id shows exactly the new values and every other object is unchanged |
| `UsersTable.SearchWithoutFiltersIsList` | app.js:168-197 | a search with no truthy filter returns every listed row, in the same order, without its id |
| `UsersTable.Table.Rows` | app.js:83 | `SELECT * FROM usuarios` returns a row iff the table stores that record under that id (below the counter), ids strictly ascending |
| `UsersTable.Table.List` | app.js:81-101 | GET /users answers 200 with the list projection of all rows, or 500 with the store's message |
| `UsersTable.Table.Search` | app.js:164-203 | GET /users/search answers 200 with the search projection of the rows the built statement selects, or 500 with the store's message |
| `UsersTable.Table.Create` | app.js:275-298 | a body with a missing field answers 400 "Faltan campos obligatorios" and leaves the table untouched; otherwise a failing store answers 500 with the table untouched; otherwise exactly one record with the submitted values is added under the fresh id `nextId`, which is answered with 201, the counter advances, and every other record is unchanged |
| `UsersTable.Table.Delete` | app.js:346-364 | a failing store answers 500; an absent id answers 404 "Usuario no encontrado"; both leave the table unchanged; a present id is removed with nothing else changed, answering 200 |
| `UsersTable.Table.Update` | app.js:402-432 | a missing field answers 400 even for an absent id; only then a failing store answers 500 and an absent id 404, with the table unchanged; a present id gets exactly the eight new values, keeps its id, nothing else changes, answering 200 |
| `JsValues.Truthy` | app.js:280 | a string property is falsy exactly when it is `undefined` or `""` (the `!v` tests at app.js:171-181, 280, 407 and authMiddleware.js:7) |
| `AuthMiddleware.Split` | authMiddleware.js:5 | `split(' ')` always yields at least one part; its inverse and part shape are `JoinSplit`, `SplitJoin` and `SplitParts` |
| `AuthMiddleware.Token` | authMiddleware.js:4-5 | no header gives no token; the empty header short-circuits to the falsy `""`; a non-empty header has a token iff it contains a space, and the token then has no space (exact value in `TokenIsSecondWord`) |
| `AuthMiddleware.Authorize` | authMiddleware.js:3-12 | a denial is always 403 "Token inválido o faltante"; an admission means the token is defined and equals the secret |
| `AuthMiddleware.AdmitIff` | authMiddleware.js:5-11 | a request is admitted iff the header is present, has a second space-separated segment, that segment is non-empty and equals the secret |
| `AuthMiddleware.AdmitIffByIndex` | authMiddleware.js:5-7 | the same decision by index: admitted iff the header has a space and the text after the first space, up to the next one, is non-empty and equals the secret |
| `AuthMiddleware.TokenIsSecondWord` | authMiddleware.js:4-5 | for a non-empty header the token is defined iff the header has a space, and is then the text between the first space and the next |
| `AuthMiddleware.JoinSplit` | authMiddleware.js:5 | joining the parts of `split(' ')` with single spaces gives the header back |
| `AuthMiddleware.SplitJoin` | authMiddleware.js:5 | splitting a join of space-free words gives the words back |
| `AuthMiddleware.SplitParts` | authMiddleware.js:5 | no part of `split(' ')` contains a space, and there is more than one part iff the string contains a space |
| `AuthMiddleware.MissingHeaderDenied` | authMiddleware.js:4-8 | without an `authorization` header the request is denied with 403 |
| `AuthMiddleware.SingleWordDenied` | authMiddleware.js:5-8 | a header with no space (the empty header included) is denied with 403 |
| `AuthMiddleware.EmptyTokenDenied` | authMiddleware.js:5-8 | `"<scheme> "` and `"<scheme>  <rest>"` have an empty token and are denied |
| `AuthMiddleware.SchemeAndTrailingIgnored` | authMiddleware.js:5-7 | for a header of space-free words, admission depends on the second word only: admitted iff it is non-empty and equals the secret |
| `AuthMiddleware.BearerHeader` | authMiddleware.js:5-7 | `"Bearer <t>"` is admitted iff t is non-empty and equals the secret |
| `AuthMiddleware.BasicSchemeAdmitted` | authMiddleware.js:5-7 | `"Basic <secret>"` is admitted: the scheme word is never checked |
| `AuthMiddleware.NoSecretAdmitsNothing` | authMiddleware.js:7-8 | with the secret unset or empty, every request is denied |

`UsersTable.CreateThenSearch` is a client of the handlers: on a new
table, creating Ana the electrician answers 201 with id 1, and a search with
`profesional=electric` then returns her record whenever the store's LIKE
matches `electricista` against `%electric%`.

## Left out

- database.js (the mysql2 pool of 10 connections with its queue, and
  `testConnection`), the `/test-db` and `/` routes, swagger.js and
  `/api-docs`, `express.json`, dotenv and `app.listen`: connection plumbing,
  documentation and framework set-up with no logic of the service's own.
- Concurrency: each handler is one atomic step on the table, so the gap
  between the existence check and the DELETE or UPDATE is not modelled.
- Storage failures: one `fault` parameter makes the first store access fail;
  a failure part-way through a handler has the same outcome in the model
  (500, table unchanged). Whether a failed INSERT consumes an AUTO_INCREMENT
  value is not modelled. The 500 body passes the store's message through, as
  the code does.
- Field values are optional strings; a JSON body field holding a number,
  boolean or object, and a query parameter given several times (an array),
  are not modelled.
- The path id is an integer; MySQL's conversion of a non-numeric path segment
  to a number is not modelled.
- Row order: SQL without ORDER BY leaves the order to the engine; the model
  fixes ascending id (primary-key order).
- LIKE matching is a parameter; that `%` and `_` typed by a user act as
  wildcards inside `%v%` is a property of that parameter, not stated.
- `UsersTable.Table.Search`: the store's reading of the statement and its
  parameters is modelled by `Select` over the clause list that the statement
  is proved to render, not by parsing SQL.
- The gate is not attached to any route, because app.js never mounts it.
- JSON objects are maps, so the key order `res.json` emits (id, nombre,
  teléfono, … as built at app.js:85-95) is not modelled.
