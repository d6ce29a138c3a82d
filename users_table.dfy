/** The `/users` handlers of app.js over the `usuarios` table. The table is an
    object whose records the create, update and delete handlers change in
    place; each handler runs atomically against it. A failing store is a
    parameter `fault`: `Some(message)` makes the store's first statement fail
    with that message. */
module UsersTable {
  import opened JsValues
  import opened Usuarios
  import opened SearchQuery

  /** The JSON bodies the handlers send. */
  datatype Body =
    | Message(mensaje: string)
    | CreatedMsg(mensaje: string, id: int)
    | ErrorMsg(error: string)
    | Objects(items: seq<JsonObject>)

  /** `res.status(status).json(body)`. */
  datatype Response = Response(status: nat, body: Body)

  const MissingFieldsText: string := "Faltan campos obligatorios"
  const NotFoundText: string := "Usuario no encontrado"
  const CreatedText: string := "Usuario creado correctamente"
  const DeletedText: string := "Usuario eliminado correctamente"
  const UpdatedText: string := "Usuario actualizado correctamente"

  function BadRequest(): Response { Response(400, ErrorMsg(MissingFieldsText)) }
  function NotFound(): Response { Response(404, ErrorMsg(NotFoundText)) }
  function ServerError(message: string): Response { Response(500, ErrorMsg(message)) }

  // ---------------------------------------------------------------------------
  // The rows `SELECT * FROM usuarios` returns: the records in ascending id
  // order (the order of the primary key).

  /** The records with id below n, in ascending id order. */
  function Scan(m: map<int, Usuario>, n: nat): (rows: seq<Row>)
    ensures forall x {:trigger x in rows} :: x in rows <==> 0 <= x.id < n && x.id in m && m[x.id] == x.user
  {
    if n == 0 then []
    else Scan(m, n - 1) + (if n - 1 in m then [Row(n - 1, m[n - 1])] else [])
  }

  /** Two tables that agree below n give the same rows below n. */
  lemma {:induction false} ScanAgree(m1: map<int, Usuario>, m2: map<int, Usuario>, n: nat)
    requires forall k :: 0 <= k < n ==> (k in m1 <==> k in m2)
    requires forall k :: 0 <= k < n && k in m1 ==> m1[k] == m2[k]
    ensures Scan(m1, n) == Scan(m2, n)
  {
    if n > 0 {
      ScanAgree(m1, m2, n - 1);
    }
  }

  /** A record inserted under a fresh id above every existing one is listed
      last, after the unchanged rows. */
  lemma ScanInsert(m: map<int, Usuario>, n: nat, u: Usuario)
    requires forall k :: k in m ==> k < n
    ensures Scan(m[n := u], n + 1) == Scan(m, n) + [Row(n, u)]
  {
    ScanAgree(m[n := u], m, n);
  }

  /** rows without the row whose id is id. */
  function Without(rows: seq<Row>, id: int): (r: seq<Row>)
    ensures forall x {:trigger x in r} :: x in r <==> x in rows && x.id != id
  {
    if rows == [] then []
    else Without(rows[..|rows| - 1], id) + (if rows[|rows| - 1].id == id then [] else [rows[|rows| - 1]])
  }

  /** rows with the record of the row whose id is id replaced by u. */
  function Replace(rows: seq<Row>, id: int, u: Usuario): (r: seq<Row>)
    ensures |r| == |rows|
    ensures forall i {:trigger r[i]} :: 0 <= i < |rows| ==> r[i].id == rows[i].id
    ensures forall i {:trigger r[i]} :: 0 <= i < |rows| ==> r[i].user == if rows[i].id == id then u else rows[i].user
  {
    if rows == [] then []
    else
      var last := rows[|rows| - 1];
      Replace(rows[..|rows| - 1], id, u) + [if last.id == id then Row(id, u) else last]
  }

  lemma WithoutSnoc(prev: seq<Row>, last: Row, id: int)
    ensures Without(prev + [last], id) == Without(prev, id) + (if last.id == id then [] else [last])
  {
    assert (prev + [last])[..|prev|] == prev;
  }

  lemma ReplaceSnoc(prev: seq<Row>, last: Row, id: int, u: Usuario)
    ensures Replace(prev + [last], id, u) == Replace(prev, id, u) + [if last.id == id then Row(id, u) else last]
  {
    assert (prev + [last])[..|prev|] == prev;
  }

  /** Deleting a record removes exactly its row and keeps the others in order. */
  lemma {:induction false} ScanRemove(m: map<int, Usuario>, n: nat, id: int)
    ensures Scan(m - {id}, n) == Without(Scan(m, n), id)
  {
    if n > 0 {
      ScanRemove(m, n - 1, id);
      var k := n - 1;
      var m' := m - {id};
      if k in m {
        WithoutSnoc(Scan(m, k), Row(k, m[k]), id);
        if k == id {
          assert Scan(m', n) == Scan(m', k) + [];
        }
      } else {
        assert Scan(m, n) == Scan(m, k) + [] == Scan(m, k);
        assert Scan(m', n) == Scan(m', k) + [] == Scan(m', k);
      }
    }
  }

  /** Updating a record changes exactly its row, in place. */
  lemma {:induction false} ScanReplace(m: map<int, Usuario>, n: nat, id: int, u: Usuario)
    requires id in m
    ensures Scan(m[id := u], n) == Replace(Scan(m, n), id, u)
  {
    if n > 0 {
      ScanReplace(m, n - 1, id, u);
      var k := n - 1;
      var m' := m[id := u];
      if k in m {
        ReplaceSnoc(Scan(m, k), Row(k, m[k]), id, u);
        assert Scan(m', n) == Scan(m', k) + [Row(k, m'[k])];
      } else {
        assert Scan(m, n) == Scan(m, k) + [];
        assert Scan(m', n) == Scan(m', k) + [];
      }
    }
  }

  /** The rows come in strictly ascending id order, so no id is listed twice. */
  lemma {:induction false} ScanAscending(m: map<int, Usuario>, n: nat)
    ensures forall i :: 0 <= i < |Scan(m, n)| ==> 0 <= Scan(m, n)[i].id < n
    ensures forall i, j :: 0 <= i < j < |Scan(m, n)| ==> Scan(m, n)[i].id < Scan(m, n)[j].id
  {
    if n > 0 {
      ScanAscending(m, n - 1);
    }
  }

  // ---------------------------------------------------------------------------
  // What a later GET /users or GET /users/search shows

  /** After a create, the list is the old list followed by the new record,
      shown with its id and exactly the submitted values. */
  lemma ListAfterCreate(m: map<int, Usuario>, n: nat, u: Usuario)
    requires forall k :: k in m ==> k < n
    ensures ProjectList(Scan(m[n := u], n + 1)) == ProjectList(Scan(m, n)) + [ListObject(Row(n, u))]
    ensures ProjectList(Scan(m[n := u], n + 1))[|Scan(m, n)|][IdKey] == JNumber(n)
    ensures forall f :: ProjectList(Scan(m[n := u], n + 1))[|Scan(m, n)|][Key(f)] == JString(Value(u, f))
  {
    ScanInsert(m, n, u);
    var before := Scan(m, n);
    assert ProjectList(before + [Row(n, u)]) == ProjectList(before) + [ListObject(Row(n, u))];
  }

  /** After a delete, the list no longer shows the id and shows every other
      record as before. */
  lemma ListAfterDelete(m: map<int, Usuario>, n: nat, id: int)
    ensures forall x :: x in Scan(m - {id}, n) <==> x in Scan(m, n) && x.id != id
    ensures forall i :: 0 <= i < |Scan(m - {id}, n)| ==>
      ProjectList(Scan(m - {id}, n))[i][IdKey] != JNumber(id)
  {
    ScanRemove(m, n, id);
    var rows := Scan(m - {id}, n);
    forall i | 0 <= i < |rows| ensures ProjectList(rows)[i][IdKey] != JNumber(id) {
      assert rows[i] in rows;
    }
  }

  /** After an update, the list shows the same ids in the same order, the
      updated id with exactly the new values and every other record as
      before. */
  lemma ListAfterUpdate(m: map<int, Usuario>, n: nat, id: int, u: Usuario)
    requires id in m
    ensures |ProjectList(Scan(m[id := u], n))| == |ProjectList(Scan(m, n))|
    ensures forall i :: 0 <= i < |Scan(m, n)| ==>
      ProjectList(Scan(m[id := u], n))[i] ==
        if Scan(m, n)[i].id == id then ListObject(Row(id, u)) else ProjectList(Scan(m, n))[i]
  {
    ScanReplace(m, n, id, u);
  }

  /** A search with no truthy filter returns every listed row, in the same
      order, without its id. */
  lemma SearchWithoutFiltersIsList(rows: seq<Row>, f: Filters, like: (string, string) -> bool)
    requires !Truthy(f.nombre) && !Truthy(f.correo) && !Truthy(f.profesional)
    ensures |ProjectSearch(Select(rows, Clauses(f), like))| == |ProjectList(rows)|
    ensures forall i :: 0 <= i < |rows| ==>
      ProjectSearch(Select(rows, Clauses(f), like))[i] == ProjectList(rows)[i] - {IdKey}
  {
    NoFilterIsBaseQuery(f);
    SelectAll(rows, like);
    forall i | 0 <= i < |rows| {
      SearchObjectDropsId(rows[i]);
    }
  }

  // ---------------------------------------------------------------------------

  class Table {
    /** The records by id. */
    var records: map<int, Usuario>
    /** The AUTO_INCREMENT counter: the id the next insert receives. */
    var nextId: nat

    /** Ids are positive and below the counter, so the counter is always
        fresh; every stored record has all eight fields non-empty. */
    ghost predicate Valid()
      reads this
    {
      && 1 <= nextId
      && (forall id :: id in records ==> 1 <= id < nextId)
      && (forall id :: id in records ==> WellFormed(records[id]))
    }

    /** What `SELECT * FROM usuarios` returns. */
    function Rows(): (rows: seq<Row>)
      reads this
      ensures forall x {:trigger x in rows} :: x in rows <==> 0 <= x.id < nextId && x.id in records && records[x.id] == x.user
      ensures forall i, j {:trigger rows[i], rows[j]} :: 0 <= i < j < |rows| ==> rows[i].id < rows[j].id
    {
      ScanAscending(records, nextId);
      Scan(records, nextId)
    }

    constructor ()
      ensures Valid() && records == map[] && nextId == 1
    {
      records := map[];
      nextId := 1;
    }

    /** GET /users. */
    method List(fault: Option<string>) returns (resp: Response)
      requires Valid()
      ensures fault.Some? ==> resp == ServerError(fault.value)
      ensures fault.None? ==> resp == Response(200, Objects(ProjectList(Rows())))
    {
      if fault.Some? {
        return ServerError(fault.value);
      }
      var rows := Rows();
      resp := Response(200, Objects(ProjectList(rows)));
    }

    /** GET /users/search; like is the store's LIKE. */
    method Search(f: Filters, like: (string, string) -> bool, fault: Option<string>) returns (resp: Response)
      requires Valid()
      ensures fault.Some? ==> resp == ServerError(fault.value)
      ensures fault.None? ==> resp == Response(200, Objects(ProjectSearch(Select(Rows(), Clauses(f), like))))
    {
      var query, params := BuildSearchQuery(f);
      if fault.Some? {
        return ServerError(fault.value);
      }
      // The store runs `query` with `params` bound to its placeholders; by
      // BuildSearchQuery's contract these are Render(Clauses(f)) and
      // Patterns(Clauses(f)), so the store selects by Clauses(f).
      var rows := Select(Rows(), Clauses(f), like);
      resp := Response(200, Objects(ProjectSearch(rows)));
    }

    /** POST /users. */
    method Create(b: UserBody, fault: Option<string>) returns (resp: Response)
      requires Valid()
      modifies this
      ensures Valid()
      ensures Validate(b).None? ==>
        resp == BadRequest() && records == old(records) && nextId == old(nextId)
      ensures Validate(b).Some? && fault.Some? ==>
        resp == ServerError(fault.value) && records == old(records) && nextId == old(nextId)
      ensures Validate(b).Some? && fault.None? ==>
        && old(nextId) !in old(records)
        && records == old(records)[old(nextId) := Validate(b).value]
        && nextId == old(nextId) + 1
        && resp == Response(201, CreatedMsg(CreatedText, old(nextId)))
    {
      var user := Validate(b);
      if user.None? {
        return BadRequest();
      }
      if fault.Some? {
        return ServerError(fault.value);
      }
      var id := nextId;
      records := records[id := user.value];
      nextId := nextId + 1;
      resp := Response(201, CreatedMsg(CreatedText, id));
    }

    /** DELETE /users/:id. */
    method Delete(id: int, fault: Option<string>) returns (resp: Response)
      requires Valid()
      modifies this
      ensures Valid() && nextId == old(nextId)
      ensures fault.Some? ==> resp == ServerError(fault.value) && records == old(records)
      ensures fault.None? && id !in old(records) ==> resp == NotFound() && records == old(records)
      ensures fault.None? && id in old(records) ==>
        resp == Response(200, Message(DeletedText)) && records == old(records) - {id}
    {
      if fault.Some? {
        return ServerError(fault.value);
      }
      if id !in records {
        return NotFound();
      }
      records := records - {id};
      resp := Response(200, Message(DeletedText));
    }

    /** PUT /users/:id: the fields are checked before the store is asked
        whether the id exists. */
    method Update(id: int, b: UserBody, fault: Option<string>) returns (resp: Response)
      requires Valid()
      modifies this
      ensures Valid() && nextId == old(nextId)
      ensures Validate(b).None? ==> resp == BadRequest() && records == old(records)
      ensures Validate(b).Some? && fault.Some? ==> resp == ServerError(fault.value) && records == old(records)
      ensures Validate(b).Some? && fault.None? && id !in old(records) ==>
        resp == NotFound() && records == old(records)
      ensures Validate(b).Some? && fault.None? && id in old(records) ==>
        resp == Response(200, Message(UpdatedText)) && records == old(records)[id := Validate(b).value]
    {
      var user := Validate(b);
      if user.None? {
        return BadRequest();
      }
      if fault.Some? {
        return ServerError(fault.value);
      }
      if id !in records {
        return NotFound();
      }
      records := records[id := user.value];
      resp := Response(200, Message(UpdatedText));
    }
  }

  /** A table holding one record under id 1 lists exactly that row. */
  lemma SingleRecordScan(u: Usuario)
    ensures Scan(map[][1 := u], 2) == [Row(1, u)]
  {
    ScanInsert(map[], 1, u);
    assert Scan(map[], 1) == Scan(map[], 0) + [] == [];
  }

  /** A one-row table searched by a profession the row's profession
      LIKE-matches yields that row's search object. */
  lemma ProfesionalSearchFinds(row: Row, v: string, like: (string, string) -> bool)
    requires v != "" && like(row.user.profesional, Wildcard(v))
    ensures ProjectSearch(Select([row], Clauses(Filters(None, None, Some(v))), like)) == [SearchObject(row)]
  {
    var cs := Clauses(Filters(None, None, Some(v)));
    assert cs == [Clause(Profesional, Wildcard(v))];
    assert Select([row], cs, like) == [row];
  }

  /** A client: the record created by POST /users is found by a later search
      on part of its profession, whenever the store's LIKE matches it. */
  method CreateThenSearch(like: (string, string) -> bool)
    requires like("electricista", "%electric%")
  {
    var table := new Table();
    var body := UserBody(Some("Ana"), Some("123"), Some("a@b.com"), Some("electricista"),
                         Some("fix"), Some("AM"), Some("10"), Some("X"));
    var ana := Usuario("Ana", "123", "a@b.com", "electricista", "fix", "AM", "10", "X");
    assert Validate(body) == Some(ana);
    var created := table.Create(body, None);
    assert created == Response(201, CreatedMsg(CreatedText, 1));
    assert table.records == map[][1 := ana] && table.nextId == 2;
    SingleRecordScan(ana);
    assert table.Rows() == [Row(1, ana)];

    var filters := Filters(None, None, Some("electric"));
    assert Wildcard("electric") == "%electric%";
    ProfesionalSearchFinds(Row(1, ana), "electric", like);
    var found := table.Search(filters, like, None);
    assert found == Response(200, Objects([SearchObject(Row(1, ana))]));
  }
}
