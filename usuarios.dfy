/** The "usuario" record of app.js: its eight business fields, the
    required-field check on a request body, and the two ways a stored row is
    shaped into a JSON object (with and without its id). */
module Usuarios {
  import opened JsValues

  /** The eight business fields, in the order app.js lists them. */
  datatype Field = Nombre | Telefono | Correo | Profesional | Mensaje | Disponibilidad | Tarifa | Ciudad

  /** The column name in the `usuarios` table, which is also the JSON key. */
  function Key(f: Field): string {
    match f
    case Nombre => "nombre"
    case Telefono => "teléfono"
    case Correo => "correo"
    case Profesional => "profesional"
    case Mensaje => "mensaje"
    case Disponibilidad => "disponibilidad"
    case Tarifa => "tarifa"
    case Ciudad => "ciudad"
  }

  const IdKey: string := "id"
  const FieldKeys: set<string> :=
    {"nombre", "teléfono", "correo", "profesional", "mensaje", "disponibilidad", "tarifa", "ciudad"}

  lemma KeysAreColumns()
    ensures forall f :: Key(f) in FieldKeys && Key(f) != IdKey
    ensures forall k :: k in FieldKeys ==> exists f :: Key(f) == k
    ensures IdKey !in FieldKeys
  {
    assert Key(Nombre) == "nombre" && Key(Telefono) == "teléfono" && Key(Correo) == "correo";
    assert Key(Profesional) == "profesional" && Key(Mensaje) == "mensaje";
    assert Key(Disponibilidad) == "disponibilidad" && Key(Tarifa) == "tarifa" && Key(Ciudad) == "ciudad";
  }

  /** A stored record (without its id). */
  datatype Usuario = Usuario(
    nombre: string, telefono: string, correo: string, profesional: string,
    mensaje: string, disponibilidad: string, tarifa: string, ciudad: string)

  function Value(u: Usuario, f: Field): string {
    match f
    case Nombre => u.nombre
    case Telefono => u.telefono
    case Correo => u.correo
    case Profesional => u.profesional
    case Mensaje => u.mensaje
    case Disponibilidad => u.disponibilidad
    case Tarifa => u.tarifa
    case Ciudad => u.ciudad
  }

  /** No field of a record is empty: what every record written by the
      create and update handlers satisfies. */
  ghost predicate WellFormed(u: Usuario) {
    forall f :: Value(u, f) != ""
  }

  /** The eight fields destructured from `req.body`; any may be missing. */
  datatype UserBody = UserBody(
    nombre: Option<string>, telefono: Option<string>, correo: Option<string>,
    profesional: Option<string>, mensaje: Option<string>,
    disponibilidad: Option<string>, tarifa: Option<string>, ciudad: Option<string>)

  function Get(b: UserBody, f: Field): Option<string> {
    match f
    case Nombre => b.nombre
    case Telefono => b.telefono
    case Correo => b.correo
    case Profesional => b.profesional
    case Mensaje => b.mensaje
    case Disponibilidad => b.disponibilidad
    case Tarifa => b.tarifa
    case Ciudad => b.ciudad
  }

  /** The required-field check shared by the POST and PUT handlers: a body is
      accepted only when all eight fields are truthy, and then yields the
      record holding exactly the submitted values. */
  function Validate(b: UserBody): (r: Option<Usuario>)
    ensures r.Some? <==> forall f :: Truthy(Get(b, f))
    ensures r.None? <==> exists f :: !Truthy(Get(b, f))
    ensures r.Some? ==> WellFormed(r.value)
    ensures r.Some? ==> forall f :: Get(b, f) == Some(Value(r.value, f))
  {
    if !Truthy(b.nombre) || !Truthy(b.telefono) || !Truthy(b.correo) || !Truthy(b.profesional)
       || !Truthy(b.mensaje) || !Truthy(b.disponibilidad) || !Truthy(b.tarifa) || !Truthy(b.ciudad)
    then
      assert !Truthy(Get(b, Nombre)) || !Truthy(Get(b, Telefono)) || !Truthy(Get(b, Correo))
        || !Truthy(Get(b, Profesional)) || !Truthy(Get(b, Mensaje))
        || !Truthy(Get(b, Disponibilidad)) || !Truthy(Get(b, Tarifa)) || !Truthy(Get(b, Ciudad));
      None
    else
      Some(Usuario(b.nombre.value, b.telefono.value, b.correo.value, b.profesional.value,
                   b.mensaje.value, b.disponibilidad.value, b.tarifa.value, b.ciudad.value))
  }

  /** The body a client sends to store u: Validate gives u back. */
  function BodyOf(u: Usuario): UserBody {
    UserBody(Some(u.nombre), Some(u.telefono), Some(u.correo), Some(u.profesional),
             Some(u.mensaje), Some(u.disponibilidad), Some(u.tarifa), Some(u.ciudad))
  }

  lemma ValidateBodyOf(u: Usuario)
    requires WellFormed(u)
    ensures Validate(BodyOf(u)) == Some(u)
  {
    assert forall f :: Get(BodyOf(u), f) == Some(Value(u, f));
  }

  // ---------------------------------------------------------------------------
  // Rows and their JSON shapes

  /** A row of `SELECT * FROM usuarios`. */
  datatype Row = Row(id: int, user: Usuario)

  datatype JsonValue = JNumber(n: int) | JString(s: string)

  /** A JSON object, as a map from key to value. */
  type JsonObject = map<string, JsonValue>

  /** The object the GET /users handler builds for one row. */
  function ListObject(row: Row): (o: JsonObject)
    ensures IdKey in o && o[IdKey] == JNumber(row.id)
    ensures forall f :: Key(f) in o && o[Key(f)] == JString(Value(row.user, f))
  {
    var u := row.user;
    map[IdKey := JNumber(row.id),
        "nombre" := JString(u.nombre), "teléfono" := JString(u.telefono),
        "correo" := JString(u.correo), "profesional" := JString(u.profesional),
        "mensaje" := JString(u.mensaje), "disponibilidad" := JString(u.disponibilidad),
        "tarifa" := JString(u.tarifa), "ciudad" := JString(u.ciudad)]
  }

  /** The object the GET /users/search handler builds for one row: the same
      eight fields and no id. */
  function SearchObject(row: Row): (o: JsonObject)
    ensures IdKey !in o
    ensures forall f :: Key(f) in o && o[Key(f)] == JString(Value(row.user, f))
  {
    var u := row.user;
    map["nombre" := JString(u.nombre), "teléfono" := JString(u.telefono),
        "correo" := JString(u.correo), "profesional" := JString(u.profesional),
        "mensaje" := JString(u.mensaje), "disponibilidad" := JString(u.disponibilidad),
        "tarifa" := JString(u.tarifa), "ciudad" := JString(u.ciudad)]
  }

  /** `rows.map(...)` in the list handler. */
  function ProjectList(rows: seq<Row>): (objs: seq<JsonObject>)
    ensures |objs| == |rows|
    ensures forall i {:trigger objs[i]} :: 0 <= i < |rows| ==> objs[i] == ListObject(rows[i])
  {
    if rows == [] then [] else [ListObject(rows[0])] + ProjectList(rows[1..])
  }

  /** `rows.map(...)` in the search handler. */
  function ProjectSearch(rows: seq<Row>): (objs: seq<JsonObject>)
    ensures |objs| == |rows|
    ensures forall i {:trigger objs[i]} :: 0 <= i < |rows| ==> objs[i] == SearchObject(rows[i])
  {
    if rows == [] then [] else [SearchObject(rows[0])] + ProjectSearch(rows[1..])
  }

  /** The list shape has exactly the id and the eight fields as keys; the
      search shape exactly the eight fields. */
  lemma ObjectKeys(row: Row)
    ensures ListObject(row).Keys == {IdKey} + FieldKeys
    ensures SearchObject(row).Keys == FieldKeys
  {
  }

  /** The search shape of a row is its list shape with the id removed. */
  lemma SearchObjectDropsId(row: Row)
    ensures SearchObject(row) == ListObject(row) - {IdKey}
  {
    var s, l := SearchObject(row), ListObject(row) - {IdKey};
    assert s.Keys == l.Keys;
    forall k | k in s.Keys ensures s[k] == l[k] {
      KeysAreColumns();
    }
  }
}
