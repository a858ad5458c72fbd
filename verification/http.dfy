/** The slice of net/http that the lindeb handlers touch: status codes,
    the reply a handler writes, and the method switch shared by the
    `Access*` proxies. */
module Http {
  import opened Wrappers

  const StatusOK := 200
  const StatusCreated := 201
  const StatusNoContent := 204
  const StatusBadRequest := 400
  const StatusUnauthorized := 401
  const StatusForbidden := 403
  const StatusNotFound := 404
  const StatusConflict := 409
  const StatusRequestEntityTooLarge := 413
  const StatusUnsupportedMediaType := 415
  const StatusInternalServerError := 500

  /** What a handler writes: a status with a JSON body, or a bare status
      (an error text or an empty body; the text itself is not modelled). */
  datatype Reply<+T> = Json(status: int, body: T) | Status(code: int) {
    function Code(): int {
      match this
      case Json(s, _) => s
      case Status(c) => c
    }
  }

  datatype Method = GET | PUT | DELETE | POST | HEAD | PATCH | OPTIONS

  /** The handler an `Access*` proxy hands a request to; `Panic` is the
      default branch that panics because the router should have refused
      the method. */
  datatype Route = ToGet | ToEdit | ToDelete | Panic

  function RouteOf(m: Method): (r: Route)
    ensures r == ToGet <==> m == GET
    ensures r == ToEdit <==> m == PUT
    ensures r == ToDelete <==> m == DELETE
    ensures r == Panic <==> m !in {GET, PUT, DELETE}
  {
    match m
    case GET => ToGet
    case PUT => ToEdit
    case DELETE => ToDelete
    case _ => Panic
  }

  /** A parsed query string, `url.Values`: every name with all its values
      in order. */
  type Query = map<string, seq<string>>

  /** `Values.Get`: the first value of `name`, or "" when there is none. */
  function QueryGet(q: Query, name: string): (v: string)
    ensures name !in q ==> v == ""
    ensures name in q && |q[name]| > 0 ==> v == q[name][0]
  {
    if name in q && |q[name]| > 0 then q[name][0] else ""
  }

  /** `q[name]`: all values of `name`, nil (`None`) when it is absent. */
  function QueryAll(q: Query, name: string): (v: Option<seq<string>>)
    ensures v.Some? <==> name in q
    ensures v.Some? ==> v.value == q[name]
  {
    if name in q then Some(q[name]) else None
  }
}
