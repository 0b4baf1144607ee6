/**
 * The collection client (src/services/userService.js): the request each
 * operation sends, and how a delivered response or a transport failure is
 * turned into the operation's result.  The network is a parameter: a total
 * function from the request sent to what came back.
 */
module UserService {
  import opened Common
  import opened Text

  datatype Verb = Get | Post | Put | Delete

  /** What `fetch` is called with, headers and JSON body aside. */
  datatype Request = Request(verb: Verb, url: string)

  /** The parsed JSON body: the value the caller wants and its optional `error` member. */
  datatype JsonBody<+T> = JsonBody(value: T, error: Option<string>)

  /** A delivered HTTP response: status, `Content-Type` header (absent or present) and parsed body. */
  datatype Response<+T> = Response(status: int, contentType: Option<string>, body: JsonBody<T>)

  /** What the network gives back for one request: a response, or a rejection of `fetch`. */
  datatype Delivery<+T> = Delivered(response: Response<T>) | NetworkFailure(reason: string)

  const FormatErrorMessage := "La respuesta no es JSON válido"
  const GenericErrorMessage := "Error en la petición"
  const JsonMediaType := "application/json"

  /** `response.ok`: a 2xx status. */
  predicate IsOkStatus(status: int)
  {
    200 <= status <= 299
  }

  /** The header is present, non-empty and mentions `application/json`. */
  predicate IsJson(contentType: Option<string>)
  {
    contentType.Some? && contentType.value != "" && Contains(contentType.value, JsonMediaType)
  }

  /** `data.error || 'Error en la petición'`: a missing or empty `error` falls back to the generic text. */
  function ErrorText(e: Option<string>): (m: string)
    ensures m != ""
    ensures e.Some? && e.value != "" ==> m == e.value
    ensures !(e.Some? && e.value != "") ==> m == GenericErrorMessage
  {
    match e
    case Some(text) => if text != "" then text else GenericErrorMessage
    case None => GenericErrorMessage
  }

  /**
   * `handleResponse`: a response that is not JSON is a format error whatever
   * its status; a JSON response with a non-2xx status fails with the body's
   * `error` text; otherwise the parsed body is the result.
   */
  function HandleResponse<T>(r: Response<T>): (o: Outcome<T>)
    ensures !IsJson(r.contentType) ==> o == Thrown(FormatErrorMessage)
    ensures IsJson(r.contentType) && !IsOkStatus(r.status) ==> o == Thrown(ErrorText(r.body.error))
    ensures o.Ok? <==> IsJson(r.contentType) && IsOkStatus(r.status)
    ensures o.Ok? ==> o.value == r.body.value
    ensures o.Thrown? ==> o.message != ""
  {
    if !IsJson(r.contentType) then Thrown(FormatErrorMessage)
    else if !IsOkStatus(r.status) then Thrown(ErrorText(r.body.error))
    else Ok(r.body.value)
  }

  /**
   * The content-type check comes first: two non-JSON responses fail alike,
   * whatever their statuses and bodies.
   */
  lemma FormatCheckPrecedesStatus<T>(r1: Response<T>, r2: Response<T>)
    requires !IsJson(r1.contentType) && !IsJson(r2.contentType)
    ensures HandleResponse(r1) == HandleResponse(r2)
  {
  }

  /** A JSON media type with parameters still counts as JSON. */
  lemma JsonWithCharsetIsJson()
    ensures IsJson(Some("application/json; charset=utf-8"))
  {
    assert OccursAt("application/json; charset=utf-8", JsonMediaType, 0);
  }

  /** `${API_BASE_URL}/api/usuarios`: the collection resource. */
  function CollectionUrl(base: string): (url: string)
    ensures base <= url && url[|base|..] == "/api/usuarios"
    ensures |url| == |base| + 13
  {
    base + "/api/usuarios"
  }

  /** `${API_BASE_URL}/api/usuarios/${id}`: one user's resource. */
  function ItemUrl(base: string, id: int): (url: string)
    ensures CollectionUrl(base) + "/" <= url
    ensures url[|CollectionUrl(base)| + 1..] == IntToString(id)
  {
    CollectionUrl(base) + "/" + IntToString(id)
  }

  /** `${API_BASE_URL}/api/usuarios/total`: the count resource. */
  function TotalUrl(base: string): (url: string)
    ensures CollectionUrl(base) + "/" <= url
    ensures url[|CollectionUrl(base)| + 1..] == "total"
  {
    CollectionUrl(base) + "/total"
  }

  /** A query parameter that is `undefined`, `null` or `''` is falsy. */
  predicate Truthy(p: Option<string>)
  {
    p.Some? && p.value != ""
  }

  /**
   * The URL `obtenerUsuarios` fetches.  The query string is added only when
   * both `filtro` and `busqueda` are truthy, each value passed through the
   * URI-component encoder `enc`.
   */
  function ListUrl(base: string, filtro: Option<string>, busqueda: Option<string>, enc: string -> string): (url: string)
    ensures CollectionUrl(base) <= url
    ensures !(Truthy(filtro) && Truthy(busqueda)) <==> url == CollectionUrl(base)
    ensures Truthy(filtro) && Truthy(busqueda) ==>
      url[|CollectionUrl(base)|..] == "?filtro=" + enc(filtro.value) + "&busqueda=" + enc(busqueda.value)
  {
    var url := CollectionUrl(base);
    if Truthy(filtro) && Truthy(busqueda) then
      url + "?filtro=" + enc(filtro.value) + "&busqueda=" + enc(busqueda.value)
    else
      url
  }

  /** Distinct ids name distinct resources, and no id names the count resource. */
  lemma ItemUrlsAreDistinct(base: string, a: int, b: int)
    ensures ItemUrl(base, a) == ItemUrl(base, b) <==> a == b
    ensures ItemUrl(base, a) != TotalUrl(base)
  {
    var n := |CollectionUrl(base)| + 1;
    if ItemUrl(base, a) == ItemUrl(base, b) {
      assert ItemUrl(base, a)[n..] == ItemUrl(base, b)[n..];
      IntToStringInjective(a, b);
    }
    assert ItemUrl(base, a)[n..][0] == IntToString(a)[0] != 't';
    assert TotalUrl(base)[n..][0] == 't';
  }

  /** `obtenerUsuarios(params)`: GET the collection, filtered when both parameters are given. */
  function ObtenerUsuariosRequest(base: string, filtro: Option<string>, busqueda: Option<string>, enc: string -> string): Request
  {
    Request(Get, ListUrl(base, filtro, busqueda, enc))
  }

  /** `obtenerUsuarioPorId(id)`. */
  function ObtenerUsuarioPorIdRequest(base: string, id: int): Request
  {
    Request(Get, ItemUrl(base, id))
  }

  /** `agregarUsuario(usuario)`: POST to the collection. */
  function AgregarUsuarioRequest(base: string): Request
  {
    Request(Post, CollectionUrl(base))
  }

  /** `actualizarUsuario(id, datos)`. */
  function ActualizarUsuarioRequest(base: string, id: int): Request
  {
    Request(Put, ItemUrl(base, id))
  }

  /** `eliminarUsuario(id)`. */
  function EliminarUsuarioRequest(base: string, id: int): Request
  {
    Request(Delete, ItemUrl(base, id))
  }

  /** `obtenerTotalUsuarios()`. */
  function ObtenerTotalUsuariosRequest(base: string): Request
  {
    Request(Get, TotalUrl(base))
  }

  /** Each operation's request: verb and resource, as the client sends them. */
  lemma OperationRequests(base: string, id: int, enc: string -> string)
    ensures ObtenerUsuariosRequest(base, None, None, enc) == Request(Get, base + "/api/usuarios")
    ensures ObtenerUsuarioPorIdRequest(base, id) == Request(Get, base + "/api/usuarios/" + IntToString(id))
    ensures AgregarUsuarioRequest(base) == Request(Post, base + "/api/usuarios")
    ensures ActualizarUsuarioRequest(base, id) == Request(Put, base + "/api/usuarios/" + IntToString(id))
    ensures EliminarUsuarioRequest(base, id) == Request(Delete, base + "/api/usuarios/" + IntToString(id))
    ensures ObtenerTotalUsuariosRequest(base) == Request(Get, base + "/api/usuarios/total")
  {
  }

  /**
   * One operation end to end: send `req`, then hand the response to
   * `handleResponse`.  Whatever was thrown on the way — the rejection of
   * `fetch` or the error `handleResponse` raised — reaches the caller
   * unchanged, and no value is returned with it.
   */
  function Send<T>(req: Request, net: Request -> Delivery<T>): (o: Outcome<T>)
    ensures net(req).NetworkFailure? ==> o == Thrown(net(req).reason)
    ensures net(req).Delivered? ==> o == HandleResponse(net(req).response)
    ensures o.Ok? <==> net(req).Delivered? && IsJson(net(req).response.contentType) && IsOkStatus(net(req).response.status)
  {
    match net(req)
    case NetworkFailure(reason) => Thrown(reason)
    case Delivered(response) => HandleResponse(response)
  }
}
