/** lib/api-utils.ts: the error responses every handler returns and `validateQueryParams`. */
module ApiUtils {
  import opened Wrappers

  /** The `error` object of a response body: a machine-readable code and a message. */
  datatype ApiError = ApiError(code: string, message: string)

  /** An error response: the HTTP status and the error object it carries. */
  datatype ErrorResponse = ErrorResponse(status: int, error: ApiError)

  /** The status each error code is sent with. */
  function StatusOf(code: string): Option<int>
  {
    if code == "BAD_REQUEST" then Some(400)
    else if code == "UNAUTHORIZED" then Some(401)
    else if code == "FORBIDDEN" then Some(403)
    else if code == "NOT_FOUND" then Some(404)
    else if code == "METHOD_NOT_ALLOWED" then Some(405)
    else if code == "INTERNAL_ERROR" then Some(500)
    else None
  }

  /** A response is well formed when its status is the one its code calls for. */
  predicate WellFormed(r: ErrorResponse)
  {
    StatusOf(r.error.code) == Some(r.status)
  }

  function BadRequest(message: string): (r: ErrorResponse)
    ensures WellFormed(r) && r.status == 400 && r.error.message == message
  {
    ErrorResponse(400, ApiError("BAD_REQUEST", message))
  }

  /** A `None` message is an omitted argument: the helper's default message is used. */
  function NotFound(message: Option<string>): (r: ErrorResponse)
    ensures WellFormed(r) && r.status == 404
    ensures r.error.message == message.GetOr("Resource not found")
  {
    ErrorResponse(404, ApiError("NOT_FOUND", message.GetOr("Resource not found")))
  }

  function Unauthorized(message: Option<string>): (r: ErrorResponse)
    ensures WellFormed(r) && r.status == 401
    ensures r.error.message == message.GetOr("Unauthorized")
  {
    ErrorResponse(401, ApiError("UNAUTHORIZED", message.GetOr("Unauthorized")))
  }

  function Forbidden(message: Option<string>): (r: ErrorResponse)
    ensures WellFormed(r) && r.status == 403
    ensures r.error.message == message.GetOr("Forbidden")
  {
    ErrorResponse(403, ApiError("FORBIDDEN", message.GetOr("Forbidden")))
  }

  /** The message every route handler's catch-all `internalError` call uses. */
  const UnexpectedMessage := "An unexpected error occurred"

  function InternalError(message: Option<string>): (r: ErrorResponse)
    ensures WellFormed(r) && r.status == 500
    ensures r.error.message == message.GetOr("Internal server error")
  {
    ErrorResponse(500, ApiError("INTERNAL_ERROR", message.GetOr("Internal server error")))
  }

  function MethodNotAllowed(): (r: ErrorResponse)
    ensures WellFormed(r) && r.status == 405 && r.error.message == "Method not allowed"
  {
    ErrorResponse(405, ApiError("METHOD_NOT_ALLOWED", "Method not allowed"))
  }

  /** The code table is one-to-one: no two codes share a status, and the 4xx/5xx class of the
      status says whether the caller (4xx) or the server (5xx) is at fault. */
  lemma StatusTableInjective(c1: string, c2: string)
    requires StatusOf(c1).Some? && StatusOf(c1) == StatusOf(c2)
    ensures c1 == c2
    ensures 400 <= StatusOf(c1).value < 500 <==> c1 != "INTERNAL_ERROR"
  {
  }

  // ---------------------------------------------------------------------------------------------
  // Query parameters

  /** A JavaScript value as far as truthiness is concerned. */
  datatype JsValue = Undefined | Null | Bool(b: bool) | Number(n: real) | NaN | Str(s: string) | Object

  /** JavaScript's truthiness: `undefined`, `null`, `false`, `0`, `NaN` and `""` are falsy. */
  predicate Truthy(v: JsValue)
  {
    match v
    case Undefined => false
    case Null => false
    case Bool(b) => b
    case Number(n) => n != 0.0
    case NaN => false
    case Str(s) => s != ""
    case Object => true
  }

  /** `params[name]`: `undefined` for a name that is not a key. */
  function Lookup(params: map<string, JsValue>, name: string): JsValue
  {
    if name in params then params[name] else Undefined
  }

  /** The first name of `required` whose value is falsy. */
  function FirstMissing(params: map<string, JsValue>, required: seq<string>): (r: Option<nat>)
    ensures r.None? <==> forall i :: 0 <= i < |required| ==> Truthy(Lookup(params, required[i]))
    ensures r.Some? ==> r.value < |required| && !Truthy(Lookup(params, required[r.value])) &&
                        forall i :: 0 <= i < r.value ==> Truthy(Lookup(params, required[i]))
  {
    if |required| == 0 then None
    else if !Truthy(Lookup(params, required[0])) then Some(0)
    else
      match FirstMissing(params, required[1..])
      case None => None
      case Some(k) => Some(k + 1)
  }

  /** `validateQueryParams(params, required)`: `null` (None) when every required parameter is
      present and truthy, otherwise a MISSING_PARAM error naming the first one that is not. */
  function ValidateQueryParams(params: map<string, JsValue>, required: seq<string>): (r: Option<ApiError>)
    ensures r.None? <==> forall i :: 0 <= i < |required| ==> Truthy(Lookup(params, required[i]))
    ensures r.Some? ==>
      exists k :: 0 <= k < |required| && !Truthy(Lookup(params, required[k])) &&
        (forall i :: 0 <= i < k ==> Truthy(Lookup(params, required[i]))) &&
        r.value == ApiError("MISSING_PARAM", "Missing required parameter: " + required[k])
  {
    match FirstMissing(params, required)
    case None => None
    case Some(k) => Some(ApiError("MISSING_PARAM", "Missing required parameter: " + required[k]))
  }

  /** The default `required = []` accepts any parameters. */
  lemma ValidateNothingRequired(params: map<string, JsValue>)
    ensures ValidateQueryParams(params, []) == None
  {
  }

  /** A query parameter as `searchParams.get` returns it: `None` is `null`. It is "given" when
      it is truthy, i.e. present and not the empty string. */
  predicate Given(p: Option<string>)
  {
    p.Some? && p.value != ""
  }
}
