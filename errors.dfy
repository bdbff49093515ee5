/** The backend's error taxonomy and its HTTP rendering. */
module Errors {

  /** `AppError`; `Database` carries the rendered `sqlx::Error`. */
  datatype AppError =
    | DatabaseError(msg: string)
    | Database(detail: string)
    | Validation(msg: string)
    | Authentication(msg: string)
    | Authorization(msg: string)
    | NotFound(msg: string)
    | Conflict(msg: string)
    | InternalServerError(msg: string)
    | Internal(msg: string)
    | BadRequest(msg: string)
    | ExternalService(msg: string)
  {
    /** The variants whose own message is meant for the client. */
    predicate IsClientError() {
      Validation? || Authentication? || Authorization? || NotFound? || Conflict? || BadRequest?
    }
  }

  /** An HTTP response: the status code and the JSON object of the body as key/value pairs. */
  datatype Response = Response(status: int, body: seq<(string, string)>)

  const DatabaseText := "Database error occurred"
  const InternalText := "Internal server error"
  const ExternalText := "External service error"

  /** `IntoResponse for AppError`. */
  function IntoResponse(e: AppError): (r: Response)
    ensures |r.body| == 1 && r.body[0].0 == "error"
    ensures e.IsClientError() <==> 400 <= r.status < 500
    ensures e.IsClientError() ==> r.body[0].1 == e.msg
    ensures !e.IsClientError() ==> r.body[0].1 in {DatabaseText, InternalText, ExternalText}
    ensures (e.Validation? || e.BadRequest?) <==> r.status == 400
    ensures e.Authentication? <==> r.status == 401
    ensures e.Authorization? <==> r.status == 403
    ensures e.NotFound? <==> r.status == 404
    ensures e.Conflict? <==> r.status == 409
    ensures (e.DatabaseError? || e.Database?) <==> (r.status == 500 && r.body[0].1 == DatabaseText)
    ensures (e.InternalServerError? || e.Internal?) <==> (r.status == 500 && r.body[0].1 == InternalText)
    ensures e.ExternalService? <==> r.status == 502
  {
    var (status, message) := match e
      case DatabaseError(_) => (500, DatabaseText)
      case Database(_) => (500, DatabaseText)
      case Validation(msg) => (400, msg)
      case Authentication(msg) => (401, msg)
      case Authorization(msg) => (403, msg)
      case NotFound(msg) => (404, msg)
      case Conflict(msg) => (409, msg)
      case BadRequest(msg) => (400, msg)
      case ExternalService(_) => (502, ExternalText)
      case InternalServerError(_) => (500, InternalText)
      case Internal(_) => (500, InternalText);
    Response(status, [("error", message)])
  }

  /** Server-side failures never put their own detail in the response. */
  lemma ServerDetailHidden(e: AppError, d: string)
    requires !e.IsClientError()
    ensures IntoResponse(e) == IntoResponse(WithDetail(e, d))
  {
  }

  /** The same variant carrying another message (helper for ServerDetailHidden). */
  function WithDetail(e: AppError, d: string): AppError {
    match e
    case Database(_) => Database(d)
    case _ => e.(msg := d)
  }

  /** The `Display` text that `thiserror` derives for each variant. */
  function Display(e: AppError): (r: string)
    ensures !e.Database? ==> |e.msg| < |r| && r[|r| - |e.msg|..] == e.msg
    ensures e.Database? ==> r == "Database error"
  {
    match e
    case DatabaseError(msg) => "Database error: " + msg
    case Database(_) => "Database error"
    case Validation(msg) => "Validation error: " + msg
    case Authentication(msg) => "Authentication error: " + msg
    case Authorization(msg) => "Authorization error: " + msg
    case NotFound(msg) => "Not found: " + msg
    case Conflict(msg) => "Conflict: " + msg
    case InternalServerError(msg) => "Internal server error: " + msg
    case Internal(msg) => "Internal server error: " + msg
    case BadRequest(msg) => "Bad request: " + msg
    case ExternalService(msg) => "External service error: " + msg
  }

  /** `From<anyhow::Error>`: every foreign error becomes `Internal`, answered with 500. */
  function FromAnyhow(rendered: string): (e: AppError)
    ensures IntoResponse(e) == Response(500, [("error", InternalText)])
    ensures Display(e) == "Internal server error: " + rendered
  {
    Internal(rendered)
  }
}
