/** The bearer-token gate in front of the protected routes, and the `AuthUser` extractor. */
module Middleware {
  import opened Wrappers
  import opened Errors
  import opened Models
  import opened Credentials
  import Uuids

  /** A raw header value: bytes. */
  type HeaderValue = seq<int>

  /** `HeaderValue::to_str`: text only when every byte is visible ASCII or a tab. */
  function HeaderToStr(v: HeaderValue): (r: Option<string>)
    ensures r.Some? <==> forall i :: 0 <= i < |v| ==> v[i] == 9 || 32 <= v[i] < 127
    ensures r.Some? ==> |r.value| == |v| && forall i :: 0 <= i < |v| ==> r.value[i] as int == v[i]
  {
    if forall i :: 0 <= i < |v| ==> v[i] == 9 || 32 <= v[i] < 127 then
      Some(seq(|v|, i requires 0 <= i < |v| => v[i] as char))
    else
      None
  }

  /** The `(StatusCode, String)` rejection the middleware and the extractor answer with. */
  datatype Rejection = Rejection(status: int, message: string)

  /** The `?`-chain of `auth_middleware`: header present and textual, bearer prefix, valid token. */
  function Authenticate(header: Option<HeaderValue>, codec: JwtCodec, secret: string, now: Time)
    : (r: Result<string, Rejection>)
    ensures r.Err? ==> r.error.status == 401
    ensures (header.None? || HeaderToStr(header.value).None?) <==>
            r == Err(Rejection(401, "Missing authorization header"))
    ensures r.Ok? <==>
      && header.Some? && HeaderToStr(header.value).Some?
      && ExtractTokenFromHeader(HeaderToStr(header.value).value).Ok?
      && ValidateToken(codec, ExtractTokenFromHeader(HeaderToStr(header.value).value).value, secret, now).Ok?
    ensures r.Ok? ==>
      r.value == ValidateToken(codec, ExtractTokenFromHeader(HeaderToStr(header.value).value).value, secret, now).value.sub
  {
    if header.None? || HeaderToStr(header.value).None? then
      Err(Rejection(401, "Missing authorization header"))
    else
      var text := HeaderToStr(header.value).value;
      match ExtractTokenFromHeader(text)
      case Err(e) => Err(Rejection(401, "Invalid authorization header: " + Errors.Display(e)))
      case Ok(token) =>
        match ValidateToken(codec, token, secret, now)
        case Err(e) => Err(Rejection(401, "Invalid token: " + Errors.Display(e)))
        case Ok(claims) => Ok(claims.sub)
  }

  /** The request as the middleware sees it: its header and the `String` slot of its extensions. */
  class Request {
    var authorization: Option<HeaderValue>
    var subject: Option<string>

    constructor (authorization: Option<HeaderValue>)
      ensures this.authorization == authorization && subject.None?
    {
      this.authorization := authorization;
      subject := None;
    }
  }

  /** Whether the next handler was run (once) or the request was answered with a rejection. */
  datatype Outcome = RunNext | Reject(rejection: Rejection)

  /** `auth_middleware`: on success the subject goes into the extensions and the handler runs. */
  method AuthMiddleware(request: Request, codec: JwtCodec, secret: string, now: Time)
    returns (outcome: Outcome)
    modifies request
    ensures request.authorization == old(request.authorization)
    ensures match Authenticate(old(request.authorization), codec, secret, now)
      case Ok(sub) => outcome == RunNext && request.subject == Some(sub)
      case Err(rej) => outcome == Reject(rej) && request.subject == old(request.subject)
  {
    var auth := Authenticate(request.authorization, codec, secret, now);
    match auth {
      case Err(rej) =>
        outcome := Reject(rej);
      case Ok(sub) =>
        request.subject := Some(sub);
        outcome := RunNext;
    }
  }

  /** The `AuthUser` extractor: the stored subject, unchanged, or 401. */
  function ExtractAuthUser(subject: Option<string>): (r: Result<AuthUser, Rejection>)
    ensures subject.Some? <==> r.Ok?
    ensures r.Ok? ==> r.value.userId == subject.value
    ensures r.Err? ==> r.error == Rejection(401, "User ID not found in request")
  {
    match subject
    case Some(s) => Ok(AuthUser(s))
    case None => Err(Rejection(401, "User ID not found in request"))
  }

  /**
   * A request carrying "Bearer " and a token issued for a user passes the gate, and the
   * handler behind it reads back that user's id.
   */
  lemma IssuedTokenAuthenticates(codec: JwtCodec, userId: Uuids.Uuid, email: string, secret: string,
                                 expiration: int, issuedAt: Time, now: Time, header: HeaderValue)
    requires SoundCodec(codec)
    requires GenerateToken(codec, userId, email, secret, expiration, issuedAt).Ok?
    requires issuedAt <= now <= issuedAt + expiration
    requires HeaderToStr(header) == Some(BearerPrefix + GenerateToken(codec, userId, email, secret, expiration, issuedAt).value)
    ensures Authenticate(Some(header), codec, secret, now).Ok?
    ensures var user := ExtractAuthUser(Some(Authenticate(Some(header), codec, secret, now).value));
      user.Ok? && Uuids.Parse(user.value.userId) == Some(userId)
  {
    var token := GenerateToken(codec, userId, email, secret, expiration, issuedAt).value;
    ExtractAfterBearer(token);
    GeneratedTokenValidates(codec, userId, email, secret, expiration, issuedAt, now);
  }
}
