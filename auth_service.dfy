/** The client's account service: the user record, its display name, and the stored token. */
module AuthService {
  import opened Wrappers

  /** A failed request, as the client sees it: the error text only. */
  datatype ApiError = ApiError(message: string)

  /** The user as the client decodes it: ids and timestamps stay strings. */
  datatype ClientUser = ClientUser(
    id: string, email: string, firstName: Option<string>, lastName: Option<string>,
    isActive: bool, isEmailVerified: bool, createdAt: string)

  datatype ClientAuthResponse = ClientAuthResponse(user: ClientUser, token: string)

  /** `User::full_name`: both names, either one, or the email. */
  function FullName(u: ClientUser): (r: string)
    ensures u.firstName.Some? && u.lastName.Some? ==> r == u.firstName.value + " " + u.lastName.value
    ensures u.firstName.Some? && u.lastName.None? ==> r == u.firstName.value
    ensures u.firstName.None? && u.lastName.Some? ==> r == u.lastName.value
    ensures u.firstName.None? && u.lastName.None? ==> r == u.email
  {
    match (u.firstName, u.lastName)
    case (Some(first), Some(last)) => first + " " + last
    case (Some(first), None) => first
    case (None, Some(last)) => last
    case (None, None) => u.email
  }

  /** The full name is never empty when the user has a non-empty email and no empty name. */
  lemma FullNameNonEmpty(u: ClientUser)
    requires u.email != ""
    requires u.firstName.Some? ==> u.firstName.value != ""
    requires u.lastName.Some? ==> u.lastName.value != ""
    ensures FullName(u) != ""
  {
  }

  /** The browser's local storage, reduced to its one `auth_token` entry. */
  class TokenStorage {
    var token: Option<string>

    constructor (initial: Option<string>)
      ensures token == initial
    {
      token := initial;
    }

    /** `is_authenticated`: a token is stored. */
    predicate IsAuthenticated()
      reads this
    {
      token.Some?
    }
  }

  /**
   * `register` and `login` after the request: a successful response's token is stored
   * before the response is handed back; a failure leaves storage alone.
   */
  method StoreOnSuccess(storage: TokenStorage, response: Result<ClientAuthResponse, ApiError>)
    returns (r: Result<ClientAuthResponse, ApiError>)
    modifies storage
    ensures r == response
    ensures response.Ok? ==> storage.token == Some(response.value.token) && storage.IsAuthenticated()
    ensures response.Err? ==> storage.token == old(storage.token)
  {
    if response.Ok? {
      storage.token := Some(response.value.token);
    }
    r := response;
  }

  /** `register`. */
  method Register(storage: TokenStorage, response: Result<ClientAuthResponse, ApiError>)
    returns (r: Result<ClientAuthResponse, ApiError>)
    modifies storage
    ensures r == response
    ensures response.Ok? ==> storage.token == Some(response.value.token)
    ensures response.Err? ==> storage.token == old(storage.token)
  {
    r := StoreOnSuccess(storage, response);
  }

  /** `login`. */
  method Login(storage: TokenStorage, response: Result<ClientAuthResponse, ApiError>)
    returns (r: Result<ClientAuthResponse, ApiError>)
    modifies storage
    ensures r == response
    ensures response.Ok? ==> storage.token == Some(response.value.token)
    ensures response.Err? ==> storage.token == old(storage.token)
  {
    r := StoreOnSuccess(storage, response);
  }

  /** `logout`: the token is removed. */
  method Logout(storage: TokenStorage)
    modifies storage
    ensures storage.token.None? && !storage.IsAuthenticated()
  {
    storage.token := None;
  }
}
