/** The client's authentication state: the current user, a loading flag and the last error. */
module AuthContextState {
  import opened Wrappers
  import opened AuthService

  class AuthContext {
    var user: Option<ClientUser>
    var isLoading: bool
    var error: Option<string>

    constructor ()
      ensures user.None? && !isLoading && error.None?
    {
      user, isLoading, error := None, false, None;
    }

    /** `is_authenticated`: a user is present (whatever the token storage says). */
    predicate IsAuthenticated()
      reads this
    {
      user.Some?
    }

    /**
     * `load_user`: nothing at all without a stored token; otherwise the fetched user, or on
     * failure no user, the error, and the token removed.
     */
    method LoadUser(storage: TokenStorage, fetched: Result<ClientUser, ApiError>)
      modifies this, storage
      ensures !old(storage.IsAuthenticated()) ==>
        user == old(user) && isLoading == old(isLoading) && error == old(error) && storage.token == old(storage.token)
      ensures old(storage.IsAuthenticated()) ==> !isLoading
      ensures old(storage.IsAuthenticated()) && fetched.Ok? ==>
        user == Some(fetched.value) && error.None? && storage.token == old(storage.token)
      ensures old(storage.IsAuthenticated()) && fetched.Err? ==>
        user.None? && error == Some(fetched.error.message) && storage.token.None?
    {
      if !storage.IsAuthenticated() {
        return;
      }
      isLoading := true;
      error := None;
      match fetched {
        case Ok(u) =>
          user := Some(u);
          error := None;
        case Err(e) =>
          error := Some(e.message);
          user := None;
          AuthService.Logout(storage);
      }
      isLoading := false;
    }

    /** The shared tail of `login` and `register`. */
    method Settle(response: Result<ClientAuthResponse, ApiError>) returns (r: Result<(), string>)
      modifies this
      ensures !isLoading
      ensures response.Ok? ==> user == Some(response.value.user) && error.None? && r == Ok(())
      ensures response.Err? ==>
        user == old(user) && error == Some(response.error.message) && r == Err(response.error.message)
    {
      match response {
        case Ok(resp) =>
          user := Some(resp.user);
          error := None;
          isLoading := false;
          r := Ok(());
        case Err(e) =>
          error := Some(e.message);
          isLoading := false;
          r := Err(e.message);
      }
    }

    /** `login`: the service stores the token on success; the context takes the user or the error. */
    method Login(storage: TokenStorage, response: Result<ClientAuthResponse, ApiError>)
      returns (r: Result<(), string>)
      modifies this, storage
      ensures !isLoading
      ensures response.Ok? ==>
        user == Some(response.value.user) && error.None? && r == Ok(())
        && storage.token == Some(response.value.token)
      ensures response.Err? ==>
        user == old(user) && error == Some(response.error.message) && r == Err(response.error.message)
        && storage.token == old(storage.token)
    {
      isLoading := true;
      error := None;
      var result := AuthService.Login(storage, response);
      r := Settle(result);
    }

    /** `register`: as `login`. */
    method Register(storage: TokenStorage, response: Result<ClientAuthResponse, ApiError>)
      returns (r: Result<(), string>)
      modifies this, storage
      ensures !isLoading
      ensures response.Ok? ==>
        user == Some(response.value.user) && error.None? && r == Ok(())
        && storage.token == Some(response.value.token)
      ensures response.Err? ==>
        user == old(user) && error == Some(response.error.message) && r == Err(response.error.message)
        && storage.token == old(storage.token)
    {
      isLoading := true;
      error := None;
      var result := AuthService.Register(storage, response);
      r := Settle(result);
    }

    /** `logout`: the token goes, and so do the user and the error. */
    method Logout(storage: TokenStorage)
      modifies this, storage
      ensures storage.token.None? && user.None? && error.None? && !IsAuthenticated()
      ensures isLoading == old(isLoading)
    {
      AuthService.Logout(storage);
      user := None;
      error := None;
    }
  }
}
