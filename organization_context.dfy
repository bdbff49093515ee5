/** The client's organization state: the caller's organizations, the current one, loading and error. */
module OrganizationContextState {
  import opened Wrappers
  import Uuids
  import opened Models
  import opened Seqs
  import opened AuthService

  class OrganizationContext {
    var organizations: seq<OrganizationResponse>
    var current: Option<OrganizationResponse>
    var isLoading: bool
    var error: Option<string>

    constructor ()
      ensures organizations == [] && current.None? && !isLoading && error.None?
    {
      organizations, current, isLoading, error := [], None, false, None;
    }

    /**
     * `load_organizations`: a fetched list replaces the old one, and its first entry becomes
     * current only when nothing was; a failure is reported and changes neither.
     */
    method LoadOrganizations(fetched: Result<seq<OrganizationResponse>, ApiError>)
      modifies this
      ensures !isLoading
      ensures fetched.Ok? ==> organizations == fetched.value && error.None?
      ensures fetched.Ok? && old(current).None? && fetched.value != [] ==> current == Some(fetched.value[0])
      ensures fetched.Ok? && (old(current).Some? || fetched.value == []) ==> current == old(current)
      ensures fetched.Err? ==>
        && organizations == old(organizations) && current == old(current)
        && error == Some("Failed to load organizations: " + fetched.error.message)
    {
      isLoading := true;
      error := None;
      match fetched {
        case Ok(orgs) =>
          organizations := orgs;
          if current.None? && orgs != [] {
            current := Some(orgs[0]);
          }
        case Err(e) =>
          error := Some("Failed to load organizations: " + e.message);
      }
      isLoading := false;
    }

    /**
     * `create_organization`: the created organization is appended and made current; a failure
     * sets the prefixed error, leaves the list alone and hands back the same message.
     */
    method CreateOrganization(response: Result<OrganizationResponse, ApiError>)
      returns (r: Result<OrganizationResponse, string>)
      modifies this
      ensures !isLoading
      ensures response.Ok? ==>
        && organizations == old(organizations) + [response.value]
        && current == Some(response.value) && error.None? && r == Ok(response.value)
      ensures response.Err? ==>
        && organizations == old(organizations) && current == old(current)
        && r == Err("Failed to create organization: " + response.error.message)
        && error == Some(r.error)
    {
      isLoading := true;
      error := None;
      match response {
        case Ok(org) =>
          organizations := organizations + [org];
          current := Some(org);
          isLoading := false;
          r := Ok(org);
        case Err(e) =>
          var message := "Failed to create organization: " + e.message;
          error := Some(message);
          isLoading := false;
          r := Err(message);
      }
    }

    /** `set_current_organization`. */
    method SetCurrentOrganization(org: OrganizationResponse)
      modifies this
      ensures current == Some(org)
      ensures organizations == old(organizations) && isLoading == old(isLoading) && error == old(error)
    {
      current := Some(org);
    }

    /** `set_current_organization_by_id`: the first organization with that id; an unknown id changes nothing. */
    method SetCurrentOrganizationById(orgId: Uuids.Uuid)
      modifies this
      ensures organizations == old(organizations) && isLoading == old(isLoading) && error == old(error)
      ensures (forall o :: o in organizations ==> o.id != orgId) ==> current == old(current)
      ensures (exists o :: o in organizations && o.id == orgId) ==>
        exists i :: 0 <= i < |organizations| && current == Some(organizations[i])
          && organizations[i].id == orgId && forall j :: 0 <= j < i ==> organizations[j].id != orgId
    {
      var found := FindIndex(organizations, (o: OrganizationResponse) => o.id == orgId);
      match found {
        case Some(i) =>
          current := Some(organizations[i]);
        case None =>
      }
    }
  }
}
