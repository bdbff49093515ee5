/** The organization and project list pages: their create forms and the slug fields they fill in. */
module Forms {
  import opened Wrappers
  import opened Text
  import opened Models
  import opened Slugs
  import opened AuthService
  import opened OrganizationContextState

  const DefaultStatus := "planning"
  const DefaultColor := "#3B82F6"

  /** `desc_val.is_empty()` → None. */
  function OptionalText(s: string): (r: Option<string>)
    ensures r.None? <==> s == ""
    ensures r.Some? ==> r.value == s
  {
    if s == "" then None else Some(s)
  }

  /** The organization form's checks, in order; None when the form may be sent. */
  function OrganizationFormError(name: string, slug: string): (r: Option<string>)
    ensures name == "" ==> r == Some("Organization name is required")
    ensures name != "" && slug == "" ==> r == Some("Organization slug is required")
    ensures name != "" && slug != "" && !AllSlugChars(slug) ==>
      r == Some("Slug can only contain letters, numbers, and hyphens")
    ensures r.None? <==> name != "" && slug != "" && AllSlugChars(slug)
  {
    if name == "" then Some("Organization name is required")
    else if slug == "" then Some("Organization slug is required")
    else if !AllSlugChars(slug) then Some("Slug can only contain letters, numbers, and hyphens")
    else None
  }

  /** A non-empty name whose generated slug is non-empty always passes the form's checks. */
  lemma GeneratedSlugAccepted(name: string)
    requires name != "" && OrganizationSlug(name) != ""
    ensures OrganizationFormError(name, OrganizationSlug(name)).None?
  {
    OrganizationSlugWellFormed(name);
  }

  /** The organizations page's form signals. */
  class OrganizationsPage {
    var showCreateModal: bool
    var name: string
    var slug: string
    var description: string
    var localError: Option<string>

    constructor ()
      ensures !showCreateModal && name == "" && slug == "" && description == "" && localError.None?
    {
      showCreateModal, name, slug, description, localError := false, "", "", "", None;
    }

    /** `handle_name_change`: the name, and a slug generated from it (well formed, whatever the name). */
    method HandleNameChange(value: string)
      modifies this
      ensures name == value && slug == OrganizationSlug(value)
      ensures WellFormedSlug(slug) && AllSlugChars(slug)
      ensures description == old(description) && localError == old(localError)
      ensures showCreateModal == old(showCreateModal)
    {
      name := value;
      OrganizationSlugWellFormed(value);
      slug := OrganizationSlug(value);
    }

    /**
     * `handle_create`: the checks in order, each stopping before any request; then the
     * organization context's create with the response; success resets the form and closes the
     * modal, failure shows the context's message and keeps the fields.
     */
    method HandleCreate(ctx: OrganizationContext, response: Result<OrganizationResponse, ApiError>)
      returns (sent: Option<CreateOrganizationRequest>)
      modifies this`name, this`slug, this`description, this`showCreateModal, this`localError, ctx
      ensures OrganizationFormError(old(name), old(slug)).Some? ==>
        && sent.None? && localError == OrganizationFormError(old(name), old(slug))
        && name == old(name) && slug == old(slug) && description == old(description)
        && showCreateModal == old(showCreateModal) && unchanged(ctx)
      ensures OrganizationFormError(old(name), old(slug)).None? ==>
        sent == Some(CreateOrganizationRequest(old(name), old(slug), OptionalText(old(description))))
      ensures OrganizationFormError(old(name), old(slug)).None? && response.Ok? ==>
        && name == "" && slug == "" && description == "" && !showCreateModal && localError.None?
        && ctx.organizations == old(ctx.organizations) + [response.value]
        && ctx.current == Some(response.value) && ctx.error.None? && !ctx.isLoading
      ensures OrganizationFormError(old(name), old(slug)).None? && response.Err? ==>
        && name == old(name) && slug == old(slug) && description == old(description)
        && showCreateModal == old(showCreateModal)
        && localError == Some("Failed to create organization: " + response.error.message)
        && ctx.organizations == old(ctx.organizations) && ctx.current == old(ctx.current)
        && ctx.error == Some(localError.value) && !ctx.isLoading
    {
      localError := None;
      var refused := OrganizationFormError(name, slug);
      if refused.Some? {
        localError := refused;
        return None;
      }
      var request := CreateOrganizationRequest(name, slug, OptionalText(description));
      sent := Some(request);
      var result := ctx.CreateOrganization(response);
      match result {
        case Ok(_) =>
          name := "";
          slug := "";
          description := "";
          showCreateModal := false;
          localError := None;
        case Err(e) =>
          localError := Some(e);
      }
    }
  }

  /** The project form's checks, in order. */
  function ProjectFormError(name: string, slug: string): (r: Option<string>)
    ensures name == "" ==> r == Some("Project name is required")
    ensures name != "" && slug == "" ==> r == Some("Project slug is required")
    ensures r.None? <==> name != "" && slug != ""
  {
    if name == "" then Some("Project name is required")
    else if slug == "" then Some("Project slug is required")
    else None
  }

  /** The projects page's signals. */
  class ProjectsPage {
    var projects: seq<ProjectResponse>
    var loading: bool
    var error: Option<string>
    var showCreateModal: bool
    var name: string
    var slug: string
    var description: string
    var status: string
    var color: string
    var createError: Option<string>

    constructor ()
      ensures projects == [] && loading && error.None? && !showCreateModal
      ensures name == "" && slug == "" && description == ""
      ensures status == DefaultStatus && color == DefaultColor && createError.None?
    {
      projects, loading, error, showCreateModal := [], true, None, false;
      name, slug, description := "", "", "";
      status, color, createError := DefaultStatus, DefaultColor, None;
    }

    /** The load effect: only for a non-empty organization id; the list or the error, then loading ends. */
    method LoadProjects(orgId: string, fetched: Result<seq<ProjectResponse>, string>)
      modifies this`projects, this`loading, this`error
      ensures orgId == "" ==> projects == old(projects) && loading == old(loading) && error == old(error)
      ensures orgId != "" ==> !loading
      ensures orgId != "" && fetched.Ok? ==> projects == fetched.value && error.None?
      ensures orgId != "" && fetched.Err? ==>
        projects == old(projects) && error == Some("Failed to load projects: " + fetched.error)
    {
      if orgId == "" {
        return;
      }
      loading := true;
      match fetched {
        case Ok(list) =>
          projects := list;
          error := None;
        case Err(e) =>
          error := Some("Failed to load projects: " + e);
      }
      loading := false;
    }

    /** Typing a name: the auto-slug effect rewrites the slug only for a non-empty name. */
    method SetName(value: string)
      modifies this`name, this`slug
      ensures name == value
      ensures value == "" ==> slug == old(slug)
      ensures value != "" ==> slug == ProjectAutoSlug(value).value && AllSlugChars(slug)
    {
      name := value;
      var generated := ProjectAutoSlug(value);
      if generated.Some? {
        slug := generated.value;
      }
    }

    /**
     * `handle_create`: name then slug checked, no request on either failure; the request
     * carries the selected status and colour; success appends and resets the form, failure
     * leaves the list and shows the error.
     */
    method HandleCreate(response: Result<ProjectResponse, string>) returns (sent: Option<CreateProjectRequest>)
      modifies this`projects, this`showCreateModal, this`name, this`slug, this`description, this`status, this`color,
               this`createError
      ensures ProjectFormError(old(name), old(slug)).Some? ==>
        && sent.None? && createError == ProjectFormError(old(name), old(slug))
        && projects == old(projects) && name == old(name) && slug == old(slug) && description == old(description)
        && status == old(status) && color == old(color) && showCreateModal == old(showCreateModal)
      ensures ProjectFormError(old(name), old(slug)).None? ==>
        sent == Some(CreateProjectRequest(old(name), old(slug), OptionalText(old(description)),
                                          Some(old(status)), Some(old(color))))
      ensures ProjectFormError(old(name), old(slug)).None? && response.Ok? ==>
        && projects == old(projects) + [response.value] && !showCreateModal
        && name == "" && slug == "" && description == ""
        && status == DefaultStatus && color == DefaultColor && createError.None?
      ensures ProjectFormError(old(name), old(slug)).None? && response.Err? ==>
        && projects == old(projects) && name == old(name) && slug == old(slug) && description == old(description)
        && status == old(status) && color == old(color) && showCreateModal == old(showCreateModal)
        && createError == Some("Failed to create project: " + response.error)
    {
      var refused := ProjectFormError(name, slug);
      if refused.Some? {
        createError := refused;
        return None;
      }
      sent := Some(CreateProjectRequest(name, slug, OptionalText(description), Some(status), Some(color)));
      match response {
        case Ok(created) =>
          projects := projects + [created];
          showCreateModal := false;
          name := "";
          slug := "";
          description := "";
          status := DefaultStatus;
          color := DefaultColor;
          createError := None;
        case Err(e) =>
          createError := Some("Failed to create project: " + e);
      }
    }
  }
}
