/** The organization detail page: its load effect and how it labels the organization and its members. */
module OrganizationDetail {
  import opened Wrappers
  import opened Text
  import opened Uuids
  import opened Models

  /** The role badge: the caller's role, or "member" when the response carries none. */
  function RoleBadge(org: OrganizationResponse): (r: string)
    ensures org.role.Some? ==> r == org.role.value
    ensures org.role.None? ==> r == "member"
  {
    org.role.GetOr("member")
  }

  /**
   * A member's display name: "first last" trimmed when either name is present (a missing
   * one counts as empty), otherwise the e-mail address.
   */
  function DisplayName(m: OrganizationMemberResponse): (r: string)
    ensures m.userFirstName.None? && m.userLastName.None? ==> r == m.userEmail
    ensures m.userFirstName.Some? || m.userLastName.Some? ==>
      r == Trim(m.userFirstName.GetOr("") + " " + m.userLastName.GetOr(""))
    ensures m.userFirstName.Some? || m.userLastName.Some? ==>
      (r == [] || (!IsWhitespace(r[0]) && !IsWhitespace(r[|r| - 1])))
  {
    if m.userFirstName.Some? || m.userLastName.Some? then
      Trim(m.userFirstName.GetOr("") + " " + m.userLastName.GetOr(""))
    else
      m.userEmail
  }

  /** A name with no whitespace at either end and at least one character. */
  predicate Clean(s: string) {
    s != [] && !IsWhitespace(s[0]) && !IsWhitespace(s[|s| - 1])
  }

  lemma TrimBothNames(f: string, l: string)
    requires Clean(f) && Clean(l)
    ensures Trim(f + " " + l) == f + " " + l
  {
    var s := f + " " + l;
    assert s[0] == f[0] && s[|s| - 1] == l[|l| - 1];
    TrimUntouched(s);
  }

  lemma TrimTrailingSpace(f: string)
    requires Clean(f)
    ensures Trim(f + " ") == f
  {
    var s := f + " ";
    assert s[0] == f[0];
    assert TrimStart(s) == s;
    assert s[..|s| - 1] == f;
    assert IsWhitespace(s[|s| - 1]);
    assert TrimEnd(s) == TrimEnd(f);
    TrimUntouched(f);
  }

  lemma TrimLeadingSpace(l: string)
    requires Clean(l)
    ensures Trim(" " + l) == l
  {
    var s := " " + l;
    assert s[1..] == l;
    assert IsWhitespace(s[0]);
    assert TrimStart(s) == TrimStart(l);
    TrimUntouched(l);
  }

  /** With clean names, the display name is exactly the names joined by one space, or the one name given. */
  lemma DisplayNameOfCleanNames(m: OrganizationMemberResponse)
    requires m.userFirstName.Some? ==> Clean(m.userFirstName.value)
    requires m.userLastName.Some? ==> Clean(m.userLastName.value)
    ensures m.userFirstName.Some? && m.userLastName.Some? ==>
      DisplayName(m) == m.userFirstName.value + " " + m.userLastName.value
    ensures m.userFirstName.Some? && m.userLastName.None? ==> DisplayName(m) == m.userFirstName.value
    ensures m.userFirstName.None? && m.userLastName.Some? ==> DisplayName(m) == m.userLastName.value
  {
    var first, last := m.userFirstName, m.userLastName;
    if first.Some? && last.Some? {
      assert DisplayName(m) == first.value + " " + last.value by {
        TrimBothNames(first.value, last.value);
      }
    } else if first.Some? {
      assert DisplayName(m) == first.value by {
        assert first.value + " " + "" == first.value + " ";
        TrimTrailingSpace(first.value);
      }
    } else if last.Some? {
      assert DisplayName(m) == last.value by {
        assert "" + " " + last.value == " " + last.value;
        TrimLeadingSpace(last.value);
      }
    }
  }

  /** The avatar letter: the first character upper-cased, or '?' for an empty name. */
  function Initial(name: string): (r: char)
    ensures name == [] ==> r == '?'
    ensures name != [] ==> r == ToUpperChar(name[0]) && !('a' <= r <= 'z')
    ensures name != [] && IsAlphanumeric(name[0]) ==> IsAlphanumeric(r)
  {
    if name == [] then '?' else ToUpperChar(name[0])
  }

  /** The page's signals. */
  class OrganizationDetailPage {
    var organization: Option<OrganizationResponse>
    var members: seq<OrganizationMemberResponse>
    var isLoading: bool
    var error: Option<string>

    constructor ()
      ensures organization.None? && members == [] && isLoading && error.None?
    {
      organization, members, isLoading, error := None, [], true, None;
    }

    /**
     * The load effect for the route's `org_id`: nothing happens for an id that is not a uuid;
     * a failed organization fetch stops before the members are requested; a failed member
     * fetch keeps the organization. Returns whether the members were requested.
     */
    method Load(orgIdParam: string, fetchedOrg: Result<OrganizationResponse, string>,
                fetchedMembers: Result<seq<OrganizationMemberResponse>, string>)
      returns (membersRequested: bool)
      modifies this
      ensures membersRequested <==> Parse(orgIdParam).Some? && fetchedOrg.Ok?
      ensures Parse(orgIdParam).None? ==>
        organization == old(organization) && members == old(members)
        && isLoading == old(isLoading) && error == old(error)
      ensures Parse(orgIdParam).Some? ==> !isLoading
      ensures Parse(orgIdParam).Some? && fetchedOrg.Err? ==>
        && organization == old(organization) && members == old(members)
        && error == Some("Failed to load organization: " + fetchedOrg.error)
      ensures membersRequested ==> organization == Some(fetchedOrg.value)
      ensures membersRequested && fetchedMembers.Ok? ==> members == fetchedMembers.value && error.None?
      ensures membersRequested && fetchedMembers.Err? ==>
        members == old(members) && error == Some("Failed to load members: " + fetchedMembers.error)
    {
      if Parse(orgIdParam).None? {
        return false;
      }
      isLoading := true;
      error := None;
      match fetchedOrg {
        case Ok(org) =>
          organization := Some(org);
        case Err(e) =>
          error := Some("Failed to load organization: " + e);
          isLoading := false;
          return false;
      }
      membersRequested := true;
      match fetchedMembers {
        case Ok(list) =>
          members := list;
        case Err(e) =>
          error := Some("Failed to load members: " + e);
      }
      isLoading := false;
    }

    /** The "N members" counter. */
    function MemberCount(): (n: nat)
      reads this
      ensures n == |members|
    {
      |members|
    }
  }
}
