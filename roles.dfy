/** `MemberRole`: the four organization roles and their string forms. */
module Roles {
  import opened Wrappers
  import opened Text

  datatype MemberRole = Owner | Admin | Manager | Member

  /** `MemberRole::as_str`. */
  function AsStr(r: MemberRole): (s: string)
    ensures s in {"owner", "admin", "manager", "member"}
    ensures forall i :: 0 <= i < |s| ==> 'a' <= s[i] <= 'z'
  {
    match r
    case Owner => "owner"
    case Admin => "admin"
    case Manager => "manager"
    case Member => "member"
  }

  /** `MemberRole::from_str`: lower-cases its input, then matches the four names. */
  function FromStr(s: string): (r: Option<MemberRole>)
    ensures r.Some? <==> Lower(s) in {"owner", "admin", "manager", "member"}
    ensures r.Some? ==> AsStr(r.value) == Lower(s)
  {
    match Lower(s)
    case "owner" => Some(Owner)
    case "admin" => Some(Admin)
    case "manager" => Some(Manager)
    case "member" => Some(Member)
    case _ => None
  }

  /** `Display for MemberRole`. */
  function Display(r: MemberRole): (s: string)
    ensures FromStr(s) == Some(r)
  {
    RoundTrip(r);
    AsStr(r)
  }

  /** Every role survives printing and parsing back. */
  lemma RoundTrip(r: MemberRole)
    ensures FromStr(AsStr(r)) == Some(r)
  {
    LowerFixed(AsStr(r));
  }

  /** Lower-casing a string of lower-case letters changes nothing. */
  lemma {:induction false} LowerFixed(s: string)
    requires forall i :: 0 <= i < |s| ==> 'a' <= s[i] <= 'z'
    ensures Lower(s) == s
  {
    if s != [] {
      LowerFixed(s[1..]);
      assert [s[0]] + s[1..] == s;
    }
  }

  /** `from_str` ignores letter case. */
  lemma FromStrIgnoresCase(s: string)
    ensures FromStr(s) == FromStr(Lower(s))
  {
    LowerIdempotent(s);
  }

  /** An upper-case role name parses. */
  lemma UpperCaseParses()
    ensures FromStr("OWNER") == Some(Owner)
  {
    var l := Lower("OWNER");
    assert l[0] == 'o' && l[1] == 'w' && l[2] == 'n' && l[3] == 'e' && l[4] == 'r';
    assert l == "owner";
  }

  /** A near-miss of a role name does not parse. */
  lemma NearMissRejected()
    ensures FromStr("owners") == None
  {
    var l := Lower("owners");
    assert |l| == 6;
  }
}
