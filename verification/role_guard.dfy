/** The access decision of `src/components/RoleGuard.tsx`: what the guard renders for a
    loading state, an allowed user and a denied user. */
module RoleGuard {
  import opened Common
  import opened UserRole

  /** What the guard renders. `AccessDenied` shows the role it names. */
  datatype View = Checking | Children | Redirect(path: string) | AccessDenied(shownRole: AppRole)

  /** Access: the user holds some allowed role. Membership decides, not rank. */
  predicate HasAccess(roles: seq<AppRole>, allowed: seq<AppRole>)
  {
    exists r :: r in allowed && HasRole(roles, r)
  }

  /** The redirect path: an omitted path defaults to '/'; an explicit empty path
      stays empty. */
  function EffectivePath(fallbackPath: Option<string>): (p: string)
    ensures fallbackPath.None? ==> p == "/"
    ensures fallbackPath.Some? ==> p == fallbackPath.value
  {
    if fallbackPath.Some? then fallbackPath.value else "/"
  }

  /** The guard's render decision. */
  function Guard(loading: bool, roles: seq<AppRole>, allowed: seq<AppRole>, fallbackPath: Option<string>): (v: View)
    ensures loading <==> v == Checking
    ensures v == Children <==> !loading && HasAccess(roles, allowed)
    ensures v.Redirect? <==> !loading && !HasAccess(roles, allowed) && EffectivePath(fallbackPath) != ""
    ensures v.Redirect? ==> v.path == EffectivePath(fallbackPath)
    ensures v.AccessDenied? <==> !loading && !HasAccess(roles, allowed) && EffectivePath(fallbackPath) == ""
    ensures v.AccessDenied? ==> v.shownRole == (if |roles| == 0 then Student else HighestRole(roles).value)
  {
    if loading then Checking
    else if HasAccess(roles, allowed) then Children
    else
      var path := EffectivePath(fallbackPath);
      if path != "" then Redirect(path)
      else AccessDenied(match HighestRole(roles) case Some(r) => r case None => Student)
  }

  /** Without an explicit path a denied user is always sent to '/', so the "Access
      Denied" panel needs an explicit empty path. */
  lemma DefaultPathRedirectsHome(roles: seq<AppRole>, allowed: seq<AppRole>)
    requires !HasAccess(roles, allowed)
    ensures Guard(false, roles, allowed, None) == Redirect("/")
  {
  }

  /** Access is membership, not hierarchy: a super admin is turned away from a page
      that admits only mentors. */
  lemma AccessIsNotHierarchical()
    ensures IsAtLeast([SuperAdmin], Mentor)
    ensures Guard(false, [SuperAdmin], [Mentor], None) == Redirect("/")
  {
    assert !HasAccess([SuperAdmin], [Mentor]) by {
      forall r | r in [Mentor] ensures !HasRole([SuperAdmin], r) {
      }
    }
  }

  /** Adding roles to a user never revokes access. */
  lemma AccessMonotoneInRoles(roles: seq<AppRole>, more: seq<AppRole>, allowed: seq<AppRole>)
    requires forall r :: r in roles ==> r in more
    requires HasAccess(roles, allowed)
    ensures HasAccess(more, allowed)
  {
    var r :| r in allowed && HasRole(roles, r);
    assert HasRole(more, r);
  }
}
