/** The request-time guard on `/admin` routes (`middleware`). The session
    user and the outcome of the `users` role query enter as inputs; cookies
    and the response objects stay outside. */
module Middleware {
  import opened Wrappers
  import opened Text
  import opened Store

  /** `NextResponse.next()` or a redirect to a path of the site. */
  datatype Decision = Next | Redirect(to: string)

  const AdminPath: string := "/admin"
  const LoginPath: string := "/admin/login"

  /** The pages the guard lets through without an admin session. */
  const PublicPages: seq<string> := ["/admin/login", "/admin/register", "/admin/test-connection"]

  /** The role query `from('users').select('role').eq('id', user.id).maybeSingle()`:
      it throws, returns an error, finds no row, or finds a row whose role
      may be null. */
  datatype RoleQuery = QueryThrew | QueryFailed(err: DbError) | NoRow | Row(role: Option<string>)

  /** The role the protected branch accepts: a row whose role normalises to "admin". */
  predicate AdmittedRole(query: RoleQuery) {
    query.Row? && query.role.Some? && NormaliseRole(query.role.value) == "admin"
  }

  /** The role the public branch redirects on: the raw value "admin". */
  predicate RawAdminRole(query: RoleQuery) {
    query == Row(Some("admin"))
  }

  /** `middleware(request)` for a request to `path`. */
  function Decide(path: string, user: Option<Id>, query: RoleQuery): (d: Decision)
    // anything outside /admin passes through
    ensures !StartsWith(path, AdminPath) ==> d == Next
    // public pages pass unless a signed-in user's raw role is "admin"
    ensures path in PublicPages ==>
              d == (if user.Some? && RawAdminRole(query) then Redirect(AdminPath) else Next)
    // protected pages pass iff the role normalises to "admin", else go to login
    ensures StartsWith(path, AdminPath) && path !in PublicPages ==>
              d == (if user.Some? && AdmittedRole(query) then Next else Redirect(LoginPath))
  {
    if StartsWith(path, AdminPath) then
      if path in PublicPages then
        if user.Some? then
          match query
          case Row(Some(role)) => if role == "admin" then Redirect(AdminPath) else Next
          case _ => Next  // no row, null role, an error result or a thrown error
        else Next
      else if user.None? then Redirect(LoginPath)
      else
        match query
        case QueryThrew => Redirect(LoginPath)
        case QueryFailed(_) => Redirect(LoginPath)
        case NoRow => Redirect(LoginPath)
        case Row(role) =>
          if role.Some? && NormaliseRole(role.value) == "admin" then Next else Redirect(LoginPath)
    else Next
  }

  /** The raw role "admin" also normalises to "admin". */
  lemma RawAdminIsAdmitted()
    ensures NormaliseRole("admin") == "admin"
  {
    assert Lower("admin") == "admin";
    TrimKeeps("admin");
  }

  /** A session bounced off a public page to `/admin` is admitted there. */
  lemma BouncedAdminIsAdmitted(path: string, user: Option<Id>, query: RoleQuery)
    requires Decide(path, user, query) == Redirect(AdminPath)
    ensures Decide(AdminPath, user, query) == Next
  {
    RawAdminIsAdmitted();
    assert StartsWith(path, AdminPath) && path in PublicPages;
    assert AdminPath !in PublicPages;
  }

  /** No redirect loop: following a redirect of the guard with the same
      session and the same role lookup lands on a page the guard lets through. */
  lemma NoRedirectLoop(path: string, user: Option<Id>, query: RoleQuery)
    requires Decide(path, user, query).Redirect?
    ensures Decide(Decide(path, user, query).to, user, query) == Next
  {
    RawAdminIsAdmitted();
    assert StartsWith(path, AdminPath);
    assert StartsWith(LoginPath, AdminPath) && LoginPath in PublicPages;
    assert StartsWith(AdminPath, AdminPath) && AdminPath !in PublicPages;
  }

  /** An exception in the role lookup lets a public page through but sends a
      protected page to the login page. */
  lemma LookupExceptionAsymmetry(user: Id, protected: string)
    requires StartsWith(protected, AdminPath) && protected !in PublicPages
    ensures Decide(LoginPath, Some(user), QueryThrew) == Next
    ensures Decide(protected, Some(user), QueryThrew) == Redirect(LoginPath)
  {
    assert StartsWith(LoginPath, AdminPath);
  }

  lemma PaddedAdminLowers()
    ensures Lower(" Admin ") == " admin "
  {
    assert LowerChar('A') == 'a';
  }

  lemma PaddedAdminTrims()
    ensures Trim(" admin ") == "admin"
  {
    assert " admin "[1..] == "admin ";
    TrimStartNoSpace("admin ");
    assert "admin "[..5] == "admin";
    TrimEndNoSpace("admin");
  }

  /** A witness that the precondition of `RoleComparisonAsymmetry` can be
      met: the stored role " Admin " is not "admin" but normalises to it. */
  lemma PaddedAdminNormalises()
    ensures NormaliseRole(" Admin ") == "admin"
  {
    PaddedAdminLowers();
    PaddedAdminTrims();
  }

  /** The two branches compare roles differently: a role that only
      normalises to "admin" (such as " Admin ") is admitted to protected
      pages but is not bounced off the public ones. */
  lemma RoleComparisonAsymmetry(user: Id, role: string)
    requires NormaliseRole(role) == "admin" && role != "admin"
    ensures Decide(AdminPath, Some(user), Row(Some(role))) == Next
    ensures Decide(LoginPath, Some(user), Row(Some(role))) == Next
  {
    assert StartsWith(AdminPath, AdminPath) && AdminPath !in PublicPages;
    assert AdmittedRole(Row(Some(role)));
    assert LoginPath in PublicPages && !RawAdminRole(Row(Some(role)));
  }
}
