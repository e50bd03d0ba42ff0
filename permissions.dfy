/** The three permission classes of the API, as predicates over the
    requesting user, the HTTP method and (for the object permission) the
    author of the object. */
module Permissions {
  import opened Common
  import opened Models

  datatype HttpMethod = Get | Head | Options | Post | Put | Patch | Delete

  /** The methods that only read. */
  predicate IsSafe(m: HttpMethod) {
    m == Get || m == Head || m == Options
  }

  /** The requesting user: anonymous, or an authenticated user row with its
      username. */
  datatype Principal = Anonymous | Member(username: string, account: Account)

  /** Admin-only access (user management). */
  predicate AdminOnly(p: Principal) {
    p.Member? && IsAdmin(p.account)
  }

  /** Anyone may read, only admins may write (categories, genres, titles). */
  predicate AdminOrReadOnly(p: Principal, m: HttpMethod) {
    IsSafe(m) || (p.Member? && IsAdmin(p.account))
  }

  /** Object permission for reviews and comments: anyone may read; writing is
      for admins, moderators and the object's author. */
  predicate StaffOrAuthorOrReadOnly(p: Principal, m: HttpMethod, author: Option<string>) {
    (p.Member? && (IsAdmin(p.account) || p.account.role == Moderator || author == Some(p.username)))
    || IsSafe(m)
  }

  /** What a refused request gets: 401 when nobody is authenticated, 403 otherwise. */
  function Refusal(p: Principal): (f: Failure)
    ensures f == NotAuthenticated <==> p.Anonymous?
    ensures f == Forbidden <==> p.Member?
  {
    if p.Anonymous? then NotAuthenticated else Forbidden
  }

  /** Reading is never refused by the two read-only classes. */
  lemma SafeMethodsAlwaysAllowed(p: Principal, m: HttpMethod, author: Option<string>)
    requires IsSafe(m)
    ensures AdminOrReadOnly(p, m) && StaffOrAuthorOrReadOnly(p, m, author)
  {
  }

  /** An anonymous user passes no check on a method that writes. */
  lemma AnonymousNeverWrites(m: HttpMethod, author: Option<string>)
    requires !IsSafe(m)
    ensures !AdminOnly(Anonymous)
    ensures !AdminOrReadOnly(Anonymous, m)
    ensures !StaffOrAuthorOrReadOnly(Anonymous, m, author)
  {
  }

  /** Writing the catalog is exactly admin-only access. */
  lemma CatalogWriteIsAdminOnly(p: Principal, m: HttpMethod)
    requires !IsSafe(m)
    ensures AdminOrReadOnly(p, m) <==> AdminOnly(p)
  {
  }

  /** A moderator without the staff flag may not write the catalog, but may
      change any review or comment. */
  lemma ModeratorRights(name: string, a: Account, m: HttpMethod, author: Option<string>)
    requires a.role == Moderator && !a.isStaff && !IsSafe(m)
    ensures !AdminOrReadOnly(Member(name, a), m)
    ensures StaffOrAuthorOrReadOnly(Member(name, a), m, author)
  {
  }

  /** Admins pass every check, so the admin-only class is the strongest. */
  lemma AdminPassesEverything(p: Principal, m: HttpMethod, author: Option<string>)
    requires AdminOnly(p)
    ensures AdminOrReadOnly(p, m) && StaffOrAuthorOrReadOnly(p, m, author)
  {
  }

  /** Making a user admin, by role or by the staff flag. */
  function Promote(a: Account, byStaffFlag: bool): (b: Account)
    ensures IsAdmin(b)
    ensures b.email == a.email && b.isActive == a.isActive && b.code == a.code
  {
    if byStaffFlag then a.(isStaff := true) else a.(role := Admin)
  }

  /** Promotion never takes a permission away. */
  lemma PromotionKeepsPermissions(
    name: string, a: Account, byStaffFlag: bool, m: HttpMethod, author: Option<string>)
    ensures var p, q := Member(name, a), Member(name, Promote(a, byStaffFlag));
            && (AdminOnly(p) ==> AdminOnly(q))
            && (AdminOrReadOnly(p, m) ==> AdminOrReadOnly(q, m))
            && (StaffOrAuthorOrReadOnly(p, m, author) ==> StaffOrAuthorOrReadOnly(q, m, author))
  {
  }

  /** An object whose author was nulled can be changed only by an admin or a
      moderator. */
  lemma OrphanedObjectOnlyForStaff(p: Principal, m: HttpMethod)
    requires !IsSafe(m)
    ensures StaffOrAuthorOrReadOnly(p, m, None) <==>
            p.Member? && (IsAdmin(p.account) || p.account.role == Moderator)
  {
  }

  /** A plain user may change an object exactly when they are its author. */
  lemma PlainUserOnlyOwnObjects(name: string, a: Account, m: HttpMethod, author: Option<string>)
    requires a.role == User && !a.isStaff && !IsSafe(m)
    ensures StaffOrAuthorOrReadOnly(Member(name, a), m, author) <==> author == Some(name)
  {
  }
}
