/** The authorisation rules of the blog API (src/blog/api/v1/permissions.py),
    together with the framework rule they build on: a permission class passes or
    fails a request, and a failed check is answered with 401 when nobody is
    logged in and with 403 otherwise. */
module Permissions {
  import opened Common

  datatype Method = GET | HEAD | OPTIONS | POST | PUT | PATCH | DELETE

  /** The user attached to a request: nobody, or a row of the user table. */
  datatype RequestUser = Anonymous | Authenticated(id: UserId, isStaff: bool)

  /** The outcome of the permission checks of one request. */
  datatype Decision = Allowed | NotAuthenticated | Forbidden

  /** GET, HEAD and OPTIONS. */
  predicate IsSafe(m: Method)
  {
    m == GET || m == HEAD || m == OPTIONS
  }

  /** `request.user.is_staff`; an anonymous user is never staff. */
  predicate IsStaff(u: RequestUser)
  {
    u.Authenticated? && u.isStaff
  }

  /** `obj.author == request.user` (and `obj.comment_user == request.user`):
      an anonymous user equals no stored user. */
  predicate IsUser(u: RequestUser, owner: UserId)
  {
    u.Authenticated? && u.id == owner
  }

  /** `IsAdminUserOrReadOnly.has_permission`. */
  predicate AdminOrReadOnly(m: Method, u: RequestUser)
  {
    if IsSafe(m) then true else IsStaff(u)
  }

  /** `has_permission` inherited from the framework's `IsAuthenticatedOrReadOnly`
      (by `IsOwnerOrReadOnly` and `CommentUserOrReadOnly`). */
  predicate AuthenticatedOrReadOnly(m: Method, u: RequestUser)
  {
    IsSafe(m) || u.Authenticated?
  }

  /** `IsAuthenticated.has_permission`, used by the like and favourite views. */
  predicate IsAuthenticated(u: RequestUser)
  {
    u.Authenticated?
  }

  /** `IsOwnerOrReadOnly.has_object_permission` for a post written by `author`. */
  predicate OwnerOrReadOnly(m: Method, u: RequestUser, author: UserId)
  {
    if IsSafe(m) then true else IsUser(u, author)
  }

  /** `CommentUserOrReadOnly.has_object_permission`: the method is not consulted. */
  predicate CommentUserOnly(m: Method, u: RequestUser, commentUser: UserId)
  {
    IsUser(u, commentUser)
  }

  /** How a failed check is answered. */
  function Deny(u: RequestUser): Decision
  {
    if u.Anonymous? then NotAuthenticated else Forbidden
  }

  function Check(passed: bool, u: RequestUser): Decision
  {
    if passed then Allowed else Deny(u)
  }

  /** The view-level check of the category endpoints. */
  function CategoryAccess(m: Method, u: RequestUser): Decision
  {
    Check(AdminOrReadOnly(m, u), u)
  }

  /** The view-level check of the post endpoints (both of their classes
      inherit the same `has_permission`). */
  function PostAccess(m: Method, u: RequestUser): Decision
  {
    Check(AuthenticatedOrReadOnly(m, u), u)
  }

  /** The object-level check of the post endpoints, run once the post is found. */
  function PostObjectAccess(m: Method, u: RequestUser, author: UserId): Decision
  {
    Check(OwnerOrReadOnly(m, u, author), u)
  }

  /** The view-level check of the comment endpoints. */
  function CommentAccess(m: Method, u: RequestUser): Decision
  {
    Check(AuthenticatedOrReadOnly(m, u), u)
  }

  /** The object-level check of the comment endpoints (update and destroy). */
  function CommentObjectAccess(m: Method, u: RequestUser, commentUser: UserId): Decision
  {
    Check(CommentUserOnly(m, u, commentUser), u)
  }

  /** The view-level check of the like and favourite endpoints. */
  function ToggleAccess(u: RequestUser): Decision
  {
    Check(IsAuthenticated(u), u)
  }

  // ---------------------------------------------------------------------------
  // Properties

  /** A read-only request always passes `IsAdminUserOrReadOnly`. */
  lemma SafeMethodsPassAdminOrReadOnly(m: Method, u: RequestUser)
    requires IsSafe(m)
    ensures AdminOrReadOnly(m, u)
    ensures CategoryAccess(m, u) == Allowed
  {
  }

  /** A writing request passes `IsAdminUserOrReadOnly` exactly for staff; others
      get 401 when anonymous and 403 when logged in. */
  lemma UnsafeMethodsNeedStaff(m: Method, u: RequestUser)
    requires !IsSafe(m)
    ensures AdminOrReadOnly(m, u) <==> IsStaff(u)
    ensures u.Anonymous? ==> CategoryAccess(m, u) == NotAuthenticated
    ensures u.Authenticated? && !u.isStaff ==> CategoryAccess(m, u) == Forbidden
    ensures u.Authenticated? && u.isStaff ==> CategoryAccess(m, u) == Allowed
  {
  }

  /** On a post, a PATCH, PUT or DELETE by an anonymous user ends at the view-level
      check with 401; by a logged-in user other than the author it ends at the
      object-level check with 403; by the author it is allowed. */
  lemma PostWriteAccess(m: Method, u: RequestUser, author: UserId)
    requires !IsSafe(m)
    ensures u.Anonymous? ==> PostAccess(m, u) == NotAuthenticated
    ensures u.Authenticated? ==> PostAccess(m, u) == Allowed
    ensures u.Authenticated? && u.id != author ==> PostObjectAccess(m, u, author) == Forbidden
    ensures u.Authenticated? && u.id == author ==> PostObjectAccess(m, u, author) == Allowed
  {
  }

  /** Every check of the post endpoints passes a read. */
  lemma PostReadAccess(m: Method, u: RequestUser, author: UserId)
    requires IsSafe(m)
    ensures PostAccess(m, u) == Allowed && PostObjectAccess(m, u, author) == Allowed
  {
  }

  /** `CommentUserOrReadOnly`'s object check depends on the user only: it is the
      same for every method, and true exactly for the comment's author. */
  lemma CommentObjectCheckIgnoresMethod(m1: Method, m2: Method, u: RequestUser, commentUser: UserId)
    ensures CommentUserOnly(m1, u, commentUser) == CommentUserOnly(m2, u, commentUser)
    ensures CommentUserOnly(m1, u, commentUser) <==> u.Authenticated? && u.id == commentUser
  {
  }

  /** Updating or deleting a comment: 401 for an anonymous user (view-level), 403
      for anyone but its author (object-level), allowed for its author. */
  lemma CommentWriteAccess(m: Method, u: RequestUser, commentUser: UserId)
    requires !IsSafe(m)
    ensures u.Anonymous? ==> CommentAccess(m, u) == NotAuthenticated
    ensures u.Authenticated? && u.id != commentUser ==>
      CommentAccess(m, u) == Allowed && CommentObjectAccess(m, u, commentUser) == Forbidden
    ensures u.Authenticated? && u.id == commentUser ==>
      CommentAccess(m, u) == Allowed && CommentObjectAccess(m, u, commentUser) == Allowed
  {
  }

  /** A denial is always 401 or 403, and 401 exactly for anonymous users. */
  lemma DenialCodes(passed: bool, u: RequestUser)
    ensures Check(passed, u) == Allowed <==> passed
    ensures Check(passed, u) == NotAuthenticated <==> !passed && u.Anonymous?
    ensures Check(passed, u) == Forbidden <==> !passed && u.Authenticated?
  {
  }
}
