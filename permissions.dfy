/** The two permission classes of the api package. */
module Permissions {
  import opened Common

  /** `IsAdminOrReadOnly.has_permission`: reading is open to everyone,
      writing only to a superuser. The anonymous user is truthy and not a
      superuser. */
  function IsAdminOrReadOnly(verb: HttpMethod, viewer: Viewer): (b: bool)
    ensures IsSafe(verb) ==> b
    ensures viewer.Anonymous? ==> (b <==> IsSafe(verb))
    ensures !IsSafe(verb) ==> (b <==> viewer.Authenticated? && viewer.isSuperuser)
  {
    IsSafe(verb) || (viewer.Authenticated? && viewer.isSuperuser)
  }

  /** The exception a Python expression can raise here. */
  datatype PythonError = NameError

  /** `IsAdminOrAuthor.has_permission` as written: past the safe-method
      test it reads `obj`, a name not bound in `has_permission`, so every
      unsafe request raises. */
  function IsAdminOrAuthorAsWritten(verb: HttpMethod, viewer: Viewer): (r: Result<bool, PythonError>)
    ensures IsSafe(verb) <==> r == Ok(true)
    ensures !IsSafe(verb) ==> r == Err(NameError)
  {
    if IsSafe(verb) then Ok(true) else Err(NameError)
  }

  /** The object-level check the class describes: reading is open, writing
      is for the object's author or a superuser. */
  function IsAdminOrAuthor(verb: HttpMethod, viewer: Viewer, author: UserId): (b: bool)
    ensures IsSafe(verb) ==> b
    ensures !IsSafe(verb) ==> (b <==> viewer.Authenticated? && (viewer.id == author || viewer.isSuperuser))
  {
    IsSafe(verb) || (viewer.Authenticated? && viewer.id == author) || (viewer.Authenticated? && viewer.isSuperuser)
  }

  /** Where the class as written answers at all, it agrees with the intended
      check; on an unsafe request from the author it raises instead of
      allowing. */
  lemma IsAdminOrAuthorDiffers(verb: HttpMethod, viewer: Viewer, author: UserId)
    ensures IsAdminOrAuthorAsWritten(verb, viewer).Ok? ==> IsAdminOrAuthorAsWritten(verb, viewer).value == IsAdminOrAuthor(verb, viewer, author)
    ensures !IsSafe(verb) && viewer.Authenticated? && viewer.id == author ==>
      IsAdminOrAuthorAsWritten(verb, viewer) == Err(NameError) && IsAdminOrAuthor(verb, viewer, author)
  {
  }

  /** A superuser may write wherever the author may, and the anonymous user
      nowhere. */
  lemma PermissionOrder(verb: HttpMethod, viewer: Viewer, author: UserId)
    ensures viewer.Anonymous? ==> IsAdminOrReadOnly(verb, viewer) == IsAdminOrAuthor(verb, viewer, author) == IsSafe(verb)
    ensures IsAdminOrReadOnly(verb, viewer) ==> IsAdminOrAuthor(verb, viewer, author)
  {
  }
}
