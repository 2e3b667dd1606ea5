/** Identifiers, the user a request carries, and the HTTP vocabulary shared by
    every part of the model. */
module Common {

  /** Primary keys of the tables: auto-incremented integers. */
  type UserId = nat
  type RecipeId = nat
  type IngredientId = nat
  type TagId = nat

  /** `request.user`: the anonymous user, or a signed-in account with its
      superuser flag. */
  datatype Viewer = Anonymous | Authenticated(id: UserId, isSuperuser: bool)

  datatype HttpMethod = Get | Head | Options | Post | Put | Patch | Delete

  /** rest_framework's SAFE_METHODS: GET, HEAD and OPTIONS. */
  predicate IsSafe(m: HttpMethod)
  {
    m == Get || m == Head || m == Options
  }

  /** The outcomes of the modelled handlers. `IntegrityError` is a write the
      database refuses because it breaks a unique or foreign-key constraint,
      and `AttributeError` a lookup of a missing Python attribute; the
      handlers catch neither, so both end as a server error. */
  datatype Status =
    | Ok200
    | Created201
    | NoContent204
    | BadRequest400
    | NotAuthenticated401
    | NotFound404
    | IntegrityError
    | AttributeError

  datatype Option<+T> = None | Some(value: T)

  datatype Result<+T, +E> = Ok(value: T) | Err(error: E)
}
