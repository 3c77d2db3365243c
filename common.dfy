// Identifiers, optional values, callers and the error envelope shared by every
// controller of the document-management backend.
module Common {

  /** A Mongo ObjectId. Ids are compared by value; malformed ids are not modelled. */
  type Id = nat

  datatype Option<T> = None | Some(value: T) {
    function GetOr(default: T): T {
      match this
      case Some(v) => v
      case None => default
    }
  }

  datatype Role = Admin | Member

  /** The authenticated caller as the identity middleware presents it (`req.user`). */
  datatype Caller = Caller(userId: Id, role: Role)

  /** The HTTP status a handler answers with when it rejects a request. */
  datatype Status = BadRequest | Forbidden | NotFound | ServerError {
    function Code(): nat {
      match this
      case BadRequest => 400
      case Forbidden => 403
      case NotFound => 404
      case ServerError => 500
    }
  }

  /** `{success: true, data}` or `{success: false, message}` with its status. */
  datatype Result<T> = Ok(value: T) | Err(status: Status, message: string)

  /** JavaScript truthiness of an optional string: present and not empty. */
  predicate Truthy(s: Option<string>) {
    s.Some? && s.value != ""
  }
}
