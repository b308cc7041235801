/** Types shared by every part of the Stillvo model. */
module Common {

  /** A nullable value: JavaScript's `null`/`undefined` versus a present value. */
  datatype Option<+T> = None | Some(value: T) {

    /** The present value, or `default` when there is none (JavaScript's `??`). */
    function GetOr(default: T): T {
      match this
      case Some(v) => v
      case None => default
    }
  }

  /** JavaScript truthiness of a nullable string: present and non-empty. */
  predicate Present(o: Option<string>) {
    o.Some? && o.value != []
  }

  /** Identifiers issued by the hosted auth service and the database. */
  type UserId = string
  type PostId = string

  /** What `supabase.auth.getUser()` hands back to a route handler. */
  datatype Auth<+U> = AuthError(message: string) | SignedOut | SignedIn(user: U)

  /** The result of a database read: the rows, or the error the client reported. */
  datatype Query<+T> = Rows(rows: T) | QueryFailed(message: string)
}
