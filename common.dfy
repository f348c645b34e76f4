/**
 * Shared shapes: optional values, the two kinds of error the services pass
 * around, and the (status, message) pair an HTTP handler answers with.
 */
module Common {

  datatype Option<T> = None | Some(value: T)

  /**
   * An error as the Go code sees it: the sentinel `sql.ErrNoRows`, or an
   * `errors.New` / `fmt.Errorf` value carrying a message.
   */
  datatype Error = NoRows | Message(text: string)

  /** `err.Error()`: the text a handler compares against. */
  function ErrorText(e: Error): string
  {
    match e
    case NoRows => "sql: no rows in result set"
    case Message(t) => t
  }

  datatype Result<T> = Ok(value: T) | Err(error: Error)

  /** The status code and message of a JSON error or success envelope. */
  datatype Response = Response(status: int, message: string)

  /** Some element of a non-empty set: the next key a scan over a table visits. */
  method Pick<T>(s: set<T>) returns (x: T)
    requires s != {}
    ensures x in s
  {
    x :| x in s;
  }

  /** The one role name every access check compares with. */
  const AdminRole: string := "admin"
}
