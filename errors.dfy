/** Errors as the application throws them: a class (its kind) and a message. */
module Errors {

  /**
   * `Plain` is a bare `new Error(code)`; `Invariant`, `NotFound` and
   * `Authorization` are the client error classes; `TypeError` is a JavaScript
   * runtime failure (reading a property of `undefined`); `Database` is an
   * error the database raises for a statement.
   */
  datatype ErrorKind = Plain | Invariant | NotFound | Authorization | TypeError | Database

  datatype Error = Error(kind: ErrorKind, message: string)

  /** `new Error(code)` */
  function Raise(code: string): Error
  {
    Error(Plain, code)
  }

  /** The outcome of a verification call that returns nothing but may throw. */
  datatype Check = Pass | Fail(error: Error)

  /** Reading `row.id` when the query returned no row. */
  const MissingRow := Error(TypeError, "Cannot read properties of undefined (reading 'id')")

  /** PostgreSQL's rejection of an INSERT whose primary key is taken. */
  const DuplicateKey := Error(Database, "duplicate key value violates unique constraint")
}
