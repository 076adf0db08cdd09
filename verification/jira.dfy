/**
 * The host platform as the core sees it. The logged-in user, the outcome of
 * every host call that may throw, and the exceptions themselves are values
 * handed to the model rather than services it calls.
 */
module Jira {
  import opened JavaStrings

  /** An `ApplicationUser`; only its login name is ever read. */
  datatype User = User(name: string)

  /** A thrown exception: `getClass().getSimpleName()` and `getMessage()`. */
  datatype Exception = Exception(typeName: string, message: JString)

  /** The outcome of one call into the host: a value, or an exception. */
  datatype Call<T> = Returns(value: T) | Throws(error: Exception)
}
