/** What the server's handlers read from a JSON request body (`req.body || {}`). */
module Requests {
  /** A body field: absent (undefined or null) or a string. */
  datatype Field = Missing | Given(s: string)

  /** JavaScript truthiness of a field: a non-empty string. */
  predicate Truthy(f: Field) { f.Given? && f.s != "" }
}
