/** The library code the handlers call but this model does not look inside.
    Each collaborator is a function value, so every handler is stated for all
    possible behaviours of the libraries; where a property needs a library to
    behave, a lemma takes that behaviour as an explicit hypothesis. */
module Foreign {
  import opened Wrappers
  import opened Models

  datatype Crates = Crates(
    /** The `validator` crate's email-format check. */
    isEmail: string -> bool,
    /** Display text of the `validator` crate's errors, given each failing
        field with the value it rejected. */
    describe: map<string, string> -> string,
    /** `bcrypt::verify(password, digest)`: the verdict, or the library's error text. */
    verify: (string, string) -> Result<bool, string>,
    /** `jsonwebtoken::encode` with the default header, signed with the secret. */
    encode: (Claims, string) -> Result<string, string>,
    /** `jsonwebtoken::decode` with the default validation, at the given instant. */
    decode: (string, string, int) -> Option<Claims>,
    /** `Uuid::to_string`. */
    uuidText: Uuid -> string,
    /** `Uuid::parse_str`. */
    parseUuid: string -> Option<Uuid>,
    /** The last second `chrono` can represent; adding a duration past it fails. */
    latestInstant: int
  )

  /** `Uuid::parse_str` reads back what `Uuid::to_string` writes. */
  ghost predicate UuidTextRoundTrips(c: Crates)
  {
    forall u :: c.parseUuid(c.uuidText(u)) == Some(u)
  }
}
