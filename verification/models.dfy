/** The records the service stores and exchanges: users, posts and the claims
    carried inside a session token. */
module Models {

  /** A 128-bit identifier (the `uuid` crate's `Uuid`). Only equality matters here. */
  newtype Uuid = x: int | 0 <= x < 0x1_0000_0000_0000_0000_0000_0000_0000_0000

  /** A byte of an HTTP header value. */
  newtype byte = x: int | 0 <= x < 256

  /** An account. `createdAt` is a Unix timestamp in seconds (an `i64`). */
  datatype User = User(id: Uuid, email: string, username: string, hashedPassword: string, createdAt: int)

  /** A piece of content, owned by the user whose id is `userId`. */
  datatype Post = Post(id: Uuid, userId: Uuid, title: string, content: string, createdAt: int)

  /** What a session token says: the subject (a user id as text), the email and
      the expiry instant in seconds (a `usize`). */
  datatype Claims = Claims(sub: string, email: string, exp: nat)
}
