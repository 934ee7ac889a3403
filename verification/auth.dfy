/** The session token service: issuing a token for a user, and reading the
    `Authorization: Bearer <token>` header back into the token's claims. */
module Auth {
  import opened Wrappers
  import opened Models
  import opened Foreign
  import opened Errors

  /** A token's lifetime: 24 hours, in seconds. */
  const DaySeconds: int := 24 * 60 * 60

  /** The default validation of `jsonwebtoken` accepts a token until this many
      seconds after its expiry. */
  const Leeway: int := 60

  /** `usize` values are taken modulo this number. */
  const UsizeModulus: int := 0x1_0000_0000_0000_0000

  const BearerPrefix: string := "Bearer "

  /** `now + 24h` as chrono computes it, cast `as usize`: nothing when the sum is
      past chrono's range, otherwise the sum wrapped into `usize`. */
  function Expiration(now: int, crates: Crates): (r: Option<nat>)
    ensures r.Some? <==> now + DaySeconds <= crates.latestInstant
    ensures r.Some? ==> r.value < UsizeModulus
    ensures r.Some? && 0 <= now + DaySeconds < UsizeModulus ==> r.value == now + DaySeconds
  {
    if now + DaySeconds <= crates.latestInstant then Some((now + DaySeconds) % UsizeModulus) else None
  }

  /** `create_token`: signs claims naming the user (its id as text and its
      email) and expiring a day after `now`. It can fail only internally: when
      the expiry is out of range or signing fails. */
  function CreateToken(userId: Uuid, email: string, secret: string, now: int, crates: Crates): (r: Result<string, ApiError>)
    ensures r.Err? ==> r.error.InternalError?
    ensures Expiration(now, crates).None? ==> r == Err(InternalError("Failed to calculate expiration"))
    ensures r.Ok? <==>
      Expiration(now, crates).Some? &&
      crates.encode(Claims(crates.uuidText(userId), email, Expiration(now, crates).value), secret).Ok?
    ensures r.Ok? ==>
      crates.encode(Claims(crates.uuidText(userId), email, Expiration(now, crates).value), secret) == Ok(r.value)
  {
    match Expiration(now, crates)
    case None => Err(InternalError("Failed to calculate expiration"))
    case Some(exp) =>
      match crates.encode(Claims(crates.uuidText(userId), email, exp), secret)
      case Ok(token) => Ok(token)
      case Err(e) => Err(InternalError("Token Creation failed: " + e))
  }

  /** The bytes the `http` crate lets through `HeaderValue::to_str`: visible
      ASCII and the horizontal tab. */
  predicate IsVisible(b: int)
  {
    32 <= b < 127 || b == 9
  }

  predicate VisibleAscii(s: string)
  {
    forall i :: 0 <= i < |s| ==> IsVisible(s[i] as int)
  }

  /** `HeaderValue::to_str`: the header as text when every byte is visible. */
  function HeaderText(raw: seq<byte>): (r: Option<string>)
    ensures r.Some? <==> forall i :: 0 <= i < |raw| ==> IsVisible(raw[i] as int)
    ensures r.Some? ==> |r.value| == |raw| && forall i :: 0 <= i < |raw| ==> r.value[i] as int == raw[i] as int
    ensures r.Some? ==> VisibleAscii(r.value)
  {
    if forall i :: 0 <= i < |raw| ==> IsVisible(raw[i] as int)
    then Some(seq(|raw|, i requires 0 <= i < |raw| => (raw[i] as int) as char))
    else None
  }

  /** The bytes of an ASCII string, as a client would send it. */
  function AsciiBytes(s: string): (r: seq<byte>)
    requires forall i :: 0 <= i < |s| ==> s[i] as int < 256
    ensures |r| == |s| && forall i :: 0 <= i < |s| ==> r[i] as int == s[i] as int
  {
    seq(|s|, i requires 0 <= i < |s| => s[i] as int as byte)
  }

  /** Visible text survives the trip to header bytes and back. */
  lemma HeaderTextRoundTrip(s: string)
    requires VisibleAscii(s)
    ensures HeaderText(AsciiBytes(s)) == Some(s)
  {
    var raw := AsciiBytes(s);
    assert forall i :: 0 <= i < |raw| ==> IsVisible(raw[i] as int);
    assert HeaderText(raw).value == s;
  }

  /** The token part of the Authorization header: present only when the header
      exists, is visible text and starts with exactly "Bearer "; it is then
      everything after those 7 characters, untrimmed. */
  function BearerToken(authorization: Option<seq<byte>>): (r: Option<string>)
    ensures r.Some? <==>
      authorization.Some? && HeaderText(authorization.value).Some? &&
      BearerPrefix <= HeaderText(authorization.value).value
    ensures r.Some? ==> HeaderText(authorization.value).value == BearerPrefix + r.value
  {
    match authorization
    case None => None
    case Some(raw) =>
      match HeaderText(raw)
      case None => None
      case Some(text) =>
        if BearerPrefix <= text then
          assert text == text[..7] + text[7..];
          Some(text[7..])
        else None
  }

  /** `validate_token`: decodes exactly the bearer token; a missing or
      malformed header is refused without decoding, and every failure is the
      same `Unauthorized`. */
  function ValidateToken(authorization: Option<seq<byte>>, secret: string, now: int, crates: Crates): (r: Result<Claims, ApiError>)
    ensures r.Err? ==> r.error == Unauthorized
    ensures BearerToken(authorization).None? ==> r == Err(Unauthorized)
    ensures r.Ok? <==> BearerToken(authorization).Some? && crates.decode(BearerToken(authorization).value, secret, now).Some?
    ensures r.Ok? ==> crates.decode(BearerToken(authorization).value, secret, now) == Some(r.value)
  {
    match BearerToken(authorization)
    case None => Err(Unauthorized)
    case Some(token) =>
      match crates.decode(token, secret, now)
      case Some(claims) => Ok(claims)
      case None => Err(Unauthorized)
  }

  /** The identity of the caller, as every authenticated handler derives it:
      validate the token, then parse its subject as a user id. */
  function Authenticate(authorization: Option<seq<byte>>, secret: string, now: int, crates: Crates): (r: Result<Uuid, ApiError>)
    ensures r.Err? ==> r.error == Unauthorized
    ensures r.Ok? <==>
      ValidateToken(authorization, secret, now, crates).Ok? &&
      crates.parseUuid(ValidateToken(authorization, secret, now, crates).value.sub).Some?
    ensures r.Ok? ==> crates.parseUuid(ValidateToken(authorization, secret, now, crates).value.sub) == Some(r.value)
  {
    match ValidateToken(authorization, secret, now, crates)
    case Err(e) => Err(e)
    case Ok(claims) =>
      match crates.parseUuid(claims.sub)
      case Some(id) => Ok(id)
      case None => Err(Unauthorized)
  }

  /** Hypothesis on `jsonwebtoken`: a token decodes, with the same secret and
      before its expiry, to the claims it was made from. */
  ghost predicate JwtRoundTrips(c: Crates)
  {
    forall claims, secret, now ::
      c.encode(claims, secret).Ok? && now <= claims.exp ==>
        c.decode(c.encode(claims, secret).value, secret, now) == Some(claims)
  }

  /** Hypothesis on `jsonwebtoken`: tokens are visible ASCII (base64url and dots). */
  ghost predicate JwtTokensVisible(c: Crates)
  {
    forall claims, secret :: c.encode(claims, secret).Ok? ==> VisibleAscii(c.encode(claims, secret).value)
  }

  /** Hypothesis on `jsonwebtoken`: the default validation refuses claims more
      than the leeway past their expiry. */
  ghost predicate JwtRejectsExpired(c: Crates)
  {
    forall token, secret, now ::
      c.decode(token, secret, now).Some? ==> now <= c.decode(token, secret, now).value.exp + Leeway
  }

  /** Under the round-trip hypothesis, a header carrying "Bearer " and a freshly
      issued token validates, until the expiry, to exactly the issued claims. */
  lemma TokenRoundTrip(userId: Uuid, email: string, secret: string, issuedAt: int, now: int,
                       token: string, header: seq<byte>, crates: Crates)
    requires JwtRoundTrips(crates)
    requires CreateToken(userId, email, secret, issuedAt, crates) == Ok(token)
    requires 0 <= issuedAt + DaySeconds < UsizeModulus && now <= issuedAt + DaySeconds
    requires HeaderText(header) == Some(BearerPrefix + token)
    ensures ValidateToken(Some(header), secret, now, crates) == Ok(Claims(crates.uuidText(userId), email, issuedAt + DaySeconds))
  {
    var text := BearerPrefix + token;
    assert BearerPrefix <= text;
    assert BearerToken(Some(header)) == Some(token);
  }

  /** Such a header exists whenever tokens are visible text. */
  lemma BearerHeaderFor(token: string, crates: Crates)
    requires VisibleAscii(token)
    ensures VisibleAscii(BearerPrefix + token)
    ensures HeaderText(AsciiBytes(BearerPrefix + token)) == Some(BearerPrefix + token)
  {
    var text := BearerPrefix + token;
    assert forall i :: 0 <= i < |text| ==> IsVisible(text[i] as int) by {
      forall i | 0 <= i < |text| ensures IsVisible(text[i] as int) {
        if i >= 7 { assert text[i] == token[i - 7]; }
      }
    }
    HeaderTextRoundTrip(text);
  }

  /** Under the round-trip and text hypotheses, the issued token identifies the
      user it was issued for. */
  lemma AuthenticateIssued(userId: Uuid, email: string, secret: string, issuedAt: int, now: int,
                           token: string, crates: Crates)
    requires JwtRoundTrips(crates) && JwtTokensVisible(crates) && UuidTextRoundTrips(crates)
    requires CreateToken(userId, email, secret, issuedAt, crates) == Ok(token)
    requires 0 <= issuedAt + DaySeconds < UsizeModulus && now <= issuedAt + DaySeconds
    ensures VisibleAscii(BearerPrefix + token)
    ensures Authenticate(Some(AsciiBytes(BearerPrefix + token)), secret, now, crates) == Ok(userId)
  {
    BearerHeaderFor(token, crates);
    TokenRoundTrip(userId, email, secret, issuedAt, now, token, AsciiBytes(BearerPrefix + token), crates);
  }

  /** Under the expiry hypothesis, no token is accepted more than the leeway
      after the expiry it carries. */
  lemma ExpiredTokenRejected(authorization: Option<seq<byte>>, secret: string, now: int, crates: Crates)
    requires JwtRejectsExpired(crates)
    ensures ValidateToken(authorization, secret, now, crates).Ok? ==>
      now <= ValidateToken(authorization, secret, now, crates).value.exp + Leeway
  {
  }
}
