/** Shared vocabulary: options, results, ideal hashes and instants. */
module Base {

  datatype Option<+T> = None | Some(value: T)

  datatype Result<+T> = Ok(value: T) | Err(error: Error)

  /** The exceptions of the services. Every "...Unavailable" error is `Unavailable`; an exception that is
      no domain error (a `ValueError` or a schema `ValidationError`) is `ServerError`. */
  datatype Error =
    | InvalidRefreshToken
    | RefreshTokenReuseDetected
    | InvalidCredentials
    | InactiveUser
    | EmailNotVerified
    | EmailAlreadyRegistered
    | InvalidVerificationToken
    | InvalidGrant
    | InvalidClient
    | InvalidRedirectUri
    | InvalidScope
    | Unavailable
    | ServerError

  /** `hash_secret` taken as an ideal hash: equal digests have equal preimages. */
  datatype Digest<+T> = Digest(preimage: T)

  /** The value of a random generator (session id, token id, opaque token). */
  type Nonce = nat

  type UserId = int

  /** An instant, or a length of time, in microseconds. */
  type Time = int

  const SECOND: int := 1_000_000

  /** What a NumericDate keeps of an instant (section 2 of RFC 7519): whole seconds, rounded down. */
  function FloorSecond(t: Time): (s: Time)
    ensures s <= t < s + SECOND
    ensures s % SECOND == 0
  {
    t / SECOND * SECOND
  }

  function Min(a: int, b: int): int {
    if a <= b then a else b
  }
}
