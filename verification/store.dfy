/** The rows of src/todo_api/models and their check constraints, and the tables that a transaction works on. */
module Store {
  import opened Base
  import opened Security

  datatype UserRow = UserRow(
    verifiedAt: Option<Time>,
    tokenHash: Option<Digest<Nonce>>,
    expiresAt: Option<Time>,
    requestedAt: Option<Time>,
    isActive: bool)
  {
    predicate IsEmailVerified() { verifiedAt.Some? }
  }

  datatype SessionRow = SessionRow(
    userId: UserId,
    tokenHash: Digest<RefreshToken>,
    previousTokenHash: Option<Digest<RefreshToken>>,
    createdAt: Time,
    expiresAt: Time,
    absoluteExpiresAt: Time,
    revokedAt: Option<Time>,
    lastUsedAt: Option<Time>,
    rotatedAt: Option<Time>)
  {
    predicate IsActive(at: Time) { revokedAt.None? && expiresAt > at && absoluteExpiresAt > at }

    function Revoked(at: Time): SessionRow {
      this.(revokedAt := if revokedAt.Some? then revokedAt else Some(at))
    }

    function Rotated(hash: Digest<RefreshToken>, expiry: Time, at: Time): SessionRow {
      this.(previousTokenHash := Some(tokenHash), tokenHash := hash, expiresAt := Min(expiry, absoluteExpiresAt),
            lastUsedAt := Some(at), rotatedAt := Some(at))
    }

    /** `expiration`, `absolute_expiration` and `idle_before_absolute`. */
    predicate Constraints() {
      expiresAt > createdAt && absoluteExpiresAt > createdAt && expiresAt <= absoluteExpiresAt
    }
  }

  datatype CodeRow = CodeRow(
    userId: UserId,
    clientId: string,
    redirectUri: string,
    challenge: string,
    createdAt: Time,
    expiresAt: Time,
    consumedAt: Option<Time>)
  {
    /** The check constraints of the table; every digest has the demanded length. */
    predicate Constraints() {
      && |challenge| == 43 && clientId != "" && redirectUri != ""
      && expiresAt > createdAt
      && (consumedAt.None? || createdAt <= consumedAt.value <= expiresAt)
    }
  }

  datatype Tables = Tables(
    users: map<UserId, UserRow>,
    sessions: map<Nonce, SessionRow>,
    codes: map<Digest<Nonce>, CodeRow>)

  const EMPTY := Tables(map[], map[], map[])

  /** The statements at which the database may raise. A failed statement or commit has no effect. */
  datatype Statement = ReadRow | LoadUser | WriteRow | CommitWork

  /** The clock readings of one request: decoding what was presented, the service's `now`, decoding what was just
      made, and the database's own start of the transaction (the default of `created_at`). */
  datatype Clock = Clock(arrive: Time, now: Time, recheck: Time, began: Time)
}
