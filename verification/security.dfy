/** src/todo_api/core/security.py and src/todo_api/schemas/token.py: lifetimes, token pairs, decoding. */
module Security {
  import opened Base

  /** The numeric settings of src/todo_api/core/config.py that the credential services read. */
  datatype Settings = Settings(
    accessTokenMinutes: int,
    refreshTokenDays: int,
    absoluteTtl: Time,
    reuseGrace: Time,
    codeTtlSeconds: int,
    verificationTtl: Time,
    resendCooldown: Time,
    clientId: string,
    redirectUris: set<string>)
  {
    /** The bounds that the settings class enforces. */
    ghost predicate Valid() {
      && accessTokenMinutes > 0
      && refreshTokenDays > 0
      && absoluteTtl > 0
      && reuseGrace >= 0
      && 30 <= codeTtlSeconds <= 600
      && verificationTtl > 0
      && resendCooldown >= 0
      && 1 <= |clientId| <= 128
      && redirectUris != {}
    }

    function AccessLifetime(): Time { accessTokenMinutes * 60 * SECOND }

    function RefreshLifetime(): Time { refreshTokenDays * 86_400 * SECOND }
  }

  /** The `sub` claim: a text that `int` parses, or one that it rejects. */
  datatype Subject = UserSubject(id: UserId) | OtherSubject

  datatype AccessToken = AccessToken(sub: Subject, exp: Time, iat: Time, jti: Nonce)

  /** The text of a token: its claims and its spelling, since several base64url texts decode to the same claims and
      signature. Tokens are issued in the spelling `CANONICAL`. */
  datatype RefreshToken = RefreshToken(sub: Subject, sid: Nonce, exp: Time, iat: Time, jti: Nonce, spelling: nat)

  const CANONICAL: nat := 0

  datatype TokenPair = TokenPair(access: AccessToken, refresh: RefreshToken, expiresIn: int)

  /** What a client sends: a text that fails signature, audience or claim checks, or one that passes. */
  datatype Presented = Malformed | Signed(token: RefreshToken)

  function Lifetime(custom: Option<Time>, default: Time): (r: Result<Time>) {
    var lifetime := if custom.Some? then custom.value else default;
    if lifetime <= 0 then Err(ServerError) else Ok(lifetime)
  }

  function BoundedLifetime(lifetime: Time, issuedAt: Time, absolute: Option<Time>): (r: Result<Time>)
    ensures r.Ok? && absolute.Some? ==> issuedAt + r.value == Min(issuedAt + lifetime, absolute.value)
    ensures r.Err? <==> absolute.Some? && absolute.value <= issuedAt
  {
    if absolute.None? then Ok(lifetime)
    else
      var remaining := absolute.value - issuedAt;
      if remaining <= 0 then Err(ServerError) else Ok(Min(lifetime, remaining))
  }

  /** The payload checks `exp > iat` before encoding; encoding rounds both down to whole seconds. */
  function CreateAccessToken(subject: Subject, lifetime: Time, issuedAt: Time, jti: Nonce): Result<AccessToken> {
    if issuedAt + lifetime <= issuedAt then Err(ServerError)
    else Ok(AccessToken(subject, FloorSecond(issuedAt + lifetime), FloorSecond(issuedAt), jti))
  }

  function CreateRefreshToken(subject: Subject, sid: Nonce, lifetime: Time, issuedAt: Time, jti: Nonce)
    : Result<RefreshToken>
  {
    if issuedAt + lifetime <= issuedAt then Err(ServerError)
    else Ok(RefreshToken(subject, sid, FloorSecond(issuedAt + lifetime), FloorSecond(issuedAt), jti, CANONICAL))
  }

  /** `expires_in` is the access lifetime cut to whole seconds; the response schema refuses zero. */
  function CreateTokenPair(cfg: Settings, subject: Subject, sid: Nonce, issuedAt: Time, absolute: Option<Time>,
                           jti: Nonce): Result<TokenPair>
  {
    match Lifetime(None, cfg.AccessLifetime())
    case Err(e) => Err(e)
    case Ok(accessLife) =>
      match BoundedLifetime(accessLife, issuedAt, absolute)
      case Err(e) => Err(e)
      case Ok(accessLife) =>
        match Lifetime(None, cfg.RefreshLifetime())
        case Err(e) => Err(e)
        case Ok(refreshLife) =>
          match BoundedLifetime(refreshLife, issuedAt, absolute)
          case Err(e) => Err(e)
          case Ok(refreshLife) =>
            match CreateAccessToken(subject, accessLife, issuedAt, jti)
            case Err(e) => Err(e)
            case Ok(access) =>
              match CreateRefreshToken(subject, sid, refreshLife, issuedAt, jti)
              case Err(e) => Err(e)
              case Ok(refresh) =>
                var expiresIn := accessLife / SECOND;
                if expiresIn <= 0 then Err(ServerError) else Ok(TokenPair(access, refresh, expiresIn))
  }

  /** Decoding at an instant: expired and not-yet-issued tokens are refused, and so are payloads with `exp <= iat`. */
  function DecodeRefreshToken(p: Presented, at: Time): Result<RefreshToken> {
    if p.Signed? && p.token.exp > at && p.token.iat <= at && p.token.exp > p.token.iat
    then Ok(p.token) else Err(InvalidRefreshToken)
  }

  lemma FloorSecondMonotone(a: Time, b: Time)
    requires a <= b
    ensures FloorSecond(a) <= FloorSecond(b)
    ensures a + SECOND <= b ==> FloorSecond(a) + SECOND <= FloorSecond(b)
  {
  }

  /** A pair can be made exactly when a whole second is left before the deadline, and then rounding keeps every
      ordering: tokens outlive their `iat` and the issuing instant, never outlive the deadline, and `expires_in`
      is the true access lifetime to within a second. */
  lemma PairWithinDeadline(cfg: Settings, subject: Subject, sid: Nonce, at: Time, deadline: Time, jti: Nonce)
    requires cfg.Valid()
    ensures var r := CreateTokenPair(cfg, subject, sid, at, Some(deadline), jti);
            && (r.Ok? <==> at + SECOND <= deadline)
            && (r.Ok? ==> PairShape(cfg, r.value, subject, sid, at, Min(at + cfg.AccessLifetime(), deadline),
                                    Min(at + cfg.RefreshLifetime(), deadline), jti)
                          && r.value.access.exp <= deadline && r.value.refresh.exp <= deadline)
  {
    if at + SECOND <= deadline {
      FloorSecondMonotone(at, Min(at + cfg.AccessLifetime(), deadline));
      FloorSecondMonotone(at, Min(at + cfg.RefreshLifetime(), deadline));
    }
  }

  /** Without a deadline a pair is always made; it ends after the minutes and days that are set. */
  lemma PairWithoutDeadline(cfg: Settings, subject: Subject, sid: Nonce, at: Time, jti: Nonce)
    requires cfg.Valid()
    ensures var r := CreateTokenPair(cfg, subject, sid, at, None, jti);
            && r.Ok?
            && PairShape(cfg, r.value, subject, sid, at, at + cfg.accessTokenMinutes * 60 * 1_000_000,
                         at + cfg.refreshTokenDays * 24 * 60 * 60 * 1_000_000, jti)
  {
    FloorSecondMonotone(at, at + cfg.AccessLifetime());
    FloorSecondMonotone(at, at + cfg.RefreshLifetime());
  }

  /** A pair made at `at` whose access and refresh tokens truly end at `accessEnd` and `refreshEnd`. */
  ghost predicate PairShape(cfg: Settings, pair: TokenPair, subject: Subject, sid: Nonce, at: Time,
                            accessEnd: Time, refreshEnd: Time, jti: Nonce)
  {
    && pair.access == AccessToken(subject, FloorSecond(accessEnd), FloorSecond(at), jti)
    && pair.refresh == RefreshToken(subject, sid, FloorSecond(refreshEnd), FloorSecond(at), jti, CANONICAL)
    && at < pair.access.exp && pair.access.iat < pair.access.exp
    && at < pair.refresh.exp && pair.refresh.iat < pair.refresh.exp
    && 1 <= pair.expiresIn
    && pair.expiresIn * SECOND <= accessEnd - at < (pair.expiresIn + 1) * SECOND
  }

  /** A fresh refresh token decodes again at `recheck` exactly when that reading falls before its rounded expiry. */
  lemma FreshTokenDecodes(cfg: Settings, subject: Subject, sid: Nonce, at: Time, deadline: Time, jti: Nonce,
                          recheck: Time)
    requires cfg.Valid() && at + SECOND <= deadline && at <= recheck
    ensures var pair := CreateTokenPair(cfg, subject, sid, at, Some(deadline), jti).value;
            DecodeRefreshToken(Signed(pair.refresh), recheck).Ok?
            <==> recheck < FloorSecond(Min(at + cfg.RefreshLifetime(), deadline))
  {
    PairWithinDeadline(cfg, subject, sid, at, deadline, jti);
  }
}
