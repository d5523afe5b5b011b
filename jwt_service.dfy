/**
 * The token rules of the JWT service: signing-key selection, the claim
 * layout of the issued tokens, and the checks and extractors that parse a
 * token (RFC 7519 JSON Web Tokens, HS256 as in section 3.2 of RFC 7518).
 *
 * Signing and signature verification are a pair of functions (a Codec) that
 * the service uses as given; every check takes the current time `now` in
 * milliseconds.
 */
module JwtService {
  import opened Wrappers
  import opened Text
  import opened Time
  import opened Entities

  /** A claim value as the JSON parser returns it: a string, a number, or a list of strings. */
  datatype ClaimValue = Text(s: string) | Number(n: int) | TextList(items: seq<string>)

  /** The registered claims the service reads and the custom claims by name. */
  datatype Claims = Claims(subject: Option<string>, issuedAt: Option<Instant>, expiration: Option<Instant>, custom: map<string, ClaimValue>)

  /**
   * Compact serialisation signed with the service's key, and the inverse
   * that checks the signature and decodes the claims (None when the token is
   * malformed or its signature does not verify), regardless of time.
   */
  datatype Codec = Codec(sign: Claims -> string, verify: string -> Option<Claims>)

  /**
   * A token the service signed verifies to the claims it was signed with,
   * and is never blank (a compact JWS holds at least its two dots).
   */
  ghost predicate Sound(codec: Codec)
  {
    (forall c :: codec.verify(codec.sign(c)) == Some(c))
    && (forall c :: HasText(codec.sign(c)))
  }

  /**
   * The parser's first check (Strings.hasText): a token made only of
   * whitespace makes parseClaimsJws throw IllegalArgumentException, which
   * is no JwtException, before any signature is looked at.
   */
  predicate HasText(token: string)
  {
    exists i :: 0 <= i < |token| && !IsWhitespace(token[i])
  }

  /** The message of that IllegalArgumentException. */
  const BLANK_TOKEN_MESSAGE: string := "JWT String argument cannot be null or empty."

  /** The configuration values of the service. */
  datatype Settings = Settings(codec: Codec, clockSkewSeconds: int, accessTokenExpirationMs: int, activationTokenExpirationMs: int)

  const DEFAULT_SECRET: string := "defaultsecretchangeme"
  const DEFAULT_CLOCK_SKEW_SECONDS: int := 60
  const DEFAULT_ACCESS_TOKEN_EXPIRATION_MS: int := 3_600_000
  const DEFAULT_ACTIVATION_TOKEN_EXPIRATION_MS: int := 604_800_000
  const MIN_KEY_BITS: int := 256

  function DefaultSettings(codec: Codec): (s: Settings)
    ensures s.accessTokenExpirationMs == 60 * 60 * MILLIS_PER_SECOND
    ensures s.activationTokenExpirationMs == 7 * MILLIS_PER_DAY
  {
    Settings(codec, DEFAULT_CLOCK_SKEW_SECONDS, DEFAULT_ACCESS_TOKEN_EXPIRATION_MS, DEFAULT_ACTIVATION_TOKEN_EXPIRATION_MS)
  }

  // ---------------------------------------------------------------------
  // Signing key (init)
  // ---------------------------------------------------------------------

  /** The HMAC key init settles on: a fresh random one, or the configured secret's bytes. */
  datatype SigningKey = RandomKey | SecretKey(bytes: seq<bv8>)

  /**
   * init: a missing or blank secret gives a random key; otherwise the
   * secret is Base64-decoded and used only when that yields at least 256
   * bits. `base64` is the decoder, None where it rejects its input. The
   * decoder rejects with a DecodingException, which is a JwtException and
   * not the IllegalArgumentException the inner catch names, so the UTF-8
   * fallback of that catch is never reached: the outer catch of Exception
   * installs a random key instead.
   */
  function SelectSigningKey(secret: Option<string>, base64: string -> Option<seq<bv8>>): (k: SigningKey)
    ensures k.SecretKey? <==>
      secret.Some? && !IsBlank(secret.value) && base64(secret.value).Some? && |base64(secret.value).value| * 8 >= MIN_KEY_BITS
    ensures k.SecretKey? ==> k.bytes == base64(secret.value).value
  {
    if secret.None? || IsBlank(secret.value) then RandomKey
    else
      match base64(secret.value)
      case None => RandomKey
      case Some(keyBytes) => if |keyBytes| * 8 < MIN_KEY_BITS then RandomKey else SecretKey(keyBytes)
  }

  /**
   * A secret that is not Base64, however long, gives a random key: its
   * UTF-8 bytes are never used.
   */
  lemma NonBase64SecretGivesRandomKey(secret: string, base64: string -> Option<seq<bv8>>)
    requires base64(secret) == None
    ensures SelectSigningKey(Some(secret), base64) == RandomKey
  {
  }

  /**
   * A secret of fewer than 43 characters never becomes the key: Base64
   * yields at most three bytes per four characters, so fewer than 32 bytes.
   */
  lemma ShortSecretGivesRandomKey(secret: string, base64: string -> Option<seq<bv8>>)
    requires |secret| < 43
    requires base64(secret).Some? ==> |base64(secret).value| * 4 <= |secret| * 3
    ensures SelectSigningKey(Some(secret), base64) == RandomKey
  {
  }

  /** The default secret, 21 ASCII characters, always gives a random key. */
  lemma DefaultSecretGivesRandomKey(base64: string -> Option<seq<bv8>>)
    requires base64(DEFAULT_SECRET).Some? ==> |base64(DEFAULT_SECRET).value| * 4 <= |DEFAULT_SECRET| * 3
    ensures SelectSigningKey(Some(DEFAULT_SECRET), base64) == RandomKey
  {
    ShortSecretGivesRandomKey(DEFAULT_SECRET, base64);
  }

  // ---------------------------------------------------------------------
  // Parsing and validity
  // ---------------------------------------------------------------------

  /** exp lies before now minus the allowed clock skew. */
  predicate ExpiredAt(c: Claims, now: Instant, skewSeconds: int)
  {
    c.expiration.Some? && c.expiration.value < now - skewSeconds * MILLIS_PER_SECOND
  }

  /**
   * How a method that calls parseClaims and catches only JwtException ends
   * on a blank token: the parser's IllegalArgumentException escapes it, and
   * a token with text never throws.
   */
  predicate ThrowsOnBlank<T>(token: string, r: Result<T>)
  {
    (r.Err? <==> !HasText(token)) && (r.Err? ==> r.failure == IllegalArgument(BLANK_TOKEN_MESSAGE))
  }

  /** The parser accepts the token: it has text, its signature verifies, and it is not expired beyond the skew. */
  predicate Accepted(cfg: Settings, token: string, now: Instant)
  {
    HasText(token) && cfg.codec.verify(token).Some? && !ExpiredAt(cfg.codec.verify(token).value, now, cfg.clockSkewSeconds)
  }

  /**
   * parseClaims: a blank token throws IllegalArgumentException; otherwise
   * the claims, or None where the parser raises a JwtException: a bad
   * signature or, the parser being built with the allowed clock skew, an
   * exp before now minus the skew (ExpiredJwtException).
   */
  function ParseClaims(cfg: Settings, token: string, now: Instant): (r: Result<Option<Claims>>)
    ensures ThrowsOnBlank(token, r)
    ensures r.Ok? ==> (r.value.Some? <==> Accepted(cfg, token, now))
    ensures r.Ok? && r.value.Some? ==> r.value == cfg.codec.verify(token)
  {
    if !HasText(token) then Err(IllegalArgument(BLANK_TOKEN_MESSAGE))
    else
      match cfg.codec.verify(token)
      case None => Ok(None)
      case Some(c) => if ExpiredAt(c, now, cfg.clockSkewSeconds) then Ok(None) else Ok(Some(c))
  }

  /** isTokenValid(token): parse, then the same expiry comparison once more. */
  function IsTokenValid(cfg: Settings, token: string, now: Instant): (r: Result<bool>)
    ensures ThrowsOnBlank(token, r)
  {
    match ParseClaims(cfg, token, now)
    case Err(f) => Err(f)
    case Ok(None) => Ok(false)
    case Ok(Some(c)) => Ok(!ExpiredAt(c, now, cfg.clockSkewSeconds))
  }

  /**
   * A token is valid exactly when it has text, its signature verifies and
   * it has no exp or an exp no earlier than now minus the skew; the explicit
   * expiry test after parsing never decides anything.
   */
  lemma IsTokenValidMeaning(cfg: Settings, token: string, now: Instant)
    ensures IsTokenValid(cfg, token, now) == Ok(true) <==> Accepted(cfg, token, now)
    ensures IsTokenValid(cfg, token, now) == Ok(true) <==>
      HasText(token) && cfg.codec.verify(token).Some?
      && (cfg.codec.verify(token).value.expiration.None?
          || cfg.codec.verify(token).value.expiration.value >= now - cfg.clockSkewSeconds * MILLIS_PER_SECOND)
    ensures HasText(token) ==> IsTokenValid(cfg, token, now) == Ok(Accepted(cfg, token, now))
  {
  }

  /** Expiry exactly at now minus the skew is still accepted; one millisecond earlier is not. */
  lemma ExpiryBoundary(cfg: Settings, token: string, now: Instant)
    requires HasText(token) && cfg.codec.verify(token).Some?
    ensures cfg.codec.verify(token).value.expiration == Some(now - cfg.clockSkewSeconds * MILLIS_PER_SECOND)
            ==> IsTokenValid(cfg, token, now) == Ok(true)
    ensures cfg.codec.verify(token).value.expiration == Some(now - cfg.clockSkewSeconds * MILLIS_PER_SECOND - 1)
            ==> IsTokenValid(cfg, token, now) == Ok(false)
  {
  }

  // ---------------------------------------------------------------------
  // Claim access
  // ---------------------------------------------------------------------

  function Join(items: seq<string>, separator: string): string
  {
    if |items| == 0 then ""
    else if |items| == 1 then items[0]
    else items[0] + separator + Join(items[1..], separator)
  }

  /** Object.toString of a claim value (a list prints as "[a, b]"). */
  function ClaimText(v: ClaimValue): (r: string)
    ensures v.Text? ==> r == v.s
    ensures v.Number? ==> r == IntToString(v.n)
    ensures v.TextList? ==> |r| > 0 && r[0] == '['
  {
    match v
    case Text(s) => s
    case Number(n) => IntToString(n)
    case TextList(items) => "[" + Join(items, ", ") + "]"
  }

  /** Only a string claim can read as "access" in any case, or as "ACCOUNT_ACTIVATION". */
  lemma ClaimTextOfNonString(v: ClaimValue)
    ensures EqualsIgnoreCase(ClaimText(v), "access") ==> v.Text?
    ensures ClaimText(v) == "ACCOUNT_ACTIVATION" ==> v == Text("ACCOUNT_ACTIVATION")
  {
    var t := ClaimText(v);
    if v.Number? {
      var d := Digits(if v.n < 0 then -v.n else v.n);
      assert IsDigit(d[0]);
      assert t[0] == '-' || t[0] == d[0];
      assert UpperChar(t[0]) != UpperChar("access"[0]);
      assert t[0] != "ACCOUNT_ACTIVATION"[0];
    } else if v.TextList? {
      assert UpperChar(t[0]) != UpperChar("access"[0]);
      assert t[0] != "ACCOUNT_ACTIVATION"[0];
    }
  }

  /**
   * extractUsername / extractUsernameOptional / extractUserEmail: the
   * subject, or None when the parser raises a JwtException.
   */
  function ExtractUsername(cfg: Settings, token: string, now: Instant): (r: Result<Option<string>>)
    ensures ThrowsOnBlank(token, r)
    ensures r.Ok? && r.value.Some? ==> Accepted(cfg, token, now) && r.value == cfg.codec.verify(token).value.subject
    ensures r.Ok? && !Accepted(cfg, token, now) ==> r.value.None?
  {
    match ParseClaims(cfg, token, now)
    case Err(f) => Err(f)
    case Ok(None) => Ok(None)
    case Ok(Some(c)) => Ok(c.subject)
  }

  /** getTokenType: the text of the type claim, or None. */
  function GetTokenType(cfg: Settings, token: string, now: Instant): (r: Result<Option<string>>)
    ensures ThrowsOnBlank(token, r)
    ensures r.Ok? && r.value.Some? ==> Accepted(cfg, token, now) && "type" in cfg.codec.verify(token).value.custom
                                       && r.value.value == ClaimText(cfg.codec.verify(token).value.custom["type"])
  {
    match ParseClaims(cfg, token, now)
    case Err(f) => Err(f)
    case Ok(None) => Ok(None)
    case Ok(Some(c)) => Ok(if "type" in c.custom then Some(ClaimText(c.custom["type"])) else None)
  }

  /** extractClaim(token, c -> c.get(name, Long.class)): a number, or None (a non-number fails the typed read). */
  function ExtractLongClaim(cfg: Settings, token: string, name: string, now: Instant): (r: Result<Option<int>>)
    ensures ThrowsOnBlank(token, r)
    ensures r.Ok? ==> (r.value.Some? <==> (Accepted(cfg, token, now) && name in cfg.codec.verify(token).value.custom
                                           && cfg.codec.verify(token).value.custom[name].Number?))
    ensures r.Ok? && r.value.Some? ==> r.value.value == cfg.codec.verify(token).value.custom[name].n
  {
    match ParseClaims(cfg, token, now)
    case Err(f) => Err(f)
    case Ok(None) => Ok(None)
    case Ok(Some(c)) => Ok(if name in c.custom && c.custom[name].Number? then Some(c.custom[name].n) else None)
  }

  /** extractClaim(token, c -> c.get(name, String.class)): a string, or None. */
  function ExtractStringClaim(cfg: Settings, token: string, name: string, now: Instant): (r: Result<Option<string>>)
    ensures ThrowsOnBlank(token, r)
    ensures r.Ok? ==> (r.value.Some? <==> (Accepted(cfg, token, now) && name in cfg.codec.verify(token).value.custom
                                           && cfg.codec.verify(token).value.custom[name].Text?))
    ensures r.Ok? && r.value.Some? ==> r.value.value == cfg.codec.verify(token).value.custom[name].s
  {
    match ParseClaims(cfg, token, now)
    case Err(f) => Err(f)
    case Ok(None) => Ok(None)
    case Ok(Some(c)) => Ok(if name in c.custom && c.custom[name].Text? then Some(c.custom[name].s) else None)
  }

  /** isAccessToken: the type claim is present and reads "access" ignoring case. */
  function IsAccessToken(cfg: Settings, token: string, now: Instant): (r: Result<bool>)
    ensures ThrowsOnBlank(token, r)
    ensures r.Ok? ==> (r.value <==> Accepted(cfg, token, now) && "type" in cfg.codec.verify(token).value.custom
                                    && cfg.codec.verify(token).value.custom["type"].Text?
                                    && EqualsIgnoreCase(cfg.codec.verify(token).value.custom["type"].s, "access"))
  {
    match ParseClaims(cfg, token, now)
    case Err(f) => Err(f)
    case Ok(None) => Ok(false)
    case Ok(Some(c)) =>
      ClaimTextOfNonStringAll();
      Ok("type" in c.custom && EqualsIgnoreCase(ClaimText(c.custom["type"]), "access"))
  }

  /** isActivationToken: the type claim is exactly the string "ACCOUNT_ACTIVATION". */
  function IsActivationToken(cfg: Settings, token: string, now: Instant): (r: Result<bool>)
    ensures ThrowsOnBlank(token, r)
    ensures r.Ok? ==> (r.value <==> Accepted(cfg, token, now) && "type" in cfg.codec.verify(token).value.custom
                                    && cfg.codec.verify(token).value.custom["type"] == Text("ACCOUNT_ACTIVATION"))
  {
    match ParseClaims(cfg, token, now)
    case Err(f) => Err(f)
    case Ok(None) => Ok(false)
    case Ok(Some(c)) => Ok("type" in c.custom && c.custom["type"] == Text("ACCOUNT_ACTIVATION"))
  }

  lemma ClaimTextOfNonStringAll()
    ensures forall v :: EqualsIgnoreCase(ClaimText(v), "access") ==> v.Text?
    ensures forall v :: ClaimText(v) == "ACCOUNT_ACTIVATION" ==> v == Text("ACCOUNT_ACTIVATION")
  {
    forall v ensures EqualsIgnoreCase(ClaimText(v), "access") ==> v.Text? {
      ClaimTextOfNonString(v);
    }
    forall v ensures ClaimText(v) == "ACCOUNT_ACTIVATION" ==> v == Text("ACCOUNT_ACTIVATION") {
      ClaimTextOfNonString(v);
    }
  }

  /** The type claim isTokenValid(token, user) accepts: "access" in any case, or exactly "ACCOUNT_ACTIVATION". */
  predicate AcceptedType(v: ClaimValue)
  {
    EqualsIgnoreCase(ClaimText(v), "access") || ClaimText(v) == "ACCOUNT_ACTIVATION"
  }

  /**
   * isTokenValid(token, userDetails): the token parses, has a subject equal
   * to the user's username, is not expired, and has no type claim or an
   * accepted one. This method also catches Exception, so a blank token
   * gives false rather than an exception.
   */
  function IsTokenValidFor(cfg: Settings, token: string, username: string, now: Instant): (r: bool)
    ensures r <==> Accepted(cfg, token, now)
                   && cfg.codec.verify(token).value.subject == Some(username)
                   && ("type" in cfg.codec.verify(token).value.custom ==> AcceptedType(cfg.codec.verify(token).value.custom["type"]))
  {
    match ParseClaims(cfg, token, now)
    case Err(_) => false
    case Ok(None) => false
    case Ok(Some(c)) =>
      if c.subject.None? then false
      else if c.subject.value != username then false
      else if ExpiredAt(c, now, cfg.clockSkewSeconds) then false
      else if "type" in c.custom && !AcceptedType(c.custom["type"]) then false
      else true
  }

  /**
   * extractUserId: a numeric userId claim as is; any other userId claim
   * parsed from its text; without a userId claim, the subject parsed as a
   * long; None when nothing parses or the parser raises a JwtException.
   */
  function ExtractUserId(cfg: Settings, token: string, now: Instant): (r: Result<Option<int>>)
    ensures ThrowsOnBlank(token, r)
    ensures r.Ok? && !Accepted(cfg, token, now) ==> r.value.None?
    ensures r.Ok? && Accepted(cfg, token, now) ==>
      var c := cfg.codec.verify(token).value;
      r.value == (if "userId" !in c.custom then (if c.subject.Some? then ParseLong(c.subject.value) else None)
                  else if c.custom["userId"].Number? then Some(c.custom["userId"].n)
                  else ParseLong(ClaimText(c.custom["userId"])))
  {
    match ParseClaims(cfg, token, now)
    case Err(f) => Err(f)
    case Ok(None) => Ok(None)
    case Ok(Some(c)) =>
      if "userId" !in c.custom then
        Ok(if c.subject.Some? then ParseLong(c.subject.value) else None)
      else
        match c.custom["userId"]
        case Number(n) => Ok(Some(n))
        case other => Ok(ParseLong(ClaimText(other)))
  }

  /** A string userId written the way a number prints reads back as that number. */
  lemma ExtractUserIdFromText(cfg: Settings, token: string, now: Instant, id: int)
    requires MIN_LONG <= id <= MAX_LONG
    requires Accepted(cfg, token, now)
    requires "userId" in cfg.codec.verify(token).value.custom
    requires cfg.codec.verify(token).value.custom["userId"] == Text(IntToString(id))
    ensures ExtractUserId(cfg, token, now) == Ok(Some(id))
  {
    ParseLongOfIntToString(id);
  }

  /** getRemainingTime: max(0, exp - now), and 0 without exp or when the parser raises a JwtException. */
  function GetRemainingTime(cfg: Settings, token: string, now: Instant): (r: Result<int>)
    ensures ThrowsOnBlank(token, r)
    ensures r.Ok? ==> r.value >= 0
    ensures r.Ok? && r.value > 0 ==> Accepted(cfg, token, now) && cfg.codec.verify(token).value.expiration.Some?
                                     && r.value == cfg.codec.verify(token).value.expiration.value - now
    ensures (Accepted(cfg, token, now) && cfg.codec.verify(token).value.expiration.Some?
             && cfg.codec.verify(token).value.expiration.value > now) ==> r.Ok? && r.value > 0
  {
    match ParseClaims(cfg, token, now)
    case Err(f) => Err(f)
    case Ok(None) => Ok(0)
    case Ok(Some(c)) =>
      if c.expiration.None? then Ok(0)
      else if c.expiration.value - now > 0 then Ok(c.expiration.value - now) else Ok(0)
  }

  /** A token with text and time left is valid, given a non-negative skew. */
  lemma RemainingTimeImpliesValid(cfg: Settings, token: string, now: Instant)
    requires cfg.clockSkewSeconds >= 0
    requires HasText(token)
    requires cfg.codec.verify(token).Some? && cfg.codec.verify(token).value.expiration.Some?
    requires cfg.codec.verify(token).value.expiration.value > now
    ensures IsTokenValid(cfg, token, now) == Ok(true) && GetRemainingTime(cfg, token, now).value > 0
  {
  }

  // ---------------------------------------------------------------------
  // Issued tokens
  // ---------------------------------------------------------------------

  /** A JWT NumericDate holds whole seconds, so a time is kept to the second (truncated like Java's long division). */
  function NumericDate(ms: Instant): (r: Instant)
    ensures ms >= 0 ==> 0 <= ms - r < MILLIS_PER_SECOND
  {
    if ms >= 0 then ms / MILLIS_PER_SECOND * MILLIS_PER_SECOND
    else -((-ms) / MILLIS_PER_SECOND * MILLIS_PER_SECOND)
  }

  /** HashMap.put of a possibly null value; a null claim is not serialised. */
  function Put(m: map<string, ClaimValue>, name: string, v: Option<ClaimValue>): (r: map<string, ClaimValue>)
    ensures v.Some? ==> name in r && r[name] == v.value
    ensures v.None? ==> name !in r
    ensures forall k :: k != name ==> (k in r <==> k in m) && (k in m ==> r[k] == m[k])
  {
    if v.Some? then m[name := v.value] else m - {name}
  }

  function TextClaim(s: Option<string>): Option<ClaimValue>
  {
    if s.Some? then Some(Text(s.value)) else None
  }

  function NumberClaim(n: Option<int>): Option<ClaimValue>
  {
    if n.Some? then Some(Number(n.value)) else None
  }

  /** generateTokenWithExpiration(claims, subject, ms) and, with no subject, (claims, ms): issued now, expiring ms later. */
  function ClaimsWithExpiration(custom: map<string, ClaimValue>, subject: Option<string>, now: Instant, expirationMillis: int): (c: Claims)
    ensures c.custom == custom && c.subject == subject
    ensures c.issuedAt == Some(NumericDate(now)) && c.expiration == Some(NumericDate(now + expirationMillis))
  {
    Claims(subject, Some(NumericDate(now)), Some(NumericDate(now + expirationMillis)), custom)
  }

  /**
   * generateTokenWithExpiration(claims, subject, ms): the caller's claims
   * and subject (a null subject is not written), issued now.
   */
  function GenerateTokenWithExpiration(cfg: Settings, custom: map<string, ClaimValue>, subject: Option<string>,
                                       now: Instant, expirationMillis: int): string
  {
    cfg.codec.sign(ClaimsWithExpiration(custom, subject, now, expirationMillis))
  }

  /**
   * Such a token reads back with exactly the given claims and subject, and
   * is valid until its expiry (to the second) plus the skew.
   */
  lemma TokenWithExpirationLayout(cfg: Settings, custom: map<string, ClaimValue>, subject: Option<string>,
                                  issued: Instant, expirationMillis: int, now: Instant)
    requires Sound(cfg.codec)
    ensures var token := GenerateTokenWithExpiration(cfg, custom, subject, issued, expirationMillis);
      cfg.codec.verify(token) == Some(ClaimsWithExpiration(custom, subject, issued, expirationMillis))
      && HasText(token)
      && (IsTokenValid(cfg, token, now) == Ok(true)
          <==> now - cfg.clockSkewSeconds * MILLIS_PER_SECOND <= NumericDate(issued + expirationMillis))
  {
    var c := ClaimsWithExpiration(custom, subject, issued, expirationMillis);
    assert cfg.codec.verify(cfg.codec.sign(c)) == Some(c);
    assert HasText(cfg.codec.sign(c));
  }

  /** The claims generateAccessToken signs. */
  function AccessTokenClaims(u: User, now: Instant, expirationMillis: int): Claims
  {
    var custom :=
      Put(Put(Put(Put(map[], "userId", NumberClaim(u.id)), "type", Some(Text("access"))),
              "email", TextClaim(u.email)), "employeeCode", TextClaim(u.employeeCode));
    var withRoles := if u.roles.Some? then custom["roles" := TextList(RoleAuthorities(u.roles.value))] else custom;
    ClaimsWithExpiration(withRoles, u.employeeCode, now, expirationMillis)
  }

  /** generateAccessToken. */
  function GenerateAccessToken(cfg: Settings, u: User, now: Instant): string
  {
    cfg.codec.sign(AccessTokenClaims(u, now, cfg.accessTokenExpirationMs))
  }

  /** The userId, email and type claims of an activation token; a null id or email is left out. */
  function ActivationCustomClaims(u: User): map<string, ClaimValue>
  {
    Put(Put(Put(map[], "userId", NumberClaim(u.id)), "email", TextClaim(u.email)),
        "type", Some(Text("ACCOUNT_ACTIVATION")))
  }

  /** The claims generateActivationToken signs: no subject. */
  function ActivationTokenClaims(u: User, now: Instant, expirationMillis: int): Claims
  {
    ClaimsWithExpiration(ActivationCustomClaims(u), None, now, expirationMillis)
  }

  /** generateActivationToken. */
  function GenerateActivationToken(cfg: Settings, u: User, now: Instant): string
  {
    cfg.codec.sign(ActivationTokenClaims(u, now, cfg.activationTokenExpirationMs))
  }

  /**
   * An access token carries type "access", the employee code as subject,
   * the user's id, and "ROLE_" + name for each role in order; it expires
   * accessTokenExpirationMs after issue, to the second.
   */
  lemma AccessTokenLayout(cfg: Settings, u: User, issued: Instant, now: Instant)
    requires Sound(cfg.codec)
    ensures var c := cfg.codec.verify(GenerateAccessToken(cfg, u, issued)).value;
      c.subject == u.employeeCode
      && c.custom["type"] == Text("access")
      && c.expiration == Some(NumericDate(issued + cfg.accessTokenExpirationMs))
      && ("userId" in c.custom <==> u.id.Some?)
      && (u.id.Some? ==> c.custom["userId"] == Number(u.id.value))
      && ("roles" in c.custom <==> u.roles.Some?)
      && (u.roles.Some? ==> c.custom["roles"] == TextList(RoleAuthorities(u.roles.value)))
  {
    assert cfg.codec.verify(cfg.codec.sign(AccessTokenClaims(u, issued, cfg.accessTokenExpirationMs)))
        == Some(AccessTokenClaims(u, issued, cfg.accessTokenExpirationMs));
  }

  /**
   * Within its lifetime plus the skew, an access token is valid, is an
   * access token, names the employee code as its user, and yields the
   * user's id.
   */
  lemma AccessTokenAccepted(cfg: Settings, u: User, issued: Instant, now: Instant)
    requires Sound(cfg.codec)
    requires now - cfg.clockSkewSeconds * MILLIS_PER_SECOND <= NumericDate(issued + cfg.accessTokenExpirationMs)
    ensures IsTokenValid(cfg, GenerateAccessToken(cfg, u, issued), now) == Ok(true)
    ensures IsAccessToken(cfg, GenerateAccessToken(cfg, u, issued), now) == Ok(true)
    ensures IsActivationToken(cfg, GenerateAccessToken(cfg, u, issued), now) == Ok(false)
    ensures ExtractUsername(cfg, GenerateAccessToken(cfg, u, issued), now) == Ok(u.employeeCode)
    ensures ExtractUserId(cfg, GenerateAccessToken(cfg, u, issued), now)
            == Ok(if u.id.Some? then u.id else if u.employeeCode.Some? then ParseLong(u.employeeCode.value) else None)
  {
    AccessTokenLayout(cfg, u, issued, now);
    assert EqualsIgnoreCase("access", "access");
  }

  /** An access token passes the per-user check only for the username equal to its employee code. */
  lemma AccessTokenUserIsEmployeeCode(cfg: Settings, u: User, issued: Instant, now: Instant, username: string)
    requires Sound(cfg.codec)
    ensures IsTokenValidFor(cfg, GenerateAccessToken(cfg, u, issued), username, now) ==> u.employeeCode == Some(username)
    ensures IsTokenValid(cfg, GenerateAccessToken(cfg, u, issued), now) == Ok(true) && u.employeeCode == Some(username)
            ==> IsTokenValidFor(cfg, GenerateAccessToken(cfg, u, issued), username, now)
  {
    AccessTokenLayout(cfg, u, issued, now);
    assert EqualsIgnoreCase("access", "access");
  }

  /**
   * An activation token is an activation token and never an access token,
   * and having no subject it never passes the per-user check.
   */
  lemma ActivationTokenKind(cfg: Settings, u: User, issued: Instant, now: Instant, username: string)
    requires Sound(cfg.codec)
    ensures IsActivationToken(cfg, GenerateActivationToken(cfg, u, issued), now) == IsTokenValid(cfg, GenerateActivationToken(cfg, u, issued), now)
    ensures IsAccessToken(cfg, GenerateActivationToken(cfg, u, issued), now) == Ok(false)
    ensures !IsTokenValidFor(cfg, GenerateActivationToken(cfg, u, issued), username, now)
    ensures ExtractLongClaim(cfg, GenerateActivationToken(cfg, u, issued), "userId", now).Ok?
    ensures ExtractLongClaim(cfg, GenerateActivationToken(cfg, u, issued), "userId", now).value.Some?
            ==> u.id == ExtractLongClaim(cfg, GenerateActivationToken(cfg, u, issued), "userId", now).value
  {
    var c := ActivationTokenClaims(u, issued, cfg.activationTokenExpirationMs);
    assert cfg.codec.verify(cfg.codec.sign(c)) == Some(c);
    assert !EqualsIgnoreCase("ACCOUNT_ACTIVATION", "access");
  }

  /** The two type checks differ in case handling: "ACCESS" is an access type, "account_activation" is no activation type. */
  lemma TypeChecksCaseHandling(cfg: Settings, token: string, now: Instant)
    requires Accepted(cfg, token, now)
    ensures cfg.codec.verify(token).value.custom == map["type" := Text("ACCESS")] ==> IsAccessToken(cfg, token, now) == Ok(true)
    ensures cfg.codec.verify(token).value.custom == map["type" := Text("account_activation")] ==> IsActivationToken(cfg, token, now) == Ok(false)
  {
    assert EqualsIgnoreCase("ACCESS", "access");
  }
}
