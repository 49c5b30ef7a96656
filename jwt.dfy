/**
 * The token helpers: issuing a signed token for a user, validating one, and
 * reading the authenticated user back out of a request context.
 *
 * A token is kept abstract: the algorithm named in its header, the key its
 * signature was made with, and its two claims. The compact serialisation and
 * the HMAC itself are not modelled; a signature checks out exactly when the
 * verifying key is the one it was made with.
 */
module Jwt {
  import opened Wrappers

  /** Lifetime of an issued token: 24 hours, in seconds. */
  const Lifetime: int := 86400

  /** Signing algorithms a token header can name; Unregistered is one the library does not know. */
  datatype Alg =
    | HS256 | HS384 | HS512
    | RS256 | RS384 | RS512
    | ES256 | ES384 | ES512
    | PS256 | PS384 | PS512
    | EdDSA | NoneAlg | Unregistered

  /** The HMAC family: the algorithms whose signing method the key function accepts. */
  predicate IsHmac(a: Alg) {
    a == HS256 || a == HS384 || a == HS512
  }

  /** A claim as JSON decoding leaves it in the claims map: a whole number, some other JSON value, or no entry. */
  datatype Claim = Number(n: int) | OtherValue | Absent

  datatype Token = Token(alg: Alg, signedWith: string, userId: Claim, exp: Claim)

  datatype JwtError =
    | Malformed                  // not three well-formed segments
    | UnavailableAlg             // header names no registered signing method
    | UnexpectedSigningMethod    // rejected by the key function
    | Invalid(expired: bool, badSignature: bool)
    | InvalidToken               // the fall-through error of ValidateJWT
    | Unauthorized               // no user id in the context

  /** The outcome of ValidateJWT: a user id and an error, or a run-time panic. */
  datatype Validation = Returned(userId: int, err: Option<JwtError>) | Panicked

  /**
   * GenerateJWT: an HS256 token signed with the secret, naming the user and
   * expiring a day after now. It validates to its user under the same
   * secret until then.
   */
  function GenerateJWT(userId: int, secret: string, now: int): (t: Token)
    ensures t.alg == HS256
    ensures forall later :: later <= now + Lifetime ==> ValidateJWT(Some(t), secret, later) == Returned(userId, None)
  {
    Token(HS256, secret, Number(userId), Number(now + Lifetime))
  }

  /**
   * The library's expiry rule for map claims: no numeric exp, or exp zero,
   * never expires; otherwise the token is current while now <= exp.
   */
  predicate Unexpired(exp: Claim, now: int) {
    match exp
    case Number(e) => e == 0 || now <= e
    case _ => true
  }

  /** Once a token has expired it stays expired: the rule only ever turns from current to expired as time passes. */
  lemma ExpiryMonotone(exp: Claim, earlier: int, later: int)
    requires earlier <= later && Unexpired(exp, later)
    ensures Unexpired(exp, earlier)
  {
  }

  /** The key function ValidateJWT hands to the parser: the secret for any HMAC method, an error for anything else. */
  function KeyFor(t: Token, secret: string): (r: Result<string, JwtError>)
    ensures r.Success? <==> IsHmac(t.alg)
    ensures r.Success? ==> r.value == secret
  {
    if IsHmac(t.alg) then Success(secret) else Failure(UnexpectedSigningMethod)
  }

  /** What the parser hands back: the token (when it decoded), whether it is valid, and an error. */
  datatype Parsed = Parsed(token: Option<Token>, valid: bool, err: Option<JwtError>)

  /**
   * The parser: decoding, then the signing method lookup, then the key
   * function, then the claims, then the signature. Valid is set exactly when
   * no error is returned.
   */
  function Parse(decoded: Option<Token>, secret: string, now: int): (p: Parsed)
    ensures p.err.None? <==> p.valid
    ensures p.valid ==> p.token == decoded
  {
    match decoded
    case None => Parsed(None, false, Some(Malformed))
    case Some(t) =>
      if t.alg == Unregistered then Parsed(Some(t), false, Some(UnavailableAlg))
      else match KeyFor(t, secret)
        case Failure(e) => Parsed(Some(t), false, Some(e))
        case Success(key) =>
          var expired := !Unexpired(t.exp, now);
          var badSignature := t.signedWith != key;
          if expired || badSignature then Parsed(Some(t), false, Some(Invalid(expired, badSignature)))
          else Parsed(Some(t), true, None)
  }

  /**
   * ValidateJWT over an already decoded token: parser errors give user id 0
   * and that error; a valid token gives its user_id claim, and a user_id that
   * is missing or not a number panics on the type assertion.
   */
  function ValidateJWT(decoded: Option<Token>, secret: string, now: int): (v: Validation)
    ensures v.Returned? && v.err.Some? ==> v.userId == 0
    ensures Parse(decoded, secret, now).err.Some? ==> v == Returned(0, Parse(decoded, secret, now).err)
    ensures v.Panicked? <==> Parse(decoded, secret, now).err.None? && !decoded.value.userId.Number?
  {
    var p := Parse(decoded, secret, now);
    if p.err.Some? then Returned(0, p.err)
    else if p.token.Some? && p.valid then
      match p.token.value.userId
      case Number(n) => Returned(n, None)
      case _ => Panicked
    else Returned(0, Some(InvalidToken))
  }

  /** What ValidateJWT accepts: exactly the decoded HMAC tokens signed with the secret, unexpired, naming a user. */
  lemma ValidateAccepts(decoded: Option<Token>, secret: string, now: int, id: int)
    ensures ValidateJWT(decoded, secret, now) == Returned(id, None) <==>
      decoded.Some? && IsHmac(decoded.value.alg) && decoded.value.signedWith == secret &&
      Unexpired(decoded.value.exp, now) && decoded.value.userId == Number(id)
  {
  }

  /** The fall-through "invalid token" error is never returned: without a parser error the token is always valid. */
  lemma FallThroughUnreachable(decoded: Option<Token>, secret: string, now: int)
    ensures ValidateJWT(decoded, secret, now) != Returned(0, Some(InvalidToken))
  {
  }

  /** A token whose header names a non-HMAC method is refused with user id 0, whatever it was signed with. */
  lemma NonHmacRefused(t: Token, secret: string, now: int)
    requires !IsHmac(t.alg)
    ensures ValidateJWT(Some(t), secret, now).Returned?
    ensures ValidateJWT(Some(t), secret, now).userId == 0
    ensures ValidateJWT(Some(t), secret, now).err.Some?
  {
  }

  /** After a day the generated token is refused as expired (unless its exp happens to be zero). */
  lemma GeneratedExpires(userId: int, secret: string, issued: int, now: int)
    requires now > issued + Lifetime && issued + Lifetime != 0
    ensures ValidateJWT(Some(GenerateJWT(userId, secret, issued)), secret, now) == Returned(0, Some(Invalid(true, false)))
  {
  }

  /** A generated token is refused under any other secret. */
  lemma GeneratedNeedsSecret(userId: int, secret: string, other: string, issued: int, now: int)
    requires other != secret
    ensures ValidateJWT(Some(GenerateJWT(userId, secret, issued)), other, now).Returned?
    ensures ValidateJWT(Some(GenerateJWT(userId, secret, issued)), other, now).err.Some?
    ensures ValidateJWT(Some(GenerateJWT(userId, secret, issued)), other, now).err.value.badSignature
  {
  }

  /** Tokens signed with the secret under HS384 or HS512 are accepted too, although only HS256 is ever issued. */
  lemma AnyHmacAccepted(alg: Alg, secret: string, userId: int, exp: int, now: int)
    requires alg == HS384 || alg == HS512
    requires now <= exp
    ensures ValidateJWT(Some(Token(alg, secret, Number(userId), Number(exp))), secret, now) == Returned(userId, None)
  {
  }

  /** A valid token without a numeric user_id crashes the validator instead of returning an error. */
  lemma MissingUserIdPanics(t: Token, secret: string, now: int)
    requires IsHmac(t.alg) && t.signedWith == secret && Unexpired(t.exp, now)
    requires !t.userId.Number?
    ensures ValidateJWT(Some(t), secret, now) == Panicked
  {
  }

  /** A value stored in a request context: an int, or a value of some other dynamic type. */
  datatype CtxValue = IntValue(i: int) | OtherType

  type Context = map<string, CtxValue>

  /** The context key under which the middleware stores the authenticated user id. */
  const UserIdKey: string := "userID"

  datatype Lookup = Lookup(userId: int, err: Option<JwtError>)

  /** GetUserIDFromContext: the id stored under "userID" when it is an int, else (0, unauthorized). */
  function GetUserIDFromContext(ctx: Context): (r: Lookup)
    ensures r.err.None? <==> UserIdKey in ctx && ctx[UserIdKey].IntValue?
    ensures r.err.None? ==> r.userId == ctx[UserIdKey].i
    ensures r.err.Some? ==> r == Lookup(0, Some(Unauthorized))
  {
    if UserIdKey in ctx && ctx[UserIdKey].IntValue? then Lookup(ctx[UserIdKey].i, None)
    else Lookup(0, Some(Unauthorized))
  }

  /** Storing an id under "userID" and reading it back gives that id, whatever the context held before. */
  lemma ContextRoundTrip(ctx: Context, id: int)
    ensures GetUserIDFromContext(ctx[UserIdKey := IntValue(id)]) == Lookup(id, None)
  {
  }
}
