/** Validating a token: the signature by an oracle, the claims here. */
module Jwt {
  import opened Wrappers
  import opened Text
  import opened JsonValues

  datatype Config = Config(
    secret: Option<string>,
    secretIsBase64: bool,
    audience: Option<string>,
    roleClaimKey: string,
    anonRole: Option<string>)

  datatype ClaimFault =
    | Expired
    | NotYetValid
    | IssuedInFuture
    | NotInAudience
    | Unparsable
    | NotANumber(claim: string)
    | AudienceNotStrings

  datatype JwtError =
    | NoIdentity
    | InvalidHeaderFormat
    | SecretMissing
    | InvalidSignature
    | NoSuitableKey
    | Claim(fault: ClaimFault)

  type Claims = map<string, Json>

  datatype AuthResult = AuthResult(role: string, claims: Claims)

  /** What the library answers for a token under a secret, always the same. */
  type Verifier = (string, string, bool) -> Result<Claims, JwtError>

  const ALLOWED_SKEW: int := 30

  const I64_MAX: int := 0x7FFF_FFFF_FFFF_FFFF
  const I64_MIN: int := -0x8000_0000_0000_0000

  /** `f64 as i64`: towards zero, clamped. */
  function Truncated(r: real): (n: int)
    ensures 0.0 <= r < 9223372036854775808.0 ==> n as real <= r < n as real + 1.0
    ensures -9223372036854775808.0 <= r <= 0.0 ==> n as real - 1.0 < r <= n as real
    ensures -0x8000_0000_0000_0000 <= n <= 0x7FFF_FFFF_FFFF_FFFF
  {
    var n := if r >= 0.0 then r.Floor else -((0.0 - r).Floor);
    if n > I64_MAX then I64_MAX else if n < I64_MIN then I64_MIN else n
  }

  function NumberClaim(claims: Claims, name: string): Result<Option<int>, ClaimFault> {
    if name !in claims || claims[name].Null? then Ok(None)
    else if claims[name].Num? then Ok(Some(Truncated(claims[name].number)))
    else Err(NotANumber(name))
  }

  predicate Admits(config: Config, audience: string) {
    config.audience.Some? ==> audience == config.audience.value
  }

  /** The audience does not depend on when it is asked. */
  function AudienceFault(claims: Claims, config: Config): Option<ClaimFault> {
    if "aud" !in claims || claims["aud"].Null? then None
    else
      match claims["aud"]
      case Str(audience) => if Admits(config, audience) then None else Some(NotInAudience)
      case Arr(items) =>
        if exists i | 0 <= i < |items| :: !items[i].Str? then Some(AudienceNotStrings)
        else if items != [] && !(exists i | 0 <= i < |items| :: items[i].Str? && Admits(config, items[i].text))
        then Some(NotInAudience)
        else None
      case _ => Some(AudienceNotStrings)
  }

  predicate Given(claims: Claims, name: string) { name in claims && !claims[name].Null? }

  /** Section 4.1.4 of RFC 7519, without leeway. */
  predicate NotExpired(claims: Claims, now: int) {
    Given(claims, "exp") ==> claims["exp"].Num? && now <= Truncated(claims["exp"].number)
  }

  /** Sections 4.1.5 and 4.1.6 of RFC 7519, with leeway for the issuer's clock. */
  predicate Begun(claims: Claims, name: string, now: int) {
    Given(claims, name) ==> claims[name].Num? && Truncated(claims[name].number) <= now + 30
  }

  /** Section 4.1.3 of RFC 7519: one audience or several; an empty list is none. */
  predicate InAudience(claims: Claims, config: Config) {
    Given(claims, "aud") ==>
      || (claims["aud"].Str? && (config.audience.None? || config.audience == Some(claims["aud"].text)))
      || (&& claims["aud"].Arr?
          && (forall i | 0 <= i < |claims["aud"].items| :: claims["aud"].items[i].Str?)
          && (claims["aud"].items == [] ||
              exists i | 0 <= i < |claims["aud"].items| ::
                claims["aud"].items[i].Str? && (config.audience.None? || config.audience == Some(claims["aud"].items[i].text))))
  }

  /** The registered claims, in the order a fault is reported. */
  function CheckClaims(claims: Claims, config: Config, now: int): (fault: Option<ClaimFault>)
    ensures fault.None? <==>
      NotExpired(claims, now) && Begun(claims, "nbf", now) && Begun(claims, "iat", now) && InAudience(claims, config)
    ensures fault == Some(Expired) <==>
      Given(claims, "exp") && claims["exp"].Num? && now > Truncated(claims["exp"].number)
    ensures fault == Some(NotYetValid) <==>
      NotExpired(claims, now) && Given(claims, "nbf") && claims["nbf"].Num? && !Begun(claims, "nbf", now)
    ensures fault == Some(IssuedInFuture) <==>
      && NotExpired(claims, now) && Begun(claims, "nbf", now)
      && Given(claims, "iat") && claims["iat"].Num? && !Begun(claims, "iat", now)
  {
    match NumberClaim(claims, "exp")
    case Err(fault) => Some(fault)
    case Ok(exp) =>
      if exp.Some? && now > exp.value then Some(Expired)
      else
        match NumberClaim(claims, "nbf")
        case Err(fault) => Some(fault)
        case Ok(nbf) =>
          if nbf.Some? && now + ALLOWED_SKEW < nbf.value then Some(NotYetValid)
          else
            match NumberClaim(claims, "iat")
            case Err(fault) => Some(fault)
            case Ok(iat) =>
              if iat.Some? && now + ALLOWED_SKEW < iat.value then Some(IssuedInFuture)
              else AudienceFault(claims, config)
  }

  // ----- The role -----

  /** Walks objects only; anything else on the way ends the search. */
  function Descend(value: Json, path: seq<string>): Option<Json> {
    if path == [] then Some(value)
    else if value.Obj? && path[0] in value.fields then Descend(value.fields[path[0]], path[1..])
    else None
  }

  function LookupClaim(claims: Claims, key: string): Option<Json> {
    if key in claims then Some(claims[key])
    else
      var parts := Split(key, '.');
      if |parts| < 2 || parts[0] !in claims then None else Descend(claims[parts[0]], parts[1..])
  }

  /** The loop behind a dotted key. */
  method FollowPath(start: Json, path: seq<string>) returns (found: Option<Json>)
    ensures found == Descend(start, path)
  {
    var current := start;
    for i := 0 to |path|
      invariant Descend(start, path) == Descend(current, path[i..])
    {
      if !current.Obj? || path[i] !in current.fields {
        return None;
      }
      assert path[i..][1..] == path[i + 1..];
      current := current.fields[path[i]];
    }
    return Some(current);
  }

  function RoleOf(claims: Claims, config: Config): Option<string> {
    match LookupClaim(claims, config.roleClaimKey)
    case Some(Str(role)) => Some(role)
    case _ => config.anonRole
  }

  // ----- Validation -----

  function ValidateToken(verify: Verifier, token: string, config: Config, now: int): Result<AuthResult, JwtError> {
    if config.secret.None? then Err(SecretMissing)
    else
      match verify(token, config.secret.value, config.secretIsBase64)
      case Err(e) => Err(e)
      case Ok(claims) =>
        match CheckClaims(claims, config, now)
        case Some(fault) => Err(Claim(fault))
        case None =>
          match RoleOf(claims, config)
          case None => Err(NoIdentity)
          case Some(role) => Ok(AuthResult(role, claims))
  }

  function ExtractBearerToken(header: string): Result<string, JwtError> {
    match AfterBearer(Trim(header))
    case Some(token) => Ok(Trim(token))
    case None => Err(InvalidHeaderFormat)
  }

  function AfterBearer(trimmed: string): Option<string> {
    match StripPrefix(trimmed, "Bearer ")
    case Some(token) => Some(token)
    case None => StripPrefix(trimmed, "bearer ")
  }

  /** Authentication without a cache. */
  function Authenticate(verify: Verifier, header: Option<string>, config: Config, now: int)
    : Result<AuthResult, JwtError>
  {
    match header
    case None =>
      if config.anonRole.Some? then Ok(AuthResult(config.anonRole.value, map[])) else Err(NoIdentity)
    case Some(text) =>
      match ExtractBearerToken(text)
      case Err(e) => Err(e)
      case Ok(token) => ValidateToken(verify, token, config, now)
  }

  /** A token once valid can only go wrong by expiring. */
  lemma ValidUntilExpiry(verify: Verifier, token: string, config: Config, before: int, now: int)
    requires ValidateToken(verify, token, config, before).Ok? && before <= now
    ensures var r := ValidateToken(verify, token, config, before).value;
      && NumberClaim(r.claims, "exp").Ok?
      && var exp := NumberClaim(r.claims, "exp").value;
         ValidateToken(verify, token, config, now)
         == if exp.Some? && now > exp.value then Err(Claim(Expired)) else Ok(r)
  {
  }

  // ----- Who a token is for -----

  /** What a walk through objects, by these names, comes to. */
  predicate At(value: Json, path: seq<string>, found: Json) {
    if path == [] then found == value
    else value.Obj? && path[0] in value.fields && At(value.fields[path[0]], path[1..], found)
  }

  /** A claim by its own name, dots included, or else by the path its dots spell. */
  ghost predicate ClaimIs(claims: Claims, key: string, found: Json) {
    if key in claims then found == claims[key]
    else exists parts :: Spells(parts, key) && parts[0] in claims && At(claims[parts[0]], parts[1..], found)
  }

  predicate Spells(parts: seq<string>, key: string) {
    |parts| >= 2 && (forall part <- parts :: '.' !in part) && Join(parts, '.') == key
  }

  lemma {:induction false} DescendFinds(value: Json, path: seq<string>, found: Json)
    ensures Descend(value, path) == Some(found) <==> At(value, path, found)
    decreases |path|
  {
    if path != [] && value.Obj? && path[0] in value.fields {
      DescendFinds(value.fields[path[0]], path[1..], found);
    }
  }

  lemma {:induction false} ClaimFound(claims: Claims, key: string, found: Json)
    ensures LookupClaim(claims, key) == Some(found) <==> ClaimIs(claims, key, found)
  {
    if key !in claims {
      var parts := Split(key, '.');
      JoinSplit(key, '.');
      if parts[0] in claims { DescendFinds(claims[parts[0]], parts[1..], found); }
      forall other | Spells(other, key) ensures other == parts { SplitJoin(other, '.'); }
      if |parts| >= 2 { assert Spells(parts, key); }
    }
  }

  /** The role is the text of the configured claim, and the anonymous role where that
      claim is no text. */
  lemma {:induction false} RoleExactly(claims: Claims, config: Config, role: string)
    ensures RoleOf(claims, config) == Some(role) <==>
      || ClaimIs(claims, config.roleClaimKey, Str(role))
      || (config.anonRole == Some(role) && forall text :: !ClaimIs(claims, config.roleClaimKey, Str(text)))
  {
    forall text ensures LookupClaim(claims, config.roleClaimKey) == Some(Str(text))
                        <==> ClaimIs(claims, config.roleClaimKey, Str(text)) {
      ClaimFound(claims, config.roleClaimKey, Str(text));
    }
  }

  /** A token is answered with the claims it was verified for, once the registered
      ones hold, and the role those give; and nothing else is answered. */
  lemma {:induction false} TokenAnswers(verify: Verifier, token: string, config: Config, now: int, r: AuthResult)
    ensures ValidateToken(verify, token, config, now) == Ok(r) <==>
      && config.secret.Some?
      && verify(token, config.secret.value, config.secretIsBase64) == Ok(r.claims)
      && NotExpired(r.claims, now) && Begun(r.claims, "nbf", now) && Begun(r.claims, "iat", now)
      && InAudience(r.claims, config)
      && RoleOf(r.claims, config) == Some(r.role)
  {
  }

  /** `Bearer` or `bearer`, a space and the token. */
  lemma {:induction false} BearerReads(first: char, token: string)
    requires first == 'B' || first == 'b'
    requires token != "" && !IsSpace(token[0]) && !IsSpace(token[|token| - 1])
    ensures ExtractBearerToken([first] + "earer " + token) == Ok(token)
  {
    var header := [first] + "earer " + token;
    assert header[7..] == token && header[|header| - 1] == token[|token| - 1];
    BearsIt(first, token, header);
    TrimNothing(header);
    TrimNothing(token);
    HeaderExactly(header, header);
  }

  lemma {:induction false} BearsIt(first: char, token: string, header: string)
    requires (first == 'B' || first == 'b') && header == [first] + "earer " + token
    ensures Bears(header) && header[0] == first
  {
  }

  lemma {:induction false} TrimNothing(s: string)
    requires s != "" && !IsSpace(s[0]) && !IsSpace(s[|s| - 1])
    ensures Trim(s) == s
  {
  }

  /** A header is read past its outer white space: after `Bearer ` or `bearer ` the
      token, itself trimmed; anything else is refused. */
  lemma {:induction false} HeaderExactly(header: string, s: string)
    requires s == Trim(header)
    ensures ExtractBearerToken(header)
      == if Bears(s) then Ok(Trim(s[7..])) else Err(InvalidHeaderFormat)
  {
    BearerExactly(s);
  }

  predicate Bears(s: string) {
    && |s| >= 7 && (s[0] == 'B' || s[0] == 'b')
    && s[1] == 'e' && s[2] == 'a' && s[3] == 'r' && s[4] == 'e' && s[5] == 'r' && s[6] == ' '
  }

  lemma {:induction false} BearerExactly(s: string)
    ensures AfterBearer(s) == if Bears(s) then Some(s[7..]) else None
  {
  }

  /** Without a header the caller is the anonymous role, where there is one. */
  lemma {:induction false} AnonymousExactly(verify: Verifier, config: Config, now: int)
    ensures Authenticate(verify, None, config, now)
      == match config.anonRole case Some(role) => Ok(AuthResult(role, map[])) case None => Err(NoIdentity)
  {
  }

  /** Why a token is refused: no secret, what verifying it says, the first fault of its
      claims, or no role. */
  lemma {:induction false} TokenRefusals(verify: Verifier, token: string, config: Config, now: int)
    ensures config.secret.None? ==> ValidateToken(verify, token, config, now) == Err(SecretMissing)
    ensures config.secret.Some? ==>
      match verify(token, config.secret.value, config.secretIsBase64)
      case Err(e) => ValidateToken(verify, token, config, now) == Err(e)
      case Ok(claims) =>
        && (CheckClaims(claims, config, now).Some? ==>
              ValidateToken(verify, token, config, now) == Err(Claim(CheckClaims(claims, config, now).value)))
        && (CheckClaims(claims, config, now).None? && RoleOf(claims, config).None? ==>
              ValidateToken(verify, token, config, now) == Err(NoIdentity))
  {
  }
}
