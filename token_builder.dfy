/**
 * AuthPermissions.AspNetCore.JwtTokenCode: the TokenBuilder that issues JWT access
 * tokens, pairs them with refresh tokens kept in the database, and rotates a refresh
 * token each time it is used.
 *
 * The clock (DateTime.UtcNow), the Id of a newly built token and the
 * random value of a new refresh token are parameters (`now`, `jwtId`, `newValue`); the
 * claims computed by IClaimsCalculator are a parameter as well.
 */
module JwtTokenCode {
  import opened Wrappers
  import opened JwtCodec
  import opened DataClasses

  /** JwtData, the options of the token builder. The two lifetimes are in clock ticks. */
  datatype JwtData = JwtData(
    issuer: string,
    audience: string,
    signingKey: string,
    expires: int,
    refreshTokenExpires: int)

  datatype TokenAndRefreshToken = TokenAndRefreshToken(token: TokenString, refreshToken: string)

  /** The exceptions that leave the token builder. */
  datatype Exception =
    | SecurityTokenValidation(failure: ValidationFailure)  // thrown by ValidateToken
    | MoreThanOneUserIdClaim                               // SingleOrDefault found several
    | MissingUserIdClaim                                   // the AuthPermissionsException
    | DuplicateClaimType                                   // ToDictionary met a type twice
    | DuplicateRefreshTokenValue                           // SaveChangesAsync hit the primary key
    | ExpiresNotAfterNotBefore                             // CreateToken refused the lifetime

  datatype Outcome<+T> = Returned(value: T) | Raised(exception: Exception)

  /** The (updatedTokens, HttpStatusCode) pair returned by a refresh. */
  datatype Response = Response(updatedTokens: Option<TokenAndRefreshToken>, httpStatusCode: int)

  /** The outcome of an operation together with the refresh-token table after it. */
  datatype Step<+T> = Step(outcome: Outcome<T>, store: Store)

  /** The result of Claims.SingleOrDefault(x => x.Type == t)?.Value */
  datatype Lookup = NoElement | Single(value: string) | MoreThanOne

  const BadRequest: Response := Response(None, 400)
  const Unauthorized: Response := Response(None, 401)

  function ValidationParametersOf(data: JwtData): ValidationParameters
  {
    ValidationParameters(data.issuer, data.audience, AsciiBytes(data.signingKey))
  }

  /** claims.ToDictionary(x => x.Type, ...): the claims themselves, or an exception on a repeated type. */
  function ToDictionary(claims: seq<Claim>): (r: Outcome<seq<Claim>>)
    ensures r.Returned? <==> UniqueTypes(claims)
    ensures r.Returned? ==> r.value == claims
    ensures r.Raised? ==> r.exception == DuplicateClaimType
  {
    if UniqueTypes(claims) then Returned(claims) else Raised(DuplicateClaimType)
  }

  /** Two or more of the claims have type `t`. */
  predicate TypeRepeats(claims: seq<Claim>, t: string)
  {
    exists i, j :: 0 <= i < j < |claims| && claims[i].claimType == t && claims[j].claimType == t
  }

  lemma TypeRepeatsCons(claims: seq<Claim>, t: string)
    requires claims != []
    ensures TypeRepeats(claims, t) <==>
      (claims[0].claimType == t && HasType(claims[1..], t)) || TypeRepeats(claims[1..], t)
  {
  }

  /** The values of the claims of type `t`: one for every such claim. */
  function ValuesOfType(claims: seq<Claim>, t: string): (r: seq<string>)
    ensures |r| == 0 <==> !HasType(claims, t)
    ensures |r| >= 2 <==> TypeRepeats(claims, t)
    ensures forall v :: v in r ==> Claim(t, v) in claims
    ensures forall i :: 0 <= i < |claims| && claims[i].claimType == t ==> claims[i].value in r
    ensures UniqueTypes(claims) ==> |r| <= 1
  {
    if claims == [] then []
    else
      var rest := ValuesOfType(claims[1..], t);
      assert forall c :: c in claims[1..] ==> c in claims;
      assert forall i :: 1 <= i < |claims| ==> claims[i] == claims[1..][i - 1];
      TypeRepeatsCons(claims, t);
      if claims[0].claimType == t then [claims[0].value] + rest else rest
  }

  /** Claims.SingleOrDefault(x => x.Type == t)?.Value, which throws when several claims match. */
  function SingleOrDefault(claims: seq<Claim>, t: string): (r: Lookup)
    ensures r == NoElement <==> !HasType(claims, t)
    ensures r.Single? ==> Claim(t, r.value) in claims
    ensures r.MoreThanOne? <==> TypeRepeats(claims, t)
    ensures UniqueTypes(claims) && HasType(claims, t) ==> r.Single?
  {
    var values := ValuesOfType(claims, t);
    if |values| == 0 then NoElement
    else if |values| == 1 then Single(values[0])
    else MoreThanOne
  }

  /**
   * GenerateJwtTokenHandler: the token descriptor. Its subject is a single NameIdentifier
   * claim holding the user id; issuer, audience and key come from JwtData; the token
   * expires `data.expires` after `now`; it is signed with HMAC-SHA256 over the ASCII bytes
   * of the signing key; and the claims become the descriptor's claim dictionary.
   */
  function GenerateJwtTokenHandler(data: JwtData, userId: string, claims: seq<Claim>, now: int): (r: Outcome<Descriptor>)
    ensures r.Raised? <==> !UniqueTypes(claims)
    ensures r.Raised? ==> r.exception == DuplicateClaimType
    ensures r.Returned? ==> r.value.subject == [Claim(NameIdentifier, userId)] && r.value.claims == claims
    ensures r.Returned? ==> r.value.issuer == data.issuer && r.value.audience == data.audience
    ensures r.Returned? ==> r.value.key == AsciiBytes(data.signingKey) && r.value.algorithm == HmacSha256Signature
    ensures r.Returned? ==> r.value.expires == now + data.expires
  {
    match ToDictionary(claims)
    case Raised(e) => Raised(e)
    case Returned(dict) =>
      Returned(Descriptor(
        [Claim(NameIdentifier, userId)],
        data.issuer,
        data.audience,
        now + data.expires,
        AsciiBytes(data.signingKey),
        HmacSha256Signature,
        dict))
  }

  /** Of the algorithms the library accepts, only "HS256" itself equals "HS256" ignoring case. */
  lemma OnlyHmacSha256MatchesIgnoringCase(alg: string)
    requires alg in SymmetricAlgorithms
    ensures EqualsIgnoreCase(alg, HmacSha256) <==> alg == HmacSha256
  {
  }

  /** The presented token passes every check of GetPrincipalFromExpiredToken, expiry aside. */
  ghost predicate AcceptedIgnoringExpiry(data: JwtData, token: TokenString)
  {
    && token.Compact?
    && token.jwt.header.alg == HmacSha256
    && token.jwt.signature == Mac(AsciiBytes(data.signingKey), token.jwt.header, token.jwt.payload)
    && token.jwt.payload.audience == data.audience
    && token.jwt.payload.issuer == data.issuer
  }

  /**
   * GetPrincipalFromExpiredToken: the claims of a token that is valid except perhaps for
   * its expiry (no clock is consulted); None when the library accepted the token but its
   * header names another HMAC algorithm than HS256; the library's exception otherwise.
   */
  function GetPrincipalFromExpiredToken(data: JwtData, token: TokenString): (r: Outcome<Option<seq<Claim>>>)
    ensures r.Raised? <==> ValidateToken(token, ValidationParametersOf(data)).ValidationException?
    ensures r.Raised? ==> r.exception == SecurityTokenValidation(ValidateToken(token, ValidationParametersOf(data)).failure)
    ensures r == Returned(None) <==>
      ValidateToken(token, ValidationParametersOf(data)).Validated? && token.jwt.header.alg != HmacSha256
    ensures r.Returned? && r.value.Some? <==> AcceptedIgnoringExpiry(data, token)
    ensures r.Returned? && r.value.Some? ==> r.value.value == token.jwt.payload.claims
  {
    match ValidateToken(token, ValidationParametersOf(data))
    case ValidationException(failure) => Raised(SecurityTokenValidation(failure))
    case Validated(principal, jwt) =>
      OnlyHmacSha256MatchesIgnoringCase(jwt.header.alg);
      if !EqualsIgnoreCase(jwt.header.alg, HmacSha256) then Returned(None)
      else Returned(Some(principal))
  }

  /**
   * GenerateJwtTokenHandler followed by CreateToken: a signed token for `userId` carrying
   * `claims`. What makes it right is that GetPrincipalFromExpiredToken gives back the
   * claims it was built with, the NameIdentifier claim among them.
   */
  function Mint(data: JwtData, userId: string, claims: seq<Claim>, jwtId: string, now: int): (r: Outcome<Jwt>)
    ensures r.Raised? <==> !UniqueTypes(claims) || data.expires <= 0
    ensures !UniqueTypes(claims) ==> r == Raised(DuplicateClaimType)
    ensures UniqueTypes(claims) && data.expires <= 0 ==> r == Raised(ExpiresNotAfterNotBefore)
    ensures r.Returned? ==> r.value.payload.id == jwtId && r.value.payload.expires == now + data.expires
    ensures r.Returned? ==>
      GetPrincipalFromExpiredToken(data, WriteToken(r.value)) == Returned(Some(MergeClaims([Claim(NameIdentifier, userId)], claims)))
  {
    match GenerateJwtTokenHandler(data, userId, claims, now)
    case Raised(e) => Raised(e)
    case Returned(descriptor) =>
      if !LifetimeAccepted(descriptor, now) then Raised(ExpiresNotAfterNotBefore)
      else
        CreatedTokenValidates(descriptor, jwtId, ValidationParametersOf(data));
        Returned(CreateToken(descriptor, jwtId))
  }

  /**
   * GenerateTokenAndRefreshTokenAsync on the refresh-token table: a signed token and one
   * new active refresh record bound to the user and the token's identifier.
   */
  function IssuePair(data: JwtData, store: Store, userId: string, claims: seq<Claim>, jwtId: string, newValue: string, now: int): (s: Step<TokenAndRefreshToken>)
    ensures s.outcome.Returned? <==> UniqueTypes(claims) && data.expires > 0 && newValue !in store
    ensures !UniqueTypes(claims) ==> s == Step(Raised(DuplicateClaimType), store)
    ensures UniqueTypes(claims) && data.expires <= 0 ==> s == Step(Raised(ExpiresNotAfterNotBefore), store)
    ensures UniqueTypes(claims) && data.expires > 0 && newValue in store ==> s == Step(Raised(DuplicateRefreshTokenValue), store)
    ensures s.outcome.Returned? ==>
      && s.outcome.value.token.Compact?
      && s.outcome.value.token.jwt.payload.id == jwtId
      && s.outcome.value.token.jwt.payload.expires == now + data.expires
      && s.outcome.value.refreshToken == newValue
      && s.store.Keys == store.Keys + {newValue}
      && s.store[newValue] == RefreshToken(newValue, userId, jwtId, false, now)
      && (forall v :: v in store ==> s.store[v] == store[v])
    ensures s.outcome.Returned? ==>
      GetPrincipalFromExpiredToken(data, s.outcome.value.token) == Returned(Some(MergeClaims([Claim(NameIdentifier, userId)], claims)))
    ensures Evolves(store, s.store)
    ensures KeyedByValue(store) ==> KeyedByValue(s.store)
  {
    match Mint(data, userId, claims, jwtId, now)
    case Raised(e) => Step(Raised(e), store)
    case Returned(token) =>
      if newValue in store then Step(Raised(DuplicateRefreshTokenValue), store)
      else
        var created := CreateNewRefreshToken(userId, token.payload.id, newValue, now);
        Step(Returned(TokenAndRefreshToken(WriteToken(token), newValue)), store[newValue := created])
  }

  /**
   * The four checks of a refresh, in their order, all pass: the presented token is
   * accepted ignoring expiry, its refresh value is in the table, that record is not
   * retired, and its lifetime has not run out (it is still good at the very end of it).
   */
  ghost predicate RefreshChecksPass(data: JwtData, store: Store, request: TokenAndRefreshToken, now: int)
  {
    && AcceptedIgnoringExpiry(data, request.token)
    && request.refreshToken in store
    && !store[request.refreshToken].isInvalid
    && !(store[request.refreshToken].addedDateUtc + data.refreshTokenExpires < now)
  }

  /**
   * RefreshTokenUsingRefreshTokenAsync on the refresh-token table. The first failing
   * check decides the outcome and leaves the table as it was; on success the presented
   * record is retired and exactly one new active record replaces it, in one save.
   */
  function Refresh(data: JwtData, store: Store, request: TokenAndRefreshToken, jwtId: string, newValue: string, now: int): (s: Step<Response>)
    // the outcomes and what they mean
    ensures s.outcome.Returned? ==> s.outcome.value.httpStatusCode in {200, 400, 401}
    ensures s.outcome.Returned? ==> (s.outcome.value.updatedTokens.Some? <==> s.outcome.value.httpStatusCode == 200)
    ensures s.store != store ==> s.outcome.Returned? && s.outcome.value.httpStatusCode == 200
    // 1. the presented access token: the library throws, or the algorithm check rejects it
    ensures GetPrincipalFromExpiredToken(data, request.token).Raised? ==>
      s == Step(Raised(GetPrincipalFromExpiredToken(data, request.token).exception), store)
    ensures GetPrincipalFromExpiredToken(data, request.token) == Returned(None) ==> s == Step(Returned(BadRequest), store)
    // 2. the refresh value is unknown
    ensures AcceptedIgnoringExpiry(data, request.token) && request.refreshToken !in store ==>
      s == Step(Returned(BadRequest), store)
    // 3. the record was already used or was retired by hand
    ensures AcceptedIgnoringExpiry(data, request.token) && request.refreshToken in store && store[request.refreshToken].isInvalid ==>
      s == Step(Returned(Unauthorized), store)
    // 4. the record is past its lifetime
    ensures
      && AcceptedIgnoringExpiry(data, request.token) && request.refreshToken in store && !store[request.refreshToken].isInvalid
      && store[request.refreshToken].addedDateUtc + data.refreshTokenExpires < now
      ==> s == Step(Returned(Unauthorized), store)
    // every check passed, but the token names no user, or names several
    ensures RefreshChecksPass(data, store, request, now) && !HasType(request.token.jwt.payload.claims, NameIdentifier) ==>
      s == Step(Raised(MissingUserIdClaim), store)
    ensures RefreshChecksPass(data, store, request, now) && SingleOrDefault(request.token.jwt.payload.claims, NameIdentifier).MoreThanOne? ==>
      s == Step(Raised(MoreThanOneUserIdClaim), store)
    // one user is named, but the new token or the save fails
    ensures
      && RefreshChecksPass(data, store, request, now)
      && SingleOrDefault(request.token.jwt.payload.claims, NameIdentifier).Single?
      && !UniqueTypes(request.token.jwt.payload.claims)
      ==> s == Step(Raised(DuplicateClaimType), store)
    ensures
      && RefreshChecksPass(data, store, request, now)
      && SingleOrDefault(request.token.jwt.payload.claims, NameIdentifier).Single?
      && UniqueTypes(request.token.jwt.payload.claims) && data.expires <= 0
      ==> s == Step(Raised(ExpiresNotAfterNotBefore), store)
    ensures
      && RefreshChecksPass(data, store, request, now)
      && SingleOrDefault(request.token.jwt.payload.claims, NameIdentifier).Single?
      && UniqueTypes(request.token.jwt.payload.claims) && data.expires > 0 && newValue in store
      ==> s == Step(Raised(DuplicateRefreshTokenValue), store)
    // success, exactly when every check passes and the new token and record can be made
    ensures s.outcome.Returned? && s.outcome.value.httpStatusCode == 200 <==>
      && RefreshChecksPass(data, store, request, now)
      && SingleOrDefault(request.token.jwt.payload.claims, NameIdentifier).Single?
      && UniqueTypes(request.token.jwt.payload.claims)
      && data.expires > 0
      && newValue !in store
    ensures s.outcome.Returned? && s.outcome.value.httpStatusCode == 200 ==>
      var presented := request.refreshToken;
      var claims := request.token.jwt.payload.claims;
      var tokens := s.outcome.value.updatedTokens.value;
      && tokens.token.Compact?
      && tokens.token.jwt.payload.id == jwtId
      && tokens.token.jwt.payload.expires == now + data.expires
      && tokens.refreshToken == newValue
      && newValue != presented
      && s.store.Keys == store.Keys + {newValue}
      && s.store[presented] == MarkAsInvalid(store[presented])
      && s.store[newValue] == RefreshToken(newValue, SingleOrDefault(claims, NameIdentifier).value, jwtId, false, now)
      && (forall v :: v in store && v != presented ==> s.store[v] == store[v])
      && GetPrincipalFromExpiredToken(data, s.outcome.value.updatedTokens.value.token) == Returned(Some(claims))
    ensures Evolves(store, s.store)
    ensures KeyedByValue(store) ==> KeyedByValue(s.store)
  {
    match GetPrincipalFromExpiredToken(data, request.token)
    case Raised(e) => Step(Raised(e), store)
    case Returned(None) => Step(Returned(BadRequest), store)
    case Returned(Some(claims)) =>
      if request.refreshToken !in store then Step(Returned(BadRequest), store)
      else
        var fromDb := store[request.refreshToken];
        if fromDb.isInvalid then Step(Returned(Unauthorized), store)
        else if fromDb.addedDateUtc + data.refreshTokenExpires < now then Step(Returned(Unauthorized), store)
        else
          assert RefreshChecksPass(data, store, request, now) && claims == request.token.jwt.payload.claims;
          Rotate(data, store, request.refreshToken, claims, jwtId, newValue, now)
  }

  /**
   * The part of a refresh after every check has passed: find the user named by the
   * token, mint the new token with the same claims, retire the presented record and add
   * its replacement, saving both changes together.
   */
  function Rotate(data: JwtData, store: Store, presented: string, claims: seq<Claim>, jwtId: string, newValue: string, now: int): (s: Step<Response>)
    requires presented in store
    ensures s.outcome.Returned? ==> s.outcome.value.httpStatusCode == 200 && s.outcome.value.updatedTokens.Some?
    ensures s.outcome.Raised? ==> s.store == store
    ensures !HasType(claims, NameIdentifier) ==> s.outcome == Raised(MissingUserIdClaim)
    ensures SingleOrDefault(claims, NameIdentifier).MoreThanOne? ==> s.outcome == Raised(MoreThanOneUserIdClaim)
    ensures SingleOrDefault(claims, NameIdentifier).Single? && !UniqueTypes(claims) ==> s.outcome == Raised(DuplicateClaimType)
    ensures SingleOrDefault(claims, NameIdentifier).Single? && UniqueTypes(claims) && data.expires <= 0 ==>
      s.outcome == Raised(ExpiresNotAfterNotBefore)
    ensures SingleOrDefault(claims, NameIdentifier).Single? && UniqueTypes(claims) && data.expires > 0 && newValue in store ==>
      s.outcome == Raised(DuplicateRefreshTokenValue)
    ensures s.outcome.Returned? <==>
      SingleOrDefault(claims, NameIdentifier).Single? && UniqueTypes(claims) && data.expires > 0 && newValue !in store
    ensures s.outcome.Returned? ==>
      && s.outcome.value.updatedTokens.value.token.Compact?
      && s.outcome.value.updatedTokens.value.token.jwt.payload.id == jwtId
      && s.outcome.value.updatedTokens.value.token.jwt.payload.expires == now + data.expires
      && s.outcome.value.updatedTokens.value.refreshToken == newValue
      && newValue != presented
      && s.store.Keys == store.Keys + {newValue}
      && s.store[presented] == MarkAsInvalid(store[presented])
      && s.store[newValue] == RefreshToken(newValue, SingleOrDefault(claims, NameIdentifier).value, jwtId, false, now)
      && (forall v :: v in store && v != presented ==> s.store[v] == store[v])
      && GetPrincipalFromExpiredToken(data, s.outcome.value.updatedTokens.value.token) == Returned(Some(claims))
    ensures Evolves(store, s.store)
    ensures KeyedByValue(store) ==> KeyedByValue(s.store)
  {
    match SingleOrDefault(claims, NameIdentifier)
    case MoreThanOne => Step(Raised(MoreThanOneUserIdClaim), store)
    case NoElement => Step(Raised(MissingUserIdClaim), store)
    case Single(userId) =>
      match Mint(data, userId, claims, jwtId, now)
      case Raised(e) => Step(Raised(e), store)
      case Returned(token) =>
        if newValue in store then Step(Raised(DuplicateRefreshTokenValue), store)
        else
          MergeKeepsClaimsNamingTheUser(userId, claims);
          var created := CreateNewRefreshToken(userId, token.payload.id, newValue, now);
          var tokens := TokenAndRefreshToken(WriteToken(token), newValue);
          Step(Returned(Response(Some(tokens), 200)), Rotated(store, presented, created))
  }

  /**
   * Re-issuing claims that already carry the user's NameIdentifier claim gives back the
   * same claims: the subject claim is shadowed by the dictionary entry of the same type.
   */
  lemma MergeKeepsClaimsNamingTheUser(userId: string, claims: seq<Claim>)
    requires Claim(NameIdentifier, userId) in claims
    ensures MergeClaims([Claim(NameIdentifier, userId)], claims) == claims
  {
    var subject := [Claim(NameIdentifier, userId)];
    var k :| 0 <= k < |claims| && claims[k] == subject[0];
    assert HasType(claims, subject[0].claimType);
    assert Unshadowed(subject[1..], claims) == [];
  }

  /**
   * TokenBuilder: the configured options and the RefreshTokens table of the database
   * context it writes to.
   */
  class TokenBuilder {
    const jwtData: JwtData
    var refreshTokens: Store

    /** The table's primary key is the token value. */
    ghost predicate Valid()
      reads this
    {
      KeyedByValue(refreshTokens)
    }

    constructor(jwtData: JwtData, refreshTokens: Store)
      requires KeyedByValue(refreshTokens)
      ensures Valid()
      ensures this.jwtData == jwtData && this.refreshTokens == refreshTokens
    {
      this.jwtData := jwtData;
      this.refreshTokens := refreshTokens;
    }

    /**
     * GenerateJwtTokenAsync: a signed token whose principal is the user's claims and
     * NameIdentifier claim. It has no modifies clause: the table is not touched.
     */
    method GenerateJwtToken(userId: string, claims: seq<Claim>, jwtId: string, now: int) returns (r: Outcome<TokenString>)
      ensures r.Raised? <==> !UniqueTypes(claims) || jwtData.expires <= 0
      ensures !UniqueTypes(claims) ==> r == Raised(DuplicateClaimType)
      ensures UniqueTypes(claims) && jwtData.expires <= 0 ==> r == Raised(ExpiresNotAfterNotBefore)
      ensures r.Returned? ==> r.value.Compact? && r.value.jwt.payload.id == jwtId
      ensures r.Returned? ==> r.value.jwt.payload.expires == now + jwtData.expires
      ensures r.Returned? ==>
        GetPrincipalFromExpiredToken(jwtData, r.value) == Returned(Some(MergeClaims([Claim(NameIdentifier, userId)], claims)))
    {
      var tokenAndDesc := GenerateJwtTokenHandler(jwtData, userId, claims, now);
      if tokenAndDesc.Raised? {
        return Raised(tokenAndDesc.exception);
      }
      if !LifetimeAccepted(tokenAndDesc.value, now) {
        return Raised(ExpiresNotAfterNotBefore);
      }
      var token := CreateToken(tokenAndDesc.value, jwtId);
      assert Mint(jwtData, userId, claims, jwtId, now) == Returned(token);
      r := Returned(WriteToken(token));
    }

    /** GenerateTokenAndRefreshTokenAsync: one new refresh record is added and saved with the token. */
    method GenerateTokenAndRefreshToken(userId: string, claims: seq<Claim>, jwtId: string, newValue: string, now: int)
      returns (r: Outcome<TokenAndRefreshToken>)
      requires Valid()
      modifies this
      ensures Valid()
      ensures Step(r, refreshTokens) == IssuePair(jwtData, old(refreshTokens), userId, claims, jwtId, newValue, now)
    {
      var tokenAndDesc := GenerateJwtTokenHandler(jwtData, userId, claims, now);
      if tokenAndDesc.Raised? {
        return Raised(tokenAndDesc.exception);
      }
      if !LifetimeAccepted(tokenAndDesc.value, now) {
        return Raised(ExpiresNotAfterNotBefore);
      }
      var token := CreateToken(tokenAndDesc.value, jwtId);
      var refreshToken := CreateNewRefreshToken(userId, token.payload.id, newValue, now);
      // SaveChangesAsync: the insert fails as a whole on a duplicate primary key
      if refreshToken.tokenValue in refreshTokens {
        return Raised(DuplicateRefreshTokenValue);
      }
      refreshTokens := refreshTokens[refreshToken.tokenValue := refreshToken];
      r := Returned(TokenAndRefreshToken(WriteToken(token), refreshToken.tokenValue));
    }

    /**
     * RefreshTokenUsingRefreshTokenAsync: the checks in order, each returning early; on
     * success the presented record is marked invalid and its replacement added, and both
     * changes are saved together.
     */
    method RefreshTokenUsingRefreshToken(tokenAndRefresh: TokenAndRefreshToken, jwtId: string, newValue: string, now: int)
      returns (r: Outcome<Response>)
      requires Valid()
      modifies this
      ensures Valid()
      ensures Step(r, refreshTokens) == Refresh(jwtData, old(refreshTokens), tokenAndRefresh, jwtId, newValue, now)
    {
      var claimsPrincipal := GetPrincipalFromExpiredToken(jwtData, tokenAndRefresh.token);
      if claimsPrincipal.Raised? {
        return Raised(claimsPrincipal.exception);
      }
      if claimsPrincipal.value.None? {
        return Returned(BadRequest);
      }
      var claims := claimsPrincipal.value.value;

      if tokenAndRefresh.refreshToken !in refreshTokens {
        return Returned(BadRequest);
      }
      var refreshTokenFromDb := refreshTokens[tokenAndRefresh.refreshToken];
      if refreshTokenFromDb.isInvalid {
        return Returned(Unauthorized);
      }
      if refreshTokenFromDb.addedDateUtc + jwtData.refreshTokenExpires < now {
        return Returned(Unauthorized);
      }

      var userId := SingleOrDefault(claims, NameIdentifier);
      if userId.MoreThanOne? {
        return Raised(MoreThanOneUserIdClaim);
      }
      if userId.NoElement? {
        return Raised(MissingUserIdClaim);
      }
      var tokenAndDesc := GenerateJwtTokenHandler(jwtData, userId.value, claims, now);
      if tokenAndDesc.Raised? {
        return Raised(tokenAndDesc.exception);
      }
      if !LifetimeAccepted(tokenAndDesc.value, now) {
        return Raised(ExpiresNotAfterNotBefore);
      }
      var token := CreateToken(tokenAndDesc.value, jwtId);
      assert Mint(jwtData, userId.value, claims, jwtId, now) == Returned(token);
      var retired := MarkAsInvalid(refreshTokenFromDb);
      var newRefreshToken := CreateNewRefreshToken(userId.value, token.payload.id, newValue, now);
      // SaveChangesAsync: the update and the insert are saved together or not at all
      if newRefreshToken.tokenValue in refreshTokens {
        return Raised(DuplicateRefreshTokenValue);
      }
      refreshTokens := refreshTokens[refreshTokenFromDb.tokenValue := retired][newRefreshToken.tokenValue := newRefreshToken];
      assert refreshTokens == Rotated(old(refreshTokens), tokenAndRefresh.refreshToken, newRefreshToken);
      r := Returned(Response(Some(TokenAndRefreshToken(WriteToken(token), newRefreshToken.tokenValue)), 200));
    }
  }

}
