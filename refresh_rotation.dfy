/**
 * What the refresh-token rotation guarantees across calls: whatever sequence of
 * token-pair issues and refreshes reaches the table, a refresh value is honoured at most
 * once, a value that was honoured is afterwards answered with 401, and a freshly
 * issued pair can be refreshed into a token carrying the same claims (the registered
 * claims the library adds are not part of this model).
 */
module RefreshRotation {
  import opened Wrappers
  import opened JwtCodec
  import opened DataClasses
  import opened JwtTokenCode

  /** A call of the token builder that writes to the refresh-token table, with its inputs. */
  datatype Call =
    | IssuePairCall(userId: string, claims: seq<Claim>, jwtId: string, newValue: string, now: int)
    | RefreshCall(request: TokenAndRefreshToken, jwtId: string, newValue: string, now: int)

  ghost function Next(data: JwtData, store: Store, c: Call): Store
  {
    match c
    case IssuePairCall(userId, claims, jwtId, newValue, now) => IssuePair(data, store, userId, claims, jwtId, newValue, now).store
    case RefreshCall(request, jwtId, newValue, now) => Refresh(data, store, request, jwtId, newValue, now).store
  }

  /** The table after the calls, one after another. */
  ghost function Run(data: JwtData, store: Store, calls: seq<Call>): Store
    decreases |calls|
  {
    if calls == [] then store else Run(data, Next(data, store, calls[0]), calls[1..])
  }

  /** The call is a refresh presenting `v` that answers 200. */
  ghost predicate Honours(data: JwtData, store: Store, c: Call, v: string)
  {
    && c.RefreshCall?
    && c.request.refreshToken == v
    && var s := Refresh(data, store, c.request, c.jwtId, c.newValue, c.now);
       s.outcome.Returned? && s.outcome.value.httpStatusCode == 200
  }

  /** How many of the calls are refreshes presenting `v` that answer 200. */
  ghost function Honoured(data: JwtData, store: Store, calls: seq<Call>, v: string): nat
    decreases |calls|
  {
    if calls == [] then 0
    else
      (if Honours(data, store, calls[0], v) then 1 else 0) + Honoured(data, Next(data, store, calls[0]), calls[1..], v)
  }

  /** No sequence of calls deletes a record or changes one except by retiring it. */
  lemma {:induction false} RunEvolves(data: JwtData, store: Store, calls: seq<Call>)
    ensures Evolves(store, Run(data, store, calls))
    ensures KeyedByValue(store) ==> KeyedByValue(Run(data, store, calls))
    decreases |calls|
  {
    if calls != [] {
      var next := Next(data, store, calls[0]);
      RunEvolves(data, next, calls[1..]);
      EvolvesTransitive(store, next, Run(data, next, calls[1..]));
    }
  }

  /** A retired refresh value is never honoured again, whatever calls follow. */
  lemma {:induction false} RetiredValueNeverHonoured(data: JwtData, store: Store, calls: seq<Call>, v: string)
    requires v in store && store[v].isInvalid
    ensures Honoured(data, store, calls, v) == 0
    decreases |calls|
  {
    if calls != [] {
      var next := Next(data, store, calls[0]);
      RetiredStaysRetired(store, next, v);
      RetiredValueNeverHonoured(data, next, calls[1..], v);
    }
  }

  /** Single use: over any sequence of calls, a refresh value is honoured at most once. */
  lemma {:induction false} RefreshValueSingleUse(data: JwtData, store: Store, calls: seq<Call>, v: string)
    ensures Honoured(data, store, calls, v) <= 1
    decreases |calls|
  {
    if calls != [] {
      var next := Next(data, store, calls[0]);
      if Honours(data, store, calls[0], v) {
        RetiredValueNeverHonoured(data, next, calls[1..], v);
      } else {
        RefreshValueSingleUse(data, next, calls[1..], v);
      }
    }
  }

  /**
   * Replay detection: a retired refresh value (a successful refresh retires the value it
   * was given), presented after any further calls with any token the checks accept, is
   * answered with 401 and changes nothing.
   */
  lemma ReplayIsUnauthorized(data: JwtData, store: Store, calls: seq<Call>, request: TokenAndRefreshToken, jwtId: string, newValue: string, now: int)
    requires request.refreshToken in store && store[request.refreshToken].isInvalid
    requires AcceptedIgnoringExpiry(data, request.token)
    ensures var later := Run(data, store, calls);
      Refresh(data, later, request, jwtId, newValue, now) == Step(Returned(Unauthorized), later)
  {
    RunEvolves(data, store, calls);
    RetiredStaysRetired(store, Run(data, store, calls), request.refreshToken);
  }

  /**
   * End to end: a pair just issued for a user can be refreshed at any time up to and
   * including the end of the refresh token's lifetime. The refresh answers 200 with the
   * new value and a token whose claims are those of the issued token, registered claims
   * aside. Presenting the issued pair again, after any further calls, is answered with 401.
   */
  lemma IssuedPairRefreshes(
    data: JwtData, store: Store, userId: string, claims: seq<Claim>, jwtId: string, newValue: string, now: int,
    jwtId2: string, newValue2: string, now2: int,
    calls: seq<Call>, jwtId3: string, newValue3: string, now3: int)
    requires UniqueTypes(claims) && !HasType(claims, NameIdentifier) && data.expires > 0
    requires newValue !in store && newValue2 !in store && newValue2 != newValue
    requires now2 <= now + data.refreshTokenExpires
    ensures var issued := IssuePair(data, store, userId, claims, jwtId, newValue, now);
      && issued.outcome.Returned?
      && var refreshed := Refresh(data, issued.store, issued.outcome.value, jwtId2, newValue2, now2);
      && refreshed.outcome.Returned?
      && refreshed.outcome.value.httpStatusCode == 200
      && refreshed.outcome.value.updatedTokens.value.refreshToken == newValue2
      && GetPrincipalFromExpiredToken(data, refreshed.outcome.value.updatedTokens.value.token)
         == GetPrincipalFromExpiredToken(data, issued.outcome.value.token)
      && var later := Run(data, refreshed.store, calls);
      Refresh(data, later, issued.outcome.value, jwtId3, newValue3, now3) == Step(Returned(Unauthorized), later)
  {
    NameIdentifierAdded(userId, claims);
    var issued := IssuePair(data, store, userId, claims, jwtId, newValue, now);
    var refreshed := Refresh(data, issued.store, issued.outcome.value, jwtId2, newValue2, now2);
    ReplayIsUnauthorized(data, refreshed.store, calls, issued.outcome.value, jwtId3, newValue3, now3);
  }

  /**
   * A refresh does not compare the presented record with the presented token: an active,
   * unexpired record of one user, presented with a token minted for another user, is
   * retired and replaced by a record for the token's user.
   */
  lemma RefreshIgnoresRecordOwner(
    data: JwtData, store: Store, userId: string, claims: seq<Claim>, jwtId: string, mintedAt: int,
    presented: string, jwtId2: string, newValue: string, now: int)
    requires UniqueTypes(claims) && !HasType(claims, NameIdentifier) && data.expires > 0
    requires presented in store && !store[presented].isInvalid
    requires now <= store[presented].addedDateUtc + data.refreshTokenExpires
    requires newValue !in store
    ensures Mint(data, userId, claims, jwtId, mintedAt).Returned?
    ensures var request := TokenAndRefreshToken(WriteToken(Mint(data, userId, claims, jwtId, mintedAt).value), presented);
      var s := Refresh(data, store, request, jwtId2, newValue, now);
      && s.outcome.Returned?
      && s.outcome.value.httpStatusCode == 200
      && s.store[newValue].userId == userId
  {
    NameIdentifierAdded(userId, claims);
  }

  /** Claims without a NameIdentifier claim, re-issued for a user, name exactly that user. */
  lemma NameIdentifierAdded(userId: string, claims: seq<Claim>)
    requires UniqueTypes(claims) && !HasType(claims, NameIdentifier)
    ensures var merged := MergeClaims([Claim(NameIdentifier, userId)], claims);
      && merged == [Claim(NameIdentifier, userId)] + claims
      && UniqueTypes(merged)
      && SingleOrDefault(merged, NameIdentifier) == Single(userId)
  {
    var subject := Claim(NameIdentifier, userId);
    var merged := MergeClaims([subject], claims);
    assert Unshadowed([subject], claims) == [subject] by {
      assert Unshadowed([subject][1..], claims) == [];
    }
    assert merged == [subject] + claims;
    assert UniqueTypes(merged) by {
      forall i, j | 0 <= i < j < |merged|
        ensures merged[i].claimType != merged[j].claimType
      {
        if i == 0 {
          assert merged[j] == claims[j - 1];
        }
      }
    }
    assert merged[0].claimType == NameIdentifier;
    UniqueTypesDetermineValue(merged, NameIdentifier, userId, SingleOrDefault(merged, NameIdentifier).value);
  }

  /** With unique claim types, a claim type names one value. */
  lemma UniqueTypesDetermineValue(claims: seq<Claim>, t: string, a: string, b: string)
    requires UniqueTypes(claims)
    requires Claim(t, a) in claims && Claim(t, b) in claims
    ensures a == b
  {
  }

}
