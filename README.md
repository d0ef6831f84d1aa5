# JWT refresh-token rotation of AuthPermissions.AspNetCore

This project models the `TokenBuilder` of AuthPermissions.AspNetCore in Dafny and proves
properties of that model. `TokenBuilder` issues JWT access tokens. It pairs each token with a
refresh token stored in the `RefreshTokens` table. It rotates a refresh token every time
the token is used.

- `JwtCodec` (jwt_codec.dfy) is a symbolic model of the JWT library calls that the builder
  makes: `CreateToken`, `WriteToken` and `ValidateToken`. An HMAC signature is the value
  `Mac(key, header, payload)`, so a signature verifies only when it was made with the same
  key over the same header and payload. The library writes the
  `HmacSha256Signature` algorithm into the header as `HS256`. That is why the
  builder's own tokens pass the `HS256` check in `GetPrincipalFromExpiredToken`.
- `DataClasses` (refresh_token.dfy) holds the `RefreshToken` entity and the table, a
  `map` from token value to record. It also holds `CreateNewRefreshToken`,
  `MarkAsInvalid`, the single save of a rotation (`Rotated`) and `Evolves`, which
  describes how the table may change: records are never deleted and are changed only by
  being retired.
- `JwtTokenCode` (token_builder.dfy) has the builder's pure parts as functions:
  `GenerateJwtTokenHandler` and `GetPrincipalFromExpiredToken`. Each operation that uses the
  table has a specification function: `IssuePair` and `Refresh`. The class `TokenBuilder`
  holds the `refreshTokens` field. Its methods run the source's steps in order and are
  proved equal to those functions.
- `RefreshRotation` (refresh_rotation.dfy) contains properties that span several calls.
  Over any sequence of issues and refreshes, a refresh value is honoured at most once. A
  value that has been honoured gets 401 when presented again. A newly issued pair can be
  refreshed into a token with the same claims, registered claims aside (see "## Left out").

Outcomes follow the source:
- `Returned(Response(None, 400))`: the token failed the algorithm check, or the refresh
  value is unknown.
- `Returned(Response(None, 401))`: the record is already retired or has expired.
- `Returned(Response(Some(pair), 200))`: success.
- `Raised(...)`: an exception left the method. Causes: the library rejected the token
  (bad signature, wrong issuer or audience, unsupported algorithm, malformed text); the
  token has no `NameIdentifier` claim; the token has several `NameIdentifier` claims
  (`SingleOrDefault`); a claim type is repeated (`ToDictionary`); the library's
  `CreateToken` refuses an expiry that is not after the creation time (a configured
  `Expires` of zero or less); or the new refresh value collides with an existing key in
  `SaveChangesAsync`.
- Every failure leaves the table unchanged.

Inputs from outside the builder become parameters:
- the clock `DateTime.UtcNow` is `now`, in ticks;
- whatever `token.Id` of a newly built token is (the descriptor carries no `jti` claim, so
  in practice it is null, which the model renders as any string) is `jwtId`;
- the random value drawn by `RefreshToken.CreateNewRefreshToken` is `newValue`;
- the claims from `IClaimsCalculator.GetClaimsForAuthUser` are `claims`.

A refresh does not check that the presented record belongs to the presented token. The
record's `UserId` and `JwtId` are never compared with the token. `RefreshIgnoresRecordOwner`
states this.

## Model

| member | source | states |
|---|---|---|
| `JwtCodec.AsciiBytes` | AuthPermissions.AspNetCore/JwtTokenCode/TokenBuilder.cs:162 | The signing key is the ASCII encoding of the configured key: same length, ASCII characters kept, every other character becomes `?` |
| `JwtCodec.MergeClaims` | AuthPermissions.AspNetCore/JwtTokenCode/TokenBuilder.cs:165-171 | A token's claims contain every dictionary claim and every subject claim whose type the dictionary does not hold, and nothing else |
| `JwtCodec.ValidateToken` | AuthPermissions.AspNetCore/JwtTokenCode/TokenBuilder.cs:184-196 | The library accepts a token exactly when it parses, its algorithm is a supported HMAC, its MAC was made with the key over its header and payload, and audience and issuer match; it then yields the payload's claims. Lifetime is not checked. Blank issuers and audiences and the trailing-slash audience match are not modelled (see "## Left out") |
| `JwtCodec.CreatedTokenValidates` | AuthPermissions.AspNetCore/JwtTokenCode/TokenBuilder.cs:57-58 | A token built from a descriptor validates against matching parameters and yields its merged claims, whatever its expiry. This holds in the library only for a non-blank issuer and audience (see "## Left out") |
| `JwtCodec.TamperedSignatureRejected` | AuthPermissions.AspNetCore/JwtTokenCode/TokenBuilder.cs:196 | Replacing the signature of a built token makes validation throw |
| `DataClasses.CreateNewRefreshToken` | AuthPermissions.AspNetCore/JwtTokenCode/TokenBuilder.cs:72 | A new record carries the given value, user and token id, is active, and is stamped with the current time |
| `DataClasses.MarkAsInvalid` | AuthPermissions.AspNetCore/JwtTokenCode/TokenBuilder.cs:135 | Retiring sets `IsInvalid` and keeps every other field |
| `DataClasses.Rotated` | AuthPermissions.AspNetCore/JwtTokenCode/TokenBuilder.cs:135-139 | The rotation's one save adds exactly the new key, retires the presented record, leaves every other record unchanged, and keeps the table keyed by value |
| `DataClasses.RetiredStaysRetired` | AuthPermissions.AspNetCore/JwtTokenCode/TokenBuilder.cs:108-113 | Under any allowed change of the table, a retired record stays present and unchanged |
| `DataClasses.EvolvesTransitive` | AuthPermissions.AspNetCore/JwtTokenCode/TokenBuilder.cs:135 | Two allowed changes in a row are one allowed change, because retiring twice is retiring once |
| `JwtTokenCode.ToDictionary` | AuthPermissions.AspNetCore/JwtTokenCode/TokenBuilder.cs:171 | Building the claim dictionary succeeds exactly when no claim type repeats, and then keeps the claims |
| `JwtTokenCode.ValuesOfType` | AuthPermissions.AspNetCore/JwtTokenCode/TokenBuilder.cs:125 | The values of the claims of a type: empty exactly when no claim has that type, two or more exactly when two claims have it, each value from such a claim and every such claim's value present, at most one when types are unique |
| `JwtTokenCode.SingleOrDefault` | AuthPermissions.AspNetCore/JwtTokenCode/TokenBuilder.cs:125 | No user id exactly when no claim has the type; several (the throwing case) exactly when two claims have it; a single user id is the value of such a claim; with unique types a present claim gives a single id |
| `JwtTokenCode.GenerateJwtTokenHandler` | AuthPermissions.AspNetCore/JwtTokenCode/TokenBuilder.cs:158-174 | Throws exactly when claim types repeat. Otherwise the descriptor has the subject `NameIdentifier`=userId, the configured issuer and audience, expiry now+Expires, HMAC-SHA256 over the ASCII key, and the claims as its dictionary |
| `JwtTokenCode.OnlyHmacSha256MatchesIgnoringCase` | AuthPermissions.AspNetCore/JwtTokenCode/TokenBuilder.cs:199-200 | Among the algorithms the library accepts, only `HS256` itself equals `HS256` ignoring case |
| `JwtTokenCode.GetPrincipalFromExpiredToken` | AuthPermissions.AspNetCore/JwtTokenCode/TokenBuilder.cs:182-204 | Throws exactly when the library rejects the token. Null exactly when the library accepts a token whose header names an HMAC algorithm other than `HS256`. Otherwise returns the token's claims, exactly when it is well-formed, `HS256`, correctly signed and for the configured issuer and audience. No clock is read |
| `JwtTokenCode.Mint` | AuthPermissions.AspNetCore/JwtTokenCode/TokenBuilder.cs:56-57 | Throws `DuplicateClaimType` exactly when claim types repeat, and otherwise the expiry error exactly when `Expires` is not positive. Otherwise the token has the given id and expiry now+Expires, and validating it yields the claims plus `NameIdentifier`=userId |
| `JwtTokenCode.IssuePair` | AuthPermissions.AspNetCore/JwtTokenCode/TokenBuilder.cs:66-81 | Succeeds exactly when claim types are unique, `Expires` is positive and the new value is not yet a key; each failure raises its own exception (repeated type, then lifetime, then key collision) and leaves the table unchanged. On success the returned token carries the given id and expiry now+Expires, exactly one record is added (value, user, that token id, active, now), the returned refresh value is its key, other records are unchanged, and the returned token validates to the user's claims |
| `JwtTokenCode.Refresh` | AuthPermissions.AspNetCore/JwtTokenCode/TokenBuilder.cs:88-146 | Checks run in order: token, then lookup, then retired flag, then expiry. The first failure decides the result (library exception; 400; 400; 401; 401 for strictly past `AddedDateUtc + RefreshTokenExpires`), and the table is unchanged. After the checks: no user claim throws, several throw, then a repeated claim type, a non-positive `Expires` and a key collision each throw their own exception, all before any change. 200 exactly when all checks pass, one user is named, claim types are unique, `Expires` is positive and the new value is free. Then the returned token carries the given id and expiry now+Expires, the presented record is retired and one active record for the named user and that token id is added under the returned value. All other records are unchanged, and the new token carries the same claims, registered claims aside. The table changes only on 200 |
| `JwtTokenCode.Rotate` | AuthPermissions.AspNetCore/JwtTokenCode/TokenBuilder.cs:123-145 | After the checks: throws on a missing or repeated user claim, a repeated claim type, a non-positive `Expires` or a key collision, each with its own exception, leaving the table unchanged. Otherwise returns a token with the given id and expiry now+Expires and the same claims (registered claims aside), retires the presented record and adds the replacement bound to that token id |
| `JwtTokenCode.MergeKeepsClaimsNamingTheUser` | AuthPermissions.AspNetCore/JwtTokenCode/TokenBuilder.cs:132 | Re-issuing claims that already name the user gives back exactly those claims |
| `JwtTokenCode.TokenBuilder.constructor` | AuthPermissions.AspNetCore/JwtTokenCode/TokenBuilder.cs:37-46 | The builder holds the given options and table |
| `JwtTokenCode.TokenBuilder.GenerateJwtToken` | AuthPermissions.AspNetCore/JwtTokenCode/TokenBuilder.cs:53-59 | Throws exactly when claim types repeat or `Expires` is not positive, with the matching exception. Otherwise returns a token with the given id and expiry that validates to the claims plus `NameIdentifier`=userId. It cannot change the table (no modifies clause) |
| `JwtTokenCode.TokenBuilder.GenerateTokenAndRefreshToken` | AuthPermissions.AspNetCore/JwtTokenCode/TokenBuilder.cs:66-81 | Result and new table are those of `IssuePair`, and the table stays keyed by value |
| `JwtTokenCode.TokenBuilder.RefreshTokenUsingRefreshToken` | AuthPermissions.AspNetCore/JwtTokenCode/TokenBuilder.cs:88-146 | Result and new table are those of `Refresh`, and the table stays keyed by value |
| `RefreshRotation.RunEvolves` | AuthPermissions.AspNetCore/JwtTokenCode/TokenBuilder.cs:132-139 | Over any sequence of issues and refreshes, no record is deleted, records change only by being retired, and the table stays keyed by value |
| `RefreshRotation.RetiredValueNeverHonoured` | AuthPermissions.AspNetCore/JwtTokenCode/TokenBuilder.cs:108-113 | A retired refresh value gets 200 from no later refresh |
| `RefreshRotation.RefreshValueSingleUse` | AuthPermissions.AspNetCore/JwtTokenCode/TokenBuilder.cs:108-139 | Over any sequence of calls, a refresh value gets 200 at most once |
| `RefreshRotation.ReplayIsUnauthorized` | AuthPermissions.AspNetCore/JwtTokenCode/TokenBuilder.cs:108-113 | A retired refresh value, presented after any further calls with an accepted token, returns 401 and changes nothing. A refresh that returns 200 retires the value it was given (see `Refresh`), so a replay gets 401 |
| `RefreshRotation.IssuedPairRefreshes` | AuthPermissions.AspNetCore/JwtTokenCode/TokenBuilder.cs:66-145 | With a positive `Expires`, a newly issued pair refreshes with 200 at any time up to and including `AddedDateUtc + RefreshTokenExpires`. The refresh returns the new value and a token with the issued token's claims, registered claims aside. Presenting the issued pair again after any further calls returns 401 |
| `RefreshRotation.RefreshIgnoresRecordOwner` | AuthPermissions.AspNetCore/JwtTokenCode/TokenBuilder.cs:99-137 | With a positive `Expires`, an active, unexpired record of any user, presented with a token minted for a user, returns 200 and is replaced by a record for the token's user |
| `RefreshRotation.NameIdentifierAdded` | AuthPermissions.AspNetCore/JwtTokenCode/TokenBuilder.cs:165 | Claims without a user claim, issued for a user, gain exactly that user's `NameIdentifier` claim at the front, keep unique types, and name that user |

## Left out

- JWT compact serialisation (base64url, RFC 7519) and HMAC-SHA256 itself (section 3.2 of RFC 7518) are not modelled. A signature is a symbolic value, and a signature check succeeds exactly when the key, header and payload match.
- The registered claims that the library adds to a principal (`iss`, `aud`, `exp`, `nbf`, `iat`, `jti`) are not modelled. Neither are its inbound and outbound claim-type maps. A principal's claims are the payload's claim list.
- JwtCodec.ValidateToken: the library's issuer and audience validators are modelled as plain string equality. The library throws when the configured `Issuer` or `Audience`, or the token's issuer, is null or whitespace, and it leaves `iss` out of a token whose descriptor has an empty issuer. It also accepts a token audience that differs from the configured one only by a trailing `/`. None of this is modelled. So `JwtCodec.CreatedTokenValidates` and the round-trip clauses of `JwtTokenCode.Mint`, `JwtTokenCode.IssuePair`, `JwtTokenCode.TokenBuilder.GenerateJwtToken`, `RefreshRotation.IssuedPairRefreshes` and `RefreshRotation.RefreshIgnoresRecordOwner` hold for the library only when `Issuer` and `Audience` are not blank.
- Because of that, a refresh is not shown to copy the old token's registered claims into the new token. TokenBuilder.cs:132 passes all of the validated principal's claims to `GenerateJwtTokenHandler`, and :171 puts them into the new token's claim dictionary. The model's claims after a refresh are the old token's claims minus these registered claims. So the model cannot tell whether a second refresh in a rotation chain succeeds: the library may then meet a repeated `aud` claim in `ToDictionary` and throw.
- JwtCodec.EqualsIgnoreCase: only ASCII case folding is modelled, not the full `InvariantCultureIgnoreCase` comparison. It is used only against `HS256`.
- JwtTokenCode.ValuesOfType: the order of the values is not stated, only which values occur and how many (none, one, several), which is all `SingleOrDefault` uses.
- The library's minimum key size for HMAC signing is not modelled. A short key is accepted.
- The `RefreshTokens` table is a map with exact string keys. A database whose collation compares `TokenValue` without regard to case (SQL Server's default) would also treat values differing only in case as the same key; that is not modelled.
- The `jwtSecurityToken == null` half of the check at TokenBuilder.cs:199 is not modelled. The library always returns a `JwtSecurityToken`.
- `IClaimsCalculator.GetClaimsForAuthUser` is an outside collaborator. Its result is the `claims` parameter, and its own failures are not modelled.
- The random generation inside `RefreshToken.CreateNewRefreshToken` is not modelled, because that code is not part of this model. The value is the `newValue` parameter. A collision with an existing key is modelled as the failed save it would cause.
- The clock is not modelled. One `now` is used for a whole call, although the source reads `DateTime.UtcNow` separately at the expiry check, at the token's expiry and at the record's creation.
- `DateTime.Add` overflow past `DateTime.MaxValue` is not modelled. Time is an unbounded integer.
- The unique index on `AddedDateUtc` in the migration is not modelled. Two records created at the same instant would make the save fail.
- Logging, async/await and EF Core change tracking are not modelled. Each `SaveChangesAsync` is one atomic map update.
- Concurrent refreshes of the same value are not modelled. Calls run one after another.
- The dependency-injection wiring and the example application are not modelled.
