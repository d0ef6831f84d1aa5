/**
 * A symbolic model of the parts of System.IdentityModel.Tokens.Jwt that the token
 * builder calls: building a signed token from a descriptor (CreateToken), writing it
 * out (WriteToken) and validating a presented token (ValidateToken).
 *
 * Cryptography is idealised: an HMAC signature is the datatype value
 * Mac(key, header, payload), so a signature verifies exactly when it was computed
 * with the same key over the same header and payload. Base64url serialisation is
 * not modelled: a well-formed token string is Compact(jwt), anything the library
 * cannot parse is Malformed(text).
 */
module JwtCodec {

  newtype byte = x: int | 0 <= x < 256

  /** Algorithm names of Microsoft.IdentityModel.Tokens.SecurityAlgorithms. */
  const HmacSha256: string := "HS256"
  const HmacSha384: string := "HS384"
  const HmacSha512: string := "HS512"
  const HmacSha256Signature: string := "http://www.w3.org/2001/04/xmldsig-more#hmac-sha256"
  const HmacSha384Signature: string := "http://www.w3.org/2001/04/xmldsig-more#hmac-sha384"
  const HmacSha512Signature: string := "http://www.w3.org/2001/04/xmldsig-more#hmac-sha512"

  /** The algorithms the library can verify with a symmetric key (the comparison is case-sensitive). */
  const SymmetricAlgorithms: set<string> :=
    {HmacSha256, HmacSha384, HmacSha512, HmacSha256Signature, HmacSha384Signature, HmacSha512Signature}

  /** System.Security.Claims.ClaimTypes.NameIdentifier */
  const NameIdentifier: string := "http://schemas.xmlsoap.org/ws/2005/05/identity/claims/nameidentifier"

  datatype Claim = Claim(claimType: string, value: string)

  datatype Header = Header(alg: string)

  datatype Payload = Payload(issuer: string, audience: string, expires: int, id: string, claims: seq<Claim>)

  datatype Signature =
    | Mac(key: seq<byte>, header: Header, payload: Payload)
    | Bytes(raw: seq<byte>)

  datatype Jwt = Jwt(header: Header, payload: Payload, signature: Signature)

  datatype TokenString = Compact(jwt: Jwt) | Malformed(text: string)

  /** SecurityTokenDescriptor: what the token builder asks the library to sign. */
  datatype Descriptor = Descriptor(
    subject: seq<Claim>,
    issuer: string,
    audience: string,
    expires: int,
    key: seq<byte>,
    algorithm: string,
    claims: seq<Claim>)

  /** TokenValidationParameters as the token builder sets them; lifetime is never validated. */
  datatype ValidationParameters = ValidationParameters(validIssuer: string, validAudience: string, signingKey: seq<byte>)

  /** The exceptions ValidateToken throws, one per check. */
  datatype ValidationFailure =
    | MalformedToken
    | AlgorithmNotSupported
    | InvalidSignature
    | InvalidAudience
    | InvalidIssuer

  datatype ValidationResult =
    | Validated(principal: seq<Claim>, token: Jwt)
    | ValidationException(failure: ValidationFailure)

  /** Encoding.ASCII.GetBytes: every character outside ASCII becomes '?' (63). */
  function AsciiBytes(s: string): (b: seq<byte>)
    ensures |b| == |s|
    ensures forall i :: 0 <= i < |s| && s[i] as int < 128 ==> b[i] as int == s[i] as int
    ensures forall i :: 0 <= i < |s| && s[i] as int >= 128 ==> b[i] == 63
  {
    seq(|s|, i requires 0 <= i < |s| => if s[i] as int < 128 then s[i] as int as byte else 63)
  }

  /** The library's outbound algorithm map: the XML-DSig names are written into the header as their JWA short names. */
  function OutboundAlgorithm(alg: string): string
  {
    if alg == HmacSha256Signature then HmacSha256
    else if alg == HmacSha384Signature then HmacSha384
    else if alg == HmacSha512Signature then HmacSha512
    else alg
  }

  predicate HasType(claims: seq<Claim>, t: string)
  {
    exists i :: 0 <= i < |claims| && claims[i].claimType == t
  }

  /** No two claims share a claim type, so ToDictionary over the types succeeds. */
  predicate UniqueTypes(claims: seq<Claim>)
  {
    forall i, j :: 0 <= i < j < |claims| ==> claims[i].claimType != claims[j].claimType
  }

  /** The claims of `subject` whose type is not a key of the dictionary `dict`. */
  function Unshadowed(subject: seq<Claim>, dict: seq<Claim>): (r: seq<Claim>)
    ensures forall c :: c in r <==> c in subject && !HasType(dict, c.claimType)
  {
    if subject == [] then []
    else
      var rest := Unshadowed(subject[1..], dict);
      assert forall c :: c in subject <==> c == subject[0] || c in subject[1..];
      if HasType(dict, subject[0].claimType) then rest
      else [subject[0]] + rest
  }

  /**
   * The payload claims of a token built from a descriptor: the subject's claims, except
   * where the descriptor's claim dictionary holds the same type, followed by the dictionary.
   */
  function MergeClaims(subject: seq<Claim>, dict: seq<Claim>): (r: seq<Claim>)
    ensures forall c :: c in r <==> c in dict || (c in subject && !HasType(dict, c.claimType))
  {
    Unshadowed(subject, dict) + dict
  }

  /**
   * JwtSecurityTokenHandler.CreateToken for a descriptor whose expiry lies after the
   * creation time; `id` is whatever the built token's Id turns out to be.
   */
  function CreateToken(d: Descriptor, id: string): (t: Jwt)
  {
    var header := Header(OutboundAlgorithm(d.algorithm));
    var payload := Payload(d.issuer, d.audience, d.expires, id, MergeClaims(d.subject, d.claims));
    Jwt(header, payload, Mac(d.key, header, payload))
  }

  /**
   * CreateToken stamps NotBefore with the current time, as the descriptor sets none, and
   * throws unless the descriptor's expiry lies strictly after it.
   */
  predicate LifetimeAccepted(d: Descriptor, notBefore: int)
  {
    notBefore < d.expires
  }

  /** JwtSecurityTokenHandler.WriteToken */
  function WriteToken(t: Jwt): TokenString
  {
    Compact(t)
  }

  /**
   * JwtSecurityTokenHandler.ValidateToken with lifetime validation switched off:
   * the signature (and its algorithm), then the audience, then the issuer.
   */
  function ValidateToken(token: TokenString, p: ValidationParameters): (r: ValidationResult)
    ensures r.Validated? <==>
      && token.Compact?
      && token.jwt.header.alg in SymmetricAlgorithms
      && token.jwt.signature == Mac(p.signingKey, token.jwt.header, token.jwt.payload)
      && token.jwt.payload.audience == p.validAudience
      && token.jwt.payload.issuer == p.validIssuer
    ensures r.Validated? ==> r.token == token.jwt && r.principal == token.jwt.payload.claims
  {
    match token
    case Malformed(_) => ValidationException(MalformedToken)
    case Compact(jwt) =>
      if jwt.header.alg !in SymmetricAlgorithms then ValidationException(AlgorithmNotSupported)
      else if jwt.signature != Mac(p.signingKey, jwt.header, jwt.payload) then ValidationException(InvalidSignature)
      else if jwt.payload.audience != p.validAudience then ValidationException(InvalidAudience)
      else if jwt.payload.issuer != p.validIssuer then ValidationException(InvalidIssuer)
      else Validated(jwt.payload.claims, jwt)
  }

  /** A token the library built validates against parameters that agree with its descriptor, whatever its expiry. */
  lemma CreatedTokenValidates(d: Descriptor, id: string, p: ValidationParameters)
    requires d.algorithm in {HmacSha256Signature, HmacSha384Signature, HmacSha512Signature}
    requires d.key == p.signingKey && d.issuer == p.validIssuer && d.audience == p.validAudience
    ensures ValidateToken(WriteToken(CreateToken(d, id)), p) == Validated(MergeClaims(d.subject, d.claims), CreateToken(d, id))
  {
  }

  /** Replacing the signature of a token the library built makes validation throw. */
  lemma TamperedSignatureRejected(d: Descriptor, id: string, p: ValidationParameters, s: Signature)
    requires d.key == p.signingKey
    requires s != CreateToken(d, id).signature
    ensures ValidateToken(Compact(CreateToken(d, id).(signature := s)), p).ValidationException?
  {
  }

  /** ASCII lower-casing, the part of a case-insensitive comparison that matters for algorithm names. */
  function AsciiLower(c: char): char
  {
    if 'A' <= c <= 'Z' then (c as int + 32) as char else c
  }

  /** String.Equals(a, b, StringComparison.InvariantCultureIgnoreCase), restricted to ASCII case folding. */
  predicate EqualsIgnoreCase(a: string, b: string)
  {
    |a| == |b| && forall i :: 0 <= i < |a| ==> AsciiLower(a[i]) == AsciiLower(b[i])
  }

}
