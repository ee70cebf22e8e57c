/**
 * utils/jwt.go: the wrapper's defaults, the access-token claims (JWT claims
 * as in section 4.1 of RFC 7519, signed with HS256 as in section 3.2 of
 * RFC 7518), the random-hex refresh token and the signing-method guard of
 * `ValidateToken`. Signing, parsing and signature checking are handed in as
 * functions; the randomness source is handed in as the bytes it yields.
 */
module Jwt {
  import opened Wrappers
  import opened Errors
  import opened Hex

  /** `JWTWrapper`. `expirationHours` is the access-token lifetime in hours. */
  datatype JwtWrapper = JwtWrapper(secretKey: string, issuer: string, expirationHours: int)

  const DefaultIssuer: string := "ticket-booking-app"
  const SecondsPerHour: int := 3600
  /** Number of random bytes in a refresh token. */
  const RefreshTokenBytes: nat := 32

  /** `NewJWTWrapper`: the given key, the fixed issuer and a one-hour lifetime. */
  function NewJwtWrapper(secretKey: string): (w: JwtWrapper)
    ensures w.secretKey == secretKey
    ensures w.issuer == "ticket-booking-app"
    ensures w.expirationHours == 1
  {
    JwtWrapper(secretKey, DefaultIssuer, 1)
  }

  /** The claim set of an access token: `sub`, `email`, `role`, `iss`, `iat`, `exp` (times in Unix seconds). */
  datatype Claims = Claims(sub: nat, email: string, role: string, iss: string, iat: int, exp: int)

  /** The claims `GenerateTokens` signs, with `iat` and `exp` read from the same clock value `now`. */
  function BuildClaims(w: JwtWrapper, userId: nat, email: string, role: string, now: int): (c: Claims)
    ensures c.sub == userId && c.email == email && c.role == role && c.iss == w.issuer
    ensures c.iat == now && c.exp - c.iat == w.expirationHours * SecondsPerHour
  {
    Claims(userId, email, role, w.issuer, now, now + w.expirationHours * SecondsPerHour)
  }

  /** A wrapper made by `NewJwtWrapper` issues claims for the right subject, from the fixed issuer, valid one hour. */
  lemma DefaultWrapperClaims(key: string, userId: nat, email: string, role: string, now: int)
    ensures var c := BuildClaims(NewJwtWrapper(key), userId, email, role, now);
      && c.sub == userId && c.email == email && c.role == role
      && c.iss == "ticket-booking-app"
      && c.iat == now && c.exp == now + 3600
  {
  }

  /** HS256 signing of a claim set with a key: the compact token, or the library's error text. */
  type Signer = (Claims, string) -> Result<string, string>

  /**
   * What `rand.Read` (an `io.ReadFull` from the system source) reports for an
   * `n`-byte buffer: nothing for an empty buffer, the source's own error,
   * `EOF` when the source yields no byte, `unexpected EOF` when it yields
   * some but fewer than `n`.
   */
  function ReadError(entropy: Result<seq<byte>, string>, n: nat): (r: Option<Error>)
    ensures r.None? <==> n == 0 || (entropy.Success? && |entropy.value| >= n)
    ensures r.Some? && entropy.Success? ==>
      r.value.message == (if |entropy.value| == 0 then "EOF" else "unexpected EOF")
  {
    if n == 0 then None
    else match entropy
      case Failure(e) => Some(Opaque(e))
      case Success(bs) =>
        if |bs| == 0 then Some(Opaque("EOF"))
        else if |bs| < n then Some(Opaque("unexpected EOF"))
        else None
  }

  /** The number of bytes `rand.Read` copies into an `n`-byte buffer. */
  function Copied(entropy: Result<seq<byte>, string>, n: nat): (k: nat)
    ensures k <= n
    ensures entropy.Success? ==> k <= |entropy.value|
    ensures entropy.Failure? ==> k == 0
  {
    if n == 0 then 0
    else match entropy
      case Failure(_) => 0
      case Success(bs) => if |bs| < n then |bs| else n
  }

  /**
   * `rand.Read(buf)`: copies what the source yields into the front of the
   * buffer, at most its length, and leaves the rest of the buffer as it was.
   */
  method RandRead(buf: array<byte>, entropy: Result<seq<byte>, string>) returns (err: Option<Error>)
    modifies buf
    ensures err == ReadError(entropy, buf.Length)
    ensures entropy.Success? ==> var k := Copied(entropy, buf.Length);
      buf[..k] == entropy.value[..k] && buf[k..] == old(buf[k..])
    ensures entropy.Failure? ==> buf[..] == old(buf[..])
    ensures err.None? ==> buf[..] == if buf.Length == 0 then [] else entropy.value[..buf.Length]
  {
    err := ReadError(entropy, buf.Length);
    var k := Copied(entropy, buf.Length);
    for i := 0 to k
      invariant forall j :: 0 <= j < i ==> buf[j] == entropy.value[j]
      invariant forall j :: i <= j < buf.Length ==> buf[j] == old(buf[j])
    {
      buf[i] := entropy.value[i];
    }
  }

  /** `generateRandomHex(n)`: `n` random bytes as `2n` lower-case hex digits, or `""` and the error. */
  method GenerateRandomHex(n: nat, entropy: Result<seq<byte>, string>) returns (s: string, err: Option<Error>)
    ensures err == ReadError(entropy, n)
    ensures err.None? ==> s == (if n == 0 then "" else HexOf(entropy.value[..n])) && |s| == 2 * n && IsLowerHex(s)
    ensures err.Some? ==> s == ""
  {
    var bytes := new byte[n];
    err := RandRead(bytes, entropy);
    if err.Some? {
      return "", err;
    }
    s := EncodeToString(bytes);
  }

  /** The three results of `GenerateTokens`. */
  datatype Issue = Issue(accessToken: string, refreshToken: string, err: Option<Error>)

  /** What `GenerateTokens` returns: sign first, then draw the refresh token; any failure gives `("", "", err)`. */
  function Issued(w: JwtWrapper, userId: nat, email: string, role: string, now: int,
                  sign: Signer, entropy: Result<seq<byte>, string>): (i: Issue)
    ensures i.err.Some? ==> i.accessToken == "" && i.refreshToken == ""
    ensures i.err.None? <==>
      sign(BuildClaims(w, userId, email, role, now), w.secretKey).Success?
      && ReadError(entropy, RefreshTokenBytes).None?
  {
    match sign(BuildClaims(w, userId, email, role, now), w.secretKey)
    case Failure(e) => Issue("", "", Some(Opaque("could not sign token: " + e)))
    case Success(access) =>
      match ReadError(entropy, RefreshTokenBytes)
      case Some(e) => Issue("", "", Some(Error(e.wraps, "could not generate refresh token: " + e.message)))
      case None => Issue(access, HexOf(entropy.value[..RefreshTokenBytes]), None)
  }

  /**
   * What the issued pair is: it succeeds exactly when signing succeeds and the
   * source yields 32 bytes; the access token is the signature of the claims and
   * the refresh token is those 32 bytes as 64 lower-case hex digits; a failure
   * carries two empty strings.
   */
  lemma IssuedFacts(w: JwtWrapper, userId: nat, email: string, role: string, now: int,
                    sign: Signer, entropy: Result<seq<byte>, string>)
    ensures var i := Issued(w, userId, email, role, now, sign, entropy);
      && (i.err.None? <==>
            sign(BuildClaims(w, userId, email, role, now), w.secretKey).Success?
            && entropy.Success? && |entropy.value| >= 32)
      && (i.err.Some? ==> i.accessToken == "" && i.refreshToken == "")
      && (i.err.None? ==>
            && i.accessToken == sign(BuildClaims(w, userId, email, role, now), w.secretKey).value
            && i.refreshToken == HexOf(entropy.value[..32])
            && |i.refreshToken| == 64 && IsLowerHex(i.refreshToken))
  {
    if entropy.Success? && |entropy.value| >= 32 {
      HexOfShape(entropy.value[..32]);
    }
  }

  /** Two issues from different random bytes never share a refresh token. */
  lemma IssuedRefreshTokensDiffer(w: JwtWrapper, userId: nat, email: string, role: string, now: int, sign: Signer,
                                  e1: seq<byte>, e2: seq<byte>)
    requires |e1| >= 32 && |e2| >= 32 && e1[..32] != e2[..32]
    requires sign(BuildClaims(w, userId, email, role, now), w.secretKey).Success?
    ensures Issued(w, userId, email, role, now, sign, Success(e1)).refreshToken
         != Issued(w, userId, email, role, now, sign, Success(e2)).refreshToken
  {
    if HexOf(e1[..32]) == HexOf(e2[..32]) {
      HexOfInjective(e1[..32], e2[..32]);
    }
  }

  /** `GenerateTokens`. */
  method GenerateTokens(w: JwtWrapper, userId: nat, email: string, role: string, now: int,
                        sign: Signer, entropy: Result<seq<byte>, string>)
    returns (accessToken: string, refreshToken: string, err: Option<Error>)
    ensures Issue(accessToken, refreshToken, err) == Issued(w, userId, email, role, now, sign, entropy)
    ensures err.Some? ==> accessToken == "" && refreshToken == ""
  {
    var claims := BuildClaims(w, userId, email, role, now);
    var signed := sign(claims, w.secretKey);
    if signed.Failure? {
      return "", "", Some(Opaque("could not sign token: " + signed.error));
    }
    var e;
    refreshToken, e := GenerateRandomHex(RefreshTokenBytes, entropy);
    if e.Some? {
      return "", "", Some(Error(e.value.wraps, "could not generate refresh token: " + e.value.message));
    }
    accessToken, err := signed.value, None;
  }

  /** The `alg` header values the JWT library knows. */
  datatype Algorithm = HS256 | HS384 | HS512 | RS256 | RS384 | RS512 | ES256 | ES384 | ES512 | PS256 | EdDSA | NoneAlg

  /** The methods of the HMAC family (`*jwt.SigningMethodHMAC`). */
  predicate IsHmac(a: Algorithm) {
    a == HS256 || a == HS384 || a == HS512
  }

  /** The `alg` header text. */
  function AlgName(a: Algorithm): string {
    match a
    case HS256 => "HS256" case HS384 => "HS384" case HS512 => "HS512"
    case RS256 => "RS256" case RS384 => "RS384" case RS512 => "RS512"
    case ES256 => "ES256" case ES384 => "ES384" case ES512 => "ES512"
    case PS256 => "PS256" case EdDSA => "EdDSA" case NoneAlg => "none"
  }

  /** A parsed token: its header's algorithm, its claims and whether it passed verification. */
  datatype Token = Token(alg: Algorithm, claims: Claims, valid: bool)

  /**
   * The parts of `jwt.Parse` outside the modelled file: `parse` decodes the
   * compact form (or fails), `verify` checks the signature with a key and
   * the time claims at a time (`None` when both hold).
   */
  datatype JwtLibrary = JwtLibrary(parse: string -> Result<Token, string>, verify: (Token, string, int) -> Option<string>)

  /** `ValidateToken`: the key function hands the secret out only for an HMAC method. */
  function ValidateToken(w: JwtWrapper, lib: JwtLibrary, tokenString: string, now: int): (r: Result<Token, Error>)
    ensures r.Success? <==>
      && lib.parse(tokenString).Success?
      && IsHmac(lib.parse(tokenString).value.alg)
      && lib.verify(lib.parse(tokenString).value, w.secretKey, now).None?
    ensures r.Success? ==> r.value == lib.parse(tokenString).value.(valid := true)
  {
    match lib.parse(tokenString)
    case Failure(e) => Failure(Opaque(e))
    case Success(t) =>
      if !IsHmac(t.alg) then Failure(Opaque("unexpected signing method: " + AlgName(t.alg)))
      else match lib.verify(t, w.secretKey, now)
        case Some(e) => Failure(Opaque(e))
        case None => Success(t.(valid := true))
  }

  /**
   * A token with a non-HMAC algorithm is rejected whatever the signature
   * check would say: the secret never reaches another algorithm.
   */
  lemma NonHmacRejected(w: JwtWrapper, lib1: JwtLibrary, lib2: JwtLibrary, tokenString: string, now: int)
    requires lib1.parse(tokenString) == lib2.parse(tokenString)
    requires lib1.parse(tokenString).Success? && !IsHmac(lib1.parse(tokenString).value.alg)
    ensures ValidateToken(w, lib1, tokenString, now).Failure?
    ensures ValidateToken(w, lib1, tokenString, now) == ValidateToken(w, lib2, tokenString, now)
  {
  }
}
