/**
 * services/auth.go: login, registration and refresh-token rotation over the
 * user directory and the Redis token store. Each step's outside answer (a
 * store failure, the hasher, the random bytes) comes in through `Env`; the
 * clock is the parameter `now` in seconds.
 */
module AuthService {
  import opened Wrappers
  import opened Errors
  import opened Users
  import opened Passwords
  import opened Hex
  import opened Jwt
  import opened TokenStore
  import opened Records

  /** Seven days, the refresh-token lifetime, in seconds. */
  const RefreshTokenLifetime: int := 7 * 24 * 3600

  /** The deterministic cryptography the service is configured with: bcrypt comparison and HS256 signing. */
  datatype Crypto = Crypto(compare: Comparator, sign: Signer)

  /** `models.AuthCredentials`. */
  datatype AuthCredentials = AuthCredentials(email: string, password: string)

  /** `models.AuthResponse`. */
  datatype AuthResponse = AuthResponse(accessToken: string, refreshToken: string, user: User)

  /**
   * What the world answers during one service call: a failure of each kind
   * of store call (`None`: the call reaches its backend), this call's bcrypt
   * hasher, and the bytes crypto/rand yields.
   */
  datatype Env = Env(
    userLookupFault: Option<string>,
    userInsertFault: Option<string>,
    tokenLookupFault: Option<string>,
    tokenRevokeFault: Option<string>,
    tokenSaveFault: Option<string>,
    hasher: Hasher,
    entropy: Result<seq<byte>, string>)

  class AuthService {
    const userRepo: UserDirectory
    const tokenRepo: RedisTokenRepository
    const jwt: JwtWrapper
    const crypto: Crypto

    constructor (userRepo: UserDirectory, tokenRepo: RedisTokenRepository, jwt: JwtWrapper, crypto: Crypto)
      ensures this.userRepo == userRepo && this.tokenRepo == tokenRepo
      ensures this.jwt == jwt && this.crypto == crypto
    {
      this.userRepo := userRepo;
      this.tokenRepo := tokenRepo;
      this.jwt := jwt;
      this.crypto := crypto;
    }

    /** The tokens `GenerateTokens` gives for a user. */
    function IssueFor(u: User, now: int, entropy: Result<seq<byte>, string>): Issue {
      Issued(jwt, u.id, u.email, RoleName(u.role), now, crypto.sign, entropy)
    }

    /** The refresh-token record the service stores for a user. */
    function RecordFor(u: User, token: string, now: int): TokenStore.RefreshToken {
      TokenStore.RefreshToken(u.id, token, now + RefreshTokenLifetime)
    }

    /** `Login`. Only the token store can change, and only on success. */
    method Login(loginData: AuthCredentials, now: int, env: Env) returns (r: Result<AuthResponse, Error>)
      requires userRepo.Valid()
      modifies tokenRepo
      ensures env.userLookupFault.Some? ==> r == Failure(InternalError)
      ensures env.userLookupFault.None? && !EmailTaken(userRepo.users, loginData.email) ==>
        r == Failure(Sentinel(RecordNotFound))
      ensures var found := FindByEmail(userRepo.users, loginData.email);
        env.userLookupFault.None? && found.Success? ==>
          var issue := IssueFor(found.value, now, env.entropy);
          && (!MatchesHash(loginData.password, found.value.password, crypto.compare) ==>
                r == Failure(Sentinel(InvalidCredentials)))
          && (MatchesHash(loginData.password, found.value.password, crypto.compare) && issue.err.Some? ==>
                r == Failure(InternalError))
          && ((MatchesHash(loginData.password, found.value.password, crypto.compare) && issue.err.None?
                && env.tokenSaveFault.Some?) ==> r == Failure(InternalError))
          && (r.Success? <==>
                MatchesHash(loginData.password, found.value.password, crypto.compare)
                && issue.err.None? && env.tokenSaveFault.None?)
          && (r.Success? ==>
                && r.value == AuthResponse(issue.accessToken, issue.refreshToken, found.value)
                && tokenRepo.kv == Put(old(tokenRepo.kv), RecordFor(found.value, issue.refreshToken, now), now))
      ensures r.Failure? ==> tokenRepo.kv == old(tokenRepo.kv)
      ensures r.Failure? ==>
        r.error in {Sentinel(RecordNotFound), Sentinel(InvalidCredentials), InternalError}
      ensures r.Success? ==> |r.value.refreshToken| == 64 && IsLowerHex(r.value.refreshToken)
    {
      var u := userRepo.GetUserByEmail(loginData.email, env.userLookupFault);
      if u.Failure? {
        if Is(u.error, RecordNotFound) {
          return Failure(Sentinel(RecordNotFound));
        }
        return Failure(InternalError);
      }
      var user := u.value;
      if !MatchesHash(loginData.password, user.password, crypto.compare) {
        return Failure(Sentinel(InvalidCredentials));
      }
      var accessToken, refreshTokenStr, err :=
        GenerateTokens(jwt, user.id, user.email, RoleName(user.role), now, crypto.sign, env.entropy);
      if err.Some? {
        return Failure(InternalError);
      }
      var refreshTokenModel := TokenStore.RefreshToken(user.id, refreshTokenStr, now + RefreshTokenLifetime);
      var saveErr := tokenRepo.Create(refreshTokenModel, now, env.tokenSaveFault);
      if saveErr.Some? {
        return Failure(InternalError);
      }
      IssuedFacts(jwt, user.id, user.email, RoleName(user.role), now, crypto.sign, env.entropy);
      r := Success(AuthResponse(accessToken, refreshTokenStr, user));
    }

    /**
     * `Register`. A successful email lookup refuses the registration; any
     * lookup error lets it proceed. Only the user directory can change, and
     * only on success.
     */
    method Register(registerData: UserDraft, plainPassword: string, env: Env) returns (r: Result<User, Error>)
      requires userRepo.Valid()
      modifies userRepo
      ensures userRepo.Valid()
      ensures env.userLookupFault.None? && EmailTaken(old(userRepo.users), registerData.email) ==>
        r == Failure(Sentinel(UserAlreadyExist))
      ensures (env.userLookupFault.Some? || !EmailTaken(old(userRepo.users), registerData.email)) ==>
        && (plainPassword == "" ==> r == Failure(Sentinel(PasswordEmpty)))
        && (plainPassword != "" && env.hasher(plainPassword).Failure? ==> r == Failure(InternalError))
        && (plainPassword != "" && env.hasher(plainPassword).Success?
              && (env.userInsertFault.Some? || EmailTaken(old(userRepo.users), registerData.email)) ==>
              r == Failure(InternalError))
      ensures r.Success? <==>
        && !EmailTaken(old(userRepo.users), registerData.email)
        && plainPassword != "" && env.hasher(plainPassword).Success?
        && env.userInsertFault.None?
      ensures r.Failure? ==> userRepo.users == old(userRepo.users) && userRepo.nextId == old(userRepo.nextId)
      ensures r.Success? ==>
        && r.value.id == old(userRepo.nextId)
        && userRepo.users == old(userRepo.users)[r.value.id := r.value]
        && r.value.password == env.hasher(plainPassword).value
        && r.value.email == registerData.email && r.value.name == registerData.name
        && r.value.surname == registerData.surname && r.value.birthday == registerData.birthday
        && r.value.role == (if r.value.id == 1 then Manager else registerData.role.GetOr(DefaultRole))
      ensures r.Failure? ==>
        r.error in {Sentinel(UserAlreadyExist), Sentinel(PasswordEmpty), InternalError}
    {
      var existing := userRepo.GetUserByEmail(registerData.email, env.userLookupFault);
      if existing.Success? {
        return Failure(Sentinel(UserAlreadyExist));
      }
      var hashedPassword := HashPassword(plainPassword, env.hasher);
      if hashedPassword.Failure? {
        if Is(hashedPassword.error, PasswordEmpty) {
          return Failure(Sentinel(PasswordEmpty));
        }
        return Failure(InternalError);
      }
      var data := registerData.(password := hashedPassword.value);
      var user := userRepo.RegisterUser(data, env.userInsertFault);
      if user.Failure? {
        return Failure(InternalError);
      }
      r := Success(user.value);
    }

    /**
     * `RefreshToken`: look the old token up, revoke it, then resolve its
     * owner and store a successor. Once revoked, the old token stays revoked
     * on every later path.
     */
    method RefreshToken(oldRefreshToken: string, now: int, env: Env) returns (r: Result<AuthResponse, Error>)
      requires userRepo.Valid()
      modifies tokenRepo
      ensures var stored := Lookup(old(tokenRepo.kv), oldRefreshToken, now);
        env.tokenLookupFault.Some? || stored.Failure? ==>
          r == Failure(Sentinel(InvalidToken)) && tokenRepo.kv == old(tokenRepo.kv)
      ensures var stored := Lookup(old(tokenRepo.kv), oldRefreshToken, now);
        env.tokenLookupFault.None? && stored.Success? && env.tokenRevokeFault.Some? ==>
          r == Failure(InternalError) && tokenRepo.kv == old(tokenRepo.kv)
      ensures var stored := Lookup(old(tokenRepo.kv), oldRefreshToken, now);
        env.tokenLookupFault.None? && stored.Success? && env.tokenRevokeFault.None? ==>
          var owner := Find(userRepo.users, stored.value.userId);
          && (env.userLookupFault.Some? || owner.Failure? ==>
                r == Failure(Sentinel(RecordNotFound))
                && tokenRepo.kv == Delete(old(tokenRepo.kv), oldRefreshToken))
          && (env.userLookupFault.None? && owner.Success? ==>
                var issue := IssueFor(owner.value, now, env.entropy);
                && (issue.err.Some? || env.tokenSaveFault.Some? ==>
                      r == Failure(InternalError)
                      && tokenRepo.kv == Delete(old(tokenRepo.kv), oldRefreshToken))
                && (issue.err.None? && env.tokenSaveFault.None? ==>
                      && r == Success(AuthResponse(issue.accessToken, issue.refreshToken, owner.value))
                      && r.value.user.id == stored.value.userId
                      && tokenRepo.kv == Put(Delete(old(tokenRepo.kv), oldRefreshToken),
                                             RecordFor(owner.value, issue.refreshToken, now), now)))
      ensures r.Failure? ==>
        r.error in {Sentinel(InvalidToken), Sentinel(RecordNotFound), InternalError}
      ensures r.Success? && r.value.refreshToken != oldRefreshToken ==>
        forall later :: Lookup(tokenRepo.kv, oldRefreshToken, later) == Failure(Sentinel(InvalidToken))
    {
      var storedToken := tokenRepo.GetByToken(oldRefreshToken, now, env.tokenLookupFault);
      if storedToken.Failure? {
        return Failure(Sentinel(InvalidToken));
      }
      var revokeErr := tokenRepo.Revoke(oldRefreshToken, env.tokenRevokeFault);
      if revokeErr.Some? {
        return Failure(InternalError);
      }
      var u := userRepo.GetUserByUserID(storedToken.value.userId, env.userLookupFault);
      if u.Failure? {
        return Failure(Sentinel(RecordNotFound));
      }
      var user := u.value;
      var newAccess, newRefresh, err :=
        GenerateTokens(jwt, user.id, user.email, RoleName(user.role), now, crypto.sign, env.entropy);
      if err.Some? {
        return Failure(InternalError);
      }
      var newTokenModel := TokenStore.RefreshToken(user.id, newRefresh, now + RefreshTokenLifetime);
      var saveErr := tokenRepo.Create(newTokenModel, now, env.tokenSaveFault);
      if saveErr.Some? {
        return Failure(InternalError);
      }
      r := Success(AuthResponse(newAccess, newRefresh, user));
      if newRefresh != oldRefreshToken {
        forall later | true
          ensures Lookup(tokenRepo.kv, oldRefreshToken, later) == Failure(Sentinel(InvalidToken))
        {
          SpentStaysSpent(old(tokenRepo.kv), oldRefreshToken, newTokenModel, now, later);
        }
      }
    }
  }

  /**
   * Rotation is single use: after a successful refresh that drew a new
   * value, refreshing again with the old value fails with `ErrInvalidToken`,
   * at any later time and whatever the second call's environment.
   */
  method RefreshIsSingleUse(s: AuthService, token: string, now: int, later: int, env1: Env, env2: Env)
    returns (first: Result<AuthResponse, Error>, second: Result<AuthResponse, Error>)
    requires s.userRepo.Valid()
    modifies s.tokenRepo
    ensures first.Success? && first.value.refreshToken != token ==> second == Failure(Sentinel(InvalidToken))
  {
    first := s.RefreshToken(token, now, env1);
    second := s.RefreshToken(token, later, env2);
  }

  /**
   * Register then log in with the same password, with a bcrypt comparison
   * that accepts the hash it was given and a reachable directory: the login
   * can fail only with `InternalError` (signing, randomness or Redis), and a
   * login that succeeds returns the registered user.
   */
  method RegisterThenLogin(s: AuthService, draft: UserDraft, plain: string, now: int, env1: Env, env2: Env)
    returns (registered: Result<User, Error>, login: Result<AuthResponse, Error>)
    requires s.userRepo.Valid()
    requires env1.hasher(plain).Success? ==> s.crypto.compare(env1.hasher(plain).value, plain).None?
    requires env2.userLookupFault.None?
    modifies s.userRepo, s.tokenRepo
    ensures registered.Success? ==> login.Success? || login == Failure(InternalError)
    ensures registered.Success? && login.Success? ==> login.value.user == registered.value
  {
    registered := s.Register(draft, plain, env1);
    if registered.Success? {
      s.userRepo.FindByEmailIsOwner(registered.value.id, draft.email);
    }
    login := s.Login(AuthCredentials(draft.email, plain), now, env2);
  }
}
