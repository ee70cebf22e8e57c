/**
 * The password helpers of models/auth.go. bcrypt itself is not modelled:
 * `GenerateFromPassword` and `CompareHashAndPassword` are handed in as
 * functions.
 */
module Passwords {
  import opened Wrappers
  import opened Errors

  /** `bcrypt.GenerateFromPassword(plain, DefaultCost)` for one call (its salt drawn inside): a hash, or the library's error text. */
  type Hasher = string -> Result<string, string>

  /** `bcrypt.CompareHashAndPassword(hash, password)`: `None` for a nil error, else the error text. */
  type Comparator = (string, string) -> Option<string>

  /** `HashPassword`: the empty password is refused before the hasher runs; otherwise the hasher's answer is passed on. */
  function HashPassword(plain: string, hasher: Hasher): (r: Result<string, Error>)
    ensures plain == "" ==> r == Failure(Sentinel(PasswordEmpty))
    ensures plain != "" && hasher(plain).Success? ==> r == Success(hasher(plain).value)
    ensures plain != "" && hasher(plain).Failure? ==> r == Failure(Opaque(hasher(plain).error))
    ensures r.Failure? && Is(r.error, PasswordEmpty) ==> plain == ""
  {
    if plain == "" then Failure(Sentinel(PasswordEmpty))
    else match hasher(plain)
      case Success(h) => Success(h)
      case Failure(e) => Failure(Opaque(e))
  }

  /** `MatchesHash`: true exactly when the comparison reports no error; it never fails itself. */
  function MatchesHash(password: string, hash: string, compare: Comparator): (b: bool)
    ensures b <==> compare(hash, password).None?
  {
    compare(hash, password).None?
  }

  /** The empty password is refused without consulting the hasher: any two hashers give the same answer. */
  lemma EmptyPasswordIgnoresHasher(h1: Hasher, h2: Hasher)
    ensures HashPassword("", h1) == HashPassword("", h2) == Failure(Sentinel(PasswordEmpty))
  {
  }

  /** A comparator that accepts what a hasher produced makes `MatchesHash` accept the password it was hashed from. */
  lemma HashedPasswordMatches(plain: string, hasher: Hasher, compare: Comparator)
    requires HashPassword(plain, hasher).Success?
    requires compare(hasher(plain).value, plain).None?
    ensures MatchesHash(plain, HashPassword(plain, hasher).value, compare)
  {
  }
}
