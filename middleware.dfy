/**
 * middleware/auth_protected.go: the bearer-token check in front of the
 * protected routes and the role gate behind it. A handler's effect on the
 * request is modelled as a value: it either answers (`Stop`) or hands the
 * request on with the locals it wrote (`Next`).
 */
module Middleware {
  import opened Wrappers
  import opened Jwt
  import opened Httpx

  /** A value stored in the request locals. */
  datatype LocalValue = UintValue(n: nat) | StringValue(s: string)

  /** What a handler does with a request. */
  datatype Step = Stop(response: Response) | Next(locals: map<string, LocalValue>)

  /** `strings.Split`: the pieces between the separators; the empty string gives one empty piece. */
  function Split(s: string, sep: char): (parts: seq<string>)
    ensures |parts| >= 1
    ensures forall i :: 0 <= i < |parts| ==> sep !in parts[i]
  {
    if s == [] then [""]
    else
      var rest := Split(s[1..], sep);
      if s[0] == sep then [""] + rest
      else [[s[0]] + rest[0]] + rest[1..]
  }

  /** `strings.Join`. */
  function Join(parts: seq<string>, sep: char): string
    requires |parts| >= 1
  {
    if |parts| == 1 then parts[0] else parts[0] + [sep] + Join(parts[1..], sep)
  }

  /** Joining the pieces with the separator gives the string back. */
  lemma {:induction false} SplitJoin(s: string, sep: char)
    ensures Join(Split(s, sep), sep) == s
  {
    if s != [] {
      var rest := Split(s[1..], sep);
      SplitJoin(s[1..], sep);
      if s[0] == sep {
        assert Split(s, sep) == [""] + rest;
        assert Join([""] + rest, sep) == [sep] + Join(rest, sep);
        assert [s[0]] + s[1..] == s;
      } else {
        var parts := Split(s, sep);
        assert parts == [[s[0]] + rest[0]] + rest[1..];
        if |rest| == 1 {
          assert Join(parts, sep) == [s[0]] + rest[0];
        } else {
          assert parts[1..] == rest[1..];
          assert Join(parts, sep) == ([s[0]] + rest[0]) + [sep] + Join(rest[1..], sep);
        }
        assert [s[0]] + s[1..] == s;
      }
    }
  }

  /** A string without the separator is one piece. */
  lemma {:induction false} SplitNoSep(s: string, sep: char)
    requires sep !in s
    ensures Split(s, sep) == [s]
  {
    if s != [] {
      assert sep !in s[1..];
      SplitNoSep(s[1..], sep);
      assert [s[0]] + s[1..] == s;
    }
  }

  /** A first piece without the separator, then the separator, then the rest. */
  lemma {:induction false} SplitAround(a: string, b: string, sep: char)
    requires sep !in a
    ensures Split(a + [sep] + b, sep) == [a] + Split(b, sep)
  {
    if a == [] {
      assert a + [sep] + b == [sep] + b;
      assert ([sep] + b)[1..] == b;
    } else {
      assert (a + [sep] + b)[1..] == a[1..] + [sep] + b;
      assert sep !in a[1..];
      SplitAround(a[1..], b, sep);
      assert [a[0]] + a[1..] == a;
    }
  }

  /** A string that splits into two pieces is the first, the separator and the second. */
  lemma TwoPieces(s: string, sep: char)
    requires |Split(s, sep)| == 2
    ensures s == Split(s, sep)[0] + [sep] + Split(s, sep)[1]
  {
    var parts := Split(s, sep);
    SplitJoin(s, sep);
    assert Join(parts, sep) == parts[0] + [sep] + Join(parts[1..], sep);
  }

  /** The token of an `Authorization: Bearer <token>` header: exactly two space-separated parts, the first `Bearer`. */
  function BearerToken(header: string): (t: Option<string>)
    ensures t.Some? ==> header == "Bearer " + t.value && ' ' !in t.value
  {
    var parts := Split(header, ' ');
    if |parts| == 2 && parts[0] == "Bearer" then
      TwoPieces(header, ' ');
      assert "Bearer " == "Bearer" + [' '];
      Some(parts[1])
    else None
  }

  /** The header check accepts exactly `Bearer`, one space and a token without spaces, in both directions. */
  lemma BearerTokenExact(header: string, token: string)
    ensures BearerToken(header) == Some(token) <==> header == "Bearer " + token && ' ' !in token
  {
    if header == "Bearer " + token && ' ' !in token {
      assert "Bearer " + token == "Bearer" + [' '] + token;
      SplitAround("Bearer", token, ' ');
      SplitNoSep(token, ' ');
    }
  }

  /** The scheme name is case sensitive: a lower-case `bearer` is refused. */
  lemma LowercaseSchemeRejected(token: string)
    ensures BearerToken("bearer " + token) == None
  {
    if BearerToken("bearer " + token).Some? {
      BearerTokenExact("bearer " + token, BearerToken("bearer " + token).value);
    }
  }

  /** A 401 answer. */
  function Unauthorized(message: string): Response {
    Response(401, "error", message)
  }

  /** The 403 answer of the role gate. */
  const Forbidden := Response(403, "error", "You don't have permission to access this resource")

  /**
   * `AuthProtected`: an empty header, a header not of the bearer form and a
   * token that fails validation are each refused with 401; a valid token
   * stores the user id (`sub`) and the role under `user_id` and `role` and
   * lets the request through.
   */
  function AuthProtected(w: JwtWrapper, lib: JwtLibrary, authHeader: string, now: int): (s: Step)
    ensures authHeader == "" ==> s == Stop(Unauthorized("Authorization header missing"))
    ensures authHeader != "" && BearerToken(authHeader).None? ==> s == Stop(Unauthorized("Invalid token format"))
    ensures BearerToken(authHeader).Some? && ValidateToken(w, lib, BearerToken(authHeader).value, now).Failure? ==>
      s == Stop(Unauthorized("Invalid or expired token"))
    ensures s.Next? <==>
      BearerToken(authHeader).Some? && ValidateToken(w, lib, BearerToken(authHeader).value, now).Success?
    ensures s.Next? ==>
      var claims := lib.parse(BearerToken(authHeader).value).value.claims;
      s.locals == map["user_id" := UintValue(claims.sub), "role" := StringValue(claims.role)]
    ensures s.Stop? ==> s.response.code == 401
  {
    if authHeader == "" then Stop(Unauthorized("Authorization header missing"))
    else match BearerToken(authHeader)
      case None => Stop(Unauthorized("Invalid token format"))
      case Some(tokenString) =>
        match ValidateToken(w, lib, tokenString, now)
        case Failure(_) => Stop(Unauthorized("Invalid or expired token"))
        case Success(token) =>
          if token.valid then
            Next(map["user_id" := UintValue(token.claims.sub), "role" := StringValue(token.claims.role)])
          else Stop(Unauthorized("Invalid token claims"))
  }

  /** A request gets through only with a `Bearer <token>` header whose token validates. */
  lemma AuthProtectedAdmits(w: JwtWrapper, lib: JwtLibrary, authHeader: string, now: int)
    requires AuthProtected(w, lib, authHeader, now).Next?
    ensures exists token :: authHeader == "Bearer " + token && ' ' !in token
                         && ValidateToken(w, lib, token, now).Success?
  {
    var token := BearerToken(authHeader).value;
    BearerTokenExact(authHeader, token);
  }

  /** `RoleProtected`: the request continues if and only if the user's role is one of the allowed roles. */
  method RoleProtected(allowedRoles: seq<string>, userRole: string) returns (s: Step)
    ensures s.Next? <==> userRole in allowedRoles
    ensures s.Next? ==> s.locals == map[]
    ensures s.Stop? ==> s.response == Forbidden
  {
    for i := 0 to |allowedRoles|
      invariant userRole !in allowedRoles[..i]
    {
      if allowedRoles[i] == userRole {
        return Next(map[]);
      }
    }
    return Stop(Forbidden);
  }
}
