/** The user-facing shapes of dto/auth.go: the public user projection and the registration request rules. */
module UserDto {
  import opened Wrappers
  import opened Users

  /** `UserResponse`: the public view of a user. It has no password field. */
  datatype UserResponse = UserResponse(
    id: nat,
    name: string,
    surname: string,
    email: string,
    role: Role,
    birthday: int)

  /** `ToUserResponse`: nil gives nil; otherwise the six public fields are copied unchanged. */
  function ToUserResponse(user: Option<User>): (r: Option<UserResponse>)
    ensures r.None? <==> user.None?
    ensures user.Some? ==>
      && r.value.id == user.value.id && r.value.name == user.value.name
      && r.value.surname == user.value.surname && r.value.email == user.value.email
      && r.value.role == user.value.role && r.value.birthday == user.value.birthday
  {
    match user
    case None => None
    case Some(u) => Some(UserResponse(u.id, u.name, u.surname, u.email, u.role, u.birthday))
  }

  /** The projection does not depend on the stored password hash. */
  lemma ResponseIgnoresPassword(u: User, other: string)
    ensures ToUserResponse(Some(u)) == ToUserResponse(Some(u.(password := other)))
  {
  }

  /** Two users with the same public fields project to the same response whatever their hashes. */
  lemma ResponseDeterminesPublicFields(u: User, v: User)
    requires ToUserResponse(Some(u)) == ToUserResponse(Some(v))
    ensures u.(password := v.password) == v
  {
  }

  /** `RegisterUserRequest`. Birthday is in seconds; `ZeroTime` is Go's zero `time.Time`. */
  datatype RegisterUserRequest = RegisterUserRequest(
    name: string,
    surname: string,
    email: string,
    password: string,
    birthday: int)

  /** `time.Time{}` (January 1 of year 1, UTC) in Unix seconds: what `required` rejects. */
  const ZeroTime: int := -62135596800

  /**
   * The validate tags of `RegisterUserRequest`. String lengths count runes,
   * as the validator does; the `email` format rule is reduced to non-empty.
   */
  predicate ValidRegisterRequest(r: RegisterUserRequest): (b: bool)
    ensures b ==> r.password != "" && r.email != ""
  {
    && 2 <= |r.name| <= 100
    && 2 <= |r.surname| <= 100
    && r.email != ""
    && 6 <= |r.password| <= 32
    && r.birthday != ZeroTime
  }

  /** The draft the register handler builds from a request: no role, and the password left to the service. */
  function DraftOf(r: RegisterUserRequest): (d: UserDraft)
    ensures d.role.None? && d.email == r.email && d.name == r.name && d.surname == r.surname
    ensures d.birthday == r.birthday && d.password == ""
  {
    UserDraft(r.name, r.surname, r.birthday, r.email, None, "")
  }
}
