/**
 * The user record of models/User.go and the user directory the auth service
 * talks to (the AuthRepository interface of models/auth.go), modelled as a
 * map from user id to record with a unique email column.
 */
module Users {
  import opened Wrappers
  import opened Errors
  import opened Records

  /** `UserRole`: a user is a manager or an attendee, nothing else. */
  datatype Role = Manager | Attendee

  /** The string a role is stored and signed as. */
  function RoleName(r: Role): (s: string)
    ensures s == "manager" || s == "attendee"
    ensures (s == "manager") <==> r == Manager
  {
    match r
    case Manager => "manager"
    case Attendee => "attendee"
  }

  /** The column default `attendee`, applied when a user is created with Go's zero role. */
  const DefaultRole: Role := Attendee

  /** A stored user. Times are whole seconds. */
  datatype User = User(
    id: nat,
    name: string,
    surname: string,
    birthday: int,
    email: string,
    role: Role,
    password: string)

  /** A `*models.User` before creation: no id yet, and `role` is `None` for Go's zero value. */
  datatype UserDraft = UserDraft(
    name: string,
    surname: string,
    birthday: int,
    email: string,
    role: Option<Role>,
    password: string)

  /** Some stored user has this email. */
  predicate EmailTaken(users: map<nat, User>, email: string) {
    exists id :: id in users && users[id].email == email
  }

  /** The unique index on the email column. */
  ghost predicate UniqueEmails(users: map<nat, User>) {
    forall i, j :: i in users && j in users && users[i].email == users[j].email ==> i == j
  }

  /** What `GetUserByEmail` answers when the database is reachable. */
  ghost function FindByEmail(users: map<nat, User>, email: string): (r: Result<User, Error>)
    ensures r.Success? ==> r.value in users.Values && r.value.email == email
    ensures r.Failure? <==> !EmailTaken(users, email)
    ensures r.Failure? ==> r.error == Sentinel(RecordNotFound)
  {
    if EmailTaken(users, email) then
      var id :| id in users && users[id].email == email;
      Success(users[id])
    else
      Failure(Sentinel(RecordNotFound))
  }

  /** The text of the unique-index violation the database reports on a duplicate email. */
  const DuplicatedKey: string := "duplicated key not allowed"

  class UserDirectory {
    var users: map<nat, User>
    /** The next auto-increment primary key. */
    var nextId: nat

    ghost predicate Valid()
      reads this
    {
      && 1 <= nextId
      && (forall id :: id in users ==> users[id].id == id && 1 <= id < nextId)
      && UniqueEmails(users)
    }

    /** An empty table; ids start at 1. */
    constructor ()
      ensures Valid()
      ensures users == map[] && nextId == 1
    {
      users := map[];
      nextId := 1;
    }

    /** With unique emails, the user `FindByEmail` picks is the only one with that email. */
    lemma FindByEmailIsOwner(id: nat, email: string)
      requires Valid()
      requires id in users && users[id].email == email
      ensures FindByEmail(users, email) == Success(users[id])
    {
    }

    /** `GetUserByEmail`; `fault` is a failure of the database call itself. */
    method GetUserByEmail(email: string, fault: Option<string>) returns (r: Result<User, Error>)
      requires Valid()
      ensures r == if fault.Some? then Failure(Opaque(fault.value)) else FindByEmail(users, email)
    {
      if fault.Some? {
        return Failure(Opaque(fault.value));
      }
      if exists id :: id in users && users[id].email == email {
        var id :| id in users && users[id].email == email;
        FindByEmailIsOwner(id, email);
        r := Success(users[id]);
      } else {
        r := Failure(Sentinel(RecordNotFound));
      }
    }

    /** `GetUserByUserID`; `fault` is a failure of the database call itself. */
    method GetUserByUserID(id: nat, fault: Option<string>) returns (r: Result<User, Error>)
      ensures r == if fault.Some? then Failure(Opaque(fault.value)) else Find(users, id)
    {
      if fault.Some? {
        return Failure(Opaque(fault.value));
      }
      if id in users {
        r := Success(users[id]);
      } else {
        r := Failure(Sentinel(RecordNotFound));
      }
    }

    /**
     * `AfterCreate` of models/User.go, run by the create: the user with ID 1
     * is promoted to manager; every other user keeps its role.
     */
    method AfterCreate(id: nat)
      requires Valid()
      requires id in users
      modifies this
      ensures Valid()
      ensures nextId == old(nextId)
      ensures users == if id == 1 then old(users)[id := old(users)[id].(role := Manager)] else old(users)
    {
      if id == 1 {
        users := users[id := users[id].(role := Manager)];
      }
    }

    /**
     * `RegisterUser`: inserts the draft under the next id. A duplicate email
     * is refused by the unique index and a failed call inserts nothing.
     */
    method RegisterUser(draft: UserDraft, fault: Option<string>) returns (r: Result<User, Error>)
      requires Valid()
      modifies this
      ensures Valid()
      ensures fault.Some? ==> r == Failure(Opaque(fault.value))
      ensures fault.None? && EmailTaken(old(users), draft.email) ==> r == Failure(Opaque(DuplicatedKey))
      ensures r.Failure? ==> users == old(users) && nextId == old(nextId)
      ensures r.Success? <==> fault.None? && !EmailTaken(old(users), draft.email)
      ensures r.Success? ==>
        && r.value.id == old(nextId) && r.value.id !in old(users)
        && nextId == old(nextId) + 1
        && users == old(users)[r.value.id := r.value]
        && r.value.name == draft.name && r.value.surname == draft.surname
        && r.value.birthday == draft.birthday && r.value.email == draft.email
        && r.value.password == draft.password
        && r.value.role == (if r.value.id == 1 then Manager else draft.role.GetOr(DefaultRole))
    {
      if fault.Some? {
        return Failure(Opaque(fault.value));
      }
      if exists id :: id in users && users[id].email == draft.email {
        return Failure(Opaque(DuplicatedKey));
      }
      var id := nextId;
      var u := User(id, draft.name, draft.surname, draft.birthday, draft.email,
                    draft.role.GetOr(DefaultRole), draft.password);
      users := users[id := u];
      nextId := nextId + 1;
      AfterCreate(id);
      r := Success(users[id]);
    }
  }

  /** Registered into an empty directory, the first user gets ID 1 and becomes manager. */
  method FirstRegistrationIsManager(draft: UserDraft) returns (r: Result<User, Error>)
    ensures r.Success? && r.value.id == 1 && r.value.role == Manager
  {
    var d := new UserDirectory();
    r := d.RegisterUser(draft, None);
  }
}
