/** The users service: the salt setting, lookup by username, and creation, update and
    deletion of users in the shared store. */
module Users {
  import opened Common
  import opened Crypto
  import opened Schema
  import opened Tables
  import opened Db
  import opened UserDto

  const DefaultSaltRounds := 10
  const UserNotFound := Http(NotFound, "User with such username is not found")
  /** What Prisma raises when `update` or `delete` finds no row. */
  const RecordNotFoundError := PrismaKnown(RecordMissing, NoTarget)

  /** JavaScript truthiness of a SALT value: 0 and "" are falsy. */
  predicate Truthy(s: Salt) {
    match s
    case Rounds(n) => n != 0
    case Text(t) => t != ""
  }

  /** getSalt: the configured SALT when it is set and truthy, otherwise 10 rounds; so the
      salt handed to bcrypt is never falsy. */
  function GetSalt(configured: Option<Salt>): (s: Salt)
    ensures Truthy(s)
    ensures configured.Some? && Truthy(configured.value) ==> s == configured.value
    ensures configured.None? || !Truthy(configured.value) ==> s == Rounds(DefaultSaltRounds)
  {
    if configured.Some? && Truthy(configured.value) then configured.value else Rounds(DefaultSaltRounds)
  }

  /** The columns a row with this username and email would clash on among `others`, in
      the form of the `target` of Prisma's P2002 error; None means the column is not written. */
  function Violations(others: seq<User>, username: Option<string>, email: Option<string>): (clash: seq<string>)
    ensures ("username" in clash) <==> username.Some? && exists u :: u in others && u.username == username.value
    ensures ("email" in clash) <==> email.Some? && exists u :: u in others && u.email == email.value
  {
    (if username.Some? && exists u :: u in others && u.username == username.value then ["username"] else [])
    + (if email.Some? && exists u :: u in others && u.email == email.value then ["email"] else [])
  }

  /** The optional fields of a profile update. */
  datatype UserPatch = UserPatch(username: Option<string>, email: Option<string>, password: Option<string>)

  /** The password column an update writes: a truthy password is hashed, an empty one is
      written as it is, an absent one leaves the column alone. */
  function PasswordUpdate(password: Option<string>, salt: Salt): (c: Option<StoredPassword>)
    ensures password.None? <==> c.None?
    ensures password.Some? && password.value != "" ==> c == Some(Hash(password.value, salt))
    ensures password == Some("") ==> c == Some(Unhashed(""))
  {
    match password
    case None => None
    case Some(p) => if p != "" then Some(Hash(p, salt)) else Some(Unhashed(p))
  }

  /** The data of `prisma.user.update`: absent properties keep their column value. */
  function ApplyUserPatch(patch: UserPatch, password: Option<StoredPassword>): User -> User {
    (u: User) => u.(
      username := if patch.username.Some? then patch.username.value else u.username,
      email := if patch.email.Some? then patch.email.value else u.email,
      password := if password.Some? then password.value else u.password)
  }

  /** The stand-in for `updateUserValidation`: the user's verified flag is set. */
  function Verify(u: User): (v: User)
    ensures v.verified && v == u.(verified := true)
  {
    u.(verified := true)
  }

  class UsersService {
    const db: Store
    /** The SALT entry of the configuration, absent when unset. */
    const salt: Option<Salt>

    constructor (db: Store, salt: Option<Salt>)
      ensures this.db == db && this.salt == salt
    {
      this.db := db;
      this.salt := salt;
    }

    /** getUserByUsername: the user with that username, or NotFound. */
    function GetUserByUsername(username: string): (r: Result<User>)
      reads db
      ensures r.Ok? ==> r.value in db.users && r.value.username == username
      ensures r.Err? <==> forall u :: u in db.users ==> u.username != username
      ensures r.Err? ==> r.error == UserNotFound
      ensures r.Ok? && UniqueUsers(db.users) ==> forall u :: u in db.users && u.username == username ==> u == r.value
    {
      match FindFirst(db.users, UsernameIs(username))
      case Some(u) => Ok(u)
      case None => Err(UserNotFound)
    }

    /** createUser: stores the user with the password replaced by its bcrypt digest. A
        clash on username or email is Prisma's P2002 naming the clashing columns.
        `failure` is the error the hasher or the store raises instead, if any; `id` is
        the primary key the store generates. */
    method CreateUser(dto: CreateUserDto, id: Id, now: Time, failure: Option<Exception>) returns (r: Result<User>)
      requires db.Valid()
      requires forall u :: u in db.users ==> u.id != id
      modifies db
      ensures db.Valid()
      ensures db.tokens == old(db.tokens) && db.reviews == old(db.reviews) && db.media == old(db.media)
      ensures var clash := Violations(old(db.users), Some(dto.username), Some(dto.email));
        if failure.Some? then r == Err(failure.value) && db.users == old(db.users)
        else if clash != [] then r == Err(PrismaKnown(UniqueViolation, Fields(clash))) && db.users == old(db.users)
        else
          && r == Ok(User(id, dto.username, dto.email, Hash(dto.password, GetSalt(salt)), USER, false, now))
          && db.users == old(db.users) + [r.value]
    {
      if failure.Some? {
        r := Err(failure.value);
        return;
      }
      var hashed := Hash(dto.password, GetSalt(salt));
      var clash := Violations(db.users, Some(dto.username), Some(dto.email));
      if clash != [] {
        r := Err(PrismaKnown(UniqueViolation, Fields(clash)));
        return;
      }
      var user := User(id, dto.username, dto.email, hashed, USER, false, now);
      db.users := db.users + [user];
      r := Ok(user);
    }

    /** updateUser: hashes a supplied password, then writes the patch to the user with
        that username; it settles with no value. */
    method UpdateUser(username: string, patch: UserPatch) returns (r: Result<()>)
      requires db.Valid()
      modifies db
      ensures db.Valid()
      ensures db.tokens == old(db.tokens) && db.reviews == old(db.reviews) && db.media == old(db.media)
      ensures var target := FindFirst(old(db.users), UsernameIs(username));
        var clash := Violations(DeleteWhere(old(db.users), UsernameIs(username)), patch.username, patch.email);
        if target.None? then r == Err(RecordNotFoundError) && db.users == old(db.users)
        else if clash != [] then r == Err(PrismaKnown(UniqueViolation, Fields(clash))) && db.users == old(db.users)
        else
          && r == Ok(())
          && db.users == UpdateWhere(old(db.users), UsernameIs(username), ApplyUserPatch(patch, PasswordUpdate(patch.password, GetSalt(salt))))
      ensures forall i :: 0 <= i < |old(db.users)| && old(db.users)[i].username != username ==> db.users[i] == old(db.users)[i]
    {
      var password := PasswordUpdate(patch.password, GetSalt(salt));
      var target := FindFirst(db.users, UsernameIs(username));
      if target.None? {
        r := Err(RecordNotFoundError);
        return;
      }
      var others := DeleteWhere(db.users, UsernameIs(username));
      var clash := Violations(others, patch.username, patch.email);
      if clash != [] {
        r := Err(PrismaKnown(UniqueViolation, Fields(clash)));
        return;
      }
      var f := ApplyUserPatch(patch, password);
      ghost var t := target.value;
      forall u | u in db.users ensures UsernameIs(username)(u) <==> u == t {
      }
      forall u | u in db.users && u != t ensures u.username != f(t).username && u.email != f(t).email {
        assert u.username != username;
        assert u in others;
      }
      UpdateOneUserKeepsUnique(db.users, UsernameIs(username), f, t, f(t));
      db.users := UpdateWhere(db.users, UsernameIs(username), f);
      r := Ok(());
    }

    /** deleteUser: removes the user with that username and reports it. */
    method DeleteUser(username: string) returns (r: Result<string>)
      requires db.Valid()
      modifies db
      ensures db.Valid()
      ensures db.tokens == old(db.tokens) && db.reviews == old(db.reviews) && db.media == old(db.media)
      ensures if FindFirst(old(db.users), UsernameIs(username)).None? then r == Err(RecordNotFoundError) && db.users == old(db.users)
        else r == Ok("User with username " + username + " has been deleted") && db.users == DeleteWhere(old(db.users), UsernameIs(username))
      ensures r.Ok? ==> GetUserByUsername(username) == Err(UserNotFound)
    {
      var target := FindFirst(db.users, UsernameIs(username));
      if target.None? {
        r := Err(RecordNotFoundError);
        return;
      }
      DeleteKeepsUniqueUsers(db.users, UsernameIs(username));
      db.users := DeleteWhere(db.users, UsernameIs(username));
      assert forall u :: u in db.users ==> u.username != username;
      r := Ok("User with username " + target.value.username + " has been deleted");
    }

    /** The stand-in for `updateUserValidation(id)`: marks the user with that id verified
        and yields it, or yields nothing when there is no such user. */
    method MarkVerified(id: Id) returns (u: Option<User>)
      requires db.Valid()
      modifies db
      ensures db.Valid()
      ensures db.tokens == old(db.tokens) && db.reviews == old(db.reviews) && db.media == old(db.media)
      ensures var found := FindFirst(old(db.users), UserIdIs(id));
        if found.None? then u.None? && db.users == old(db.users)
        else u == Some(Verify(found.value)) && db.users == UpdateWhere(old(db.users), UserIdIs(id), Verify)
    {
      var found := FindFirst(db.users, UserIdIs(id));
      if found.None? {
        u := None;
        return;
      }
      var t := found.value;
      forall x | x in db.users ensures UserIdIs(id)(x) <==> x == t {
      }
      UpdateOneUserKeepsUnique(db.users, UserIdIs(id), Verify, t, Verify(t));
      db.users := UpdateWhere(db.users, UserIdIs(id), Verify);
      u := Some(Verify(t));
    }
  }
}
