/** The authentication service: registration, login, rotation of refresh tokens, logout
    and e-mail verification over the shared store, the verification cache and the mail
    queue. */
module Auth {
  import opened Common
  import opened Crypto
  import opened Schema
  import opened Tables
  import opened Db
  import opened Users
  import opened AuthDto
  import UserDto

  /** The `expiresIn` option of every signed access token. */
  const AccessTokenLifetime := "30m"
  /** Thirty days in milliseconds: how long a refresh token row stays valid. */
  const RefreshTokenLifetime: int := 30 * 24 * 60 * 60 * 1000
  /** One day in milliseconds: the time-to-live of a verification cache entry. */
  const VerificationTtl: int := 86400 * 1000
  /** The name of the queued job that sends the confirmation mail. */
  const ConfirmationJob := "confirmation"

  const WrongCredentials := Http(Unauthorized, "Wrong username or password")
  const InvalidOrExpired := Http(Unauthorized, "Invalid or expired token")
  const OwnerMissing := Http(NotFound, "User not found")
  const InvalidRefreshToken := Http(Unauthorized, "Invalid refresh token")
  const InvalidVerification := Http(NotFound, "Invalid token")
  const RegistrationFailed := Http(InternalServerError, "Failed to register user")
  const VerifiedMessage := "Email verified successfully"

  /** The cache key under which a verification token is stored. */
  function VerifyKey(token: string): (k: string)
    ensures |k| == |token| + 7 && k[7..] == token
  {
    "verify:" + token
  }

  /** A cache value with the time-to-live it was set with. */
  datatype CacheEntry = CacheEntry(value: Id, ttl: int)
  /** The data of a confirmation mail job. */
  datatype Confirmation = Confirmation(email: string, name: string, token: string)
  datatype MailJob = MailJob(name: string, data: Confirmation)
  /** The body emailVerification returns. */
  datatype Acknowledgement = Acknowledgement(message: string)
  /** The errors, if any, that the store, the cache and the queue raise during a
      registration, one per awaited step. */
  datatype Faults = Faults(create: Option<Exception>, cacheSet: Option<Exception>, queueAdd: Option<Exception>)

  /** The access token signed for a user: username and role, valid for 30 minutes. */
  function AccessFor(u: User): (t: AccessToken<Payload>)
    ensures t.payload == Payload(u.username, u.role) && t.expiresIn == AccessTokenLifetime
  {
    Sign(Payload(u.username, u.role), AccessTokenLifetime)
  }

  /** What register's catch block turns an error of the awaited steps into: a Prisma
      unique violation becomes a conflict naming the e-mail first, then the username,
      then neither; reading `includes` of a missing target is a TypeError that escapes
      the catch; every other error becomes the generic internal error. */
  function RegisterFailure(e: Exception): (r: Exception)
    ensures !(e.PrismaKnown? && e.code == UniqueViolation) ==> r == RegistrationFailed
    ensures e.PrismaKnown? && e.code == UniqueViolation ==>
      (r.Http? <==> !e.target.NoTarget?) && (r.Http? ==> r.kind == Conflict)
    ensures e.PrismaKnown? && e.code == UniqueViolation && e.target.NoTarget? ==> r == Runtime("TypeError")
  {
    if e.PrismaKnown? && e.code == UniqueViolation then
      match Includes(e.target, "email")
      case Err(typeError) => typeError
      case Ok(true) => Http(Conflict, "Email already exists")
      case Ok(false) =>
        match Includes(e.target, "username")
        case Err(typeError) => typeError
        case Ok(true) => Http(Conflict, "Username already exists")
        case Ok(false) => Http(Conflict, "Account already exists")
    else RegistrationFailed
  }

  /** The conflict message follows the columns Prisma names, the e-mail taking precedence. */
  lemma ConflictMessages(fields: seq<string>)
    ensures "email" in fields ==>
      RegisterFailure(PrismaKnown(UniqueViolation, Fields(fields))) == Http(Conflict, "Email already exists")
    ensures "email" !in fields && "username" in fields ==>
      RegisterFailure(PrismaKnown(UniqueViolation, Fields(fields))) == Http(Conflict, "Username already exists")
    ensures "email" !in fields && "username" !in fields ==>
      RegisterFailure(PrismaKnown(UniqueViolation, Fields(fields))) == Http(Conflict, "Account already exists")
  {
  }

  /** A registration that clashes with the stored users is reported by the column that
      clashes: a taken e-mail wins over a taken username. */
  lemma RegisterConflictFromTable(users: seq<User>, dto: RegisterDto)
    requires Violations(users, Some(dto.username), Some(dto.email)) != []
    ensures var e := RegisterFailure(PrismaKnown(UniqueViolation, Fields(Violations(users, Some(dto.username), Some(dto.email)))));
      && ((exists u :: u in users && u.email == dto.email) ==> e == Http(Conflict, "Email already exists"))
      && ((forall u :: u in users ==> u.email != dto.email) ==> e == Http(Conflict, "Username already exists"))
  {
    ConflictMessages(Violations(users, Some(dto.username), Some(dto.email)));
  }

  /** login's credential check: the user with that username, when the password matches
      its digest. */
  function Authenticate(users: seq<User>, dto: LoginDto): (r: Result<User>)
    ensures r.Ok? ==> r.value in users && r.value.username == dto.username && Compare(dto.password, r.value.password)
    ensures r.Err? ==> r.error == UserNotFound || r.error == WrongCredentials
    ensures r == Err(UserNotFound) <==> forall u :: u in users ==> u.username != dto.username
    ensures UniqueUsers(users) ==>
      (r == Err(WrongCredentials) <==> exists u :: u in users && u.username == dto.username && !Compare(dto.password, u.password))
  {
    match FindFirst(users, UsernameIs(dto.username))
    case None => Err(UserNotFound)
    case Some(u) => if Compare(dto.password, u.password) then Ok(u) else Err(WrongCredentials)
  }

  /** Right after registration the password the user registered with logs them in. */
  lemma RegisteredUserAuthenticates(users: seq<User>, user: User, password: string, salt: Salt)
    requires UniqueUsers(users + [user])
    requires user.password == Hash(password, salt)
    ensures Authenticate(users + [user], LoginDto(user.username, password)) == Ok(user)
  {
    var all := users + [user];
    assert user in all;
    var r := Authenticate(all, LoginDto(user.username, password));
    if r.Ok? {
      assert r.value.username == user.username;
    }
  }

  /** refreshToken's checks: a row holding the presented token that has not expired, and
      the user it belongs to. */
  function CheckRefresh(tokens: seq<TokenRow>, users: seq<User>, presented: string, now: Time): (r: Result<(TokenRow, User)>)
    ensures r.Ok? ==>
      && r.value.0 in tokens && r.value.0.token == presented && now <= r.value.0.expiresIn
      && r.value.1 in users && r.value.1.id == r.value.0.userId
    ensures r.Err? ==> r.error == InvalidOrExpired || r.error == OwnerMissing
    ensures UniqueTokens(tokens) ==>
      (r == Err(InvalidOrExpired) <==> forall row :: row in tokens && row.token == presented ==> row.expiresIn < now)
    ensures UniqueTokens(tokens) ==>
      (r.Ok? <==> exists row :: row in tokens && row.token == presented && now <= row.expiresIn &&
                               exists u :: u in users && u.id == row.userId)
  {
    var found := FindFirst(tokens, TokenIs(presented));
    assert UniqueTokens(tokens) && found.Some? ==>
      forall row :: row in tokens && row.token == presented ==> row == found.value;
    match found
    case None => Err(InvalidOrExpired)
    case Some(row) =>
      if row.expiresIn < now then Err(InvalidOrExpired)
      else
        match FindFirst(users, UserIdIs(row.userId))
        case None => Err(OwnerMissing)
        case Some(user) => Ok((row, user))
  }

  /** The data of refreshToken's update: a new token value and a new expiry. */
  function Rotate(token: string, expiresIn: Time): TokenRow -> TokenRow {
    (row: TokenRow) => row.(token := token, expiresIn := expiresIn)
  }

  /** The token table after the row with that id is rotated. */
  function Rotated(tokens: seq<TokenRow>, id: Id, token: string, expiresIn: Time): seq<TokenRow> {
    UpdateWhere(tokens, TokenRowIdIs(id), Rotate(token, expiresIn))
  }

  /** Rotating a row to a renewed token replaces that row and no other: the presented value
      is gone from the table, the new one is in its place, and the table stays unique. */
  lemma RotationReplacesPresented(tokens: seq<TokenRow>, row: TokenRow, renewed: string, expiresIn: Time)
    requires UniqueTokens(tokens) && row in tokens
    requires forall x :: x in tokens ==> x.token != renewed
    ensures var after := Rotated(tokens, row.id, renewed, expiresIn);
      && |after| == |tokens|
      && UniqueTokens(after)
      && row.(token := renewed, expiresIn := expiresIn) in after
      && (forall x :: x in after ==> x.token != row.token)
      && (forall x :: x in tokens && x.id != row.id ==> x in after)
      && (forall x :: x in after ==> x == row.(token := renewed, expiresIn := expiresIn) || (x in tokens && x.id != row.id))
  {
    var after := Rotated(tokens, row.id, renewed, expiresIn);
    var rotated := row.(token := renewed, expiresIn := expiresIn);
    var k :| 0 <= k < |tokens| && tokens[k] == row;
    assert after[k] == rotated;
    forall i | 0 <= i < |after| ensures (i == k && after[i] == rotated) || (i != k && after[i] == tokens[i] && tokens[i].id != row.id) {
      if i != k {
        assert tokens[i].id != tokens[k].id by {
          if i < k {} else {}
        }
      }
    }
    forall x | x in after ensures (x == rotated || (x in tokens && x.id != row.id)) && x.token != row.token {
      var i :| 0 <= i < |after| && after[i] == x;
      assert tokens[i] in tokens;
      if i != k {
        assert tokens[i].token != tokens[k].token by {
          if i < k {} else {}
        }
      }
    }
    forall x | x in tokens && x.id != row.id ensures x in after {
      var i :| 0 <= i < |tokens| && tokens[i] == x;
      assert after[i] == x;
    }
    RotatedKeepsUnique(tokens, row.id, renewed, expiresIn);
  }

  /** Rotating the row with that id to a token value no row holds keeps the token indexes unique. */
  lemma RotatedKeepsUnique(tokens: seq<TokenRow>, id: Id, renewed: string, expiresIn: Time)
    requires UniqueTokens(tokens)
    requires forall x :: x in tokens ==> x.token != renewed
    ensures UniqueTokens(Rotated(tokens, id, renewed, expiresIn))
  {
    var after := Rotated(tokens, id, renewed, expiresIn);
    forall i, j | 0 <= i < j < |after| ensures after[i].id != after[j].id && after[i].token != after[j].token {
      assert tokens[i] in tokens && tokens[j] in tokens;
      assert after[i] == (if tokens[i].id == id then tokens[i].(token := renewed, expiresIn := expiresIn) else tokens[i]);
      assert after[j] == (if tokens[j].id == id then tokens[j].(token := renewed, expiresIn := expiresIn) else tokens[j]);
    }
  }

  /** After a rotation the presented token is refused for good, while the new one is
      accepted until it expires as long as its owner exists. */
  lemma RotatedTokenIsSingleUse(tokens: seq<TokenRow>, users: seq<User>, row: TokenRow, renewed: string, expiresIn: Time, later: Time)
    requires UniqueTokens(tokens) && row in tokens
    requires forall x :: x in tokens ==> x.token != renewed
    ensures CheckRefresh(Rotated(tokens, row.id, renewed, expiresIn), users, row.token, later) == Err(InvalidOrExpired)
    ensures later <= expiresIn && (exists u :: u in users && u.id == row.userId) ==>
      CheckRefresh(Rotated(tokens, row.id, renewed, expiresIn), users, renewed, later).Ok?
  {
    RotationReplacesPresented(tokens, row, renewed, expiresIn);
    var after := Rotated(tokens, row.id, renewed, expiresIn);
    var rotated := row.(token := renewed, expiresIn := expiresIn);
    if later <= expiresIn && (exists u :: u in users && u.id == row.userId) {
      assert rotated in after && rotated.token == renewed;
    }
  }

  /** A new session row leaves every other token exactly as it was. */
  lemma LoginKeepsOtherSessions(tokens: seq<TokenRow>, users: seq<User>, added: TokenRow, presented: string, now: Time)
    requires added.token != presented
    ensures CheckRefresh(tokens + [added], users, presented, now) == CheckRefresh(tokens, users, presented, now)
  {
    FindFirstAppendMiss(tokens, added, TokenIs(presented));
  }

  /** After logout no row holds the token, so it can neither be refreshed nor logged out again. */
  lemma LogoutRevokes(tokens: seq<TokenRow>, users: seq<User>, presented: string, now: Time)
    ensures Count(DeleteWhere(tokens, TokenIs(presented)), TokenIs(presented)) == 0
    ensures CheckRefresh(DeleteWhere(tokens, TokenIs(presented)), users, presented, now) == Err(InvalidOrExpired)
  {
    DeleteWhereIdempotent(tokens, TokenIs(presented));
    var after := DeleteWhere(tokens, TokenIs(presented));
    assert FindFirst(after, TokenIs(presented)).None?;
  }

  class AuthService {
    const users: UsersService
    const db: Store
    /** The cache manager's entries, by key. */
    var cache: map<string, CacheEntry>
    /** The jobs added to the mail queue, oldest first. */
    var mailQueue: seq<MailJob>

    ghost predicate Valid()
      reads this, users, db
    {
      users.db == db && db.Valid()
    }

    constructor (users: UsersService)
      requires users.db.Valid()
      ensures Valid()
      ensures this.users == users && cache == map[] && mailQueue == []
    {
      this.users := users;
      this.db := users.db;
      cache := map[];
      mailQueue := [];
    }

    /** login: checks the credentials, then stores a thirty-day refresh token and returns
        it with a signed access token. `refreshToken` is the 64 random bytes in hex and
        `rowId` the primary key the store generates. */
    method Login(dto: LoginDto, now: Time, refreshToken: string, rowId: Id) returns (r: Result<TokenPair>)
      requires Valid()
      requires forall x :: x in db.tokens ==> x.id != rowId && x.token != refreshToken
      modifies db
      ensures Valid()
      ensures db.users == old(db.users) && db.reviews == old(db.reviews) && db.media == old(db.media)
      ensures var a := Authenticate(old(db.users), dto);
        if a.Err? then r == Err(a.error) && db.tokens == old(db.tokens)
        else
          && r == Ok(TokenPair(AccessFor(a.value), refreshToken))
          && db.tokens == old(db.tokens) + [TokenRow(rowId, a.value.id, refreshToken, now + RefreshTokenLifetime)]
    {
      var found := users.GetUserByUsername(dto.username);
      if found.Err? {
        r := Err(found.error);
        return;
      }
      var user := found.value;
      if !Compare(dto.password, user.password) {
        r := Err(WrongCredentials);
        return;
      }
      var accessToken := Sign(Payload(user.username, user.role), AccessTokenLifetime);
      db.tokens := db.tokens + [TokenRow(rowId, user.id, refreshToken, now + RefreshTokenLifetime)];
      r := Ok(TokenPair(accessToken, refreshToken));
    }

    /** register: creates the user, caches a verification token for a day, queues the
        confirmation mail and logs the user in. The steps that ran before a failure keep
        their effect; the failure goes through RegisterFailure, while an error of the
        final login escapes unchanged. `userId`, `verification`, `refreshToken` and
        `rowId` are the generated key, uuid, random token and token-row key. */
    method Register(dto: RegisterDto, now: Time, userId: Id, verification: string, refreshToken: string, rowId: Id, faults: Faults)
      returns (r: Result<TokenPair>)
      requires Valid()
      requires forall u :: u in db.users ==> u.id != userId
      requires VerifyKey(verification) !in cache
      requires forall x :: x in db.tokens ==> x.id != rowId && x.token != refreshToken
      modifies this, db
      ensures Valid()
      ensures db.reviews == old(db.reviews) && db.media == old(db.media)
      ensures var clash := Violations(old(db.users), Some(dto.username), Some(dto.email));
        var user := User(userId, dto.username, dto.email, Hash(dto.password, GetSalt(users.salt)), USER, false, now);
        if faults.create.Some? || clash != [] then
          && r == Err(RegisterFailure(if faults.create.Some? then faults.create.value else PrismaKnown(UniqueViolation, Fields(clash))))
          && db.users == old(db.users) && db.tokens == old(db.tokens)
          && cache == old(cache) && mailQueue == old(mailQueue)
        else
          && db.users == old(db.users) + [user]
          && (if faults.cacheSet.Some? then
                && r == Err(RegisterFailure(faults.cacheSet.value))
                && cache == old(cache) && mailQueue == old(mailQueue) && db.tokens == old(db.tokens)
              else
                && cache == old(cache)[VerifyKey(verification) := CacheEntry(userId, VerificationTtl)]
                && (if faults.queueAdd.Some? then
                      r == Err(RegisterFailure(faults.queueAdd.value)) && mailQueue == old(mailQueue) && db.tokens == old(db.tokens)
                    else
                      && mailQueue == old(mailQueue) + [MailJob(ConfirmationJob, Confirmation(dto.email, dto.username, verification))]
                      && r == Ok(TokenPair(AccessFor(user), refreshToken))
                      && db.tokens == old(db.tokens) + [TokenRow(rowId, userId, refreshToken, now + RefreshTokenLifetime)]))
    {
      var created := users.CreateUser(UserDto.CreateUserDto(dto.username, dto.email, dto.password), userId, now, faults.create);
      if created.Err? {
        r := Err(RegisterFailure(created.error));
        return;
      }
      var user := created.value;
      if faults.cacheSet.Some? {
        r := Err(RegisterFailure(faults.cacheSet.value));
        return;
      }
      cache := cache[VerifyKey(verification) := CacheEntry(user.id, VerificationTtl)];
      if faults.queueAdd.Some? {
        r := Err(RegisterFailure(faults.queueAdd.value));
        return;
      }
      mailQueue := mailQueue + [MailJob(ConfirmationJob, Confirmation(user.email, user.username, verification))];
      RegisteredUserAuthenticates(old(db.users), user, dto.password, GetSalt(users.salt));
      r := Login(LoginDto(user.username, dto.password), now, refreshToken, rowId);
    }

    /** refreshToken: a live row holding the presented token is rotated to `renewed` for
        another thirty days and a new access token is signed for its owner. */
    method RefreshToken(presented: string, now: Time, renewed: string) returns (r: Result<TokenPair>)
      requires Valid()
      requires forall x :: x in db.tokens ==> x.token != renewed
      modifies db
      ensures Valid()
      ensures db.users == old(db.users) && db.reviews == old(db.reviews) && db.media == old(db.media)
      ensures var c := CheckRefresh(old(db.tokens), old(db.users), presented, now);
        if c.Err? then r == Err(c.error) && db.tokens == old(db.tokens)
        else
          && r == Ok(TokenPair(AccessFor(c.value.1), renewed))
          && db.tokens == Rotated(old(db.tokens), c.value.0.id, renewed, now + RefreshTokenLifetime)
      ensures r.Ok? ==> |db.tokens| == |old(db.tokens)| && forall x :: x in db.tokens ==> x.token != presented
    {
      var found := FindFirst(db.tokens, TokenIs(presented));
      if found.None? || found.value.expiresIn < now {
        r := Err(InvalidOrExpired);
        return;
      }
      var row := found.value;
      var owner := FindFirst(db.users, UserIdIs(row.userId));
      if owner.None? {
        r := Err(OwnerMissing);
        return;
      }
      var user := owner.value;
      var accessToken := Sign(Payload(user.username, user.role), AccessTokenLifetime);
      RotationReplacesPresented(db.tokens, row, renewed, now + RefreshTokenLifetime);
      db.tokens := Rotated(db.tokens, row.id, renewed, now + RefreshTokenLifetime);
      r := Ok(TokenPair(accessToken, renewed));
    }

    /** logout: deletes every row holding the token; deleting none is an error. */
    method Logout(presented: string) returns (r: Result<()>)
      requires Valid()
      modifies db
      ensures Valid()
      ensures db.users == old(db.users) && db.reviews == old(db.reviews) && db.media == old(db.media)
      ensures db.tokens == DeleteWhere(old(db.tokens), TokenIs(presented))
      ensures r.Ok? <==> exists x :: x in old(db.tokens) && x.token == presented
      ensures r.Err? ==> r.error == InvalidRefreshToken
    {
      var count := Count(db.tokens, TokenIs(presented));
      CountZero(db.tokens, TokenIs(presented));
      DeleteKeepsUniqueTokens(db.tokens, TokenIs(presented));
      db.tokens := DeleteWhere(db.tokens, TokenIs(presented));
      if count == 0 {
        r := Err(InvalidRefreshToken);
      } else {
        r := Ok(());
      }
    }

    /** emailVerification: a cached, non-empty user id for the token marks that user
        verified and consumes the token. */
    method EmailVerification(token: string) returns (r: Result<Acknowledgement>)
      requires Valid()
      modifies this, db
      ensures Valid()
      ensures mailQueue == old(mailQueue)
      ensures db.tokens == old(db.tokens) && db.reviews == old(db.reviews) && db.media == old(db.media)
      ensures var key := VerifyKey(token);
        if key !in old(cache) || old(cache)[key].value == "" then
          r == Err(InvalidVerification) && cache == old(cache) && db.users == old(db.users)
        else
          var id := old(cache)[key].value;
          if FindFirst(old(db.users), UserIdIs(id)).None? then
            r == Err(InvalidVerification) && cache == old(cache) && db.users == old(db.users)
          else
            && r == Ok(Acknowledgement(VerifiedMessage))
            && cache == old(cache) - {key}
            && db.users == UpdateWhere(old(db.users), UserIdIs(id), Verify)
    {
      var key := VerifyKey(token);
      if key !in cache || cache[key].value == "" {
        r := Err(InvalidVerification);
        return;
      }
      var user := users.MarkVerified(cache[key].value);
      if user.None? {
        r := Err(InvalidVerification);
        return;
      }
      cache := cache - {key};
      r := Ok(Acknowledgement(VerifiedMessage));
    }
  }

  /** A refresh token works once: refreshing it succeeds, refreshing it again is refused,
      and the token it was exchanged for is accepted. */
  method RefreshTwice(auth: AuthService, presented: string, now: Time, first: string, second: string)
    returns (a: Result<TokenPair>, b: Result<TokenPair>, c: Result<TokenPair>)
    requires auth.Valid()
    requires CheckRefresh(auth.db.tokens, auth.db.users, presented, now).Ok?
    requires first != second
    requires forall x :: x in auth.db.tokens ==> x.token != first && x.token != second
    modifies auth.db
    ensures a.Ok? && a.value.refreshToken == first
    ensures b == Err(InvalidOrExpired)
    ensures c.Ok? && c.value.refreshToken == second
  {
    var row := CheckRefresh(auth.db.tokens, auth.db.users, presented, now).value.0;
    RotatedTokenIsSingleUse(auth.db.tokens, auth.db.users, row, first, now + RefreshTokenLifetime, now);
    a := auth.RefreshToken(presented, now, first);
    assert presented != first;
    b := auth.RefreshToken(presented, now, second);
    c := auth.RefreshToken(first, now, second);
  }

  /** After a successful logout the token can be neither refreshed nor logged out again. */
  method LogoutTwice(auth: AuthService, presented: string, now: Time, renewed: string)
    returns (a: Result<()>, b: Result<TokenPair>, c: Result<()>)
    requires auth.Valid()
    requires forall x :: x in auth.db.tokens ==> x.token != renewed
    modifies auth.db
    ensures a.Ok? <==> exists x :: x in old(auth.db.tokens) && x.token == presented
    ensures b == Err(InvalidOrExpired)
    ensures c == Err(InvalidRefreshToken)
  {
    a := auth.Logout(presented);
    LogoutRevokes(old(auth.db.tokens), auth.db.users, presented, now);
    b := auth.RefreshToken(presented, now, renewed);
    CountZero(auth.db.tokens, TokenIs(presented));
    c := auth.Logout(presented);
  }

  /** A verification token is consumed by its first successful use. */
  method VerifyTwice(auth: AuthService, token: string) returns (a: Result<Acknowledgement>, b: Result<Acknowledgement>)
    requires auth.Valid()
    modifies auth, auth.db
    ensures a.Ok? ==> b == Err(InvalidVerification)
  {
    a := auth.EmailVerification(token);
    b := auth.EmailVerification(token);
  }
}
