/** The nightly housekeeping sweeps: unverified users older than a day and expired
    refresh tokens are deleted in bulk. */
module Cron {
  import opened Common
  import opened Schema
  import opened Tables
  import opened Db
  import opened Auth

  /** One day in milliseconds. */
  const Day: int := 24 * 60 * 60 * 1000

  /** The where-clause of deleteInactiveUsers: not verified and created before the cutoff. */
  function InactiveBefore(cutoff: Time): User -> bool {
    (u: User) => !u.verified && u.createdAt < cutoff
  }

  /** The where-clause of deleteExpiredTokens: expired strictly before now. */
  function ExpiredAt(now: Time): TokenRow -> bool {
    (row: TokenRow) => row.expiresIn < now
  }

  /** The users sweep removes exactly the unverified users created more than a day before
      `now`: verified users and recent users stay, and nothing else does. */
  lemma InactiveSweepIsExact(users: seq<User>, now: Time)
    ensures var kept := DeleteWhere(users, InactiveBefore(now - Day));
      && (forall u :: u in kept ==> u in users && (u.verified || u.createdAt >= now - Day))
      && (forall u :: u in users && (u.verified || u.createdAt >= now - Day) ==> u in kept)
      && |users| - |kept| == Count(users, InactiveBefore(now - Day))
  {
  }

  /** The tokens sweep leaves only rows that have not expired, and every row that has not
      expired stays in the table. */
  lemma ExpiredSweepIsExact(tokens: seq<TokenRow>, now: Time)
    ensures var kept := DeleteWhere(tokens, ExpiredAt(now));
      && (forall row :: row in kept ==> row in tokens && row.expiresIn >= now)
      && (forall row :: row in tokens && row.expiresIn >= now ==> row in kept)
      && |tokens| - |kept| == Count(tokens, ExpiredAt(now))
  {
  }

  /** A second sweep at the same instant deletes nothing. */
  lemma SweepsAreIdempotent(users: seq<User>, tokens: seq<TokenRow>, now: Time)
    ensures Count(DeleteWhere(users, InactiveBefore(now - Day)), InactiveBefore(now - Day)) == 0
    ensures DeleteWhere(DeleteWhere(users, InactiveBefore(now - Day)), InactiveBefore(now - Day))
         == DeleteWhere(users, InactiveBefore(now - Day))
    ensures Count(DeleteWhere(tokens, ExpiredAt(now)), ExpiredAt(now)) == 0
    ensures DeleteWhere(DeleteWhere(tokens, ExpiredAt(now)), ExpiredAt(now)) == DeleteWhere(tokens, ExpiredAt(now))
  {
    DeleteWhereIdempotent(users, InactiveBefore(now - Day));
    DeleteWhereIdempotent(tokens, ExpiredAt(now));
  }

  /** The sweep agrees with refreshToken: at the instant of the sweep no surviving token
      is refused as expired, so a refusal can only be for an unknown token or owner. */
  lemma SweptTokensPassExpiryCheck(tokens: seq<TokenRow>, users: seq<User>, presented: string, now: Time)
    requires UniqueTokens(tokens)
    requires exists row :: row in DeleteWhere(tokens, ExpiredAt(now)) && row.token == presented
    ensures UniqueTokens(DeleteWhere(tokens, ExpiredAt(now)))
    ensures CheckRefresh(DeleteWhere(tokens, ExpiredAt(now)), users, presented, now) != Err(InvalidOrExpired)
  {
    var kept := DeleteWhere(tokens, ExpiredAt(now));
    DeleteKeepsUniqueTokens(tokens, ExpiredAt(now));
    var row :| row in kept && row.token == presented;
    assert row.expiresIn >= now;
  }

  class CronService {
    const db: Store

    constructor (db: Store)
      ensures this.db == db
    {
      this.db := db;
    }

    /** deleteInactiveUsers: deletes the unverified users created more than a day before
        `now` and reports how many there were. */
    method DeleteInactiveUsers(now: Time) returns (count: nat)
      requires db.Valid()
      modifies db
      ensures db.Valid()
      ensures db.tokens == old(db.tokens) && db.reviews == old(db.reviews) && db.media == old(db.media)
      ensures db.users == DeleteWhere(old(db.users), InactiveBefore(now - Day))
      ensures count == Count(old(db.users), InactiveBefore(now - Day))
      ensures count == |old(db.users)| - |db.users|
    {
      var cutoff := now - Day;
      count := Count(db.users, InactiveBefore(cutoff));
      DeleteKeepsUniqueUsers(db.users, InactiveBefore(cutoff));
      db.users := DeleteWhere(db.users, InactiveBefore(cutoff));
    }

    /** deleteExpiredTokens: deletes the rows that expired before `now` and reports how
        many there were. */
    method DeleteExpiredTokens(now: Time) returns (count: nat)
      requires db.Valid()
      modifies db
      ensures db.Valid()
      ensures db.users == old(db.users) && db.reviews == old(db.reviews) && db.media == old(db.media)
      ensures db.tokens == DeleteWhere(old(db.tokens), ExpiredAt(now))
      ensures count == Count(old(db.tokens), ExpiredAt(now))
      ensures count == |old(db.tokens)| - |db.tokens|
      ensures forall row :: row in db.tokens ==> row.expiresIn >= now
    {
      count := Count(db.tokens, ExpiredAt(now));
      DeleteKeepsUniqueTokens(db.tokens, ExpiredAt(now));
      db.tokens := DeleteWhere(db.tokens, ExpiredAt(now));
    }
  }

  /** Running both sweeps twice at the same instant: the second run reports zero. */
  method SweepTwice(cron: CronService, now: Time) returns (users: nat, tokens: nat, usersAgain: nat, tokensAgain: nat)
    requires cron.db.Valid()
    modifies cron.db
    ensures usersAgain == 0 && tokensAgain == 0
  {
    users := cron.DeleteInactiveUsers(now);
    tokens := cron.DeleteExpiredTokens(now);
    SweepsAreIdempotent(old(cron.db.users), old(cron.db.tokens), now);
    usersAgain := cron.DeleteInactiveUsers(now);
    tokensAgain := cron.DeleteExpiredTokens(now);
  }
}
