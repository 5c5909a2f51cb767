/** The database the services share (the Prisma client), with the uniqueness constraints
    of its schema as the store's invariant. */
module Db {
  import opened Common
  import opened Schema
  import opened Tables

  /** Users are unique by id, by username and by email: two positions of the table never
      share any of them. */
  predicate UniqueUsers(users: seq<User>) {
    forall i, j :: 0 <= i < j < |users| ==>
      users[i].id != users[j].id && users[i].username != users[j].username && users[i].email != users[j].email
  }

  /** Refresh-token rows are unique by id and by token value. */
  predicate UniqueTokens(rows: seq<TokenRow>) {
    forall i, j :: 0 <= i < j < |rows| ==> rows[i].id != rows[j].id && rows[i].token != rows[j].token
  }

  /** Reviews are unique by id and by (userId, mediaId): one review per user and title. */
  predicate UniqueReviews(rows: seq<Review>) {
    forall i, j :: 0 <= i < j < |rows| ==>
      rows[i].id != rows[j].id && (rows[i].userId != rows[j].userId || rows[i].mediaId != rows[j].mediaId)
  }

  /** Media rows are unique by id (the metadata API's id). */
  predicate UniqueMedia(rows: seq<Media>) {
    forall i, j :: 0 <= i < j < |rows| ==> rows[i].id != rows[j].id
  }

  // Where-clauses used by the services.
  function UsernameIs(name: string): User -> bool { (u: User) => u.username == name }
  function UserIdIs(id: Id): User -> bool { (u: User) => u.id == id }
  function TokenIs(t: string): TokenRow -> bool { (r: TokenRow) => r.token == t }
  function TokenRowIdIs(id: Id): TokenRow -> bool { (r: TokenRow) => r.id == id }
  function ReviewIdIs(id: Id): Review -> bool { (r: Review) => r.id == id }
  function MediaIdIs(id: real): Media -> bool { (m: Media) => m.id == id }

  class Store {
    var users: seq<User>
    var tokens: seq<TokenRow>
    var reviews: seq<Review>
    var media: seq<Media>

    ghost predicate Valid()
      reads this
    {
      UniqueUsers(users) && UniqueTokens(tokens) && UniqueReviews(reviews) && UniqueMedia(media)
    }

    /** A freshly migrated, empty database. */
    constructor ()
      ensures Valid()
      ensures users == [] && tokens == [] && reviews == [] && media == []
    {
      users, tokens, reviews, media := [], [], [], [];
    }
  }

  /** deleteMany keeps the user indexes unique. */
  lemma DeleteKeepsUniqueUsers(users: seq<User>, p: User -> bool)
    requires UniqueUsers(users)
    ensures UniqueUsers(DeleteWhere(users, p))
  {
    DeleteWhereKeepsPairwise(users, p,
      (a: User, b: User) => a.id != b.id && a.username != b.username && a.email != b.email);
  }

  /** deleteMany keeps the token indexes unique. */
  lemma DeleteKeepsUniqueTokens(tokens: seq<TokenRow>, p: TokenRow -> bool)
    requires UniqueTokens(tokens)
    ensures UniqueTokens(DeleteWhere(tokens, p))
  {
    DeleteWhereKeepsPairwise(tokens, p, (a: TokenRow, b: TokenRow) => a.id != b.id && a.token != b.token);
  }

  /** deleteMany keeps the review indexes unique. */
  lemma DeleteKeepsUniqueReviews(reviews: seq<Review>, p: Review -> bool)
    requires UniqueReviews(reviews)
    ensures UniqueReviews(DeleteWhere(reviews, p))
  {
    DeleteWhereKeepsPairwise(reviews, p,
      (a: Review, b: Review) => a.id != b.id && (a.userId != b.userId || a.mediaId != b.mediaId));
  }

  /** An update that rewrites the one user `target` into `updated`, keeping its id, with a
      username and an email no other user has, keeps the users unique. */
  lemma UpdateOneUserKeepsUnique(users: seq<User>, p: User -> bool, f: User -> User, target: User, updated: User)
    requires UniqueUsers(users) && target in users
    requires forall u :: u in users ==> (p(u) <==> u == target)
    requires f(target) == updated && updated.id == target.id
    requires forall u :: u in users && u != target ==> u.username != updated.username && u.email != updated.email
    ensures UniqueUsers(UpdateWhere(users, p, f))
    ensures forall u :: u in UpdateWhere(users, p, f) ==> u == updated || (u in users && u != target)
  {
    var r := UpdateWhere(users, p, f);
    forall i | 0 <= i < |r| ensures r[i] == (if users[i] == target then updated else users[i]) {
      assert users[i] in users;
    }
    forall u | u in r ensures u == updated || (u in users && u != target) {
      var i :| 0 <= i < |r| && r[i] == u;
      assert users[i] in users;
    }
    forall i, j | 0 <= i < j < |r|
      ensures r[i].id != r[j].id && r[i].username != r[j].username && r[i].email != r[j].email
    {
      assert users[i] in users && users[j] in users;
      assert users[i].id != users[j].id;
      if users[i] == target {
        assert users[j] != target;
      } else if users[j] == target {
        assert r[j] == updated;
      }
    }
  }

  /** An update of reviews that changes no key column keeps them unique. */
  lemma ReviewUpdateKeepsUnique(rows: seq<Review>, p: Review -> bool, f: Review -> Review)
    requires UniqueReviews(rows)
    requires forall x :: x in rows ==> f(x).id == x.id && f(x).userId == x.userId && f(x).mediaId == x.mediaId
    ensures UniqueReviews(UpdateWhere(rows, p, f))
    ensures forall y :: y in UpdateWhere(rows, p, f) ==> exists x :: x in rows && y == (if p(x) then f(x) else x)
  {
    var r := UpdateWhere(rows, p, f);
    forall y | y in r ensures exists x :: x in rows && y == (if p(x) then f(x) else x) {
      var i :| 0 <= i < |r| && r[i] == y;
      assert rows[i] in rows;
    }
    forall i, j | 0 <= i < j < |r|
      ensures r[i].id != r[j].id && (r[i].userId != r[j].userId || r[i].mediaId != r[j].mediaId)
    {
      assert rows[i] in rows && rows[j] in rows;
    }
  }
}
