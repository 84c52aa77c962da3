/**
  The rows and keys of the backend's five tables (users, code_posts, likes,
  passes, matches), the constraints the store keeps on them, and the
  response shape every route handler shares.

  users and code_posts are AUTO_INCREMENT tables: the row with id n sits at
  index n - 1 of its sequence. likes and passes map their composite primary
  key (user_id, code_post_id) to created_at; matches maps its composite key
  (user1_id, user2_id) to the rest of its row.
*/
module Schema {

  /** Seconds, as PHP's time() and SQL's CURRENT_TIMESTAMP give them. */
  type Timestamp = int

  datatype Option<T> = None | Some(value: T)

  /** PHP's empty() on a request-body field: absent, null, "" and "0" are all empty. */
  predicate Blank(field: Option<string>) {
    field.None? || field.value == "" || field.value == "0"
  }

  /** The error statuses the handlers send. */
  datatype Status = BadRequest | Unauthorized | NotFound | MethodNotAllowed | Conflict | InternalError {
    function Code(): int {
      match this
      case BadRequest => 400
      case Unauthorized => 401
      case NotFound => 404
      case MethodNotAllowed => 405
      case Conflict => 409
      case InternalError => 500
    }
  }

  /** A handler's response: a 200 body, or an error status with its message. */
  datatype Outcome<T> = Ok(value: T) | Fail(status: Status, message: string) {
    function Code(): int {
      if Ok? then 200 else status.Code()
    }
  }

  datatype User = User(
    id: int,
    username: string,
    email: string,
    passwordHash: string,
    profileImage: Option<string>,
    bio: Option<string>,
    githubUrl: Option<string>,
    createdAt: Timestamp)

  datatype Post = Post(
    id: int,
    owner: int,
    title: string,
    codeImage: string,
    language: Option<string>,
    description: Option<string>,
    isActive: bool,
    viewCount: nat,
    createdAt: Timestamp)

  /** likes and passes: (user_id, code_post_id) -> created_at */
  type Decisions = map<(int, int), Timestamp>

  datatype MatchRow = MatchRow(isActive: bool, createdAt: Timestamp)

  /** matches: (user1_id, user2_id) -> row */
  type Matches = map<(int, int), MatchRow>

  predicate IsUser(users: seq<User>, id: int) {
    1 <= id <= |users|
  }

  predicate IsPost(posts: seq<Post>, id: int) {
    1 <= id <= |posts|
  }

  predicate OwnedBy(posts: seq<Post>, postId: int, owner: int) {
    IsPost(posts, postId) && posts[postId - 1].owner == owner
  }

  /** The key a match between a and b is stored under: (min, max). */
  function Canonical(a: int, b: int): (int, int) {
    if a <= b then (a, b) else (b, a)
  }

  /** liker has a row in likes for some post that owner owns. */
  ghost predicate HasLikedPostOf(posts: seq<Post>, likes: Decisions, liker: int, owner: int) {
    exists k :: k in likes && k.0 == liker && OwnedBy(posts, k.1, owner)
  }

  /** Each of a and b has liked a post of the other. */
  ghost predicate Mutual(posts: seq<Post>, likes: Decisions, a: int, b: int) {
    HasLikedPostOf(posts, likes, a, b) && HasLikedPostOf(posts, likes, b, a)
  }

  // ---- constraints the store keeps ----

  predicate UsersKeyed(users: seq<User>) {
    forall i :: 0 <= i < |users| ==> users[i].id == i + 1
  }

  predicate PostsKeyed(posts: seq<Post>) {
    forall i :: 0 <= i < |posts| ==> posts[i].id == i + 1
  }

  /** The UNIQUE keys on users.username and users.email. */
  predicate UniqueLogins(users: seq<User>) {
    forall i, j :: 0 <= i < j < |users| ==>
      users[i].username != users[j].username && users[i].email != users[j].email
  }

  /** code_posts.user_id references users. */
  predicate OwnersExist(users: seq<User>, posts: seq<Post>) {
    forall i :: 0 <= i < |posts| ==> IsUser(users, posts[i].owner)
  }

  /** likes and passes reference an existing user and an existing post. */
  predicate DecisionsReference(users: seq<User>, posts: seq<Post>, d: Decisions) {
    forall k :: k in d ==> IsUser(users, k.0) && IsPost(posts, k.1)
  }

  /** Every match is stored under its canonical key and is active. */
  predicate MatchesCanonical(matches: Matches) {
    forall k :: k in matches ==> k.0 <= k.1 && matches[k].isActive
  }

  /** No match without mutual likes behind it. */
  ghost predicate MatchesAreMutual(posts: seq<Post>, likes: Decisions, matches: Matches) {
    forall k :: k in matches ==> Mutual(posts, likes, k.0, k.1)
  }

  /** Mutual likes always have their match. */
  ghost predicate MutualPairsMatched(posts: seq<Post>, likes: Decisions, matches: Matches) {
    forall a, b :: Mutual(posts, likes, a, b) ==> Canonical(a, b) in matches
  }

  ghost predicate TablesValid(users: seq<User>, posts: seq<Post>, likes: Decisions, passes: Decisions, matches: Matches) {
    && UsersKeyed(users)
    && PostsKeyed(posts)
    && UniqueLogins(users)
    && OwnersExist(users, posts)
    && DecisionsReference(users, posts, likes)
    && DecisionsReference(users, posts, passes)
    && MatchesCanonical(matches)
    && MatchesAreMutual(posts, likes, matches)
    && MutualPairsMatched(posts, likes, matches)
  }

  /** posts2 extends posts and keeps every post's owner. */
  predicate SameOwners(posts: seq<Post>, posts2: seq<Post>) {
    |posts| <= |posts2| && forall i :: 0 <= i < |posts| ==> posts2[i].owner == posts[i].owner
  }

  // ---- lemmas about the match relation ----

  lemma CanonicalIsSymmetric(a: int, b: int)
    ensures Canonical(a, b) == Canonical(b, a)
    ensures Canonical(a, b).0 <= Canonical(a, b).1
    ensures {Canonical(a, b).0, Canonical(a, b).1} == {a, b}
  {
  }

  lemma MutualIsSymmetric(posts: seq<Post>, likes: Decisions, a: int, b: int)
    ensures Mutual(posts, likes, a, b) <==> Mutual(posts, likes, b, a)
  {
  }

  /** Adding the like (u, p) adds exactly "u has liked a post of p's owner". */
  lemma HasLikedAfterLike(posts: seq<Post>, likes: Decisions, u: int, p: int, t: Timestamp, a: int, b: int)
    ensures HasLikedPostOf(posts, likes[(u, p) := t], a, b) <==>
              HasLikedPostOf(posts, likes, a, b) || (a == u && OwnedBy(posts, p, b))
  {
    var likes2 := likes[(u, p) := t];
    if HasLikedPostOf(posts, likes2, a, b) {
      var k :| k in likes2 && k.0 == a && OwnedBy(posts, k.1, b);
      if k != (u, p) {
        assert k in likes;
      }
    }
    if a == u && OwnedBy(posts, p, b) {
      assert (u, p) in likes2;
    }
    if HasLikedPostOf(posts, likes, a, b) {
      var k :| k in likes && k.0 == a && OwnedBy(posts, k.1, b);
      assert k in likes2;
    }
  }

  /** Which user liked which user's post does not depend on anything about a
      post but its owner, nor on posts no like refers to. */
  lemma HasLikedKeepsOwners(users: seq<User>, posts: seq<Post>, posts2: seq<Post>, likes: Decisions, a: int, b: int)
    requires DecisionsReference(users, posts, likes)
    requires SameOwners(posts, posts2)
    ensures HasLikedPostOf(posts2, likes, a, b) <==> HasLikedPostOf(posts, likes, a, b)
  {
    if HasLikedPostOf(posts2, likes, a, b) {
      var k :| k in likes && k.0 == a && OwnedBy(posts2, k.1, b);
      assert OwnedBy(posts, k.1, b);
    }
    if HasLikedPostOf(posts, likes, a, b) {
      var k :| k in likes && k.0 == a && OwnedBy(posts, k.1, b);
      assert OwnedBy(posts2, k.1, b);
    }
  }

  /** The match invariants survive any change to posts that keeps owners, and
      any change to users that keeps existing ids. */
  lemma ValidAfterOwnerPreservingChange(
    users: seq<User>, posts: seq<Post>, users2: seq<User>, posts2: seq<Post>,
    likes: Decisions, passes: Decisions, matches: Matches)
    requires TablesValid(users, posts, likes, passes, matches)
    requires SameOwners(posts, posts2) && |users| <= |users2|
    requires UsersKeyed(users2) && PostsKeyed(posts2) && UniqueLogins(users2) && OwnersExist(users2, posts2)
    ensures TablesValid(users2, posts2, likes, passes, matches)
  {
    forall a, b
      ensures HasLikedPostOf(posts2, likes, a, b) <==> HasLikedPostOf(posts, likes, a, b)
    {
      HasLikedKeepsOwners(users, posts, posts2, likes, a, b);
    }
    assert MatchesAreMutual(posts2, likes, matches);
    assert MutualPairsMatched(posts2, likes, matches);
  }
}
