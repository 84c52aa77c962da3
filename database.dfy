/**
  The backend's write paths over the five tables: register, createPost,
  likePost with its match check, passPost, deletePost, the view counter of
  getPostDetail and updateProfile. One Database object holds the tables;
  each handler is a method that rewrites them and keeps TablesValid.
*/
module Database {
  import opened Schema
  import opened PostQueries
  import opened UserQueries
  import opened AuthRoutes

  datatype Registered = Registered(message: string, token: TokenPayload, user: TokenUser)

  datatype PostCreated = PostCreated(message: string, id: int)

  /** getPostDetail's row: the post (with its view count already raised),
      its author's name, avatar and bio, and its like count. */
  datatype PostDetail = PostDetail(post: Post, username: string, profileImage: Option<string>, bio: Option<string>, likeCount: nat)

  /** INSERT ... ON DUPLICATE KEY UPDATE is_active = true on matches. */
  function Upsert(matches: Matches, key: (int, int), now: Timestamp): (m: Matches)
    ensures m.Keys == matches.Keys + {key}
    ensures m[key].isActive
    ensures key in matches ==> m[key].createdAt == matches[key].createdAt
    ensures key !in matches ==> m[key].createdAt == now
    ensures forall k :: k in matches && k != key ==> m[k] == matches[k]
  {
    matches[key := MatchRow(true, if key in matches then matches[key].createdAt else now)]
  }

  /** The matches table after likePost's check, when the like (u, p) has
      already been written to likes. */
  function AfterMatchCheck(posts: seq<Post>, likes: Decisions, matches: Matches, u: int, p: int, now: Timestamp): Matches
    requires IsPost(posts, p)
  {
    var owner := posts[p - 1].owner;
    if LikesOnPostsOf(posts, likes, owner, u) > 0 then Upsert(matches, Canonical(u, owner), now) else matches
  }

  /** Under the table invariants a pair is matched exactly when each side
      has liked a post of the other. */
  lemma MatchedIffMutual(users: seq<User>, posts: seq<Post>, likes: Decisions, passes: Decisions, matches: Matches, a: int, b: int)
    requires TablesValid(users, posts, likes, passes, matches)
    ensures Canonical(a, b) in matches <==> Mutual(posts, likes, a, b)
  {
    if Canonical(a, b) in matches {
      var k := Canonical(a, b);
      assert Mutual(posts, likes, k.0, k.1);
      MutualIsSymmetric(posts, likes, a, b);
    }
  }

  /** What one like (u, p) changes in the mutual relation: it keeps every
      mutual pair, and the only pair it can add is u with p's owner. */
  lemma LikeChangesMutual(posts: seq<Post>, likes: Decisions, u: int, p: int, t: Timestamp, a: int, b: int)
    requires IsPost(posts, p)
    ensures var likes2 := likes[(u, p) := t];
      && (Mutual(posts, likes, a, b) ==> Mutual(posts, likes2, a, b))
      && (Mutual(posts, likes2, a, b) && !Mutual(posts, likes, a, b) ==>
            Canonical(a, b) == Canonical(u, posts[p - 1].owner) && Mutual(posts, likes2, u, posts[p - 1].owner))
  {
    var o := posts[p - 1].owner;
    HasLikedAfterLike(posts, likes, u, p, t, a, b);
    HasLikedAfterLike(posts, likes, u, p, t, b, a);
    MutualIsSymmetric(posts, likes[(u, p) := t], u, o);
  }

  /** The match check's count is positive exactly when the like made (or
      found) the caller and the owner mutual. */
  lemma CheckCountIsMutual(posts: seq<Post>, likes: Decisions, u: int, p: int, t: Timestamp)
    requires IsPost(posts, p)
    ensures var likes2 := likes[(u, p) := t];
      LikesOnPostsOf(posts, likes2, posts[p - 1].owner, u) > 0 <==> Mutual(posts, likes2, u, posts[p - 1].owner)
  {
    HasLikedAfterLike(posts, likes, u, p, t, u, posts[p - 1].owner);
  }

  /** A like followed by the match check keeps "matched iff mutual". */
  lemma LikeKeepsMatchInvariants(posts: seq<Post>, likes: Decisions, matches: Matches, u: int, p: int, t: Timestamp, now: Timestamp)
    requires IsPost(posts, p)
    requires MatchesCanonical(matches) && MatchesAreMutual(posts, likes, matches) && MutualPairsMatched(posts, likes, matches)
    ensures var likes2 := likes[(u, p) := t];
      var m2 := AfterMatchCheck(posts, likes2, matches, u, p, now);
      MatchesCanonical(m2) && MatchesAreMutual(posts, likes2, m2) && MutualPairsMatched(posts, likes2, m2)
  {
    var likes2 := likes[(u, p) := t];
    var o := posts[p - 1].owner;
    var m2 := AfterMatchCheck(posts, likes2, matches, u, p, now);
    CheckCountIsMutual(posts, likes, u, p, t);
    forall k | k in m2
      ensures k.0 <= k.1 && m2[k].isActive && Mutual(posts, likes2, k.0, k.1)
    {
      if k in matches && (m2 == matches || k != Canonical(u, o)) {
        LikeChangesMutual(posts, likes, u, p, t, k.0, k.1);
      } else {
        CanonicalIsSymmetric(u, o);
        MutualIsSymmetric(posts, likes2, u, o);
      }
    }
    forall a, b | Mutual(posts, likes2, a, b)
      ensures Canonical(a, b) in m2
    {
      LikeChangesMutual(posts, likes, u, p, t, a, b);
    }
  }

  /** Nothing stops a user liking their own post, and the match check then
      records the user as matched with themself. */
  lemma SelfLikeMatchesSelf(posts: seq<Post>, likes: Decisions, matches: Matches, u: int, p: int, t: Timestamp, now: Timestamp)
    requires OwnedBy(posts, p, u)
    ensures (u, u) in AfterMatchCheck(posts, likes[(u, p) := t], matches, u, p, now)
  {
    CheckCountIsMutual(posts, likes, u, p, t);
    HasLikedAfterLike(posts, likes, u, p, t, u, u);
  }

  /** Liking the same post again refreshes the like's timestamp and nothing
      else: no new row in likes, and the matches table the first like left
      is left as it is. */
  lemma LikeIsIdempotent(posts: seq<Post>, likes: Decisions, matches: Matches, u: int, p: int,
                         t1: Timestamp, t2: Timestamp, now1: Timestamp, now2: Timestamp)
    requires IsPost(posts, p)
    ensures var likes1 := likes[(u, p) := t1];
      var m1 := AfterMatchCheck(posts, likes1, matches, u, p, now1);
      && likes1[(u, p) := t2] == likes[(u, p) := t2]
      && likes1[(u, p) := t2].Keys == likes1.Keys
      && AfterMatchCheck(posts, likes1[(u, p) := t2], m1, u, p, now2) == m1
  {
    var likes1 := likes[(u, p) := t1];
    var likes2 := likes1[(u, p) := t2];
    var o := posts[p - 1].owner;
    CheckCountIsMutual(posts, likes, u, p, t1);
    CheckCountIsMutual(posts, likes1, u, p, t2);
    forall a, b ensures HasLikedPostOf(posts, likes2, a, b) <==> HasLikedPostOf(posts, likes1, a, b) {
      HasLikedAfterLike(posts, likes1, u, p, t2, a, b);
      HasLikedAfterLike(posts, likes, u, p, t1, a, b);
    }
  }

  class Database {
    var users: seq<User>
    var posts: seq<Post>
    var likes: Decisions
    var passes: Decisions
    var matches: Matches

    ghost predicate Valid()
      reads this
    {
      TablesValid(users, posts, likes, passes, matches)
    }

    /** Empty tables. */
    constructor ()
      ensures Valid()
      ensures users == [] && posts == [] && likes == map[] && passes == map[] && matches == map[]
    {
      users, posts, likes, passes, matches := [], [], map[], map[], map[];
    }

    /** POST auth?action=register. hash stands for password_hash. */
    method Register(username: Option<string>, email: Option<string>, password: Option<string>,
                    hash: string -> string, now: Timestamp) returns (r: Outcome<Registered>)
      requires Valid()
      modifies this
      ensures Valid()
      ensures posts == old(posts) && likes == old(likes) && passes == old(passes) && matches == old(matches)
      ensures Blank(username) || Blank(email) || Blank(password) ==>
        r == Fail(BadRequest, "Missing required fields") && users == old(users)
      ensures !Blank(username) && !Blank(email) && !Blank(password) && Taken(old(users), username.value, email.value) ==>
        r == Fail(Conflict, "User already exists") && users == old(users)
      ensures r.Ok? <==> !Blank(username) && !Blank(email) && !Blank(password) && !Taken(old(users), username.value, email.value)
      ensures r.Ok? ==>
        var id := |old(users)| + 1;
        && users == old(users) + [User(id, username.value, email.value, hash(password.value), None, None, None, now)]
        && r.value.user == TokenUser(id, username.value, email.value)
        && r.value.token == Payload(id, username.value, email.value, now)
    {
      if Blank(username) || Blank(email) || Blank(password) {
        return Fail(BadRequest, "Missing required fields");
      }
      if Taken(users, username.value, email.value) {
        return Fail(Conflict, "User already exists");
      }
      var id := |users| + 1;
      var row := User(id, username.value, email.value, hash(password.value), None, None, None, now);
      ghost var before := users;
      users := users + [row];
      ValidAfterOwnerPreservingChange(before, posts, users, posts, likes, passes, matches);
      r := Ok(Registered("User created successfully", Payload(id, row.username, row.email, now), TokenUser(id, row.username, row.email)));
    }

    /** POST posts: the caller's new post, active with no views. */
    method CreatePost(userId: int, title: Option<string>, codeImage: Option<string>,
                      language: Option<string>, description: Option<string>, now: Timestamp) returns (r: Outcome<PostCreated>)
      requires Valid()
      modifies this
      ensures Valid()
      ensures users == old(users) && likes == old(likes) && passes == old(passes) && matches == old(matches)
      ensures Blank(codeImage) || Blank(title) ==> r == Fail(BadRequest, "Missing required fields")
      ensures !Blank(codeImage) && !Blank(title) && !IsUser(users, userId) ==> r == Fail(InternalError, "Failed to create post")
      ensures r.Fail? ==> posts == old(posts)
      ensures r.Ok? <==> !Blank(codeImage) && !Blank(title) && IsUser(users, userId)
      ensures r.Ok? ==>
        && r.value.id == |old(posts)| + 1
        && posts == old(posts) + [Post(r.value.id, userId, title.value, codeImage.value, language, description, true, 0, now)]
    {
      if Blank(codeImage) || Blank(title) {
        return Fail(BadRequest, "Missing required fields");
      }
      if !IsUser(users, userId) {
        return Fail(InternalError, "Failed to create post");
      }
      var id := |posts| + 1;
      ghost var before := posts;
      posts := posts + [Post(id, userId, title.value, codeImage.value, language, description, true, 0, now)];
      ValidAfterOwnerPreservingChange(users, before, users, posts, likes, passes, matches);
      r := Ok(PostCreated("Post created successfully", id));
    }

    /** checkMatch: after the caller's like on postId, record a match with
        the post's owner when the owner has liked a post of the caller. */
    method CheckMatch(userId: int, postId: int, now: Timestamp)
      requires IsPost(posts, postId)
      modifies this`matches
      ensures matches == AfterMatchCheck(posts, likes, old(matches), userId, postId, now)
    {
      var owner := posts[postId - 1].owner;
      if LikesOnPostsOf(posts, likes, owner, userId) > 0 {
        var user1 := if userId <= owner then userId else owner;
        var user2 := if userId <= owner then owner else userId;
        matches := Upsert(matches, (user1, user2), now);
      }
    }

    /** POST posts?action=like. */
    method LikePost(userId: int, postId: int, now: Timestamp) returns (r: Outcome<string>)
      requires Valid()
      modifies this
      ensures Valid()
      ensures users == old(users) && posts == old(posts) && passes == old(passes)
      ensures r.Ok? <==> IsUser(users, userId) && IsPost(posts, postId)
      ensures r.Fail? ==> r == Fail(InternalError, "Failed to like post") && likes == old(likes) && matches == old(matches)
      ensures r.Ok? ==>
        && r.value == "Post liked successfully"
        && likes == old(likes)[(userId, postId) := now]
        && matches == AfterMatchCheck(posts, likes, old(matches), userId, postId, now)
    {
      if !IsUser(users, userId) || !IsPost(posts, postId) {
        return Fail(InternalError, "Failed to like post");
      }
      ghost var likes0, matches0 := likes, matches;
      likes := likes[(userId, postId) := now];
      CheckMatch(userId, postId, now);
      LikeKeepsMatchInvariants(posts, likes0, matches0, userId, postId, now, now);
      r := Ok("Post liked successfully");
    }

    /** POST posts?action=pass. */
    method PassPost(userId: int, postId: int, now: Timestamp) returns (r: Outcome<string>)
      requires Valid()
      modifies this
      ensures Valid()
      ensures users == old(users) && posts == old(posts) && likes == old(likes) && matches == old(matches)
      ensures r.Ok? <==> IsUser(users, userId) && IsPost(posts, postId)
      ensures r.Fail? ==> r == Fail(InternalError, "Failed to pass post") && passes == old(passes)
      ensures r.Ok? ==> r.value == "Post passed successfully" && passes == old(passes)[(userId, postId) := now]
    {
      if !IsUser(users, userId) || !IsPost(posts, postId) {
        return Fail(InternalError, "Failed to pass post");
      }
      passes := passes[(userId, postId) := now];
      r := Ok("Post passed successfully");
    }

    /** DELETE posts?id=...: soft delete. The UPDATE reports the rows it
        changed, so a post that is already inactive is "not found". */
    method DeletePost(userId: int, postId: int) returns (r: Outcome<string>)
      requires Valid()
      modifies this
      ensures Valid()
      ensures users == old(users) && likes == old(likes) && passes == old(passes) && matches == old(matches)
      ensures r.Ok? <==> OwnedBy(old(posts), postId, userId) && old(posts)[postId - 1].isActive
      ensures r.Fail? ==> r == Fail(NotFound, "Post not found or unauthorized") && posts == old(posts)
      ensures r.Ok? ==>
        && r.value == "Post deleted successfully"
        && posts == old(posts)[postId - 1 := old(posts)[postId - 1].(isActive := false)]
    {
      if !(OwnedBy(posts, postId, userId) && posts[postId - 1].isActive) {
        return Fail(NotFound, "Post not found or unauthorized");
      }
      ghost var before := posts;
      posts := posts[postId - 1 := posts[postId - 1].(isActive := false)];
      ValidAfterOwnerPreservingChange(users, before, users, posts, likes, passes, matches);
      r := Ok("Post deleted successfully");
    }

    /** GET posts?action=detail&id=...: an active post with its author, counted as one
        more view. */
    method GetPostDetail(postId: int) returns (r: Outcome<PostDetail>)
      requires Valid()
      modifies this
      ensures Valid()
      ensures users == old(users) && likes == old(likes) && passes == old(passes) && matches == old(matches)
      ensures r.Ok? <==> IsPost(old(posts), postId) && old(posts)[postId - 1].isActive
      ensures r.Fail? ==> r == Fail(NotFound, "Post not found") && posts == old(posts)
      ensures r.Ok? ==>
        var p := old(posts)[postId - 1];
        && posts == old(posts)[postId - 1 := p.(viewCount := p.viewCount + 1)]
        && r.value.post == posts[postId - 1]
        && r.value.username == users[p.owner - 1].username
        && r.value.profileImage == users[p.owner - 1].profileImage
        && r.value.bio == users[p.owner - 1].bio
        && r.value.likeCount == LikeCount(likes, postId)
    {
      if !(IsPost(posts, postId) && posts[postId - 1].isActive && IsUser(users, posts[postId - 1].owner)) {
        return Fail(NotFound, "Post not found");
      }
      var p := posts[postId - 1];
      var author := users[p.owner - 1];
      var count := LikeCount(likes, postId);
      ghost var before := posts;
      posts := posts[postId - 1 := p.(viewCount := p.viewCount + 1)];
      ValidAfterOwnerPreservingChange(users, before, users, posts, likes, passes, matches);
      r := Ok(PostDetail(posts[postId - 1], author.username, author.profileImage, author.bio, count));
    }

    /** users?action=update (the client sends it with POST): set the
        supplied profile columns of the caller's row. The UPDATE matching no
        row is still a success. */
    method UpdateProfile(userId: int, bio: Option<string>, profileImage: Option<string>, githubUrl: Option<string>)
      returns (r: Outcome<string>)
      requires Valid()
      modifies this
      ensures Valid()
      ensures posts == old(posts) && likes == old(likes) && passes == old(passes) && matches == old(matches)
      ensures r.Ok? <==> bio.Some? || profileImage.Some? || githubUrl.Some?
      ensures r.Fail? ==> r == Fail(BadRequest, "No fields to update")
      ensures r.Ok? ==> r.value == "Profile updated successfully"
      ensures r.Fail? || !IsUser(old(users), userId) ==> users == old(users)
      ensures r.Ok? && IsUser(old(users), userId) ==>
        var u := old(users)[userId - 1];
        users == old(users)[userId - 1 := u.(
          bio := if bio.Some? then bio else u.bio,
          profileImage := if profileImage.Some? then profileImage else u.profileImage,
          githubUrl := if githubUrl.Some? then githubUrl else u.githubUrl)]
    {
      var sets: seq<Assignment> := [];
      if bio.Some? {
        sets := sets + [Assignment(BioColumn, bio.value)];
      }
      if profileImage.Some? {
        sets := sets + [Assignment(ProfileImageColumn, profileImage.value)];
      }
      if githubUrl.Some? {
        sets := sets + [Assignment(GithubUrlColumn, githubUrl.value)];
      }
      assert sets == ProfileAssignments(bio, profileImage, githubUrl);
      if sets == [] {
        return Fail(BadRequest, "No fields to update");
      }
      if IsUser(users, userId) {
        ghost var before := users;
        ProfileUpdateEffect(users[userId - 1], bio, profileImage, githubUrl);
        users := users[userId - 1 := ApplyAll(users[userId - 1], sets)];
        assert UniqueLogins(users) by {
          forall i, j | 0 <= i < j < |users|
            ensures users[i].username != users[j].username && users[i].email != users[j].email
          {
            assert users[i].username == before[i].username && users[j].username == before[j].username;
            assert users[i].email == before[i].email && users[j].email == before[j].email;
          }
        }
        ValidAfterOwnerPreservingChange(before, posts, users, posts, likes, passes, matches);
      }
      r := Ok("Profile updated successfully");
    }
  }
}
