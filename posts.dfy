/**
  The read-only queries of the posts route: the swipe feed, a user's posts,
  the global listing, the like counts they carry, and the COUNT(*) query the
  match check runs.
*/
module PostQueries {
  import opened Schema
  import opened Ordering

  /** The most posts the swipe feed returns (LIMIT 10). */
  const FeedLimit: nat := 10
  /** The most posts the global listing returns (LIMIT 50). */
  const ListingLimit: nat := 50

  /** A swipe card: the post row joined with its author's name and avatar. */
  datatype FeedCard = FeedCard(post: Post, username: string, profileImage: Option<string>)

  /** A listed post with its like count; isLiked is present only when the
      listing is for a viewer (the user-posts query). */
  datatype PostView = PostView(post: Post, username: string, profileImage: Option<string>, likeCount: nat, isLiked: Option<bool>)

  /** The WHERE clause of the swipe query, with the JOIN on users: active,
      not the caller's, neither liked nor passed by the caller. */
  predicate Swipeable(users: seq<User>, likes: Decisions, passes: Decisions, uid: int, p: Post) {
    && p.owner != uid
    && (uid, p.id) !in likes
    && (uid, p.id) !in passes
    && p.isActive
    && IsUser(users, p.owner)
  }

  /** The swipe WHERE clause as a row filter. */
  function SwipeFilter(users: seq<User>, likes: Decisions, passes: Decisions, uid: int): Post -> bool {
    p => Swipeable(users, likes, passes, uid, p)
  }

  /** The listing WHERE clause (active, author exists) as a row filter. */
  function ListingFilter(users: seq<User>): Post -> bool {
    (p: Post) => p.isActive && IsUser(users, p.owner)
  }

  /** The user-posts WHERE clause as a row filter. */
  function OwnerFilter(users: seq<User>, target: int): Post -> bool {
    (p: Post) => p.owner == target && p.isActive && IsUser(users, p.owner)
  }

  /** The number of rows in likes for one post. */
  function LikeCount(likes: Decisions, postId: int): (n: nat)
    ensures n == 0 <==> forall k :: k in likes ==> k.1 != postId
  {
    var s := set k | k in likes.Keys && k.1 == postId;
    assert (exists k :: k in likes && k.1 == postId) ==> |s| > 0 by {
      if exists k :: k in likes && k.1 == postId {
        var k :| k in likes && k.1 == postId;
        assert k in s;
      }
    }
    |s|
  }

  /** The match check's COUNT(*): rows of likes by liker on posts owner owns. */
  function LikesOnPostsOf(posts: seq<Post>, likes: Decisions, liker: int, owner: int): (n: nat)
    ensures n > 0 <==> HasLikedPostOf(posts, likes, liker, owner)
  {
    var s := set k | k in likes.Keys && k.0 == liker && OwnedBy(posts, k.1, owner);
    if |s| > 0 then
      var k :| k in s;
      assert k in likes && k.0 == liker && OwnedBy(posts, k.1, owner);
      |s|
    else
      assert forall k :: k in likes && k.0 == liker && OwnedBy(posts, k.1, owner) ==> k in s;
      0
  }

  function Author(users: seq<User>, p: Post): User
    requires IsUser(users, p.owner)
  {
    users[p.owner - 1]
  }

  /** A post row joined with its author and its like count. */
  function ViewOf(users: seq<User>, likes: Decisions, p: Post, isLiked: Option<bool>): PostView
    requires IsUser(users, p.owner)
  {
    PostView(p, Author(users, p).username, Author(users, p).profileImage, LikeCount(likes, p.id), isLiked)
  }

  /** Each row joined with its author and like count; isLiked is whether
      the viewer liked it, when there is a viewer. */
  function ViewsOf(users: seq<User>, likes: Decisions, rows: seq<Post>, viewer: Option<int>): (r: seq<PostView>)
    requires forall i :: 0 <= i < |rows| ==> IsUser(users, rows[i].owner)
    ensures |r| == |rows|
    ensures forall i :: 0 <= i < |r| ==>
      && r[i].post == rows[i]
      && r[i].username == Author(users, rows[i]).username
      && r[i].profileImage == Author(users, rows[i]).profileImage
      && r[i].likeCount == LikeCount(likes, rows[i].id)
      && r[i].isLiked == (if viewer.Some? then Some((viewer.value, rows[i].id) in likes) else None)
  {
    seq(|rows|, i requires 0 <= i < |rows| =>
      ViewOf(users, likes, rows[i], if viewer.Some? then Some((viewer.value, rows[i].id) in likes) else None))
  }

  /** Each row joined with its author's name and avatar. */
  function CardsOf(users: seq<User>, rows: seq<Post>): (r: seq<FeedCard>)
    requires forall i :: 0 <= i < |rows| ==> IsUser(users, rows[i].owner)
    ensures |r| == |rows|
    ensures forall i :: 0 <= i < |r| ==>
      && r[i].post == rows[i]
      && r[i].username == Author(users, rows[i]).username
      && r[i].profileImage == Author(users, rows[i]).profileImage
  {
    seq(|rows|, i requires 0 <= i < |rows| =>
      FeedCard(rows[i], Author(users, rows[i]).username, Author(users, rows[i]).profileImage))
  }

  /** GET posts?action=swipe: the caller's next batch of cards. */
  function SwipeFeed(users: seq<User>, posts: seq<Post>, likes: Decisions, passes: Decisions, uid: int): (r: seq<FeedCard>)
    ensures |r| <= FeedLimit
    ensures forall i :: 0 <= i < |r| ==>
      r[i].post in posts && Swipeable(users, likes, passes, uid, r[i].post)
    ensures forall i, j :: 0 <= i < j < |r| ==> r[i].post.createdAt >= r[j].post.createdAt
    ensures forall i :: 0 <= i < |r| ==>
      IsUser(users, r[i].post.owner) &&
      r[i].username == Author(users, r[i].post).username &&
      r[i].profileImage == Author(users, r[i].post).profileImage
  {
    var top := NewestN(posts, SwipeFilter(users, likes, passes, uid), FeedLimit);
    assert forall i :: 0 <= i < |top| ==> top[i] in top;
    CardsOf(users, top)
  }

  /** GET posts?action=user: the target's active posts, newest first, each
      with its like count and whether the viewer liked it. */
  function UserPosts(users: seq<User>, posts: seq<Post>, likes: Decisions, viewer: int, target: int): (r: seq<PostView>)
    ensures forall i :: 0 <= i < |r| ==>
      && r[i].post in posts
      && r[i].post.owner == target
      && r[i].post.isActive
      && IsUser(users, r[i].post.owner)
      && r[i].username == Author(users, r[i].post).username
      && r[i].profileImage == Author(users, r[i].post).profileImage
      && r[i].likeCount == LikeCount(likes, r[i].post.id)
      && r[i].isLiked == Some((viewer, r[i].post.id) in likes)
    ensures forall i, j :: 0 <= i < j < |r| ==> r[i].post.createdAt >= r[j].post.createdAt
  {
    var keep := OwnerFilter(users, target);
    var mine := NewestN(posts, keep, |posts|);
    assert forall i :: 0 <= i < |mine| ==> mine[i] in mine;
    ViewsOf(users, likes, mine, Some(viewer))
  }

  /** GET posts: the 50 newest active posts with their like counts. */
  function AllPosts(users: seq<User>, posts: seq<Post>, likes: Decisions): (r: seq<PostView>)
    ensures |r| <= ListingLimit
    ensures forall i :: 0 <= i < |r| ==>
      && r[i].post in posts
      && r[i].post.isActive
      && IsUser(users, r[i].post.owner)
      && r[i].username == Author(users, r[i].post).username
      && r[i].profileImage == Author(users, r[i].post).profileImage
      && r[i].likeCount == LikeCount(likes, r[i].post.id)
      && r[i].isLiked.None?
    ensures forall i, j :: 0 <= i < j < |r| ==> r[i].post.createdAt >= r[j].post.createdAt
  {
    var top := NewestN(posts, ListingFilter(users), ListingLimit);
    assert forall i :: 0 <= i < |top| ==> top[i] in top;
    ViewsOf(users, likes, top, None)
  }

  /** Every swipeable post the feed leaves out loses to ten newer-or-equal
      cards: the feed is exactly the ten newest swipeable posts, up to ties. */
  lemma SwipeFeedIsNewestTen(users: seq<User>, posts: seq<Post>, likes: Decisions, passes: Decisions, uid: int, p: Post)
    requires p in posts && Swipeable(users, likes, passes, uid, p)
    requires forall i :: 0 <= i < |SwipeFeed(users, posts, likes, passes, uid)| ==>
      SwipeFeed(users, posts, likes, passes, uid)[i].post != p
    ensures |SwipeFeed(users, posts, likes, passes, uid)| == FeedLimit
    ensures forall c :: c in SwipeFeed(users, posts, likes, passes, uid) ==> c.post.createdAt >= p.createdAt
  {
    var keep := SwipeFilter(users, likes, passes, uid);
    var top := NewestN(posts, keep, FeedLimit);
    var r := SwipeFeed(users, posts, likes, passes, uid);
    assert |r| == |top|;
    assert forall i :: 0 <= i < |r| ==> r[i].post == top[i];
    NewestNIsTopN(posts, keep, FeedLimit, p);
  }

  /** When the caller has fewer than ten swipeable posts, the feed holds all of them. */
  lemma SwipeFeedShortIsComplete(users: seq<User>, posts: seq<Post>, likes: Decisions, passes: Decisions, uid: int, p: Post)
    requires p in posts && Swipeable(users, likes, passes, uid, p)
    requires |SwipeFeed(users, posts, likes, passes, uid)| < FeedLimit
    ensures exists i :: 0 <= i < |SwipeFeed(users, posts, likes, passes, uid)| &&
                        SwipeFeed(users, posts, likes, passes, uid)[i].post == p
  {
    var r := SwipeFeed(users, posts, likes, passes, uid);
    if forall i :: 0 <= i < |r| ==> r[i].post != p {
      SwipeFeedIsNewestTen(users, posts, likes, passes, uid, p);
      assert false;
    }
  }

  /** No post appears twice in the feed (code_posts.id is the primary key). */
  lemma SwipeFeedDistinct(users: seq<User>, posts: seq<Post>, likes: Decisions, passes: Decisions, uid: int)
    requires PostsKeyed(posts)
    ensures var r := SwipeFeed(users, posts, likes, passes, uid);
      forall i, j :: 0 <= i < j < |r| ==> r[i].post.id != r[j].post.id
  {
    var keep := SwipeFilter(users, likes, passes, uid);
    NewestNDistinct(posts, keep, FeedLimit);
    var top := NewestN(posts, keep, FeedLimit);
    var r := SwipeFeed(users, posts, likes, passes, uid);
    assert forall i :: 0 <= i < |r| ==> r[i].post == top[i];
  }

  /** No post appears twice in a user's listing. */
  lemma UserPostsDistinct(users: seq<User>, posts: seq<Post>, likes: Decisions, viewer: int, target: int)
    requires PostsKeyed(posts)
    ensures var r := UserPosts(users, posts, likes, viewer, target);
      forall i, j :: 0 <= i < j < |r| ==> r[i].post.id != r[j].post.id
  {
    var keep := OwnerFilter(users, target);
    NewestNDistinct(posts, keep, |posts|);
    var mine := NewestN(posts, keep, |posts|);
    var r := UserPosts(users, posts, likes, viewer, target);
    assert forall i :: 0 <= i < |r| ==> r[i].post == mine[i];
  }

  /** No post appears twice in the global listing. */
  lemma AllPostsDistinct(users: seq<User>, posts: seq<Post>, likes: Decisions)
    requires PostsKeyed(posts)
    ensures var r := AllPosts(users, posts, likes);
      forall i, j :: 0 <= i < j < |r| ==> r[i].post.id != r[j].post.id
  {
    var keep := ListingFilter(users);
    NewestNDistinct(posts, keep, ListingLimit);
    var top := NewestN(posts, keep, ListingLimit);
    var r := AllPosts(users, posts, likes);
    assert forall i :: 0 <= i < |r| ==> r[i].post == top[i];
  }

  /** A decided post never comes back: a card shown after more likes and
      passes was swipeable before them and is still undecided. (The page can
      still gain an older card, since LIMIT 10 applies after the exclusion.) */
  lemma FeedShrinksWithDecisions(users: seq<User>, posts: seq<Post>, likes: Decisions, passes: Decisions,
                                 likes2: Decisions, passes2: Decisions, uid: int, c: FeedCard)
    requires likes.Keys <= likes2.Keys && passes.Keys <= passes2.Keys
    requires c in SwipeFeed(users, posts, likes2, passes2, uid)
    ensures Swipeable(users, likes, passes, uid, c.post)
    ensures (uid, c.post.id) !in likes2 && (uid, c.post.id) !in passes2
  {
    var r := SwipeFeed(users, posts, likes2, passes2, uid);
    var i :| 0 <= i < |r| && r[i] == c;
  }

  /** The user-posts listing has no LIMIT: every active post of an existing
      user is in it. */
  lemma UserPostsComplete(users: seq<User>, posts: seq<Post>, likes: Decisions, viewer: int, target: int, p: Post)
    requires IsUser(users, target)
    requires p in posts && p.owner == target && p.isActive
    ensures exists i :: 0 <= i < |UserPosts(users, posts, likes, viewer, target)| &&
                        UserPosts(users, posts, likes, viewer, target)[i].post == p
  {
    var keep := OwnerFilter(users, target);
    var mine := NewestN(posts, keep, |posts|);
    NewestNKeepsAll(posts, keep, |posts|);
    assert keep(p);
    var i :| 0 <= i < |mine| && mine[i] == p;
    assert UserPosts(users, posts, likes, viewer, target)[i].post == p;
  }

  /** The 50-post listing is the 50 newest active posts, up to ties. */
  lemma AllPostsIsNewestFifty(users: seq<User>, posts: seq<Post>, likes: Decisions, p: Post)
    requires p in posts && p.isActive && IsUser(users, p.owner)
    requires forall i :: 0 <= i < |AllPosts(users, posts, likes)| ==> AllPosts(users, posts, likes)[i].post != p
    ensures |AllPosts(users, posts, likes)| == ListingLimit
    ensures forall v :: v in AllPosts(users, posts, likes) ==> v.post.createdAt >= p.createdAt
  {
    var keep := ListingFilter(users);
    var top := NewestN(posts, keep, ListingLimit);
    var r := AllPosts(users, posts, likes);
    assert forall i :: 0 <= i < |r| ==> r[i].post == top[i];
    NewestNIsTopN(posts, keep, ListingLimit, p);
  }
}
