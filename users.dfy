/**
  The read-only queries of the users route (search and profile) and the
  column assignments a profile update is built from.
*/
module UserQueries {
  import opened Schema

  /** Queries shorter than this return an empty list. */
  const MinQueryLength: nat := 2
  /** The most users a search returns (LIMIT 20). */
  const SearchLimit: nat := 20

  /** A search hit: the selected columns, never the password hash. */
  datatype SearchHit = SearchHit(id: int, username: string, email: string, profileImage: Option<string>, bio: Option<string>)

  /** The profile row with its two counters, never the password hash. */
  datatype Profile = Profile(
    id: int,
    username: string,
    email: string,
    profileImage: Option<string>,
    bio: Option<string>,
    githubUrl: Option<string>,
    createdAt: Timestamp,
    postCount: nat,
    likesReceived: nat)

  /** `LIKE '%q%'`: q occurs in s. */
  predicate Contains(s: string, q: string)
    decreases |s|
  {
    q <= s || (s != [] && Contains(s[1..], q))
  }

  /** q occurs in s starting at offset i. */
  predicate OccursAt(s: string, q: string, i: int) {
    0 <= i <= |s| - |q| && s[i..i + |q|] == q
  }

  /** Contains agrees with "q occurs at some offset of s". */
  lemma {:induction false} ContainsAtOffset(s: string, q: string)
    ensures Contains(s, q) <==> exists i :: OccursAt(s, q, i)
    decreases |s|
  {
    if q <= s {
      assert OccursAt(s, q, 0);
    } else if s == [] {
    } else {
      ContainsAtOffset(s[1..], q);
      if Contains(s[1..], q) {
        var i :| OccursAt(s[1..], q, i);
        assert s[i + 1..i + 1 + |q|] == s[1..][i..i + |q|];
        assert OccursAt(s, q, i + 1);
      }
      if exists i :: OccursAt(s, q, i) {
        var i :| OccursAt(s, q, i);
        if i == 0 {
          assert false;
        }
        assert s[1..][i - 1..i - 1 + |q|] == s[i..i + |q|];
        assert OccursAt(s[1..], q, i - 1);
      }
    }
  }

  predicate SearchMatch(u: User, q: string) {
    Contains(u.username, q) || Contains(u.email, q)
  }

  /** The users of the table that match q, in table order. */
  function MatchingUsers(users: seq<User>, q: string): (r: seq<User>)
    ensures |r| <= |users|
    ensures forall u :: u in r <==> u in users && SearchMatch(u, q)
    ensures multiset(r) <= multiset(users)
  {
    if users == [] then []
    else
      assert users == [users[0]] + users[1..];
      if SearchMatch(users[0], q) then [users[0]] + MatchingUsers(users[1..], q)
      else MatchingUsers(users[1..], q)
  }

  function HitOf(u: User): SearchHit {
    SearchHit(u.id, u.username, u.email, u.profileImage, u.bio)
  }

  /** GET users?action=search&q=... */
  function SearchUsers(users: seq<User>, q: string): (r: seq<SearchHit>)
    ensures |q| < MinQueryLength ==> r == []
    ensures |r| <= SearchLimit
    ensures forall h :: h in r ==> exists u :: u in users && SearchMatch(u, q) && h == HitOf(u)
  {
    if |q| < MinQueryLength then []
    else
      var found := MatchingUsers(users, q);
      var n := if |found| <= SearchLimit then |found| else SearchLimit;
      assert forall i :: 0 <= i < n ==> found[i] in found;
      seq(n, i requires 0 <= i < n => HitOf(found[i]))
  }

  /** No two users of the sequence share an id. */
  predicate DistinctIds(us: seq<User>) {
    forall i, j :: 0 <= i < j < |us| ==> us[i].id != us[j].id
  }

  /** A user whose id is new to a distinct sequence keeps it distinct. */
  lemma ConsDistinct(u: User, us: seq<User>)
    requires DistinctIds(us)
    requires forall j :: 0 <= j < |us| ==> us[j].id != u.id
    ensures DistinctIds([u] + us)
  {
    var r := [u] + us;
    forall i, j | 0 <= i < j < |r| ensures r[i].id != r[j].id {
      assert r[j] == us[j - 1];
    }
  }

  /** The search keeps distinct ids distinct: no user is matched twice. */
  lemma {:induction false} MatchingUsersDistinct(users: seq<User>, q: string)
    requires DistinctIds(users)
    ensures DistinctIds(MatchingUsers(users, q))
  {
    if users != [] {
      var rest := users[1..];
      assert DistinctIds(rest) by {
        forall i, j | 0 <= i < j < |rest| ensures rest[i].id != rest[j].id {
          assert rest[i] == users[i + 1] && rest[j] == users[j + 1];
        }
      }
      MatchingUsersDistinct(rest, q);
      var tail := MatchingUsers(rest, q);
      forall j | 0 <= j < |tail| ensures tail[j].id != users[0].id {
        assert tail[j] in rest;
        var k :| 0 <= k < |rest| && rest[k] == tail[j];
        assert users[k + 1] == tail[j];
      }
      if SearchMatch(users[0], q) {
        ConsDistinct(users[0], tail);
      }
    }
  }

  /** With user ids as keys, no user is listed twice in a search. */
  lemma SearchUsersDistinct(users: seq<User>, q: string)
    requires UsersKeyed(users)
    ensures var r := SearchUsers(users, q);
      forall i, j :: 0 <= i < j < |r| ==> r[i].id != r[j].id
  {
    if |q| >= MinQueryLength {
      MatchingUsersDistinct(users, q);
      var found := MatchingUsers(users, q);
      var r := SearchUsers(users, q);
      forall i, j | 0 <= i < j < |r| ensures r[i].id != r[j].id {
        assert r[i] == HitOf(found[i]) && r[j] == HitOf(found[j]);
      }
    }
  }

  /** While fewer than 20 users match, every matching user is found. */
  lemma SearchFindsAllWhenNotFull(users: seq<User>, q: string, u: User)
    requires |q| >= MinQueryLength
    requires u in users && SearchMatch(u, q)
    requires |MatchingUsers(users, q)| <= SearchLimit
    ensures HitOf(u) in SearchUsers(users, q)
  {
    var found := MatchingUsers(users, q);
    var r := SearchUsers(users, q);
    var i :| 0 <= i < |found| && found[i] == u;
    assert r[i] == HitOf(u);
  }

  /** A matching user is left out of a search only when the page is full. */
  lemma SearchMissesOnlyWhenFull(users: seq<User>, q: string, u: User)
    requires |q| >= MinQueryLength
    requires u in users && SearchMatch(u, q)
    requires HitOf(u) !in SearchUsers(users, q)
    ensures |SearchUsers(users, q)| == SearchLimit
  {
    if |MatchingUsers(users, q)| <= SearchLimit {
      SearchFindsAllWhenNotFull(users, q, u);
      assert false;
    }
  }

  /** The number of active posts owner has. */
  function ActivePostCount(posts: seq<Post>, owner: int): (n: nat)
    ensures n <= |posts|
  {
    if posts == [] then 0
    else (if posts[0].owner == owner && posts[0].isActive then 1 else 0) + ActivePostCount(posts[1..], owner)
  }

  /** The number of likes on any post of owner, active or not. */
  function LikesReceived(posts: seq<Post>, likes: Decisions, owner: int): nat {
    |set k | k in likes.Keys && OwnedBy(posts, k.1, owner)|
  }

  /** GET users?action=profile&id=... */
  function UserProfile(users: seq<User>, posts: seq<Post>, likes: Decisions, profileId: int): (r: Outcome<Profile>)
    ensures !IsUser(users, profileId) ==> r == Fail(NotFound, "User not found")
    ensures IsUser(users, profileId) ==>
      && r.Ok?
      && var u := users[profileId - 1];
      && r.value.id == u.id && r.value.createdAt == u.createdAt
      && r.value.username == u.username && r.value.email == u.email
      && r.value.bio == u.bio && r.value.profileImage == u.profileImage && r.value.githubUrl == u.githubUrl
      && r.value.postCount == ActivePostCount(posts, u.id)
      && r.value.likesReceived == LikesReceived(posts, likes, u.id)
  {
    if !IsUser(users, profileId) then Fail(NotFound, "User not found")
    else
      var u := users[profileId - 1];
      Ok(Profile(u.id, u.username, u.email, u.profileImage, u.bio, u.githubUrl, u.createdAt,
                 ActivePostCount(posts, u.id), LikesReceived(posts, likes, u.id)))
  }

  /** Soft-deleting an active post of u lowers u's post count by one and
      leaves the likes u received unchanged. */
  lemma {:induction false} DeactivationCounters(posts: seq<Post>, likes: Decisions, i: int, u: int)
    requires 0 <= i < |posts| && posts[i].owner == u && posts[i].isActive
    ensures ActivePostCount(posts[i := posts[i].(isActive := false)], u) == ActivePostCount(posts, u) - 1
    ensures LikesReceived(posts[i := posts[i].(isActive := false)], likes, u) == LikesReceived(posts, likes, u)
  {
    var posts2 := posts[i := posts[i].(isActive := false)];
    DeactivationCount(posts, i, u);
    assert forall id :: OwnedBy(posts2, id, u) <==> OwnedBy(posts, id, u);
    assert (set k | k in likes.Keys && OwnedBy(posts2, k.1, u)) == (set k | k in likes.Keys && OwnedBy(posts, k.1, u));
  }

  lemma {:induction false} DeactivationCount(posts: seq<Post>, i: int, u: int)
    requires 0 <= i < |posts| && posts[i].owner == u && posts[i].isActive
    ensures ActivePostCount(posts[i := posts[i].(isActive := false)], u) == ActivePostCount(posts, u) - 1
  {
    var posts2 := posts[i := posts[i].(isActive := false)];
    if i > 0 {
      assert posts2[1..] == posts[1..][i - 1 := posts[i].(isActive := false)];
      DeactivationCount(posts[1..], i - 1, u);
    } else {
      assert posts2[1..] == posts[1..];
    }
  }

  // ---- profile update ----

  datatype Column = BioColumn | ProfileImageColumn | GithubUrlColumn

  /** One `column = :column` entry of the UPDATE's SET list with its bound value. */
  datatype Assignment = Assignment(column: Column, value: string)

  /** Apply one SET entry to a users row. */
  function Assign(u: User, a: Assignment): (v: User)
    ensures v.id == u.id && v.username == u.username && v.email == u.email
    ensures v.passwordHash == u.passwordHash && v.createdAt == u.createdAt
  {
    match a.column
    case BioColumn => u.(bio := Some(a.value))
    case ProfileImageColumn => u.(profileImage := Some(a.value))
    case GithubUrlColumn => u.(githubUrl := Some(a.value))
  }

  /** The UPDATE's SET list: one entry for each of bio, profile_image and
      github_url that the request supplies, in that order. */
  function ProfileAssignments(bio: Option<string>, profileImage: Option<string>, githubUrl: Option<string>): (sets: seq<Assignment>)
    ensures sets == [] <==> bio.None? && profileImage.None? && githubUrl.None?
    ensures |sets| <= 3
  {
    (if bio.Some? then [Assignment(BioColumn, bio.value)] else [])
    + (if profileImage.Some? then [Assignment(ProfileImageColumn, profileImage.value)] else [])
    + (if githubUrl.Some? then [Assignment(GithubUrlColumn, githubUrl.value)] else [])
  }

  /** The row after every entry of the SET list, left to right. */
  function ApplyAll(u: User, sets: seq<Assignment>): (v: User)
    ensures v.id == u.id && v.username == u.username && v.email == u.email
    ensures v.passwordHash == u.passwordHash && v.createdAt == u.createdAt
    decreases |sets|
  {
    if sets == [] then u else ApplyAll(Assign(u, sets[0]), sets[1..])
  }

  /** A profile update sets exactly the supplied columns to the supplied
      values and keeps every other column of the row. */
  lemma {:induction false} ProfileUpdateEffect(u: User, bio: Option<string>, profileImage: Option<string>, githubUrl: Option<string>)
    ensures var v := ApplyAll(u, ProfileAssignments(bio, profileImage, githubUrl));
      && v.bio == (if bio.Some? then bio else u.bio)
      && v.profileImage == (if profileImage.Some? then profileImage else u.profileImage)
      && v.githubUrl == (if githubUrl.Some? then githubUrl else u.githubUrl)
      && v == u.(bio := v.bio, profileImage := v.profileImage, githubUrl := v.githubUrl)
  {
    var b := if bio.Some? then [Assignment(BioColumn, bio.value)] else [];
    var i := if profileImage.Some? then [Assignment(ProfileImageColumn, profileImage.value)] else [];
    var g := if githubUrl.Some? then [Assignment(GithubUrlColumn, githubUrl.value)] else [];
    ApplyConcat(u, b, i + g);
    ApplyConcat(ApplyAll(u, b), i, g);
    assert b + i + g == b + (i + g);
    UnfoldOne(u, b);
    UnfoldOne(ApplyAll(u, b), i);
    UnfoldOne(ApplyAll(ApplyAll(u, b), i), g);
  }

  lemma {:induction false} ApplyConcat(u: User, s: seq<Assignment>, t: seq<Assignment>)
    ensures ApplyAll(u, s + t) == ApplyAll(ApplyAll(u, s), t)
    decreases |s|
  {
    if s != [] {
      assert (s + t)[1..] == s[1..] + t;
      ApplyConcat(Assign(u, s[0]), s[1..], t);
    } else {
      assert s + t == t;
    }
  }

  lemma UnfoldOne(u: User, s: seq<Assignment>)
    requires |s| <= 1
    ensures s == [] ==> ApplyAll(u, s) == u
    ensures |s| == 1 ==> ApplyAll(u, s) == Assign(u, s[0])
  {
    if |s| == 1 {
      assert s[1..] == [];
    }
  }

  /** Sending the same profile update twice leaves the row as the first one did. */
  lemma ProfileUpdateIdempotent(u: User, bio: Option<string>, profileImage: Option<string>, githubUrl: Option<string>)
    ensures var sets := ProfileAssignments(bio, profileImage, githubUrl);
      ApplyAll(ApplyAll(u, sets), sets) == ApplyAll(u, sets)
  {
    var sets := ProfileAssignments(bio, profileImage, githubUrl);
    ProfileUpdateEffect(u, bio, profileImage, githubUrl);
    ProfileUpdateEffect(ApplyAll(u, sets), bio, profileImage, githubUrl);
  }
}
