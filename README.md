# YourCode: a verified model of the swipe backend and its client state

YourCode is a "dating app for code": users post screenshots of code, swipe
through other people's posts, and two users who like each other's posts
become a match. This project models its PHP backend routes and two pieces of
client state, and proves properties of them.

The backend works over five tables: `users`, `code_posts`, `likes`, `passes`
and `matches`.

- `schema.dfy` (module `Schema`) holds the rows, the keys and the invariants
  kept on the tables (`TablesValid`). These include "a pair of users is
  matched exactly when each has liked a post of the other".
- `ordering.dfy` (module `Ordering`) holds the WHERE, `ORDER BY created_at
  DESC` and LIMIT steps that every listing shares.
- `posts.dfy` (module `PostQueries`) holds the read-only post queries: the
  swipe feed, a user's posts and the global listing.
- `users.dfy` (module `UserQueries`) holds user search, the profile with its
  counters, and the column assignments of a profile update.
- `auth.dfy` (module `AuthRoutes`) holds login and the token payload.
- `upload.dfy` (module `Upload`) holds the image upload's guard chain and the
  stored file name.
- `database.dfy` (module `Database`) holds a `Database` class owning the five
  tables. Every write route is a method on it: register, createPost,
  likePost with its match check, passPost, deletePost, the view counter of
  getPostDetail, and updateProfile. Each method keeps `TablesValid` and
  states the new tables exactly.
- `auth_store.dfy` (module `ClientAuth`) models the client's auth store.
- `home_page.dfy` (module `HomePage`) models the home page's swipe queue.

Ids are AUTO_INCREMENT: the row with id `n` sits at index `n - 1` of its
sequence. `likes` and `passes` map their key `(user_id, code_post_id)` to
`created_at`. `matches` maps its key `(user1_id, user2_id)` to its row.
Several outside services enter the model as parameters:

- the clock (`now`);
- `password_hash` and `password_verify`;
- the authenticated user id;
- uniqid's generated suffix;
- the outcomes of filesystem calls and of client HTTP requests.

The model follows the code in three places where its behaviour may be
unexpected:

- Likes and passes live in separate tables, so a like does not remove an
  earlier pass.
- Nothing stops a user liking their own post, and that records the user as
  matched with themself (`SelfLikeMatchesSelf`).
- deletePost checks the number of *changed* rows, so deleting a post that is
  already inactive answers 404.

The database schema is not part of this model. It is assumed to declare:

- foreign keys from `likes`, `passes` and `code_posts` to their users and
  posts (an insert that breaks one answers 500 and changes nothing);
- the UNIQUE keys on `users.username` and `users.email`;
- `matches.is_active` defaulting to true;
- no CHECK that `user1_id < user2_id`.

## Model

| member | source | states |
|---|---|---|
| Schema.CanonicalIsSymmetric | backend/api/routes/posts.php:186-189 | the match key (min, max) is the same whichever user liked last, is ordered, and holds exactly the two users |
| Schema.MutualIsSymmetric | backend/api/routes/posts.php:175-184 | "each has liked a post of the other" does not depend on the order of the two users |
| Schema.HasLikedAfterLike | backend/api/routes/posts.php:128-129 | writing the like (u, p) adds exactly one fact: u has liked a post of p's owner; every other liked-a-post-of fact is unchanged |
| Schema.HasLikedKeepsOwners | backend/api/routes/posts.php:175-184 | the match check's join depends only on the posts' owners, so appending posts or changing other columns leaves it unchanged |
| Schema.ValidAfterOwnerPreservingChange | backend/api/routes/posts.php:102-110 | given keyed ids, unique logins and existing owners in the new tables, inserting a post or user or updating columns other than owner and id carries the reference and match invariants over |
| Ordering.Filter | backend/api/routes/posts.php:54-60 | WHERE keeps exactly the accepted rows, and no row more often than the table holds it |
| Ordering.SortNewestFirst | backend/api/routes/posts.php:61 | ORDER BY created_at DESC: created_at is non-increasing and the rows are a permutation of the input |
| Ordering.Take | backend/api/routes/posts.php:62 | LIMIT n is the first min(n, length) rows |
| Ordering.NewestN | backend/api/routes/posts.php:51-62 | filter, sort and limit: at most n rows, all accepted, newest first, none repeated beyond the table |
| Ordering.NewestNIsTopN | backend/api/routes/posts.php:61-62 | an accepted row that is left out faces a full page of n rows, each at least as new as it |
| Ordering.NewestNKeepsAll | backend/api/routes/posts.php:79-81 | with no effective limit, every accepted row is returned |
| Ordering.NewestNDistinct | backend/api/routes/posts.php:51-62 | when ids are keys, no post is returned twice |
| PostQueries.LikeCount | backend/api/routes/posts.php:75 | a post's like count is zero exactly when no like row names the post |
| PostQueries.LikesOnPostsOf | backend/api/routes/posts.php:175-184 | the match check's COUNT(*) is positive exactly when the liker has liked some post of the owner, active or not |
| PostQueries.SwipeFeed | backend/api/routes/posts.php:49-71 | at most 10 cards; each is an active post by an existing user that is not the caller's and that the caller has neither liked nor passed; newest first; each carries its author's name and avatar |
| PostQueries.SwipeFeedIsNewestTen | backend/api/routes/posts.php:61-62 | a swipeable post missing from the feed means the feed is full of cards at least as new |
| PostQueries.SwipeFeedShortIsComplete | backend/api/routes/posts.php:51-62 | a feed shorter than 10 holds every swipeable post |
| PostQueries.SwipeFeedDistinct | backend/api/routes/posts.php:51-62 | no post appears twice in the feed |
| PostQueries.FeedShrinksWithDecisions | backend/api/routes/posts.php:55-59 | a decided post never comes back: every card shown after more likes and passes was swipeable before them and is undecided now (the 10-card page can still gain an older card) |
| PostQueries.UserPosts | backend/api/routes/posts.php:73-91 | only the target's active posts by an existing user, newest first, each with its author's name and avatar, its like count and whether the viewer liked it |
| PostQueries.UserPostsComplete | backend/api/routes/posts.php:79-81 | every active post of an existing target is listed (no LIMIT) |
| PostQueries.UserPostsDistinct | backend/api/routes/posts.php:73-81 | with post ids as keys, no post appears twice in a user's listing |
| PostQueries.AllPosts | backend/api/routes/posts.php:215-230 | at most 50 active posts by existing users, newest first, each with its author's name and avatar, its like count and no isLiked |
| PostQueries.AllPostsIsNewestFifty | backend/api/routes/posts.php:220-223 | an active post missing from the listing means 50 posts at least as new are listed |
| PostQueries.AllPostsDistinct | backend/api/routes/posts.php:215-223 | with post ids as keys, no post appears twice in the listing |
| UserQueries.ContainsAtOffset | backend/api/routes/users.php:39-42 | the `%q%` match holds exactly when q occurs at some offset of the column |
| UserQueries.MatchingUsers | backend/api/routes/users.php:40-42 | exactly the users whose username or email contains the query, none more often than the table holds it |
| UserQueries.SearchUsers | backend/api/routes/users.php:33-52 | a query shorter than 2 gives an empty list whatever the table; at most 20 hits; each hit is a matching user's public columns |
| UserQueries.MatchingUsersDistinct | backend/api/routes/users.php:40-42 | users with distinct ids stay distinct through the filter |
| UserQueries.SearchUsersDistinct | backend/api/routes/users.php:39-43 | with user ids as keys, no user is listed twice in a search |
| UserQueries.SearchFindsAllWhenNotFull | backend/api/routes/users.php:39-43 | while at most 20 users match, every matching user is in the result |
| UserQueries.SearchMissesOnlyWhenFull | backend/api/routes/users.php:39-43 | a matching user is left out only when 20 hits are returned |
| UserQueries.UserProfile | backend/api/routes/users.php:54-74 | unknown id gives 404 "User not found"; otherwise the row's id, username, email, avatar, bio, GitHub URL and created_at, the count of the user's active posts and the count of likes on all of the user's posts |
| UserQueries.DeactivationCounters | backend/api/routes/users.php:56-57 | soft-deleting one of a user's active posts lowers post_count by exactly 1 and leaves likes_received unchanged |
| UserQueries.Assign | backend/api/routes/users.php:103 | one SET entry never changes id, username, email, password or created_at |
| UserQueries.ProfileAssignments | backend/api/routes/users.php:79-101 | the SET list is empty exactly when none of bio, profile_image and github_url is supplied |
| UserQueries.ApplyAll | backend/api/routes/users.php:103-108 | the UPDATE keeps id, username, email, password and created_at |
| UserQueries.ProfileUpdateEffect | backend/api/routes/users.php:79-108 | the update sets exactly the supplied columns to the supplied values and keeps every other column |
| UserQueries.ProfileUpdateIdempotent | backend/api/routes/users.php:103-108 | sending the same update twice leaves the row as sending it once |
| AuthRoutes.AsWrittenPayload | backend/api/routes/auth.php:119-129 | with two clock readings the token lives at least 24 hours |
| AuthRoutes.AsWrittenLifetimeCanDrift | backend/api/routes/auth.php:122-123 | a clock tick between the readings makes exp - iat one second more than 86400 |
| AuthRoutes.Payload | backend/api/routes/auth.php:119-129 | iss and aud are "yourcode", exp is iat + 86400, data carries id, username and email |
| AuthRoutes.AsWrittenAgreesWhenClockStill | backend/api/routes/auth.php:122-123 | when both readings agree, the payload as written is the corrected one |
| AuthRoutes.FirstLoginRow | backend/api/routes/auth.php:88-99 | the row fetched is the first whose username or email equals the identifier, or none exists |
| AuthRoutes.Login | backend/api/routes/auth.php:81-115 | empty identifier or password gives 400; an unknown identifier and a wrong password give the same 401 "Invalid credentials"; success exactly when the first matching row's hash verifies, returning that row without its hash and a payload for it |
| AuthRoutes.LoginChecksOnlyFirstRow | backend/api/routes/auth.php:88-101 | with one user's username equal to another's email, the second user's correct password is refused when they sign in with their email |
| Upload.Decimal | backend/api/routes/upload.php:60 | an id is rendered as a non-empty string of digits |
| Upload.DecimalRoundTrip | backend/api/routes/upload.php:60 | reading the rendered digits back gives the id |
| Upload.AfterLast | backend/api/routes/upload.php:59 | the suffix after the last separator, which holds no separator |
| Upload.Extension | backend/api/routes/upload.php:59 | when the last path component has a '.', the extension is exactly what follows the name's last '.'; otherwise it is empty; it holds neither '.' nor '/' |
| Upload.HandleUpload | backend/api/routes/upload.php:12-76 | authentication failure answers first and a falsy id ends silently; non-POST gives 405; directory failure 500; a missing or failed file 400; a refused type 400; over 5 MiB 400; a failed move 500 "Failed to upload file"; success exactly when every guard passes and the move succeeds, with filename "code_<id>_<uniq>.<ext>" and URL "/uploads/" + filename |
| Upload.TypeCheckedBeforeSize | backend/api/routes/upload.php:45-56 | an oversized file of a refused type gets the type error |
| Upload.ExactlyFiveMiBAccepted | backend/api/routes/upload.php:52-56 | 5 MiB is stored and one byte more is refused |
| Upload.PhpExtension | backend/api/routes/upload.php:59 | the extension of "shell.php" is "php" |
| Upload.ExtensionNotCheckedAgainstType | backend/api/routes/upload.php:45-60 | a file of any accepted image type named shell.php is stored with extension php |
| Upload.StoredNameNamesUploader | backend/api/routes/upload.php:60 | the digits after "code_" in the stored name read back as the uploader's id |
| Database.Upsert | backend/api/routes/posts.php:186-195 | the key is present and active afterwards, an existing row keeps its created_at, and no other row changes |
| Database.MatchedIffMutual | backend/api/routes/posts.php:165-197 | under the table invariants a pair is matched exactly when each side has liked a post of the other |
| Database.LikeChangesMutual | backend/api/routes/posts.php:128-137 | a like keeps every mutual pair and can add only the pair of the liker and the post's owner |
| Database.CheckCountIsMutual | backend/api/routes/posts.php:175-184 | after the like is written, the check's count is positive exactly when liker and owner are mutual |
| Database.LikeKeepsMatchInvariants | backend/api/routes/posts.php:123-197 | a like followed by the match check keeps every match canonical, active and mutual, and every mutual pair matched |
| Database.SelfLikeMatchesSelf | backend/api/routes/posts.php:165-189 | liking one's own post records the match (u, u) |
| Database.LikeIsIdempotent | backend/api/routes/posts.php:128-195 | liking again only refreshes the like's timestamp: no new like row, and the matches table is left as the first like left it |
| Database.Database.Register | backend/api/routes/auth.php:32-79 | empty field gives 400; a username or email already present gives 409; otherwise exactly one user is appended with the hashed password and the next id, and the response carries its id, name, email and payload; nothing else changes |
| Database.Database.CreatePost | backend/api/routes/posts.php:93-121 | empty title or code_image gives 400 and nothing is inserted; an unknown owner gives 500; otherwise exactly one active post with no views is appended and its id returned |
| Database.Database.CheckMatch | backend/api/routes/posts.php:165-197 | upserts the canonical pair of the liker and the post's owner exactly when the owner has liked a post of the liker; otherwise matches is unchanged |
| Database.Database.LikePost | backend/api/routes/posts.php:123-144 | upserts the like with the current time and runs the match check; passes is never touched; a dangling user or post gives 500 and changes nothing |
| Database.Database.PassPost | backend/api/routes/posts.php:146-163 | upserts the pass; likes and matches are never touched; a dangling user or post gives 500 |
| Database.Database.DeletePost | backend/api/routes/posts.php:199-213 | succeeds exactly when the post exists, is the caller's and is active, and then only its is_active changes; otherwise 404 and no post changes |
| Database.Database.GetPostDetail | backend/api/routes/posts.php:232-261 | a missing or inactive post gives 404 and leaves view_count alone; otherwise the stored view_count rises by 1 and the response shows the raised value with author name, avatar, bio and like count |
| Database.Database.UpdateProfile | backend/api/routes/users.php:76-116 | no supplied field gives 400 and no change; otherwise only the caller's row changes, in exactly the supplied columns, and an unknown caller id changes nothing yet answers success |
| ClientAuth.Merge | frontend/src/store/authStore.ts:38 | fields present in the update override, absent ones keep their value |
| ClientAuth.MergeLaws | frontend/src/store/authStore.ts:36-39 | an empty update changes nothing; two updates equal one update with the later fields winning |
| ClientAuth.AuthStore.constructor | frontend/src/store/authStore.ts:21-24 | user and token start null, isAuthenticated false |
| ClientAuth.AuthStore.SetAuth | frontend/src/store/authStore.ts:26-29 | stores user and token, sets isAuthenticated, writes the token to localStorage, and keeps the store invariant |
| ClientAuth.AuthStore.Logout | frontend/src/store/authStore.ts:31-34 | clears user and token, unsets isAuthenticated, removes the stored token |
| ClientAuth.AuthStore.UpdateUser | frontend/src/store/authStore.ts:36-39 | a null user stays null; otherwise the user is merged with the update; token and isAuthenticated never change |
| HomePage.Render | frontend/src/app/page.tsx:73-125 | spinner exactly while loading; the empty notice exactly for an empty queue; otherwise the first min(3, n) cards in queue order with only index 0 on top |
| HomePage.OneTopCard | frontend/src/app/page.tsx:121-123 | exactly one rendered card is on top, and it is the head of the queue |
| HomePage.NextCardMovesUp | frontend/src/app/page.tsx:62-67 | with more than 3 cards a successful swipe shifts the stack up by one |
| HomePage.Home.constructor | frontend/src/app/page.tsx:24-25 | the queue starts empty and loading |
| HomePage.Home.FetchPosts | frontend/src/app/page.tsx:36-46 | the batch replaces the queue on success, a failure keeps it, and loading ends false either way |
| HomePage.Home.OnMount | frontend/src/app/page.tsx:27-34 | a signed-out visitor is redirected and nothing is fetched; otherwise the first batch is fetched |
| HomePage.Home.HandleSwipe | frontend/src/app/page.tsx:48-71 | an empty queue does nothing; right likes and left passes the head; success pops the head; a refetch happens exactly when the queue held at most 3 cards before the swipe; failure leaves the queue as it was |

## Left out

- HTTP plumbing is not modelled. This covers JSON decoding and encoding, superglobals, CORS, the action dispatch at the top of each route file, and backend/api/index.php. Handler inputs are parameters and responses are `Outcome` values.
- Authentication middleware and JWT verification are not modelled. backend/api/middleware/auth.php is not part of this model, and the caller's user id is a trusted input.
- JWT signing is not modelled; a response carries the unsigned payload. `password_hash` and `password_verify` are function parameters.
- Filesystem effects in the upload route are left out: `mkdir`, `move_uploaded_file` and `error_log`. Their outcomes are boolean parameters. uniqid's suffix is a string parameter.
- Upload.Extension: models pathinfo's extension for '/'-separated names only. PHP's handling of other separators and locale is not modelled.
- UserQueries.SearchUsers: SQL `LIKE` is modelled as exact, case-sensitive substring containment. Collation-dependent case folding and unescaped `%` and `_` in the query are not modelled. The 20 hits are taken in table order, because the query has no ORDER BY.
- UserQueries.SearchUsers: the minimum length counts characters, while PHP's `strlen` counts bytes. The two differ for multi-byte input.
- Database.Database.UpdateProfile: the 500 answer for a failed UPDATE is not modelled. In this model the statement fails only through constraints, and none applies.
- Database.Database.Register: the 500 answer for a failed INSERT is not reachable in the model. The uniqueness check already excludes the only constraint an insert could break.
- Database.Database.GetPostDetail: the JOIN on users is checked in the code but always holds under the table invariants.
- AuthRoutes.Login: issues the single-reading `Payload` (exp exactly iat + 86400), the corrected form of the Finding below, not the two-reading payload the code builds.
- Database.Database.Register: issues the single-reading `Payload` as well, for the same reason.
- AuthRoutes.FirstLoginRow: takes the first matching row in id order. The login query has no ORDER BY, so the row MySQL returns first is not fixed; `AuthRoutes.Login` and `AuthRoutes.LoginChecksOnlyFirstRow` inherit this choice.
- AuthRoutes.Taken, AuthRoutes.LoginMatch and Schema.UniqueLogins: compare usernames and emails by exact equality. Under MySQL's default case-insensitive collation, "Bob" and "bob" are equal, so the code gives 409 for a registration that the model accepts.
- Id layout: the row with id n sits at index n - 1, so ids have no gaps. InnoDB uses up an AUTO_INCREMENT value on a failed INSERT (for example CreatePost's foreign-key failure), which leaves a gap the model does not have.
- MySQL's order among rows with equal created_at is undefined. Listings are specified only as non-increasing by created_at.
- Concurrency is not modelled: the like and its match check are not atomic, and concurrent view-count increments can race. The model is sequential.
- HomePage.Home.HandleSwipe: the stale `posts` closure and async interleaving are not modelled. The refetch is taken to complete after the swipe's own update.
- ClientAuth.UserPatch: a field explicitly set to `undefined` in the update is treated as absent. A JavaScript spread would copy it as undefined.
- Presentational frontend files are not part of this model: the login, profile, search and upload pages, the layout, the modals and SwipeCard. The API client (frontend/src/lib/api.ts) is not part of this model either.

## Findings

| source | as written | input that shows it | evidently intended | confidence | as-written member | corrected member |
|---|---|---|---|---|---|---|
| backend/api/routes/auth.php:122-123 | `iat` and `exp` each call `time()`, so they can read different seconds | a token issued when the clock ticks between the two calls, e.g. readings 1000 and 1001, gets exp - iat = 86401 | one reading, so that exp = iat + 86400 exactly | low impact, clock-dependent; not executed | AuthRoutes.AsWrittenLifetimeCanDrift | AuthRoutes.Payload |
