/**
  The home page's swipe queue: the cards it holds, its loading flag, the
  fetch that refills it, the swipe that pops its head, and the top-three
  projection it renders. The API calls' outcomes come in as parameters and
  each request the page sends is returned; the refetch a swipe triggers is
  taken to complete after the swipe's own update.
*/
module HomePage {
  import opened ClientAuth

  /** A card as the feed endpoint sends it. */
  datatype Card = Card(
    id: int,
    title: string,
    codeImage: string,
    language: Option<string>,
    description: Option<string>,
    username: string,
    profileImage: Option<string>)

  datatype Direction = Left | Right

  /** The request a swipe sends. */
  datatype SwipeRequest = Like(postId: int) | Pass(postId: int)

  /** When fewer than this many cards are left after a swipe, the page
      fetches more (the check `posts.length <= 3` runs before the pop). */
  const RefetchThreshold: nat := 3
  /** The most cards rendered at once. */
  const StackSize: nat := 3

  /** What the page renders: the spinner, the empty-feed notice, or the
      card stack with each card's isTop flag. */
  datatype View = Spinner | NoMorePosts | Stack(cards: seq<(Card, bool)>)

  function Render(loading: bool, posts: seq<Card>): (v: View)
    ensures loading <==> v == Spinner
    ensures v == NoMorePosts <==> !loading && posts == []
    ensures v.Stack? ==>
      && |v.cards| == (if |posts| < StackSize then |posts| else StackSize)
      && forall i :: 0 <= i < |v.cards| ==> v.cards[i].0 == posts[i] && (v.cards[i].1 <==> i == 0)
  {
    if loading then Spinner
    else if posts == [] then NoMorePosts
    else
      var n := if |posts| < StackSize then |posts| else StackSize;
      Stack(seq(n, i requires 0 <= i < n => (posts[i], i == 0)))
  }

  /** Exactly one card is on top whenever a stack is shown, and it is the
      head of the queue, the card the next swipe acts on. */
  lemma {:induction false} OneTopCard(posts: seq<Card>)
    requires posts != []
    ensures var v := Render(false, posts);
      v.Stack? && v.cards[0] == (posts[0], true)
      && |set i | 0 <= i < |v.cards| && v.cards[i].1| == 1
  {
    var v := Render(false, posts);
    assert (set i | 0 <= i < |v.cards| && v.cards[i].1) == {0};
  }

  class Home {
    var posts: seq<Card>
    var loading: bool

    constructor ()
      ensures posts == [] && loading
    {
      posts := [];
      loading := true;
    }

    /** fetchPosts: the server's batch replaces the queue; a failed request
        (None) keeps it. Loading ends false either way. */
    method FetchPosts(response: Option<seq<Card>>)
      modifies this
      ensures !loading
      ensures response.Some? ==> posts == response.value
      ensures response.None? ==> posts == old(posts)
    {
      loading := true;
      if response.Some? {
        posts := response.value;
      }
      loading := false;
    }

    /** The mount effect: a signed-out visitor is sent to the login page and
        nothing is fetched; otherwise the first batch is fetched. */
    method OnMount(isAuthenticated: bool, response: Option<seq<Card>>) returns (redirectToLogin: bool)
      modifies this
      ensures redirectToLogin <==> !isAuthenticated
      ensures !isAuthenticated ==> posts == old(posts) && loading == old(loading)
      ensures isAuthenticated ==> !loading && posts == (if response.Some? then response.value else old(posts))
    {
      if !isAuthenticated {
        return true;
      }
      FetchPosts(response);
      redirectToLogin := false;
    }

    /** handleSwipe: like (right) or pass (left) the head card. requestOk is
        whether that request succeeded; refill is the outcome of the refetch
        when one is made. */
    method HandleSwipe(direction: Direction, requestOk: bool, refill: Option<seq<Card>>)
      returns (sent: Option<SwipeRequest>, refetched: bool)
      modifies this
      ensures old(posts) == [] ==> sent.None? && !refetched && posts == old(posts) && loading == old(loading)
      ensures old(posts) != [] ==>
        sent == Some(if direction == Right then Like(old(posts)[0].id) else Pass(old(posts)[0].id))
      ensures old(posts) != [] && !requestOk ==> !refetched && posts == old(posts) && loading == old(loading)
      ensures refetched <==> old(posts) != [] && requestOk && |old(posts)| <= RefetchThreshold
      ensures old(posts) != [] && requestOk && !refetched ==> posts == old(posts)[1..] && loading == old(loading)
      ensures refetched ==> !loading && posts == (if refill.Some? then refill.value else old(posts)[1..])
    {
      sent, refetched := None, false;
      if |posts| == 0 {
        return;
      }
      var current := posts[0];
      sent := Some(if direction == Right then Like(current.id) else Pass(current.id));
      if !requestOk {
        return;
      }
      var before := posts;
      posts := before[1..];
      if |before| <= RefetchThreshold {
        refetched := true;
        FetchPosts(refill);
      }
    }
  }

  /** While the queue is longer than the threshold a successful swipe does
      not refetch, and the stack shifts up by one: the next card is on top. */
  lemma NextCardMovesUp(posts: seq<Card>)
    requires |posts| > RefetchThreshold
    ensures var v := Render(false, posts[1..]);
      v.Stack? && v.cards[0] == (posts[1], true)
      && forall i :: 0 <= i < |v.cards| ==> v.cards[i].0 == posts[i + 1]
  {
  }
}
