/** `fetchUserDetails` once the user document and the user's reviews have been
    read: favorites and watchlist ids resolved through the catalogue (a failed
    lookup dropped), reviews joined to their anime (a failed join dropped). */
module Details {
  import opened Js
  import opened Records

  /** What one `getAnimeById(id)` leaves after `.filter(Boolean).map(r => r.data)`. */
  function Resolved(lookup: Lookup, id: Value): seq<Anime> {
    match lookup(id)
    case Some(anime) => [anime]
    case None => []
  }

  /** `Promise.all(ids.map(getAnimeById-or-null))`, then `.filter(Boolean).map(r => r.data)`:
      the catalogue entries of the ids whose lookup succeeds, in stored order. */
  function ResolveAll(ids: seq<Value>, lookup: Lookup): (r: seq<Anime>)
    ensures |r| <= |ids|
    ensures forall a :: a in r ==> exists id :: id in ids && lookup(id) == Some(a)
    ensures (forall i :: 0 <= i < |ids| ==> lookup(ids[i]).Some?) ==>
              |r| == |ids| && forall i :: 0 <= i < |ids| ==> lookup(ids[i]) == Some(r[i])
  {
    if ids == [] then [] else Resolved(lookup, ids[0]) + ResolveAll(ids[1..], lookup)
  }

  /** Resolution works id by id: resolving a concatenation resolves each part in turn. */
  lemma {:induction false} ResolveAllAppend(a: seq<Value>, b: seq<Value>, lookup: Lookup)
    ensures ResolveAll(a + b, lookup) == ResolveAll(a, lookup) + ResolveAll(b, lookup)
  {
    if a == [] {
      assert a + b == b;
    } else {
      assert (a + b)[1..] == a[1..] + b;
      ResolveAllAppend(a[1..], b, lookup);
    }
  }

  /** A failing lookup drops its own id and nothing else: it never aborts the load. */
  lemma FailedLookupDropped(before: seq<Value>, id: Value, after: seq<Value>, lookup: Lookup)
    requires lookup(id).None?
    ensures ResolveAll(before + [id] + after, lookup) == ResolveAll(before + after, lookup)
  {
    ResolveAllAppend(before + [id], after, lookup);
    ResolveAllAppend(before, [id], lookup);
    ResolveAllAppend(before, after, lookup);
  }

  /** `query(reviewsRef, where('userId', '==', userId))`: the user's reviews, in store order. */
  function UserReviews(reviews: seq<Snap<ReviewDoc>>, uid: string): (r: seq<Snap<ReviewDoc>>)
    ensures |r| <= |reviews|
    ensures forall s :: s in r <==> s in reviews && s.data.userId == uid
  {
    if reviews == [] then []
    else (if reviews[0].data.userId == uid then [reviews[0]] else []) + UserReviews(reviews[1..], uid)
  }

  /** The query keeps store order: querying a concatenation queries each part. */
  lemma {:induction false} UserReviewsAppend(a: seq<Snap<ReviewDoc>>, b: seq<Snap<ReviewDoc>>, uid: string)
    ensures UserReviews(a + b, uid) == UserReviews(a, uid) + UserReviews(b, uid)
  {
    if a == [] {
      assert a + b == b;
    } else {
      assert (a + b)[1..] == a[1..] + b;
      UserReviewsAppend(a[1..], b, uid);
    }
  }

  /** One review joined to its anime, or nothing when the lookup throws. */
  function Joined(lookup: Lookup, s: Snap<ReviewDoc>): seq<ReviewView> {
    match lookup(s.data.animeId)
    case Some(anime) => [ReviewView(s.id, s.data, anime)]
    case None => []
  }

  /** `Promise.all(docs.map(... { id, ...reviewData, anime } or null))` then `.filter(Boolean)`. */
  function JoinReviews(reviews: seq<Snap<ReviewDoc>>, lookup: Lookup): (r: seq<ReviewView>)
    ensures |r| <= |reviews|
    ensures forall v :: v in r <==> Snap(v.id, v.review) in reviews && lookup(v.review.animeId) == Some(v.anime)
  {
    if reviews == [] then [] else Joined(lookup, reviews[0]) + JoinReviews(reviews[1..], lookup)
  }

  /** Joining keeps the order of the reviews: a concatenation joins part by part. */
  lemma {:induction false} JoinReviewsAppend(a: seq<Snap<ReviewDoc>>, b: seq<Snap<ReviewDoc>>, lookup: Lookup)
    ensures JoinReviews(a + b, lookup) == JoinReviews(a, lookup) + JoinReviews(b, lookup)
  {
    if a == [] {
      assert a + b == b;
    } else {
      assert (a + b)[1..] == a[1..] + b;
      JoinReviewsAppend(a[1..], b, lookup);
    }
  }

  /** The detail view of user `uid`: None when the user document does not exist. */
  function LoadDetails(users: map<string, UserDoc>, reviews: seq<Snap<ReviewDoc>>, uid: string, lookup: Lookup)
    : (r: Option<UserDetails>)
    ensures r.None? <==> uid !in users
    ensures r.Some? ==>
      && r.value.user == users[uid]
      && |r.value.favorites| <= |Favorites(users[uid])|
      && |r.value.watchlist| <= |Watchlist(users[uid])|
      && (forall a :: a in r.value.favorites ==> exists id :: id in Favorites(users[uid]) && lookup(id) == Some(a))
      && (forall a :: a in r.value.watchlist ==> exists id :: id in Watchlist(users[uid]) && lookup(id) == Some(a))
      && (forall v :: v in r.value.reviews ==>
            v.review.userId == uid && Snap(v.id, v.review) in reviews && lookup(v.review.animeId) == Some(v.anime))
      && (forall s :: s in reviews && s.data.userId == uid && lookup(s.data.animeId).Some? ==>
            ReviewView(s.id, s.data, lookup(s.data.animeId).value) in r.value.reviews)
      && r.value.favorites == ResolveAll(Favorites(users[uid]), lookup)
      && r.value.watchlist == ResolveAll(Watchlist(users[uid]), lookup)
      && r.value.reviews == JoinReviews(UserReviews(reviews, uid), lookup)
  {
    if uid !in users then None
    else
      var user := users[uid];
      Some(UserDetails(
        user,
        ResolveAll(Favorites(user), lookup),
        ResolveAll(Watchlist(user), lookup),
        JoinReviews(UserReviews(reviews, uid), lookup)))
  }
}
