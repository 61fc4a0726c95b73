/** The new values the two moderation handlers compute once their store write
    has succeeded: the stored favorites list after a removal, and the patched
    listing and detail view. The store filter and the detail filter compare
    differently and are kept apart. */
module Patches {
  import opened Js
  import opened Records
  import opened Genres
  import opened Aggregation

  /** `users.map(user => user.id === userId ? { ...user, role: newRole } : user)` */
  function SetRole(users: seq<ListedUser>, uid: string, role: string): (r: seq<ListedUser>)
    ensures |r| == |users|
    ensures forall i :: 0 <= i < |users| ==>
      && r[i].id == users[i].id
      && r[i].favoritesCount == users[i].favoritesCount
      && r[i].watchlistCount == users[i].watchlistCount
      && r[i].doc.email == users[i].doc.email
      && r[i].doc.favorites == users[i].doc.favorites
      && r[i].doc.watchlist == users[i].doc.watchlist
      && r[i].doc.role == (if users[i].id == uid then Some(role) else users[i].doc.role)
    ensures forall i :: 0 <= i < |users| && users[i].id != uid ==> r[i] == users[i]
  {
    if users == [] then []
    else
      var user := users[0];
      [if user.id == uid then user.(doc := user.doc.(role := Some(role))) else user] + SetRole(users[1..], uid, role)
  }

  /** Choosing the same role twice changes nothing the second time. */
  lemma SetRoleIdempotent(users: seq<ListedUser>, uid: string, role: string)
    ensures SetRole(SetRole(users, uid, role), uid, role) == SetRole(users, uid, role)
  {
    var once := SetRole(users, uid, role);
    var twice := SetRole(once, uid, role);
    forall i | 0 <= i < |users| ensures twice[i] == once[i] {
      assert twice[i].doc == once[i].doc;
    }
  }

  /** A role change never touches the favorites column. */
  lemma SetRoleKeepsFavoritesCount(users: seq<ListedUser>, uid: string, role: string)
    ensures FavoritesCountSum(SetRole(users, uid, role)) == FavoritesCountSum(users)
  {
    ColumnSumShift(SetRole(users, uid, role), users, uid, 0);
  }

  /** Listings that differ only in the favorites counts of entries carrying
      `uid`, each lowered by `d`, differ in their column sum by `d` per such entry. */
  lemma {:induction false} ColumnSumShift(r: seq<ListedUser>, users: seq<ListedUser>, uid: string, d: int)
    requires |r| == |users|
    requires forall i :: 0 <= i < |users| ==>
      r[i].favoritesCount == users[i].favoritesCount - (if users[i].id == uid then d else 0)
    ensures FavoritesCountSum(r) == FavoritesCountSum(users) - d * Listed(users, uid)
  {
    if users != [] {
      var n := |users| - 1;
      ColumnSumShift(r[..n], users[..n], uid, d);
    }
  }

  /** The statistics depend on users only through their favorites and
      watchlists: two user sequences agreeing on those give equal statistics. */
  lemma {:induction false} SameListsSameStatistics(a: seq<Snap<UserDoc>>, b: seq<Snap<UserDoc>>,
                                                   reviews: seq<Snap<ReviewDoc>>, lookup: Lookup, now: YearMonth)
    requires ValidMonth(now)
    requires |a| == |b|
    requires forall i :: 0 <= i < |a| ==>
      Favorites(a[i].data) == Favorites(b[i].data) && Watchlist(a[i].data) == Watchlist(b[i].data)
    ensures StatisticsOf(a, reviews, lookup, now) == StatisticsOf(b, reviews, lookup, now)
  {
    SameListsSameSums(a, b);
    OnlyFavoritesContribute(a, b, lookup);
  }

  lemma {:induction false} SameListsSameSums(a: seq<Snap<UserDoc>>, b: seq<Snap<UserDoc>>)
    requires |a| == |b|
    requires forall i :: 0 <= i < |a| ==>
      Favorites(a[i].data) == Favorites(b[i].data) && Watchlist(a[i].data) == Watchlist(b[i].data)
    ensures SumFavorites(a) == SumFavorites(b) && SumWatchlist(a) == SumWatchlist(b)
  {
    if a != [] {
      SameListsSameSums(a[..|a| - 1], b[..|b| - 1]);
    }
  }

  /** `ids.filter(id => id !== v)` */
  function WithoutValue(ids: seq<Value>, v: Value): seq<Value> {
    if ids == [] then []
    else (if StrictEquals(ids[0], v) then [] else [ids[0]]) + WithoutValue(ids[1..], v)
  }

  lemma {:induction false} WithoutValueMembers(ids: seq<Value>, v: Value)
    ensures forall f :: f in WithoutValue(ids, v) <==> f in ids && f != v
  {
    if ids != [] {
      WithoutValueMembers(ids[1..], v);
      assert StrictEquals(ids[0], v) <==> ids[0] == v;
      assert forall f :: f in ids <==> f == ids[0] || f in ids[1..];
    }
  }

  lemma {:induction false} WithoutValueLength(ids: seq<Value>, v: Value)
    ensures |WithoutValue(ids, v)| == |ids| - multiset(ids)[v]
  {
    if ids != [] {
      WithoutValueLength(ids[1..], v);
      assert StrictEquals(ids[0], v) <==> ids[0] == v;
      assert ids == [ids[0]] + ids[1..];
      assert multiset(ids)[v] == multiset([ids[0]])[v] + multiset(ids[1..])[v];
    }
  }

  lemma {:induction false} WithoutAbsentValue(ids: seq<Value>, v: Value)
    ensures v !in ids ==> WithoutValue(ids, v) == ids
  {
    if ids != [] && v !in ids {
      assert ids[0] != v && v !in ids[1..];
      assert !StrictEquals(ids[0], v);
      WithoutAbsentValue(ids[1..], v);
    }
  }

  lemma {:induction false} WithoutValueAppend(a: seq<Value>, b: seq<Value>, v: Value)
    ensures WithoutValue(a + b, v) == WithoutValue(a, v) + WithoutValue(b, v)
  {
    if a == [] {
      assert a + b == b;
    } else {
      assert (a + b)[1..] == a[1..] + b;
      WithoutValueAppend(a[1..], b, v);
    }
  }

  /** `currentFavorites.filter(favoriteId => favoriteId !== itemId.toString())`:
      every stored id strictly equal to the string form of `itemId` goes, and
      nothing else. A number stored as a favorite is never equal to a string,
      so it is never removed. */
  function RemoveStoredFavorite(favorites: seq<Value>, itemId: Value): (r: seq<Value>)
    ensures forall f :: f in r <==> f in favorites && f != Str(ToString(itemId))
    ensures |r| == |favorites| - multiset(favorites)[Str(ToString(itemId))]
    ensures Str(ToString(itemId)) !in favorites ==> r == favorites
  {
    WithoutValueMembers(favorites, Str(ToString(itemId)));
    WithoutValueLength(favorites, Str(ToString(itemId)));
    WithoutAbsentValue(favorites, Str(ToString(itemId)));
    WithoutValue(favorites, Str(ToString(itemId)))
  }

  /** The stored ids are filtered one by one: removing from a concatenation
      removes from each part, so the surviving ids keep their order and their
      repetitions. */
  lemma RemoveStoredFavoriteAppend(a: seq<Value>, b: seq<Value>, itemId: Value)
    ensures RemoveStoredFavorite(a + b, itemId) == RemoveStoredFavorite(a, itemId) + RemoveStoredFavorite(b, itemId)
  {
    WithoutValueAppend(a, b, Str(ToString(itemId)));
  }

  /** `prev.favorites.filter(anime => anime.mal_id !== itemId)` */
  function KeepOtherAnime(favorites: seq<Anime>, itemId: Value): (r: seq<Anime>)
    ensures |r| <= |favorites|
    ensures forall a :: a in r <==> a in favorites && !StrictEquals(a.malId, itemId)
  {
    if favorites == [] then []
    else (if StrictEquals(favorites[0].malId, itemId) then [] else [favorites[0]])
           + KeepOtherAnime(favorites[1..], itemId)
  }

  /** The detail favorites are filtered one by one: the kept anime stay in
      their order, with their repetitions. */
  lemma {:induction false} KeepOtherAnimeAppend(a: seq<Anime>, b: seq<Anime>, itemId: Value)
    ensures KeepOtherAnime(a + b, itemId) == KeepOtherAnime(a, itemId) + KeepOtherAnime(b, itemId)
  {
    if a == [] {
      assert a + b == b;
    } else {
      assert (a + b)[1..] == a[1..] + b;
      KeepOtherAnimeAppend(a[1..], b, itemId);
    }
  }

  /** `prev.reviews.filter(review => review.id !== itemId)` */
  function KeepOtherReviews(reviews: seq<ReviewView>, itemId: Value): (r: seq<ReviewView>)
    ensures |r| <= |reviews|
    ensures forall v :: v in r <==> v in reviews && !StrictEquals(Str(v.id), itemId)
  {
    if reviews == [] then []
    else (if StrictEquals(Str(reviews[0].id), itemId) then [] else [reviews[0]])
           + KeepOtherReviews(reviews[1..], itemId)
  }

  /** The detail reviews are filtered one by one: the kept reviews stay in
      their order. */
  lemma {:induction false} KeepOtherReviewsAppend(a: seq<ReviewView>, b: seq<ReviewView>, itemId: Value)
    ensures KeepOtherReviews(a + b, itemId) == KeepOtherReviews(a, itemId) + KeepOtherReviews(b, itemId)
  {
    if a == [] {
      assert a + b == b;
    } else {
      assert (a + b)[1..] == a[1..] + b;
      KeepOtherReviewsAppend(a[1..], b, itemId);
    }
  }

  /** The detail view after a favorite removal: only the favorites change. */
  function DropDetailFavorite(details: Option<UserDetails>, itemId: Value): (r: Option<UserDetails>)
    ensures r.None? <==> details.None?
    ensures r.Some? ==>
      && r.value.user == details.value.user
      && r.value.watchlist == details.value.watchlist
      && r.value.reviews == details.value.reviews
      && (forall a :: a in r.value.favorites <==> a in details.value.favorites && !StrictEquals(a.malId, itemId))
      && r.value.favorites == KeepOtherAnime(details.value.favorites, itemId)
  {
    match details
    case None => None
    case Some(d) => Some(d.(favorites := KeepOtherAnime(d.favorites, itemId)))
  }

  /** The detail view after a review removal: only the reviews change. */
  function DropDetailReview(details: Option<UserDetails>, itemId: Value): (r: Option<UserDetails>)
    ensures r.None? <==> details.None?
    ensures r.Some? ==>
      && r.value.user == details.value.user
      && r.value.favorites == details.value.favorites
      && r.value.watchlist == details.value.watchlist
      && (forall v :: v in r.value.reviews <==> v in details.value.reviews && !StrictEquals(Str(v.id), itemId))
      && r.value.reviews == KeepOtherReviews(details.value.reviews, itemId)
  {
    match details
    case None => None
    case Some(d) => Some(d.(reviews := KeepOtherReviews(d.reviews, itemId)))
  }

  /** `users.map(user => user.id === userId ? { ...user, favoritesCount: user.favoritesCount - 1 } : user)`:
      one less for the matching entry whether or not anything was removed, and no floor at zero. */
  function DecrementFavorites(users: seq<ListedUser>, uid: string): (r: seq<ListedUser>)
    ensures |r| == |users|
    ensures forall i :: 0 <= i < |users| ==>
      && r[i].id == users[i].id
      && r[i].doc == users[i].doc
      && r[i].watchlistCount == users[i].watchlistCount
      && r[i].favoritesCount == users[i].favoritesCount - (if users[i].id == uid then 1 else 0)
  {
    if users == [] then []
    else
      var user := users[0];
      [if user.id == uid then user.(favoritesCount := user.favoritesCount - 1) else user]
        + DecrementFavorites(users[1..], uid)
  }

  /** How many listing entries carry the id `uid`. */
  function Listed(users: seq<ListedUser>, uid: string): nat {
    if users == [] then 0
    else Listed(users[..|users| - 1], uid) + (if users[|users| - 1].id == uid then 1 else 0)
  }

  /** The favorites column drops by one per entry carrying `uid`: by exactly
      one when ids are unique and the user is listed. */
  lemma DecrementFavoritesSum(users: seq<ListedUser>, uid: string)
    ensures FavoritesCountSum(DecrementFavorites(users, uid)) == FavoritesCountSum(users) - Listed(users, uid)
  {
    ColumnSumShift(DecrementFavorites(users, uid), users, uid, 1);
  }

  /** Every listing entry names a stored user and shows that user's number of favorites. */
  predicate InSync(users: seq<ListedUser>, store: map<string, UserDoc>) {
    forall i :: 0 <= i < |users| ==>
      users[i].id in store && users[i].favoritesCount == |Favorites(store[users[i].id])|
  }

  /** The store after the favorite removal's `updateDoc`. */
  function StoreAfterRemoval(store: map<string, UserDoc>, uid: string, itemId: Value): map<string, UserDoc>
    requires uid in store
  {
    store[uid := store[uid].(favorites := Some(RemoveStoredFavorite(Favorites(store[uid]), itemId)))]
  }

  /** A favorite removal keeps a listed user's count in step with the store
      exactly when the stored list held the id once: an absent id still
      costs one, and a repeated id is removed more than once but counted once. */
  lemma RemovalKeepsSyncIff(users: seq<ListedUser>, store: map<string, UserDoc>, uid: string, itemId: Value, i: nat)
    requires InSync(users, store)
    requires uid in store
    requires i < |users| && users[i].id == uid
    ensures InSync(DecrementFavorites(users, uid), StoreAfterRemoval(store, uid, itemId)) <==>
            multiset(Favorites(store[uid]))[Str(ToString(itemId))] == 1
  {
    var r := DecrementFavorites(users, uid);
    var store' := StoreAfterRemoval(store, uid, itemId);
    var before := Favorites(store[uid]);
    var after := RemoveStoredFavorite(before, itemId);
    assert Favorites(store'[uid]) == after;
    assert |after| == |before| - multiset(before)[Str(ToString(itemId))];
    assert r[i].id == uid && r[i].favoritesCount == |before| - 1;
    if multiset(before)[Str(ToString(itemId))] == 1 {
      SingleRemovalKeepsSync(users, store, uid, itemId);
    }
  }

  /** Where the id was stored once, the decremented listing matches the new store. */
  lemma SingleRemovalKeepsSync(users: seq<ListedUser>, store: map<string, UserDoc>, uid: string, itemId: Value)
    requires InSync(users, store)
    requires uid in store
    requires multiset(Favorites(store[uid]))[Str(ToString(itemId))] == 1
    ensures InSync(DecrementFavorites(users, uid), StoreAfterRemoval(store, uid, itemId))
  {
    var r := DecrementFavorites(users, uid);
    var store' := StoreAfterRemoval(store, uid, itemId);
    var after := RemoveStoredFavorite(Favorites(store[uid]), itemId);
    assert |after| == |Favorites(store[uid])| - 1;
    forall j | 0 <= j < |r| ensures r[j].id in store' && r[j].favoritesCount == |Favorites(store'[r[j].id])| {
      assert users[j].id in store && users[j].favoritesCount == |Favorites(store[users[j].id])|;
      if users[j].id == uid {
        assert Favorites(store'[uid]) == after;
      } else {
        assert store'[users[j].id] == store[users[j].id];
      }
    }
  }

  /** The catalogue's `mal_id` is a number while the caller passes
      `anime.mal_id.toString()`: the detail filter then keeps every entry,
      although the store filter removes the id's decimal string. */
  lemma {:induction false} CallerIdNeverMatchesDetail(favorites: seq<Anime>, malId: int)
    requires forall a :: a in favorites ==> a.malId.Num?
    ensures KeepOtherAnime(favorites, Str(ToString(Num(malId)))) == favorites
  {
    if favorites != [] {
      assert favorites[0] in favorites;
      assert forall a :: a in favorites[1..] ==> a in favorites;
      CallerIdNeverMatchesDetail(favorites[1..], malId);
      assert favorites == [favorites[0]] + favorites[1..];
    }
  }

  /** The two filters of one removal, side by side: with the caller's
      argument the stored id `"<mal_id>"` goes, the detail entry stays. */
  lemma RemovalAsymmetry(stored: seq<Value>, details: UserDetails, malId: nat)
    requires forall a :: a in details.favorites ==> a.malId.Num?
    ensures Str(Decimal(malId)) !in RemoveStoredFavorite(stored, Str(ToString(Num(malId))))
    ensures DropDetailFavorite(Some(details), Str(ToString(Num(malId)))) == Some(details)
  {
    CallerIdNeverMatchesDetail(details.favorites, malId);
    assert details.(favorites := details.favorites) == details;
  }
}
