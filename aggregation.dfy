/** `fetchAdminData` once both collections have been read: one pass over the
    users (listing entries, running totals, genre counter), one pass over the
    reviews (per-month counter), then the genre distribution and the six
    monthly buckets. */
module Aggregation {
  import opened Js
  import opened Records
  import opened Genres
  import opened Activity

  /** The sum of all users' favorites lengths, a missing list counting 0. */
  function SumFavorites(users: seq<Snap<UserDoc>>): nat {
    if users == [] then 0
    else SumFavorites(users[..|users| - 1]) + |Favorites(users[|users| - 1].data)|
  }

  /** The sum of all users' watchlist lengths, a missing list counting 0. */
  function SumWatchlist(users: seq<Snap<UserDoc>>): nat {
    if users == [] then 0
    else SumWatchlist(users[..|users| - 1]) + |Watchlist(users[|users| - 1].data)|
  }

  /** The statistics of one aggregation over the users and reviews read from
      the store, with `lookup` as the catalogue and `now` as today's month. */
  function StatisticsOf(users: seq<Snap<UserDoc>>, reviews: seq<Snap<ReviewDoc>>, lookup: Lookup, now: YearMonth): Statistics
    requires ValidMonth(now)
  {
    Statistics(
      |users|,
      |reviews|,
      SumFavorites(users),
      SumWatchlist(users),
      seq(6, k requires 0 <= k < 6 =>
        ActivityBucket(LastSixMonths(now)[k], ReviewsIn(reviews, Some(LastSixMonths(now)[k])), 0, 0)),
      Distribution(Occurrences(users, lookup)))
  }

  lemma UserPrefix(users: seq<Snap<UserDoc>>, u: nat, lookup: Lookup)
    requires u < |users|
    ensures SumFavorites(users[..u + 1]) == SumFavorites(users[..u]) + |Favorites(users[u].data)|
    ensures SumWatchlist(users[..u + 1]) == SumWatchlist(users[..u]) + |Watchlist(users[u].data)|
    ensures Occurrences(users[..u + 1], lookup) == Occurrences(users[..u], lookup) + FavoriteGenres(Favorites(users[u].data), lookup)
  {
    assert users[..u + 1][..u] == users[..u];
  }

  lemma FavoritePrefix(favorites: seq<Value>, f: nat, lookup: Lookup)
    requires f < |favorites|
    ensures FavoriteGenres(favorites[..f + 1], lookup) == FavoriteGenres(favorites[..f], lookup) + GenresOf(lookup(favorites[f]))
  {
    assert favorites[..f + 1][..f] == favorites[..f];
  }

  lemma FavoriteStep(counted: seq<string>, favorites: seq<Value>, f: nat, lookup: Lookup)
    requires f < |favorites|
    ensures lookup(favorites[f]).None? ==>
      counted + FavoriteGenres(favorites[..f + 1], lookup) == counted + FavoriteGenres(favorites[..f], lookup)
    ensures lookup(favorites[f]).Some? ==>
      counted + FavoriteGenres(favorites[..f + 1], lookup) ==
      counted + FavoriteGenres(favorites[..f], lookup) + lookup(favorites[f]).value.genres
  {
    FavoritePrefix(favorites, f, lookup);
  }

  /** The inner `for (const animeId of favorites)` loop: each favorite is
      looked up in turn, a failed lookup is skipped, and the genres of a
      successful one are counted. */
  method CountFavoriteGenres(favorites: seq<Value>, lookup: Lookup,
                             keys: seq<string>, counts: map<string, nat>, ghost counted: seq<string>)
    returns (keys': seq<string>, counts': map<string, nat>)
    requires IsTally(counted, keys, counts)
    ensures IsTally(counted + FavoriteGenres(favorites, lookup), keys', counts')
  {
    keys', counts' := keys, counts;
    ghost var now := counted;
    var f := 0;
    while f < |favorites|
      invariant 0 <= f <= |favorites|
      invariant now == counted + FavoriteGenres(favorites[..f], lookup)
      invariant IsTally(now, keys', counts')
    {
      var response := lookup(favorites[f]);
      if response.Some? {
        keys', counts' := CountGenres(keys', counts', response.value.genres, now);
        now := now + response.value.genres;
      }
      FavoriteStep(counted, favorites, f, lookup);
      f := f + 1;
    }
    assert favorites[..f] == favorites;
  }

  /** The `for (const doc of usersSnapshot.docs)` loop: one listing entry per
      user, the running totals, and every successfully looked-up favorite's
      genres counted into `genreStats`; a failed lookup is skipped. */
  method ScanUsers(users: seq<Snap<UserDoc>>, lookup: Lookup)
    returns (listing: seq<ListedUser>, totalFavorites: nat, totalWatchlist: nat,
             keys: seq<string>, counts: map<string, nat>)
    ensures |listing| == |users|
    ensures forall i :: 0 <= i < |users| ==> listing[i] == ListEntry(users[i])
    ensures totalFavorites == SumFavorites(users)
    ensures totalWatchlist == SumWatchlist(users)
    ensures IsTally(Occurrences(users, lookup), keys, counts)
  {
    listing, totalFavorites, totalWatchlist, keys, counts := [], 0, 0, [], map[];
    ghost var counted: seq<string> := [];
    var u := 0;
    while u < |users|
      invariant 0 <= u <= |users|
      invariant |listing| == u
      invariant forall i :: 0 <= i < u ==> listing[i] == ListEntry(users[i])
      invariant totalFavorites == SumFavorites(users[..u])
      invariant totalWatchlist == SumWatchlist(users[..u])
      invariant counted == Occurrences(users[..u], lookup)
      invariant IsTally(counted, keys, counts)
    {
      UserPrefix(users, u, lookup);
      var data := users[u].data;
      var favorites := Favorites(data);
      var watchlist := Watchlist(data);
      listing := listing + [ListedUser(users[u].id, data, |favorites|, |watchlist|)];
      totalFavorites := totalFavorites + |favorites|;
      totalWatchlist := totalWatchlist + |watchlist|;
      keys, counts := CountFavoriteGenres(favorites, lookup, keys, counts, counted);
      counted := counted + FavoriteGenres(favorites, lookup);
      u := u + 1;
    }
    assert users[..u] == users;
  }

  /** `Object.entries(genreStats).map(...).sort(...).slice(0, 10)` */
  method GenreDistribution(keys: seq<string>, counts: map<string, nat>, ghost occ: seq<string>)
    returns (distribution: seq<GenreCount>)
    requires IsTally(occ, keys, counts)
    ensures distribution == Distribution(occ)
  {
    var entries := seq(|keys|, i requires 0 <= i < |keys| => GenreCount(keys[i], CountOr0(counts, keys[i])));
    forall i | 0 <= i < |keys| ensures entries[i] == Tallied(occ)[i] {
      assert CountOr0(counts, keys[i]) == multiset(occ)[keys[i]];
    }
    assert entries == Tallied(occ);
    distribution := TopTen(SortByValue(entries));
  }

  /** The buckets the loop builds are those of the specification. */
  lemma BucketsAreLastSixMonths(now: YearMonth, buckets: seq<ActivityBucket>, reviews: seq<Snap<ReviewDoc>>,
                                reviewsByMonth: map<Option<YearMonth>, nat>)
    requires ValidMonth(now)
    requires forall key :: CountOr0(reviewsByMonth, key) == ReviewsIn(reviews, key)
    requires |buckets| == 6
    requires forall k :: 0 <= k < 6 ==>
      ValidMonth(buckets[k].month) && MonthIndex(buckets[k].month) == MonthIndex(now) - (5 - k)
    requires forall k :: 0 <= k < 6 ==>
      && buckets[k].reviews == CountOr0(reviewsByMonth, Some(buckets[k].month))
      && buckets[k].favorites == CountOr0(map[], Some(buckets[k].month))
      && buckets[k].watchlist == CountOr0(map[], Some(buckets[k].month))
    ensures buckets == seq(6, k requires 0 <= k < 6 =>
      ActivityBucket(LastSixMonths(now)[k], ReviewsIn(reviews, Some(LastSixMonths(now)[k])), 0, 0))
  {
    forall k | 0 <= k < 6 ensures buckets[k].month == LastSixMonths(now)[k] {
      MonthIndexInjective(buckets[k].month, LastSixMonths(now)[k]);
    }
  }

  /** `fetchAdminData` after both `getDocs` calls succeeded: the listing and
      the statistics it stores. */
  method ComputeStatistics(users: seq<Snap<UserDoc>>, reviews: seq<Snap<ReviewDoc>>, lookup: Lookup, now: YearMonth)
    returns (listing: seq<ListedUser>, statistics: Statistics)
    requires ValidMonth(now)
    ensures |listing| == |users|
    ensures forall i :: 0 <= i < |users| ==> listing[i] == ListEntry(users[i])
    ensures statistics == StatisticsOf(users, reviews, lookup, now)
    ensures statistics.totalUsers == |users| && statistics.totalReviews == |reviews|
    ensures |statistics.genreDistribution| <= 10 && NonIncreasing(statistics.genreDistribution)
    ensures |statistics.userActivityData| == 6 && statistics.userActivityData[5].month == now
  {
    var totalFavorites, totalWatchlist, keys, counts;
    listing, totalFavorites, totalWatchlist, keys, counts := ScanUsers(users, lookup);
    var totalReviews := |reviews|;
    var reviewsByMonth := CountReviewsByMonth(reviews);

    ghost var occ := Occurrences(users, lookup);
    var genreDistribution := GenreDistribution(keys, counts, occ);

    // monthlyStats.favorites and monthlyStats.watchlist are never written
    var userActivityData := ActivityBuckets(now, reviewsByMonth, map[], map[]);
    BucketsAreLastSixMonths(now, userActivityData, reviews, reviewsByMonth);
    statistics := Statistics(|listing|, totalReviews, totalFavorites, totalWatchlist, userActivityData, genreDistribution);
    DistributionShape(occ);
  }

  /** The listing's favorites counts add up to the reported total. */
  lemma {:induction false} ListingMatchesTotal(users: seq<Snap<UserDoc>>)
    ensures FavoritesCountSum(seq(|users|, i requires 0 <= i < |users| => ListEntry(users[i]))) == SumFavorites(users)
  {
    if users != [] {
      var n := |users| - 1;
      ListingMatchesTotal(users[..n]);
      var listing := seq(|users|, i requires 0 <= i < |users| => ListEntry(users[i]));
      assert listing[..n] == seq(n, i requires 0 <= i < n => ListEntry(users[..n][i]));
    }
  }

  /** The sum of the listing's `favoritesCount` column. */
  function FavoritesCountSum(listing: seq<ListedUser>): int {
    if listing == [] then 0
    else FavoritesCountSum(listing[..|listing| - 1]) + listing[|listing| - 1].favoritesCount
  }

  /** Favorites are counted per list entry: two users favoriting the same
      anime count twice, and so do duplicates within one list. */
  lemma {:induction false} SumFavoritesAppend(a: seq<Snap<UserDoc>>, b: seq<Snap<UserDoc>>)
    ensures SumFavorites(a + b) == SumFavorites(a) + SumFavorites(b)
    decreases |b|
  {
    if b == [] {
      assert a + b == a;
    } else {
      assert (a + b)[..|a + b| - 1] == a + b[..|b| - 1];
      SumFavoritesAppend(a, b[..|b| - 1]);
    }
  }

  /** The monthly buckets never show more reviews than the reported total. */
  lemma BucketsNeverExceedTotal(users: seq<Snap<UserDoc>>, reviews: seq<Snap<ReviewDoc>>, lookup: Lookup, now: YearMonth)
    requires ValidMonth(now)
    ensures var data := StatisticsOf(users, reviews, lookup, now).userActivityData;
      data[0].reviews + data[1].reviews + data[2].reviews + data[3].reviews + data[4].reviews + data[5].reviews
        <= StatisticsOf(users, reviews, lookup, now).totalReviews
  {
    var months := LastSixMonths(now);
    var keys := seq(6, k requires 0 <= k < 6 => Some(months[k]));
    LastSixMonthsAscend(now);
    DistinctKeysBound(reviews, keys);
    SixKeys(reviews, keys);
  }

  lemma SixKeys(reviews: seq<Snap<ReviewDoc>>, keys: seq<Option<YearMonth>>)
    requires |keys| == 6
    ensures ReviewsInAll(reviews, keys) ==
      ReviewsIn(reviews, keys[0]) + ReviewsIn(reviews, keys[1]) + ReviewsIn(reviews, keys[2]) +
      ReviewsIn(reviews, keys[3]) + ReviewsIn(reviews, keys[4]) + ReviewsIn(reviews, keys[5])
  {
    assert ReviewsInAll(reviews, keys[5..]) == ReviewsIn(reviews, keys[5]) by {
      assert keys[5..][1..] == [];
    }
    forall k | 0 <= k < 5
      ensures ReviewsInAll(reviews, keys[k..]) == ReviewsIn(reviews, keys[k]) + ReviewsInAll(reviews, keys[k + 1..])
    {
      assert keys[k..][1..] == keys[k + 1..];
    }
    assert keys[0..] == keys;
  }

  /** A catalogue where "a1" is an Action title and every other id fails. */
  function ExampleLookup(id: Value): Option<Anime> {
    if id == Str("a1") then Some(Anime(Num(1), "A1", ["Action"])) else None
  }

  lemma ExampleGenres()
    ensures FavoriteGenres([Str("a1"), Str("a2")], ExampleLookup) == ["Action"]
  {
    var favorites := [Str("a1"), Str("a2")];
    assert favorites[..1][..0] == [];
    assert favorites[..1] == [Str("a1")];
    assert FavoriteGenres(favorites[..1], ExampleLookup) == ["Action"];
  }

  lemma ExampleDistribution()
    ensures Distribution(["Action"]) == [GenreCount("Action", 1)]
  {
    var occ := ["Action"];
    assert occ[..0] == [];
    assert FirstSeen(occ) == ["Action"];
    assert Tallied(occ) == [GenreCount("Action", 1)];
  }

  /** An example: one user with favorites ["a1", "a2"], "a1" an
      Action title and "a2" failing to resolve, no reviews. */
  lemma OneUserExample(now: YearMonth)
    requires ValidMonth(now)
    ensures var users := [Snap("u1", UserDoc(None, None, Some([Str("a1"), Str("a2")]), Some([])))];
            var statistics := StatisticsOf(users, [], ExampleLookup, now);
            statistics.totalFavorites == 2 && statistics.totalWatchlist == 0 &&
            statistics.genreDistribution == [GenreCount("Action", 1)]
  {
    var users := [Snap("u1", UserDoc(None, None, Some([Str("a1"), Str("a2")]), Some([])))];
    assert users[..0] == [];
    ExampleGenres();
    assert Occurrences(users, ExampleLookup) == [] + ["Action"];
    ExampleDistribution();
    assert SumFavorites(users) == 0 + 2;
    assert SumWatchlist(users) == 0 + 0;
    var statistics := StatisticsOf(users, [], ExampleLookup, now);
    assert statistics.totalFavorites == SumFavorites(users);
    assert statistics.totalWatchlist == SumWatchlist(users);
    assert statistics.genreDistribution == Distribution(Occurrences(users, ExampleLookup));
  }
}
