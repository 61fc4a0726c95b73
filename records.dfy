/** The documents of the two store collections (`users`, `reviews`), the
    catalogue entries the anime API returns, and the values the dashboard
    derives from them. */
module Records {
  import opened Js

  /** A calendar month as the dashboard keys it: `${getMonth() + 1}/${getFullYear()}`. */
  datatype YearMonth = YearMonth(year: int, month: int)

  predicate ValidMonth(ym: YearMonth) {
    1 <= ym.month <= 12
  }

  /** A document of the `users` collection; every field may be missing. */
  datatype UserDoc = UserDoc(
    email: Option<string>,
    role: Option<string>,
    favorites: Option<seq<Value>>,
    watchlist: Option<seq<Value>>)

  /** `userData.favorites || []` */
  function Favorites(u: UserDoc): seq<Value> {
    u.favorites.GetOr([])
  }

  /** `userData.watchlist || []` */
  function Watchlist(u: UserDoc): seq<Value> {
    u.watchlist.GetOr([])
  }

  /** A document of the `reviews` collection. `createdAt` is the month its
      timestamp falls in, or None when `new Date(createdAt)` is invalid. */
  datatype ReviewDoc = ReviewDoc(
    userId: string,
    animeId: Value,
    content: string,
    createdAt: Option<YearMonth>)

  /** `(counter[k] || 0)` for a counter object whose values are numbers. */
  function CountOr0<K>(counter: map<K, nat>, k: K): nat {
    if k in counter then counter[k] else 0
  }

  /** A document snapshot: the store-assigned id and the document's data. */
  datatype Snap<D> = Snap(id: string, data: D)

  /** The `data` of a successful `api.getAnimeById` response. A response
      without `genres` carries the empty sequence. */
  datatype Anime = Anime(malId: Value, title: string, genres: seq<string>)

  /** `api.getAnimeById`: None when the call throws. */
  type Lookup = Value -> Option<Anime>

  /** An entry of the user listing: `{ id, ...userData, favoritesCount, watchlistCount }`.
      The counts are plain numbers the dashboard patches, so they may go negative. */
  datatype ListedUser = ListedUser(id: string, doc: UserDoc, favoritesCount: int, watchlistCount: int)

  /** The listing entry built for one user snapshot. */
  function ListEntry(s: Snap<UserDoc>): ListedUser {
    ListedUser(s.id, s.data, |Favorites(s.data)|, |Watchlist(s.data)|)
  }

  /** One `{ name, value }` entry of the genre distribution. */
  datatype GenreCount = GenreCount(name: string, value: nat)

  /** One bar of the monthly activity chart; the label is the month's short name. */
  datatype ActivityBucket = ActivityBucket(month: YearMonth, reviews: nat, favorites: nat, watchlist: nat)

  datatype Statistics = Statistics(
    totalUsers: nat,
    totalReviews: nat,
    totalFavorites: nat,
    totalWatchlist: nat,
    userActivityData: seq<ActivityBucket>,
    genreDistribution: seq<GenreCount>)

  /** The statistics before the first aggregation. */
  const EmptyStatistics := Statistics(0, 0, 0, 0, [], [])

  /** A review of the detail view: `{ id, ...reviewData, anime }`. */
  datatype ReviewView = ReviewView(id: string, review: ReviewDoc, anime: Anime)

  /** The detail view of one user: `{ ...userData, favorites, watchlist, reviews }`. */
  datatype UserDetails = UserDetails(
    user: UserDoc,
    favorites: seq<Anime>,
    watchlist: seq<Anime>,
    reviews: seq<ReviewView>)
}
