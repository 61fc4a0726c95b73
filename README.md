# Admin dashboard: statistics, user details and moderation

This project models the admin dashboard of an anime catalogue web app. The
dashboard is one React component (`src/components/admin/Dashboard.js`). It
reads two document collections, `users` and `reviews`, and an external
anime catalogue. From them it builds a user listing and the statistics panel:

- totals of users, reviews, favorites and watchlist entries;
- the ten most-favorited genres;
- review activity over the last six calendar months.

It also shows one user's detail view: their favorites and watchlist resolved
through the catalogue, and their reviews joined to their anime. It lets an
admin change a user's role and delete one of a user's favorites or reviews.
Both moderation actions write to the store first and then patch the
in-memory listing and detail view.

The modules follow the component's structure:

- `Js` (js.dfy): the JavaScript semantics the component relies on. These are
  `x || []` fallbacks, strict equality `===` (a number never equals a
  string), `Number.prototype.toString` on integers below 1e21, ASCII
  `toLowerCase`, and `String.prototype.includes`.
- `Records` (records.dfy): user documents, review documents, catalogue
  entries, listing entries, statistics and the detail view.
- `Genres` (genres.dfy): the `genreStats` counter with its key insertion
  order, the stable descending sort and the `slice(0, 10)` cut.
- `Activity` (activity.dfy): the per-month review counter and the six
  monthly buckets. It follows how `new Date(year, month - i, 1)` rolls into
  the previous year.
- `Aggregation` (aggregation.dfy): the loops of `fetchAdminData` as methods,
  proved against the specification function `StatisticsOf`.
- `Details` (details.dfy): `fetchUserDetails`'s resolution of ids and its
  review join.
- `Patches` (patches.dfy): the values the moderation handlers write and the
  patched listing and detail view.
- `Listing` (listing.dfy): `filteredUsers`.
- `Dashboard` (dashboard.dfy): the component as a class. It holds:
  - the two collections, as maps from document id to document;
  - the listing, the statistics, the selected user and the detail view.

  Each handler is a method whose contract gives the complete new state for
  every outcome: success, cancelled at the confirmation prompt, or failed
  in the handler's `catch` branch.

Two behaviours of the source are kept exactly as written:

- **The favorite filters disagree.** Removing a favorite filters the stored
  ids against `itemId.toString()`, but filters the detail view with
  `anime.mal_id !== itemId`. The caller passes `anime.mal_id.toString()`,
  and the catalogue's `mal_id` is a number. So the store loses the id
  string while the detail view keeps the entry (`Patches.RemovalAsymmetry`).
- **The listing count can drift.** The listing's `favoritesCount` drops by
  one whether or not anything was removed. It stays equal to the stored
  list's length exactly when the id occurred once in that list
  (`Patches.RemovalKeepsSyncIff`).

## Model

| member | source | states |
|---|---|---|
| Js.Decimal | src/components/admin/Dashboard.js:265 | the decimal form of a number is non-empty and made of digits only, and is one character long exactly for numbers below ten |
| Js.DecimalInjective | src/components/admin/Dashboard.js:265 | different numbers never print the same, so `itemId.toString()` identifies the number it came from |
| Js.ToLower | src/components/admin/Dashboard.js:314 | lower-casing keeps the length and maps each character on its own, ASCII capitals to their small letters |
| Js.ToLowerIdempotent | src/components/admin/Dashboard.js:314 | lower-casing a lower-cased string changes nothing |
| Js.IncludesIffOccurs | src/components/admin/Dashboard.js:314 | `includes` holds if and only if the term occurs at some position of the string |
| Js.EmptyIsIncluded | src/components/admin/Dashboard.js:314 | the empty search term is contained in every email |
| Activity.MonthsBefore | src/components/admin/Dashboard.js:121-122 | the month `i` months before today is a valid month whose index is exactly `i` below today's, borrowing from the year as `Date` does |
| Activity.MonthIndexInjective | src/components/admin/Dashboard.js:121-122 | two valid months with the same index are the same `month/year` key |
| Activity.MonthUnderflowBorrowsYear | src/components/admin/Dashboard.js:121 | going back past January yields a month of the previous year, numbered `month - i + 12` |
| Activity.CountReviewsByMonth | src/components/admin/Dashboard.js:106-111 | after the loop, the counter holds, for every `month/year` key, the number of reviews created in that month (0 when absent) |
| Activity.ActivityBuckets | src/components/admin/Dashboard.js:118-129 | exactly six buckets for six consecutive valid months ending at today's month, each reading its three counts from the per-month counters under its own key |
| Activity.LastSixMonthsAscend | src/components/admin/Dashboard.js:118-129 | the six bucket months are in strictly increasing chronological order and the last one is the current month |
| Activity.DistinctKeysBound | src/components/admin/Dashboard.js:106-111 | reviews counted under pairwise different keys never add up to more than the number of reviews |
| Genres.FavoriteGenresAppend | src/components/admin/Dashboard.js:88-99 | the genres counted for a list of favorites are those of its first part followed by those of its second part |
| Genres.FailedLookupContributesNothing | src/components/admin/Dashboard.js:89-98 | a favorite whose lookup throws adds no genre, and the favorites around it are still counted |
| Genres.OnlyFavoritesContribute | src/components/admin/Dashboard.js:73-100 | the genres counted depend only on the users' favorites: watchlists, roles and emails never contribute |
| Genres.FirstSeen | src/components/admin/Dashboard.js:93 | the counter's keys are exactly the genre names counted, each once |
| Genres.TallyStep | src/components/admin/Dashboard.js:93 | counting one more name keeps the counter equal to the occurrence count of every name, appending a new name as the last key |
| Genres.FirstSeenStep | src/components/admin/Dashboard.js:93 | a name already counted keeps the key order; a new name becomes the last key |
| Genres.CountsStep | src/components/admin/Dashboard.js:93 | incrementing a name's counter counts exactly one more occurrence of that name and leaves the others |
| Genres.CountGenres | src/components/admin/Dashboard.js:92-94 | after the `forEach`, the counter holds the occurrence counts of all names counted so far plus this anime's genres, keys in first-insertion order |
| Genres.Tallied | src/components/admin/Dashboard.js:113-114 | one entry per counted genre, with no duplicates, holding the number of times that genre was counted, listed in the counter's key insertion order |
| Genres.Insert | src/components/admin/Dashboard.js:115 | placing an entry into a sorted run adds exactly that entry |
| Genres.InsertSorted | src/components/admin/Dashboard.js:115 | placing an entry keeps the run non-increasing by value |
| Genres.InsertBounded | src/components/admin/Dashboard.js:115 | placing an entry never raises the highest value of the run above a common bound |
| Genres.SortByValue | src/components/admin/Dashboard.js:115 | the sorted entries are a permutation of the input, with non-increasing values |
| Genres.WithValueMembers | src/components/admin/Dashboard.js:115 | the entries picked for a value are exactly the entries with that value |
| Genres.InsertKeepsTies | src/components/admin/Dashboard.js:115 | inserting an entry puts it ahead of all later-input entries of its value |
| Genres.SortIsStable | src/components/admin/Dashboard.js:115 | the sort is stable: for each value, the entries with that value keep their input order |
| Genres.SameGroupsSameSequence | src/components/admin/Dashboard.js:115 | two non-increasing sequences with the same entries, in the same order, for every value are equal |
| Genres.StableSortIsUnique | src/components/admin/Dashboard.js:115 | every stable descending arrangement of the entries is the one computed |
| Genres.DistributionShape | src/components/admin/Dashboard.js:113-116 | the distribution has min(10, number of genres) entries, non-increasing, distinct, each with its genre's true count |
| Genres.DistributionIsTopTen | src/components/admin/Dashboard.js:116 | no genre cut off by `slice(0, 10)` has a higher count than a reported one |
| Genres.WithValuePrefix | src/components/admin/Dashboard.js:116 | cutting a sequence short keeps, for every value, a prefix of that value's entries |
| Genres.DistributionKeepsTies | src/components/admin/Dashboard.js:113-116 | among reported genres of equal count, the order is first-insertion order, and they are the first of that count |
| Aggregation.CountFavoriteGenres | src/components/admin/Dashboard.js:88-99 | after the favorites loop, the counter also holds the genres of every favorite whose lookup succeeded |
| Aggregation.ScanUsers | src/components/admin/Dashboard.js:73-100 | one listing entry per user, with its two list lengths; running totals equal to the sums of list lengths (a missing list counting 0); the counter equal to the genre occurrences of all users' favorites |
| Aggregation.GenreDistribution | src/components/admin/Dashboard.js:113-116 | turning the counter into entries, sorting and cutting yields the specified distribution |
| Aggregation.BucketsAreLastSixMonths | src/components/admin/Dashboard.js:118-129 | the buckets built by the loop are the last six months with their review counts and zero favorites and watchlist |
| Aggregation.ComputeStatistics | src/components/admin/Dashboard.js:61-139 | the listing has one entry per user; the statistics equal `StatisticsOf`: totalUsers and totalReviews are the numbers of documents; at most ten genres, non-increasing; six buckets ending at today |
| Aggregation.ListingMatchesTotal | src/components/admin/Dashboard.js:78-86 | the listing's `favoritesCount` column adds up to `totalFavorites` |
| Aggregation.SumFavoritesAppend | src/components/admin/Dashboard.js:85 | favorites are totalled without de-duplication across users |
| Aggregation.SixKeys | src/components/admin/Dashboard.js:118-129 | the reviews counted over six keys are the sum of the six per-key counts |
| Aggregation.BucketsNeverExceedTotal | src/components/admin/Dashboard.js:104-129 | the six buckets together never show more reviews than `totalReviews` |
| Aggregation.OneUserExample | src/components/admin/Dashboard.js:73-116 | a user favoriting an Action title and an id whose lookup fails has totalFavorites 2 and distribution [Action: 1] |
| Details.ResolveAll | src/components/admin/Dashboard.js:184-206 | the resolved list is no longer than the stored ids, holds only successful lookups of those ids, and is the full in-order lookup result when every lookup succeeds |
| Details.ResolveAllAppend | src/components/admin/Dashboard.js:184-194 | ids are resolved one by one in stored order |
| Details.FailedLookupDropped | src/components/admin/Dashboard.js:186-192 | a failing lookup drops its own id only and never aborts the load |
| Details.UserReviews | src/components/admin/Dashboard.js:208-210 | the query returns exactly the reviews whose `userId` is the user's |
| Details.UserReviewsAppend | src/components/admin/Dashboard.js:208-210 | the query is taken review by review, so the user's reviews keep their store order and each appears once per stored document |
| Details.JoinReviews | src/components/admin/Dashboard.js:211-226 | a review appears in the detail view, with its anime, if and only if it was read and its anime lookup succeeded |
| Details.JoinReviewsAppend | src/components/admin/Dashboard.js:211-226 | joined reviews keep the order of the query result |
| Details.LoadDetails | src/components/admin/Dashboard.js:172-233 | no detail view if and only if the user does not exist; otherwise the user's fields, favorites and watchlist no longer than stored and drawn from successful lookups, and precisely the user's reviews whose join succeeded; the favorites and watchlist are exactly the resolved ids in stored order (`ResolveAll`) and the reviews the joined reviews in store order (`JoinReviews` of `UserReviews`) |
| Patches.SetRole | src/components/admin/Dashboard.js:159-161 | only the `role` of entries with the user's id changes; every other entry and field stays as it was |
| Patches.SetRoleIdempotent | src/components/admin/Dashboard.js:159-161 | choosing the same role again changes nothing more |
| Patches.SetRoleKeepsFavoritesCount | src/components/admin/Dashboard.js:159-161 | a role change keeps the favorites column sum |
| Patches.ColumnSumShift | src/components/admin/Dashboard.js:280-288 | lowering the count of each entry carrying an id by `d` lowers the column sum by `d` per such entry |
| Patches.SameListsSameStatistics | src/components/admin/Dashboard.js:73-139 | statistics depend on users only through their favorites and watchlists |
| Patches.SameListsSameSums | src/components/admin/Dashboard.js:85-86 | the totals depend only on the list lengths |
| Patches.RemoveStoredFavorite | src/components/admin/Dashboard.js:261-266 | exactly the stored ids strictly equal to the string form of `itemId` go, the length drops by their number, and the list is unchanged when none is present |
| Patches.RemoveStoredFavoriteAppend | src/components/admin/Dashboard.js:265 | the stored ids are filtered one at a time, so the surviving ids keep their order and their repetitions |
| Patches.KeepOtherAnime | src/components/admin/Dashboard.js:276 | exactly the entries whose `mal_id` is not strictly equal to `itemId` remain |
| Patches.KeepOtherAnimeAppend | src/components/admin/Dashboard.js:276 | the detail favorites are filtered one at a time, so the kept anime keep their order and their repetitions |
| Patches.KeepOtherReviews | src/components/admin/Dashboard.js:297 | exactly the reviews whose id is not strictly equal to `itemId` remain |
| Patches.KeepOtherReviewsAppend | src/components/admin/Dashboard.js:297 | the detail reviews are filtered one at a time, so the kept reviews keep their order |
| Patches.DropDetailFavorite | src/components/admin/Dashboard.js:274-277 | only the detail view's favorites change, keeping those with a different `mal_id` as `KeepOtherAnime` filters them; no detail view stays none |
| Patches.DropDetailReview | src/components/admin/Dashboard.js:295-298 | only the detail view's reviews change, keeping those with a different id as `KeepOtherReviews` filters them |
| Patches.DecrementFavorites | src/components/admin/Dashboard.js:280-288 | each entry with the user's id shows one favorite fewer, with no floor at zero; everything else stays |
| Patches.DecrementFavoritesSum | src/components/admin/Dashboard.js:280-288 | the favorites column drops by the number of entries carrying the id |
| Patches.RemovalKeepsSyncIff | src/components/admin/Dashboard.js:261-288 | after a removal, a listed user's count matches the store if and only if the id occurred exactly once |
| Patches.SingleRemovalKeepsSync | src/components/admin/Dashboard.js:261-288 | when the id was stored once, the decremented listing matches the store after the write |
| Patches.CallerIdNeverMatchesDetail | src/components/admin/Dashboard.js:276 | with the caller's string argument and numeric `mal_id`s, the detail filter removes nothing |
| Patches.RemovalAsymmetry | src/components/admin/Dashboard.js:264-277 | the same removal deletes the stored id string yet leaves the detail view as it was |
| Listing.FilterUsers | src/components/admin/Dashboard.js:313-317 | a user is shown if and only if listed, with an email containing the term ignoring case, and passing the role filter |
| Listing.FilterUsersAppend | src/components/admin/Dashboard.js:313 | the filter works entry by entry in listing order |
| Listing.SubsequenceOfTail | src/components/admin/Dashboard.js:313 | a subsequence of a listing's tail is a subsequence of the listing |
| Listing.SubsequenceHeadDrop | src/components/admin/Dashboard.js:313 | dropping the first entry of a subsequence leaves a subsequence |
| Listing.FilterIsSubsequence | src/components/admin/Dashboard.js:313-317 | the shown users are an order-preserving subsequence of the listing |
| Listing.SearchIgnoresCase | src/components/admin/Dashboard.js:314 | a search term and its lower-case form show the same users |
| Listing.EmptySearchShowsEveryEmail | src/components/admin/Dashboard.js:314-315 | with no search term and role `all`, exactly the users with an email are shown; users without one never are |
| Dashboard.EnumerationSize | src/components/admin/Dashboard.js:104 | a snapshot holds as many documents as the collection |
| Dashboard.DistinctSetSize | src/components/admin/Dashboard.js:133 | a list of distinct ids has as many elements as its set |
| Dashboard.RoleWriteKeepsStatistics | src/components/admin/Dashboard.js:156-157 | writing a role to the store leaves every statistic unchanged |
| Dashboard.FreshListingInSync | src/components/admin/Dashboard.js:78-83 | a listing built from the users snapshot shows every user's stored number of favorites |
| Dashboard.RemovalSyncIfListed | src/components/admin/Dashboard.js:261-288 | for any listed user, a removal keeps the listing in step with the store if and only if the id was stored once |
| Dashboard.Dashboard.constructor | src/components/admin/Dashboard.js:34-48 | an empty listing, zero statistics, no selected user and no detail view |
| Dashboard.Dashboard.FetchAdminData | src/components/admin/Dashboard.js:56-147 | on success, the listing has one entry per stored user, kept in step with the store; the statistics are `StatisticsOf` the two collections, with totalUsers and totalReviews their sizes; a failed read changes nothing |
| Dashboard.Dashboard.FetchUserDetails | src/components/admin/Dashboard.js:172-240 | on success, the detail view is `LoadDetails`; a missing user or a failed read is an error that keeps the previous detail view |
| Dashboard.Dashboard.ViewDetails | src/components/admin/Dashboard.js:446-450 | the clicked user becomes selected, and the details load as `FetchUserDetails` does |
| Dashboard.Dashboard.CloseDetails | src/components/admin/Dashboard.js:508-512 | no selected user and no detail view; nothing else changes |
| Dashboard.Dashboard.UpdateUserRole | src/components/admin/Dashboard.js:149-170 | unconfirmed: nothing changes; failed write or unknown user: nothing changes; otherwise the stored role is written and only that entry's role changes in the listing, keeping the listing in step with the store |
| Dashboard.Dashboard.DeleteUserItem | src/components/admin/Dashboard.js:242-312 | favorite: a failed read, missing user or failed write changes nothing; success writes the filtered list, patches the detail view and decrements the count, which stays in step exactly when the id was stored once. Review: success deletes it from the store and detail view, counters untouched. Any other type fails with no change |
| Dashboard.Dashboard.DeleteFavorite | src/components/admin/Dashboard.js:252-290 | a failed read, missing user or failed write changes nothing; otherwise the store gets the filtered list, the detail view and the listing are patched, and the listing stays in step exactly when the id was stored once |
| Dashboard.Dashboard.DeleteReview | src/components/admin/Dashboard.js:292-299 | succeeds if and only if the write succeeds with a string id; then the review leaves the store and the detail view, and no counter or listing entry changes |
| Dashboard.Dashboard.FilteredUsers | src/components/admin/Dashboard.js:313-317 | the shown users are the listed users matching the search and role filters, in listing order |

## Left out

- Numbers are unbounded integers. Double precision beyond 2^53, where `===` can equate different integers, is not modelled. Nor is `toString`'s exponent form from 1e21 on. Catalogue ids are far below both.
- Rendering: the JSX, the recharts charts, the colour palette and the CSS are not modelled. They are presentation only.
- Alerts and the loading and error flags are not modelled. `window.confirm` is a `confirmed` flag, and a refusal returns `Cancelled` with nothing changed.
- The effect that runs `fetchAdminData` when the admin flag turns on is not modelled. Neither is `useAuth`.
- Store calls are represented by flags saying whether they succeed. This covers `getDocs`, `getDoc`, `updateDoc`, `deleteDoc` and the `where` query.
- `updateDoc` on a document that does not exist counts as a failure. `deleteDoc` of a missing review succeeds.
- `getDocs` ordering is a parameter. The ids listed in it must enumerate the collection.
- The catalogue `api.getAnimeById` is a total function returning None when the call throws.
- Catalogue responses without `data` are not modelled. A successful lookup always carries an anime.
- A catalogue entry without `genres` carries the empty genre list.
- Date parsing and the local time zone are not modelled, and neither are month labels. A review's `createdAt` arrives as a month, or as None when `new Date` gives an invalid date. That review counts in `totalReviews` and in no bucket.
- Today arrives as a (year, month) pair.
- The `Date` constructor maps years 0 to 99 to 1900 to 1999. This rule is not modelled.
- `Promise.all` concurrency is not modelled. Results are taken in input order, as `Promise.all` returns them.
- State updaters run against the state current when the handler began. The stale-closure timing of React batching is not modelled.
- `Object.entries` lists integer-like property names first, ascending. The genre counter here keeps plain insertion order for every name.
- Genre names that collide with `Object.prototype` properties are not modelled.
- `toLowerCase` is modelled on ASCII letters only. Other characters are left as they are.
- In the detail view, `{ ...userData, favorites, watchlist, reviews }` overrides stored fields of those names. This is kept as the stored document plus the three resolved lists.
- A listing entry is `{ id, ...userData, ... }`. A stored `id` field that would override the document id is not modelled.
- A joined review is `{ id: doc.id, ...reviewData, anime }`. A stored `id` field inside the review document would override the document id, and that id would then reach the review filter of the detail view and the `deleteDoc` call. This override is not modelled. `ReviewView` always carries the document id.
- Deleting a review with an id that is not a string is treated as a failed store call, as `doc()` rejects it.
- A patch of the detail view when no detail view is open is not modelled. The updater would throw inside React. Here no detail view stays none.
- Dashboard.Dashboard.FetchUserDetails: on a missing user or a failed read, the handler's `catch` branch leaves the previous detail view in place, and so does the model.
