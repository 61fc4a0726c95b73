/** The monthly activity chart: reviews counted per `month/year` key, and six
    calendar buckets ending at the current month. */
module Activity {
  import opened Js
  import opened Records

  /** Months since January of year 0: the quantity `new Date(year, month, 1)`
      normalises, so that month -1 is December of the year before. */
  function MonthIndex(ym: YearMonth): int {
    ym.year * 12 + ym.month - 1
  }

  /** The month `i` months before `now`: `new Date(now.getFullYear(), now.getMonth() - i, 1)`. */
  function MonthsBefore(now: YearMonth, i: nat): (ym: YearMonth)
    requires ValidMonth(now)
    ensures ValidMonth(ym)
    ensures MonthIndex(ym) == MonthIndex(now) - i
  {
    var index := MonthIndex(now) - i;
    YearMonth(index / 12, index % 12 + 1)
  }

  /** Valid months with the same index are the same month. */
  lemma MonthIndexInjective(a: YearMonth, b: YearMonth)
    requires ValidMonth(a) && ValidMonth(b)
    requires MonthIndex(a) == MonthIndex(b)
    ensures a == b
  {
    assert a.year * 12 <= MonthIndex(a) < a.year * 12 + 12;
    assert b.year * 12 <= MonthIndex(b) < b.year * 12 + 12;
  }

  /** Going back fewer than twelve months stays in the current year while the
      month number allows it, and otherwise rolls into the previous year. */
  lemma MonthUnderflowBorrowsYear(now: YearMonth, i: nat)
    requires ValidMonth(now) && i < 12
    ensures MonthsBefore(now, i) ==
      if i < now.month then YearMonth(now.year, now.month - i)
      else YearMonth(now.year - 1, now.month - i + 12)
  {
    var expected := if i < now.month then YearMonth(now.year, now.month - i)
                    else YearMonth(now.year - 1, now.month - i + 12);
    assert MonthIndex(expected) == MonthIndex(now) - i;
    MonthIndexInjective(MonthsBefore(now, i), expected);
  }

  /** The number of reviews whose `month/year` key is `key`. */
  function ReviewsIn(reviews: seq<Snap<ReviewDoc>>, key: Option<YearMonth>): nat {
    if reviews == [] then 0
    else ReviewsIn(reviews[..|reviews| - 1], key) + (if reviews[|reviews| - 1].data.createdAt == key then 1 else 0)
  }

  lemma ReviewsInPrefix(reviews: seq<Snap<ReviewDoc>>, i: nat, key: Option<YearMonth>)
    requires i < |reviews|
    ensures ReviewsIn(reviews[..i + 1], key) ==
            ReviewsIn(reviews[..i], key) + (if reviews[i].data.createdAt == key then 1 else 0)
  {
    assert reviews[..i + 1][..i] == reviews[..i];
  }

  /** `reviewsSnapshot.docs.forEach(...)`: `monthlyStats.reviews[monthYear] =
      (monthlyStats.reviews[monthYear] || 0) + 1`. */
  method CountReviewsByMonth(reviews: seq<Snap<ReviewDoc>>) returns (byMonth: map<Option<YearMonth>, nat>)
    ensures forall key :: CountOr0(byMonth, key) == ReviewsIn(reviews, key)
  {
    byMonth := map[];
    var i := 0;
    while i < |reviews|
      invariant 0 <= i <= |reviews|
      invariant forall key :: CountOr0(byMonth, key) == ReviewsIn(reviews[..i], key)
    {
      var monthYear := reviews[i].data.createdAt;
      forall key ensures ReviewsIn(reviews[..i + 1], key) ==
                         ReviewsIn(reviews[..i], key) + (if monthYear == key then 1 else 0) {
        ReviewsInPrefix(reviews, i, key);
      }
      ghost var counted := byMonth;
      byMonth := byMonth[monthYear := CountOr0(byMonth, monthYear) + 1];
      forall key ensures CountOr0(byMonth, key) == ReviewsIn(reviews[..i + 1], key) {
        assert CountOr0(counted, key) == ReviewsIn(reviews[..i], key);
      }
      i := i + 1;
    }
    assert reviews[..i] == reviews;
  }

  /** The `for (let i = 5; i >= 0; i--)` loop: six buckets, oldest first,
      each reading its counts from the three per-month counters. */
  method ActivityBuckets(
    now: YearMonth,
    reviewsByMonth: map<Option<YearMonth>, nat>,
    favoritesByMonth: map<Option<YearMonth>, nat>,
    watchlistByMonth: map<Option<YearMonth>, nat>)
    returns (buckets: seq<ActivityBucket>)
    requires ValidMonth(now)
    ensures |buckets| == 6
    ensures buckets[5].month == now
    ensures forall k :: 0 <= k < 6 ==>
      ValidMonth(buckets[k].month) && MonthIndex(buckets[k].month) == MonthIndex(now) - (5 - k)
    ensures forall k :: 0 <= k < 6 ==>
      && buckets[k].reviews == CountOr0(reviewsByMonth, Some(buckets[k].month))
      && buckets[k].favorites == CountOr0(favoritesByMonth, Some(buckets[k].month))
      && buckets[k].watchlist == CountOr0(watchlistByMonth, Some(buckets[k].month))
  {
    buckets := [];
    var i := 5;
    while i >= 0
      invariant -1 <= i <= 5
      invariant |buckets| == 5 - i
      invariant forall k :: 0 <= k < |buckets| ==>
        && buckets[k].month == MonthsBefore(now, 5 - k)
        && buckets[k].reviews == CountOr0(reviewsByMonth, Some(buckets[k].month))
        && buckets[k].favorites == CountOr0(favoritesByMonth, Some(buckets[k].month))
        && buckets[k].watchlist == CountOr0(watchlistByMonth, Some(buckets[k].month))
    {
      var date := MonthsBefore(now, i);
      var monthYear := Some(date);
      buckets := buckets + [ActivityBucket(date,
        CountOr0(reviewsByMonth, monthYear),
        CountOr0(favoritesByMonth, monthYear),
        CountOr0(watchlistByMonth, monthYear))];
      i := i - 1;
    }
    MonthIndexInjective(buckets[5].month, now);
  }

  /** Six consecutive months ending at `now`, oldest first. */
  function LastSixMonths(now: YearMonth): (months: seq<YearMonth>)
    requires ValidMonth(now)
  {
    seq(6, k requires 0 <= k < 6 => MonthsBefore(now, 5 - k))
  }

  /** The six buckets are six different months in strictly increasing order. */
  lemma LastSixMonthsAscend(now: YearMonth)
    requires ValidMonth(now)
    ensures forall j, k :: 0 <= j < k < 6 ==>
      MonthIndex(LastSixMonths(now)[j]) < MonthIndex(LastSixMonths(now)[k])
    ensures LastSixMonths(now)[5] == now
  {
    MonthIndexInjective(LastSixMonths(now)[5], now);
  }

  /** Total reviews over a list of keys, counting each review once per key it matches. */
  function ReviewsInAll(reviews: seq<Snap<ReviewDoc>>, keys: seq<Option<YearMonth>>): nat {
    if keys == [] then 0 else ReviewsIn(reviews, keys[0]) + ReviewsInAll(reviews, keys[1..])
  }

  /** How many of `keys` equal `key`. */
  function Hits(keys: seq<Option<YearMonth>>, key: Option<YearMonth>): nat {
    if keys == [] then 0 else (if keys[0] == key then 1 else 0) + Hits(keys[1..], key)
  }

  lemma {:induction false} HitsOfDistinct(keys: seq<Option<YearMonth>>, key: Option<YearMonth>)
    requires forall i, j :: 0 <= i < j < |keys| ==> keys[i] != keys[j]
    ensures Hits(keys, key) <= 1
  {
    if keys != [] {
      HitsOfDistinct(keys[1..], key);
      if keys[0] == key {
        HitsAbsent(keys[1..], key);
      }
    }
  }

  lemma {:induction false} HitsAbsent(keys: seq<Option<YearMonth>>, key: Option<YearMonth>)
    requires key !in keys
    ensures Hits(keys, key) == 0
  {
    if keys != [] {
      HitsAbsent(keys[1..], key);
    }
  }

  lemma {:induction false} ReviewsInAllStep(reviews: seq<Snap<ReviewDoc>>, keys: seq<Option<YearMonth>>)
    requires reviews != []
    ensures ReviewsInAll(reviews, keys) ==
            ReviewsInAll(reviews[..|reviews| - 1], keys) + Hits(keys, reviews[|reviews| - 1].data.createdAt)
  {
    if keys != [] {
      ReviewsInAllStep(reviews, keys[1..]);
    }
  }

  lemma {:induction false} NoReviewsNoCount(keys: seq<Option<YearMonth>>)
    ensures ReviewsInAll([], keys) == 0
  {
    if keys != [] {
      NoReviewsNoCount(keys[1..]);
    }
  }

  /** Reviews counted under pairwise different keys never add up to more
      than the number of reviews. */
  lemma {:induction false} DistinctKeysBound(reviews: seq<Snap<ReviewDoc>>, keys: seq<Option<YearMonth>>)
    requires forall i, j :: 0 <= i < j < |keys| ==> keys[i] != keys[j]
    ensures ReviewsInAll(reviews, keys) <= |reviews|
  {
    if reviews == [] {
      NoReviewsNoCount(keys);
    } else {
      DistinctKeysBound(reviews[..|reviews| - 1], keys);
      ReviewsInAllStep(reviews, keys);
      HitsOfDistinct(keys, reviews[|reviews| - 1].data.createdAt);
    }
  }
}
