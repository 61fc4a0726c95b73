/** The genre distribution of the statistics: a counter fed by the genres of
    every favorite whose catalogue lookup succeeds, turned into entries,
    sorted by count (stably, highest first) and cut to the first ten. */
module Genres {
  import opened Js
  import opened Records

  /** The genres a lookup contributes: none when it failed. */
  function GenresOf(response: Option<Anime>): seq<string> {
    match response
    case None => []
    case Some(anime) => anime.genres
  }

  /** The genre names contributed by a list of favorite ids, in lookup order. */
  function FavoriteGenres(favorites: seq<Value>, lookup: Lookup): seq<string> {
    if favorites == [] then []
    else FavoriteGenres(favorites[..|favorites| - 1], lookup) + GenresOf(lookup(favorites[|favorites| - 1]))
  }

  /** The genre names the aggregation counts, in the order it counts them:
      user by user, favorite by favorite. */
  function Occurrences(users: seq<Snap<UserDoc>>, lookup: Lookup): seq<string> {
    if users == [] then []
    else Occurrences(users[..|users| - 1], lookup) + FavoriteGenres(Favorites(users[|users| - 1].data), lookup)
  }

  lemma {:induction false} FavoriteGenresAppend(a: seq<Value>, b: seq<Value>, lookup: Lookup)
    ensures FavoriteGenres(a + b, lookup) == FavoriteGenres(a, lookup) + FavoriteGenres(b, lookup)
    decreases |b|
  {
    if b == [] {
      assert a + b == a;
    } else {
      var b', x := b[..|b| - 1], b[|b| - 1];
      assert (a + b)[..|a + b| - 1] == a + b';
      assert (a + b)[|a + b| - 1] == x;
      FavoriteGenresAppend(a, b', lookup);
      calc {
        FavoriteGenres(a + b, lookup);
        FavoriteGenres(a + b', lookup) + GenresOf(lookup(x));
        FavoriteGenres(a, lookup) + FavoriteGenres(b', lookup) + GenresOf(lookup(x));
        FavoriteGenres(a, lookup) + (FavoriteGenres(b', lookup) + GenresOf(lookup(x)));
        FavoriteGenres(a, lookup) + FavoriteGenres(b, lookup);
      }
    }
  }

  /** A favorite whose lookup fails adds no genre; the ones around it still count. */
  lemma FailedLookupContributesNothing(before: seq<Value>, x: Value, after: seq<Value>, lookup: Lookup)
    requires lookup(x) == None
    ensures FavoriteGenres(before + [x] + after, lookup) == FavoriteGenres(before + after, lookup)
  {
    FavoriteGenresAppend(before + [x], after, lookup);
    FavoriteGenresAppend(before, [x], lookup);
    FavoriteGenresAppend(before, after, lookup);
    assert [x][..0] == [];
    assert FavoriteGenres([x], lookup) == [];
    assert FavoriteGenres(before + [x], lookup) == FavoriteGenres(before, lookup);
  }

  /** Only favorites feed the counter: users whose favorites agree yield the
      same genres whatever their watchlists, roles and emails. */
  lemma {:induction false} OnlyFavoritesContribute(users: seq<Snap<UserDoc>>, others: seq<Snap<UserDoc>>, lookup: Lookup)
    requires |users| == |others|
    requires forall i :: 0 <= i < |users| ==> Favorites(users[i].data) == Favorites(others[i].data)
    ensures Occurrences(users, lookup) == Occurrences(others, lookup)
  {
    if users != [] {
      OnlyFavoritesContribute(users[..|users| - 1], others[..|others| - 1], lookup);
    }
  }

  predicate Distinct<T(==)>(s: seq<T>) {
    forall i, j :: 0 <= i < j < |s| ==> s[i] != s[j]
  }

  /** The keys of the counter object in insertion order: each genre name
      where it first occurs. */
  function FirstSeen(occ: seq<string>): (keys: seq<string>)
    ensures forall g :: g in keys <==> g in occ
    ensures Distinct(keys)
  {
    if occ == [] then []
    else
      var keys := FirstSeen(occ[..|occ| - 1]);
      var g := occ[|occ| - 1];
      if g in keys then keys else keys + [g]
  }

  /** `genreStats` after counting `occ`: `keys` is the insertion order of its
      properties and `counts` their values. */
  ghost predicate KeysOf(occ: seq<string>, keys: seq<string>) { keys == FirstSeen(occ) }

  ghost predicate IsTally(occ: seq<string>, keys: seq<string>, counts: map<string, nat>) {
    && KeysOf(occ, keys)
    && (forall g {:trigger CountOr0(counts, g)} :: CountOr0(counts, g) == multiset(occ)[g])
    && (forall g {:trigger counts[g]} :: g in counts ==> counts[g] > 0)
  }

  /** Counting one more name: a new name becomes the last key, a known one
      is incremented in place. */
  lemma TallyStep(occ: seq<string>, keys: seq<string>, counts: map<string, nat>, g: string)
    requires IsTally(occ, keys, counts)
    ensures IsTally(occ + [g], if g in counts then keys else keys + [g],
                    counts[g := (if g in counts then counts[g] else 0) + 1])
  {
    FirstSeenStep(occ, g);
    assert g in counts <==> g in occ by {
      assert CountOr0(counts, g) == multiset(occ)[g];
    }
    CountsStep(occ, counts, g);
  }

  /** Incrementing the counter of `g` counts one more occurrence of `g`. */
  lemma CountsStep(occ: seq<string>, counts: map<string, nat>, g: string)
    requires forall h {:trigger CountOr0(counts, h)} :: CountOr0(counts, h) == multiset(occ)[h]
    ensures forall h {:trigger multiset(occ + [g])[h]} ::
      CountOr0(counts[g := (if g in counts then counts[g] else 0) + 1], h) == multiset(occ + [g])[h]
  {
    var counts' := counts[g := (if g in counts then counts[g] else 0) + 1];
    assert multiset(occ + [g]) == multiset(occ) + multiset{g};
    forall h ensures CountOr0(counts', h) == multiset(occ + [g])[h] {
      assert CountOr0(counts, h) == multiset(occ)[h];
    }
  }

  /** A name seen before keeps the keys; a new one becomes the last key. */
  lemma FirstSeenStep(occ: seq<string>, g: string)
    ensures FirstSeen(occ + [g]) == if g in occ then FirstSeen(occ) else FirstSeen(occ) + [g]
  {
    assert (occ + [g])[..|occ|] == occ;
  }

  lemma ExtendPrefix<T>(a: seq<T>, b: seq<T>, i: nat)
    requires i < |b|
    ensures a + b[..i] + [b[i]] == a + b[..i + 1]
  {
    assert b[..i + 1] == b[..i] + [b[i]];
  }

  /** `animeData.data.genres.forEach(genre => genreStats[genre.name] = (genreStats[genre.name] || 0) + 1)` */
  method CountGenres(keys: seq<string>, counts: map<string, nat>, genres: seq<string>, ghost occ: seq<string>)
    returns (keys': seq<string>, counts': map<string, nat>)
    requires IsTally(occ, keys, counts)
    ensures IsTally(occ + genres, keys', counts')
  {
    keys', counts' := keys, counts;
    ghost var counted := occ;
    var i := 0;
    while i < |genres|
      invariant 0 <= i <= |genres|
      invariant counted == occ + genres[..i]
      invariant IsTally(counted, keys', counts')
    {
      var g := genres[i];
      TallyStep(counted, keys', counts', g);
      if g !in counts' {
        keys' := keys' + [g];
      }
      counts' := counts'[g := (if g in counts' then counts'[g] else 0) + 1];
      counted := counted + [g];
      ExtendPrefix(occ, genres, i);
      i := i + 1;
    }
    assert genres[..i] == genres;
  }

  /** `Object.entries(genreStats).map(([name, value]) => ({ name, value }))`
      once `occ` has been counted. */
  function Tallied(occ: seq<string>): (entries: seq<GenreCount>)
    ensures |entries| == |FirstSeen(occ)|
    ensures forall e :: e in entries <==> e.name in occ && e.value == multiset(occ)[e.name]
    ensures Distinct(entries)
    ensures forall i :: 0 <= i < |entries| ==> entries[i].name == FirstSeen(occ)[i]
  {
    var keys := FirstSeen(occ);
    var entries := seq(|keys|, i requires 0 <= i < |keys| => GenreCount(keys[i], multiset(occ)[keys[i]]));
    assert forall e: GenreCount :: e.name in occ && e.value == multiset(occ)[e.name] ==> e in entries by {
      forall e: GenreCount | e.name in occ && e.value == multiset(occ)[e.name] ensures e in entries {
        var i :| 0 <= i < |keys| && keys[i] == e.name;
        assert entries[i] == e;
      }
    }
    entries
  }

  predicate NonIncreasing(s: seq<GenreCount>) {
    forall i, j :: 0 <= i < j < |s| ==> s[i].value >= s[j].value
  }

  /** Places `e`, which came earlier in the input than everything in `s`,
      before the first entry whose value is not greater than its own. */
  function Insert(e: GenreCount, s: seq<GenreCount>): (r: seq<GenreCount>)
    ensures multiset(r) == multiset(s) + multiset{e}
  {
    if s == [] || e.value >= s[0].value then [e] + s
    else
      assert s == [s[0]] + s[1..];
      [s[0]] + Insert(e, s[1..])
  }

  lemma {:induction false} InsertSorted(e: GenreCount, s: seq<GenreCount>)
    requires NonIncreasing(s)
    ensures NonIncreasing(Insert(e, s))
  {
    if s != [] && e.value < s[0].value {
      var rest := Insert(e, s[1..]);
      InsertSorted(e, s[1..]);
      InsertBounded(e, s[1..], s[0].value);
      var r := [s[0]] + rest;
      assert r == Insert(e, s);
      forall i, j | 0 <= i < j < |r| ensures r[i].value >= r[j].value {
        if i > 0 {
          assert r[i] == rest[i - 1] && r[j] == rest[j - 1];
        } else {
          assert r[j] == rest[j - 1];
        }
      }
    }
  }

  /** Inserting keeps every value under a common bound. */
  lemma {:induction false} InsertBounded(e: GenreCount, s: seq<GenreCount>, bound: nat)
    requires e.value <= bound
    requires forall k :: 0 <= k < |s| ==> s[k].value <= bound
    ensures forall k :: 0 <= k < |Insert(e, s)| ==> Insert(e, s)[k].value <= bound
  {
    if s != [] && e.value < s[0].value {
      InsertBounded(e, s[1..], bound);
    }
  }

  /** `sort((a, b) => b.value - a.value)`: the sort is stable, so entries of
      equal value keep their input order. */
  function SortByValue(s: seq<GenreCount>): (r: seq<GenreCount>)
    ensures multiset(r) == multiset(s)
    ensures NonIncreasing(r)
  {
    if s == [] then []
    else
      assert s == [s[0]] + s[1..];
      InsertSorted(s[0], SortByValue(s[1..]));
      Insert(s[0], SortByValue(s[1..]))
  }

  /** The entries of value `v`, in order. */
  function WithValue(s: seq<GenreCount>, v: nat): seq<GenreCount> {
    if s == [] then [] else (if s[0].value == v then [s[0]] else []) + WithValue(s[1..], v)
  }

  lemma {:induction false} WithValueMembers(s: seq<GenreCount>, v: nat, x: GenreCount)
    ensures x in WithValue(s, v) <==> x in s && x.value == v
  {
    if s != [] {
      WithValueMembers(s[1..], v, x);
      assert s == [s[0]] + s[1..];
    }
  }

  lemma {:induction false} InsertKeepsTies(e: GenreCount, s: seq<GenreCount>, v: nat)
    ensures WithValue(Insert(e, s), v) == (if e.value == v then [e] else []) + WithValue(s, v)
  {
    if s == [] || e.value >= s[0].value {
      assert ([e] + s)[1..] == s;
    } else {
      InsertKeepsTies(e, s[1..], v);
      assert ([s[0]] + Insert(e, s[1..]))[1..] == Insert(e, s[1..]);
    }
  }

  /** The sort is stable: within every value, entries keep their input order. */
  lemma {:induction false} SortIsStable(s: seq<GenreCount>, v: nat)
    ensures WithValue(SortByValue(s), v) == WithValue(s, v)
  {
    if s != [] {
      SortIsStable(s[1..], v);
      InsertKeepsTies(s[0], SortByValue(s[1..]), v);
    }
  }

  lemma {:induction false} SameGroupsSameSequence(r: seq<GenreCount>, t: seq<GenreCount>)
    requires NonIncreasing(r) && NonIncreasing(t)
    requires forall v :: WithValue(r, v) == WithValue(t, v)
    ensures r == t
    decreases |r|
  {
    if r != [] {
      WithValueMembers(r, r[0].value, r[0]);
      WithValueMembers(t, r[0].value, r[0]);
    }
    if t != [] {
      WithValueMembers(t, t[0].value, t[0]);
      WithValueMembers(r, t[0].value, t[0]);
    }
    if r != [] && t != [] {
      assert r[0].value == t[0].value;
      var v0 := r[0].value;
      assert WithValue(r, v0) == [r[0]] + WithValue(r[1..], v0);
      assert WithValue(t, v0) == [t[0]] + WithValue(t[1..], v0);
      assert r[0] == WithValue(r, v0)[0] == WithValue(t, v0)[0] == t[0];
      forall v ensures WithValue(r[1..], v) == WithValue(t[1..], v) {
        if v == v0 {
          assert WithValue(r, v0)[1..] == WithValue(r[1..], v0);
          assert WithValue(t, v0)[1..] == WithValue(t[1..], v0);
        } else {
          assert WithValue(r, v) == WithValue(r[1..], v);
          assert WithValue(t, v) == WithValue(t[1..], v);
        }
      }
      SameGroupsSameSequence(r[1..], t[1..]);
      assert r == [r[0]] + r[1..] && t == [t[0]] + t[1..];
    }
  }

  /** There is only one stable descending sort: any non-increasing
      arrangement that keeps every group of equal values in input order is
      the one SortByValue gives. */
  lemma StableSortIsUnique(s: seq<GenreCount>, r: seq<GenreCount>)
    requires NonIncreasing(r)
    requires forall v :: WithValue(r, v) == WithValue(s, v)
    ensures r == SortByValue(s)
  {
    forall v ensures WithValue(r, v) == WithValue(SortByValue(s), v) {
      SortIsStable(s, v);
    }
    SameGroupsSameSequence(r, SortByValue(s));
  }

  /** `.slice(0, 10)` */
  function TopTen(s: seq<GenreCount>): seq<GenreCount> {
    if |s| <= 10 then s else s[..10]
  }

  /** The genre distribution the statistics report once `occ` is counted. */
  function Distribution(occ: seq<string>): seq<GenreCount> {
    TopTen(SortByValue(Tallied(occ)))
  }

  /** At most ten entries, highest count first, one per genre, each with the
      number of times that genre was counted. */
  lemma DistributionShape(occ: seq<string>)
    ensures |Distribution(occ)| == if |FirstSeen(occ)| <= 10 then |FirstSeen(occ)| else 10
    ensures NonIncreasing(Distribution(occ))
    ensures Distinct(Distribution(occ))
    ensures forall e :: e in Distribution(occ) ==> e.name in occ && e.value == multiset(occ)[e.name]
  {
    var entries := Tallied(occ);
    var sorted := SortByValue(entries);
    assert |sorted| == |entries| by {
      assert |multiset(sorted)| == |multiset(entries)|;
    }
    forall e | e in Distribution(occ) ensures e in entries {
      assert e in sorted;
      assert e in multiset(sorted);
    }
    SortedDistinct(entries);
  }

  lemma SortedDistinct(entries: seq<GenreCount>)
    requires Distinct(entries)
    ensures Distinct(SortByValue(entries))
  {
    var sorted := SortByValue(entries);
    forall i, j | 0 <= i < j < |sorted| ensures sorted[i] != sorted[j] {
      DistinctOnce(entries, sorted[i]);
      RepeatCountsTwice(sorted, i, j);
    }
  }

  lemma RepeatCountsTwice(s: seq<GenreCount>, i: nat, j: nat)
    requires i < j < |s|
    ensures s[i] == s[j] ==> multiset(s)[s[i]] >= 2
  {
    assert s == s[..i] + [s[i]] + s[i + 1..j] + [s[j]] + s[j + 1..];
  }

  lemma {:induction false} DistinctOnce(s: seq<GenreCount>, x: GenreCount)
    requires Distinct(s)
    ensures multiset(s)[x] <= 1
  {
    if s != [] {
      assert s == [s[0]] + s[1..];
      DistinctOnce(s[1..], x);
      forall k | 0 <= k < |s[1..]| ensures s[1..][k] != s[0] {
        assert s[1..][k] == s[k + 1];
      }
      assert s[0] !in s[1..];
    }
  }

  /** The entries cut off by the truncation never outrank a kept one. */
  lemma DistributionIsTopTen(occ: seq<string>, dropped: GenreCount, kept: GenreCount)
    requires dropped in Tallied(occ) && dropped !in Distribution(occ)
    requires kept in Distribution(occ)
    ensures kept.value >= dropped.value
  {
    var sorted := SortByValue(Tallied(occ));
    assert dropped in multiset(sorted);
    var j :| 0 <= j < |sorted| && sorted[j] == dropped;
    var i :| 0 <= i < |Distribution(occ)| && Distribution(occ)[i] == kept;
    assert j >= 10;
  }

  lemma {:induction false} WithValuePrefix(s: seq<GenreCount>, k: nat, v: nat)
    requires k <= |s|
    ensures WithValue(s[..k], v) <= WithValue(s, v)
  {
    if k > 0 {
      WithValuePrefix(s[1..], k - 1, v);
      assert s[..k][1..] == s[1..][..k - 1];
    }
  }

  /** Ties keep the order in which their genres were first counted: the
      reported entries of any one value are the first of that value in
      insertion order. */
  lemma DistributionKeepsTies(occ: seq<string>, v: nat)
    ensures WithValue(Distribution(occ), v) <= WithValue(Tallied(occ), v)
  {
    var sorted := SortByValue(Tallied(occ));
    SortIsStable(Tallied(occ), v);
    if |sorted| > 10 {
      WithValuePrefix(sorted, 10, v);
    }
  }
}
