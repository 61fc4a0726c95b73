/** `filteredUsers`: the listing entries whose email contains the search term,
    ignoring case, and whose role passes the role filter. */
module Listing {
  import opened Js
  import opened Records

  /** `user?.email?.toLowerCase().includes(searchTerm.toLowerCase()) ?? false` */
  predicate MatchesSearch(user: ListedUser, searchTerm: string) {
    match user.doc.email
    case None => false
    case Some(email) => Includes(ToLower(email), ToLower(searchTerm))
  }

  /** `filterRole === 'all' || user?.role === filterRole` */
  predicate MatchesRole(user: ListedUser, filterRole: string) {
    filterRole == "all" || user.doc.role == Some(filterRole)
  }

  predicate Shown(user: ListedUser, searchTerm: string, filterRole: string) {
    MatchesSearch(user, searchTerm) && MatchesRole(user, filterRole)
  }

  /** `users.filter(user => matchesSearch && matchesRole)` */
  function FilterUsers(users: seq<ListedUser>, searchTerm: string, filterRole: string): (r: seq<ListedUser>)
    ensures |r| <= |users|
    ensures forall u :: u in r <==> u in users && Shown(u, searchTerm, filterRole)
  {
    if users == [] then []
    else (if Shown(users[0], searchTerm, filterRole) then [users[0]] else [])
           + FilterUsers(users[1..], searchTerm, filterRole)
  }

  /** The filter keeps the listing's order: filtering a concatenation filters each part. */
  lemma {:induction false} FilterUsersAppend(a: seq<ListedUser>, b: seq<ListedUser>, searchTerm: string, filterRole: string)
    ensures FilterUsers(a + b, searchTerm, filterRole) == FilterUsers(a, searchTerm, filterRole) + FilterUsers(b, searchTerm, filterRole)
  {
    if a == [] {
      assert a + b == b;
    } else {
      assert (a + b)[1..] == a[1..] + b;
      FilterUsersAppend(a[1..], b, searchTerm, filterRole);
    }
  }

  /** `r` is `users` with some entries left out, the rest in their order. */
  predicate Subsequence(r: seq<ListedUser>, users: seq<ListedUser>)
    decreases |users|
  {
    if r == [] then true
    else if users == [] then false
    else if r[0] == users[0] then Subsequence(r[1..], users[1..])
    else Subsequence(r, users[1..])
  }

  lemma {:induction false} SubsequenceOfTail(r: seq<ListedUser>, users: seq<ListedUser>)
    requires users != [] && Subsequence(r, users[1..])
    ensures Subsequence(r, users)
    decreases |users|, 0
  {
    if r != [] && r[0] == users[0] {
      assert users[1..] != [];
      SubsequenceHeadDrop(r, users[1..]);
    }
  }

  /** A subsequence without its head is still a subsequence. */
  lemma {:induction false} SubsequenceHeadDrop(r: seq<ListedUser>, users: seq<ListedUser>)
    requires r != [] && Subsequence(r, users)
    ensures Subsequence(r[1..], users)
    decreases |users|, 1
  {
    if r[0] == users[0] {
      SubsequenceOfTail(r[1..], users);
    } else {
      SubsequenceHeadDrop(r, users[1..]);
      SubsequenceOfTail(r[1..], users);
    }
  }

  /** The filtered listing is an order-preserving subsequence of the listing. */
  lemma {:induction false} FilterIsSubsequence(users: seq<ListedUser>, searchTerm: string, filterRole: string)
    ensures Subsequence(FilterUsers(users, searchTerm, filterRole), users)
  {
    if users != [] {
      var r := FilterUsers(users, searchTerm, filterRole);
      FilterIsSubsequence(users[1..], searchTerm, filterRole);
      if Shown(users[0], searchTerm, filterRole) {
        assert r[0] == users[0] && r[1..] == FilterUsers(users[1..], searchTerm, filterRole);
      } else {
        assert r == FilterUsers(users[1..], searchTerm, filterRole);
        SubsequenceOfTail(r, users);
      }
    }
  }

  /** The search ignores case: a term and its lower-case form select the same users. */
  lemma SearchIgnoresCase(user: ListedUser, searchTerm: string)
    ensures MatchesSearch(user, searchTerm) == MatchesSearch(user, ToLower(searchTerm))
  {
    ToLowerIdempotent(searchTerm);
  }

  /** With the empty search term and role filter `all`, exactly the users with an email are shown. */
  lemma EmptySearchShowsEveryEmail(user: ListedUser)
    ensures Shown(user, "", "all") <==> user.doc.email.Some?
  {
    if user.doc.email.Some? {
      EmptyIsIncluded(ToLower(user.doc.email.value));
    }
  }
}
