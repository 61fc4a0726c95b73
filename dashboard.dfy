/** The admin dashboard: the two store collections it reads and writes, and
    the state it shows (the user listing, the statistics, the selected user
    and that user's detail view). Store reads and writes that can throw take
    a flag saying whether they succeed; the catalogue is a `Lookup`; the
    confirmation prompt is a flag. */
module Dashboard {
  import opened Js
  import opened Records
  import opened Genres
  import opened Aggregation
  import opened Details
  import opened Patches
  import opened Listing

  /** Why a handler ended in its `catch` branch. */
  datatype Failure = StoreError | UserNotFound | InvalidItemType

  /** How a handler ends: done, cancelled at the confirmation prompt, or failed. */
  datatype Outcome = Done | Cancelled | Failed(failure: Failure)

  /** `order` lists each document id of `store` exactly once: the order in
      which `getDocs` returns the collection. */
  ghost predicate Enumerates<D>(order: seq<string>, store: map<string, D>) {
    Distinct(order) && forall k :: k in order <==> k in store
  }

  /** The documents of `store` in the order `order`. */
  function Snapshot<D>(store: map<string, D>, order: seq<string>): seq<Snap<D>>
    requires forall k :: k in order ==> k in store
  {
    seq(|order|, i requires 0 <= i < |order| => Snap(order[i], store[order[i]]))
  }

  /** A snapshot holds as many documents as the collection. */
  lemma {:induction false} EnumerationSize<D>(order: seq<string>, store: map<string, D>)
    requires Enumerates(order, store)
    ensures |order| == |store|
  {
    DistinctSetSize(order);
    assert (set k | k in order) == store.Keys;
  }

  lemma {:induction false} DistinctSetSize(s: seq<string>)
    requires Distinct(s)
    ensures |set k | k in s| == |s|
  {
    if s != [] {
      DistinctSetSize(s[1..]);
      assert (set k | k in s) == {s[0]} + (set k | k in s[1..]);
      assert s[0] !in s[1..];
    }
  }

  /** A role written to the store leaves every statistic as it was. */
  lemma RoleWriteKeepsStatistics(store: map<string, UserDoc>, order: seq<string>, uid: string, role: string,
                                 reviews: seq<Snap<ReviewDoc>>, lookup: Lookup, now: YearMonth)
    requires ValidMonth(now)
    requires Enumerates(order, store) && uid in store
    ensures StatisticsOf(Snapshot(store[uid := store[uid].(role := Some(role))], order), reviews, lookup, now)
         == StatisticsOf(Snapshot(store, order), reviews, lookup, now)
  {
    var store' := store[uid := store[uid].(role := Some(role))];
    SameListsSameStatistics(Snapshot(store', order), Snapshot(store, order), reviews, lookup, now);
  }

  /** A listing built from a snapshot shows every user's stored number of favorites. */
  lemma FreshListingInSync(order: seq<string>, store: map<string, UserDoc>, listing: seq<ListedUser>)
    requires forall k :: k in order ==> k in store
    requires |listing| == |order|
    requires forall i :: 0 <= i < |listing| ==> listing[i] == ListEntry(Snapshot(store, order)[i])
    ensures InSync(listing, store)
  {
    forall i | 0 <= i < |listing| ensures listing[i].id in store && listing[i].favoritesCount == |Favorites(store[listing[i].id])| {
      assert listing[i].id == order[i];
    }
  }

  /** `RemovalKeepsSyncIff` for any listed user. */
  lemma RemovalSyncIfListed(users: seq<ListedUser>, store: map<string, UserDoc>, uid: string, itemId: Value)
    requires uid in store
    ensures InSync(users, store) && (exists i :: 0 <= i < |users| && users[i].id == uid) ==>
      (InSync(DecrementFavorites(users, uid), StoreAfterRemoval(store, uid, itemId)) <==>
       multiset(Favorites(store[uid]))[Str(ToString(itemId))] == 1)
  {
    if InSync(users, store) && exists i :: 0 <= i < |users| && users[i].id == uid {
      var i :| 0 <= i < |users| && users[i].id == uid;
      RemovalKeepsSyncIff(users, store, uid, itemId, i);
    }
  }

  class Dashboard {
    /** The `users` collection, by document id. */
    var userStore: map<string, UserDoc>
    /** The `reviews` collection, by document id. */
    var reviewStore: map<string, ReviewDoc>
    /** The `users` state: the listing the table shows. */
    var users: seq<ListedUser>
    var statistics: Statistics
    var selectedUser: Option<ListedUser>
    var userDetails: Option<UserDetails>

    /** The component as first rendered over the given store. */
    constructor(userStore: map<string, UserDoc>, reviewStore: map<string, ReviewDoc>)
      ensures this.userStore == userStore && this.reviewStore == reviewStore
      ensures users == [] && statistics == EmptyStatistics
      ensures selectedUser == None && userDetails == None
    {
      this.userStore := userStore;
      this.reviewStore := reviewStore;
      users := [];
      statistics := EmptyStatistics;
      selectedUser := None;
      userDetails := None;
    }

    /** `fetchAdminData`: read both collections, then replace the listing and
        the statistics; a failed read leaves both as they were. */
    method FetchAdminData(userOrder: seq<string>, reviewOrder: seq<string>, lookup: Lookup, now: YearMonth, readOk: bool)
      returns (outcome: Outcome)
      requires ValidMonth(now)
      requires Enumerates(userOrder, userStore) && Enumerates(reviewOrder, reviewStore)
      modifies this
      ensures userStore == old(userStore) && reviewStore == old(reviewStore)
      ensures selectedUser == old(selectedUser) && userDetails == old(userDetails)
      ensures !readOk ==> outcome == Failed(StoreError) && users == old(users) && statistics == old(statistics)
      ensures readOk ==>
        && outcome == Done
        && |users| == |userOrder|
        && (forall i :: 0 <= i < |users| ==> users[i] == ListEntry(Snapshot(userStore, userOrder)[i]))
        && statistics == StatisticsOf(Snapshot(userStore, userOrder), Snapshot(reviewStore, reviewOrder), lookup, now)
        && statistics.totalUsers == |userStore| && statistics.totalReviews == |reviewStore|
        && InSync(users, userStore)
    {
      if !readOk {
        return Failed(StoreError);
      }
      var usersSnapshot := Snapshot(userStore, userOrder);
      var reviewsSnapshot := Snapshot(reviewStore, reviewOrder);
      var listing, stats := ComputeStatistics(usersSnapshot, reviewsSnapshot, lookup, now);
      users := listing;
      statistics := stats;
      EnumerationSize(userOrder, userStore);
      EnumerationSize(reviewOrder, reviewStore);
      FreshListingInSync(userOrder, userStore, listing);
      outcome := Done;
    }

    /** `fetchUserDetails`: read the user and the user's reviews, then replace
        the detail view. A failed read or a missing user keeps the previous
        detail view. */
    method FetchUserDetails(userId: string, reviewOrder: seq<string>, lookup: Lookup, readOk: bool)
      returns (outcome: Outcome)
      requires Enumerates(reviewOrder, reviewStore)
      modifies this
      ensures userStore == old(userStore) && reviewStore == old(reviewStore)
      ensures users == old(users) && statistics == old(statistics) && selectedUser == old(selectedUser)
      ensures !readOk ==> outcome == Failed(StoreError) && userDetails == old(userDetails)
      ensures readOk && userId !in userStore ==> outcome == Failed(UserNotFound) && userDetails == old(userDetails)
      ensures readOk && userId in userStore ==>
        outcome == Done && userDetails == LoadDetails(userStore, Snapshot(reviewStore, reviewOrder), userId, lookup)
    {
      if !readOk {
        return Failed(StoreError);
      }
      if userId !in userStore {
        return Failed(UserNotFound);
      }
      userDetails := LoadDetails(userStore, Snapshot(reviewStore, reviewOrder), userId, lookup);
      outcome := Done;
    }

    /** The `View Details` button: select the user, then load the details. */
    method ViewDetails(user: ListedUser, reviewOrder: seq<string>, lookup: Lookup, readOk: bool)
      returns (outcome: Outcome)
      requires Enumerates(reviewOrder, reviewStore)
      modifies this
      ensures userStore == old(userStore) && reviewStore == old(reviewStore)
      ensures users == old(users) && statistics == old(statistics)
      ensures selectedUser == Some(user)
      ensures outcome == Done <==> readOk && user.id in userStore
      ensures outcome == Done ==> userDetails == LoadDetails(userStore, Snapshot(reviewStore, reviewOrder), user.id, lookup)
      ensures outcome != Done ==> userDetails == old(userDetails)
    {
      selectedUser := Some(user);
      outcome := FetchUserDetails(user.id, reviewOrder, lookup, readOk);
    }

    /** The `Close Details` button. */
    method CloseDetails()
      modifies this
      ensures selectedUser == None && userDetails == None
      ensures userStore == old(userStore) && reviewStore == old(reviewStore)
      ensures users == old(users) && statistics == old(statistics)
    {
      selectedUser := None;
      userDetails := None;
    }

    /** `handleUpdateUserRole`: once confirmed, write the role, then patch the
        listing entry with that id; if the write throws nothing changes. */
    method UpdateUserRole(userId: string, newRole: string, confirmed: bool, writeOk: bool)
      returns (outcome: Outcome)
      modifies this
      ensures reviewStore == old(reviewStore) && statistics == old(statistics)
      ensures selectedUser == old(selectedUser) && userDetails == old(userDetails)
      ensures !confirmed ==> outcome == Cancelled && userStore == old(userStore) && users == old(users)
      ensures confirmed && !(writeOk && userId in old(userStore)) ==>
        outcome == Failed(StoreError) && userStore == old(userStore) && users == old(users)
      ensures confirmed && writeOk && userId in old(userStore) ==>
        && outcome == Done
        && userStore == old(userStore)[userId := old(userStore)[userId].(role := Some(newRole))]
        && users == SetRole(old(users), userId, newRole)
      ensures old(InSync(users, userStore)) ==> InSync(users, userStore)
    {
      if !confirmed {
        return Cancelled;
      }
      // updateDoc throws on a document that does not exist
      if !writeOk || userId !in userStore {
        return Failed(StoreError);
      }
      ghost var before := users;
      ghost var storeBefore := userStore;
      userStore := userStore[userId := userStore[userId].(role := Some(newRole))];
      users := SetRole(users, userId, newRole);
      outcome := Done;
      if InSync(before, storeBefore) {
        forall i | 0 <= i < |users| ensures users[i].id in userStore && users[i].favoritesCount == |Favorites(userStore[users[i].id])| {
          assert before[i].id in storeBefore;
          assert Favorites(userStore[users[i].id]) == Favorites(storeBefore[users[i].id]);
        }
      }
    }

    /** `handleDeleteUserItem`: once confirmed, remove a favorite (read the
        user, filter the stored list, write it back, patch the detail view
        and the listing) or a review (delete it, patch the detail view); any
        other item type fails. A failed read or write changes nothing. */
    method DeleteUserItem(userId: string, itemType: string, itemId: Value, confirmed: bool, readOk: bool, writeOk: bool)
      returns (outcome: Outcome)
      modifies this
      ensures statistics == old(statistics) && selectedUser == old(selectedUser)
      ensures outcome != Done ==>
        && userStore == old(userStore) && reviewStore == old(reviewStore)
        && users == old(users) && userDetails == old(userDetails)
      ensures !confirmed ==> outcome == Cancelled
      ensures confirmed && itemType != "favorite" && itemType != "review" ==> outcome == Failed(InvalidItemType)
      ensures confirmed && itemType == "favorite" ==>
        && (!readOk ==> outcome == Failed(StoreError))
        && (readOk && userId !in old(userStore) ==> outcome == Failed(UserNotFound))
        && (readOk && userId in old(userStore) && !writeOk ==> outcome == Failed(StoreError))
        && (readOk && userId in old(userStore) && writeOk ==>
              && outcome == Done
              && userStore == StoreAfterRemoval(old(userStore), userId, itemId)
              && reviewStore == old(reviewStore)
              && userDetails == DropDetailFavorite(old(userDetails), itemId)
              && users == DecrementFavorites(old(users), userId))
      ensures confirmed && itemType == "review" ==>
        && (!(writeOk && itemId.Str?) ==> outcome == Failed(StoreError))
        && (writeOk && itemId.Str? ==>
              && outcome == Done
              && reviewStore == old(reviewStore) - {itemId.s}
              && userStore == old(userStore) && users == old(users)
              && userDetails == DropDetailReview(old(userDetails), itemId))
      ensures outcome == Done && itemType == "review" && old(InSync(users, userStore)) ==> InSync(users, userStore)
      ensures outcome == Done && itemType == "favorite" && old(InSync(users, userStore))
              && (exists i :: 0 <= i < |old(users)| && old(users)[i].id == userId) ==>
        (InSync(users, userStore) <==> multiset(Favorites(old(userStore)[userId]))[Str(ToString(itemId))] == 1)
    {
      if !confirmed {
        return Cancelled;
      }
      if itemType == "favorite" {
        outcome := DeleteFavorite(userId, itemId, readOk, writeOk);
      } else if itemType == "review" {
        outcome := DeleteReview(itemId, writeOk);
      } else {
        return Failed(InvalidItemType);
      }
    }

    /** `case 'favorite'`: read the user, write back the filtered favorites,
        then patch the detail view and the listing. */
    method DeleteFavorite(userId: string, itemId: Value, readOk: bool, writeOk: bool) returns (outcome: Outcome)
      modifies this
      ensures statistics == old(statistics) && selectedUser == old(selectedUser) && reviewStore == old(reviewStore)
      ensures outcome != Done ==> userStore == old(userStore) && users == old(users) && userDetails == old(userDetails)
      ensures !readOk ==> outcome == Failed(StoreError)
      ensures readOk && userId !in old(userStore) ==> outcome == Failed(UserNotFound)
      ensures readOk && userId in old(userStore) && !writeOk ==> outcome == Failed(StoreError)
      ensures readOk && userId in old(userStore) && writeOk ==>
        && outcome == Done
        && userStore == StoreAfterRemoval(old(userStore), userId, itemId)
        && userDetails == DropDetailFavorite(old(userDetails), itemId)
        && users == DecrementFavorites(old(users), userId)
      ensures outcome == Done && old(InSync(users, userStore))
              && (exists i :: 0 <= i < |old(users)| && old(users)[i].id == userId) ==>
        (InSync(users, userStore) <==> multiset(Favorites(old(userStore)[userId]))[Str(ToString(itemId))] == 1)
    {
      if !readOk {
        return Failed(StoreError);
      }
      if userId !in userStore {
        return Failed(UserNotFound);
      }
      if !writeOk {
        return Failed(StoreError);
      }
      var user := userStore[userId];
      var updatedFavorites := RemoveStoredFavorite(Favorites(user), itemId);
      RemovalSyncIfListed(users, userStore, userId, itemId);
      ghost var newStore := StoreAfterRemoval(userStore, userId, itemId);
      ghost var newUsers := DecrementFavorites(users, userId);
      userStore := userStore[userId := user.(favorites := Some(updatedFavorites))];
      assert userStore == newStore;
      userDetails := DropDetailFavorite(userDetails, itemId);
      users := DecrementFavorites(users, userId);
      assert users == newUsers;
      outcome := Done;
    }

    /** `case 'review'`: delete the review, then patch the detail view. */
    method DeleteReview(itemId: Value, writeOk: bool) returns (outcome: Outcome)
      modifies this
      ensures statistics == old(statistics) && selectedUser == old(selectedUser)
      ensures userStore == old(userStore) && users == old(users)
      ensures outcome == Done <==> writeOk && itemId.Str?
      ensures outcome != Done ==>
        outcome == Failed(StoreError) && reviewStore == old(reviewStore) && userDetails == old(userDetails)
      ensures outcome == Done ==>
        reviewStore == old(reviewStore) - {itemId.s} && userDetails == DropDetailReview(old(userDetails), itemId)
    {
      // `doc(db, 'reviews', itemId)` throws unless the id is a string
      if !writeOk || !itemId.Str? {
        return Failed(StoreError);
      }
      reviewStore := reviewStore - {itemId.s};
      userDetails := DropDetailReview(userDetails, itemId);
      outcome := Done;
    }

    /** `filteredUsers`: the listing entries the table shows, in listing order. */
    function FilteredUsers(searchTerm: string, filterRole: string): (r: seq<ListedUser>)
      reads this
      ensures forall u :: u in r <==> u in users && MatchesSearch(u, searchTerm) && MatchesRole(u, filterRole)
      ensures Subsequence(r, users)
    {
      FilterIsSubsequence(users, searchTerm, filterRole);
      FilterUsers(users, searchTerm, filterRole)
    }
  }
}
