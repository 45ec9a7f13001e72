/**
 * MyPostsActivity.java: the viewer's own unaccepted posts. The mode field
 * chooses offers (the viewer drives) or requests (the viewer rides); every
 * load clears both lists and queries the rides with accepted == false, and the
 * answer, delivered later, appends each non-null ride that passes the mode's
 * test, with its key, in snapshot order.
 */
module MyPosts {
  import opened Common
  import opened Rides
  import opened Firebase
  import opened Lists
  import opened Views

  /** The view a mode string selects; any other string selects nothing, since
      both tests in the loop compare the mode with a literal. */
  function MyPostsView(mode: string, uid: Uid): (mv: Option<View>)
    ensures mv.Some? <==> mode == "offer" || mode == "request"
    ensures mv.Some? ==> mv.value.viewer == uid && (mv.value.MyOffers? <==> mode == "offer")
    ensures mv.Some? ==> mv.value.MyOffers? || mv.value.MyRequests?
  {
    if mode == "offer" then Some(MyOffers(uid))
    else if mode == "request" then Some(MyRequests(uid))
    else None
  }

  /** Over the answer to the accepted == false query, a key is listed iff the
      store holds an unaccepted ride under it that the viewer drives (offer
      mode) or rides (request mode); rideType is never looked at. */
  lemma MyPostsMembership(store: Store, snap: seq<Child>, mode: string, uid: Uid, k: Key)
    requires IsQueryResult(store, false, snap)
    ensures k in KeysOf(Selected(snap, MyPostsView(mode, uid))) <==>
      k in store && !store[k].accepted
      && ((mode == "offer" && IsDriver(store[k], uid)) || (mode == "request" && IsRider(store[k], uid)))
  {
    var mv := MyPostsView(mode, uid);
    if mv.Some? {
      VisibleIff(store, mv.value, snap, k);
    }
  }

  /** A query answer lists each key once, so each ride is listed at most once. */
  lemma MyPostsDistinct(store: Store, snap: seq<Child>, mode: string, uid: Uid)
    requires IsQueryResult(store, false, snap)
    ensures var ks := KeysOf(Selected(snap, MyPostsView(mode, uid)));
      forall i, j :: 0 <= i < j < |ks| ==> ks[i] != ks[j]
  {
    var mv := MyPostsView(mode, uid);
    if mv.Some? {
      KeptDistinct(snap, mv.value);
    }
  }

  /** A key occurs once in a list without repeated keys. */
  lemma {:induction false} OnceInDistinct(ks: seq<Key>, k: Key)
    requires forall i, j :: 0 <= i < j < |ks| ==> ks[i] != ks[j]
    requires k in ks
    ensures multiset(ks)[k] == 1
  {
    var n := |ks| - 1;
    assert ks == ks[..n] + [ks[n]];
    if ks[n] == k {
      assert k !in ks[..n];
    } else {
      OnceInDistinct(ks[..n], k);
    }
  }

  /** Opening the screen over an unchanged store lists each of the viewer's
      posts of the mode exactly twice: once for each answer. */
  lemma OpeningListsTwice(store: Store, first: seq<Child>, second: seq<Child>, mode: string, uid: Uid, k: Key)
    requires IsQueryResult(store, false, first) && IsQueryResult(store, false, second)
    requires k in store && !store[k].accepted
    requires (mode == "offer" && IsDriver(store[k], uid)) || (mode == "request" && IsRider(store[k], uid))
    ensures var mv := MyPostsView(mode, uid);
      multiset(KeysOf(Selected(first, mv)) + KeysOf(Selected(second, mv)))[k] == 2
  {
    var mv := MyPostsView(mode, uid);
    MyPostsMembership(store, first, mode, uid, k);
    MyPostsMembership(store, second, mode, uid, k);
    MyPostsDistinct(store, first, mode, uid);
    MyPostsDistinct(store, second, mode, uid);
    OnceInDistinct(KeysOf(Selected(first, mv)), k);
    OnceInDistinct(KeysOf(Selected(second, mv)), k);
  }

  /** Recreating the screen over an unchanged store lists each of the viewer's
      posts of the restored mode exactly three times: once for each answer. */
  lemma RecreatingListsThrice(store: Store, first: seq<Child>, second: seq<Child>, third: seq<Child>,
                              mode: string, uid: Uid, k: Key)
    requires IsQueryResult(store, false, first) && IsQueryResult(store, false, second)
    requires IsQueryResult(store, false, third)
    requires k in store && !store[k].accepted
    requires (mode == "offer" && IsDriver(store[k], uid)) || (mode == "request" && IsRider(store[k], uid))
    ensures var mv := MyPostsView(mode, uid);
      multiset(KeysOf(Selected(first, mv)) + KeysOf(Selected(second, mv)) + KeysOf(Selected(third, mv)))[k] == 3
  {
    var mv := MyPostsView(mode, uid);
    OpeningListsTwice(store, first, second, mode, uid, k);
    MyPostsMembership(store, third, mode, uid, k);
    MyPostsDistinct(store, third, mode, uid);
    OnceInDistinct(KeysOf(Selected(third, mv)), k);
  }

  /** The two tests of the loop pass a ride exactly when the mode names a view
      and the ride passes that view. */
  lemma MyTestsIff(mode: string, uid: Uid, r: Ride)
    ensures var mv := MyPostsView(mode, uid);
      (mv.Some? && Passes(mv.value, r)) <==>
        (mode == "offer" && r.driverId.Some? && r.driverId.value == uid)
        || (mode == "request" && r.riderId.Some? && r.riderId.value == uid)
  {
  }

  class MyPostsActivity {
    const lists: RideLists
    const currentUser: Option<User>
    var currentMode: string

    constructor (currentUser: Option<User>)
      ensures fresh(lists) && lists.rides == [] && lists.keys == []
      ensures this.currentUser == currentUser && currentMode == "offer"
    {
      lists := new RideLists();
      this.currentUser := currentUser;
      currentMode := "offer";
    }

    /** loadMyPosts(): with no signed-in user nothing changes; otherwise both
        lists are cleared at once and the query orderByChild("accepted")
        .equalTo(false) is sent. Its answer arrives later, in OnMyPostsData. */
    method LoadMyPosts()
      modifies lists
      ensures currentUser.None? ==> lists.rides == old(lists.rides) && lists.keys == old(lists.keys)
      ensures currentUser.Some? ==> lists.rides == [] && lists.keys == []
    {
      if currentUser.None? {
        return;
      }
      lists.rides := [];
      lists.keys := [];
    }

    /** onDataChange of that query: the viewer's rides of the mode current at
        the time the answer arrives are appended, with their keys, to whatever
        the lists hold; nothing is cleared here. */
    method OnMyPostsData(snapshot: seq<Child>)
      requires currentUser.Some?
      modifies lists
      ensures var sel := Selected(snapshot, MyPostsView(currentMode, currentUser.value.uid));
        lists.rides == old(lists.rides) + RidesOf(sel) && lists.keys == old(lists.keys) + KeysOf(sel)
    {
      ghost var mv := MyPostsView(currentMode, currentUser.value.uid);
      ghost var rides0, keys0 := lists.rides, lists.keys;
      var i := 0;
      while i < |snapshot|
        invariant 0 <= i <= |snapshot|
        invariant lists.rides == rides0 + RidesOf(Selected(snapshot[..i], mv))
        invariant lists.keys == keys0 + KeysOf(Selected(snapshot[..i], mv))
      {
        var child := snapshot[i];
        SelectedStep(snapshot, i, mv);
        if child.value.Some? {
          var ride := child.value.value;
          var uid := currentUser.value.uid;
          MyTestsIff(currentMode, uid, ride);
          if currentMode == "offer" && ride.driverId.Some? && ride.driverId.value == uid {
            lists.rides := lists.rides + [ride];
            lists.keys := lists.keys + [child.key];
          }
          if currentMode == "request" && ride.riderId.Some? && ride.riderId.value == uid {
            lists.rides := lists.rides + [ride];
            lists.keys := lists.keys + [child.key];
          }
        }
        ghost var pass := mv.Some? && child.value.Some? && Passes(mv.value, child.value.value);
        ghost var rideStep := if pass then [child.value.value] else [];
        ghost var keyStep := if pass then [child.key] else [];
        assert rides0 + RidesOf(Selected(snapshot[..i], mv)) + rideStep
          == rides0 + (RidesOf(Selected(snapshot[..i], mv)) + rideStep);
        assert keys0 + KeysOf(Selected(snapshot[..i], mv)) + keyStep
          == keys0 + (KeysOf(Selected(snapshot[..i], mv)) + keyStep);
        i := i + 1;
      }
      assert snapshot[..i] == snapshot;
    }

    /** A load whose answer arrives before any other load starts: both lists
        become the mode's selection, index-aligned. */
    method Reload(snapshot: seq<Child>)
      modifies lists
      ensures currentUser.None? ==> lists.rides == old(lists.rides) && lists.keys == old(lists.keys)
      ensures currentUser.Some? ==>
        var sel := Selected(snapshot, MyPostsView(currentMode, currentUser.value.uid));
        lists.rides == RidesOf(sel) && lists.keys == KeysOf(sel)
    {
      LoadMyPosts();
      if currentUser.Some? {
        OnMyPostsData(snapshot);
      }
    }

    /** Opening the screen: onCreate and then onResume each call loadMyPosts,
        and both return before either answer is delivered, so both clears run
        first and each answer then appends its selection. */
    method Open(first: seq<Child>, second: seq<Child>)
      modifies lists
      ensures currentUser.None? ==> lists.rides == old(lists.rides) && lists.keys == old(lists.keys)
      ensures currentUser.Some? ==>
        var mv := MyPostsView(currentMode, currentUser.value.uid);
        lists.rides == RidesOf(Selected(first, mv)) + RidesOf(Selected(second, mv))
        && lists.keys == KeysOf(Selected(first, mv)) + KeysOf(Selected(second, mv))
    {
      LoadMyPosts();
      LoadMyPosts();
      if currentUser.Some? {
        ghost var mv := MyPostsView(currentMode, currentUser.value.uid);
        OnMyPostsData(first);
        assert lists.rides == RidesOf(Selected(first, mv)) && lists.keys == KeysOf(Selected(first, mv));
        OnMyPostsData(second);
      }
    }

    /** The answer handler with the clear moved into it: whatever was appended
        before is dropped, so the lists hold one answer's selection. */
    method OnMyPostsDataCleared(snapshot: seq<Child>)
      requires currentUser.Some?
      modifies lists
      ensures var sel := Selected(snapshot, MyPostsView(currentMode, currentUser.value.uid));
        lists.rides == RidesOf(sel) && lists.keys == KeysOf(sel)
    {
      lists.rides := [];
      lists.keys := [];
      OnMyPostsData(snapshot);
    }

    /** Opening the screen with the clear in the answer handler: the later
        answer replaces the earlier one, so by MyPostsDistinct no key is listed
        twice. */
    method OpenAligned(first: seq<Child>, second: seq<Child>)
      modifies lists
      ensures currentUser.None? ==> lists.rides == old(lists.rides) && lists.keys == old(lists.keys)
      ensures currentUser.Some? ==>
        var sel := Selected(second, MyPostsView(currentMode, currentUser.value.uid));
        lists.rides == RidesOf(sel) && lists.keys == KeysOf(sel)
    {
      LoadMyPosts();
      LoadMyPosts();
      if currentUser.Some? {
        OnMyPostsDataCleared(first);
        OnMyPostsDataCleared(second);
      }
    }

    /** The "My Offers" button. */
    method ShowOffers(snapshot: seq<Child>)
      modifies this, lists
      ensures currentMode == "offer"
      ensures currentUser.Some? ==>
        lists.rides == RidesOf(Kept(snapshot, MyOffers(currentUser.value.uid)))
        && lists.keys == KeysOf(Kept(snapshot, MyOffers(currentUser.value.uid)))
      ensures currentUser.None? ==> lists.rides == old(lists.rides) && lists.keys == old(lists.keys)
    {
      currentMode := "offer";
      Reload(snapshot);
    }

    /** The "My Requests" button. */
    method ShowRequests(snapshot: seq<Child>)
      modifies this, lists
      ensures currentMode == "request"
      ensures currentUser.Some? ==>
        lists.rides == RidesOf(Kept(snapshot, MyRequests(currentUser.value.uid)))
        && lists.keys == KeysOf(Kept(snapshot, MyRequests(currentUser.value.uid)))
      ensures currentUser.None? ==> lists.rides == old(lists.rides) && lists.keys == old(lists.keys)
    {
      currentMode := "request";
      Reload(snapshot);
    }

    /** Recreating the screen after a configuration change: onCreate calls
        loadMyPosts, onRestoreInstanceState sets the saved mode ("offer" when
        none was saved) and calls it again, and onResume calls it a third time.
        All three return before any answer is delivered, so the three clears run
        first and each answer then appends its selection under the restored
        mode. */
    method Recreate(saved: Option<string>, first: seq<Child>, second: seq<Child>, third: seq<Child>)
      modifies this, lists
      ensures currentMode == saved.GetOr("offer")
      ensures currentUser.None? ==> lists.rides == old(lists.rides) && lists.keys == old(lists.keys)
      ensures currentUser.Some? ==>
        var mv := MyPostsView(currentMode, currentUser.value.uid);
        lists.rides == RidesOf(Selected(first, mv)) + RidesOf(Selected(second, mv)) + RidesOf(Selected(third, mv))
        && lists.keys == KeysOf(Selected(first, mv)) + KeysOf(Selected(second, mv)) + KeysOf(Selected(third, mv))
    {
      LoadMyPosts();
      currentMode := saved.GetOr("offer");
      LoadMyPosts();
      LoadMyPosts();
      if currentUser.Some? {
        ghost var mv := MyPostsView(currentMode, currentUser.value.uid);
        OnMyPostsData(first);
        assert lists.rides == RidesOf(Selected(first, mv)) && lists.keys == KeysOf(Selected(first, mv));
        OnMyPostsData(second);
        assert lists.rides == RidesOf(Selected(first, mv)) + RidesOf(Selected(second, mv));
        assert lists.keys == KeysOf(Selected(first, mv)) + KeysOf(Selected(second, mv));
        OnMyPostsData(third);
      }
    }

    /** Recreating the screen with the clear in the answer handler: the last
        answer replaces the earlier two, so by MyPostsDistinct no key is listed
        twice. */
    method RecreateAligned(saved: Option<string>, first: seq<Child>, second: seq<Child>, third: seq<Child>)
      modifies this, lists
      ensures currentMode == saved.GetOr("offer")
      ensures currentUser.None? ==> lists.rides == old(lists.rides) && lists.keys == old(lists.keys)
      ensures currentUser.Some? ==>
        var sel := Selected(third, MyPostsView(currentMode, currentUser.value.uid));
        lists.rides == RidesOf(sel) && lists.keys == KeysOf(sel)
    {
      LoadMyPosts();
      currentMode := saved.GetOr("offer");
      LoadMyPosts();
      LoadMyPosts();
      if currentUser.Some? {
        OnMyPostsDataCleared(first);
        OnMyPostsDataCleared(second);
        OnMyPostsDataCleared(third);
      }
    }
  }
}
