/**
 * OthersPostsActivity.java: other users' unaccepted posts. The listener clears
 * the ride list but not the key list, then appends to both; the key list
 * therefore keeps the keys of every earlier load in front of the new ones.
 */
module OthersPosts {
  import opened Common
  import opened Rides
  import opened Firebase
  import opened Lists
  import opened Views

  /** The view a mode string selects. */
  function OthersPostsView(mode: string, uid: Uid): (mv: Option<View>)
    ensures mv.Some? <==> mode == "offer" || mode == "request"
    ensures mv.Some? ==> mv.value.viewer == uid && (mv.value.OthersOffers? <==> mode == "offer")
    ensures mv.Some? ==> mv.value.OthersOffers? || mv.value.OthersRequests?
  {
    if mode == "offer" then Some(OthersOffers(uid))
    else if mode == "request" then Some(OthersRequests(uid))
    else None
  }

  /** The two tests of the loop, in the order the loop makes them, pass a ride
      exactly when the mode names a view and the ride passes that view. */
  lemma OthersTestsIff(mode: string, uid: Uid, r: Ride)
    ensures var mv := OthersPostsView(mode, uid);
      (mv.Some? && Passes(mv.value, r)) <==>
        (mode == "offer" && r.rideType.Some? && r.rideType.value == "offer"
           && r.driverId.Some? && r.driverId.value != uid)
        || (mode == "request" && r.rideType.Some? && r.rideType.value == "request"
           && r.riderId.Some? && r.riderId.value != uid)
  {
  }

  /** The ride list after a load: the rides of this load only. */
  function OthersRidesAfter(snap: seq<Child>, mode: string, uid: Uid): (rides: seq<Ride>)
    ensures |rides| == |Selected(snap, OthersPostsView(mode, uid))|
  {
    RidesOf(Selected(snap, OthersPostsView(mode, uid)))
  }

  /** The key list after a load: the keys it held, then this load's keys. */
  function OthersKeysAfter(oldKeys: seq<Key>, snap: seq<Child>, mode: string, uid: Uid): (keys: seq<Key>)
    ensures |keys| == |oldKeys| + |OthersRidesAfter(snap, mode, uid)|
    ensures keys[..|oldKeys|] == oldKeys
  {
    oldKeys + KeysOf(Selected(snap, OthersPostsView(mode, uid)))
  }

  /** Over the answer to the accepted == false query, a key is loaded iff the
      store holds an unaccepted ride under it of the mode's type whose author
      (driver of an offer, rider of a request) is someone other than the viewer. */
  lemma OthersPostsMembership(store: Store, snap: seq<Child>, mode: string, uid: Uid, k: Key)
    requires IsQueryResult(store, false, snap)
    ensures k in KeysOf(Selected(snap, OthersPostsView(mode, uid))) <==>
      k in store && !store[k].accepted
      && ((mode == "offer" && IsOffer(store[k]) && store[k].driverId.Some? && store[k].driverId.value != uid)
          || (mode == "request" && IsRequest(store[k]) && store[k].riderId.Some? && store[k].riderId.value != uid))
  {
    var mv := OthersPostsView(mode, uid);
    if mv.Some? {
      VisibleIff(store, mv.value, snap, k);
    }
  }

  /** The ride list and the key list are aligned only when the key list was
      empty before the load: after a load the key list is longer than the ride
      list by exactly the keys it held, and entry i of the key list is an old
      key for every i below their number. */
  lemma {:induction false} OthersListsDrift(oldKeys: seq<Key>, snap: seq<Child>, mode: string, uid: Uid)
    ensures |OthersKeysAfter(oldKeys, snap, mode, uid)| - |OthersRidesAfter(snap, mode, uid)| == |oldKeys|
    ensures forall i :: 0 <= i < |oldKeys| ==> OthersKeysAfter(oldKeys, snap, mode, uid)[i] == oldKeys[i]
    ensures oldKeys == [] ==>
      forall i :: 0 <= i < |OthersRidesAfter(snap, mode, uid)| ==>
        Child(OthersKeysAfter(oldKeys, snap, mode, uid)[i], Some(OthersRidesAfter(snap, mode, uid)[i])) in snap
  {
    var keys := OthersKeysAfter(oldKeys, snap, mode, uid);
    assert forall i :: 0 <= i < |oldKeys| ==> keys[i] == keys[..|oldKeys|][i];
    var mv := OthersPostsView(mode, uid);
    if oldKeys == [] && mv.Some? {
      KeptAligned(snap, mv.value);
      assert keys == KeysOf(Kept(snap, mv.value));
    }
  }

  /** A second load over the same answer: one offer by "d" under key "k1",
      viewed by "v". The first load lists it under "k1"; after the second the
      ride list again holds that one ride, but entry 0 of the key list is the
      stale "k1" from the first load and entry 1 is the new "k1". A ride list of
      one entry next to a key list of two means the adapter's position indexes
      the two lists out of step as soon as a load repeats with different
      content. */
  lemma SecondLoadMisaligns()
    ensures var r := MakeRide(Some("offer"), Some("d"), None, None, None, Some("01-01-2030 10:00 AM"),
                              false, false, false, None, None);
      var snap := [Child("k1", Some(r))];
      var first := OthersKeysAfter([], snap, "offer", "v");
      var second := OthersKeysAfter(first, snap, "offer", "v");
      first == ["k1"] && OthersRidesAfter(snap, "offer", "v") == [r] && second == ["k1", "k1"]
  {
    var r := MakeRide(Some("offer"), Some("d"), None, None, None, Some("01-01-2030 10:00 AM"),
                      false, false, false, None, None);
    var snap := [Child("k1", Some(r))];
    assert snap[..0] == [];
    assert Kept(snap, OthersOffers("v")) == [("k1", r)];
  }

  /** After a load whose key list already held keys, the last loaded ride sits
      at a position whose key entry is not its own key: the position is shifted
      by the number of stale keys. */
  lemma StaleKeyAtPosition(oldKeys: seq<Key>, snap: seq<Child>, mode: string, uid: Uid, p: nat)
    requires p < |OthersRidesAfter(snap, mode, uid)| && p < |oldKeys|
    ensures OthersKeysAfter(oldKeys, snap, mode, uid)[p] == oldKeys[p]
  {
    OthersListsDrift(oldKeys, snap, mode, uid);
  }

  class OthersPostsActivity {
    const lists: RideLists
    const currentUser: Option<User>
    var currentMode: string

    constructor (currentUser: Option<User>)
      ensures fresh(lists) && lists.rides == [] && lists.keys == []
      ensures this.currentUser == currentUser && currentMode == "offer"
    {
      lists := new RideLists();
      this.currentUser := currentUser;
      currentMode := "offer";
    }

    /** loadOthersPosts(): with no signed-in user nothing changes; otherwise
        rideList is cleared and rebuilt while rideKeys only grows. */
    method LoadOthersPosts(snapshot: seq<Child>)
      modifies lists
      ensures currentUser.None? ==> lists.rides == old(lists.rides) && lists.keys == old(lists.keys)
      ensures currentUser.Some? ==>
        && lists.rides == OthersRidesAfter(snapshot, currentMode, currentUser.value.uid)
        && lists.keys == OthersKeysAfter(old(lists.keys), snapshot, currentMode, currentUser.value.uid)
    {
      if currentUser.None? {
        return;
      }
      ghost var keys0 := lists.keys;
      ghost var mv := OthersPostsView(currentMode, currentUser.value.uid);
      lists.rides := [];
      var i := 0;
      while i < |snapshot|
        invariant 0 <= i <= |snapshot|
        invariant lists.rides == RidesOf(Selected(snapshot[..i], mv))
        invariant lists.keys == keys0 + KeysOf(Selected(snapshot[..i], mv))
      {
        var child := snapshot[i];
        SelectedStep(snapshot, i, mv);
        if child.value.Some? {
          var ride := child.value.value;
          var uid := currentUser.value.uid;
          OthersTestsIff(currentMode, uid, ride);
          if currentMode == "offer" {
            if ride.rideType.Some? && ride.rideType.value == "offer"
              && ride.driverId.Some? && ride.driverId.value != uid
            {
              lists.rides := lists.rides + [ride];
              lists.keys := lists.keys + [child.key];
            }
          }
          if currentMode == "request" {
            if ride.rideType.Some? && ride.rideType.value == "request"
              && ride.riderId.Some? && ride.riderId.value != uid
            {
              lists.rides := lists.rides + [ride];
              lists.keys := lists.keys + [child.key];
            }
          }
        }
        ghost var step := if mv.Some? && child.value.Some? && Passes(mv.value, child.value.value)
          then [child.key] else [];
        assert keys0 + KeysOf(Selected(snapshot[..i], mv)) + step
          == keys0 + (KeysOf(Selected(snapshot[..i], mv)) + step);
        i := i + 1;
      }
      assert snapshot[..i] == snapshot;
    }

    /** The same load with rideKeys.clear() beside rideList.clear(): the two
        lists are rebuilt together and stay index-aligned. */
    method LoadOthersPostsAligned(snapshot: seq<Child>)
      modifies lists
      ensures currentUser.None? ==> lists.rides == old(lists.rides) && lists.keys == old(lists.keys)
      ensures currentUser.Some? ==>
        && lists.rides == OthersRidesAfter(snapshot, currentMode, currentUser.value.uid)
        && lists.keys == OthersKeysAfter([], snapshot, currentMode, currentUser.value.uid)
        && forall i :: 0 <= i < |lists.rides| ==> Child(lists.keys[i], Some(lists.rides[i])) in snapshot
    {
      if currentUser.None? {
        return;
      }
      lists.keys := [];
      LoadOthersPosts(snapshot);
      OthersListsDrift([], snapshot, currentMode, currentUser.value.uid);
    }

    /** The "Others' Offers" button. */
    method ShowOffers(snapshot: seq<Child>)
      modifies this, lists
      ensures currentMode == "offer"
      ensures currentUser.Some? ==>
        && lists.rides == RidesOf(Kept(snapshot, OthersOffers(currentUser.value.uid)))
        && lists.keys == old(lists.keys) + KeysOf(Kept(snapshot, OthersOffers(currentUser.value.uid)))
      ensures currentUser.None? ==> lists.rides == old(lists.rides) && lists.keys == old(lists.keys)
    {
      currentMode := "offer";
      LoadOthersPosts(snapshot);
    }

    /** The "Others' Requests" button. */
    method ShowRequests(snapshot: seq<Child>)
      modifies this, lists
      ensures currentMode == "request"
      ensures currentUser.Some? ==>
        && lists.rides == RidesOf(Kept(snapshot, OthersRequests(currentUser.value.uid)))
        && lists.keys == old(lists.keys) + KeysOf(Kept(snapshot, OthersRequests(currentUser.value.uid)))
      ensures currentUser.None? ==> lists.rides == old(lists.rides) && lists.keys == old(lists.keys)
    {
      currentMode := "request";
      LoadOthersPosts(snapshot);
    }

    /** onRestoreInstanceState: the saved mode, "offer" when none was saved,
        then a reload. */
    method RestoreMode(saved: Option<string>, snapshot: seq<Child>)
      modifies this, lists
      ensures currentMode == saved.GetOr("offer")
      ensures currentUser.Some? ==>
        && lists.rides == OthersRidesAfter(snapshot, currentMode, currentUser.value.uid)
        && lists.keys == OthersKeysAfter(old(lists.keys), snapshot, currentMode, currentUser.value.uid)
      ensures currentUser.None? ==> lists.rides == old(lists.rides) && lists.keys == old(lists.keys)
    {
      currentMode := saved.GetOr("offer");
      LoadOthersPosts(snapshot);
    }
  }
}
