/**
 * The visibility filter: which stored rides each screen lists for a viewer.
 * Each screen queries the store on the `accepted` flag and then keeps, in
 * snapshot order, the children whose ride passes the screen's own test.
 */
module Views {
  import opened Common
  import opened Rides
  import opened Firebase
  import opened Lists

  /** The five lists a viewer can look at. */
  datatype View =
    | ActiveRides(viewer: Uid)     // MainActivity
    | MyOffers(viewer: Uid)        // MyPostsActivity, mode "offer"
    | MyRequests(viewer: Uid)      // MyPostsActivity, mode "request"
    | OthersOffers(viewer: Uid)    // OthersPostsActivity, mode "offer"
    | OthersRequests(viewer: Uid)  // OthersPostsActivity, mode "request"

  /** The value of `accepted` the screen's query asks for. */
  function QueriedAccepted(v: View): bool {
    v.ActiveRides?
  }

  /** The test each screen's loop applies to a non-null ride. */
  predicate Passes(v: View, r: Ride) {
    match v
    case ActiveRides(u) => (IsDriver(r, u) || IsRider(r, u)) && !(r.driverConfirmed && r.riderConfirmed)
    case MyOffers(u) => IsDriver(r, u)
    case MyRequests(u) => IsRider(r, u)
    case OthersOffers(u) => IsOffer(r) && r.driverId.Some? && r.driverId.value != u
    case OthersRequests(u) => IsRequest(r) && r.riderId.Some? && r.riderId.value != u
  }

  /** Membership of a stored ride in a view: the query's flag and the loop's test. */
  predicate Visible(v: View, r: Ride) {
    r.accepted == QueriedAccepted(v) && Passes(v, r)
  }

  /** The (key, ride) pairs a screen's loop appends, in snapshot order: null
      children are skipped, the others kept when they pass the test. */
  function Kept(snap: seq<Child>, v: View): (sel: seq<(Key, Ride)>)
    ensures |sel| <= |snap|
    ensures forall e :: e in sel ==> Child(e.0, Some(e.1)) in snap && Passes(v, e.1)
  {
    if snap == [] then []
    else
      var c := snap[|snap| - 1];
      Kept(snap[..|snap| - 1], v)
        + (if c.value.Some? && Passes(v, c.value.value) then [(c.key, c.value.value)] else [])
  }

  /** One more child processed by the loop. */
  lemma KeptStep(snap: seq<Child>, i: nat, v: View)
    requires i < |snap|
    ensures Kept(snap[..i + 1], v) == Kept(snap[..i], v)
      + (if snap[i].value.Some? && Passes(v, snap[i].value.value)
         then [(snap[i].key, snap[i].value.value)] else [])
  {
    assert snap[..i + 1][..i] == snap[..i];
  }

  function KeysOf(sel: seq<(Key, Ride)>): (ks: seq<Key>)
    ensures |ks| == |sel|
  {
    seq(|sel|, i requires 0 <= i < |sel| => sel[i].0)
  }

  function RidesOf(sel: seq<(Key, Ride)>): (rs: seq<Ride>)
    ensures |rs| == |sel|
  {
    seq(|sel|, i requires 0 <= i < |sel| => sel[i].1)
  }

  /** The rides as MainActivity lists them: each with setKey(snapshot key). */
  function KeyedRidesOf(sel: seq<(Key, Ride)>): (rs: seq<Ride>)
    ensures |rs| == |sel|
  {
    seq(|sel|, i requires 0 <= i < |sel| => sel[i].1.SetKey(Some(sel[i].0)))
  }

  /** One more child processed by a loop, as seen on the two projected lists. */
  lemma ProjectStep(snap: seq<Child>, i: nat, v: View)
    requires i < |snap|
    ensures var pass := snap[i].value.Some? && Passes(v, snap[i].value.value);
      && KeysOf(Kept(snap[..i + 1], v)) == KeysOf(Kept(snap[..i], v)) + (if pass then [snap[i].key] else [])
      && RidesOf(Kept(snap[..i + 1], v)) == RidesOf(Kept(snap[..i], v)) + (if pass then [snap[i].value.value] else [])
      && KeyedRidesOf(Kept(snap[..i + 1], v)) == KeyedRidesOf(Kept(snap[..i], v))
           + (if pass then [snap[i].value.value.SetKey(Some(snap[i].key))] else [])
  {
    KeptStep(snap, i, v);
    var pre := Kept(snap[..i], v);
    if snap[i].value.Some? && Passes(v, snap[i].value.value) {
      ProjectAppend(pre, [(snap[i].key, snap[i].value.value)]);
    } else {
      assert Kept(snap[..i + 1], v) == pre;
    }
  }

  /** What a screen's loop appends when its mode may name no view: nothing
      unless the mode names one, and then only non-null children of the
      snapshot that pass that view's test. */
  function Selected(snap: seq<Child>, mv: Option<View>): (sel: seq<(Key, Ride)>)
    ensures |sel| <= |snap|
    ensures forall e :: e in sel ==> mv.Some? && Child(e.0, Some(e.1)) in snap && Passes(mv.value, e.1)
  {
    if mv.None? then [] else Kept(snap, mv.value)
  }

  /** One more child processed by a loop whose mode may name no view. */
  lemma SelectedStep(snap: seq<Child>, i: nat, mv: Option<View>)
    requires i < |snap|
    ensures var pass := mv.Some? && snap[i].value.Some? && Passes(mv.value, snap[i].value.value);
      && KeysOf(Selected(snap[..i + 1], mv)) == KeysOf(Selected(snap[..i], mv)) + (if pass then [snap[i].key] else [])
      && RidesOf(Selected(snap[..i + 1], mv)) == RidesOf(Selected(snap[..i], mv)) + (if pass then [snap[i].value.value] else [])
  {
    if mv.Some? {
      ProjectStep(snap, i, mv.value);
    }
  }

  /** Every kept pair is a child of the snapshot: entry i of the keys list is
      the key the ride at entry i of the rides list was stored under. */
  lemma KeptAligned(snap: seq<Child>, v: View)
    ensures forall i :: 0 <= i < |Kept(snap, v)| ==>
      Child(KeysOf(Kept(snap, v))[i], Some(RidesOf(Kept(snap, v))[i])) in snap
  {
    var sel := Kept(snap, v);
    forall i | 0 <= i < |sel|
      ensures Child(KeysOf(sel)[i], Some(RidesOf(sel)[i])) in snap
    {
      assert sel[i] in sel;
    }
  }

  /** Every non-null child that passes the test is kept. */
  lemma {:induction false} KeptComplete(snap: seq<Child>, v: View, i: nat)
    requires i < |snap| && snap[i].value.Some? && Passes(v, snap[i].value.value)
    ensures (snap[i].key, snap[i].value.value) in Kept(snap, v)
  {
    var n := |snap| - 1;
    KeptStep(snap, n, v);
    assert snap[..n + 1] == snap;
    if i < n {
      KeptComplete(snap[..n], v, i);
    }
  }

  /** A key is listed iff the snapshot has a non-null child under it whose ride
      passes the screen's test. */
  lemma KeptMembership(snap: seq<Child>, v: View, k: Key)
    ensures k in KeysOf(Kept(snap, v)) <==>
      exists i :: 0 <= i < |snap| && snap[i].key == k && snap[i].value.Some? && Passes(v, snap[i].value.value)
  {
    var sel := Kept(snap, v);
    if k in KeysOf(sel) {
      var j :| 0 <= j < |sel| && KeysOf(sel)[j] == k;
      assert sel[j] in sel;
      var i :| 0 <= i < |snap| && snap[i] == Child(sel[j].0, Some(sel[j].1));
    }
    if exists i :: 0 <= i < |snap| && snap[i].key == k && snap[i].value.Some? && Passes(v, snap[i].value.value) {
      var i :| 0 <= i < |snap| && snap[i].key == k && snap[i].value.Some? && Passes(v, snap[i].value.value);
      KeptComplete(snap, v, i);
      var j :| 0 <= j < |sel| && sel[j] == (snap[i].key, snap[i].value.value);
      assert KeysOf(sel)[j] == k;
    }
  }

  /** Over the answer to the screen's query, a key is listed iff the store holds
      a ride under it that is visible in the view. */
  lemma VisibleIff(store: Store, v: View, snap: seq<Child>, k: Key)
    requires IsQueryResult(store, QueriedAccepted(v), snap)
    ensures k in KeysOf(Kept(snap, v)) <==> k in store && Visible(v, store[k])
  {
    KeptMembership(snap, v, k);
    if k in store && Visible(v, store[k]) {
      var i :| 0 <= i < |snap| && snap[i].key == k;
      assert snap[i].value == Some(store[k]);
    }
  }

  /** A snapshot lists each key once, so every screen lists each ride at most once. */
  lemma {:induction false} KeptDistinct(snap: seq<Child>, v: View)
    requires forall i, j :: 0 <= i < j < |snap| ==> snap[i].key != snap[j].key
    ensures forall i, j :: 0 <= i < j < |Kept(snap, v)| ==> Kept(snap, v)[i].0 != Kept(snap, v)[j].0
  {
    if snap != [] {
      var n := |snap| - 1;
      KeptDistinct(snap[..n], v);
      KeptStep(snap, n, v);
      assert snap[..n + 1] == snap;
      var pre := Kept(snap[..n], v);
      forall e | e in pre ensures e.0 != snap[n].key {
        var i :| 0 <= i < |snap[..n]| && snap[..n][i] == Child(e.0, Some(e.1));
      }
    }
  }

  /** Before any sort, entry i of the keyed rides carries key i of the keys. */
  lemma KeyedRidesAligned(sel: seq<(Key, Ride)>)
    ensures forall i :: 0 <= i < |sel| ==> KeyedRidesOf(sel)[i].GetKey() == Some(KeysOf(sel)[i])
  {
  }

  /** Removing the same index from both lists keeps them the projections of
      one selection: list.remove(i) on each is remove(i) on the pairs. */
  lemma RemoveAtBoth(sel: seq<(Key, Ride)>, i: nat)
    requires i < |sel|
    ensures KeysOf(RemoveAt(sel, i)) == RemoveAt(KeysOf(sel), i)
    ensures RidesOf(RemoveAt(sel, i)) == RemoveAt(RidesOf(sel), i)
  {
  }

  /** The loops' appends are concatenations of projections. */
  lemma ProjectAppend(a: seq<(Key, Ride)>, b: seq<(Key, Ride)>)
    ensures KeysOf(a + b) == KeysOf(a) + KeysOf(b)
    ensures RidesOf(a + b) == RidesOf(a) + RidesOf(b)
    ensures KeyedRidesOf(a + b) == KeyedRidesOf(a) + KeyedRidesOf(b)
  {
  }

  // ---------------------------------------------------------------------------
  // Consequences of the tests
  // ---------------------------------------------------------------------------

  /** A ride whose two confirmations are both set is in no one's active list. */
  lemma BothConfirmedNeverActive(r: Ride, u: Uid)
    requires r.driverConfirmed && r.riderConfirmed
    ensures !Visible(ActiveRides(u), r)
  {
  }

  /** The others' lists never show a ride with a null type, nor one the viewer
      holds in the listed role. */
  lemma OthersExcludeOwnAndUntyped(r: Ride, u: Uid)
    ensures Passes(OthersOffers(u), r) ==> r.rideType.Some? && !IsDriver(r, u)
    ensures Passes(OthersRequests(u), r) ==> r.rideType.Some? && !IsRider(r, u)
  {
  }

  /** An unaccepted offer with a driver is in exactly one of the viewer's two
      offer lists: the viewer's own, or others'. Likewise for requests. */
  lemma OwnAndOthersPartition(r: Ride, u: Uid)
    requires !r.accepted
    ensures IsOffer(r) && r.driverId.Some? ==>
      (Visible(MyOffers(u), r) <==> !Visible(OthersOffers(u), r))
    ensures IsRequest(r) && r.riderId.Some? ==>
      (Visible(MyRequests(u), r) <==> !Visible(OthersRequests(u), r))
  {
  }
}
