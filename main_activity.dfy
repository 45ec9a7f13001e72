/**
 * MainActivity.java: the live list of the viewer's active rides. On every
 * change of the rides with accepted == true the listener clears both lists,
 * appends every ride the viewer drives or rides that is not yet confirmed by
 * both parties (with its key set), and then sorts the ride list, and only the
 * ride list, by dateTime with String.compareTo.
 */
module ActiveRides {
  import opened Common
  import opened JavaStrings
  import opened Rides
  import opened Firebase
  import opened Lists
  import opened Views

  // ---------------------------------------------------------------------------
  // Collections.sort(activeRideList, (a, b) -> a.dateTime.compareTo(b.dateTime))
  // ---------------------------------------------------------------------------

  predicate Dated(r: Ride) {
    r.dateTime.Some?
  }

  predicate AllDated(s: seq<Ride>) {
    forall i :: 0 <= i < |s| ==> Dated(s[i])
  }

  /** Every non-null ride of the snapshot carries a dateTime, as every ride
      the form screen writes does. */
  predicate SnapshotDated(snap: seq<Child>) {
    forall c :: c in snap && c.value.Some? ==> Dated(c.value.value)
  }

  /** The comparator calls getDateTime().compareTo(...) on both rides, so it
      throws on a null dateTime; Collections.sort compares nothing in a list of
      fewer than two entries and every entry of a longer one. The sort of the
      viewer's kept rides thus returns normally exactly when this holds. */
  predicate ComparatorSafe(snap: seq<Child>, uid: Uid) {
    var kept := KeyedRidesOf(Kept(snap, ActiveRides(uid)));
    |kept| < 2 || AllDated(kept)
  }

  /** The sort key of a ride: its dateTime, meaningful when Dated. */
  function DateKey(r: Ride): string {
    r.dateTime.GetOr("")
  }

  /** s is ordered by f under String.compareTo. */
  predicate SortedBy<T>(s: seq<T>, f: T -> string) {
    forall i, j :: 0 <= i < j < |s| ==> StrLe(f(s[i]), f(s[j]))
  }

  /** Insert x in front of the first entry it does not come after. */
  function Insert<T(==)>(x: T, s: seq<T>, f: T -> string): (r: seq<T>)
    ensures |r| == |s| + 1
    ensures multiset(r) == multiset(s) + multiset{x}
  {
    if s == [] then [x]
    else if StrLe(f(x), f(s[0])) then [x] + s
    else
      assert s == [s[0]] + s[1..];
      [s[0]] + Insert(x, s[1..], f)
  }

  /** A sort by f, stable by SortStable, as Collections.sort (a merge sort)
      is. */
  function SortBy<T(==)>(s: seq<T>, f: T -> string): (r: seq<T>)
    ensures |r| == |s|
    ensures multiset(r) == multiset(s)
  {
    if s == [] then []
    else
      assert s == [s[0]] + s[1..];
      Insert(s[0], SortBy(s[1..], f), f)
  }

  /** The entries of s whose key is k, in their order in s. */
  function WithKey<T>(s: seq<T>, f: T -> string, k: string): (r: seq<T>)
    ensures |r| <= |s|
    ensures forall i :: 0 <= i < |r| ==> f(r[i]) == k
  {
    if s == [] then [] else (if f(s[0]) == k then [s[0]] else []) + WithKey(s[1..], f, k)
  }

  /** WithKey unfolded once on a sequence built by prepending x. */
  lemma WithKeyCons<T>(x: T, t: seq<T>, f: T -> string, k: string)
    ensures f(x) == k ==> WithKey([x] + t, f, k) == [x] + WithKey(t, f, k)
    ensures f(x) != k ==> WithKey([x] + t, f, k) == WithKey(t, f, k)
  {
    assert ([x] + t)[1..] == t;
  }

  /** Insert puts x in front of every entry that shares its key. */
  lemma {:induction false} InsertWithKey<T>(x: T, t: seq<T>, f: T -> string, k: string)
    ensures WithKey(Insert(x, t, f), f, k) == (if f(x) == k then [x] else []) + WithKey(t, f, k)
  {
    if t == [] {
      WithKeyCons(x, t, f, k);
      assert Insert(x, t, f) == [x] + t;
    } else if StrLe(f(x), f(t[0])) {
      WithKeyCons(x, t, f, k);
    } else {
      var rest := Insert(x, t[1..], f);
      assert Insert(x, t, f) == [t[0]] + rest;
      InsertWithKey(x, t[1..], f, k);
      assert t == [t[0]] + t[1..];
      WithKeyCons(t[0], rest, f, k);
      WithKeyCons(t[0], t[1..], f, k);
      if f(x) == k {
        // x does not come after t[0], so their keys differ
        StrLeTotal(f(x), f(x));
        assert WithKey(Insert(x, t, f), f, k) == WithKey(rest, f, k);
        assert WithKey(t, f, k) == WithKey(t[1..], f, k);
      } else {
        assert WithKey(rest, f, k) == WithKey(t[1..], f, k);
      }
    }
  }

  /** SortBy is stable: the entries sharing any one key keep their order. */
  lemma {:induction false} SortStable<T>(s: seq<T>, f: T -> string, k: string)
    ensures WithKey(SortBy(s, f), f, k) == WithKey(s, f, k)
  {
    if s != [] {
      SortStable(s[1..], f, k);
      InsertWithKey(s[0], SortBy(s[1..], f), f, k);
    }
  }

  /** x placed in front of a sorted s it does not come after is sorted. */
  lemma PrependSorted<T>(x: T, s: seq<T>, f: T -> string)
    requires SortedBy(s, f) && s != [] && StrLe(f(x), f(s[0]))
    ensures SortedBy([x] + s, f)
  {
    var r := [x] + s;
    forall j | 1 <= j < |r| ensures StrLe(f(x), f(r[j])) {
      if j > 1 {
        StrLeTrans(f(x), f(s[0]), f(s[j - 1]));
      }
    }
  }

  /** Every entry of Insert(x, t) is x or an entry of t. */
  lemma InsertFrom<T>(x: T, t: seq<T>, f: T -> string, j: nat)
    requires j < |Insert(x, t, f)|
    ensures Insert(x, t, f)[j] == x || Insert(x, t, f)[j] in t
  {
    var it := Insert(x, t, f);
    assert it[j] in multiset(it);
  }

  lemma {:induction false} InsertSorted<T>(x: T, s: seq<T>, f: T -> string)
    requires SortedBy(s, f)
    ensures SortedBy(Insert(x, s, f), f)
  {
    if s != [] {
      if StrLe(f(x), f(s[0])) {
        PrependSorted(x, s, f);
      } else {
        StrLeTotal(f(x), f(s[0]));
        var t := s[1..];
        assert SortedBy(t, f);
        InsertSorted(x, t, f);
        var it := Insert(x, t, f);
        assert Insert(x, s, f) == [s[0]] + it;
        forall j | 0 <= j < |it| ensures StrLe(f(s[0]), f(it[j])) {
          InsertFrom(x, t, f, j);
          if it[j] != x {
            var k :| 0 <= k < |t| && t[k] == it[j];
            assert s[k + 1] == t[k];
          }
        }
      }
    }
  }

  /** The sorted sequence is ordered by f, in String.compareTo order (for
      dateTime: not calendar order). */
  lemma {:induction false} SortSorted<T>(s: seq<T>, f: T -> string)
    ensures SortedBy(SortBy(s, f), f)
  {
    if s != [] {
      SortSorted(s[1..], f);
      InsertSorted(s[0], SortBy(s[1..], f), f);
    }
  }

  /** Collections.sort(list, (a, b) -> a.dateTime.compareTo(b.dateTime)). */
  function SortByDateTime(s: seq<Ride>): (r: seq<Ride>)
    ensures |r| == |s| && (AllDated(s) ==> AllDated(r))
    ensures multiset(r) == multiset(s)
  {
    var r := SortBy(s, DateKey);
    assert forall i :: 0 <= i < |r| ==> r[i] in multiset(s);
    r
  }

  /** The keyed rides of a dated snapshot are all dated, so its sort is safe. */
  lemma KeptDated(snap: seq<Child>, v: View)
    requires SnapshotDated(snap)
    ensures AllDated(KeyedRidesOf(Kept(snap, v)))
    ensures v.ActiveRides? ==> ComparatorSafe(snap, v.viewer)
  {
    var sel := Kept(snap, v);
    forall i | 0 <= i < |sel| ensures Dated(KeyedRidesOf(sel)[i]) {
      assert sel[i] in sel;
    }
  }

  /** What activeRideList holds after a load for viewer uid. */
  function ActiveRideList(snap: seq<Child>, uid: Uid): (rides: seq<Ride>)
  {
    SortByDateTime(KeyedRidesOf(Kept(snap, ActiveRides(uid))))
  }

  /** What activeRideKeys holds after a load for viewer uid: snapshot order. */
  function ActiveRideKeys(snap: seq<Child>, uid: Uid): (keys: seq<Key>) {
    KeysOf(Kept(snap, ActiveRides(uid)))
  }

  /** After a load the ride list is exactly the active rides of the snapshot,
      each with its key set to one of the listed keys, permuted into dateTime
      order; the two lists have the same length. */
  lemma ActiveListSpec(snap: seq<Child>, uid: Uid)
    ensures SortedBy(ActiveRideList(snap, uid), DateKey)
    ensures AllDated(KeyedRidesOf(Kept(snap, ActiveRides(uid)))) ==> AllDated(ActiveRideList(snap, uid))
    ensures multiset(ActiveRideList(snap, uid)) == multiset(KeyedRidesOf(Kept(snap, ActiveRides(uid))))
    ensures |ActiveRideList(snap, uid)| == |ActiveRideKeys(snap, uid)|
    ensures forall r :: r in ActiveRideList(snap, uid) ==>
      r.GetKey().Some? && r.GetKey().value in ActiveRideKeys(snap, uid)
  {
    var sel := Kept(snap, ActiveRides(uid));
    SortSorted(KeyedRidesOf(sel), DateKey);
    forall r | r in ActiveRideList(snap, uid)
      ensures r.GetKey().Some? && r.GetKey().value in ActiveRideKeys(snap, uid)
    {
      assert r in multiset(KeyedRidesOf(sel));
      var i :| 0 <= i < |sel| && KeyedRidesOf(sel)[i] == r;
      assert KeysOf(sel)[i] == sel[i].0;
    }
  }

  /** Sorting two entries that are out of order swaps them. */
  lemma SortTwo<T>(x: T, y: T, f: T -> string)
    requires !StrLe(f(x), f(y))
    ensures SortBy([x, y], f) == [y, x]
  {
    assert [x, y][1..] == [y];
    assert SortBy([y], f) == [y];
  }

  /** Two accepted rides of viewer "u", stored under "kA" and "kB". */
  function LaterRide(): Ride {
    MakeRide(Some("offer"), Some("u"), Some("w"), None, None, Some("05-01-2030 10:00 AM"),
             true, false, false, None, None)
  }

  function EarlierRide(): Ride {
    MakeRide(Some("request"), Some("w"), Some("u"), None, None, Some("01-01-2030 10:00 AM"),
             true, false, false, None, None)
  }

  function TwoRideSnapshot(): seq<Child> {
    [Child("kA", Some(LaterRide())), Child("kB", Some(EarlierRide()))]
  }

  /** A two-child snapshot whose rides both pass keeps both, in order. */
  lemma KeptPair(snap: seq<Child>, v: View, ka: Key, kb: Key, a: Ride, b: Ride)
    requires snap == [Child(ka, Some(a)), Child(kb, Some(b))]
    requires Passes(v, a) && Passes(v, b)
    ensures Kept(snap, v) == [(ka, a), (kb, b)]
  {
    KeptStep(snap, 0, v);
    KeptStep(snap, 1, v);
    assert snap[..0] == [] && snap[..2] == snap;
  }

  /** Two active rides of a viewer listed later-dated first: after the load the
      key list keeps snapshot order while the sort swaps the rides, so each
      position pairs a ride with the other ride's key. */
  lemma OutOfOrderPairSwaps(snap: seq<Child>, uid: Uid, ka: Key, kb: Key, a: Ride, b: Ride)
    requires snap == [Child(ka, Some(a)), Child(kb, Some(b))]
    requires Passes(ActiveRides(uid), a) && Passes(ActiveRides(uid), b)
    requires Dated(a) && Dated(b) && !StrLe(DateKey(a), DateKey(b))
    ensures SnapshotDated(snap) && ComparatorSafe(snap, uid)
    ensures ActiveRideKeys(snap, uid) == [ka, kb]
    ensures ActiveRideList(snap, uid) == [b.SetKey(Some(kb)), a.SetKey(Some(ka))]
  {
    KeptPair(snap, ActiveRides(uid), ka, kb, a, b);
    var sel := [(ka, a), (kb, b)];
    var keyed := [a.SetKey(Some(ka)), b.SetKey(Some(kb))];
    assert KeysOf(sel) == [ka, kb];
    assert KeyedRidesOf(sel) == keyed;
    SortTwo(keyed[0], keyed[1], DateKey);
  }

  /** Under compareTo "05-01-2030 10:00 AM" comes after "01-01-2030 10:00 AM". */
  lemma LaterDateSortsAfter()
    ensures !StrLe(DateKey(LaterRide()), DateKey(EarlierRide()))
  {
    var da, db := DateKey(LaterRide()), DateKey(EarlierRide());
    assert da == "05-01-2030 10:00 AM" && db == "01-01-2030 10:00 AM";
    assert da[0] == db[0] && da[1..][0] > db[1..][0];
  }

  /** The snapshot lists "kA" (dated 05-01-2030) before "kB" (dated
      01-01-2030). The sort moves ride "kB" to position 0 while the key list
      keeps "kA" there, so the adapter's position 0 pairs ride "kB" with key
      "kA". */
  lemma SortMisalignsKeys()
    ensures SnapshotDated(TwoRideSnapshot()) && ComparatorSafe(TwoRideSnapshot(), "u")
    ensures ActiveRideKeys(TwoRideSnapshot(), "u") == ["kA", "kB"]
    ensures ActiveRideList(TwoRideSnapshot(), "u")
      == [EarlierRide().SetKey(Some("kB")), LaterRide().SetKey(Some("kA"))]
    ensures ActiveRideList(TwoRideSnapshot(), "u")[0].GetKey() != Some(ActiveRideKeys(TwoRideSnapshot(), "u")[0])
  {
    LaterDateSortsAfter();
    OutOfOrderPairSwaps(TwoRideSnapshot(), "u", "kA", "kB", LaterRide(), EarlierRide());
  }

  /** The sort key of a (key, ride) pair: the ride's dateTime. */
  function PairDateKey(e: (Key, Ride)): string {
    DateKey(e.1)
  }

  /** The active selection with the pairs sorted together, as the two lists
      would hold it if the keys moved with their rides. */
  function SortedActive(snap: seq<Child>, uid: Uid): (sorted: seq<(Key, Ride)>)
    ensures multiset(sorted) == multiset(Kept(snap, ActiveRides(uid)))
  {
    SortBy(Kept(snap, ActiveRides(uid)), PairDateKey)
  }

  /** A permutation of (key, ride) pairs lists the same keys. */
  lemma PermutedKeys(sel: seq<(Key, Ride)>, sorted: seq<(Key, Ride)>, k: Key)
    requires multiset(sorted) == multiset(sel)
    ensures k in KeysOf(sorted) <==> k in KeysOf(sel)
  {
    if k in KeysOf(sorted) {
      var i :| 0 <= i < |sorted| && KeysOf(sorted)[i] == k;
      assert sorted[i] in multiset(sel);
      var j :| 0 <= j < |sel| && sel[j] == sorted[i];
      assert KeysOf(sel)[j] == k;
    }
    if k in KeysOf(sel) {
      var j :| 0 <= j < |sel| && KeysOf(sel)[j] == k;
      assert sel[j] in multiset(sorted);
      var i :| 0 <= i < |sorted| && sorted[i] == sel[j];
      assert KeysOf(sorted)[i] == k;
    }
  }

  /** A permutation of pairs whose rides are all dated has only dated rides. */
  lemma PermutedDated(sel: seq<(Key, Ride)>, sorted: seq<(Key, Ride)>)
    requires AllDated(KeyedRidesOf(sel))
    requires multiset(sorted) == multiset(sel)
    ensures AllDated(KeyedRidesOf(sorted))
  {
    forall i | 0 <= i < |sorted| ensures Dated(KeyedRidesOf(sorted)[i]) {
      assert sorted[i] in multiset(sel);
      var j :| 0 <= j < |sel| && sel[j] == sorted[i];
      assert Dated(KeyedRidesOf(sel)[j]);
    }
  }

  /** Sorting the pairs keeps the lists aligned: entry i of the rides carries
      key i of the keys, the rides are in dateTime order, and the keys are
      those of the unsorted selection. */
  lemma SortedActiveAligned(snap: seq<Child>, uid: Uid)
    ensures var sorted := SortedActive(snap, uid);
      && |KeysOf(sorted)| == |KeyedRidesOf(sorted)|
      && (forall i :: 0 <= i < |sorted| ==> KeyedRidesOf(sorted)[i].GetKey() == Some(KeysOf(sorted)[i]))
      && SortedBy(KeyedRidesOf(sorted), DateKey)
      && (AllDated(KeyedRidesOf(Kept(snap, ActiveRides(uid)))) ==> AllDated(KeyedRidesOf(sorted)))
      && (forall k :: k in KeysOf(sorted) <==> k in ActiveRideKeys(snap, uid))
  {
    var sel := Kept(snap, ActiveRides(uid));
    var sorted := SortedActive(snap, uid);
    SortSorted(sel, PairDateKey);
    KeyedRidesAligned(sorted);
    if AllDated(KeyedRidesOf(sel)) {
      PermutedDated(sel, sorted);
    }
    forall k ensures k in KeysOf(sorted) <==> k in KeysOf(sel) {
      PermutedKeys(sel, sorted, k);
    }
  }

  /** What the active loop appends for one child: the (key, ride) pair when
      the ride is non-null and passes the active view, nothing otherwise. */
  function ActiveStep(child: Child, uid: Uid): (step: seq<(Key, Ride)>)
    ensures |step| <= 1
    ensures step != [] <==> child.value.Some? && Passes(ActiveRides(uid), child.value.value)
  {
    if child.value.Some? && Passes(ActiveRides(uid), child.value.value)
    then [(child.key, child.value.value)] else []
  }

  class MainActivity {
    const lists: RideLists
    const currentUser: Option<User>

    constructor (currentUser: Option<User>)
      ensures fresh(lists) && lists.rides == [] && lists.keys == []
      ensures this.currentUser == currentUser
    {
      lists := new RideLists();
      this.currentUser := currentUser;
    }

    /** loadActiveRides(): with no signed-in user nothing is registered and the
        lists stay as they are; otherwise the listener's onDataChange runs on
        the answer to orderByChild("accepted").equalTo(true). */
    method LoadActiveRides(snapshot: seq<Child>)
      requires currentUser.Some? ==> ComparatorSafe(snapshot, currentUser.value.uid)
      modifies lists
      ensures currentUser.None? ==> lists.rides == old(lists.rides) && lists.keys == old(lists.keys)
      ensures currentUser.Some? ==>
        lists.keys == ActiveRideKeys(snapshot, currentUser.value.uid)
        && lists.rides == ActiveRideList(snapshot, currentUser.value.uid)
    {
      if currentUser.None? {
        return;
      }
      var uid := currentUser.value.uid;
      lists.rides := [];
      lists.keys := [];
      CollectActive(snapshot, uid);
      lists.rides := SortByDateTime(lists.rides);
      assert lists.rides == ActiveRideList(snapshot, uid);
    }

    /** The loop of onDataChange: each non-null ride the viewer drives or rides
        that is not confirmed by both is appended, with its key set, and its key
        is appended to the key list, in snapshot order. */
    method CollectActive(snapshot: seq<Child>, uid: Uid)
      requires lists.rides == [] && lists.keys == []
      modifies lists
      ensures lists.keys == KeysOf(Kept(snapshot, ActiveRides(uid)))
      ensures lists.rides == KeyedRidesOf(Kept(snapshot, ActiveRides(uid)))
    {
      ghost var v := ActiveRides(uid);
      ghost var sel: seq<(Key, Ride)> := [];
      var i := 0;
      while i < |snapshot|
        invariant 0 <= i <= |snapshot|
        invariant sel == Kept(snapshot[..i], v)
        invariant lists.keys == KeysOf(sel)
        invariant lists.rides == KeyedRidesOf(sel)
      {
        KeptStep(snapshot, i, v);
        ProjectAppend(sel, ActiveStep(snapshot[i], uid));
        CollectChild(snapshot[i], uid);
        sel := sel + ActiveStep(snapshot[i], uid);
        i := i + 1;
      }
      assert snapshot[..i] == snapshot;
    }

    /** One child of that loop: a non-null ride the viewer drives or rides and
        that is not confirmed by both is appended with its key set, and its key
        is appended too; any other child changes nothing. */
    method CollectChild(child: Child, uid: Uid)
      modifies lists
      ensures lists.keys == old(lists.keys) + KeysOf(ActiveStep(child, uid))
      ensures lists.rides == old(lists.rides) + KeyedRidesOf(ActiveStep(child, uid))
    {
      if child.value.Some? {
        var ride := child.value.value;
        if (ride.driverId.Some? && ride.driverId.value == uid)
          || (ride.riderId.Some? && ride.riderId.value == uid)
        {
          if !(ride.driverConfirmed && ride.riderConfirmed) {
            ride := ride.SetKey(Some(child.key));
            lists.rides := lists.rides + [ride];
            lists.keys := lists.keys + [child.key];
          }
        }
      }
    }

    /** The load with the pairs sorted together and then split into the two
        lists, so that the keys follow their rides. */
    method LoadActiveRidesAligned(snapshot: seq<Child>)
      requires currentUser.Some? ==> ComparatorSafe(snapshot, currentUser.value.uid)
      modifies lists
      ensures currentUser.None? ==> lists.rides == old(lists.rides) && lists.keys == old(lists.keys)
      ensures currentUser.Some? ==>
        lists.keys == KeysOf(SortedActive(snapshot, currentUser.value.uid))
        && lists.rides == KeyedRidesOf(SortedActive(snapshot, currentUser.value.uid))
    {
      if currentUser.None? {
        return;
      }
      var uid := currentUser.value.uid;
      ghost var v := ActiveRides(uid);
      var pairs: seq<(Key, Ride)> := [];
      var i := 0;
      while i < |snapshot|
        invariant 0 <= i <= |snapshot|
        invariant pairs == Kept(snapshot[..i], v)
      {
        KeptStep(snapshot, i, v);
        pairs := pairs + ActiveStep(snapshot[i], uid);
        i := i + 1;
      }
      assert snapshot[..i] == snapshot;
      var sorted := SortBy(pairs, PairDateKey);
      lists.keys := KeysOf(sorted);
      lists.rides := KeyedRidesOf(sorted);
    }
  }
}
