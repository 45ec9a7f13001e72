/**
 * The two java.util.ArrayLists every ride screen creates (rideList and
 * rideKeys) and hands to its adapter, and List.remove(int).
 */
module Lists {
  import opened Common
  import opened Rides

  /** List.remove(i): drop entry i, keep every other entry in order. */
  function RemoveAt<T>(s: seq<T>, i: nat): (r: seq<T>)
    requires i < |s|
    ensures |r| == |s| - 1
    ensures forall j :: 0 <= j < i ==> r[j] == s[j]
    ensures forall j :: i <= j < |r| ==> r[j] == s[j + 1]
    ensures multiset(r) + multiset{s[i]} == multiset(s)
  {
    assert s == s[..i] + [s[i]] + s[i + 1..];
    s[..i] + s[i + 1..]
  }

  /** The pair of lists an activity shares with its adapter: both objects hold
      references to the same two ArrayLists, so an adapter's removal is seen by
      the activity's next load and vice versa. */
  class RideLists {
    var rides: seq<Ride>
    var keys: seq<Key>

    constructor ()
      ensures rides == [] && keys == []
    {
      rides := [];
      keys := [];
    }
  }
}
