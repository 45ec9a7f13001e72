/**
 * RidePostAdapter.java: the adapter both posts screens share. In "MY_POSTS"
 * mode a row offers Edit and Delete; in any other mode it offers Accept. The
 * adapter holds the screen's two lists and removes index `position` from both
 * after a successful write. Each store write and its success listener is one
 * step here; `ok` says whether the write succeeded.
 */
module PostAdapter {
  import opened Common
  import opened Rides
  import opened Firebase
  import opened Lists

  /** The ride the Accept click writes: the accepter fills the rider role of an
      offer and the driver role of anything else (a request or a null type),
      and `accepted` becomes true. Nothing else changes, and nothing is checked
      first: not the old `accepted` flag and not whether the accepter is the
      ride's author. */
  function AcceptedBy(r: Ride, user: User): (a: Ride)
    ensures a.accepted
    ensures IsOffer(r) ==>
      a.riderId == Some(user.uid) && a.riderEmail == user.email
      && a.driverId == r.driverId && a.driverEmail == r.driverEmail
    ensures !IsOffer(r) ==>
      a.driverId == Some(user.uid) && a.driverEmail == user.email
      && a.riderId == r.riderId && a.riderEmail == r.riderEmail
    ensures a.key == r.key && a.rideType == r.rideType && a.from == r.from && a.to == r.to
    ensures a.dateTime == r.dateTime
    ensures a.driverConfirmed == r.driverConfirmed && a.riderConfirmed == r.riderConfirmed
  {
    var filled :=
      if r.rideType.Some? && r.rideType.value == "offer"
      then r.(riderId := Some(user.uid), riderEmail := user.email)
      else r.(driverId := Some(user.uid), driverEmail := user.email);
    filled.(accepted := true)
  }

  /** An unaccepted offer (driver set, rider vacant) or request (rider set,
      driver vacant) has both roles filled after an accept, the author in one
      and the accepter in the other. */
  lemma AcceptFillsVacantRole(r: Ride, user: User)
    requires (IsOffer(r) && r.driverId.Some? && r.riderId.None?)
      || (IsRequest(r) && r.riderId.Some? && r.driverId.None?)
    ensures var a := AcceptedBy(r, user);
      a.driverId.Some? && a.riderId.Some?
      && (IsOffer(r) ==> a.driverId == r.driverId && a.riderId == Some(user.uid))
      && (IsRequest(r) ==> a.riderId == r.riderId && a.driverId == Some(user.uid))
  {
    assert IsOffer(r) ==> !IsRequest(r);
  }

  /** No compare-and-set: a second accept of the same record by someone else
      replaces the first accepter; the result does not depend on who accepted
      before. */
  lemma SecondAcceptOverwrites(r: Ride, first: User, second: User)
    ensures AcceptedBy(AcceptedBy(r, first), second) == AcceptedBy(r, second)
  {
  }

  /** No self-accept check: the author of an offer who accepts it ends up as
      both driver and rider. */
  lemma SelfAcceptFillsBothRoles(r: Ride, user: User)
    requires IsOffer(r) && IsDriver(r, user.uid)
    ensures IsDriver(AcceptedBy(r, user), user.uid) && IsRider(AcceptedBy(r, user), user.uid)
  {
  }

  /** The extras the Edit click puts on the intent for RideFormActivity. */
  datatype EditIntent = EditIntent(
    rideKey: Key,
    rideType: Option<string>,
    from: Option<string>,
    to: Option<string>,
    dateTime: Option<string>)

  class RidePostAdapter {
    const lists: RideLists
    const mode: string

    constructor (lists: RideLists, mode: string)
      ensures this.lists == lists && this.mode == mode
    {
      this.lists := lists;
      this.mode := mode;
    }

    /** The Edit click on row `position`: the row's key and the ride's type,
        origin, destination and dateTime, unchanged. */
    method EditExtras(position: nat) returns (intent: EditIntent)
      requires mode == "MY_POSTS"
      requires position < |lists.rides| && position < |lists.keys|
      ensures intent.rideKey == lists.keys[position]
      ensures var r := lists.rides[position];
        intent.rideType == r.rideType && intent.from == r.from && intent.to == r.to
        && intent.dateTime == r.dateTime
    {
      var ride := lists.rides[position];
      intent := EditIntent(lists.keys[position], ride.rideType, ride.from, ride.to, ride.dateTime);
    }

    /** The Delete click on row `position`: removeValue() on rides/<key>; on
        success index `position` leaves both lists, on failure nothing changes. */
    method Delete(db: Database, position: nat, ok: bool)
      requires mode == "MY_POSTS"
      requires position < |lists.rides| && position < |lists.keys|
      modifies db, lists
      ensures db.points == old(db.points)
      ensures ok ==>
        && db.rides == old(db.rides) - {old(lists.keys[position])}
        && lists.rides == RemoveAt(old(lists.rides), position)
        && lists.keys == RemoveAt(old(lists.keys), position)
      ensures !ok ==>
        db.rides == old(db.rides) && lists.rides == old(lists.rides) && lists.keys == old(lists.keys)
    {
      var key := lists.keys[position];
      if ok {
        db.rides := db.rides - {key};
        lists.rides := RemoveAt(lists.rides, position);
        lists.keys := RemoveAt(lists.keys, position);
      }
    }

    /** The Accept click on row `position`. With no signed-in user nothing
        happens. Otherwise the ride object held in the list is updated in place
        before the write, so it stays updated when the write fails; the write
        replaces whatever is stored under the row's key; on success index
        `position` leaves both lists. */
    method Accept(db: Database, position: nat, user: Option<User>, ok: bool)
      requires mode != "MY_POSTS"
      requires position < |lists.rides| && position < |lists.keys|
      modifies db, lists
      ensures db.points == old(db.points)
      ensures user.None? ==>
        db.rides == old(db.rides) && lists.rides == old(lists.rides) && lists.keys == old(lists.keys)
      ensures user.Some? && ok ==>
        && db.rides == old(db.rides)[old(lists.keys[position]) := AcceptedBy(old(lists.rides[position]), user.value)]
        && lists.rides == RemoveAt(old(lists.rides), position)
        && lists.keys == RemoveAt(old(lists.keys), position)
      ensures user.Some? && !ok ==>
        && db.rides == old(db.rides)
        && lists.rides == old(lists.rides)[position := AcceptedBy(old(lists.rides[position]), user.value)]
        && lists.keys == old(lists.keys)
    {
      if user.None? {
        return;
      }
      var ride := AcceptedBy(lists.rides[position], user.value);
      lists.rides := lists.rides[position := ride];
      var key := lists.keys[position];
      if ok {
        db.rides := db.rides[key := ride];
        lists.rides := RemoveAt(lists.rides, position);
        lists.keys := RemoveAt(lists.keys, position);
      }
    }
  }

  /** A successful accept or delete removes the same entry from both lists:
      both shrink by one, the entries before `position` stay, the entries after
      it move down by one, and the removed ride and key are the ones that were
      at `position`. */
  lemma RemovalKeepsOrder(rides: seq<Ride>, keys: seq<Key>, position: nat)
    requires position < |rides| && position < |keys|
    ensures |RemoveAt(rides, position)| == |rides| - 1 && |RemoveAt(keys, position)| == |keys| - 1
    ensures forall j :: 0 <= j < |RemoveAt(rides, position)| ==>
      RemoveAt(rides, position)[j] == (if j < position then rides[j] else rides[j + 1])
    ensures forall j :: 0 <= j < |RemoveAt(keys, position)| ==>
      RemoveAt(keys, position)[j] == (if j < position then keys[j] else keys[j + 1])
    ensures multiset(RemoveAt(rides, position)) + multiset{rides[position]} == multiset(rides)
    ensures (forall i :: 0 <= i < |rides| && i < |keys| ==> rides[i].GetKey() == Some(keys[i])) ==>
      forall i :: 0 <= i < |RemoveAt(rides, position)| && i < |RemoveAt(keys, position)| ==>
        RemoveAt(rides, position)[i].GetKey() == Some(RemoveAt(keys, position)[i])
  {
  }
}
