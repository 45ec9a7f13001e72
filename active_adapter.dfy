/**
 * ActiveRideAdapter.java: the rows of the active-rides list. A row shows the
 * viewer's role, and its Confirm button sets the viewer's own completion flag
 * in the ride held by the list and writes that ride under the row's key. When
 * the written ride has both flags set, the ride is finalized: 50 points move
 * from the rider to the driver and a store entry is removed.
 */
module ActiveAdapter {
  import opened Common
  import opened JavaStrings
  import opened Rides
  import opened Firebase
  import opened Lists

  /** The points a completed ride moves from rider to driver. */
  const RidePoints: int := 50

  /** userAlreadyConfirmed: the viewer's own flag is set in a role they hold. */
  predicate UserAlreadyConfirmed(r: Ride, uid: Uid) {
    (IsDriver(r, uid) && r.driverConfirmed) || (IsRider(r, uid) && r.riderConfirmed)
  }

  /** The role and points texts of a row; none for a viewer in neither role. */
  function RoleLabel(r: Ride, uid: Uid): (shown: Option<(string, string)>)
    ensures shown == Some(("Driver", "+50 points")) <==> IsDriver(r, uid)
    ensures shown == Some(("Rider", "-50 points")) <==> !IsDriver(r, uid) && IsRider(r, uid)
    ensures shown.None? <==> !IsDriver(r, uid) && !IsRider(r, uid)
  {
    if IsDriver(r, uid) then Some(("Driver", "+50 points"))
    else if IsRider(r, uid) then Some(("Rider", "-50 points"))
    else None
  }

  /** The ride after the Confirm click: the driver flag for a driver, else the
      rider flag for a rider, else no change. */
  function ConfirmedBy(r: Ride, uid: Uid): (c: Ride)
    ensures IsDriver(r, uid) ==> c == r.(driverConfirmed := true)
    ensures !IsDriver(r, uid) && IsRider(r, uid) ==> c == r.(riderConfirmed := true)
    ensures !IsDriver(r, uid) && !IsRider(r, uid) ==> c == r
  {
    if r.driverId.Some? && r.driverId.value == uid then r.(driverConfirmed := true)
    else if r.riderId.Some? && r.riderId.value == uid then r.(riderConfirmed := true)
    else r
  }

  /** Confirmation only raises flags, touches no field but the two flags, and
      sets at most one of them. */
  lemma ConfirmMonotone(r: Ride, uid: Uid)
    ensures var c := ConfirmedBy(r, uid);
      && (r.driverConfirmed ==> c.driverConfirmed)
      && (r.riderConfirmed ==> c.riderConfirmed)
      && c.(driverConfirmed := r.driverConfirmed, riderConfirmed := r.riderConfirmed) == r
      && (c.driverConfirmed == r.driverConfirmed || c.riderConfirmed == r.riderConfirmed)
  {
  }

  /** Confirming twice is confirming once. */
  lemma ConfirmIdempotent(r: Ride, uid: Uid)
    ensures ConfirmedBy(ConfirmedBy(r, uid), uid) == ConfirmedBy(r, uid)
  {
  }

  /** For a viewer holding exactly one role, the button is enabled iff a click
      would change the ride, and after the click the button is disabled. */
  lemma ConfirmEnabledIff(r: Ride, uid: Uid)
    requires IsDriver(r, uid) != IsRider(r, uid)
    ensures !UserAlreadyConfirmed(r, uid) <==> ConfirmedBy(r, uid) != r
    ensures UserAlreadyConfirmed(ConfirmedBy(r, uid), uid)
  {
  }

  /** A ride whose driver and rider are the same user (a self-accepted post)
      never gets both flags through that user: the click sets the driver flag
      only, and then the button is disabled. */
  lemma SelfRideNeverCompletes(r: Ride, uid: Uid)
    requires IsDriver(r, uid) && IsRider(r, uid) && !r.riderConfirmed
    ensures var c := ConfirmedBy(r, uid);
      c.driverConfirmed && !c.riderConfirmed && UserAlreadyConfirmed(c, uid)
  {
  }

  /** The two increments of finalizeCompletedRide, driver first. */
  function Transfer(l: Ledger, driver: Uid, rider: Uid): (r: Ledger)
    ensures r.Keys == l.Keys + {driver, rider}
    ensures driver != rider ==>
      Balance(r, driver) == Balance(l, driver) + RidePoints
      && Balance(r, rider) == Balance(l, rider) - RidePoints
    ensures driver == rider ==> Balance(r, driver) == Balance(l, driver)
    ensures forall u :: u != driver && u != rider ==> Balance(r, u) == Balance(l, u)
  {
    Increment(Increment(l, driver, RidePoints), rider, -RidePoints)
  }

  /** Points are conserved over any set of distinct users that holds both
      parties; no lower bound is enforced on the rider. */
  lemma {:induction false} TransferConserves(l: Ledger, driver: Uid, rider: Uid, users: seq<Uid>)
    requires Distinct(users) && driver in users && rider in users
    ensures SumOver(Transfer(l, driver, rider), users) == SumOver(l, users)
  {
    IncrementSum(l, driver, RidePoints, users);
    IncrementSum(Increment(l, driver, RidePoints), rider, -RidePoints, users);
  }

  /** A rider below 50 points goes negative. */
  lemma TransferCanGoNegative(l: Ledger, driver: Uid, rider: Uid)
    requires driver != rider && Balance(l, rider) < RidePoints
    ensures Balance(Transfer(l, driver, rider), rider) < 0
  {
  }

  /** The key finalizeCompletedRide removes: String.valueOf(position), the
      row's index, whatever the ride's key. */
  function FinalizeKey(position: nat): (k: Key)
    ensures AllDigits(k) && k != []
    ensures ValueOf(k) == position
  {
    ValueOfDigits(position);
    Digits(position)
  }

  /** Firebase push keys start with '-', so no such key is ever the key
      finalize removes: the completed ride stays in the store. */
  lemma FinalizeMissesPushKeys(k: Key, position: nat)
    requires k != [] && k[0] == '-'
    ensures k != FinalizeKey(position)
    ensures forall store: Store :: k in store ==> k in store - {FinalizeKey(position)}
  {
    assert !IsDigit(k[0]);
  }

  /** Any key with a character that is not a decimal digit survives a
      finalize at every position. */
  lemma FinalizeNeverRemovesNonNumeric(k: Key, position: nat)
    requires !AllDigits(k)
    ensures k != FinalizeKey(position)
  {
  }

  class ActiveRideAdapter {
    const lists: RideLists

    constructor (lists: RideLists)
      ensures this.lists == lists
    {
      this.lists := lists;
    }

    /** finalizeCompletedRide(ride, position): a null driverId or riderId makes
        child(null) throw before any write, so nothing changes; otherwise the
        driver gains 50, the rider loses 50 and the entry named by the
        decimal string of `position` is removed. */
    method FinalizeCompletedRide(db: Database, ride: Ride, position: nat)
      modifies db
      ensures ride.driverId.None? || ride.riderId.None? ==>
        db.rides == old(db.rides) && db.points == old(db.points)
      ensures ride.driverId.Some? && ride.riderId.Some? ==>
        db.points == Transfer(old(db.points), ride.driverId.value, ride.riderId.value)
        && db.rides == old(db.rides) - {FinalizeKey(position)}
    {
      if ride.driverId.None? || ride.riderId.None? {
        return;
      }
      db.points := Increment(db.points, ride.driverId.value, RidePoints);
      db.points := Increment(db.points, ride.riderId.value, -RidePoints);
      db.rides := db.rides - {FinalizeKey(position)};
    }

    /** The same finalize removing the ride's own key: the completed ride
        leaves the store. */
    method FinalizeCompletedRideByKey(db: Database, ride: Ride, key: Key)
      modifies db
      ensures ride.driverId.None? || ride.riderId.None? ==>
        db.rides == old(db.rides) && db.points == old(db.points)
      ensures ride.driverId.Some? && ride.riderId.Some? ==>
        db.points == Transfer(old(db.points), ride.driverId.value, ride.riderId.value)
        && db.rides == old(db.rides) - {key} && key !in db.rides
    {
      if ride.driverId.None? || ride.riderId.None? {
        return;
      }
      db.points := Increment(db.points, ride.driverId.value, RidePoints);
      db.points := Increment(db.points, ride.riderId.value, -RidePoints);
      db.rides := db.rides - {key};
    }

    /** The Confirm click on row `position`, offered only while the viewer's
        own flag is clear. The ride object held in the list is updated in
        place, then written under the row's key. On success, when both flags
        are now set, the ride is finalized with the row's index. */
    method Confirm(db: Database, position: nat, user: Option<User>, ok: bool)
      requires position < |lists.rides| && position < |lists.keys|
      requires user.Some? ==> !UserAlreadyConfirmed(lists.rides[position], user.value.uid)
      modifies db, lists
      ensures lists.keys == old(lists.keys)
      ensures user.None? ==>
        lists.rides == old(lists.rides) && db.rides == old(db.rides) && db.points == old(db.points)
      ensures user.Some? ==>
        lists.rides == old(lists.rides)[position := ConfirmedBy(old(lists.rides[position]), user.value.uid)]
      ensures user.Some? && !ok ==> db.rides == old(db.rides) && db.points == old(db.points)
      ensures user.Some? && ok ==>
        var c := ConfirmedBy(old(lists.rides[position]), user.value.uid);
        var written := old(db.rides)[old(lists.keys[position]) := c];
        if c.driverConfirmed && c.riderConfirmed && c.driverId.Some? && c.riderId.Some? then
          db.rides == written - {FinalizeKey(position)}
          && db.points == Transfer(old(db.points), c.driverId.value, c.riderId.value)
        else
          db.rides == written && db.points == old(db.points)
    {
      if user.None? {
        return;
      }
      var ride := ConfirmedBy(lists.rides[position], user.value.uid);
      lists.rides := lists.rides[position := ride];
      var rideKey := lists.keys[position];
      if ok {
        db.rides := db.rides[rideKey := ride];
        if ride.driverConfirmed && ride.riderConfirmed {
          FinalizeCompletedRide(db, ride, position);
        }
      }
    }
  }
}
