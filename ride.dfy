/**
 * Ride.java: the ride record. Every String field is nullable, so it is an
 * Option<string>; `key` is the private field behind getKey/setKey. Because the
 * Realtime Database maps a Ride through its public fields and its getKey/setKey
 * bean property, the same value is what the store holds under a ride's key.
 */
module Rides {
  import opened Common

  datatype Ride = Ride(
    key: Option<string>,
    rideType: Option<string>,
    driverId: Option<string>,
    riderId: Option<string>,
    from: Option<string>,
    to: Option<string>,
    dateTime: Option<string>,
    accepted: bool,
    driverConfirmed: bool,
    riderConfirmed: bool,
    driverEmail: Option<string>,
    riderEmail: Option<string>)
  {
    /** getKey(). */
    function GetKey(): Option<string> {
      key
    }

    /** setKey(k): the key becomes k and no other field changes. */
    function SetKey(k: Option<string>): (r: Ride)
      ensures r.GetKey() == k
      ensures r.(key := key) == this
    {
      this.(key := k)
    }
  }

  /** The no-argument constructor used by deserialisation: every reference
      field null, every boolean false. */
  function NewRide(): (r: Ride)
    ensures !r.accepted && !r.driverConfirmed && !r.riderConfirmed
    ensures r.key.None? && r.rideType.None? && r.driverId.None? && r.riderId.None?
    ensures r.from.None? && r.to.None? && r.dateTime.None?
    ensures r.driverEmail.None? && r.riderEmail.None?
  {
    Ride(None, None, None, None, None, None, None, false, false, false, None, None)
  }

  /** The eleven-argument constructor. It has no key parameter, so the key of
      the new ride is null until setKey is called. */
  function MakeRide(rideType: Option<string>, driverId: Option<string>, riderId: Option<string>,
                    from: Option<string>, to: Option<string>, dateTime: Option<string>,
                    accepted: bool, driverConfirmed: bool, riderConfirmed: bool,
                    driverEmail: Option<string>, riderEmail: Option<string>): (r: Ride)
    ensures r.GetKey() == None
    ensures r.rideType == rideType && r.driverId == driverId && r.riderId == riderId
    ensures r.from == from && r.to == to && r.dateTime == dateTime
    ensures r.accepted == accepted && r.driverConfirmed == driverConfirmed && r.riderConfirmed == riderConfirmed
    ensures r.driverEmail == driverEmail && r.riderEmail == riderEmail
  {
    Ride(None, rideType, driverId, riderId, from, to, dateTime,
         accepted, driverConfirmed, riderConfirmed, driverEmail, riderEmail)
  }

  /** setKey followed by getKey returns what was set, whatever the ride. */
  lemma SetKeyThenGetKey(r: Ride, k: Option<string>)
    ensures r.SetKey(k).GetKey() == k
    ensures r.SetKey(k).SetKey(r.GetKey()) == r
  {
  }

  /** The role tests of ActiveRideAdapter (driverId != null && driverId.equals(uid)),
      which MainActivity and MyPostsActivity repeat inline. */
  predicate IsDriver(r: Ride, uid: Uid) {
    r.driverId.Some? && r.driverId.value == uid
  }

  predicate IsRider(r: Ride, uid: Uid) {
    r.riderId.Some? && r.riderId.value == uid
  }

  /** "offer".equals(rideType): false for a null type. */
  predicate IsOffer(r: Ride) {
    r.rideType == Some("offer")
  }

  predicate IsRequest(r: Ride) {
    r.rideType == Some("request")
  }
}
