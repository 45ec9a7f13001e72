/**
 * How the screens' writes move one ride through the views: posted (in the
 * author's own list and in everyone else's list of others' posts), accepted
 * (in both parties' active lists), confirmed by both (in no list), and
 * finalized. Each lemma follows the stored record through the writes of
 * RideFormActivity, RidePostAdapter and ActiveRideAdapter.
 */
module Lifecycle {
  import opened Common
  import opened Rides
  import opened Firebase
  import opened Views
  import opened PostAdapter
  import opened ActiveAdapter
  import opened RideFormScreen

  /** A posted offer is in its author's own offers and in the others' offers
      of every other user, and in no active list. */
  lemma PostedOfferVisibility(sel: Selection, from: string, to: string, date: string, time: string,
                              author: User, other: Uid, anyone: Uid)
    requires sel.OfferChecked? && other != author.uid
    ensures var r := FormRide(sel, from, to, date, time, author);
      && Visible(MyOffers(author.uid), r)
      && Visible(OthersOffers(other), r)
      && !Visible(OthersOffers(author.uid), r)
      && !Visible(ActiveRides(anyone), r)
  {
    BuiltRideRoles(sel, from, to, date, time, author, other);
  }

  /** Accepting an offer that another user sees among others' offers moves it
      out of every unaccepted list and into the active lists of its driver and
      of the accepter. */
  lemma AcceptMovesToActive(r: Ride, accepter: User, anyone: Uid)
    requires Visible(OthersOffers(accepter.uid), r)
    requires !(r.driverConfirmed && r.riderConfirmed)
    ensures var a := AcceptedBy(r, accepter);
      && !Visible(OthersOffers(anyone), a) && !Visible(MyOffers(anyone), a)
      && !Visible(OthersRequests(anyone), a) && !Visible(MyRequests(anyone), a)
      && Visible(ActiveRides(r.driverId.value), a)
      && Visible(ActiveRides(accepter.uid), a)
  {
  }

  /** After an accept by someone other than the author, the driver's and the
      rider's confirmations together set both flags, in either order, and the
      ride then leaves every active list. */
  lemma BothConfirmationsComplete(a: Ride, driver: Uid, rider: Uid, anyone: Uid)
    requires IsDriver(a, driver) && IsRider(a, rider) && driver != rider
    ensures var c := ConfirmedBy(ConfirmedBy(a, driver), rider);
      c.driverConfirmed && c.riderConfirmed && !Visible(ActiveRides(anyone), c)
    ensures ConfirmedBy(ConfirmedBy(a, driver), rider) == ConfirmedBy(ConfirmedBy(a, rider), driver)
  {
    BothConfirmedNeverActive(ConfirmedBy(ConfirmedBy(a, driver), rider), anyone);
  }

  /** A confirmed-by-both accepted ride is in no list at all. Since finalize
      removes the entry named by the row index rather than the ride's key, such
      a ride stays in the store without ever being shown again. */
  lemma CompletedRideInvisible(r: Ride, v: View)
    requires r.accepted && r.driverConfirmed && r.riderConfirmed
    ensures !Visible(v, r)
  {
  }

  /** Saving an edit replaces the record with a fresh one: a ride that was
      accepted, even confirmed, is unaccepted again with both flags clear, so
      it leaves the active lists and is back in its author's own list under the
      type now checked. */
  lemma EditReopens(sel: Selection, from: string, to: string, date: string, time: string,
                    author: User, anyone: Uid)
    requires !sel.NothingChecked?
    ensures var r := FormRide(sel, from, to, date, time, author);
      && !r.accepted && !r.driverConfirmed && !r.riderConfirmed
      && !Visible(ActiveRides(anyone), r)
      && (sel.OfferChecked? ==> Visible(MyOffers(author.uid), r))
      && (sel.RequestChecked? ==> Visible(MyRequests(author.uid), r))
  {
    BuiltRideRoles(sel, from, to, date, time, author, author.uid + "'");
  }

  /** An edit can change the type: an offer checked as a request is stored as
      a request with the author as rider and the driver role vacant. */
  lemma EditCanChangeType(posted: Ride, from: string, to: string, date: string, time: string, author: User)
    requires IsOffer(posted) && IsDriver(posted, author.uid)
    ensures var r := FormRide(RequestChecked, from, to, date, time, author);
      IsRequest(r) && IsRider(r, author.uid) && r.driverId.None?
  {
  }

  /** Points through a full ride between two distinct registered users: the
      driver ends 50 up, the rider 50 down, and the total over any distinct
      users holding both is unchanged. */
  lemma {:induction false} FullRidePoints(l: Ledger, driver: Uid, rider: Uid, users: seq<Uid>)
    requires driver != rider && Distinct(users) && driver in users && rider in users
    ensures Balance(Transfer(l, driver, rider), driver) == Balance(l, driver) + 50
    ensures Balance(Transfer(l, driver, rider), rider) == Balance(l, rider) - 50
    ensures SumOver(Transfer(l, driver, rider), users) == SumOver(l, users)
  {
    TransferConserves(l, driver, rider, users);
  }
}
