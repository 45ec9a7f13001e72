/**
 * The Firebase collaborators, reduced to values: the "rides" node is a map from
 * key to ride, the "users/<uid>/points" nodes form a ledger from uid to balance,
 * a query answer is a sequence of children, and the signed-in user is a uid and
 * a nullable email.
 */
module Firebase {
  import opened Common
  import opened Rides

  type Store = map<Key, Ride>
  type Ledger = map<Uid, int>

  /** FirebaseAuth.getCurrentUser(): uid and (nullable) email. */
  datatype User = User(uid: Uid, email: Option<string>)

  /** FirebaseDatabase.getInstance(): the two nodes the app reads and writes. */
  class Database {
    var rides: Store
    var points: Ledger

    constructor (rides: Store, points: Ledger)
      ensures this.rides == rides && this.points == points
    {
      this.rides := rides;
      this.points := points;
    }
  }

  /** A user's balance; a missing node counts as 0, as ServerValue.increment does. */
  function Balance(l: Ledger, u: Uid): int {
    if u in l then l[u] else 0
  }

  /** setValue(ServerValue.increment(delta)) on users/<u>/points: an atomic add
      that creates the node when it is missing. */
  function Increment(l: Ledger, u: Uid, delta: int): (r: Ledger)
    ensures r.Keys == l.Keys + {u}
    ensures Balance(r, u) == Balance(l, u) + delta
    ensures forall v :: v != u ==> Balance(r, v) == Balance(l, v)
  {
    l[u := Balance(l, u) + delta]
  }

  /** The total balance of a list of users. */
  function SumOver(l: Ledger, users: seq<Uid>): int {
    if users == [] then 0 else Balance(l, users[0]) + SumOver(l, users[1..])
  }

  predicate Distinct(users: seq<Uid>) {
    forall i, j :: 0 <= i < j < |users| ==> users[i] != users[j]
  }

  /** An increment of u changes the total over distinct users by delta when u is
      among them and not at all otherwise. */
  lemma {:induction false} IncrementSum(l: Ledger, u: Uid, delta: int, users: seq<Uid>)
    requires Distinct(users)
    ensures SumOver(Increment(l, u, delta), users) == SumOver(l, users) + (if u in users then delta else 0)
  {
    if users != [] {
      assert Distinct(users[1..]);
      IncrementSum(l, u, delta, users[1..]);
      assert u in users <==> u == users[0] || u in users[1..];
      assert users[0] == u ==> u !in users[1..];
    }
  }

  /** One child of a DataSnapshot: its key and getValue(Ride.class), which is
      null when the child cannot be mapped to a ride. */
  datatype Child = Child(key: Key, value: Option<Ride>)

  /** snap is what orderByChild("accepted").equalTo(accepted) returns from store:
      each matching ride exactly once under its own key, and nothing else. */
  predicate IsQueryResult(store: Store, accepted: bool, snap: seq<Child>) {
    && (forall i, j :: 0 <= i < j < |snap| ==> snap[i].key != snap[j].key)
    && (forall i :: 0 <= i < |snap| ==>
          snap[i].key in store && snap[i].value == Some(store[snap[i].key])
          && store[snap[i].key].accepted == accepted)
    && (forall k :: k in store && store[k].accepted == accepted ==>
          exists i :: 0 <= i < |snap| && snap[i].key == k)
  }
}
