/**
 * RideFormActivity.java: the screen that posts a new ride or, when opened
 * from a row's Edit button, replaces an existing one. Its state is the four
 * text fields, the radio selection of the type, and the edit key. Submitting
 * trims the four texts, rejects a missing field, an unparsable date/time and
 * a date/time before now, builds a fresh record from the form and the
 * signed-in user, and writes it under a new push key or under the edit key.
 */
module RideFormScreen {
  import opened Common
  import opened JavaStrings
  import opened Rides
  import opened Firebase
  import opened TimeFormat
  import opened PostAdapter

  /** The conditional expression of showTimePicker. */
  function PickerHour(hourOfDay: int): (hour: int)
    ensures 0 <= hourOfDay <= 23 ==> 1 <= hour <= 12
  {
    if hourOfDay == 0 then 12 else if hourOfDay > 12 then hourOfDay - 12 else hourOfDay
  }

  /** The conditional expression and onTimeSet's branches compute the same
      hour for every int, so the two screens write the same time text. */
  lemma PickerHourAgrees(hourOfDay: int)
    ensures PickerHour(hourOfDay) == Hour12(hourOfDay)
  {
  }

  /** The text showTimePicker writes into the time field. */
  function PickerTimeText(hourOfDay: nat, minute: nat): (text: string)
    requires hourOfDay <= 23
    ensures text == OnTimeSetText(hourOfDay, minute)
  {
    PickerHourAgrees(hourOfDay);
    TimeText(PickerHour(hourOfDay), minute, AmPm(hourOfDay))
  }

  /** The radio group: nothing checked (id -1), or one of the two buttons. */
  datatype Selection = NothingChecked | OfferChecked | RequestChecked

  /** (checked == R.id.rideOffer) ? "offer" : "request". */
  function TypeOf(sel: Selection): (rideType: string)
    requires !sel.NothingChecked?
    ensures rideType == "offer" <==> sel.OfferChecked?
    ensures rideType == "offer" || rideType == "request"
  {
    if sel.OfferChecked? then "offer" else "request"
  }

  /** Why a submission was refused. */
  datatype Rejection = MissingFields | InvalidFormat | NotInFuture

  /** The first check: nothing checked, or a field that is empty once trimmed. */
  predicate FieldsMissing(sel: Selection, from: string, to: string, date: string, time: string) {
    sel.NothingChecked? || Trim(from) == [] || Trim(to) == [] || Trim(date) == [] || Trim(time) == []
  }

  /** date + " " + time, the string both parsed and stored. */
  function JoinDateTime(date: string, time: string): (dt: string)
    ensures ' ' !in date ==> SplitOnce(dt) == [date, time]
  {
    JoinThenSplit(date, time);
    date + " " + time
  }

  /** The checks of submitRideForm in their order. `parse` is
      SimpleDateFormat("MM-dd-yyyy hh:mm a").parse, None where it throws; `now`
      is new Date(); a date/time equal to now is accepted. */
  function CheckForm(sel: Selection, from: string, to: string, date: string, time: string,
                     parse: string -> Option<int>, now: int): (r: Option<Rejection>)
    ensures r == Some(MissingFields) <==> FieldsMissing(sel, from, to, date, time)
    ensures r == Some(InvalidFormat) <==>
      !FieldsMissing(sel, from, to, date, time) && parse(JoinDateTime(Trim(date), Trim(time))).None?
    ensures r == Some(NotInFuture) <==>
      !FieldsMissing(sel, from, to, date, time) && parse(JoinDateTime(Trim(date), Trim(time))).Some?
      && parse(JoinDateTime(Trim(date), Trim(time))).value < now
    ensures r.None? <==>
      !FieldsMissing(sel, from, to, date, time) && parse(JoinDateTime(Trim(date), Trim(time))).Some?
      && parse(JoinDateTime(Trim(date), Trim(time))).value >= now
  {
    if FieldsMissing(sel, from, to, date, time) then Some(MissingFields)
    else
      var parsed := parse(JoinDateTime(Trim(date), Trim(time)));
      if parsed.None? then Some(InvalidFormat)
      else if parsed.value < now then Some(NotInFuture)
      else None
  }

  /** A field holding only blanks, tabs or other chars up to U+0020 counts as
      missing, whatever the other fields hold. */
  lemma BlankFieldRejected(sel: Selection, from: string, to: string, date: string, time: string,
                           parse: string -> Option<int>, now: int)
    requires forall i :: 0 <= i < |from| ==> IsTrimmable(from[i])
    ensures CheckForm(sel, from, to, date, time, parse, now) == Some(MissingFields)
  {
    TrimEmptyIff(from);
  }

  /** The record submitRideForm builds: a fresh ride (no key, not accepted, no
      confirmations) whose author holds the role the type names, with the
      other role vacant. */
  function BuildRide(rideType: string, uid: Uid, email: Option<string>,
                     from: string, to: string, dateTime: string): (r: Ride)
    requires rideType == "offer" || rideType == "request"
    ensures r.GetKey().None? && r.rideType == Some(rideType)
    ensures !r.accepted && !r.driverConfirmed && !r.riderConfirmed
    ensures r.from == Some(from) && r.to == Some(to) && r.dateTime == Some(dateTime)
    ensures rideType == "offer" ==>
      r.driverId == Some(uid) && r.driverEmail == email && r.riderId.None? && r.riderEmail.None?
    ensures rideType == "request" ==>
      r.riderId == Some(uid) && r.riderEmail == email && r.driverId.None? && r.driverEmail.None?
  {
    MakeRide(Some(rideType),
             if rideType == "offer" then Some(uid) else None,
             if rideType == "request" then Some(uid) else None,
             Some(from), Some(to), Some(dateTime), false, false, false,
             if rideType == "offer" then email else None,
             if rideType == "request" then email else None)
  }

  /** The record built from the form's current state. */
  function FormRide(sel: Selection, from: string, to: string, date: string, time: string, user: User): (r: Ride)
    requires !sel.NothingChecked?
  {
    BuildRide(TypeOf(sel), user.uid, user.email, Trim(from), Trim(to), JoinDateTime(Trim(date), Trim(time)))
  }

  /** Exactly one of the two role ids is set in a built ride, and it is the
      author's; a built offer is among the author's own offers and among every
      other user's view of others' offers, and the same for requests. */
  lemma BuiltRideRoles(sel: Selection, from: string, to: string, date: string, time: string, user: User, other: Uid)
    requires !sel.NothingChecked? && other != user.uid
    ensures var r := FormRide(sel, from, to, date, time, user);
      && (r.driverId.Some? != r.riderId.Some?)
      && (sel.OfferChecked? ==> IsOffer(r) && IsDriver(r, user.uid) && !IsRider(r, user.uid) && !IsDriver(r, other))
      && (sel.RequestChecked? ==> IsRequest(r) && IsRider(r, user.uid) && !IsDriver(r, user.uid) && !IsRider(r, other))
  {
  }

  /** What a submission did. */
  datatype SubmitOutcome =
    | Rejected(reason: Rejection)
    | NoUser
    | WriteFailed
    | Written(key: Key)

  class RideFormActivity {
    var fromText: string
    var toText: string
    var dateText: string
    var timeText: string
    var selection: Selection
    var isEdit: bool
    var rideKey: Option<Key>

    /** An edit screen always has the key it edits. */
    predicate Valid()
      reads this
    {
      isEdit <==> rideKey.Some?
    }

    /** onCreate. Without an edit intent the fields are empty and the radio
        group shows the layout's initial selection. With one, the type button
        is checked from the intent ("offer", else request), from and to are
        shown (a null shows as empty text), and the stored dateTime is split at
        its first blank into the date and time fields; a null dateTime or one
        without a blank makes onCreate throw, so the intent must carry one. */
    constructor (intent: Option<EditIntent>, initial: Selection)
      requires intent.Some? ==> intent.value.dateTime.Some? && ' ' in intent.value.dateTime.value
      ensures Valid()
      ensures intent.None? ==>
        && !isEdit && selection == initial
        && fromText == [] && toText == [] && dateText == [] && timeText == []
      ensures intent.Some? ==>
        && isEdit && rideKey == Some(intent.value.rideKey)
        && (selection == if intent.value.rideType == Some("offer") then OfferChecked else RequestChecked)
        && fromText == intent.value.from.GetOr([]) && toText == intent.value.to.GetOr([])
        && [dateText, timeText] == SplitOnce(intent.value.dateTime.value)
        && dateText + " " + timeText == intent.value.dateTime.value
        && ' ' !in dateText
    {
      if intent.None? {
        isEdit, rideKey := false, None;
        selection := initial;
        fromText, toText, dateText, timeText := [], [], [], [];
      } else {
        var it := intent.value;
        isEdit, rideKey := true, Some(it.rideKey);
        selection := if it.rideType.Some? && it.rideType.value == "offer" then OfferChecked else RequestChecked;
        fromText := it.from.GetOr([]);
        toText := it.to.GetOr([]);
        var dt := it.dateTime.value;
        var parts := SplitOnce(dt);
        SplitThenJoin(dt);
        var i := IndexOf(dt, ' ');
        assert parts[0] == dt[..i];
        dateText, timeText := parts[0], parts[1];
      }
    }

    /** The date picker's callback. */
    method OnDateSet(year: nat, month: nat, dayOfMonth: nat)
      modifies this
      ensures dateText == DateText(year, month, dayOfMonth)
      ensures fromText == old(fromText) && toText == old(toText) && timeText == old(timeText)
      ensures selection == old(selection) && isEdit == old(isEdit) && rideKey == old(rideKey)
    {
      dateText := DateText(year, month, dayOfMonth);
    }

    /** The time picker's callback. */
    method OnTimeSet(hourOfDay: nat, minute: nat)
      requires hourOfDay <= 23
      modifies this
      ensures timeText == PickerTimeText(hourOfDay, minute)
      ensures fromText == old(fromText) && toText == old(toText) && dateText == old(dateText)
      ensures selection == old(selection) && isEdit == old(isEdit) && rideKey == old(rideKey)
    {
      timeText := TimeText(PickerHour(hourOfDay), minute, AmPm(hourOfDay));
    }

    /** The user types into the two place fields and checks a type button. */
    method EnterPlaces(from: string, to: string, sel: Selection)
      modifies this
      ensures fromText == from && toText == to && selection == sel
      ensures dateText == old(dateText) && timeText == old(timeText)
      ensures isEdit == old(isEdit) && rideKey == old(rideKey)
    {
      fromText, toText, selection := from, to, sel;
    }

    /** submitRideForm. A refused form, a missing user and a failed write leave
        the store as it was. Otherwise the record built from the form replaces
        whatever is stored under the edit key (resetting `accepted` and both
        confirmations, and taking the type from the radio group), or is stored
        under the fresh push key. The ledger is never touched. */
    method SubmitRideForm(db: Database, user: Option<User>, parse: string -> Option<int>, now: int,
                          pushKey: Key, ok: bool) returns (outcome: SubmitOutcome)
      requires Valid()
      requires !isEdit ==> pushKey !in db.rides
      modifies db
      ensures db.points == old(db.points)
      ensures var check := CheckForm(selection, fromText, toText, dateText, timeText, parse, now);
        && (check.Some? ==> outcome == Rejected(check.value) && db.rides == old(db.rides))
        && (check.None? && user.None? ==> outcome == NoUser && db.rides == old(db.rides))
        && (check.None? && user.Some? && !ok ==> outcome == WriteFailed && db.rides == old(db.rides))
        && (check.None? && user.Some? && ok ==>
              var target := if isEdit then rideKey.value else pushKey;
              && outcome == Written(target)
              && db.rides == old(db.rides)[target := FormRide(selection, fromText, toText, dateText, timeText, user.value)])
    {
      var from, to, date, time := Trim(fromText), Trim(toText), Trim(dateText), Trim(timeText);
      if selection.NothingChecked? || from == [] || to == [] || date == [] || time == [] {
        return Rejected(MissingFields);
      }
      var dtStr := JoinDateTime(date, time);
      var parsed := parse(dtStr);
      if parsed.None? {
        return Rejected(InvalidFormat);
      }
      if parsed.value < now {
        return Rejected(NotInFuture);
      }
      if user.None? {
        return NoUser;
      }
      var ride := BuildRide(TypeOf(selection), user.value.uid, user.value.email, from, to, dtStr);
      var target := if isEdit then rideKey.value else pushKey;
      if !ok {
        return WriteFailed;
      }
      db.rides := db.rides[target := ride];
      outcome := Written(target);
    }
  }

  /** A successful post adds exactly one entry, under the fresh push key, and
      changes no other entry. */
  lemma PostAddsOneEntry(store: Store, pushKey: Key, r: Ride)
    requires pushKey !in store
    ensures store[pushKey := r].Keys == store.Keys + {pushKey}
    ensures |store[pushKey := r].Keys| == |store.Keys| + 1
    ensures forall k :: k in store ==> store[pushKey := r][k] == store[k]
  {
  }

  /** Splitting a stored dateTime and re-joining the trimmed halves gives it
      back when the date half has no blank and neither half starts or ends
      with a trimmable char. */
  lemma RejoinUnchanged(date: string, time: string)
    requires ' ' !in date && date != [] && time != []
    requires !IsTrimmable(date[0]) && !IsTrimmable(date[|date| - 1])
    requires !IsTrimmable(time[0]) && !IsTrimmable(time[|time| - 1])
    ensures var parts := SplitOnce(date + " " + time);
      |parts| == 2 && JoinDateTime(Trim(parts[0]), Trim(parts[1])) == date + " " + time
  {
    JoinThenSplit(date, time);
    TrimKeeps(date);
    TrimKeeps(time);
  }

  /** Saving an edit without touching the picked date and time stores the same
      dateTime the ride had: the date text is digits and dashes, and the time
      text starts with a digit and ends with 'M', so trim() keeps both and the
      join restores the split. */
  lemma EditKeepsPickedDateTime(year: nat, month: nat, dayOfMonth: nat, hourOfDay: nat, minute: nat)
    requires month <= 11 && 1 <= dayOfMonth <= 31 && year <= 9999
    requires hourOfDay <= 23 && minute <= 59
    ensures var stored := DateText(year, month, dayOfMonth) + " " + PickerTimeText(hourOfDay, minute);
      var parts := SplitOnce(stored);
      |parts| == 2 && JoinDateTime(Trim(parts[0]), Trim(parts[1])) == stored
  {
    var date, time := DateText(year, month, dayOfMonth), PickerTimeText(hourOfDay, minute);
    DateTextShape(year, month, dayOfMonth);
    OnTimeSetTextShape(hourOfDay, minute);
    assert date[..2][0] == date[0] && date[6..][3] == date[9];
    assert time[..2][0] == time[0] && time[6..][1] == time[7];
    RejoinUnchanged(date, time);
  }
}
