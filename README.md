# RideShareApp core in Dafny

RideShareApp is an Android app where students offer rides (as drivers) or
request rides (as riders). Rides live in a Firebase Realtime Database node
`rides`, keyed by push keys. Each user has a points balance under
`users/<uid>/points`. A ride moves through these stages:

- **Posted.** RideFormActivity stores a new ride with `accepted == false`. The
  author fills the role that the ride type names.
- **Accepted.** Another user presses Accept in the others' posts list. That
  user fills the vacant role, and `accepted` becomes true.
- **Confirmed.** Each party presses Confirm in the active-rides list. This
  sets their own completion flag.
- **Finalized.** Once both flags are set, 50 points move from the rider to the
  driver and a store entry is removed.

Three screens list rides:

- **MainActivity**: the viewer's active rides, sorted by `dateTime`.
- **MyPostsActivity**: the viewer's own unaccepted offers or requests.
- **OthersPostsActivity**: other users' unaccepted offers or requests.

Each screen keeps two parallel lists, the rides and their keys, and shares
them with its adapter (RidePostAdapter or ActiveRideAdapter). The adapter
uses a row's position to index both lists. The form screen formats the
picked date as `MM-dd-yyyy` and the picked time as `hh:mm AM/PM`, and it
stores `date + " " + time`. The edit path splits that string back apart
with `split(" ", 2)`. Registration checks the trimmed email and password,
creates the account and sets the new balance to 150.

The model is organised as follows:

- **Values.** `Ride` is a datatype with nullable fields modelled as `Option`.
  The store is a `map<Key, Ride>` and the ledger a `map<Uid, int>`. Both are
  fields of a `Database` object.
- **Screens and adapters.** These are classes whose methods update the shared
  `RideLists` object and the database in place.
- **Visibility.** The screens' filters are a `View` datatype with a `Kept`
  function that specifies what every load loop appends.
- **Java library.** `trim`, `compareTo`, `split(" ", 2)`, `String.valueOf`
  and `%0Nd` are written out in `JavaStrings`.
- **Asynchrony.** Each Firebase write, together with its success or failure
  listener, is one step. A boolean `ok` says which listener ran.

Some behaviours of the code deserve stating outright, because the model
keeps them rather than smoothing them over:

- **Accept.** Accept writes the ride without checking `accepted`, so a
  second accept overwrites the first (`PostAdapter.SecondAcceptOverwrites`).
- **Self-accept.** Nothing stops an author from accepting their own offer;
  they then hold both roles (`PostAdapter.SelfAcceptFillsBothRoles`).
- **Editing.** Saving an edit writes a fresh record under the same key. It
  resets acceptance and both flags and takes the newly checked type
  (`Lifecycle.EditReopens`, `Lifecycle.EditCanChangeType`).
- **Finalize.** Finalize deletes the entry named by the row index, not the
  ride's own key (see Findings).
- **Points.** Balances have no floor, so a rider can go negative
  (`ActiveAdapter.TransferCanGoNegative`).

## Model

| member | source | states |
|---|---|---|
| Rides.Ride.SetKey | app/src/main/java/edu/uga/cs/rideshareapp/Ride.java:95-97 | setKey changes the key to the given value and leaves every other field as it was |
| Rides.NewRide | app/src/main/java/edu/uga/cs/rideshareapp/Ride.java:48 | the deserialisation constructor leaves every reference field null and every flag false |
| Rides.MakeRide | app/src/main/java/edu/uga/cs/rideshareapp/Ride.java:65-79 | the eleven-argument constructor stores each argument in its field, and the key stays null |
| Rides.SetKeyThenGetKey | app/src/main/java/edu/uga/cs/rideshareapp/Ride.java:86-97 | getKey after setKey(k) returns k, and setting the old key back restores the ride |
| Rides.IsDriver | app/src/main/java/edu/uga/cs/rideshareapp/ActiveRideAdapter.java:69 | the viewer drives a ride iff its driverId is non-null and equal to the viewer's uid; RoleLabel, ConfirmedBy and the views state what follows from it |
| Rides.IsRider | app/src/main/java/edu/uga/cs/rideshareapp/ActiveRideAdapter.java:70 | the viewer rides a ride iff its riderId is non-null and equal to the viewer's uid; RoleLabel, ConfirmedBy and the views state what follows from it |
| Firebase.Increment | app/src/main/java/edu/uga/cs/rideshareapp/ActiveRideAdapter.java:157-158 | ServerValue.increment adds delta to one balance (creating the node from 0) and leaves every other balance unchanged |
| Firebase.IncrementSum | app/src/main/java/edu/uga/cs/rideshareapp/ActiveRideAdapter.java:157-158 | over distinct users, an increment changes the total by delta if the user is among them and leaves it unchanged otherwise |
| Lists.RemoveAt | app/src/main/java/edu/uga/cs/rideshareapp/RidePostAdapter.java:98-99 | List.remove(i) drops entry i: entries before i stay, later ones move down by one, and the multiset loses exactly s[i] |
| JavaStrings.TrimStart | app/src/main/java/edu/uga/cs/rideshareapp/RideFormActivity.java:120-123 | drops the leading chars up to U+0020, and only those |
| JavaStrings.TrimEnd | app/src/main/java/edu/uga/cs/rideshareapp/RideFormActivity.java:120-123 | drops the trailing chars up to U+0020, and only those |
| JavaStrings.Trim | app/src/main/java/edu/uga/cs/rideshareapp/RideFormActivity.java:120-123 | the trimmed text is no longer than its input and neither starts nor ends with a char up to U+0020; TrimIsInfix and TrimEmptyIff say what was cut |
| JavaStrings.TrimIsInfix | app/src/main/java/edu/uga/cs/rideshareapp/RideFormActivity.java:120-123 | trim() returns a contiguous slice of its input, and everything cut off on either side is a char up to U+0020 |
| JavaStrings.TrimEmptyIff | app/src/main/java/edu/uga/cs/rideshareapp/RideFormActivity.java:126-130 | a trimmed field is empty iff every char of the field is up to U+0020 |
| JavaStrings.TrimIdempotent | app/src/main/java/edu/uga/cs/rideshareapp/RegisterActivity.java:75-76 | trimming twice gives the same string as trimming once |
| JavaStrings.TrimKeeps | app/src/main/java/edu/uga/cs/rideshareapp/RideFormActivity.java:122-123 | a string that neither starts nor ends with a trimmable char is unchanged by trim() |
| JavaStrings.StrLeTotal | app/src/main/java/edu/uga/cs/rideshareapp/MainActivity.java:165 | String.compareTo orders every pair of strings one way or the other |
| JavaStrings.StrLeTrans | app/src/main/java/edu/uga/cs/rideshareapp/MainActivity.java:165 | the compareTo order is transitive |
| JavaStrings.StrLeAntisym | app/src/main/java/edu/uga/cs/rideshareapp/MainActivity.java:165 | two strings each at most the other are equal |
| JavaStrings.IndexOf | app/src/main/java/edu/uga/cs/rideshareapp/RideFormActivity.java:82 | the first occurrence of a char, or -1 exactly when the char is absent |
| JavaStrings.SplitOnce | app/src/main/java/edu/uga/cs/rideshareapp/RideFormActivity.java:82 | split(" ", 2) yields two parts exactly when the string contains a blank and one part otherwise |
| JavaStrings.SplitThenJoin | app/src/main/java/edu/uga/cs/rideshareapp/RideFormActivity.java:81-84 | the two parts of split(" ", 2), rejoined with a blank, give back the string |
| JavaStrings.JoinThenSplit | app/src/main/java/edu/uga/cs/rideshareapp/RideFormActivity.java:136 | date + " " + time splits back into [date, time] iff date contains no blank |
| JavaStrings.DigitChar | app/src/main/java/edu/uga/cs/rideshareapp/ActiveRideAdapter.java:162 | a digit value maps to the decimal digit char of that value |
| JavaStrings.Digits | app/src/main/java/edu/uga/cs/rideshareapp/ActiveRideAdapter.java:162 | String.valueOf of a non-negative int is a non-empty string of decimal digits |
| JavaStrings.ValueOfDigits | app/src/main/java/edu/uga/cs/rideshareapp/ActiveRideAdapter.java:162 | reading String.valueOf(n) back as a decimal number gives n |
| JavaStrings.DigitsLeadingZero | app/src/main/java/edu/uga/cs/rideshareapp/ActiveRideAdapter.java:162 | String.valueOf(n) starts with '0' exactly when n is zero, so a text of two or more digits has no leading zero |
| JavaStrings.DigitsLength | app/src/main/java/edu/uga/cs/rideshareapp/RideForm.java:120 | numbers below 10, 100 and 10000 have at most 1, 2 and 4 digits |
| JavaStrings.ValueOfZeros | app/src/main/java/edu/uga/cs/rideshareapp/RideForm.java:120 | a padding of zeros alone denotes 0 |
| JavaStrings.ValueOfLeadingZeros | app/src/main/java/edu/uga/cs/rideshareapp/RideForm.java:120 | leading zeros do not change the value a digit string denotes |
| JavaStrings.ZeroPadRoundTrip | app/src/main/java/edu/uga/cs/rideshareapp/RideForm.java:120 | %0Nd of n reads back as n and is exactly N chars wide when n has at most N digits |
| JavaStrings.ZeroPad | app/src/main/java/edu/uga/cs/rideshareapp/RideForm.java:84 | "%0Nd" of a nat is all digits; ZeroPadRoundTrip shows it reads back as the number and is exactly N wide when the number fits |
| Views.Kept | app/src/main/java/edu/uga/cs/rideshareapp/MainActivity.java:147-162 | a load appends only children that are in the snapshot and pass the screen's test, and never more of them than the snapshot has |
| Views.Passes | app/src/main/java/edu/uga/cs/rideshareapp/MainActivity.java:150-155 | the per-ride test of each load loop (also MyPostsActivity.java:134-145 and OthersPostsActivity.java:128-140); KeptMembership shows a key is listed iff its non-null child passes it |
| Views.Visible | app/src/main/java/edu/uga/cs/rideshareapp/MainActivity.java:140-155 | a stored ride belongs to a view iff its accepted flag is the one the query asks for and it passes the loop test; VisibleIff shows a key is listed iff its stored ride is Visible |
| Views.KeptStep | app/src/main/java/edu/uga/cs/rideshareapp/MainActivity.java:147-162 | one loop iteration appends the current child exactly when it is non-null and passes the test |
| Views.ProjectStep | app/src/main/java/edu/uga/cs/rideshareapp/MainActivity.java:156-158 | one iteration appends the same child's key to the key list and its ride (keyed or not) to the ride list |
| Views.KeptAligned | app/src/main/java/edu/uga/cs/rideshareapp/MyPostsActivity.java:137-138 | entry i of the key list and entry i of the ride list form a child of the snapshot |
| Views.KeptComplete | app/src/main/java/edu/uga/cs/rideshareapp/MainActivity.java:147-162 | every non-null child that passes the test is kept |
| Views.KeptMembership | app/src/main/java/edu/uga/cs/rideshareapp/MainActivity.java:147-162 | a key is listed iff the snapshot has a non-null child under it that passes the test |
| Views.VisibleIff | app/src/main/java/edu/uga/cs/rideshareapp/MainActivity.java:140-155 | over the answer to the accepted query, a key is listed iff the store holds a ride under it with the queried flag that passes the test |
| Views.KeptDistinct | app/src/main/java/edu/uga/cs/rideshareapp/MyPostsActivity.java:129-146 | a snapshot with distinct keys yields a list with distinct keys |
| Views.KeyedRidesAligned | app/src/main/java/edu/uga/cs/rideshareapp/MainActivity.java:156-158 | before the sort, ride i carries key i of the key list |
| Views.RemoveAtBoth | app/src/main/java/edu/uga/cs/rideshareapp/RidePostAdapter.java:137-138 | removing index i from both lists is removing pair i from the selection |
| Views.ProjectAppend | app/src/main/java/edu/uga/cs/rideshareapp/MainActivity.java:157-158 | appending to both lists is appending to the selection |
| Views.BothConfirmedNeverActive | app/src/main/java/edu/uga/cs/rideshareapp/MainActivity.java:155 | a ride with both confirmations is in no one's active list |
| Views.OthersExcludeOwnAndUntyped | app/src/main/java/edu/uga/cs/rideshareapp/OthersPostsActivity.java:130-137 | the others' lists never hold a ride with a null type or one where the viewer has the listed role |
| Views.OwnAndOthersPartition | app/src/main/java/edu/uga/cs/rideshareapp/OthersPostsActivity.java:128-140 | an unaccepted typed post is in exactly one of the viewer's own list and the others' list |
| ActiveRides.Insert | app/src/main/java/edu/uga/cs/rideshareapp/MainActivity.java:165 | inserting adds exactly one entry, and the multiset gains exactly x |
| ActiveRides.SortBy | app/src/main/java/edu/uga/cs/rideshareapp/MainActivity.java:165 | Collections.sort permutes the list |
| ActiveRides.InsertWithKey | app/src/main/java/edu/uga/cs/rideshareapp/MainActivity.java:165 | one insertion step puts the new entry in front of every entry with the same key |
| ActiveRides.SortStable | app/src/main/java/edu/uga/cs/rideshareapp/MainActivity.java:165 | the sort is stable: the entries sharing any one key keep their relative order |
| ActiveRides.InsertSorted | app/src/main/java/edu/uga/cs/rideshareapp/MainActivity.java:165 | inserting into a sorted list keeps it sorted |
| ActiveRides.SortSorted | app/src/main/java/edu/uga/cs/rideshareapp/MainActivity.java:165 | the sorted list is ordered by the compareTo of the sort key |
| ActiveRides.SortByDateTime | app/src/main/java/edu/uga/cs/rideshareapp/MainActivity.java:165 | the dateTime sort permutes the rides, and a list of dated rides stays dated |
| ActiveRides.KeptDated | app/src/main/java/edu/uga/cs/rideshareapp/MainActivity.java:156-165 | when every ride of the snapshot carries a dateTime, as every ride the form writes does, every listed ride has one and the sort cannot throw |
| ActiveRides.ActiveListSpec | app/src/main/java/edu/uga/cs/rideshareapp/MainActivity.java:144-165 | after a load, the ride list is sorted by dateTime and is a permutation of the viewer's active rides (dated when they are); it is as long as the key list, and each ride carries a listed key |
| ActiveRides.SortTwo | app/src/main/java/edu/uga/cs/rideshareapp/MainActivity.java:165 | sorting two out-of-order entries swaps them |
| ActiveRides.OutOfOrderPairSwaps | app/src/main/java/edu/uga/cs/rideshareapp/MainActivity.java:156-165 | for any two active rides listed later-date first, the key list keeps snapshot order while the sort swaps the rides, so each position pairs a ride with the other ride's key |
| ActiveRides.SortMisalignsKeys | app/src/main/java/edu/uga/cs/rideshareapp/MainActivity.java:158-165 | for two rides listed later-date first, position 0 of the sorted ride list carries a key other than position 0 of the key list |
| ActiveRides.SortedActive | app/src/main/java/edu/uga/cs/rideshareapp/MainActivity.java:158-165 | the pairs sorted together are a permutation of the kept pairs |
| ActiveRides.SortedActiveAligned | app/src/main/java/edu/uga/cs/rideshareapp/MainActivity.java:158-165 | when the pairs are sorted together, ride i carries key i; the rides are in dateTime order; and the key set is unchanged |
| ActiveRides.MainActivity.LoadActiveRides | app/src/main/java/edu/uga/cs/rideshareapp/MainActivity.java:137-167 | with no user nothing changes; otherwise the key list is the active keys in snapshot order and the ride list is the keyed active rides sorted by dateTime; it requires only that the comparator not throw (ComparatorSafe) |
| ActiveRides.MainActivity.LoadActiveRidesAligned | app/src/main/java/edu/uga/cs/rideshareapp/MainActivity.java:137-167 | the load with keys moved along with their rides: both lists are projections of the pairs sorted together |
| ActiveRides.MainActivity.CollectActive | app/src/main/java/edu/uga/cs/rideshareapp/MainActivity.java:147-162 | starting from two empty lists, the loop leaves the key list the active keys in snapshot order and the ride list their rides with keys set, index-aligned |
| ActiveRides.MainActivity.CollectChild | app/src/main/java/edu/uga/cs/rideshareapp/MainActivity.java:148-160 | one child appends its ride (key set) and its key exactly when the ride is non-null, involves the viewer and is not confirmed by both; otherwise nothing changes |
| ActiveRides.MainActivity.constructor | app/src/main/java/edu/uga/cs/rideshareapp/MainActivity.java:78-81 | the screen starts with both lists empty, shared with its adapter, and keeps the signed-in user |
| MyPosts.MyPostsView | app/src/main/java/edu/uga/cs/rideshareapp/MyPostsActivity.java:134-145 | "offer" selects the viewer's offers, "request" the viewer's requests, and any other mode selects nothing |
| MyPosts.MyPostsMembership | app/src/main/java/edu/uga/cs/rideshareapp/MyPostsActivity.java:124-145 | a key is listed iff the store holds an unaccepted ride under it that the viewer drives (offer mode) or rides (request mode) |
| MyPosts.MyPostsDistinct | app/src/main/java/edu/uga/cs/rideshareapp/MyPostsActivity.java:129-146 | one answer appends each key at most once; overlapping loads append several answers (see Findings) |
| MyPosts.MyPostsActivity.LoadMyPosts | app/src/main/java/edu/uga/cs/rideshareapp/MyPostsActivity.java:116-121 | with no user nothing changes; otherwise both lists are cleared when the query is sent, before any answer arrives |
| MyPosts.MyPostsActivity.OnMyPostsData | app/src/main/java/edu/uga/cs/rideshareapp/MyPostsActivity.java:128-147 | the answer appends to what the lists already hold the keys and rides the current mode selects, in snapshot order, without clearing |
| MyPosts.MyPostsActivity.Reload | app/src/main/java/edu/uga/cs/rideshareapp/MyPostsActivity.java:116-147 | a load whose answer arrives before another load starts leaves both lists exactly the mode's selection, index-aligned |
| MyPosts.MyPostsActivity.Open | app/src/main/java/edu/uga/cs/rideshareapp/MyPostsActivity.java:81-121 | opening the screen clears twice and then appends both answers, so the lists hold the selection of the first answer followed by that of the second |
| MyPosts.OpeningListsTwice | app/src/main/java/edu/uga/cs/rideshareapp/MyPostsActivity.java:81-147 | over an unchanged store every post of the viewer that the mode selects is listed exactly twice after opening |
| MyPosts.MyPostsActivity.OnMyPostsDataCleared | app/src/main/java/edu/uga/cs/rideshareapp/MyPostsActivity.java:119-147 | with the clear moved into the answer, the lists hold exactly that answer's selection whatever they held before |
| MyPosts.MyPostsActivity.OpenAligned | app/src/main/java/edu/uga/cs/rideshareapp/MyPostsActivity.java:81-147 | with the clear in the answer, opening leaves the lists exactly the later answer's selection, each key once by MyPostsDistinct |
| MyPosts.MyPostsActivity.ShowOffers | app/src/main/java/edu/uga/cs/rideshareapp/MyPostsActivity.java:84-88 | the mode becomes "offer" and the lists hold the viewer's own unaccepted offers |
| MyPosts.MyPostsActivity.ShowRequests | app/src/main/java/edu/uga/cs/rideshareapp/MyPostsActivity.java:91-95 | the mode becomes "request" and the lists hold the viewer's own unaccepted requests |
| MyPosts.MyPostsActivity.Recreate | app/src/main/java/edu/uga/cs/rideshareapp/MyPostsActivity.java:81-186 | recreating the screen restores the saved mode ("offer" when none was saved); onCreate, onRestoreInstanceState and onResume each clear the lists before any answer arrives, so the lists become the three answers' selections under the restored mode, one after another |
| MyPosts.RecreatingListsThrice | app/src/main/java/edu/uga/cs/rideshareapp/MyPostsActivity.java:81-186 | over an unchanged store every post of the viewer that the restored mode selects is listed exactly three times after a recreation |
| MyPosts.MyPostsActivity.RecreateAligned | app/src/main/java/edu/uga/cs/rideshareapp/MyPostsActivity.java:81-186 | with the clear in the answer, a recreation leaves the lists exactly the last answer's selection under the restored mode |
| MyPosts.MyPostsActivity.constructor | app/src/main/java/edu/uga/cs/rideshareapp/MyPostsActivity.java:47-79 | the screen starts in "offer" mode with both lists empty and keeps the signed-in user |
| OthersPosts.OthersPostsView | app/src/main/java/edu/uga/cs/rideshareapp/OthersPostsActivity.java:128-140 | "offer" selects others' offers, "request" others' requests, and any other mode selects nothing |
| OthersPosts.OthersRidesAfter | app/src/main/java/edu/uga/cs/rideshareapp/OthersPostsActivity.java:123-139 | after a load, the ride list holds exactly the rides of that load |
| OthersPosts.OthersKeysAfter | app/src/main/java/edu/uga/cs/rideshareapp/OthersPostsActivity.java:123-139 | the key list keeps its old entries as a prefix and grows by as many entries as the rides loaded |
| OthersPosts.OthersPostsMembership | app/src/main/java/edu/uga/cs/rideshareapp/OthersPostsActivity.java:120-140 | a key is loaded iff the store holds an unaccepted ride of the mode's type under it whose author is not the viewer |
| OthersPosts.OthersListsDrift | app/src/main/java/edu/uga/cs/rideshareapp/OthersPostsActivity.java:123-139 | the key list outgrows the ride list by exactly the keys it held before; only a key list that starts empty stays aligned |
| OthersPosts.SecondLoadMisaligns | app/src/main/java/edu/uga/cs/rideshareapp/OthersPostsActivity.java:123-132 | two loads of one offer leave two keys beside one ride |
| OthersPosts.StaleKeyAtPosition | app/src/main/java/edu/uga/cs/rideshareapp/OthersPostsActivity.java:131-132 | after a reload, a row position below the number of stale keys indexes a stale key |
| OthersPosts.OthersPostsActivity.LoadOthersPosts | app/src/main/java/edu/uga/cs/rideshareapp/OthersPostsActivity.java:117-152 | with no user nothing changes; otherwise the ride list is rebuilt while the new keys are appended after the old ones |
| OthersPosts.OthersPostsActivity.LoadOthersPostsAligned | app/src/main/java/edu/uga/cs/rideshareapp/OthersPostsActivity.java:123 | with the key list cleared as well, key i and ride i form a child of the snapshot |
| OthersPosts.OthersPostsActivity.ShowOffers | app/src/main/java/edu/uga/cs/rideshareapp/OthersPostsActivity.java:84-91 | the mode becomes "offer"; the ride list holds others' offers and the key list grows by their keys |
| OthersPosts.OthersPostsActivity.ShowRequests | app/src/main/java/edu/uga/cs/rideshareapp/OthersPostsActivity.java:94-100 | the mode becomes "request"; the ride list holds others' requests and the key list grows by their keys |
| OthersPosts.OthersPostsActivity.RestoreMode | app/src/main/java/edu/uga/cs/rideshareapp/OthersPostsActivity.java:178-186 | the saved mode is restored ("offer" when none was saved), then the screen reloads |
| OthersPosts.OthersPostsActivity.constructor | app/src/main/java/edu/uga/cs/rideshareapp/OthersPostsActivity.java:47-79 | the screen starts in "offer" mode with both lists empty and keeps the signed-in user |
| PostAdapter.AcceptedBy | app/src/main/java/edu/uga/cs/rideshareapp/RidePostAdapter.java:122-129 | the accepter becomes rider of an offer and driver of anything else, accepted becomes true, and nothing else changes |
| PostAdapter.AcceptFillsVacantRole | app/src/main/java/edu/uga/cs/rideshareapp/RidePostAdapter.java:122-129 | on a well-formed unaccepted post, the author keeps their role, the accepter takes the other, and both roles end up filled |
| PostAdapter.SecondAcceptOverwrites | app/src/main/java/edu/uga/cs/rideshareapp/RidePostAdapter.java:131-134 | with no compare-and-set, a second accept replaces the first accepter |
| PostAdapter.SelfAcceptFillsBothRoles | app/src/main/java/edu/uga/cs/rideshareapp/RidePostAdapter.java:118-129 | with no self-accept check, an author accepting their own offer becomes both driver and rider |
| PostAdapter.RidePostAdapter.EditExtras | app/src/main/java/edu/uga/cs/rideshareapp/RidePostAdapter.java:81-88 | the edit intent carries the row's key and the ride's type, places and dateTime |
| PostAdapter.RidePostAdapter.constructor | app/src/main/java/edu/uga/cs/rideshareapp/RidePostAdapter.java:38-42 | the adapter holds the screen's two lists, not copies, and its mode |
| PostAdapter.RidePostAdapter.Delete | app/src/main/java/edu/uga/cs/rideshareapp/RidePostAdapter.java:92-108 | on success the row's key leaves the store and the row's index leaves both lists; on failure nothing changes |
| PostAdapter.RidePostAdapter.Accept | app/src/main/java/edu/uga/cs/rideshareapp/RidePostAdapter.java:118-147 | with no user nothing changes; on success the accepted ride overwrites the row's key and the row leaves both lists; on failure the listed ride stays modified |
| PostAdapter.RemovalKeepsOrder | app/src/main/java/edu/uga/cs/rideshareapp/RidePostAdapter.java:135-140 | removing the same index from both lists keeps their order and keeps them aligned if they were |
| ActiveAdapter.RoleLabel | app/src/main/java/edu/uga/cs/rideshareapp/ActiveRideAdapter.java:76-84 | a row shows "Driver"/"+50 points" iff the viewer drives, "Rider"/"-50 points" iff the viewer only rides, and nothing otherwise |
| ActiveAdapter.UserAlreadyConfirmed | app/src/main/java/edu/uga/cs/rideshareapp/ActiveRideAdapter.java:90 | the viewer's own flag is set in a role they hold; ConfirmEnabledIff shows the button is enabled iff a click changes the ride |
| ActiveAdapter.ConfirmedBy | app/src/main/java/edu/uga/cs/rideshareapp/ActiveRideAdapter.java:107-112 | Confirm sets the driver flag for the driver, else the rider flag for the rider, else changes nothing |
| ActiveAdapter.ConfirmMonotone | app/src/main/java/edu/uga/cs/rideshareapp/ActiveRideAdapter.java:107-112 | confirmation never clears a flag, changes no other field and sets at most one flag |
| ActiveAdapter.ConfirmIdempotent | app/src/main/java/edu/uga/cs/rideshareapp/ActiveRideAdapter.java:108-111 | confirming twice is confirming once |
| ActiveAdapter.ConfirmEnabledIff | app/src/main/java/edu/uga/cs/rideshareapp/ActiveRideAdapter.java:90-97 | for a viewer holding one role, the button is enabled iff a click changes the ride, and a click disables it |
| ActiveAdapter.SelfRideNeverCompletes | app/src/main/java/edu/uga/cs/rideshareapp/ActiveRideAdapter.java:90-112 | a self-accepted ride gets only its driver flag from its one user, after which the button is disabled |
| ActiveAdapter.Transfer | app/src/main/java/edu/uga/cs/rideshareapp/ActiveRideAdapter.java:144-158 | the driver gains 50 and the rider loses 50 (nothing changes when they are the same user), and no one else's balance moves |
| ActiveAdapter.TransferConserves | app/src/main/java/edu/uga/cs/rideshareapp/ActiveRideAdapter.java:157-158 | the total over distinct users holding both parties is unchanged |
| ActiveAdapter.TransferCanGoNegative | app/src/main/java/edu/uga/cs/rideshareapp/ActiveRideAdapter.java:157-158 | a rider below 50 points ends with a negative balance |
| ActiveAdapter.FinalizeKey | app/src/main/java/edu/uga/cs/rideshareapp/ActiveRideAdapter.java:161-162 | the removed key is the decimal text of the row index and reads back as that index |
| ActiveAdapter.FinalizeMissesPushKeys | app/src/main/java/edu/uga/cs/rideshareapp/ActiveRideAdapter.java:161-163 | a push key (starting with '-') is never the key finalize removes, so the ride survives |
| ActiveAdapter.FinalizeNeverRemovesNonNumeric | app/src/main/java/edu/uga/cs/rideshareapp/ActiveRideAdapter.java:161-162 | no key containing a non-digit is ever removed by finalize |
| ActiveAdapter.ActiveRideAdapter.FinalizeCompletedRide | app/src/main/java/edu/uga/cs/rideshareapp/ActiveRideAdapter.java:144-165 | with a null id nothing changes; otherwise the points are transferred and the entry named by the row index is removed |
| ActiveAdapter.ActiveRideAdapter.constructor | app/src/main/java/edu/uga/cs/rideshareapp/ActiveRideAdapter.java:37-40 | the adapter holds the screen's two lists, not copies |
| ActiveAdapter.ActiveRideAdapter.FinalizeCompletedRideByKey | app/src/main/java/edu/uga/cs/rideshareapp/ActiveRideAdapter.java:144-165 | the corrected finalize: same transfer, and the ride's own key leaves the store |
| ActiveAdapter.ActiveRideAdapter.Confirm | app/src/main/java/edu/uga/cs/rideshareapp/ActiveRideAdapter.java:100-124 | the listed ride is confirmed in place; on success it is written under the row's key, and if both flags are set it is finalized with the row index |
| TimeFormat.Hour12 | app/src/main/java/edu/uga/cs/rideshareapp/RideForm.java:105-118 | every hour of day maps to 1..12, and 1..12 are kept |
| TimeFormat.AmPm | app/src/main/java/edu/uga/cs/rideshareapp/RideForm.java:108-117 | the suffix is "PM" iff the hour is at least 12, and "AM" otherwise |
| TimeFormat.TimeText | app/src/main/java/edu/uga/cs/rideshareapp/RideForm.java:120 | "%02d:%02d %s" of an hour, a minute and a suffix; TimeTextFields shows where each field sits and that the fields read back |
| TimeFormat.OnTimeSetText | app/src/main/java/edu/uga/cs/rideshareapp/RideForm.java:102-121 | the text onTimeSet writes for an hour of day and a minute; OnTimeSetTextShape shows it is 8 chars reading back as the 12-hour time |
| TimeFormat.DateText | app/src/main/java/edu/uga/cs/rideshareapp/RideForm.java:84 | "%02d-%02d-%04d" of month + 1, the day and the year; DateTextShape shows it is 10 blank-free chars reading back as those numbers |
| TimeFormat.Hour12RoundTrip | app/src/main/java/edu/uga/cs/rideshareapp/RideForm.java:105-118 | the 12-hour hour and suffix read back as the original hour of day; 0 is 12 AM and 12 is 12 PM |
| TimeFormat.TimeTextFields | app/src/main/java/edu/uga/cs/rideshareapp/RideForm.java:120 | for two-digit fields, the text is "hh:mm " plus the suffix, and the fields read back as hour and minute |
| TimeFormat.OnTimeSetTextShape | app/src/main/java/edu/uga/cs/rideshareapp/RideForm.java:102-121 | for any picker time, the text is 8 chars whose hour, minute and suffix read back as the 12-hour time |
| TimeFormat.DateTextShape | app/src/main/java/edu/uga/cs/rideshareapp/RideForm.java:84 | for a picker date, the text is 10 chars with no blank, reading back as month + 1, the day and the year |
| TimeFormat.PickedDateTimeRoundTrip | app/src/main/java/edu/uga/cs/rideshareapp/RideFormActivity.java:81-84 | a picked date and time, joined and then split(" ", 2), come back unchanged |
| RideFormScreen.PickerHour | app/src/main/java/edu/uga/cs/rideshareapp/RideFormActivity.java:109 | every hour of day maps to 1..12 |
| RideFormScreen.PickerHourAgrees | app/src/main/java/edu/uga/cs/rideshareapp/RideFormActivity.java:109 | the conditional expression and RideForm's branches give the same hour |
| RideFormScreen.PickerTimeText | app/src/main/java/edu/uga/cs/rideshareapp/RideFormActivity.java:108-111 | the form screen writes the same time text as RideForm's onTimeSet |
| RideFormScreen.TypeOf | app/src/main/java/edu/uga/cs/rideshareapp/RideFormActivity.java:158 | the type is "offer" iff the offer button is checked, and "request" otherwise |
| RideFormScreen.JoinDateTime | app/src/main/java/edu/uga/cs/rideshareapp/RideFormActivity.java:136 | the stored dateTime splits back into its date and time when the date has no blank |
| RideFormScreen.CheckForm | app/src/main/java/edu/uga/cs/rideshareapp/RideFormActivity.java:119-151 | the form is refused for a missing field, else for an unparsable date/time, else for a time before now, and accepted exactly otherwise |
| RideFormScreen.FieldsMissing | app/src/main/java/edu/uga/cs/rideshareapp/RideFormActivity.java:120-130 | no type checked, or a field empty once trimmed; CheckForm refuses with MissingFields iff this holds |
| RideFormScreen.BlankFieldRejected | app/src/main/java/edu/uga/cs/rideshareapp/RideFormActivity.java:120-133 | a field that holds only whitespace counts as missing |
| RideFormScreen.BuildRide | app/src/main/java/edu/uga/cs/rideshareapp/RideFormActivity.java:158-172 | a built ride has no key and is unaccepted and unconfirmed; the author fills the role the type names and the other role is vacant |
| RideFormScreen.FormRide | app/src/main/java/edu/uga/cs/rideshareapp/RideFormActivity.java:120-172 | the record built from the trimmed fields and the checked type; BuiltRideRoles shows the author holds exactly the named role |
| RideFormScreen.BuiltRideRoles | app/src/main/java/edu/uga/cs/rideshareapp/RideFormActivity.java:158-172 | exactly one role id is set in a built ride, and it is the author's |
| RideFormScreen.RideFormActivity.constructor | app/src/main/java/edu/uga/cs/rideshareapp/RideFormActivity.java:64-85 | a new form is empty; an edit form shows the intent's type, places, date and time, and date + " " + time is the stored dateTime |
| RideFormScreen.RideFormActivity.OnDateSet | app/src/main/java/edu/uga/cs/rideshareapp/RideFormActivity.java:96-97 | the date field becomes the formatted date and nothing else changes |
| RideFormScreen.RideFormActivity.OnTimeSet | app/src/main/java/edu/uga/cs/rideshareapp/RideFormActivity.java:108-111 | the time field becomes the formatted time and nothing else changes |
| RideFormScreen.RideFormActivity.EnterPlaces | app/src/main/java/edu/uga/cs/rideshareapp/RideFormActivity.java:57-62 | typing into the two place fields and checking a type button changes those three and nothing else |
| RideFormScreen.RideFormActivity.SubmitRideForm | app/src/main/java/edu/uga/cs/rideshareapp/RideFormActivity.java:119-206 | a refusal, a missing user or a failed write leaves the store unchanged; otherwise the built ride is stored under the edit key or the push key, and the ledger is never touched |
| RideFormScreen.PostAddsOneEntry | app/src/main/java/edu/uga/cs/rideshareapp/RideFormActivity.java:192-193 | a post under a fresh push key adds exactly one entry and changes no other |
| RideFormScreen.RejoinUnchanged | app/src/main/java/edu/uga/cs/rideshareapp/RideFormActivity.java:81-84 | splitting, trimming and rejoining returns the stored dateTime when neither half has trimmable ends |
| RideFormScreen.EditKeepsPickedDateTime | app/src/main/java/edu/uga/cs/rideshareapp/RideFormActivity.java:119-136 | saving an edit with the picked date and time untouched stores the same dateTime |
| Registration.CheckCredentials | app/src/main/java/edu/uga/cs/rideshareapp/RegisterActivity.java:75-88 | an empty or non-matching trimmed email is refused first, then a trimmed password shorter than 6 chars, and both checks pass exactly otherwise |
| Registration.Outcome | app/src/main/java/edu/uga/cs/rideshareapp/RegisterActivity.java:74-118 | registration succeeds iff both checks pass and the account is created, and the new uid is the created one |
| Registration.RefusedBeforeCreation | app/src/main/java/edu/uga/cs/rideshareapp/RegisterActivity.java:79-91 | refused input never reaches account creation |
| Registration.RegisterUser | app/src/main/java/edu/uga/cs/rideshareapp/RegisterActivity.java:74-121 | the outcome is as specified; only a successful registration writes, setting the new balance to 150; rides are untouched |
| Registration.RegisteredBalance | app/src/main/java/edu/uga/cs/rideshareapp/RegisterActivity.java:97-101 | after registration, the new user's balance is 150 and other balances are unchanged |
| Lifecycle.PostedOfferVisibility | app/src/main/java/edu/uga/cs/rideshareapp/RideFormActivity.java:158-172 | a posted offer is in the author's own offers and in every other user's view of others' offers, but not in the author's view of others' offers or in any active list |
| Lifecycle.AcceptMovesToActive | app/src/main/java/edu/uga/cs/rideshareapp/RidePostAdapter.java:122-134 | an accepted offer leaves every unaccepted list and enters the active lists of the driver and the accepter |
| Lifecycle.BothConfirmationsComplete | app/src/main/java/edu/uga/cs/rideshareapp/ActiveRideAdapter.java:107-122 | the two confirmations set both flags in either order, and the ride then leaves every active list |
| Lifecycle.CompletedRideInvisible | app/src/main/java/edu/uga/cs/rideshareapp/ActiveRideAdapter.java:161-163 | an accepted ride with both flags set is in no list |
| Lifecycle.EditReopens | app/src/main/java/edu/uga/cs/rideshareapp/RideFormActivity.java:158-179 | a saved edit clears acceptance and confirmations and moves the ride back to the author's own list |
| Lifecycle.EditCanChangeType | app/src/main/java/edu/uga/cs/rideshareapp/RideFormActivity.java:158 | an offer re-saved as a request becomes a request with the author as rider and no driver |
| Lifecycle.FullRidePoints | app/src/main/java/edu/uga/cs/rideshareapp/ActiveRideAdapter.java:145-158 | a full ride leaves the driver 50 up and the rider 50 down, and the total is conserved |

## Left out

- Android UI is not modelled: layouts, toasts, notifyItem* calls, scrolling, header texts and navigation between screens. LoginActivity and MainActivity's points display listener are not modelled either.
- Firebase asynchrony is modelled only where MyPostsActivity depends on it: its query and its answer are separate methods (`LoadMyPosts`, `OnMyPostsData`). Elsewhere each write together with its success or failure listener is one atomic step, chosen by the `ok` parameter, and each query is answered within the call that sends it.
- MyPosts.MyPostsActivity.ShowOffers and MyPosts.MyPostsActivity.ShowRequests use `Reload`, where the answer arrives before any other load starts. A button pressed while an earlier answer is still pending appends both answers, as `Open` and `Recreate` show for opening and recreating the screen; the button case is not stated on its own.
- MainActivity's live listener firing again is not modelled as such: each firing is a separate `LoadActiveRides` call.
- Concurrent clients interleaving writes are not modelled.
- RecyclerView recycling is not modelled. The position a row was bound with is taken to be the position at click time (`getAdapterPosition`).
- An `IndexOutOfBoundsException` from a list that shrank between binding and a success listener is not modelled. `requires` on the adapter methods keep the position inside both lists.
- Patterns.EMAIL_ADDRESS is the parameter `isEmail`.
- SimpleDateFormat.parse is the parameter `parse`, and `new Date()` is the parameter `now`. A Date is an int.
- String.compareTo compares UTF-16 code units. The model compares Dafny chars, which is the same for the BMP text the pickers produce.
- Collections.sort is a stable merge sort. It is modelled as an insertion sort, stable by `ActiveRides.SortStable`; for a total preorder two stable sorts give the same result.
- ActiveRides.MainActivity.LoadActiveRides: requires `ComparatorSafe`: the viewer's kept rides number fewer than two or all carry a dateTime. Otherwise the comparator dereferences a null dateTime and onDataChange throws, which is not modelled. Rides of other users and a lone kept ride are never compared, so they may lack one; every ride the form writes carries a dateTime (RideFormActivity.java:136,158-172). The same holds for ActiveRides.MainActivity.LoadActiveRidesAligned.
- RideFormScreen.RideFormActivity.constructor: requires an edit intent's dateTime to be non-null and to contain a blank, because otherwise onCreate throws.
- ActiveAdapter.ActiveRideAdapter.FinalizeCompletedRide: a null driverId or riderId throws in `child(null)` before any write. The model states this as "nothing changes".
- ActiveAdapter.ActiveRideAdapter.Confirm: requires the viewer's own flag to be clear. The button is disabled otherwise (ActiveRideAdapter.java:92-94).
- PostAdapter.RidePostAdapter.EditExtras and PostAdapter.RidePostAdapter.Delete require the adapter's mode to be "MY_POSTS", and PostAdapter.RidePostAdapter.Accept requires any other mode. The buttons are only wired in those modes.
- RideForm.java's submitRideForm is an empty stub that writes nothing, so it has no member. Only its two picker callbacks are modelled.
- The radio button the layout checks initially is the constructor parameter `initial`.
- RideFormActivity's onSaveInstanceState/onRestoreInstanceState are not modelled. The scroll position saved by the two posts screens is not modelled either.
- Java int overflow is not modelled; positions, hours, minutes and balances are unbounded integers.
- TimeFormat.DateText and TimeFormat.TimeText take nat arguments: the pickers never supply negative numbers, so `%02d` of a negative value is not modelled.
- Registration's error message texts are not modelled. The outcome datatype names each case instead.
- After a successful creation, `getCurrentUser()` is taken to be the created account.

## Findings

| source | as written | input that shows it | evidently intended | confidence | as-written member | corrected member |
|---|---|---|---|---|---|---|
| app/src/main/java/edu/uga/cs/rideshareapp/ActiveRideAdapter.java:161-163 | finalize removes the child named `String.valueOf(position)` | a ride stored under a push key such as "-Nabc" shown at row 0: the entry "0" is removed and the completed ride stays in the store, invisible in every list | remove the ride under its own key | not executed | ActiveAdapter.FinalizeMissesPushKeys | ActiveAdapter.ActiveRideAdapter.FinalizeCompletedRideByKey |
| app/src/main/java/edu/uga/cs/rideshareapp/MainActivity.java:165 | only activeRideList is sorted, and activeRideKeys keeps snapshot order | "kA" dated 05-01-2030 listed before "kB" dated 01-01-2030: row 0 shows ride kB but indexes key kA, so Confirm writes ride kB's content under kA | sort the keys together with their rides | not executed | ActiveRides.SortMisalignsKeys | ActiveRides.MainActivity.LoadActiveRidesAligned |
| app/src/main/java/edu/uga/cs/rideshareapp/OthersPostsActivity.java:123 | only rideList is cleared before a reload | two loads of one offer under "k1" leave keys ["k1", "k1"] beside one ride, so positions index stale keys after any reload whose content changed | clear rideKeys as well | not executed | OthersPosts.SecondLoadMisaligns | OthersPosts.OthersPostsActivity.LoadOthersPostsAligned |
| app/src/main/java/edu/uga/cs/rideshareapp/MyPostsActivity.java:119-121 | loadMyPosts clears both lists when it sends the query, and the answer only appends; onCreate (line 81) and onResume (line 109) both call it when the screen opens, and both return before either answer is delivered | opening the screen while the viewer has one unaccepted offer under "k1": both clears run first, then each answer appends, leaving keys ["k1", "k1"] and the offer listed twice | clear both lists in onDataChange, so the later answer replaces the earlier one | not executed | MyPosts.OpeningListsTwice | MyPosts.MyPostsActivity.OpenAligned |
| app/src/main/java/edu/uga/cs/rideshareapp/MyPostsActivity.java:186 | onRestoreInstanceState calls loadMyPosts a third time when the screen is recreated, after onCreate's call (line 81) and before onResume's (line 109); all three clears run before any answer is delivered | rotating the screen while the viewer has one unaccepted request under "k1" and "request" was saved: the three answers each append under the restored mode, leaving keys ["k1", "k1", "k1"] | clear both lists in onDataChange, so the last answer replaces the earlier ones | not executed | MyPosts.RecreatingListsThrice | MyPosts.MyPostsActivity.RecreateAligned |
