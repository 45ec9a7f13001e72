/**
 * RegisterActivity.java: registerUser trims the two inputs, refuses an empty
 * or malformed email and then a password shorter than six chars, asks
 * Firebase Authentication to create the account, and on success sets the new
 * user's points to 150. Patterns.EMAIL_ADDRESS is the parameter `isEmail`;
 * the answer of createUserWithEmailAndPassword is the parameter `created`.
 */
module Registration {
  import opened Common
  import opened JavaStrings
  import opened Firebase

  /** The balance a new account starts with. */
  const InitialPoints: int := 150

  /** The shortest password accepted. */
  const MinPasswordLength: nat := 6

  /** What account creation answered. */
  datatype CreateResult = Created(uid: Uid) | Collision | OtherFailure

  /** What registerUser ended with. */
  datatype RegisterOutcome =
    | InvalidEmail
    | ShortPassword
    | AlreadyRegistered
    | CreationFailed
    | Registered(uid: Uid)

  /** The two input checks, email first, on the trimmed inputs; None when
      both pass. */
  function CheckCredentials(email: string, password: string, isEmail: string -> bool): (r: Option<RegisterOutcome>)
    ensures r == Some(InvalidEmail) <==> Trim(email) == [] || !isEmail(Trim(email))
    ensures r == Some(ShortPassword) <==>
      Trim(email) != [] && isEmail(Trim(email)) && |Trim(password)| < MinPasswordLength
    ensures r.None? <==>
      Trim(email) != [] && isEmail(Trim(email)) && |Trim(password)| >= MinPasswordLength
  {
    var e, p := Trim(email), Trim(password);
    if e == [] || !isEmail(e) then Some(InvalidEmail)
    else if p == [] || |p| < MinPasswordLength then Some(ShortPassword)
    else None
  }

  /** The outcome of a registration attempt. */
  function Outcome(email: string, password: string, isEmail: string -> bool, created: CreateResult): (r: RegisterOutcome)
    ensures r.Registered? <==> CheckCredentials(email, password, isEmail).None? && created.Created?
    ensures r.Registered? ==> r.uid == created.uid
  {
    var check := CheckCredentials(email, password, isEmail);
    if check.Some? then check.value
    else match created
      case Created(uid) => Registered(uid)
      case Collision => AlreadyRegistered
      case OtherFailure => CreationFailed
  }

  /** Account creation is consulted only when both checks pass: a refused input
      has the same outcome whatever creation would have answered. */
  lemma RefusedBeforeCreation(email: string, password: string, isEmail: string -> bool, c1: CreateResult, c2: CreateResult)
    requires CheckCredentials(email, password, isEmail).Some?
    ensures Outcome(email, password, isEmail, c1) == Outcome(email, password, isEmail, c2)
    ensures !Outcome(email, password, isEmail, c1).Registered?
  {
  }

  /** registerUser(). Only a successful creation writes to the ledger, and it
      sets the new user's node to 150 whatever it held; the rides are never
      touched. */
  method RegisterUser(db: Database, email: string, password: string, isEmail: string -> bool,
                      created: CreateResult) returns (outcome: RegisterOutcome)
    modifies db
    ensures outcome == Outcome(email, password, isEmail, created)
    ensures db.rides == old(db.rides)
    ensures outcome.Registered? ==> db.points == old(db.points)[outcome.uid := InitialPoints]
    ensures !outcome.Registered? ==> db.points == old(db.points)
  {
    var e := Trim(email);
    var p := Trim(password);
    if e == [] || !isEmail(e) {
      return InvalidEmail;
    }
    if p == [] || |p| < MinPasswordLength {
      return ShortPassword;
    }
    match created {
      case Created(uid) =>
        db.points := db.points[uid := InitialPoints];
        outcome := Registered(uid);
      case Collision =>
        outcome := AlreadyRegistered;
      case OtherFailure =>
        outcome := CreationFailed;
    }
  }

  /** After a successful registration the new user's balance is exactly 150
      and every other balance is unchanged. */
  lemma RegisteredBalance(l: Ledger, uid: Uid)
    ensures Balance(l[uid := InitialPoints], uid) == 150
    ensures forall u :: u != uid ==> Balance(l[uid := InitialPoints], u) == Balance(l, u)
  {
  }
}
