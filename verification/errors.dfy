/** The outcomes a handler can fail with, the HTTP status each one is
    answered with, and the error text a caller sees.
 */
module Errors {

  datatype ErrorKind =
    | MissingFields          // a required key is absent from the body
    | NonPositiveCapacity    // `count_places <= 0`
    | MissingIds             // `client_id` or `parking_id` is falsy
    | ClientNotFound
    | ParkingNotFound
    | ParkingClosed
    | NoAvailablePlaces
    | AlreadyParked          // an active session exists for the pair
    | NoActiveSession
    | NoCreditCard
    // Unhandled exceptions, answered with 500 and rolled back:
    | IntegrityViolation     // a NOT NULL or UNIQUE constraint fails at commit
    | NullComparison         // `None <= 0` raises TypeError
    | MissingParkingRecord   // attribute access on a parking that is None

  /** The exceptions the handlers do not catch. */
  predicate IsCrash(e: ErrorKind)
  {
    e.IntegrityViolation? || e.NullComparison? || e.MissingParkingRecord?
  }

  /** The handled "not found" outcomes. */
  predicate IsNotFound(e: ErrorKind)
  {
    e.ClientNotFound? || e.ParkingNotFound? || e.NoActiveSession?
  }

  function Status(e: ErrorKind): (code: int)
    ensures code == 500 <==> IsCrash(e)
    ensures code == 404 <==> IsNotFound(e)
    ensures code == 400 <==> !IsCrash(e) && !IsNotFound(e)
  {
    match e
    case ClientNotFound | ParkingNotFound | NoActiveSession => 404
    case IntegrityViolation | NullComparison | MissingParkingRecord => 500
    case _ => 400
  }

  /** `t` occurs in `s` as a contiguous piece. */
  predicate Contains(s: string, t: string)
  {
    exists i | 0 <= i <= |s| - |t| :: t <= s[i..]
  }

  /** The `error` member of the JSON body (Flask's own page title for the
      unhandled exceptions). */
  function Message(e: ErrorKind): (m: string)
    ensures e.ParkingClosed? ==> Contains(m, "closed")
    ensures e.NoAvailablePlaces? ==> Contains(m, "available places")
    ensures e.NoCreditCard? ==> Contains(m, "credit card")
  {
    match e
    case MissingFields => "Missing required fields"
    case NonPositiveCapacity => "count_places must be positive"
    case MissingIds => "client_id and parking_id are required"
    case ClientNotFound => "Client not found"
    case ParkingNotFound => "Parking not found"
    case ParkingClosed => ClosedText()
    case NoAvailablePlaces => FullText()
    case AlreadyParked => "Client is already parked here"
    case NoActiveSession => "Active parking session not found"
    case NoCreditCard => NoCardText()
    case IntegrityViolation | NullComparison | MissingParkingRecord => "Internal Server Error"
  }

  /** The text of the closed-parking error. */
  function ClosedText(): (m: string)
    ensures Contains(m, "closed")
  {
    var m := "Parking is closed";
    assert m[11..] == "closed";
    m
  }

  /** The text of the full-parking error. */
  function FullText(): (m: string)
    ensures Contains(m, "available places")
  {
    var m := "No available places";
    assert m[3..] == "available places";
    m
  }

  /** The text of the missing-card error. */
  function NoCardText(): (m: string)
    ensures Contains(m, "credit card")
  {
    var m := "Client has no credit card for payment";
    assert "credit card" <= m[14..];
    m
  }
}
