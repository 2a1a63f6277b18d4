/** Re-entry after exit. The table declares `UniqueConstraint("client_id",
    "parking_id")`, so a session row, once closed, still blocks every later
    row for the same client and parking: the second entry passes all the
    route's own checks (which look only at ACTIVE sessions) and then fails
    at commit with an uncaught integrity error. The route's checks show
    the evident intent, a new session per visit; `EnterParkingIntended` is
    that behaviour, and the lifecycle facts of `Lifecycle` are stated for it
    (they carry over to `EnterParking` whenever it does not fail).
 */
module Findings {
  import opened Models
  import opened Errors
  import opened Routes
  import opened Lifecycle

  /** As written: enter, exit, enter again is answered with 500. */
  lemma ReenterAfterExitCrashes(s: State, req: SessionRequest, t1: int, t2: int, t3: int)
    requires Valid(s) && UniquePairs(s.sessions)
    requires EnterParking(s, req, t1).response.Entered?
    requires HasCard(s.clients[req.clientId.value])
    ensures var s1 := EnterParking(s, req, t1).state;
      var s2 := ExitParking(s1, req, t2).state;
      && EnterParkingIntended(s2, req, t3).response.Entered?
      && EnterParking(s2, req, t3).response == Failed(IntegrityViolation)
      && StatusOf(EnterParking(s2, req, t3).response) == 500
  {
    var cid, pid := req.clientId.value, req.parkingId.value;
    EnterThenExitRestores(s, req, t1, t2);
    var s1 := EnterParking(s, req, t1).state;
    var s2 := ExitParking(s1, req, t2).state;
    var n := |s.sessions|;
    assert s2.sessions[n].clientId == cid && s2.sessions[n].parkingId == pid;
    assert !HasActive(s2.sessions, cid, pid) by {
      forall j | 0 <= j < |s2.sessions| ensures !Matches(s2.sessions[j], cid, pid) {
        if j < n {
          assert s2.sessions[j] == s.sessions[j];
        }
      }
    }
    var s3 := EnterParkingIntended(s2, req, t3).state;
    assert s3.sessions[n] == s2.sessions[n];
    assert s3.sessions[n + 1].clientId == cid && s3.sessions[n + 1].parkingId == pid;
    assert !UniquePairs(s3.sessions);
  }

  /** Corrected: with only the route's own rule (one ACTIVE session per
      pair), the same client enters the same parking again after leaving,
      taking one free place as on the first visit. */
  lemma ReenterAfterExitSucceeds(s: State, req: SessionRequest, t1: int, t2: int, t3: int)
    requires Valid(s)
    requires EnterParkingIntended(s, req, t1).response.Entered?
    requires HasCard(s.clients[req.clientId.value])
    ensures var s1 := EnterParkingIntended(s, req, t1).state;
      var s2 := ExitParking(s1, req, t2).state;
      var r3 := EnterParkingIntended(s2, req, t3);
      && r3.response.Entered?
      && r3.state.parkings == s1.parkings
      && |r3.state.sessions| == |s.sessions| + 2
  {
    var cid, pid := req.clientId.value, req.parkingId.value;
    EnterThenExitRestores(s, req, t1, t2);
    var s1 := EnterParkingIntended(s, req, t1).state;
    var s2 := ExitParking(s1, req, t2).state;
    var n := |s.sessions|;
    assert !HasActive(s2.sessions, cid, pid) by {
      forall j | 0 <= j < |s2.sessions| ensures !Matches(s2.sessions[j], cid, pid) {
        if j < n {
          assert s2.sessions[j] == s.sessions[j];
        }
      }
    }
  }

  /** A walk-through on a fresh database: a one-place parking, a client
      with a card, an entry (201, no place left), a second entry (400: the
      full-parking check comes before the duplicate check), an exit (200,
      the place is free again and the session closed no earlier than it
      opened), and a third entry, which the table constraint turns into a
      500. */
  lemma OnePlaceWalkThrough()
    ensures var p := ParkingRequest(Present("Lenina 10"), Present(1), Absent);
      var c := ClientRequest(Present("Ivan"), Present("Ivanov"), Present("1234"), Present("A123BC"));
      var rp := CreateParking(Empty, p);
      var rc := CreateClient(rp.state, c);
      var e := SessionRequest(Present(1), Present(1));
      var r1 := EnterParking(rc.state, e, 10);
      var r2 := EnterParking(r1.state, e, 11);
      var r3 := ExitParking(r1.state, e, 12);
      var r4 := EnterParking(r3.state, e, 13);
      && rp.response == Created(1) && rc.response == Created(1)
      && rp.state.parkings[1].countAvailablePlaces == 1
      && r1.response == Entered && r1.state.parkings[1].countAvailablePlaces == 0
      && r2.response == Failed(NoAvailablePlaces) && StatusOf(r2.response) == 400
      && r3.response == Exited && r3.state.parkings[1].countAvailablePlaces == 1
      && r3.state.sessions[0].timeOut == Some(12) && r3.state.sessions[0].timeIn == 10
      && r4.response == Failed(IntegrityViolation) && StatusOf(r4.response) == 500
  {
  }
}
