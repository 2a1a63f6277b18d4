/** The invariants the session lifecycle keeps over the persisted tables,
    and the proofs that every handler keeps them.
 */
module Lifecycle {
  import opened Models
  import opened Errors
  import opened Routes

  // ------------------------------------------------------------ invariants

  /** Every stored id was handed out by its counter (so ids are positive,
      hence truthy) and session ids grow with insertion order. */
  ghost predicate IdsAllocated(s: State)
  {
    && s.nextClientId >= 1 && s.nextParkingId >= 1 && s.nextSessionId >= 1
    && (forall c :: c in s.clients ==> 1 <= c < s.nextClientId)
    && (forall p :: p in s.parkings ==> 1 <= p < s.nextParkingId)
    && (forall i :: 0 <= i < |s.sessions| ==> 1 <= s.sessions[i].id < s.nextSessionId)
    && (forall i, j :: 0 <= i < j < |s.sessions| ==> s.sessions[i].id < s.sessions[j].id)
  }

  /** The foreign keys of every session row point at existing rows. */
  ghost predicate SessionsReferenceRows(s: State)
  {
    forall i :: 0 <= i < |s.sessions| ==>
      s.sessions[i].clientId in s.clients && s.sessions[i].parkingId in s.parkings
  }

  /** For every parking: capacity is positive, the free-place counter is not
      negative, and free places plus active sessions at the parking make up
      its capacity. */
  ghost predicate PlacesAccounted(s: State)
  {
    forall p :: p in s.parkings ==>
      && s.parkings[p].countPlaces > 0
      && s.parkings[p].countAvailablePlaces >= 0
      && s.parkings[p].countAvailablePlaces + ActiveAt(s.sessions, p) == s.parkings[p].countPlaces
  }

  ghost predicate Valid(s: State)
  {
    && IdsAllocated(s)
    && SessionsReferenceRows(s)
    && AtMostOneActive(s.sessions)
    && PlacesAccounted(s)
  }

  /** No session starts or ends after `now`, and none ends before it starts. */
  ghost predicate Chronological(s: State, now: int)
  {
    forall i :: 0 <= i < |s.sessions| ==>
      && s.sessions[i].timeIn <= now
      && (s.sessions[i].timeOut.Some? ==>
            s.sessions[i].timeIn <= s.sessions[i].timeOut.value <= now)
  }

  // -------------------------------------------------- counting active rows

  lemma {:induction false} ActiveAtAppend(ss: seq<ClientParking>, x: ClientParking, p: int)
    ensures ActiveAt(ss + [x], p) == ActiveAt(ss, p) + Occupies(x, p)
  {
    if |ss| == 0 {
      assert ss + [x] == [x];
      assert ([x])[1..] == [];
    } else {
      assert (ss + [x])[1..] == ss[1..] + [x];
      ActiveAtAppend(ss[1..], x, p);
    }
  }

  lemma {:induction false} ActiveAtUpdate(ss: seq<ClientParking>, i: int, x: ClientParking, p: int)
    requires 0 <= i < |ss|
    ensures ActiveAt(ss[i := x], p) == ActiveAt(ss, p) - Occupies(ss[i], p) + Occupies(x, p)
  {
    if i == 0 {
      assert ss[i := x][1..] == ss[1..];
    } else {
      assert ss[i := x][1..] == ss[1..][i - 1 := x];
      ActiveAtUpdate(ss[1..], i - 1, x, p);
    }
  }

  lemma {:induction false} ActiveAtUnreferenced(ss: seq<ClientParking>, p: int)
    requires forall i :: 0 <= i < |ss| ==> ss[i].parkingId != p
    ensures ActiveAt(ss, p) == 0
  {
    if |ss| > 0 {
      assert forall i :: 0 <= i < |ss[1..]| ==> ss[1..][i] == ss[i + 1];
      ActiveAtUnreferenced(ss[1..], p);
    }
  }

  // ------------------------------------------------------ derived bounds

  /** `0 <= count_available_places <= count_places` in every valid state. */
  lemma CapacityBounds(s: State, p: int)
    requires Valid(s) && p in s.parkings
    ensures 0 <= s.parkings[p].countAvailablePlaces <= s.parkings[p].countPlaces
  {
  }

  /** An id the service handed out is never rejected as missing. */
  lemma StoredIdsAreTruthy(s: State, cid: int, pid: int)
    requires Valid(s) && cid in s.clients && pid in s.parkings
    ensures IdsGiven(SessionRequest(Present(cid), Present(pid)))
  {
  }

  lemma EmptyValid(now: int)
    ensures Valid(Empty) && UniquePairs(Empty.sessions) && Chronological(Empty, now)
  {
  }

  // -------------------------------------------------------- preservation

  lemma CreateClientPreserves(s: State, req: ClientRequest, now: int)
    requires Valid(s) && Chronological(s, now)
    ensures var s' := CreateClient(s, req).state;
      Valid(s') && Chronological(s', now) && s'.sessions == s.sessions
  {
  }

  lemma CreateParkingPreserves(s: State, req: ParkingRequest, now: int)
    requires Valid(s) && Chronological(s, now)
    ensures var r := CreateParking(s, req);
      && Valid(r.state) && Chronological(r.state, now) && r.state.sessions == s.sessions
      && (r.response.Created? ==>
            && ActiveAt(r.state.sessions, r.response.id) == 0
            && r.state.parkings[r.response.id].countAvailablePlaces
                 == r.state.parkings[r.response.id].countPlaces)
  {
    var r := CreateParking(s, req);
    if r.response.Created? {
      var id := r.response.id;
      assert id !in s.parkings;
      ActiveAtUnreferenced(s.sessions, id);
    }
  }

  lemma EnterIntendedPreserves(s: State, req: SessionRequest, now: int)
    requires Valid(s) && Chronological(s, now)
    ensures var s' := EnterParkingIntended(s, req, now).state;
      Valid(s') && Chronological(s', now)
  {
    var r := EnterParkingIntended(s, req, now);
    if r.response.Entered? {
      var cid, pid := req.clientId.value, req.parkingId.value;
      var ss, s' := s.sessions, r.state;
      var x := NewSession(s, cid, pid, now);
      assert s'.sessions == ss + [x];
      forall i, j | 0 <= i < j < |s'.sessions| && IsActive(s'.sessions[i]) && IsActive(s'.sessions[j])
        ensures s'.sessions[i].clientId != s'.sessions[j].clientId
             || s'.sessions[i].parkingId != s'.sessions[j].parkingId
      {
        if j == |ss| {
          assert !Matches(ss[i], cid, pid);
        }
      }
      forall p | p in s'.parkings
        ensures s'.parkings[p].countAvailablePlaces + ActiveAt(s'.sessions, p) == s'.parkings[p].countPlaces
      {
        ActiveAtAppend(ss, x, p);
      }
    }
  }

  lemma EnterPreserves(s: State, req: SessionRequest, now: int)
    requires Valid(s) && UniquePairs(s.sessions) && Chronological(s, now)
    ensures var s' := EnterParking(s, req, now).state;
      Valid(s') && UniquePairs(s'.sessions) && Chronological(s', now)
  {
    EnterIntendedPreserves(s, req, now);
  }

  lemma ExitPreserves(s: State, req: SessionRequest, now: int)
    requires Valid(s) && Chronological(s, now)
    ensures var s' := ExitParking(s, req, now).state;
      && Valid(s') && Chronological(s', now)
      && (UniquePairs(s.sessions) ==> UniquePairs(s'.sessions))
  {
    var r := ExitParking(s, req, now);
    if r.response.Exited? {
      var cid, pid := req.clientId.value, req.parkingId.value;
      var ss, s' := s.sessions, r.state;
      var i := FindActive(ss, cid, pid).value;
      var x := ss[i].(timeOut := Some(now));
      assert s'.sessions == ss[i := x];
      forall p | p in s'.parkings
        ensures s'.parkings[p].countAvailablePlaces + ActiveAt(s'.sessions, p) == s'.parkings[p].countPlaces
      {
        ActiveAtUpdate(ss, i, x, p);
      }
    }
  }

  /** Every request, as the service handles it, keeps the invariants. */
  lemma HandlePreserves(s: State, req: Request, now: int)
    requires Valid(s) && UniquePairs(s.sessions) && Chronological(s, now)
    ensures var s' := Handle(s, req, now).state;
      Valid(s') && UniquePairs(s'.sessions) && Chronological(s', now)
  {
    match req
    case NewClient(c) => CreateClientPreserves(s, c, now);
    case NewParking(p) => CreateParkingPreserves(s, p, now);
    case Enter(e) => EnterPreserves(s, e, now);
    case Exit(e) => ExitPreserves(s, e, now);
  }

  // ------------------------------------------------------------ histories

  /** The tables after handling `trace` in order, each request at its time. */
  function Replay(s: State, trace: seq<(Request, int)>): State
    decreases |trace|
  {
    if |trace| == 0 then s
    else Replay(Handle(s, trace[0].0, trace[0].1).state, trace[1..])
  }

  /** Request times never go back, and none is before `start`. */
  ghost predicate MonotoneFrom(trace: seq<(Request, int)>, start: int)
  {
    && (forall i :: 0 <= i < |trace| ==> start <= trace[i].1)
    && (forall i, j :: 0 <= i < j < |trace| ==> trace[i].1 <= trace[j].1)
  }

  lemma ChronologicalLater(s: State, t: int, t': int)
    requires Chronological(s, t) && t <= t'
    ensures Chronological(s, t')
  {
  }

  lemma {:induction false} ReplayPreserves(s: State, trace: seq<(Request, int)>, start: int)
    requires Valid(s) && UniquePairs(s.sessions) && Chronological(s, start)
    requires MonotoneFrom(trace, start)
    ensures var s' := Replay(s, trace);
      && Valid(s') && UniquePairs(s'.sessions)
      && (forall i :: 0 <= i < |s'.sessions| && s'.sessions[i].timeOut.Some? ==>
            s'.sessions[i].timeIn <= s'.sessions[i].timeOut.value)
    decreases |trace|
  {
    if |trace| == 0 {
    } else {
      var now := trace[0].1;
      ChronologicalLater(s, start, now);
      HandlePreserves(s, trace[0].0, now);
      var s1 := Handle(s, trace[0].0, now).state;
      assert MonotoneFrom(trace[1..], now) by {
        forall i | 0 <= i < |trace[1..]| ensures now <= trace[1..][i].1 {
          assert trace[1..][i] == trace[i + 1];
        }
      }
      ReplayPreserves(s1, trace[1..], now);
    }
  }

  /** Every state the service can reach from the empty database by requests
      at non-decreasing times satisfies the invariants; in particular every
      parking has `0 <= count_available_places <= count_places`, at most one
      session per pair is active, at most one row exists per pair, and every
      closed session ends no earlier than it started. */
  lemma ReachableValid(trace: seq<(Request, int)>)
    requires forall i, j :: 0 <= i < j < |trace| ==> trace[i].1 <= trace[j].1
    ensures var s := Replay(Empty, trace);
      && Valid(s) && UniquePairs(s.sessions)
      && (forall p :: p in s.parkings ==>
            0 <= s.parkings[p].countAvailablePlaces <= s.parkings[p].countPlaces)
      && (forall i :: 0 <= i < |s.sessions| && s.sessions[i].timeOut.Some? ==>
            s.sessions[i].timeIn <= s.sessions[i].timeOut.value)
  {
    var start := if |trace| == 0 then 0 else trace[0].1;
    EmptyValid(start);
    ReplayPreserves(Empty, trace, start);
  }

  // ------------------------------------------------------ lifecycle facts

  /** In a valid state the unchecked parking lookup of an exit never fails:
      a session's parking always exists. */
  lemma ExitNeverCrashes(s: State, req: SessionRequest, now: int)
    requires Valid(s)
    ensures ExitParking(s, req, now).response != Failed(MissingParkingRecord)
  {
  }

  /** Exit adds one free place without a cap, yet in a valid state the
      counter stays within capacity. */
  lemma ExitWithinCapacity(s: State, req: SessionRequest, now: int)
    requires Valid(s) && Chronological(s, now)
    requires ExitParking(s, req, now).response.Exited?
    ensures var p := ExitParking(s, req, now).state.parkings[req.parkingId.value];
      p.countAvailablePlaces <= p.countPlaces
  {
    ExitPreserves(s, req, now);
  }

  /** An entry followed by an exit of the same pair by a client with a card
      returns the parkings to what they were; the session log keeps the
      closed session. */
  lemma EnterThenExitRestores(s: State, req: SessionRequest, t1: int, t2: int)
    requires Valid(s)
    requires EnterParkingIntended(s, req, t1).response.Entered?
    requires HasCard(s.clients[req.clientId.value])
    ensures var s1 := EnterParkingIntended(s, req, t1).state;
      var r2 := ExitParking(s1, req, t2);
      && r2.response.Exited?
      && r2.state.parkings == s.parkings
      && r2.state.clients == s.clients
      && r2.state.sessions ==
           s.sessions + [NewSession(s, req.clientId.value, req.parkingId.value, t1).(timeOut := Some(t2))]
  {
    var cid, pid := req.clientId.value, req.parkingId.value;
    var s1 := EnterParkingIntended(s, req, t1).state;
    var n := |s.sessions|;
    var x := NewSession(s, cid, pid, t1);
    assert s1.sessions[n] == x;
    assert HasActive(s1.sessions, cid, pid);
    var k := FindActive(s1.sessions, cid, pid).value;
    assert k == n;
    var s2 := ExitParking(s1, req, t2).state;
    assert s2.sessions == s.sessions + [x.(timeOut := Some(t2))];
  }

  /** Without a usable card the exit is refused and the place stays taken. */
  lemma EnterThenExitWithoutCard(s: State, req: SessionRequest, t1: int, t2: int)
    requires EnterParkingIntended(s, req, t1).response.Entered?
    requires !HasCard(s.clients[req.clientId.value])
    ensures var s1 := EnterParkingIntended(s, req, t1).state;
      var r2 := ExitParking(s1, req, t2);
      && r2.response == Failed(NoCreditCard)
      && r2.state.parkings[req.parkingId.value].countAvailablePlaces ==
           s.parkings[req.parkingId.value].countAvailablePlaces - 1
  {
    var s1 := EnterParkingIntended(s, req, t1).state;
    assert s1.sessions[|s.sessions|] == NewSession(s, req.clientId.value, req.parkingId.value, t1);
  }

  /** Re-entering with an active session is refused as a duplicate. */
  lemma EnterTwiceIsDuplicate(s: State, req: SessionRequest, t1: int, t2: int)
    requires Valid(s)
    requires EnterParkingIntended(s, req, t1).response.Entered?
    requires s.parkings[req.parkingId.value].countAvailablePlaces > 1
    ensures EnterParkingIntended(EnterParkingIntended(s, req, t1).state, req, t2).response == Failed(AlreadyParked)
  {
    var s1 := EnterParkingIntended(s, req, t1).state;
    assert s1.sessions[|s.sessions|] == NewSession(s, req.clientId.value, req.parkingId.value, t1);
  }
}
