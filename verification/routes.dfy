/** The four state-changing request handlers of the parking service, each a
    pure step from the persisted tables to a reply carrying the tables after
    the request and what the caller is answered. A failed request leaves the
    tables as they were: the handled errors return before any write, and an
    unhandled exception rolls the transaction back.
 */
module Routes {
  import opened Models
  import opened Errors

  /** Body of `POST /clients`. */
  datatype ClientRequest = ClientRequest(
    name: Field<string>,
    surname: Field<string>,
    creditCard: Field<string>,
    carNumber: Field<string>)

  /** Body of `POST /parkings`. */
  datatype ParkingRequest = ParkingRequest(
    address: Field<string>,
    countPlaces: Field<int>,
    isOpened: Field<bool>)

  /** Body of `POST /client_parkings` and `DELETE /client_parkings`. */
  datatype SessionRequest = SessionRequest(clientId: Field<int>, parkingId: Field<int>)

  datatype Response =
    | Created(id: int)   // 201 with the new row's id
    | Entered            // 201
    | Exited             // 200
    | Failed(error: ErrorKind)

  datatype Reply = Reply(state: State, response: Response)

  function StatusOf(r: Response): (code: int)
    ensures r.Failed? ==> code == Status(r.error)
    ensures r.Exited? <==> code == 200
    ensures r.Created? || r.Entered? <==> code == 201
  {
    match r
    case Created(_) => 201
    case Entered => 201
    case Exited => 200
    case Failed(e) => Status(e)
  }

  // ---------------------------------------------------------------- clients

  predicate ClientKeysPresent(req: ClientRequest)
  {
    !req.name.Absent? && !req.surname.Absent? && !req.creditCard.Absent? && !req.carNumber.Absent?
  }

  /** `POST /clients`: all four keys must be in the body (any of them may be
      `null`); a `null` name or surname then fails the NOT NULL columns at
      commit. */
  function CreateClient(s: State, req: ClientRequest): (r: Reply)
    ensures r.response.Failed? ==> r.state == s
    ensures r.response == Failed(MissingFields) <==> !ClientKeysPresent(req)
    ensures r.response == Failed(IntegrityViolation) <==>
              ClientKeysPresent(req) && (req.name.Null? || req.surname.Null?)
    ensures r.response.Created? <==>
              ClientKeysPresent(req) && req.name.Present? && req.surname.Present?
    ensures r.response.Created? || r.response == Failed(MissingFields) || r.response == Failed(IntegrityViolation)
    ensures r.response.Created? ==>
              && r.response.id == s.nextClientId
              && r.state.clients == s.clients[r.response.id := Client(
                   req.name.value, req.surname.value, Stored(req.creditCard), Stored(req.carNumber))]
              && r.state.nextClientId == s.nextClientId + 1
              && r.state == s.(clients := r.state.clients, nextClientId := r.state.nextClientId)
  {
    if !ClientKeysPresent(req) then
      Reply(s, Failed(MissingFields))
    else if req.name.Null? || req.surname.Null? then
      Reply(s, Failed(IntegrityViolation))
    else
      var id := s.nextClientId;
      var c := Client(req.name.value, req.surname.value, Stored(req.creditCard), Stored(req.carNumber));
      Reply(s.(clients := s.clients[id := c], nextClientId := id + 1), Created(id))
  }

  // --------------------------------------------------------------- parkings

  /** `data.get("opened", True)`, as stored. A missing key gives `True`; an
      explicit `null` is left out of the INSERT by the ORM, because the
      column has a default, so the default `True` is stored as well. */
  function OpenedColumn(f: Field<bool>): (o: Option<bool>)
    ensures !f.Present? ==> o == Some(true)
    ensures f.Present? ==> o == Some(f.value)
  {
    if f.Present? then Some(f.value) else Some(true)
  }

  /** `POST /parkings`: `address` and `count_places` must be in the body; a
      `null` count fails the comparison with 0, a count `<= 0` is refused,
      and a `null` address fails the NOT NULL column at commit. Every place
      of a new parking is free. */
  function CreateParking(s: State, req: ParkingRequest): (r: Reply)
    ensures r.response.Failed? ==> r.state == s
    ensures r.response == Failed(MissingFields) <==> req.address.Absent? || req.countPlaces.Absent?
    ensures r.response == Failed(NullComparison) <==> !req.address.Absent? && req.countPlaces.Null?
    ensures r.response == Failed(NonPositiveCapacity) <==>
              !req.address.Absent? && req.countPlaces.Present? && req.countPlaces.value <= 0
    ensures r.response == Failed(IntegrityViolation) <==>
              req.address.Null? && req.countPlaces.Present? && req.countPlaces.value > 0
    ensures r.response.Created? <==>
              req.address.Present? && req.countPlaces.Present? && req.countPlaces.value > 0
    ensures r.response.Created? || r.response.Failed?
    ensures r.response.Created? ==>
              && r.response.id == s.nextParkingId
              && r.response.id in r.state.parkings
              && var p := r.state.parkings[r.response.id];
              && p.address == req.address.value
              && p.countPlaces == req.countPlaces.value
              && p.countAvailablePlaces == p.countPlaces
              && p.isOpened == OpenedColumn(req.isOpened)
              && r.state == s.(parkings := s.parkings[r.response.id := p], nextParkingId := s.nextParkingId + 1)
  {
    if req.address.Absent? || req.countPlaces.Absent? then
      Reply(s, Failed(MissingFields))
    else if req.countPlaces.Null? then
      Reply(s, Failed(NullComparison))
    else if req.countPlaces.value <= 0 then
      Reply(s, Failed(NonPositiveCapacity))
    else if req.address.Null? then
      Reply(s, Failed(IntegrityViolation))
    else
      var id := s.nextParkingId;
      var n := req.countPlaces.value;
      var p := Parking(req.address.value, OpenedColumn(req.isOpened), n, n);
      Reply(s.(parkings := s.parkings[id := p], nextParkingId := id + 1), Created(id))
  }

  // --------------------------------------------------------------- sessions

  predicate IdsGiven(req: SessionRequest)
  {
    Truthy(req.clientId) && Truthy(req.parkingId)
  }

  /** The checks of `POST /client_parkings` that come before the one on
      available places all pass: ids given, both rows found, parking open. */
  predicate CanAttemptEntry(s: State, req: SessionRequest)
  {
    && IdsGiven(req)
    && req.clientId.value in s.clients
    && req.parkingId.value in s.parkings
    && IsOpen(s.parkings[req.parkingId.value])
  }

  /** The session row an entry at time `now` inserts. */
  function NewSession(s: State, clientId: int, parkingId: int, now: int): ClientParking
  {
    ClientParking(s.nextSessionId, clientId, parkingId, now, None)
  }

  /** `POST /client_parkings` as its own checks decide it, in their order:
      falsy ids (400), unknown client (404), unknown parking (404), closed
      (400), no free place (400), already active for the pair (400). On
      success one free place of that parking is taken and one active session
      is appended. The per-pair table constraint is not applied here; see
      `EnterParking`. */
  function EnterParkingIntended(s: State, req: SessionRequest, now: int): (r: Reply)
    ensures r.response.Failed? ==> r.state == s
    ensures r.response.Entered? || r.response.Failed?
    ensures r.response == Failed(MissingIds) <==> !IdsGiven(req)
    ensures r.response == Failed(ClientNotFound) <==>
              IdsGiven(req) && req.clientId.value !in s.clients
    ensures r.response == Failed(ParkingNotFound) <==>
              IdsGiven(req) && req.clientId.value in s.clients && req.parkingId.value !in s.parkings
    ensures r.response == Failed(ParkingClosed) <==>
              && IdsGiven(req) && req.clientId.value in s.clients && req.parkingId.value in s.parkings
              && !IsOpen(s.parkings[req.parkingId.value])
    ensures r.response == Failed(NoAvailablePlaces) <==>
              CanAttemptEntry(s, req) && s.parkings[req.parkingId.value].countAvailablePlaces <= 0
    ensures r.response == Failed(AlreadyParked) <==>
              && CanAttemptEntry(s, req) && s.parkings[req.parkingId.value].countAvailablePlaces > 0
              && HasActive(s.sessions, req.clientId.value, req.parkingId.value)
    ensures r.response.Entered? <==>
              && CanAttemptEntry(s, req) && s.parkings[req.parkingId.value].countAvailablePlaces > 0
              && !HasActive(s.sessions, req.clientId.value, req.parkingId.value)
    ensures r.response.Entered? ==>
              var pid := req.parkingId.value;
              && pid in r.state.parkings
              && r.state.parkings[pid].countAvailablePlaces == s.parkings[pid].countAvailablePlaces - 1
              && r.state.parkings == s.parkings[pid := r.state.parkings[pid]]
              && r.state.parkings[pid] == s.parkings[pid].(countAvailablePlaces := r.state.parkings[pid].countAvailablePlaces)
              && r.state.sessions == s.sessions + [NewSession(s, req.clientId.value, pid, now)]
              && r.state.clients == s.clients
              && r.state.nextClientId == s.nextClientId
              && r.state.nextParkingId == s.nextParkingId
              && r.state.nextSessionId == s.nextSessionId + 1
  {
    if !Truthy(req.clientId) || !Truthy(req.parkingId) then
      Reply(s, Failed(MissingIds))
    else
      var cid := req.clientId.value;
      var pid := req.parkingId.value;
      if cid !in s.clients then
        Reply(s, Failed(ClientNotFound))
      else if pid !in s.parkings then
        Reply(s, Failed(ParkingNotFound))
      else
        var p := s.parkings[pid];
        if !IsOpen(p) then
          Reply(s, Failed(ParkingClosed))
        else if p.countAvailablePlaces <= 0 then
          Reply(s, Failed(NoAvailablePlaces))
        else if FindActive(s.sessions, cid, pid).Some? then
          Reply(s, Failed(AlreadyParked))
        else
          var s' := s.(
            parkings := s.parkings[pid := p.(countAvailablePlaces := p.countAvailablePlaces - 1)],
            sessions := s.sessions + [NewSession(s, cid, pid, now)],
            nextSessionId := s.nextSessionId + 1);
          Reply(s', Entered)
  }

  /** `POST /client_parkings` as written: the route's own checks, followed by
      the commit, at which the table's `UniqueConstraint("client_id",
      "parking_id")` rejects a new row for a pair that already has one, even
      a closed one; the integrity error is not caught (500) and the
      transaction, including the counter decrement, is rolled back. */
  function EnterParking(s: State, req: SessionRequest, now: int): (r: Reply)
    ensures r.response.Failed? ==> r.state == s
    ensures r.response == Failed(IntegrityViolation) <==>
              EnterParkingIntended(s, req, now).response.Entered?
              && !UniquePairs(EnterParkingIntended(s, req, now).state.sessions)
    ensures r.response != Failed(IntegrityViolation) ==> r == EnterParkingIntended(s, req, now)
    ensures UniquePairs(s.sessions) ==> UniquePairs(r.state.sessions)
    ensures UniquePairs(s.sessions) ==>
              (r.response == Failed(IntegrityViolation) <==>
                 EnterParkingIntended(s, req, now).response.Entered?
                 && HasRow(s.sessions, req.clientId.value, req.parkingId.value))
  {
    var r := EnterParkingIntended(s, req, now);
    if !r.response.Entered? then
      r
    else
      AppendUnique(s.sessions, NewSession(s, req.clientId.value, req.parkingId.value, now));
      if UniquePairs(r.state.sessions) then r else Reply(s, Failed(IntegrityViolation))
  }

  /** The checks of `DELETE /client_parkings` that come before the parking
      lookup all pass: ids given, an active session for the pair, and the
      client has a card. */
  predicate CanAttemptExit(s: State, req: SessionRequest)
  {
    && IdsGiven(req)
    && HasActive(s.sessions, req.clientId.value, req.parkingId.value)
    && req.clientId.value in s.clients
    && HasCard(s.clients[req.clientId.value])
  }

  /** `DELETE /client_parkings`, in its order: falsy ids (400), no active
      session for the pair (404), client missing or without a card (400).
      Then the parking is looked up without a check, so a missing parking
      raises (500); otherwise one place is freed, with no cap at
      `count_places`, and the first active session of the pair is closed at
      `now`. */
  function ExitParking(s: State, req: SessionRequest, now: int): (r: Reply)
    ensures r.response.Failed? ==> r.state == s
    ensures r.response.Exited? || r.response.Failed?
    ensures r.response == Failed(MissingIds) <==> !IdsGiven(req)
    ensures r.response == Failed(NoActiveSession) <==>
              IdsGiven(req) && !HasActive(s.sessions, req.clientId.value, req.parkingId.value)
    ensures r.response == Failed(NoCreditCard) <==>
              && IdsGiven(req) && HasActive(s.sessions, req.clientId.value, req.parkingId.value)
              && (req.clientId.value !in s.clients || !HasCard(s.clients[req.clientId.value]))
    ensures r.response == Failed(MissingParkingRecord) <==>
              CanAttemptExit(s, req) && req.parkingId.value !in s.parkings
    ensures r.response.Exited? <==> CanAttemptExit(s, req) && req.parkingId.value in s.parkings
    ensures r.response.Exited? ==>
              var pid := req.parkingId.value;
              var i := FindActive(s.sessions, req.clientId.value, pid).value;
              && pid in r.state.parkings
              && r.state.parkings[pid].countAvailablePlaces == s.parkings[pid].countAvailablePlaces + 1
              && r.state.parkings == s.parkings[pid := r.state.parkings[pid]]
              && r.state.parkings[pid] == s.parkings[pid].(countAvailablePlaces := r.state.parkings[pid].countAvailablePlaces)
              && |r.state.sessions| == |s.sessions|
              && r.state.sessions[i] == s.sessions[i].(timeOut := Some(now))
              && (forall j :: 0 <= j < |s.sessions| && j != i ==> r.state.sessions[j] == s.sessions[j])
              && r.state.clients == s.clients
              && r.state.nextClientId == s.nextClientId
              && r.state.nextParkingId == s.nextParkingId
              && r.state.nextSessionId == s.nextSessionId
  {
    if !Truthy(req.clientId) || !Truthy(req.parkingId) then
      Reply(s, Failed(MissingIds))
    else
      var cid := req.clientId.value;
      var pid := req.parkingId.value;
      match FindActive(s.sessions, cid, pid)
      case None => Reply(s, Failed(NoActiveSession))
      case Some(i) =>
        if cid !in s.clients || !HasCard(s.clients[cid]) then
          Reply(s, Failed(NoCreditCard))
        else if pid !in s.parkings then
          Reply(s, Failed(MissingParkingRecord))
        else
          var p := s.parkings[pid];
          var s' := s.(
            parkings := s.parkings[pid := p.(countAvailablePlaces := p.countAvailablePlaces + 1)],
            sessions := s.sessions[i := s.sessions[i].(timeOut := Some(now))]);
          Reply(s', Exited)
  }

  // ---------------------------------------------------------------- service

  datatype Request =
    | NewClient(client: ClientRequest)
    | NewParking(parking: ParkingRequest)
    | Enter(entry: SessionRequest)
    | Exit(exit: SessionRequest)

  /** One request handled at time `now` by the service as written. */
  function Handle(s: State, req: Request, now: int): (r: Reply)
    ensures r.response.Failed? ==> r.state == s
  {
    match req
    case NewClient(c) => CreateClient(s, c)
    case NewParking(p) => CreateParking(s, p)
    case Enter(e) => EnterParking(s, e, now)
    case Exit(e) => ExitParking(s, e, now)
  }
}
