/** The three record kinds of the parking service (client, parking lot,
    client-parking session), the request-member shape they are built from,
    and the table-level rules the database enforces when a change is committed.
 */
module Models {

  /** A nullable column value: `None` is SQL NULL. */
  datatype Option<+T> = None | Some(value: T)

  /** One member of a JSON request body: the key is missing, the key is
      present with `null`, or the key carries a value. */
  datatype Field<+T> = Absent | Null | Present(value: T)

  /** The column value a present request member is stored as. */
  function Stored<T>(f: Field<T>): (o: Option<T>)
    requires !f.Absent?
    ensures o.Some? <==> f.Present?
    ensures o.Some? ==> o.value == f.value
  {
    match f
    case Null => None
    case Present(v) => Some(v)
  }

  /** Python truthiness of an id read with `data.get(...)`: a missing key,
      `null` and `0` are all falsy. */
  predicate Truthy(f: Field<int>)
  {
    f.Present? && f.value != 0
  }

  /** A client row; `name` and `surname` are NOT NULL, the other two
      columns are nullable. The row's id is its key in `State.clients`. */
  datatype Client = Client(
    name: string,
    surname: string,
    creditCard: Option<string>,
    carNumber: Option<string>)

  /** A parking row; `address` and both counters are NOT NULL, the
      `opened` column (`isOpened`, since `opened` is a keyword here) is
      nullable with default true, though the service only ever stores a
      boolean in it. The row's id is its key in `State.parkings`. */
  datatype Parking = Parking(
    address: string,
    isOpened: Option<bool>,
    countPlaces: int,
    countAvailablePlaces: int)

  /** A client-parking session row. Times are abstract instants; a NULL
      `timeOut` marks the session as active. */
  datatype ClientParking = ClientParking(
    id: int,
    clientId: int,
    parkingId: int,
    timeIn: int,
    timeOut: Option<int>)

  /** The persisted tables. Session rows are kept in insertion (rowid)
      order; the counters hold the id the next inserted row receives
      (rows are never deleted, so this is SQLite's `max(rowid) + 1`). */
  datatype State = State(
    clients: map<int, Client>,
    parkings: map<int, Parking>,
    sessions: seq<ClientParking>,
    nextClientId: int,
    nextParkingId: int,
    nextSessionId: int)

  /** The empty database. */
  const Empty: State := State(map[], map[], [], 1, 1, 1)

  predicate IsActive(cp: ClientParking)
  {
    cp.timeOut.None?
  }

  /** `not parking.opened` is false only for a stored `True`. */
  predicate IsOpen(p: Parking)
  {
    p.isOpened == Some(true)
  }

  /** `not client.credit_card` is false only for a non-null, non-empty card. */
  predicate HasCard(c: Client)
  {
    c.creditCard.Some? && c.creditCard.value != ""
  }

  /** The row filter `client_id=…, parking_id=…, time_out=None`. */
  predicate Matches(cp: ClientParking, clientId: int, parkingId: int)
  {
    cp.clientId == clientId && cp.parkingId == parkingId && IsActive(cp)
  }

  predicate HasActive(ss: seq<ClientParking>, clientId: int, parkingId: int)
  {
    exists i | 0 <= i < |ss| :: Matches(ss[i], clientId, parkingId)
  }

  /** Some row, active or closed, exists for the pair. */
  predicate HasRow(ss: seq<ClientParking>, clientId: int, parkingId: int)
  {
    exists i | 0 <= i < |ss| :: ss[i].clientId == clientId && ss[i].parkingId == parkingId
  }

  /** The table constraint `UniqueConstraint("client_id", "parking_id")`:
      no two rows share a pair, whether open or closed. */
  predicate UniquePairs(ss: seq<ClientParking>)
  {
    forall i, j | 0 <= i < j < |ss| ::
      ss[i].clientId != ss[j].clientId || ss[i].parkingId != ss[j].parkingId
  }

  /** On a table that meets the unique constraint, appending a row keeps it
      exactly when no row, open or closed, already has the new row's pair. */
  lemma AppendUnique(ss: seq<ClientParking>, x: ClientParking)
    ensures UniquePairs(ss) ==> (UniquePairs(ss + [x]) <==> !HasRow(ss, x.clientId, x.parkingId))
  {
    if UniquePairs(ss) && HasRow(ss, x.clientId, x.parkingId) {
      var i :| 0 <= i < |ss| && ss[i].clientId == x.clientId && ss[i].parkingId == x.parkingId;
      assert (ss + [x])[i] == ss[i] && (ss + [x])[|ss|] == x;
    }
  }

  /** The application-level rule: no two ACTIVE rows share a pair. */
  predicate AtMostOneActive(ss: seq<ClientParking>)
  {
    forall i, j | 0 <= i < j < |ss| && IsActive(ss[i]) && IsActive(ss[j]) ::
      ss[i].clientId != ss[j].clientId || ss[i].parkingId != ss[j].parkingId
  }

  /** The first row, from index `k` on, that the active-session filter
      selects (`.first()` in rowid order). */
  function FindActiveFrom(ss: seq<ClientParking>, clientId: int, parkingId: int, k: nat): (r: Option<nat>)
    requires k <= |ss|
    ensures r.Some? ==> k <= r.value < |ss| && Matches(ss[r.value], clientId, parkingId)
    ensures r.Some? ==> forall j :: k <= j < r.value ==> !Matches(ss[j], clientId, parkingId)
    ensures r.None? ==> forall j :: k <= j < |ss| ==> !Matches(ss[j], clientId, parkingId)
    decreases |ss| - k
  {
    if k == |ss| then None
    else if Matches(ss[k], clientId, parkingId) then Some(k)
    else FindActiveFrom(ss, clientId, parkingId, k + 1)
  }

  function FindActive(ss: seq<ClientParking>, clientId: int, parkingId: int): (r: Option<nat>)
    ensures r.Some? <==> HasActive(ss, clientId, parkingId)
    ensures r.Some? ==> r.value < |ss| && Matches(ss[r.value], clientId, parkingId)
    ensures r.Some? ==> forall j :: 0 <= j < r.value ==> !Matches(ss[j], clientId, parkingId)
  {
    FindActiveFrom(ss, clientId, parkingId, 0)
  }

  /** 1 when the row is an active session at parking `parkingId`, else 0. */
  function Occupies(cp: ClientParking, parkingId: int): nat
  {
    if IsActive(cp) && cp.parkingId == parkingId then 1 else 0
  }

  /** Number of active sessions at parking `parkingId`. */
  function ActiveAt(ss: seq<ClientParking>, parkingId: int): nat
  {
    if |ss| == 0 then 0 else Occupies(ss[0], parkingId) + ActiveAt(ss[1..], parkingId)
  }
}
