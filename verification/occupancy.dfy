/** Occupancy counters of floors and buildings.

    A floor keeps, next to its list of rooms, how many of them are available,
    deposited, rented or about to reach the end of their contract; a building
    (a "motel room" in the code) keeps the same counters for all its floors.
    The room controller bumps these counters by hand whenever a room is
    created, edited, deleted or changes status, and sometimes recounts them
    from the rooms. This module models each of those updates as a pure
    function on counter records, and states how each one relates to the
    rooms the counters are supposed to count.
 */
module Occupancy {
  import opened Results

  /** Status of a room. `Other` carries any status string besides the four
      the code names (the status is free text in requests); a status read by
      `ParseStatus` never gives `Other` one of those four names. */
  datatype Status = Available | Deposited | Rented | SoonExpireContract | Other(name: string)

  /** The status string stored on a room. */
  function StatusName(s: Status): string {
    match s
    case Available => "available"
    case Deposited => "deposited"
    case Rented => "rented"
    case SoonExpireContract => "soonExpireContract"
    case Other(name) => name
  }

  /** `Other` is kept for the strings the code does not name. */
  predicate Canonical(s: Status) {
    s.Other? ==> s.name != "available" && s.name != "deposited" && s.name != "rented"
                 && s.name != "soonExpireContract"
  }

  /** A stored status string read as a status. */
  function ParseStatus(t: string): (s: Status)
    ensures Canonical(s) && StatusName(s) == t
  {
    if t == "available" then Available
    else if t == "deposited" then Deposited
    else if t == "rented" then Rented
    else if t == "soonExpireContract" then SoonExpireContract
    else Other(t)
  }

  /** Reading back a status's name gives the status exactly when the status
      is canonical. */
  lemma ParseStatusName(s: Status)
    ensures ParseStatus(StatusName(s)) == s <==> Canonical(s)
  {
  }

  /** The counter fields of a floor or building record. */
  datatype Counter = AvailableRoom | DepositedRoom | RentedRoom | SoonExpireContractRoom

  datatype Counters = Counters(
    totalRoom: int,
    availableRoom: int,
    depositedRoom: int,
    rentedRoom: int,
    soonExpireContractRoom: int)

  function Get(c: Counters, k: Counter): int {
    match k
    case AvailableRoom => c.availableRoom
    case DepositedRoom => c.depositedRoom
    case RentedRoom => c.rentedRoom
    case SoonExpireContractRoom => c.soonExpireContractRoom
  }

  /** Assigns one counter field, as `{ availableRoom: v }` in an update does. */
  function Set(c: Counters, k: Counter, v: int): (r: Counters)
    ensures Get(r, k) == v && r.totalRoom == c.totalRoom
    ensures forall j :: j != k ==> Get(r, j) == Get(c, j)
  {
    match k
    case AvailableRoom => c.(availableRoom := v)
    case DepositedRoom => c.(depositedRoom := v)
    case RentedRoom => c.(rentedRoom := v)
    case SoonExpireContractRoom => c.(soonExpireContractRoom := v)
  }

  function Bump(c: Counters, k: Counter, delta: int): Counters {
    Set(c, k, Get(c, k) + delta)
  }

  /** The status whose rooms a counter counts. */
  function StatusOf(k: Counter): Status {
    match k
    case AvailableRoom => Available
    case DepositedRoom => Deposited
    case RentedRoom => Rented
    case SoonExpireContractRoom => SoonExpireContract
  }

  /** The field `${status}Room` of a status, if the record has one. */
  function FieldOf(s: Status): (r: Option<Counter>)
    ensures r.Some? ==> StatusOf(r.value) == s
    ensures s.Other? <==> r.None?
  {
    match s
    case Available => Some(AvailableRoom)
    case Deposited => Some(DepositedRoom)
    case Rented => Some(RentedRoom)
    case SoonExpireContract => Some(SoonExpireContractRoom)
    case Other(_) => None
  }

  /** The three statuses the status-change endpoint moves rooms between. */
  predicate Tracked(s: Status) {
    s.Available? || s.Deposited? || s.Rented?
  }

  predicate TrackedCounter(k: Counter) {
    !k.SoonExpireContractRoom?
  }

  function Occupied(c: Counters): int {
    c.availableRoom + c.depositedRoom + c.rentedRoom
  }

  function Ind(b: bool): int {
    if b then 1 else 0
  }

  /** Number of rooms with status `s`. */
  function CountStatus(rooms: seq<Status>, s: Status): nat {
    if |rooms| == 0 then 0
    else CountStatus(rooms[..|rooms| - 1], s) + Ind(rooms[|rooms| - 1] == s)
  }

  /** The counters agree with the floor's rooms. */
  predicate Consistent(c: Counters, rooms: seq<Status>) {
    && c.totalRoom == |rooms|
    && forall k :: Get(c, k) == CountStatus(rooms, StatusOf(k))
  }

  /** The counters for available, deposited and rented rooms, and the total,
      agree with the floor's rooms. */
  predicate ConsistentTracked(c: Counters, rooms: seq<Status>) {
    && c.totalRoom == |rooms|
    && forall k :: TrackedCounter(k) ==> Get(c, k) == CountStatus(rooms, StatusOf(k))
  }

  /** Sum of one counter over a building's floors (`lodash.sumBy`). */
  function SumBy(floors: seq<Counters>, k: Counter): int {
    if |floors| == 0 then 0
    else SumBy(floors[..|floors| - 1], k) + Get(floors[|floors| - 1], k)
  }

  /** A building's counters are the sums of its floors' counters. */
  predicate BuildingConsistent(building: Counters, floors: seq<Counters>) {
    forall k :: TrackedCounter(k) ==> Get(building, k) == SumBy(floors, k)
  }

  lemma {:induction false} CountStatusBounds(rooms: seq<Status>, s: Status)
    ensures CountStatus(rooms, s) <= |rooms|
  {
    if |rooms| > 0 {
      CountStatusBounds(rooms[..|rooms| - 1], s);
    }
  }

  lemma {:induction false} CountStatusAppend(rooms: seq<Status>, x: Status, s: Status)
    ensures CountStatus(rooms + [x], s) == CountStatus(rooms, s) + Ind(x == s)
  {
    assert (rooms + [x])[..|rooms|] == rooms;
  }

  /** Changing the status of one room moves it between two counts. */
  lemma {:induction false} CountStatusUpdate(rooms: seq<Status>, i: int, x: Status, s: Status)
    requires 0 <= i < |rooms|
    ensures CountStatus(rooms[i := x], s) == CountStatus(rooms, s) - Ind(rooms[i] == s) + Ind(x == s)
    decreases |rooms|
  {
    var n := |rooms|;
    var u := rooms[i := x];
    assert u[..n - 1] == if i == n - 1 then rooms[..n - 1] else rooms[..n - 1][i := x];
    if i < n - 1 {
      CountStatusUpdate(rooms[..n - 1], i, x, s);
    }
  }

  /** Removing one room removes it from exactly its own count. */
  lemma {:induction false} CountStatusRemove(rooms: seq<Status>, i: int, s: Status)
    requires 0 <= i < |rooms|
    ensures CountStatus(rooms[..i] + rooms[i + 1..], s) == CountStatus(rooms, s) - Ind(rooms[i] == s)
    decreases |rooms|
  {
    var n := |rooms|;
    if i == n - 1 {
      assert rooms[..i] + rooms[i + 1..] == rooms[..n - 1];
    } else {
      var init := rooms[..n - 1];
      CountStatusRemove(init, i, s);
      assert rooms[..i] + rooms[i + 1..] == (init[..i] + init[i + 1..]) + [rooms[n - 1]];
      CountStatusAppend(init[..i] + init[i + 1..], rooms[n - 1], s);
    }
  }

  lemma {:induction false} SumByUpdate(floors: seq<Counters>, i: int, f: Counters, k: Counter)
    requires 0 <= i < |floors|
    ensures SumBy(floors[i := f], k) == SumBy(floors, k) - Get(floors[i], k) + Get(f, k)
    decreases |floors|
  {
    var n := |floors|;
    var u := floors[i := f];
    assert u[..n - 1] == if i == n - 1 then floors[..n - 1] else floors[..n - 1][i := f];
    if i < n - 1 {
      SumByUpdate(floors[..n - 1], i, f, k);
    }
  }

  // ---------------------------------------------------------------------
  // Status change of one room (editRoomByIdStatus)
  // ---------------------------------------------------------------------

  /** What the status-change endpoint is asked for: a room status, or one of
      the two payment markers the endpoint also accepts in the same field. */
  datatype StatusRequest = SetStatus(status: Status) | MonthlyPayment | RoomedPayment

  /** The `status` field of a status-change request as the endpoint reads
      it: the two payment markers first, any other string as a status. */
  function ParseRequest(t: string): (r: StatusRequest)
    ensures r.SetStatus? ==>
              Canonical(r.status) && StatusName(r.status) == t && t != "monthlyPayment" && t != "roomedPayment"
    ensures r.MonthlyPayment? <==> t == "monthlyPayment"
    ensures r.RoomedPayment? <==> t == "roomedPayment"
  {
    if t == "monthlyPayment" then MonthlyPayment
    else if t == "roomedPayment" then RoomedPayment
    else SetStatus(ParseStatus(t))
  }

  /** The status the room is stored with afterwards. Both payment markers
      leave it rented. */
  function StatusAfterEdit(req: StatusRequest): (r: Status)
    ensures req.SetStatus? ==> r == req.status
    ensures !req.SetStatus? ==> r == Rented
  {
    match req
    case SetStatus(s) => s
    case MonthlyPayment => Rented
    case RoomedPayment => Rented
  }

  /** The floor's counters after a status change, branch by branch as the
      endpoint writes them. */
  function EditStatusFloor(floor: Counters, prev: Status, req: StatusRequest): Counters {
    match req
    case SetStatus(Deposited) =>
      (match prev
       case Available => floor.(availableRoom := floor.availableRoom - 1, depositedRoom := floor.depositedRoom + 1)
       case Deposited => floor
       case Rented => floor.(rentedRoom := floor.rentedRoom - 1, depositedRoom := floor.depositedRoom + 1)
       case _ => floor.(depositedRoom := floor.depositedRoom + 1))
    case SetStatus(Rented) =>
      (match prev
       case Available => floor.(availableRoom := floor.availableRoom - 1, rentedRoom := floor.rentedRoom + 1)
       case Deposited => floor.(depositedRoom := floor.depositedRoom - 1, rentedRoom := floor.rentedRoom + 1)
       case Rented => floor
       case _ => floor.(rentedRoom := floor.rentedRoom + 1))
    case SetStatus(Available) =>
      (match prev
       case Available => floor
       case Deposited => floor.(depositedRoom := floor.depositedRoom - 1, availableRoom := floor.availableRoom + 1)
       case Rented => floor.(rentedRoom := floor.rentedRoom - 1, availableRoom := floor.availableRoom + 1)
       case _ => floor.(availableRoom := floor.availableRoom + 1))
    case MonthlyPayment => floor.(rentedRoom := floor.rentedRoom + 1)
    case RoomedPayment => floor
    case SetStatus(_) =>
      (match prev
       case Available => floor.(availableRoom := floor.availableRoom - 1)
       case Deposited => floor.(depositedRoom := floor.depositedRoom - 1)
       case Rented => floor.(rentedRoom := floor.rentedRoom - 1)
       case _ => floor)
  }

  /** The building's counters after a status change, as written: only a
      room leaving `available` for `deposited` or `rented` reaches the
      building. */
  function EditStatusBuilding(building: Counters, prev: Status, req: StatusRequest): Counters {
    if prev == Available && req == SetStatus(Deposited) then
      building.(availableRoom := building.availableRoom - 1, depositedRoom := building.depositedRoom + 1)
    else if prev == Available && req == SetStatus(Rented) then
      building.(availableRoom := building.availableRoom - 1, rentedRoom := building.rentedRoom + 1)
    else building
  }

  /** Which requests leave the floor's counters agreeing with its rooms once
      the edited room carries its new stored status: every plain status
      change does; the monthly-payment marker only for a room outside the
      three tracked counts, because it adds a rented room without taking one
      away; the roomed-payment marker only for a room that was already
      rented, because it moves no counter at all. */
  lemma StatusAfterEditMatchesFloor(floor: Counters, rooms: seq<Status>, i: int, req: StatusRequest)
    requires ConsistentTracked(floor, rooms) && 0 <= i < |rooms|
    ensures ConsistentTracked(EditStatusFloor(floor, rooms[i], req), rooms[i := StatusAfterEdit(req)])
            <==> || req.SetStatus?
                 || (req.MonthlyPayment? && !Tracked(rooms[i]))
                 || (req.RoomedPayment? && rooms[i] == Rented)
  {
    var prev := rooms[i];
    var next := StatusAfterEdit(req);
    var after := EditStatusFloor(floor, prev, req);
    var u := rooms[i := next];
    if req.SetStatus? {
      StatusChangeKeepsFloorConsistent(floor, rooms, i, req.status);
    } else if req.MonthlyPayment? && !Tracked(prev) {
      forall k | TrackedCounter(k)
        ensures Get(after, k) == CountStatus(u, StatusOf(k))
      {
        CountStatusUpdate(rooms, i, next, StatusOf(k));
      }
    } else if req.MonthlyPayment? {
      var k := FieldOf(prev).value;
      CountStatusUpdate(rooms, i, next, StatusOf(k));
      assert Get(after, k) != CountStatus(u, StatusOf(k));
    } else if prev == Rented {
      assert u == rooms;
    } else {
      CountStatusUpdate(rooms, i, next, Rented);
      assert Get(after, RentedRoom) != CountStatus(u, Rented);
    }
  }

  /** Between the three tracked statuses, a status change moves exactly one
      room: nothing changes when the status stays, otherwise the prev count
      loses one and the new count gains one, so their sum is kept. */
  lemma StatusChangeMovesOneRoom(floor: Counters, prev: Status, next: Status)
    requires Tracked(prev) && Tracked(next)
    ensures prev == next ==> EditStatusFloor(floor, prev, SetStatus(next)) == floor
    ensures prev != next ==>
              EditStatusFloor(floor, prev, SetStatus(next))
              == Bump(Bump(floor, FieldOf(prev).value, -1), FieldOf(next).value, 1)
    ensures Occupied(EditStatusFloor(floor, prev, SetStatus(next))) == Occupied(floor)
  {
  }

  /** For any requested status, each tracked count loses one if it counted
      the room before and gains one if it counts it afterwards; the total and
      the soon-expiring count are left alone. */
  lemma StatusChangeDelta(floor: Counters, prev: Status, next: Status, k: Counter)
    requires TrackedCounter(k)
    ensures Get(EditStatusFloor(floor, prev, SetStatus(next)), k)
            == Get(floor, k) - Ind(prev == StatusOf(k)) + Ind(next == StatusOf(k))
    ensures EditStatusFloor(floor, prev, SetStatus(next)).totalRoom == floor.totalRoom
    ensures EditStatusFloor(floor, prev, SetStatus(next)).soonExpireContractRoom == floor.soonExpireContractRoom
  {
  }

  /** Floor counters that agree with the floor's rooms still agree after one
      of those rooms changes status through the endpoint. */
  lemma StatusChangeKeepsFloorConsistent(floor: Counters, rooms: seq<Status>, i: int, next: Status)
    requires ConsistentTracked(floor, rooms)
    requires 0 <= i < |rooms|
    ensures ConsistentTracked(EditStatusFloor(floor, rooms[i], SetStatus(next)), rooms[i := next])
  {
    var r := EditStatusFloor(floor, rooms[i], SetStatus(next));
    forall k | TrackedCounter(k)
      ensures Get(r, k) == CountStatus(rooms[i := next], StatusOf(k))
    {
      StatusChangeDelta(floor, rooms[i], next, k);
      CountStatusUpdate(rooms, i, next, StatusOf(k));
    }
  }

  /** The monthly-payment marker counts the room as rented once more,
      whatever its status was: a room that was already rented is then counted
      twice. */
  lemma MonthlyPaymentAddsRentedRoom(floor: Counters, prev: Status)
    ensures EditStatusFloor(floor, prev, MonthlyPayment) == Bump(floor, RentedRoom, 1)
    ensures Occupied(EditStatusFloor(floor, prev, MonthlyPayment)) == Occupied(floor) + 1
  {
  }

  /** As written, the building's counters move only for a room that was
      available; every other status change leaves them as they were. */
  lemma BuildingMovesOnlyFromAvailable(building: Counters, prev: Status, req: StatusRequest)
    ensures prev != Available ==> EditStatusBuilding(building, prev, req) == building
    ensures Occupied(EditStatusBuilding(building, prev, req)) == Occupied(building)
  {
  }

  /** A rented room made available again: the floor moves the room from the
      rented to the available count, the building does not, and a building
      that agreed with its floors no longer does. */
  lemma BuildingDriftsOnRentedToAvailable()
    ensures var floor := Counters(1, 0, 0, 1, 0);
            var building := Counters(1, 0, 0, 1, 0);
            && BuildingConsistent(building, [floor])
            && !BuildingConsistent(EditStatusBuilding(building, Rented, SetStatus(Available)),
                                   [EditStatusFloor(floor, Rented, SetStatus(Available))])
  {
    var floor := Counters(1, 0, 0, 1, 0);
    var building := Counters(1, 0, 0, 1, 0);
    var floor' := EditStatusFloor(floor, Rented, SetStatus(Available));
    assert SumBy([floor'], AvailableRoom) == 1 by {
      assert [floor'][..0] == [];
    }
    assert forall k :: SumBy([floor], k) == Get(floor, k) by {
      assert [floor][..0] == [];
    }
  }

  /** The building update the status change evidently intends: the same
      move the floor makes. */
  function EditStatusBuildingCorrected(building: Counters, floor: Counters, prev: Status, req: StatusRequest): Counters {
    var floor' := EditStatusFloor(floor, prev, req);
    building.(
      availableRoom := building.availableRoom + floor'.availableRoom - floor.availableRoom,
      depositedRoom := building.depositedRoom + floor'.depositedRoom - floor.depositedRoom,
      rentedRoom := building.rentedRoom + floor'.rentedRoom - floor.rentedRoom)
  }

  /** With the corrected update a building that agrees with its floors keeps
      agreeing, whichever status change one of its floors goes through. */
  lemma CorrectedBuildingStaysConsistent(building: Counters, floors: seq<Counters>, i: int, prev: Status, req: StatusRequest)
    requires 0 <= i < |floors|
    requires BuildingConsistent(building, floors)
    ensures BuildingConsistent(EditStatusBuildingCorrected(building, floors[i], prev, req),
                               floors[i := EditStatusFloor(floors[i], prev, req)])
  {
    var floor' := EditStatusFloor(floors[i], prev, req);
    forall k | TrackedCounter(k)
      ensures Get(EditStatusBuildingCorrected(building, floors[i], prev, req), k)
              == SumBy(floors[i := floor'], k)
    {
      SumByUpdate(floors, i, floor', k);
    }
  }

  // ---------------------------------------------------------------------
  // Room creation (createRoom)
  // ---------------------------------------------------------------------

  /** The floor's counters after a room with status `s` is added to a floor
      that listed `roomCount` rooms: the total is reset from the room list,
      and the count of a tracked status gains one. */
  function CreateRoomFloor(floor: Counters, roomCount: nat, s: Status): Counters {
    if s == Available then floor.(totalRoom := roomCount + 1, availableRoom := floor.availableRoom + 1)
    else if s == Rented then floor.(totalRoom := roomCount + 1, rentedRoom := floor.rentedRoom + 1)
    else if s == Deposited then floor.(totalRoom := roomCount + 1, depositedRoom := floor.depositedRoom + 1)
    else floor.(totalRoom := roomCount + 1)
  }

  /** The building's total after the room is added: the number of rooms
      listed over all its floors. */
  function BuildingTotalRoom(roomsPerFloor: seq<nat>): nat {
    if |roomsPerFloor| == 0 then 0
    else BuildingTotalRoom(roomsPerFloor[..|roomsPerFloor| - 1]) + roomsPerFloor[|roomsPerFloor| - 1]
  }

  /** Counts that agree with the tracked statuses of the floor's rooms (the
      total need not) agree, total included, once the next room is listed. */
  lemma CreateRoomKeepsFloorConsistent(floor: Counters, rooms: seq<Status>, s: Status)
    requires forall k :: TrackedCounter(k) ==> Get(floor, k) == CountStatus(rooms, StatusOf(k))
    ensures ConsistentTracked(CreateRoomFloor(floor, |rooms|, s), rooms + [s])
  {
    var r := CreateRoomFloor(floor, |rooms|, s);
    var after := rooms + [s];
    CountStatusAppend(rooms, s, Available);
    CountStatusAppend(rooms, s, Deposited);
    CountStatusAppend(rooms, s, Rented);
    assert Get(floor, AvailableRoom) == CountStatus(rooms, Available);
    assert Get(floor, DepositedRoom) == CountStatus(rooms, Deposited);
    assert Get(floor, RentedRoom) == CountStatus(rooms, Rented);
    forall k | TrackedCounter(k)
      ensures Get(r, k) == CountStatus(after, StatusOf(k))
    {
    }
  }

  /** Adding a room to one floor adds exactly one to the building's total. */
  lemma {:induction false} CreateRoomAddsOneToBuilding(roomsPerFloor: seq<nat>, i: int)
    requires 0 <= i < |roomsPerFloor|
    ensures BuildingTotalRoom(roomsPerFloor[i := roomsPerFloor[i] + 1]) == BuildingTotalRoom(roomsPerFloor) + 1
    decreases |roomsPerFloor|
  {
    var n := |roomsPerFloor|;
    var u := roomsPerFloor[i := roomsPerFloor[i] + 1];
    assert u[..n - 1] == if i == n - 1 then roomsPerFloor[..n - 1] else roomsPerFloor[..n - 1][i := roomsPerFloor[i] + 1];
    if i < n - 1 {
      CreateRoomAddsOneToBuilding(roomsPerFloor[..n - 1], i);
    }
  }

  // ---------------------------------------------------------------------
  // Room deletion (deleteRoom)
  // ---------------------------------------------------------------------

  datatype DeleteError =
    | RoomNotExist   // "room.not.exist"
    | RoomIsRented   // "room.is.rented": some contract still refers to the room

  /** The floor's counters after a room is deleted. `room` is the deleted
      room's status, `None` when no room has the id; `contracts` is the number
      of contracts that refer to the room. The deleted room's own counter
      goes down by one, or is reset to zero when any of the available,
      rented or deposited counters is already negative. */
  function DeleteRoom(room: Option<Status>, contracts: nat, floor: Counters): Result<Counters, DeleteError> {
    if room.None? then Err(RoomNotExist)
    else if contracts > 0 then Err(RoomIsRented)
    else
      var f := floor.(totalRoom := floor.totalRoom - 1);
      match FieldOf(room.value)
      case None => Ok(f)
      case Some(k) =>
        if floor.availableRoom < 0 || floor.rentedRoom < 0 || floor.depositedRoom < 0 then Ok(Set(f, k, 0))
        else Ok(Set(f, k, Get(floor, k) - 1))
  }

  /** Counters that agree with the floor's rooms agree with the remaining
      rooms after a room without contracts is deleted. */
  lemma DeleteRoomKeepsFloorConsistent(floor: Counters, rooms: seq<Status>, i: int)
    requires Consistent(floor, rooms)
    requires 0 <= i < |rooms|
    ensures DeleteRoom(Some(rooms[i]), 0, floor).Ok?
    ensures Consistent(DeleteRoom(Some(rooms[i]), 0, floor).value, rooms[..i] + rooms[i + 1..])
  {
    var r := DeleteRoom(Some(rooms[i]), 0, floor).value;
    assert Get(floor, AvailableRoom) >= 0 && Get(floor, RentedRoom) >= 0 && Get(floor, DepositedRoom) >= 0;
    forall k
      ensures Get(r, k) == CountStatus(rooms[..i] + rooms[i + 1..], StatusOf(k))
    {
      CountStatusRemove(rooms, i, StatusOf(k));
    }
  }

  /** The requests the endpoint refuses, and the clamp to zero. */
  lemma DeleteRoomErrors(room: Option<Status>, contracts: nat, floor: Counters)
    ensures DeleteRoom(room, contracts, floor).Err? <==> room.None? || contracts > 0
    ensures room.None? ==> DeleteRoom(room, contracts, floor) == Err(RoomNotExist)
    ensures room.Some? && contracts > 0 ==> DeleteRoom(room, contracts, floor) == Err(RoomIsRented)
    ensures room.Some? && contracts == 0 && FieldOf(room.value).Some?
            && (floor.availableRoom < 0 || floor.rentedRoom < 0 || floor.depositedRoom < 0)
            ==> Get(DeleteRoom(room, contracts, floor).value, FieldOf(room.value).value) == 0
  {
  }

  // ---------------------------------------------------------------------
  // Room edit (editRoomById)
  // ---------------------------------------------------------------------

  /** The counter an edit bumps for a status: available and deposited have
      their own, every other status falls to the rented counter. */
  function EditBucket(s: Status): Counter {
    if s == Available then AvailableRoom
    else if s == Deposited then DepositedRoom
    else RentedRoom
  }

  /** The `$inc` of an edit. The source first assigns +1 on the new status's
      counter and then assigns −1 on the old status's counter to the same
      key, so only the decrement survives; an unchanged status clears it.
      `next` is `None` when the request does not name a status. */
  function EditRoomInc(prev: Status, next: Option<Status>): Option<(Counter, int)> {
    if next == Some(prev) then None else Some((EditBucket(prev), -1))
  }

  function ApplyInc(c: Counters, inc: Option<(Counter, int)>): Counters {
    match inc
    case None => c
    case Some((k, d)) => Bump(c, k, d)
  }

  /** Sets the available, deposited and rented counters from the rooms. */
  function RecountTracked(c: Counters, rooms: seq<Status>): Counters {
    c.(availableRoom := CountStatus(rooms, Available),
       depositedRoom := CountStatus(rooms, Deposited),
       rentedRoom := CountStatus(rooms, Rented))
  }

  /** The floor's counters after an edit. `roomsAfter` are the statuses of
      the floor's rooms once the edited room is stored. The `$inc` is applied
      first; the counters are then overwritten by a recount of `roomsAfter`;
      last, each counter that exceeded the total after the `$inc` (checked in
      this order: available, deposited, rented) sets that counter to the total
      and the other two to zero, the last such check winning. */
  function EditRoomFloor(floor: Counters, prev: Status, next: Option<Status>, roomsAfter: seq<Status>): Counters {
    var incremented := ApplyInc(floor, EditRoomInc(prev, next));
    var total := incremented.totalRoom;
    var recounted := RecountTracked(incremented, roomsAfter);
    var c1 := if incremented.availableRoom > total
              then recounted.(availableRoom := total, depositedRoom := 0, rentedRoom := 0) else recounted;
    var c2 := if incremented.depositedRoom > total
              then c1.(availableRoom := 0, depositedRoom := total, rentedRoom := 0) else c1;
    if incremented.rentedRoom > total
    then c2.(availableRoom := 0, depositedRoom := 0, rentedRoom := total) else c2
  }

  /** The edit's `$inc` never adds: it takes one from the old status's
      counter when the status changes (or is not named) and does nothing
      otherwise. */
  lemma EditRoomIncOnlyDecrements(floor: Counters, prev: Status, next: Option<Status>)
    ensures next == Some(prev) ==> ApplyInc(floor, EditRoomInc(prev, next)) == floor
    ensures next != Some(prev) ==> ApplyInc(floor, EditRoomInc(prev, next)) == Bump(floor, EditBucket(prev), -1)
    ensures forall k :: Get(ApplyInc(floor, EditRoomInc(prev, next)), k) <= Get(floor, k)
  {
  }

  /** When no counter exceeded the total, an edit leaves the floor's counters
      equal to the recount of its rooms. */
  lemma EditRoomRecountsWithoutClamp(floor: Counters, prev: Status, next: Option<Status>, roomsAfter: seq<Status>)
    requires var c := ApplyInc(floor, EditRoomInc(prev, next));
             c.availableRoom <= c.totalRoom && c.depositedRoom <= c.totalRoom && c.rentedRoom <= c.totalRoom
    ensures EditRoomFloor(floor, prev, next, roomsAfter) == RecountTracked(floor, roomsAfter)
  {
  }

  /** When a counter exceeded the total, the floor ends with the total in
      one counter and zero in the other two. */
  lemma EditRoomClampedFillsOneCounter(floor: Counters, prev: Status, next: Option<Status>, roomsAfter: seq<Status>)
    requires var c := ApplyInc(floor, EditRoomInc(prev, next));
             c.availableRoom > c.totalRoom || c.depositedRoom > c.totalRoom || c.rentedRoom > c.totalRoom
    ensures var r := EditRoomFloor(floor, prev, next, roomsAfter);
            && Occupied(r) == floor.totalRoom
            && (r.availableRoom == 0 || r.depositedRoom == 0)
            && (r.depositedRoom == 0 || r.rentedRoom == 0)
            && (r.availableRoom == 0 || r.rentedRoom == 0)
  {
  }

  /** On a floor whose counters agreed with its rooms, editing one room's
      status never triggers the clamp, and the floor agrees with its rooms
      afterwards. */
  lemma EditRoomKeepsFloorConsistent(floor: Counters, rooms: seq<Status>, i: int, next: Status)
    requires ConsistentTracked(floor, rooms)
    requires 0 <= i < |rooms|
    ensures ConsistentTracked(EditRoomFloor(floor, rooms[i], Some(next), rooms[i := next]), rooms[i := next])
  {
    var c := ApplyInc(floor, EditRoomInc(rooms[i], Some(next)));
    forall k | TrackedCounter(k)
      ensures Get(c, k) <= c.totalRoom
    {
      EditRoomIncOnlyDecrements(floor, rooms[i], Some(next));
      CountStatusBounds(rooms, StatusOf(k));
    }
    assert c.availableRoom <= c.totalRoom && c.depositedRoom <= c.totalRoom && c.rentedRoom <= c.totalRoom by {
      assert Get(c, AvailableRoom) <= c.totalRoom;
      assert Get(c, DepositedRoom) <= c.totalRoom;
      assert Get(c, RentedRoom) <= c.totalRoom;
    }
    EditRoomRecountsWithoutClamp(floor, rooms[i], Some(next), rooms[i := next]);
  }

  /** A floor record as the building update reads it. */
  datatype FloorRecord = FloorRecord(counters: Counters, isCompleted: bool)

  function CountersOf(floors: seq<FloorRecord>): (r: seq<Counters>)
    ensures |r| == |floors| && forall i :: 0 <= i < |floors| ==> r[i] == floors[i].counters
  {
    seq(|floors|, i requires 0 <= i < |floors| => floors[i].counters)
  }

  /** After an edit, a building whose floors are all completed takes the sums
      of its floors' counters; otherwise it is left alone. */
  function EditRoomBuilding(building: Counters, floors: seq<FloorRecord>): (r: Counters)
    ensures (forall i :: 0 <= i < |floors| ==> floors[i].isCompleted) ==> BuildingConsistent(r, CountersOf(floors))
    ensures (exists i :: 0 <= i < |floors| && !floors[i].isCompleted) ==> r == building
    ensures r.totalRoom == building.totalRoom && r.soonExpireContractRoom == building.soonExpireContractRoom
  {
    if forall i :: 0 <= i < |floors| ==> floors[i].isCompleted then
      var fs := CountersOf(floors);
      building.(availableRoom := SumBy(fs, AvailableRoom),
                depositedRoom := SumBy(fs, DepositedRoom),
                rentedRoom := SumBy(fs, RentedRoom))
    else building
  }

  // ---------------------------------------------------------------------
  // Recount after a deposit or rent (updateInforMotel)
  // ---------------------------------------------------------------------

  /** The floor recounted from its rooms, and the building set to the sums
      of the floor records it was handed (which were read before the
      recount). */
  function UpdateInforMotel(floor: Counters, rooms: seq<Status>, building: Counters, floors: seq<Counters>): (r: (Counters, Counters))
  {
    var floor' := floor.(
      availableRoom := CountStatus(rooms, Available),
      soonExpireContractRoom := CountStatus(rooms, SoonExpireContract),
      rentedRoom := CountStatus(rooms, Rented),
      depositedRoom := CountStatus(rooms, Deposited));
    var building' := building.(
      availableRoom := SumBy(floors, AvailableRoom),
      rentedRoom := SumBy(floors, RentedRoom),
      depositedRoom := SumBy(floors, DepositedRoom),
      soonExpireContractRoom := SumBy(floors, SoonExpireContractRoom));
    (floor', building')
  }

  /** Each floor counter becomes the number of the floor's rooms with that
      status, and each building counter the sum of that counter over the
      floors handed in; the totals are not touched. */
  lemma UpdateInforMotelCounts(floor: Counters, rooms: seq<Status>, building: Counters, floors: seq<Counters>)
    requires floor.totalRoom == |rooms|
    ensures Consistent(UpdateInforMotel(floor, rooms, building, floors).0, rooms)
    ensures forall k :: Get(UpdateInforMotel(floor, rooms, building, floors).1, k) == SumBy(floors, k)
    ensures UpdateInforMotel(floor, rooms, building, floors).1.totalRoom == building.totalRoom
  {
  }

  /** The building sums are taken over the floor records as they were before
      the recount: when the recounted floor is `floors[i]`, each building
      counter misses exactly that floor's change. */
  lemma UpdateInforMotelUsesStaleFloor(floor: Counters, rooms: seq<Status>, building: Counters, floors: seq<Counters>, i: int, k: Counter)
    requires 0 <= i < |floors| && floors[i] == floor
    ensures var (floor', building') := UpdateInforMotel(floor, rooms, building, floors);
            Get(building', k) == SumBy(floors[i := floor'], k) - Get(floor', k) + Get(floor, k)
  {
    var (floor', building') := UpdateInforMotel(floor, rooms, building, floors);
    SumByUpdate(floors, i, floor', k);
  }
}
