/**
 * The room list behind `/api/rooms` (app/api/rooms/route.ts): a module-level
 * array that GET returns whole and POST grows by one room, always empty and
 * "available" whatever the body says.
 */
module RoomsRoute {
  import opened Basics
  import opened Text

  /** A stored room; `block` and `floor` are copied from the body, `capacity` is None for NaN. */
  datatype StoredRoom = StoredRoom(room: string, block: Option<string>, floor: Option<string>, capacity: Option<nat>, occupants: nat, status: string)

  /** A POST body; its `status` is read by nothing. */
  datatype RoomRequest =
    | Malformed
    | Request(block: Option<string>, roomNumber: Option<string>, floor: Option<string>, capacity: Option<string>, status: Option<string>)

  /** `Number.parseInt(data.capacity)`, with `undefined` giving NaN. */
  function ParseCapacity(capacity: Option<string>): Option<nat> {
    match capacity
    case None => None
    case Some(s) => ParseIntPrefix(s)
  }

  /** The room POST builds from a body. */
  function NewRoom(block: Option<string>, roomNumber: Option<string>, floor: Option<string>, capacity: Option<string>): (r: StoredRoom)
    ensures r.room == RoomCode(Interpolate(block), Interpolate(roomNumber))
    ensures r.block == block && r.floor == floor && r.capacity == ParseCapacity(capacity)
    ensures r.occupants == 0 && r.status == "available"
  {
    StoredRoom(Interpolate(block) + "-" + Interpolate(roomNumber), block, floor, ParseCapacity(capacity), 0, "available")
  }

  /** Occupied rooms have someone in them; available rooms have no one. */
  predicate OccupancyConsistent(r: StoredRoom) {
    (r.status == "occupied" ==> r.occupants > 0) && (r.status == "available" ==> r.occupants == 0)
  }

  predicate AllConsistent(rooms: seq<StoredRoom>) {
    forall i :: 0 <= i < |rooms| ==> OccupancyConsistent(rooms[i])
  }

  /** Whatever the body's fields, the room POST builds has consistent occupancy. */
  lemma NewRoomConsistent(block: Option<string>, roomNumber: Option<string>, floor: Option<string>, capacity: Option<string>)
    ensures OccupancyConsistent(NewRoom(block, roomNumber, floor, capacity))
  {
  }

  function SeedRooms(): seq<StoredRoom> {
    [ StoredRoom("A-101", Some("A"), Some("1"), Some(2), 2, "occupied"),
      StoredRoom("A-102", Some("A"), Some("1"), Some(2), 1, "occupied"),
      StoredRoom("B-201", Some("B"), Some("2"), Some(3), 3, "occupied"),
      StoredRoom("B-202", Some("B"), Some("2"), Some(3), 0, "available"),
      StoredRoom("C-301", Some("C"), Some("3"), Some(2), 2, "occupied"),
      StoredRoom("C-302", Some("C"), Some("3"), Some(2), 0, "maintenance"),
      StoredRoom("D-401", Some("D"), Some("4"), Some(1), 1, "occupied"),
      StoredRoom("D-402", Some("D"), Some("4"), Some(1), 0, "available") ]
  }

  /** The module-level `rooms` array and the two handlers over it. */
  class RoomStore {
    var rooms: seq<StoredRoom>

    ghost predicate Valid()
      reads this
    {
      AllConsistent(rooms)
    }

    constructor ()
      ensures Valid() && rooms == SeedRooms()
    {
      rooms := SeedRooms();
    }

    /** GET: the whole list in insertion order. */
    method Get() returns (all: seq<StoredRoom>)
      ensures all == rooms
    {
      all := rooms;
    }

    /** POST: appends exactly one room at the end and returns it (201), or returns None (500) and changes nothing. */
    method Post(request: RoomRequest) returns (created: Option<StoredRoom>)
      requires Valid()
      modifies this
      ensures Valid()
      ensures request.Malformed? <==> created.None?
      ensures request.Malformed? ==> rooms == old(rooms)
      ensures created.Some? ==>
                && created.value == NewRoom(request.block, request.roomNumber, request.floor, request.capacity)
                && created.value.status == "available" && created.value.occupants == 0
                && rooms == old(rooms) + [created.value]
    {
      if request.Malformed? {
        return None;
      }
      var room := NewRoom(request.block, request.roomNumber, request.floor, request.capacity);
      rooms := rooms + [room];
      created := Some(room);
    }
  }
}
