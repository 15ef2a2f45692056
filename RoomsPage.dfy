/**
 * The summary cards and the table filter of the rooms page (app/rooms/page.tsx).
 * The page reads rooms by the field names `id`, `roomNumber`, `block` and
 * `status`; a room may lack any of the first three.
 */
module RoomsPage {
  import opened Basics
  import opened Text

  /** A room as the pages read it. */
  datatype RoomView = RoomView(id: Option<string>, roomNumber: Option<string>, block: Option<string>, status: string)

  datatype RoomStats = RoomStats(total: nat, occupied: nat, available: nat, occupancyRate: nat)

  function IsOccupied(r: RoomView): bool {
    r.status == "occupied"
  }

  function IsAvailable(r: RoomView): bool {
    r.status == "available"
  }

  /**
   * The stats cards, computed by the same formulas on the first load and after
   * a room is added. Rooms under maintenance count as neither occupied nor available.
   */
  function ComputeRoomStats(rooms: seq<RoomView>): (s: RoomStats)
    ensures s.total == |rooms|
    ensures s.occupied == Count(rooms, IsOccupied) && s.available == Count(rooms, IsAvailable)
    ensures s.occupied + s.available <= s.total
    ensures s.occupancyRate == RoundedPercent(s.occupied, s.total) && s.occupancyRate <= 100
    ensures s.total == 0 ==> s.occupancyRate == 0
  {
    CountDisjoint(rooms, IsOccupied, IsAvailable);
    var total := |rooms|;
    var occupied := Count(rooms, IsOccupied);
    RoomStats(total, occupied, Count(rooms, IsAvailable), RoundedPercent(occupied, total))
  }

  /**
   * One room's verdict under the three filters, or None when evaluating it
   * throws: `room.roomNumber.toLowerCase()` on a missing room number, or
   * `room.id.toLowerCase()` on a missing id when the room number did not match.
   */
  function RoomMatch(room: RoomView, query: string, block: string, status: string): (r: Option<bool>)
    ensures r.None? <==> room.roomNumber.None? || (!Contains(Lower(room.roomNumber.value), Lower(query)) && room.id.None?)
    ensures r == Some(true) <==>
              && room.roomNumber.Some?
              && (Contains(Lower(room.roomNumber.value), Lower(query)) || (room.id.Some? && Contains(Lower(room.id.value), Lower(query))))
              && (block == "all" || room.block == Some(block))
              && (status == "all" || room.status == status)
  {
    var rest := (block == "all" || room.block == Some(block)) && (status == "all" || room.status == status);
    match room.roomNumber
    case None => None
    case Some(n) =>
      if Contains(Lower(n), Lower(query)) then Some(rest)
      else
        match room.id
        case None => None
        case Some(id) => Some(Contains(Lower(id), Lower(query)) && rest)
  }

  /** `rooms.filter(...)`: None when the predicate throws on some room. */
  function FilterRooms(rooms: seq<RoomView>, query: string, block: string, status: string): (r: Option<seq<RoomView>>)
    ensures r.None? <==> exists i :: 0 <= i < |rooms| && RoomMatch(rooms[i], query, block, status).None?
    ensures r.Some? ==> forall i :: 0 <= i < |r.value| ==> r.value[i] in rooms && RoomMatch(r.value[i], query, block, status) == Some(true)
    ensures r.Some? ==> forall i :: 0 <= i < |rooms| && RoomMatch(rooms[i], query, block, status) == Some(true) ==> rooms[i] in r.value
    decreases |rooms|
  {
    if rooms == [] then Some([])
    else
      match RoomMatch(rooms[0], query, block, status)
      case None => None
      case Some(keep) =>
        match FilterRooms(rooms[1..], query, block, status)
        case None =>
          assert exists i :: 0 <= i < |rooms[1..]| && RoomMatch(rooms[1..][i], query, block, status).None?;
          var i :| 0 <= i < |rooms[1..]| && RoomMatch(rooms[1..][i], query, block, status).None?;
          assert RoomMatch(rooms[i + 1], query, block, status).None?;
          None
        case Some(tail) =>
          if keep then Some([rooms[0]] + tail) else Some(tail)
  }

  /** The shown rooms keep their order. */
  lemma {:induction false} FilterRoomsSubseq(rooms: seq<RoomView>, query: string, block: string, status: string)
    requires FilterRooms(rooms, query, block, status).Some?
    ensures IsSubseq(FilterRooms(rooms, query, block, status).value, rooms)
    decreases |rooms|
  {
    if rooms != [] {
      FilterRoomsSubseq(rooms[1..], query, block, status);
    }
  }

  /** The room predicate when it does not throw: the three filters all hold. */
  function RoomShown(query: string, block: string, status: string): RoomView -> bool {
    r => RoomMatch(r, query, block, status) == Some(true)
  }

  /**
   * When no room throws, the shown rooms are exactly `filter` by the predicate:
   * every matching room, each occurrence kept, in list order.
   */
  lemma {:induction false} FilterRoomsIsFilter(rooms: seq<RoomView>, query: string, block: string, status: string)
    requires FilterRooms(rooms, query, block, status).Some?
    ensures FilterRooms(rooms, query, block, status).value == Filter(rooms, RoomShown(query, block, status))
    decreases |rooms|
  {
    if rooms != [] {
      FilterRoomsIsFilter(rooms[1..], query, block, status);
    }
  }

  /** The block filter is exact equality, not a prefix test: block "AB" is hidden under "A". */
  lemma BlockFilterIsExact()
    ensures RoomMatch(RoomView(Some("AB-1"), Some("AB-1"), Some("AB"), "available"), "", "A", "all") == Some(false)
  {
    ContainsEmpty(Lower("AB-1"));
  }
}
