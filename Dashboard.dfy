/**
 * The dashboard aggregates (app/page.tsx): counts, the attendance rate, the
 * number of distinct blocks, occupancy per block and the recent check-ins.
 */
module Dashboard {
  import opened Basics
  import opened Text
  import opened AttendanceRoute
  import opened AttendancePage
  import opened RoomsPage

  datatype DashboardStats = DashboardStats(totalStudents: nat, availableRooms: nat, totalRooms: nat,
                                           presentToday: nat, attendanceRate: nat, blocks: nat)

  function BlockOf(r: RoomView): Option<string> {
    r.block
  }

  /** `rooms.map((room) => room.block)`. */
  function Blocks(rooms: seq<RoomView>): seq<Option<string>> {
    MapSeq(rooms, BlockOf)
  }

  function ComputeDashboard(studentCount: nat, rooms: seq<RoomView>, attendance: seq<Entry>): (s: DashboardStats)
    ensures s.totalStudents == studentCount && s.totalRooms == |rooms|
    ensures s.availableRooms == Count(rooms, IsAvailable) && s.availableRooms <= s.totalRooms
    ensures s.presentToday == PresentCount(attendance)
    ensures s.attendanceRate == RoundedPercent(s.presentToday, studentCount)
    ensures studentCount == 0 ==> s.attendanceRate == 0
    ensures s.presentToday <= studentCount ==> s.attendanceRate <= 100
    ensures s.blocks == |Distinct(Blocks(rooms))| && s.blocks <= |rooms|
    ensures rooms != [] ==> s.blocks >= 1
  {
    var present := PresentCount(attendance);
    var blocks := Distinct(Blocks(rooms));
    assert rooms != [] ==> Blocks(rooms)[0] in blocks;
    DashboardStats(studentCount, Count(rooms, IsAvailable), |rooms|, present,
                   RoundedPercent(present, studentCount), |blocks|)
  }

  // ----- occupancy by block -----

  datatype BlockOccupancy = BlockOccupancy(block: string, total: nat, occupied: nat)

  /** The entry of one block: its label, its rooms, and how many of those are occupied. */
  function BlockEntry(rooms: seq<RoomView>, block: Option<string>): (e: BlockOccupancy)
    ensures e.block == "Block " + Interpolate(block)
    ensures e.total == Count(rooms, HasKey(BlockOf, block))
    ensures e.occupied == Count(rooms, Both(HasKey(BlockOf, block), IsOccupied))
    ensures e.occupied <= e.total
  {
    var blockRooms := Filter(rooms, HasKey(BlockOf, block));
    FilterFilter(rooms, HasKey(BlockOf, block), IsOccupied);
    BlockOccupancy("Block " + Interpolate(block), |blockRooms|, Count(blockRooms, IsOccupied))
  }

  function EntriesFor(rooms: seq<RoomView>, blocks: seq<Option<string>>): (r: seq<BlockOccupancy>)
    ensures |r| == |blocks|
    ensures forall i :: 0 <= i < |r| ==> r[i] == BlockEntry(rooms, blocks[i])
  {
    if blocks == [] then [] else [BlockEntry(rooms, blocks[0])] + EntriesFor(rooms, blocks[1..])
  }

  /** One entry per distinct block, in first-appearance order. */
  function Occupancy(rooms: seq<RoomView>): seq<BlockOccupancy> {
    EntriesFor(rooms, Distinct(Blocks(rooms)))
  }

  function SumTotals(es: seq<BlockOccupancy>): nat {
    if es == [] then 0 else es[0].total + SumTotals(es[1..])
  }

  lemma {:induction false} SumTotalsOfEntries(rooms: seq<RoomView>, blocks: seq<Option<string>>)
    ensures SumTotals(EntriesFor(rooms, blocks)) == SumCounts(rooms, BlockOf, blocks)
  {
    if blocks != [] {
      var es := EntriesFor(rooms, blocks);
      assert es[1..] == EntriesFor(rooms, blocks[1..]);
      SumTotalsOfEntries(rooms, blocks[1..]);
    }
  }

  /**
   * The occupancy list has one entry per distinct block, in the order the
   * blocks first appear among the rooms. Entry i is labelled `Block b` for the
   * i-th block b, counts the rooms of b and the occupied rooms of b, and the
   * totals add up to the number of rooms.
   */
  lemma OccupancyAccountsForEveryRoom(rooms: seq<RoomView>)
    ensures var es, ks := Occupancy(rooms), Distinct(Blocks(rooms));
            && |es| == |ks| == ComputeDashboard(0, rooms, []).blocks
            && (forall i :: 0 <= i < |rooms| ==> rooms[i].block in ks)
            && (forall i, j :: 0 <= i < j < |ks| ==> FirstIndex(Blocks(rooms), ks[i]) < FirstIndex(Blocks(rooms), ks[j]))
            && (forall i :: 0 <= i < |es| ==>
                  && es[i].block == "Block " + Interpolate(ks[i])
                  && es[i].total == Count(rooms, HasKey(BlockOf, ks[i]))
                  && es[i].occupied == Count(rooms, Both(HasKey(BlockOf, ks[i]), IsOccupied))
                  && es[i].occupied <= es[i].total)
            && SumTotals(es) == |rooms|
  {
    var bs := Blocks(rooms);
    var ks := Distinct(bs);
    var es := EntriesFor(rooms, ks);
    SumTotalsOfEntries(rooms, ks);
    GroupTotals(rooms, BlockOf);
    forall i | 0 <= i < |rooms| ensures rooms[i].block in ks {
      assert bs[i] == rooms[i].block;
    }
    forall i | 0 <= i < |es|
      ensures && es[i].block == "Block " + Interpolate(ks[i])
              && es[i].total == Count(rooms, HasKey(BlockOf, ks[i]))
              && es[i].occupied == Count(rooms, Both(HasKey(BlockOf, ks[i]), IsOccupied))
              && es[i].occupied <= es[i].total
    {
      assert es[i] == BlockEntry(rooms, ks[i]);
    }
  }

  // ----- recent check-ins -----

  /** `.slice(0, 5)` of the present records after the check-in sort. */
  function RecentCheckins(sortedPresent: seq<Entry>): seq<Entry> {
    if |sortedPresent| <= 5 then sortedPresent else sortedPresent[..5]
  }

  /** Whatever order the sort produces, at most 5 records are shown and all of them are present. */
  lemma RecentCheckinsArePresent(attendance: seq<Entry>, sortedPresent: seq<Entry>)
    requires multiset(sortedPresent) == multiset(Filter(attendance, IsPresentRecord))
    ensures var r := RecentCheckins(sortedPresent);
            |r| <= 5 && forall i :: 0 <= i < |r| ==> r[i].status == Present && r[i] in attendance
  {
    var r := RecentCheckins(sortedPresent);
    var f := Filter(attendance, IsPresentRecord);
    forall i | 0 <= i < |r| ensures r[i].status == Present && r[i] in attendance {
      assert r[i] == sortedPresent[i];
      assert r[i] in multiset(sortedPresent);
      assert r[i] in f;
      var k :| 0 <= k < |f| && f[k] == r[i];
    }
  }
}
