/**
 * The summary cards and the table filter of the attendance page
 * (app/attendance/page.tsx), over the records GET returned for the selected date.
 */
module AttendancePage {
  import opened Basics
  import opened Text
  import opened AttendanceRoute

  datatype AttendanceStats = AttendanceStats(totalStudents: nat, presentToday: nat, absentToday: int, attendanceRate: nat)

  function IsPresentRecord(e: Entry): bool {
    e.status == Present
  }

  /** `records.filter((r) => r.status === "present").length`. */
  function PresentCount(records: seq<Entry>): (n: nat)
    ensures n <= |records|
  {
    Count(records, IsPresentRecord)
  }

  /** The stats of the initial load: the student count comes from the student list. */
  function LoadStats(studentCount: nat, records: seq<Entry>): (s: AttendanceStats)
    ensures s.totalStudents == studentCount && s.presentToday == PresentCount(records)
    ensures s.absentToday + s.presentToday == studentCount
    ensures s.attendanceRate == RoundedPercent(s.presentToday, studentCount)
    ensures studentCount == 0 ==> s.attendanceRate == 0
    ensures s.presentToday <= studentCount ==> s.attendanceRate <= 100
  {
    var present := PresentCount(records);
    var rate := RoundedPercent(present, studentCount);
    AttendanceStats(studentCount, present, studentCount - present, rate)
  }

  /** The stats after a submission: recomputed from the new records, keeping the previous student count. */
  function RefreshStats(prev: AttendanceStats, records: seq<Entry>): (s: AttendanceStats)
    ensures s.totalStudents == prev.totalStudents
    ensures s == LoadStats(prev.totalStudents, records)
  {
    var present := PresentCount(records);
    prev.(presentToday := present, absentToday := prev.totalStudents - present,
          attendanceRate := RoundedPercent(present, prev.totalStudents))
  }

  /** `absentToday` is not clamped: more present records than students makes it negative. */
  lemma AbsentCanBeNegative()
    ensures LoadStats(0, [Entry("ST001", "Rahul Sharma", "A-101", "8:05 AM", "9:10 PM", Present)]).absentToday == -1
  {
    var e := Entry("ST001", "Rahul Sharma", "A-101", "8:05 AM", "9:10 PM", Present);
    assert Filter([e], IsPresentRecord) == [e];
  }

  lemma SeedPresentCount()
    ensures PresentCount(SeedRecords()) == 6
  {
    var r := SeedRecords();
    var p := IsPresentRecord;
    assert r[8..] == [];
    FilterAt(r, 7, p);
    FilterAt(r, 6, p);
    FilterAt(r, 5, p);
    FilterAt(r, 4, p);
    FilterAt(r, 3, p);
    FilterAt(r, 2, p);
    FilterAt(r, 1, p);
    FilterAt(r, 0, p);
    assert r[0..] == r;
  }

  /** The seed day: 8 students, 6 present, 2 absent, a 75% rate. */
  lemma SeedDayStats()
    ensures LoadStats(8, SeedRecords()) == AttendanceStats(8, 6, 2, 75)
  {
    SeedPresentCount();
    assert 1208 / 16 == 75;
    assert RoundedPercent(6, 8) == 1208 / 16;
  }

  /** The presence map that marks all roster students but ST006 and ST008 present. */
  function SeedPresence(): map<string, JsValue> {
    map["ST001" := JsBool(true), "ST002" := JsBool(true), "ST003" := JsBool(true),
        "ST004" := JsBool(true), "ST005" := JsBool(true), "ST007" := JsBool(true)]
  }

  /** The roster students the map marks present: all but the sixth and the eighth. */
  lemma SeedPresenceMarks(i: nat)
    requires i < |MockRoster()|
    ensures MarkedPresent(SeedPresence(), MockRoster()[i].id) <==> i != 5 && i != 7
  {
    var m, ids := SeedPresence(), ["ST001", "ST002", "ST003", "ST004", "ST005", "ST006", "ST007", "ST008"];
    assert MockRoster()[i].id == ids[i];
    assert m.Keys == {"ST001", "ST002", "ST003", "ST004", "ST005", "ST007"};
  }

  /** Records whose statuses are present but for the sixth and the eighth count 6 present. */
  lemma SixOfEightPresent(r: seq<Entry>)
    requires |r| == 8 && forall i :: 0 <= i < 8 ==> (r[i].status == Present <==> i != 5 && i != 7)
    ensures PresentCount(r) == 6
  {
    var p := IsPresentRecord;
    assert r[8..] == [];
    FilterAt(r, 7, p);
    FilterAt(r, 6, p);
    FilterAt(r, 5, p);
    FilterAt(r, 4, p);
    FilterAt(r, 3, p);
    FilterAt(r, 2, p);
    FilterAt(r, 1, p);
    FilterAt(r, 0, p);
    assert r[0..] == r;
  }

  /**
   * Posting that map for the hard-coded roster and reading the date back gives
   * the seed day's counts: 6 present, 2 absent, 75%, whatever the time draws.
   */
  lemma MockPostStats(days: seq<Day>, date: string, draws: seq<Draw>)
    requires |draws| == |MockRoster()|
    ensures var saved := PostResult(days, Body(Some(date), Some(SeedPresence())), MockRoster(), draws);
            saved.Some? && LoadStats(8, Lookup(saved.value, date)) == AttendanceStats(8, 6, 2, 75)
  {
    var roster, m := MockRoster(), SeedPresence();
    var saved := PostResult(days, Body(Some(date), Some(m)), roster, draws);
    PostThenGet(days, date, roster, m, draws);
    var r := Lookup(saved.value, date);
    forall i | 0 <= i < 8 ensures r[i].status == Present <==> i != 5 && i != 7 {
      SeedPresenceMarks(i);
    }
    SixOfEightPresent(r);
    assert RoundedPercent(6, 8) == 1208 / 16;
  }

  /** An empty roster gives a 0% rate, not a division error. */
  lemma EmptyRosterRate(records: seq<Entry>)
    ensures LoadStats(0, records).attendanceRate == 0
  {
  }

  // ----- the table filter -----

  /** The search box matches the name or id; the block selector is "all" or a room prefix. */
  predicate RecordMatches(e: Entry, query: string, block: string) {
    SearchHit(e.name, e.id, query) && BlockPrefixHit(e.room, block)
  }

  function RecordFilter(query: string, block: string): Entry -> bool {
    e => RecordMatches(e, query, block)
  }

  function FilteredRecords(records: seq<Entry>, query: string, block: string): seq<Entry> {
    Filter(records, RecordFilter(query, block))
  }

  /** A record is shown iff it matches both filters; the shown rows keep their order. */
  lemma FilteredRecordsSpec(records: seq<Entry>, query: string, block: string)
    ensures var r := FilteredRecords(records, query, block);
            IsSubseq(r, records) &&
            (forall i :: 0 <= i < |r| ==> r[i] in records && RecordMatches(r[i], query, block)) &&
            (forall i :: 0 <= i < |records| && RecordMatches(records[i], query, block) ==> records[i] in r)
  {
    FilterIsSubseq(records, RecordFilter(query, block));
  }

  /** An empty search with "all" shows every record. */
  lemma FilterShowsAll(records: seq<Entry>)
    ensures FilteredRecords(records, "", "all") == records
  {
    forall i | 0 <= i < |records| ensures RecordFilter("", "all")(records[i]) {
      SearchHitEmpty(records[i].name, records[i].id);
    }
    FilterKeepsAll(records, RecordFilter("", "all"));
  }
}
