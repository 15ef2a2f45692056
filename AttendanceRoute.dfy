/**
 * The attendance day ledger behind `/api/attendance` (app/api/attendance/route.ts).
 *
 * The store is a list of days, each a date and the records of that date. GET
 * looks a date up with `find`; POST derives one record per roster student from
 * a presence map and then either replaces the records of the day `findIndex`
 * locates or appends a new day. The roster, the random check-in/check-out
 * draws and the request body are parameters.
 */
module AttendanceRoute {
  import opened Basics
  import opened Text

  /** A roster entry as POST reads it. */
  datatype Student = Student(id: string, name: string, room: string)

  /** One student's record for one date, as stored and as GET returns it. */
  datatype Entry = Entry(id: string, name: string, room: string, checkIn: string, checkOut: string, status: string)

  /** A day of the ledger; `date` is None when the POST body carried no `date`. */
  datatype Day = Day(date: Option<string>, records: seq<Entry>)

  const Present: string := "present"
  const Absent: string := "absent"
  /** The time shown for an absent student. */
  const NoTime: string := "-"

  /** A value of the posted `attendance` object: a boolean or anything else. */
  datatype JsValue = JsBool(b: bool) | JsOther

  /**
   * A POST body. `Malformed` is a body `request.json()` rejects (or JSON null,
   * whose destructuring throws). `attendance` is None when the field is missing
   * or null, so that indexing it throws; any other value is given by the map of
   * its own properties.
   */
  datatype PostBody =
    | Malformed
    | Body(date: Option<string>, attendance: Option<map<string, JsValue>>)

  /**
   * The four `Math.floor(Math.random() * k)` draws made for a present student;
   * each is reduced to its range (`* 4`, `* 60`, `* 3`, `* 60`) by `%`.
   */
  datatype Draw = Draw(inHour: nat, inMinute: nat, outHour: nat, outMinute: nat)

  /** `attendance[id] === true`. */
  predicate MarkedPresent(attendance: map<string, JsValue>, id: string) {
    id in attendance && attendance[id] == JsBool(true)
  }

  // ----- the time strings -----

  /** `${hour}:${String(minute).padStart(2, "0")} ${meridiem}`. */
  function ClockText(hour: nat, minute: nat, meridiem: string): string {
    NatToString(hour) + ":" + PadStart(NatToString(minute), 2, '0') + " " + meridiem
  }

  function CheckInText(d: Draw): string {
    ClockText(d.inHour % 4 + 8, d.inMinute % 60, "AM")
  }

  function CheckOutText(d: Draw): string {
    ClockText(d.outHour % 3 + 8, d.outMinute % 60, "PM")
  }

  datatype Clock = Clock(hour: nat, minute: nat, meridiem: string)

  /** Reads `H:MM X`: one or more hour digits, a colon, exactly two minute digits, a space, a suffix. */
  function ParseClock(s: string): Option<Clock> {
    match IndexOf(s, ':')
    case None => None
    case Some(k) =>
      var hour, rest := s[..k], s[k + 1..];
      if 1 <= |hour| && AllDigits(hour) && 3 <= |rest| && IsDigit(rest[0]) && IsDigit(rest[1]) && rest[2] == ' '
      then Some(Clock(ParseDigits(hour), ParseDigits(rest[..2]), rest[3..]))
      else None
  }

  /** `s` is a canonical `H:MM meridiem` time with `lo <= H <= hi` and `MM` in 00..59. */
  predicate IsClockText(s: string, meridiem: string, lo: nat, hi: nat) {
    match ParseClock(s)
    case None => false
    case Some(c) => c.meridiem == meridiem && lo <= c.hour <= hi && c.minute < 60 && ClockText(c.hour, c.minute, c.meridiem) == s
  }

  lemma ParseClockText(hour: nat, minute: nat, meridiem: string)
    requires minute < 100
    ensures ParseClock(ClockText(hour, minute, meridiem)) == Some(Clock(hour, minute, meridiem))
  {
    var h := NatToString(hour);
    var mm := PadStart(NatToString(minute), 2, '0');
    var s := ClockText(hour, minute, meridiem);
    assert ':' !in h;
    assert s == h + [':'] + (mm + " " + meridiem);
    IndexOfAfter(h, ':', mm + " " + meridiem);
    assert s[..|h|] == h;
    var rest := s[|h| + 1..];
    assert rest == mm + " " + meridiem;
    assert |mm| == 2;
    PadStartDigits(NatToString(minute), 2);
    ParseNatToString(hour);
    ParseNatToString(minute);
    assert rest[..2] == mm;
    assert rest[3..] == meridiem;
  }

  // ----- deriving a day's records -----

  /** The record POST builds for one roster student. */
  function DeriveEntry(s: Student, attendance: map<string, JsValue>, d: Draw): Entry {
    var isPresent := MarkedPresent(attendance, s.id);
    Entry(s.id, s.name, s.room,
          if isPresent then CheckInText(d) else NoTime,
          if isPresent then CheckOutText(d) else NoTime,
          if isPresent then Present else Absent)
  }

  /** `students.map(...)`: one record per roster student, in roster order. */
  function DeriveRecords(roster: seq<Student>, attendance: map<string, JsValue>, draws: seq<Draw>): (r: seq<Entry>)
    requires |draws| == |roster|
    ensures |r| == |roster|
    ensures forall i :: 0 <= i < |r| ==>
              r[i].id == roster[i].id && r[i].name == roster[i].name && r[i].room == roster[i].room
    ensures forall i :: 0 <= i < |r| ==>
              (r[i].status == Present <==> MarkedPresent(attendance, roster[i].id))
  {
    seq(|roster|, i requires 0 <= i < |roster| => DeriveEntry(roster[i], attendance, draws[i]))
  }

  /** What POST promises of each record it writes. */
  predicate WellFormedPostEntry(e: Entry) {
    || (e.status == Absent && e.checkIn == NoTime && e.checkOut == NoTime)
    || (e.status == Present && IsClockText(e.checkIn, "AM", 8, 11) && IsClockText(e.checkOut, "PM", 8, 10))
  }

  lemma ClockTextInRange(hour: nat, minute: nat, meridiem: string, lo: nat, hi: nat)
    requires lo <= hour <= hi && minute < 60
    ensures IsClockText(ClockText(hour, minute, meridiem), meridiem, lo, hi)
  {
    ParseClockText(hour, minute, meridiem);
  }

  lemma DeriveEntryWellFormed(s: Student, attendance: map<string, JsValue>, d: Draw)
    ensures WellFormedPostEntry(DeriveEntry(s, attendance, d))
  {
    var e := DeriveEntry(s, attendance, d);
    if MarkedPresent(attendance, s.id) {
      var inHour, outHour := d.inHour % 4 + 8, d.outHour % 3 + 8;
      ClockTextInRange(inHour, d.inMinute % 60, "AM", 8, 11);
      ClockTextInRange(outHour, d.outMinute % 60, "PM", 8, 10);
      assert e.checkIn == CheckInText(d) && e.checkOut == CheckOutText(d) && e.status == Present;
    } else {
      assert e.status == Absent && e.checkIn == NoTime && e.checkOut == NoTime;
    }
  }

  /**
   * Every record POST writes is absent with both times "-", or present with an
   * `H:MM AM` check-in (H in 8..11) and an `H:MM PM` check-out (H in 8..10).
   */
  lemma DerivedRecordsWellFormed(roster: seq<Student>, attendance: map<string, JsValue>, draws: seq<Draw>)
    requires |draws| == |roster|
    ensures forall i :: 0 <= i < |roster| ==> WellFormedPostEntry(DeriveRecords(roster, attendance, draws)[i])
  {
    forall i | 0 <= i < |roster|
      ensures WellFormedPostEntry(DeriveRecords(roster, attendance, draws)[i])
    {
      DeriveEntryWellFormed(roster[i], attendance, draws[i]);
    }
  }

  /** Distinct roster ids give distinct record ids. */
  lemma DerivedIdsUnique(roster: seq<Student>, attendance: map<string, JsValue>, draws: seq<Draw>)
    requires |draws| == |roster|
    requires forall i, j :: 0 <= i < j < |roster| ==> roster[i].id != roster[j].id
    ensures var r := DeriveRecords(roster, attendance, draws);
            forall i, j :: 0 <= i < j < |r| ==> r[i].id != r[j].id
  {
  }

  // ----- the ledger invariant -----

  /** The rule every stored record keeps: absent with both times "-", or present with neither "-". */
  predicate EntryConsistent(e: Entry) {
    || (e.status == Absent && e.checkIn == NoTime && e.checkOut == NoTime)
    || (e.status == Present && e.checkIn != NoTime && e.checkOut != NoTime)
  }

  predicate RecordsConsistent(records: seq<Entry>) {
    forall j :: 0 <= j < |records| ==> EntryConsistent(records[j])
  }

  predicate UniqueDates(days: seq<Day>) {
    forall i, j :: 0 <= i < j < |days| ==> days[i].date != days[j].date
  }

  /** At most one day per date, and every record consistent. */
  predicate LedgerInvariant(days: seq<Day>) {
    UniqueDates(days) && forall i :: 0 <= i < |days| ==> RecordsConsistent(days[i].records)
  }

  lemma DerivedRecordsConsistent(roster: seq<Student>, attendance: map<string, JsValue>, draws: seq<Draw>)
    requires |draws| == |roster|
    ensures RecordsConsistent(DeriveRecords(roster, attendance, draws))
  {
    DerivedRecordsWellFormed(roster, attendance, draws);
  }

  // ----- find, findIndex and the upsert -----

  /** `days.findIndex((r) => r.date === date)`: the first day with that date, or -1. */
  function FindIndex(days: seq<Day>, date: Option<string>): (i: int)
    ensures -1 <= i < |days|
    ensures i == -1 <==> forall j :: 0 <= j < |days| ==> days[j].date != date
    ensures 0 <= i ==> days[i].date == date && forall j :: 0 <= j < i ==> days[j].date != date
  {
    if days == [] then -1
    else if days[0].date == date then 0
    else
      var k := FindIndex(days[1..], date);
      if k == -1 then -1 else k + 1
  }

  /** `days.find((r) => r.date === date)`. */
  function Find(days: seq<Day>, date: Option<string>): Option<Day> {
    var i := FindIndex(days, date);
    if i == -1 then None else Some(days[i])
  }

  /** What GET answers for a date: the records of the first day with that date, else []. */
  function Lookup(days: seq<Day>, date: string): seq<Entry> {
    match Find(days, Some(date))
    case Some(d) => d.records
    case None => []
  }

  /** POST's write step: replace the records of the located day, or append a new day. */
  function Upsert(days: seq<Day>, date: Option<string>, records: seq<Entry>): seq<Day> {
    var i := FindIndex(days, date);
    if i != -1 then days[i := days[i].(records := records)] else days + [Day(date, records)]
  }

  /**
   * The whole POST: None is the 500 answer (a malformed body, or a missing
   * `attendance` that the first roster student makes `map` index), and then
   * nothing is written.
   */
  function PostResult(days: seq<Day>, body: PostBody, roster: seq<Student>, draws: seq<Draw>): (r: Option<seq<Day>>)
    requires |draws| == |roster|
    ensures r.None? <==> body.Malformed? || (body.attendance.None? && roster != [])
    ensures r.Some? ==> r.value == Upsert(days, body.date, DeriveRecords(roster, body.attendance.GetOr(map[]), draws))
  {
    match body
    case Malformed => None
    case Body(date, attendance) =>
      if attendance.None? && roster != [] then None
      else Some(Upsert(days, date, DeriveRecords(roster, attendance.GetOr(map[]), draws)))
  }

  // ----- laws of the ledger -----

  /** GET of a date no day carries is the empty list. */
  lemma LookupMissing(days: seq<Day>, date: string)
    requires forall j :: 0 <= j < |days| ==> days[j].date != Some(date)
    ensures Lookup(days, date) == []
  {
  }

  /** GET returns the records of the first day whose date equals the query exactly. */
  lemma LookupFirstMatch(days: seq<Day>, date: string, i: nat)
    requires i < |days| && days[i].date == Some(date)
    requires forall j :: 0 <= j < i ==> days[j].date != Some(date)
    ensures Lookup(days, date) == days[i].records
  {
  }

  /** Overwriting a day changes only that day's records: same length, same dates, other days untouched. */
  lemma UpsertExisting(days: seq<Day>, date: Option<string>, records: seq<Entry>)
    requires FindIndex(days, date) != -1
    ensures var i, u := FindIndex(days, date), Upsert(days, date, records);
            |u| == |days| && u[i] == Day(days[i].date, records) &&
            forall j :: 0 <= j < |days| && j != i ==> u[j] == days[j]
  {
  }

  /** A new date is appended at the end, earlier days unchanged. */
  lemma UpsertNew(days: seq<Day>, date: Option<string>, records: seq<Entry>)
    requires FindIndex(days, date) == -1
    ensures Upsert(days, date, records) == days + [Day(date, records)]
  {
  }

  /** The upsert keeps at most one day per date and keeps every record consistent. */
  lemma UpsertPreservesInvariant(days: seq<Day>, date: Option<string>, records: seq<Entry>)
    requires LedgerInvariant(days)
    requires RecordsConsistent(records)
    ensures LedgerInvariant(Upsert(days, date, records))
  {
    var u := Upsert(days, date, records);
    var i := FindIndex(days, date);
    if i == -1 {
      assert forall j :: 0 <= j < |days| ==> u[j] == days[j];
      assert u[|days|].date == date;
    } else {
      assert forall j :: 0 <= j < |days| ==> u[j].date == days[j].date;
    }
  }

  /** After writing a date, GET of that date returns exactly what was written. */
  lemma ReadYourWrite(days: seq<Day>, date: string, records: seq<Entry>)
    ensures Lookup(Upsert(days, Some(date), records), date) == records
  {
    var u := Upsert(days, Some(date), records);
    var i := FindIndex(days, Some(date));
    if i == -1 {
      assert forall j :: 0 <= j < |days| ==> u[j] == days[j];
      LookupFirstMatch(u, date, |days|);
    } else {
      assert forall j :: 0 <= j < |days| ==> u[j].date == days[j].date;
      LookupFirstMatch(u, date, i);
    }
  }

  /** Writing one date never changes what GET answers for another. */
  lemma LookupOtherDate(days: seq<Day>, date: Option<string>, records: seq<Entry>, other: string)
    requires date != Some(other)
    ensures Lookup(Upsert(days, date, records), other) == Lookup(days, other)
  {
    var u := Upsert(days, date, records);
    var i := FindIndex(days, date);
    var k := FindIndex(days, Some(other));
    assert forall j :: 0 <= j < |days| ==> u[j].date == days[j].date;
    if i == -1 {
      assert u[|days|].date != Some(other);
      assert forall j :: 0 <= j < |days| ==> u[j] == days[j];
    }
    if k != -1 {
      assert u[k] == days[k];
      LookupFirstMatch(u, other, k);
    } else {
      LookupMissing(u, other);
    }
  }

  /** Overwrite law: a second write of a date leaves the state the second write alone would give. */
  lemma OverwriteLaw(days: seq<Day>, date: Option<string>, first: seq<Entry>, second: seq<Entry>)
    ensures Upsert(Upsert(days, date, first), date, second) == Upsert(days, date, second)
  {
    var u := Upsert(days, date, first);
    var i := FindIndex(days, date);
    if i == -1 {
      assert forall j :: 0 <= j < |days| ==> u[j] == days[j];
      assert u[|days|].date == date;
      assert FindIndex(u, date) == |days|;
    } else {
      assert forall j :: 0 <= j < |days| ==> u[j].date == days[j].date;
      assert FindIndex(u, date) == i;
    }
  }

  /** POST(D, P1) then POST(D, P2): GET(D) reflects only P2. */
  lemma SecondPostWins(days: seq<Day>, date: string, roster: seq<Student>, p1: map<string, JsValue>, p2: map<string, JsValue>, d1: seq<Draw>, d2: seq<Draw>)
    requires |d1| == |roster| && |d2| == |roster|
    ensures var after1 := PostResult(days, Body(Some(date), Some(p1)), roster, d1).value;
            var after2 := PostResult(after1, Body(Some(date), Some(p2)), roster, d2).value;
            Lookup(after2, date) == DeriveRecords(roster, p2, d2)
  {
    var after1 := Upsert(days, Some(date), DeriveRecords(roster, p1, d1));
    ReadYourWrite(after1, date, DeriveRecords(roster, p2, d2));
  }

  /**
   * A successful POST followed by GET of the same date gives |roster| records,
   * in roster order, each present exactly when the map holds `true` for its id.
   */
  lemma PostThenGet(days: seq<Day>, date: string, roster: seq<Student>, attendance: map<string, JsValue>, draws: seq<Draw>)
    requires |draws| == |roster|
    ensures var r := Lookup(PostResult(days, Body(Some(date), Some(attendance)), roster, draws).value, date);
            |r| == |roster| &&
            (forall i :: 0 <= i < |r| ==> r[i].id == roster[i].id && r[i].name == roster[i].name && r[i].room == roster[i].room) &&
            (forall i :: 0 <= i < |r| ==> (r[i].status == Present <==> MarkedPresent(attendance, roster[i].id)))
  {
    ReadYourWrite(days, date, DeriveRecords(roster, attendance, draws));
  }

  // ----- the seed and the store -----

  function SeedRecords(): seq<Entry> {
    [ Entry("ST001", "Rahul Sharma", "A-101", "08:30 AM", "09:45 PM", Present),
      Entry("ST002", "Priya Patel", "B-205", "09:15 AM", "10:20 PM", Present),
      Entry("ST003", "Amit Kumar", "C-304", "10:45 AM", "08:30 PM", Present),
      Entry("ST004", "Sneha Gupta", "D-102", "11:20 AM", "09:15 PM", Present),
      Entry("ST005", "Vikram Singh", "A-203", "12:05 PM", "11:00 PM", Present),
      Entry("ST006", "Neha Verma", "B-105", NoTime, NoTime, Absent),
      Entry("ST007", "Rajesh Khanna", "C-202", "09:30 AM", "10:45 PM", Present),
      Entry("ST008", "Ananya Mishra", "D-301", NoTime, NoTime, Absent) ]
  }

  function SeedDays(): seq<Day> {
    [Day(Some("2023-05-23"), SeedRecords())]
  }

  /** A time text with a positive hour starts with a non-zero digit and ends with its suffix. */
  lemma ClockTextEnds(hour: nat, minute: nat, meridiem: string)
    requires 1 <= hour
    ensures var t := ClockText(hour, minute, meridiem);
            t[0] != '0' && |meridiem| <= |t| && t[|t| - |meridiem|..] == meridiem
  {
    var h := NatToString(hour);
    var tail := ":" + PadStart(NatToString(minute), 2, '0') + " " + meridiem;
    var t := h + tail;
    assert t[0] == h[0];
    assert t[|t| - |meridiem|..] == tail[|tail| - |meridiem|..];
  }

  /** So does every canonical time whose lowest allowed hour is positive. */
  lemma ClockTextShape(s: string, meridiem: string, lo: nat, hi: nat)
    requires IsClockText(s, meridiem, lo, hi) && 1 <= lo
    ensures s[0] != '0' && |meridiem| <= |s| && s[|s| - |meridiem|..] == meridiem
  {
    var c := ParseClock(s).value;
    ClockTextEnds(c.hour, c.minute, c.meridiem);
  }

  /** A present record with a time starting with '0', or a check-in not ending in "AM", is not in the format POST writes. */
  lemma NotPostFormat(e: Entry)
    requires e.status == Present && 2 <= |e.checkIn| && 1 <= |e.checkOut|
    requires e.checkIn[0] == '0' || e.checkOut[0] == '0' || e.checkIn[|e.checkIn| - 2..] != "AM"
    ensures !WellFormedPostEntry(e)
  {
    if IsClockText(e.checkIn, "AM", 8, 11) && IsClockText(e.checkOut, "PM", 8, 10) {
      ClockTextShape(e.checkIn, "AM", 8, 11);
      ClockTextShape(e.checkOut, "PM", 8, 10);
      assert false;
    }
  }

  /**
   * No present seed record is in the format POST writes: each has a time whose
   * hour starts with '0', or a check-in that is not an AM time.
   */
  lemma SeedOutsidePostFormat(i: nat)
    requires i < |SeedRecords()| && SeedRecords()[i].status == Present
    ensures !WellFormedPostEntry(SeedRecords()[i])
  {
    var e := SeedRecords()[i];
    if i == 4 {
      assert e.checkIn == "12:05 PM";
      assert e.checkIn[6..] == "PM";
    } else {
      assert e.checkIn[0] == '0' || e.checkOut[0] == '0';
    }
    NotPostFormat(e);
  }

  /** The roster POST hard-codes. */
  function MockRoster(): seq<Student> {
    [ Student("ST001", "Rahul Sharma", "A-101"),
      Student("ST002", "Priya Patel", "B-205"),
      Student("ST003", "Amit Kumar", "C-304"),
      Student("ST004", "Sneha Gupta", "D-102"),
      Student("ST005", "Vikram Singh", "A-203"),
      Student("ST006", "Neha Verma", "B-105"),
      Student("ST007", "Rajesh Khanna", "C-202"),
      Student("ST008", "Ananya Mishra", "D-301") ]
  }

  /** The module-level `attendanceRecords` array and the two handlers over it. */
  class Ledger {
    var days: seq<Day>

    ghost predicate Valid()
      reads this
    {
      LedgerInvariant(days)
    }

    constructor ()
      ensures Valid() && days == SeedDays()
    {
      days := SeedDays();
      assert RecordsConsistent(SeedRecords());
    }

    /** GET: read-only. */
    method Get(date: string) returns (records: seq<Entry>)
      ensures records == Lookup(days, date)
    {
      var record := Find(days, Some(date));
      if record.Some? {
        records := record.value.records;
      } else {
        records := [];
      }
    }

    /** POST: `saved` is the 201 answer; on a 500 the ledger is unchanged. */
    method Post(body: PostBody, roster: seq<Student>, draws: seq<Draw>) returns (saved: bool)
      requires Valid()
      requires |draws| == |roster|
      modifies this
      ensures Valid()
      ensures saved <==> PostResult(old(days), body, roster, draws).Some?
      ensures !saved ==> days == old(days)
      ensures saved ==> days == PostResult(old(days), body, roster, draws).value
    {
      if body.Malformed? {
        return false;
      }
      var existing := FindIndex(days, body.date);
      if body.attendance.None? && roster != [] {
        return false;
      }
      var records := DeriveRecords(roster, body.attendance.GetOr(map[]), draws);
      DerivedRecordsConsistent(roster, body.attendance.GetOr(map[]), draws);
      UpsertPreservesInvariant(days, body.date, records);
      if existing != -1 {
        days := days[existing := days[existing].(records := records)];
      } else {
        days := days + [Day(body.date, records)];
      }
      saved := true;
    }
  }
}
