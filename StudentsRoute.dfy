/**
 * The student list behind `/api/students` (app/api/students/route.ts): a
 * module-level array that GET returns whole and POST grows by one student
 * whose id is `ST` followed by the new length, zero-padded to three digits.
 */
module StudentsRoute {
  import opened Basics
  import opened Text

  /** A stored student; `name` and `phone` are copied from the body and may be missing. */
  datatype StoredStudent = StoredStudent(id: string, name: Option<string>, room: string, phone: Option<string>, date: string)

  /** A POST body: `Malformed` when `request.json()` rejects it (or it is JSON null). */
  datatype StudentRequest =
    | Malformed
    | Request(name: Option<string>, roomBlock: Option<string>, roomNumber: Option<string>, phone: Option<string>)

  /** `ST${String(n).padStart(3, "0")}`. */
  function StudentId(n: nat): string {
    "ST" + PadStart(NatToString(n), 3, '0')
  }

  /** The id is "ST" and then digits that denote exactly `n`, at least three of them and never truncated. */
  lemma StudentIdDenotes(n: nat)
    ensures var id := StudentId(n);
            id[..2] == "ST" && AllDigits(id[2..]) && ParseDigits(id[2..]) == n &&
            |id| == 2 + (if |NatToString(n)| >= 3 then |NatToString(n)| else 3)
  {
    var id := StudentId(n);
    assert id[2..] == PadStart(NatToString(n), 3, '0');
    PadStartDigits(NatToString(n), 3);
    ParseNatToString(n);
  }

  lemma StudentIdInjective(a: nat, b: nat)
    requires StudentId(a) == StudentId(b)
    ensures a == b
  {
    StudentIdDenotes(a);
    StudentIdDenotes(b);
  }

  /** The student POST builds from a body, given the id and the formatted current date. */
  function NewStudent(id: string, name: Option<string>, roomBlock: Option<string>, roomNumber: Option<string>, phone: Option<string>, today: string): (s: StoredStudent)
    ensures s.id == id && s.name == name && s.phone == phone && s.date == today
    ensures s.room == RoomCode(Interpolate(roomBlock), Interpolate(roomNumber))
  {
    StoredStudent(id, name, Interpolate(roomBlock) + "-" + Interpolate(roomNumber), phone, today)
  }

  /** Every id is the one POST would have generated at its position: `ST001`, `ST002`, ... */
  predicate SequentialIds(students: seq<StoredStudent>) {
    forall i :: 0 <= i < |students| ==> students[i].id == StudentId(i + 1)
  }

  /** Sequential ids are pairwise distinct. */
  lemma SequentialIdsUnique(students: seq<StoredStudent>)
    requires SequentialIds(students)
    ensures forall i, j :: 0 <= i < j < |students| ==> students[i].id != students[j].id
  {
    forall i, j | 0 <= i < j < |students|
      ensures students[i].id != students[j].id
    {
      if students[i].id == students[j].id {
        StudentIdInjective(i + 1, j + 1);
      }
    }
  }

  /** The next generated id is not held by any stored student. */
  lemma NextIdFresh(students: seq<StoredStudent>)
    requires SequentialIds(students)
    ensures forall i :: 0 <= i < |students| ==> students[i].id != StudentId(|students| + 1)
  {
    forall i | 0 <= i < |students|
      ensures students[i].id != StudentId(|students| + 1)
    {
      if students[i].id == StudentId(|students| + 1) {
        StudentIdInjective(i + 1, |students| + 1);
      }
    }
  }

  function SeedStudents(): seq<StoredStudent> {
    [ StoredStudent("ST001", Some("Rahul Sharma"), "A-101", Some("9876543210"), "12 Aug 2023"),
      StoredStudent("ST002", Some("Priya Patel"), "B-205", Some("8765432109"), "15 Aug 2023"),
      StoredStudent("ST003", Some("Amit Kumar"), "C-304", Some("7654321098"), "20 Aug 2023"),
      StoredStudent("ST004", Some("Sneha Gupta"), "D-102", Some("6543210987"), "25 Aug 2023"),
      StoredStudent("ST005", Some("Vikram Singh"), "A-203", Some("5432109876"), "01 Sep 2023"),
      StoredStudent("ST006", Some("Neha Verma"), "B-105", Some("4321098765"), "05 Sep 2023"),
      StoredStudent("ST007", Some("Rajesh Khanna"), "C-202", Some("3210987654"), "10 Sep 2023"),
      StoredStudent("ST008", Some("Ananya Mishra"), "D-301", Some("2109876543"), "15 Sep 2023") ]
  }

  /** The seed ids ST001..ST008 are exactly the generated ones for positions 1..8. */
  lemma SeedIdsSequential()
    ensures SequentialIds(SeedStudents())
  {
    var s := SeedStudents();
    forall i | 0 <= i < 8 ensures s[i].id == StudentId(i + 1) {
      assert NatToString(i + 1) == [DigitChar(i + 1)];
      assert PadStart(NatToString(i + 1), 3, '0') == "00" + [DigitChar(i + 1)];
    }
  }

  /** Past 999 the id grows instead of being cut to three digits. */
  lemma IdPast999()
    ensures StudentId(1000) == "ST1000"
  {
    assert NatToString(1000) == NatToString(100) + ['0'];
    assert NatToString(100) == NatToString(10) + ['0'];
    assert NatToString(10) == NatToString(1) + ['0'];
  }

  /** The module-level `students` array and the two handlers over it. */
  class StudentStore {
    var students: seq<StoredStudent>

    ghost predicate Valid()
      reads this
    {
      SequentialIds(students)
    }

    constructor ()
      ensures Valid() && students == SeedStudents()
    {
      students := SeedStudents();
      SeedIdsSequential();
    }

    /** GET: the whole list in insertion order. */
    method Get() returns (all: seq<StoredStudent>)
      ensures all == students
    {
      all := students;
    }

    /**
     * POST: appends exactly one student at the end and returns it (201), or
     * returns None (500) and leaves the list unchanged. `today` stands for the
     * formatted current date.
     */
    method Post(request: StudentRequest, today: string) returns (created: Option<StoredStudent>)
      requires Valid()
      modifies this
      ensures Valid()
      ensures request.Malformed? <==> created.None?
      ensures request.Malformed? ==> students == old(students)
      ensures created.Some? ==>
                && created.value == NewStudent(StudentId(|old(students)| + 1), request.name,
                                               request.roomBlock, request.roomNumber, request.phone, today)
                && students == old(students) + [created.value]
      ensures forall i :: 0 <= i < |old(students)| ==> students[i] == old(students)[i]
    {
      if request.Malformed? {
        return None;
      }
      var newId := StudentId(|students| + 1);
      var student := NewStudent(newId, request.name, request.roomBlock, request.roomNumber, request.phone, today);
      students := students + [student];
      created := Some(student);
    }
  }
}
