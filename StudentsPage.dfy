/**
 * The table filter of the students page (app/students/page.tsx). The page reads
 * students as the API returns them: `name` and `id` are strings, `room` may be
 * missing (null or undefined) or empty.
 */
module StudentsPage {
  import opened Basics
  import opened Text

  datatype StudentView = StudentView(id: string, name: string, room: Option<string>)

  /** `student.room && student.room.startsWith(blockFilter)`: a missing or empty room is falsy. */
  predicate RoomInBlock(room: Option<string>, block: string) {
    room.Some? && room.value != "" && StartsWith(room.value, block)
  }

  predicate StudentMatches(s: StudentView, query: string, block: string) {
    SearchHit(s.name, s.id, query) && (block == "all" || RoomInBlock(s.room, block))
  }

  function StudentFilter(query: string, block: string): StudentView -> bool {
    s => StudentMatches(s, query, block)
  }

  function FilteredStudents(students: seq<StudentView>, query: string, block: string): seq<StudentView> {
    Filter(students, StudentFilter(query, block))
  }

  /** A student is shown iff both filters hold; the shown rows keep the list order. */
  lemma FilteredStudentsSpec(students: seq<StudentView>, query: string, block: string)
    ensures var r := FilteredStudents(students, query, block);
            IsSubseq(r, students) &&
            (forall i :: 0 <= i < |r| ==> r[i] in students && StudentMatches(r[i], query, block)) &&
            (forall i :: 0 <= i < |students| && StudentMatches(students[i], query, block) ==> students[i] in r)
  {
    FilterIsSubseq(students, StudentFilter(query, block));
  }

  /** An empty search with "all" shows every student, including those without a room. */
  lemma EmptyFilterKeepsAll(students: seq<StudentView>)
    ensures FilteredStudents(students, "", "all") == students
  {
    forall i | 0 <= i < |students| ensures StudentFilter("", "all")(students[i]) {
      SearchHitEmpty(students[i].name, students[i].id);
    }
    FilterKeepsAll(students, StudentFilter("", "all"));
  }

  /** Under a block filter other than "all", a student with no room or an empty room is never shown. */
  lemma NoRoomExcluded(students: seq<StudentView>, query: string, block: string)
    requires block != "all"
    ensures var r := FilteredStudents(students, query, block);
            forall i :: 0 <= i < |r| ==> r[i].room.Some? && r[i].room.value != ""
  {
  }

  /** A student whose room code was built from block `b` passes the block filter `b`. */
  lemma RoomCodeInOwnBlock(s: StudentView, b: string, number: string)
    requires s.room == Some(RoomCode(b, number)) && b != "all"
    ensures StudentMatches(s, "", b) && StudentMatches(s, "", "all")
  {
    SearchHitEmpty(s.name, s.id);
  }
}
