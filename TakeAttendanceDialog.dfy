/**
 * The presence map of the take-attendance dialog
 * (components/take-attendance-dialog.tsx): every fetched student starts
 * present, a checkbox sets one student, and submit sends the whole map.
 */
module TakeAttendanceDialog {
  import opened Basics
  import opened Text

  /** The dialog's `Student` interface. */
  datatype Student = Student(id: string, name: string, room: string)

  /** The set of ids of a student list. */
  function Ids(students: seq<Student>): set<string> {
    set i | 0 <= i < |students| :: students[i].id
  }

  /** The map the `reduce` builds: `acc[student.id] = true` for each student in turn. */
  function AllPresent(students: seq<Student>): (m: map<string, bool>)
    ensures m.Keys == Ids(students)
    ensures forall id :: id in m ==> m[id]
  {
    if students == [] then map[]
    else
      var init := students[..|students| - 1];
      var last := students[|students| - 1];
      assert Ids(students) == Ids(init) + {last.id} by {
        assert forall i :: 0 <= i < |init| ==> init[i] == students[i];
      }
      AllPresent(init)[last.id := true]
  }

  /** The `reduce` with its mutating callback, as a loop over the fetched list. */
  method InitialAttendance(students: seq<Student>) returns (acc: map<string, bool>)
    ensures acc == AllPresent(students)
    ensures acc.Keys == Ids(students) && forall id :: id in acc ==> acc[id]
  {
    acc := map[];
    var i := 0;
    while i < |students|
      invariant 0 <= i <= |students|
      invariant acc == AllPresent(students[..i])
    {
      assert students[..i + 1][..i] == students[..i];
      acc := acc[students[i].id := true];
      i := i + 1;
    }
    assert students[..|students|] == students;
  }

  /** `{ ...prev, [studentId]: isPresent }`. */
  function SetPresence(m: map<string, bool>, id: string, present: bool): (r: map<string, bool>)
    ensures r.Keys == m.Keys + {id} && r[id] == present
    ensures forall k :: k in m && k != id ==> r[k] == m[k]
  {
    m[id := present]
  }

  /** What the checkbox reports: checked, unchecked or indeterminate. */
  datatype CheckboxValue = Checked | Unchecked | Indeterminate

  /** `checked === true`. */
  function PresenceOf(c: CheckboxValue): bool {
    c == Checked
  }

  /** `handleAttendanceChange(student.id, checked === true)`. */
  function OnCheckedChange(m: map<string, bool>, id: string, c: CheckboxValue): (r: map<string, bool>)
    ensures r.Keys == m.Keys + {id}
    ensures r[id] <==> c == Checked
    ensures forall k :: k in m && k != id ==> r[k] == m[k]
  {
    SetPresence(m, id, PresenceOf(c))
  }

  /** Only a definite check marks a student present; an indeterminate box counts as absent. */
  lemma IndeterminateIsAbsent(m: map<string, bool>, id: string)
    ensures !OnCheckedChange(m, id, Indeterminate)[id] && !OnCheckedChange(m, id, Unchecked)[id]
  {
  }

  /** Setting the same student twice keeps only the second value. */
  lemma SetPresenceLastWins(m: map<string, bool>, id: string, b1: bool, b2: bool)
    ensures SetPresence(SetPresence(m, id, b1), id, b2) == SetPresence(m, id, b2)
  {
  }

  /** Setting two different students commutes. */
  lemma SetPresenceCommutes(m: map<string, bool>, a: string, b: string, x: bool, y: bool)
    requires a != b
    ensures SetPresence(SetPresence(m, a, x), b, y) == SetPresence(SetPresence(m, b, y), a, x)
  {
  }

  /** A sequence of checkbox events, in order. */
  function ApplyChanges(m: map<string, bool>, changes: seq<(string, CheckboxValue)>): map<string, bool>
    decreases |changes|
  {
    if changes == [] then m
    else ApplyChanges(OnCheckedChange(m, changes[0].0, changes[0].1), changes[1..])
  }

  /** The value the last event for `id` gave it, or its value in `m` when no event names it. */
  function LastPresence(m: map<string, bool>, changes: seq<(string, CheckboxValue)>, id: string): bool
    requires id in m
  {
    if changes == [] then m[id]
    else if changes[|changes| - 1].0 == id then PresenceOf(changes[|changes| - 1].1)
    else LastPresence(m, changes[..|changes| - 1], id)
  }

  lemma {:induction false} ApplyChangesSnoc(m: map<string, bool>, changes: seq<(string, CheckboxValue)>)
    requires changes != []
    ensures var n := |changes| - 1;
            ApplyChanges(m, changes) == OnCheckedChange(ApplyChanges(m, changes[..n]), changes[n].0, changes[n].1)
    decreases |changes|
  {
    if |changes| > 1 {
      var m1 := OnCheckedChange(m, changes[0].0, changes[0].1);
      ApplyChangesSnoc(m1, changes[1..]);
      assert changes[1..][..|changes| - 2] == changes[..|changes| - 1][1..];
    }
  }

  /**
   * Events on students of the roster keep the key set equal to the roster ids,
   * and each student ends with the value of its last event (or stays present).
   */
  lemma {:induction false} ChangesKeepRoster(students: seq<Student>, changes: seq<(string, CheckboxValue)>)
    requires forall i :: 0 <= i < |changes| ==> changes[i].0 in Ids(students)
    ensures var m := ApplyChanges(AllPresent(students), changes);
            m.Keys == Ids(students) &&
            forall id :: id in m ==> m[id] == LastPresence(AllPresent(students), changes, id)
    decreases |changes|
  {
    if changes != [] {
      var n := |changes| - 1;
      ChangesKeepRoster(students, changes[..n]);
      ApplyChangesSnoc(AllPresent(students), changes);
    }
  }

  // ----- the student filter and the submission -----

  predicate DialogMatches(s: Student, query: string, block: string) {
    SearchHit(s.name, s.id, query) && BlockPrefixHit(s.room, block)
  }

  function DialogFilter(query: string, block: string): Student -> bool {
    s => DialogMatches(s, query, block)
  }

  function FilteredStudents(students: seq<Student>, query: string, block: string): seq<Student> {
    Filter(students, DialogFilter(query, block))
  }

  /** A student is listed iff both filters hold, in list order. */
  lemma FilteredStudentsSpec(students: seq<Student>, query: string, block: string)
    ensures var r := FilteredStudents(students, query, block);
            IsSubseq(r, students) &&
            (forall i :: 0 <= i < |r| ==> r[i] in students && DialogMatches(r[i], query, block)) &&
            (forall i :: 0 <= i < |students| && DialogMatches(students[i], query, block) ==> students[i] in r)
  {
    FilterIsSubseq(students, DialogFilter(query, block));
  }

  datatype DialogState = DialogState(students: seq<Student>, query: string, block: string, attendance: map<string, bool>)

  /** `saveAttendance(today, attendance)`: the date and the whole presence map. */
  function SavePayload(state: DialogState, today: string): (p: (string, map<string, bool>))
    ensures p.0 == today && p.1 == state.attendance
  {
    (today, state.attendance)
  }

  /**
   * What is saved does not depend on the search or the block filter: a student
   * hidden by the filters is still sent, with the value its last checkbox event
   * gave it, or present when none did.
   */
  lemma SaveIgnoresFilter(students: seq<Student>, changes: seq<(string, CheckboxValue)>,
                          query: string, block: string, query2: string, block2: string, today: string)
    requires forall i :: 0 <= i < |changes| ==> changes[i].0 in Ids(students)
    ensures var m := ApplyChanges(AllPresent(students), changes);
            var p := SavePayload(DialogState(students, query, block, m), today);
            && p == SavePayload(DialogState(students, query2, block2, m), today)
            && p.1.Keys == Ids(students)
            && forall i :: 0 <= i < |students| ==>
                 p.1[students[i].id] == LastPresence(AllPresent(students), changes, students[i].id)
  {
    ChangesKeepRoster(students, changes);
  }
}
