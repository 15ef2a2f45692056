/**
 * The add-student dialog (components/add-student-dialog.tsx): field updates,
 * the room-existence and availability checks of submit, the payload it sends,
 * and the form reset after a successful add.
 */
module AddStudentDialog {
  import opened Basics
  import opened Text
  import opened RoomsPage
  import RoomsRoute

  datatype StudentForm = StudentForm(name: string, email: string, phone: string, address: string,
                                     emergencyContact: string, roomBlock: string, roomNumber: string)

  /** The initial form, and the one restored after a successful add. */
  function EmptyStudentForm(): StudentForm {
    StudentForm("", "", "", "", "", "", "")
  }

  datatype StudentField = Name | Email | Phone | Address | EmergencyContact | RoomBlock | RoomNumber

  /** The input `name` attribute (or `handleSelectChange` key) of each field. */
  function FieldKey(f: StudentField): string {
    match f
    case Name => "name"
    case Email => "email"
    case Phone => "phone"
    case Address => "address"
    case EmergencyContact => "emergencyContact"
    case RoomBlock => "roomBlock"
    case RoomNumber => "roomNumber"
  }

  /** The field a key names, if any. */
  function FieldNamed(key: string): (f: Option<StudentField>)
    ensures f.Some? ==> FieldKey(f.value) == key
  {
    if key == "name" then Some(Name)
    else if key == "email" then Some(Email)
    else if key == "phone" then Some(Phone)
    else if key == "address" then Some(Address)
    else if key == "emergencyContact" then Some(EmergencyContact)
    else if key == "roomBlock" then Some(RoomBlock)
    else if key == "roomNumber" then Some(RoomNumber)
    else None
  }

  /** Every field's key names that field back. */
  lemma FieldKeyRoundTrip(f: StudentField)
    ensures FieldNamed(FieldKey(f)) == Some(f)
  {
  }

  function FieldValue(form: StudentForm, f: StudentField): string {
    match f
    case Name => form.name
    case Email => form.email
    case Phone => form.phone
    case Address => form.address
    case EmergencyContact => form.emergencyContact
    case RoomBlock => form.roomBlock
    case RoomNumber => form.roomNumber
  }

  /**
   * `setFormData((prev) => ({ ...prev, [name]: value }))`, shared by
   * `handleChange` and `handleSelectChange`. A key naming no field adds a
   * property that nothing reads, so the seven fields stay as they were.
   */
  function UpdateForm(form: StudentForm, key: string, value: string): (r: StudentForm)
    ensures FieldNamed(key).Some? ==> FieldValue(r, FieldNamed(key).value) == value
    ensures forall f :: Some(f) != FieldNamed(key) ==> FieldValue(r, f) == FieldValue(form, f)
  {
    match FieldNamed(key)
    case None => form
    case Some(Name) => form.(name := value)
    case Some(Email) => form.(email := value)
    case Some(Phone) => form.(phone := value)
    case Some(Address) => form.(address := value)
    case Some(EmergencyContact) => form.(emergencyContact := value)
    case Some(RoomBlock) => form.(roomBlock := value)
    case Some(RoomNumber) => form.(roomNumber := value)
  }

  /** `${formData.roomBlock}-${formData.roomNumber}`. */
  function RoomId(form: StudentForm): string {
    RoomCode(form.roomBlock, form.roomNumber)
  }

  /** `rooms.find((r) => r.roomNumber === roomId)`, as the index of the first match. */
  function FindRoom(rooms: seq<RoomView>, roomId: string): (r: Option<nat>)
    ensures r.None? <==> forall i :: 0 <= i < |rooms| ==> rooms[i].roomNumber != Some(roomId)
    ensures r.Some? ==> r.value < |rooms| && rooms[r.value].roomNumber == Some(roomId)
    ensures r.Some? ==> forall j :: 0 <= j < r.value ==> rooms[j].roomNumber != Some(roomId)
    decreases |rooms|
  {
    if rooms == [] then None
    else if rooms[0].roomNumber == Some(roomId) then Some(0)
    else
      match FindRoom(rooms[1..], roomId)
      case None => None
      case Some(k) => Some(k + 1)
  }

  /** The `studentData` object; `today` stands for the current ISO date. */
  datatype StudentPayload = StudentPayload(name: string, email: string, phone: string, address: string,
                                           emergencyContact: string, room: string, joiningDate: string)

  function BuildStudentPayload(form: StudentForm, today: string): (p: StudentPayload)
    ensures p.name == form.name && p.email == form.email && p.phone == form.phone
    ensures p.address == form.address && p.emergencyContact == form.emergencyContact
    ensures p.room == RoomId(form) && p.joiningDate == today
    ensures StartsWith(p.room, form.roomBlock)
  {
    StudentPayload(form.name, form.email, form.phone, form.address, form.emergencyContact, RoomId(form), today)
  }

  const RoomDoesNotExistMessage := "The specified room does not exist. Please check the room number and block."
  const RoomNotAvailableMessage := "The specified room is not available. Please select a different room."
  const AddFailedMessage := "Failed to add student. Please try again."

  /** The decision made from the fetched rooms, before anything is sent. */
  datatype Decision = RoomDoesNotExist | RoomNotAvailable | Send(payload: StudentPayload)

  function Decide(form: StudentForm, rooms: seq<RoomView>, today: string): (d: Decision)
    ensures d == RoomDoesNotExist <==> forall i :: 0 <= i < |rooms| ==> rooms[i].roomNumber != Some(RoomId(form))
    ensures d == RoomNotAvailable <==> FindRoom(rooms, RoomId(form)).Some? && rooms[FindRoom(rooms, RoomId(form)).value].status != "available"
    ensures d.Send? ==> d.payload == BuildStudentPayload(form, today)
  {
    match FindRoom(rooms, RoomId(form))
    case None => RoomDoesNotExist
    case Some(k) =>
      if rooms[k].status != "available" then RoomNotAvailable
      else Send(BuildStudentPayload(form, today))
  }

  /** What one submit leaves behind: the form, the error banner, the payload passed to `addStudent`, and whether the dialog closed. */
  datatype SubmitOutcome = SubmitOutcome(form: StudentForm, error: Option<string>, sent: Option<StudentPayload>, closed: bool)

  /**
   * `handleSubmit`. `rooms` is None when `getRooms` fails; `addSucceeded` is
   * whether `addStudent` resolves. Any failure shows its message and keeps the form.
   */
  function HandleSubmit(form: StudentForm, rooms: Option<seq<RoomView>>, today: string, addSucceeded: bool): (o: SubmitOutcome)
    ensures o.closed <==> o.error.None?
    ensures o.closed ==> o.form == EmptyStudentForm() && o.sent.Some?
    ensures !o.closed ==> o.form == form
    ensures o.sent.Some? ==> rooms.Some? && Decide(form, rooms.value, today) == Send(o.sent.value)
  {
    match rooms
    case None => SubmitOutcome(form, Some(AddFailedMessage), None, false)
    case Some(rs) =>
      match Decide(form, rs, today)
      case RoomDoesNotExist => SubmitOutcome(form, Some(RoomDoesNotExistMessage), None, false)
      case RoomNotAvailable => SubmitOutcome(form, Some(RoomNotAvailableMessage), None, false)
      case Send(p) =>
        if addSucceeded then SubmitOutcome(EmptyStudentForm(), None, Some(p), true)
        else SubmitOutcome(form, Some(AddFailedMessage), Some(p), false)
  }

  /** No room numbered `roomId`: the "does not exist" message, and `addStudent` is not called. */
  lemma MissingRoomBlocksSubmit(form: StudentForm, rooms: seq<RoomView>, today: string, addSucceeded: bool)
    requires forall i :: 0 <= i < |rooms| ==> rooms[i].roomNumber != Some(RoomId(form))
    ensures var o := HandleSubmit(form, Some(rooms), today, addSucceeded);
            o.error == Some(RoomDoesNotExistMessage) && o.sent.None? && o.form == form
  {
  }

  /**
   * Only the first room with that number is checked: when it is not available
   * the submit is refused, even if a later room with the same number is.
   */
  lemma FirstMatchDecides(form: StudentForm, rooms: seq<RoomView>, k: nat, today: string, addSucceeded: bool)
    requires k < |rooms| && rooms[k].roomNumber == Some(RoomId(form)) && rooms[k].status != "available"
    requires forall j :: 0 <= j < k ==> rooms[j].roomNumber != Some(RoomId(form))
    ensures var o := HandleSubmit(form, Some(rooms), today, addSucceeded);
            o.error == Some(RoomNotAvailableMessage) && o.sent.None? && o.form == form
  {
  }

  /** An available first match sends the form's fields with `room == roomId`; success resets the form. */
  lemma AvailableRoomSends(form: StudentForm, rooms: seq<RoomView>, k: nat, today: string)
    requires k < |rooms| && rooms[k].roomNumber == Some(RoomId(form)) && rooms[k].status == "available"
    requires forall j :: 0 <= j < k ==> rooms[j].roomNumber != Some(RoomId(form))
    ensures var o := HandleSubmit(form, Some(rooms), today, true);
            && o.sent == Some(BuildStudentPayload(form, today))
            && o.sent.value.room == RoomId(form)
            && o.form == EmptyStudentForm() && o.closed && o.error.None?
  {
  }

  /** The rooms of the mock room store as this dialog reads them: they carry `room`, not `roomNumber` or `id`. */
  function MockRoomView(r: RoomsRoute.StoredRoom): RoomView {
    RoomView(None, None, r.block, r.status)
  }

  /**
   * Against the rooms of the mock room store, every submit is refused with
   * "does not exist", because the lookup key `roomNumber` is never present.
   */
  lemma MockRoomsNeverMatch(form: StudentForm, stored: seq<RoomsRoute.StoredRoom>, today: string, addSucceeded: bool)
    ensures var o := HandleSubmit(form, Some(MapSeq(stored, MockRoomView)), today, addSucceeded);
            o.error == Some(RoomDoesNotExistMessage) && o.sent.None?
  {
    MissingRoomBlocksSubmit(form, MapSeq(stored, MockRoomView), today, addSucceeded);
  }
}
