/**
 * The add-room dialog (components/add-room-dialog.tsx): field updates, the
 * `roomData` payload built on submit, and the reset after a successful add.
 */
module AddRoomDialog {
  import opened Basics
  import opened Text

  datatype RoomForm = RoomForm(roomNumber: string, block: string, floor: string, capacity: string, roomType: string, status: string)

  /** The initial form, and the one restored after a successful add: all empty, status "available". */
  function InitialRoomForm(): RoomForm {
    RoomForm("", "", "", "", "", "available")
  }

  datatype RoomField = RoomNumber | Block | Floor | Capacity | RoomType | Status

  /** The input `name` attribute (or `handleSelectChange` key) of each field. */
  function RoomFieldKey(f: RoomField): string {
    match f
    case RoomNumber => "roomNumber"
    case Block => "block"
    case Floor => "floor"
    case Capacity => "capacity"
    case RoomType => "roomType"
    case Status => "status"
  }

  function RoomFieldNamed(key: string): (f: Option<RoomField>)
    ensures f.Some? ==> RoomFieldKey(f.value) == key
  {
    if key == "roomNumber" then Some(RoomNumber)
    else if key == "block" then Some(Block)
    else if key == "floor" then Some(Floor)
    else if key == "capacity" then Some(Capacity)
    else if key == "roomType" then Some(RoomType)
    else if key == "status" then Some(Status)
    else None
  }

  lemma RoomFieldKeyRoundTrip(f: RoomField)
    ensures RoomFieldNamed(RoomFieldKey(f)) == Some(f)
  {
  }

  function RoomFieldValue(form: RoomForm, f: RoomField): string {
    match f
    case RoomNumber => form.roomNumber
    case Block => form.block
    case Floor => form.floor
    case Capacity => form.capacity
    case RoomType => form.roomType
    case Status => form.status
  }

  /**
   * `setFormData((prev) => ({ ...prev, [name]: value }))`, shared by
   * `handleChange` and `handleSelectChange`; a key naming no field leaves the
   * six fields as they were.
   */
  function UpdateRoomForm(form: RoomForm, key: string, value: string): (r: RoomForm)
    ensures RoomFieldNamed(key).Some? ==> RoomFieldValue(r, RoomFieldNamed(key).value) == value
    ensures forall f :: Some(f) != RoomFieldNamed(key) ==> RoomFieldValue(r, f) == RoomFieldValue(form, f)
  {
    match RoomFieldNamed(key)
    case None => form
    case Some(RoomNumber) => form.(roomNumber := value)
    case Some(Block) => form.(block := value)
    case Some(Floor) => form.(floor := value)
    case Some(Capacity) => form.(capacity := value)
    case Some(RoomType) => form.(roomType := value)
    case Some(Status) => form.(status := value)
  }

  /** A run of field events, in order. */
  function ApplyRoomUpdates(form: RoomForm, updates: seq<(string, string)>): RoomForm
    decreases |updates|
  {
    if updates == [] then form
    else ApplyRoomUpdates(UpdateRoomForm(form, updates[0].0, updates[0].1), updates[1..])
  }

  /** Events that never name "status" leave the status as it was. */
  lemma {:induction false} StatusKeptUnlessSet(form: RoomForm, updates: seq<(string, string)>)
    requires forall i :: 0 <= i < |updates| ==> updates[i].0 != "status"
    ensures ApplyRoomUpdates(form, updates).status == form.status
    decreases |updates|
  {
    if updates != [] {
      var next := UpdateRoomForm(form, updates[0].0, updates[0].1);
      assert RoomFieldValue(next, Status) == RoomFieldValue(form, Status);
      StatusKeptUnlessSet(next, updates[1..]);
    }
  }

  /** The `roomData` object sent to `addRoom`; `capacity` is None for NaN. */
  datatype RoomPayload = RoomPayload(roomNumber: string, block: string, floor: string, capacity: Option<nat>, occupants: nat, status: string)

  function BuildRoomPayload(form: RoomForm): (p: RoomPayload)
    ensures p.roomNumber == RoomCode(form.block, form.roomNumber)
    ensures p.block == form.block && p.floor == form.floor
    ensures p.capacity.None? <==> form.capacity == [] || !IsDigit(form.capacity[0])
    ensures p.occupants == 0 && p.status == form.status
  {
    RoomPayload(RoomCode(form.block, form.roomNumber), form.block, form.floor, ParseIntPrefix(form.capacity), 0, form.status)
  }

  /** With one of the selectable blocks (no dash in it), the sent code splits back into block and number. */
  lemma PayloadCodeSplits(form: RoomForm)
    requires '-' !in form.block
    ensures SplitRoomCode(BuildRoomPayload(form).roomNumber) == Some((form.block, form.roomNumber))
  {
    SplitRoomCodeInverse(form.block, form.roomNumber);
  }

  /** A capacity typed as a decimal number is sent as that number. */
  lemma CapacityRoundTrip(form: RoomForm, n: nat)
    requires form.capacity == NatToString(n)
    ensures BuildRoomPayload(form).capacity == Some(n)
  {
    ParseIntOfNatToString(n, []);
    assert NatToString(n) + [] == NatToString(n);
  }

  /** The room type is collected but never sent. */
  lemma RoomTypeNotSent(form: RoomForm, roomType: string)
    ensures BuildRoomPayload(form.(roomType := roomType)) == BuildRoomPayload(form)
  {
  }

  /** A room added without touching the status select is sent as "available". */
  lemma DefaultStatusIsAvailable(updates: seq<(string, string)>)
    requires forall i :: 0 <= i < |updates| ==> updates[i].0 != "status"
    ensures BuildRoomPayload(ApplyRoomUpdates(InitialRoomForm(), updates)).status == "available"
  {
    StatusKeptUnlessSet(InitialRoomForm(), updates);
  }

  const AddRoomFailedMessage := "Failed to add room. Please try again."

  /** What one submit leaves behind: the form, the payload sent, the alert shown, and whether the dialog closed. */
  datatype RoomSubmitOutcome = RoomSubmitOutcome(form: RoomForm, sent: RoomPayload, alert: Option<string>, closed: bool)

  /** `handleSubmit`; `addSucceeded` is whether `addRoom` resolves. */
  function HandleRoomSubmit(form: RoomForm, addSucceeded: bool): (o: RoomSubmitOutcome)
    ensures o.sent == BuildRoomPayload(form)
    ensures addSucceeded ==> o.form == InitialRoomForm() && o.closed && o.alert.None?
    ensures !addSucceeded ==> o.form == form && !o.closed && o.alert == Some(AddRoomFailedMessage)
  {
    var payload := BuildRoomPayload(form);
    if addSucceeded then RoomSubmitOutcome(InitialRoomForm(), payload, None, true)
    else RoomSubmitOutcome(form, payload, Some(AddRoomFailedMessage), false)
  }

  /** After a successful add the next room starts again from "available". */
  lemma ResetRestoresDefault(form: RoomForm)
    ensures var next := HandleRoomSubmit(form, true).form;
            next.status == "available" && forall f :: f != Status ==> RoomFieldValue(next, f) == ""
  {
  }
}
