/** The dental appointment service over the DentalAppointments table: creation by the signed-in
    dentist, update, delete, lookup by id, and the schedules of a dentist and of a patient.
    Status and Type are kept as the string tags the service assigns. */
module DentalAppointmentService {
  import opened Common
  import opened Collections
  import opened Text

  datatype Appointment = Appointment(
    id: int,
    patientId: string,
    dentistId: string,
    date: int,
    time: string,
    appointmentType: string,
    status: string,
    duration: int,
    notes: string)

  /** DentalAppointmentDto, without the patient summary the service does not read. */
  datatype AppointmentDto = AppointmentDto(
    date: int,
    time: string,
    duration: int,
    notes: Option<string>,
    patientId: string,
    appointmentType: string)

  function AppointmentId(a: Appointment): int
  {
    a.id
  }

  /** Id is the primary key. */
  ghost predicate UniqueIds(rows: seq<Appointment>)
  {
    UniqueKeys(rows, AppointmentId)
  }

  /** The row with key `id` (`FindAsync`, `FirstOrDefaultAsync(a => a.Id == id)`). */
  function FindAppointment(rows: seq<Appointment>, id: int): (r: Option<Appointment>)
    ensures r.Some? ==> r.value in rows && r.value.id == id
    ensures r.None? <==> forall a :: a in rows ==> a.id != id
  {
    if rows == [] then None
    else if rows[0].id == id then Some(rows[0])
    else FindAppointment(rows[1..], id)
  }

  /** The appointment CreateAppointmentAsync builds for dentist `dentistId`. */
  function NewAppointment(dto: AppointmentDto, dentistId: string, id: int): Appointment
  {
    Appointment(id, dto.patientId, dentistId, dto.date, dto.time, dto.appointmentType, "Pending",
                dto.duration, dto.notes.GetOr(""))
  }

  /** A new appointment belongs to the dentist who creates it, is pending, has the notes or ""
      and copies date, time, duration, patient and type from the request. */
  lemma NewAppointmentFields(dto: AppointmentDto, dentistId: string, id: int)
    ensures var a := NewAppointment(dto, dentistId, id);
      && a.dentistId == dentistId && a.status == "Pending"
      && (dto.notes.None? ==> a.notes == "") && (dto.notes.Some? ==> a.notes == dto.notes.value)
      && a.date == dto.date && a.time == dto.time && a.duration == dto.duration
      && a.patientId == dto.patientId && a.appointmentType == dto.appointmentType
  {
  }

  /** The appointment after UpdateAppointmentAsync's assignments. */
  function Edited(a: Appointment, dto: AppointmentDto): Appointment
  {
    a.(date := dto.date, time := dto.time, duration := dto.duration, notes := dto.notes.GetOr(""),
       appointmentType := dto.appointmentType)
  }

  /** An update changes date, time, duration, notes and type, and never the key, the patient,
      the dentist or the status. */
  lemma EditedKeepsOwnership(a: Appointment, dto: AppointmentDto)
    ensures var b := Edited(a, dto);
      && b.id == a.id && b.patientId == a.patientId && b.dentistId == a.dentistId && b.status == a.status
      && b.date == dto.date && b.time == dto.time && b.duration == dto.duration
      && b.notes == dto.notes.GetOr("") && b.appointmentType == dto.appointmentType
  {
  }

  /** The table with the row of key `id` edited. */
  function EditedRows(rows: seq<Appointment>, id: int, dto: AppointmentDto): (r: seq<Appointment>)
    ensures |r| == |rows|
  {
    seq(|rows|, i requires 0 <= i < |rows| => if rows[i].id == id then Edited(rows[i], dto) else rows[i])
  }

  /** Editing touches only the row with that key, and keeps every key where it was. */
  lemma EditedRowsTouchOnlyTarget(rows: seq<Appointment>, id: int, dto: AppointmentDto)
    requires UniqueIds(rows)
    ensures UniqueIds(EditedRows(rows, id, dto))
    ensures forall i :: 0 <= i < |rows| ==> EditedRows(rows, id, dto)[i].id == rows[i].id
    ensures forall i :: 0 <= i < |rows| && rows[i].id != id ==> EditedRows(rows, id, dto)[i] == rows[i]
    ensures FindAppointment(rows, id).Some? ==>
      FindAppointment(EditedRows(rows, id, dto), id) == Some(Edited(FindAppointment(rows, id).value, dto))
  {
    var t := EditedRows(rows, id, dto);
    assert forall i :: 0 <= i < |rows| ==> t[i].id == rows[i].id;
    if FindAppointment(rows, id).Some? {
      FindEdited(rows, id, dto);
    }
  }

  lemma {:induction false} FindEdited(rows: seq<Appointment>, id: int, dto: AppointmentDto)
    requires FindAppointment(rows, id).Some?
    ensures FindAppointment(EditedRows(rows, id, dto), id) == Some(Edited(FindAppointment(rows, id).value, dto))
  {
    var t := EditedRows(rows, id, dto);
    if rows[0].id != id {
      FindEdited(rows[1..], id, dto);
      assert t[1..] == EditedRows(rows[1..], id, dto);
    }
  }

  /** The table without the row of key `id`. */
  function Removed(rows: seq<Appointment>, id: int): (r: seq<Appointment>)
    ensures forall a :: a in r <==> a in rows && a.id != id
  {
    Filter(rows, (a: Appointment) => a.id != id)
  }

  /** `OrderByDescending(a => a.Date).ThenBy(a => a.Time)`: a later date first, and on the same
      date the time strings in ordinal order. */
  function ScheduleOrder(a: Appointment, b: Appointment): bool
  {
    a.date > b.date || (a.date == b.date && OrdinalLe(a.time, b.time))
  }

  lemma ScheduleOrderIsPreorder()
    ensures TotalPreorder(ScheduleOrder)
  {
    forall a, b ensures ScheduleOrder(a, b) || ScheduleOrder(b, a) {
      OrdinalLeTotal(a.time, b.time);
    }
    forall a, b, c | ScheduleOrder(a, b) && ScheduleOrder(b, c) ensures ScheduleOrder(a, c) {
      if a.date == b.date && b.date == c.date {
        OrdinalLeTransitive(a.time, b.time, c.time);
      }
    }
  }

  /** The rows selected by `p`, in schedule order. */
  function Schedule(rows: seq<Appointment>, p: Appointment -> bool): (r: seq<Appointment>)
    ensures forall a :: multiset(r)[a] == if p(a) then multiset(rows)[a] else 0
    ensures forall a :: a in r <==> a in rows && p(a)
    ensures SortedBy(r, ScheduleOrder)
  {
    var selected := Filter(rows, p);
    FilterMultiset(rows, p);
    ScheduleOrderIsPreorder();
    SortBySorted(selected, ScheduleOrder);
    var r := SortBy(selected, ScheduleOrder);
    assert forall a :: a in r <==> a in multiset(r);
    assert forall a :: a in selected <==> a in multiset(selected);
    r
  }

  /** The DentalAppointments table with the next value of its identity column. */
  class AppointmentTable {
    var rows: seq<Appointment>
    var nextId: int

    ghost predicate Valid()
      reads this
    {
      && UniqueIds(rows)
      && nextId > 0
      && forall a :: a in rows ==> a.id < nextId
    }

    constructor ()
      ensures Valid() && rows == [] && nextId == 1
    {
      rows := [];
      nextId := 1;
    }

    /** CreateAppointmentAsync; `callerId` is the NameIdentifier claim of the request, if any.
        Without a non-empty caller id the table is unchanged and the result is Unauthorized. */
    method CreateAppointment(callerId: Option<string>, dto: AppointmentDto) returns (r: Result<Appointment>)
      requires Valid()
      modifies this
      ensures Valid()
      ensures (callerId.None? || callerId.value == "") ==>
        r == Err(Unauthorized) && rows == old(rows) && nextId == old(nextId)
      ensures callerId.Some? && callerId.value != "" ==>
        && r == Ok(NewAppointment(dto, callerId.value, old(nextId)))
        && rows == old(rows) + [r.value] && nextId == old(nextId) + 1
    {
      if callerId.None? || callerId.value == "" {
        return Err(Unauthorized);
      }
      var appointment := NewAppointment(dto, callerId.value, nextId);
      rows := rows + [appointment];
      nextId := nextId + 1;
      r := Ok(appointment);
    }

    /** UpdateAppointmentAsync: NotFound and no change for an unknown key; otherwise the row is
        edited and returned. */
    method UpdateAppointment(id: int, dto: AppointmentDto) returns (r: Result<Appointment>)
      requires Valid()
      modifies this
      ensures Valid() && nextId == old(nextId)
      ensures FindAppointment(old(rows), id).None? ==> r == Err(NotFound) && rows == old(rows)
      ensures FindAppointment(old(rows), id).Some? ==>
        && r == Ok(Edited(FindAppointment(old(rows), id).value, dto))
        && rows == EditedRows(old(rows), id, dto)
    {
      var appointment := FindAppointment(rows, id);
      if appointment.None? {
        return Err(NotFound);
      }
      EditedRowsTouchOnlyTarget(rows, id, dto);
      rows := EditedRows(rows, id, dto);
      r := Ok(Edited(appointment.value, dto));
    }

    /** DeleteAppointmentAsync: false for an unknown key; otherwise the row is removed. */
    method DeleteAppointment(id: int) returns (ok: bool)
      requires Valid()
      modifies this
      ensures Valid() && nextId == old(nextId)
      ensures ok <==> FindAppointment(old(rows), id).Some?
      ensures rows == if ok then Removed(old(rows), id) else old(rows)
    {
      if FindAppointment(rows, id).None? {
        return false;
      }
      FilterKeepsUniqueKeys(rows, (a: Appointment) => a.id != id, AppointmentId);
      rows := Removed(rows, id);
      ok := true;
    }

    /** GetAppointmentByIdAsync: the row with that key, or NotFound. */
    function GetAppointmentById(id: int): (r: Result<Appointment>)
      reads this
      ensures r.Ok? ==> r.value in rows && r.value.id == id
      ensures r.Err? <==> forall a :: a in rows ==> a.id != id
      ensures r.Err? ==> r.error == NotFound
    {
      match FindAppointment(rows, id)
      case Some(a) => Ok(a)
      case None => Err(NotFound)
    }

    /** GetAppointmentsByDentistIdAsync: exactly the dentist's rows, in schedule order. */
    function GetAppointmentsByDentistId(dentistId: string): (r: seq<Appointment>)
      reads this
      ensures forall a :: multiset(r)[a] == if a.dentistId == dentistId then multiset(rows)[a] else 0
      ensures forall a :: a in r ==> a.dentistId == dentistId
      ensures SortedBy(r, ScheduleOrder)
    {
      Schedule(rows, (a: Appointment) => a.dentistId == dentistId)
    }

    /** GetAppointmentsByPatientIdAsync: exactly the patient's rows, in schedule order. */
    function GetAppointmentsByPatientId(patientId: string): (r: seq<Appointment>)
      reads this
      ensures forall a :: multiset(r)[a] == if a.patientId == patientId then multiset(rows)[a] else 0
      ensures forall a :: a in r ==> a.patientId == patientId
      ensures SortedBy(r, ScheduleOrder)
    {
      Schedule(rows, (a: Appointment) => a.patientId == patientId)
    }
  }

  /** Deleting removes only the rows with that key: afterwards the key is gone and every other
      row is still there, as often as before. */
  lemma DeleteRemovesOnlyTarget(rows: seq<Appointment>, id: int)
    ensures FindAppointment(Removed(rows, id), id).None?
    ensures forall a: Appointment :: a.id != id ==> multiset(Removed(rows, id))[a] == multiset(rows)[a]
  {
    FilterMultiset(rows, (a: Appointment) => a.id != id);
  }
}
