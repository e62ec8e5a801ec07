/**
 * The five kinds of record the mock backend keeps: departments, experts,
 * schedules, appointments and the system settings, with the field lists of
 * the seed data. A `Partial<T>` argument of an update is a patch whose every
 * field is optional; `{ ...old, ...patch }` is the merge below, in which a
 * field the patch carries wins (the id included).
 */
module Records {

  datatype Option<T> = None | Some(value: T)

  /** The value of one field after a spread: the patch's when it has one. */
  function Pick<T>(patch: Option<T>, current: T): T
  {
    if patch.Some? then patch.value else current
  }

  // ----- departments -----

  datatype Department = Department(id: string, name: string, specialties: seq<string>, description: string)

  /** A department without its id, as `createDepartment` receives it. */
  datatype DepartmentDraft = DepartmentDraft(name: string, specialties: seq<string>, description: string)

  datatype DepartmentPatch = DepartmentPatch(
    id: Option<string>, name: Option<string>, specialties: Option<seq<string>>, description: Option<string>)

  function DepartmentKey(d: Department): string { d.id }

  function DepartmentWithId(draft: DepartmentDraft, id: string): (d: Department)
    ensures d.id == id && DepartmentDraft(d.name, d.specialties, d.description) == draft
  {
    Department(id, draft.name, draft.specialties, draft.description)
  }

  function MergeDepartment(d: Department, p: DepartmentPatch): Department
  {
    Department(Pick(p.id, d.id), Pick(p.name, d.name), Pick(p.specialties, d.specialties),
               Pick(p.description, d.description))
  }

  // ----- experts -----

  datatype Expert = Expert(
    id: string, name: string, departmentId: string, title: string, specialty: string,
    maxAppointments: int, description: string)

  datatype ExpertDraft = ExpertDraft(
    name: string, departmentId: string, title: string, specialty: string,
    maxAppointments: int, description: string)

  datatype ExpertPatch = ExpertPatch(
    id: Option<string>, name: Option<string>, departmentId: Option<string>, title: Option<string>,
    specialty: Option<string>, maxAppointments: Option<int>, description: Option<string>)

  function ExpertKey(e: Expert): string { e.id }

  function ExpertWithId(draft: ExpertDraft, id: string): (e: Expert)
    ensures e.id == id
    ensures ExpertDraft(e.name, e.departmentId, e.title, e.specialty, e.maxAppointments, e.description) == draft
  {
    Expert(id, draft.name, draft.departmentId, draft.title, draft.specialty, draft.maxAppointments,
           draft.description)
  }

  function MergeExpert(e: Expert, p: ExpertPatch): Expert
  {
    Expert(Pick(p.id, e.id), Pick(p.name, e.name), Pick(p.departmentId, e.departmentId),
           Pick(p.title, e.title), Pick(p.specialty, e.specialty),
           Pick(p.maxAppointments, e.maxAppointments), Pick(p.description, e.description))
  }

  // ----- schedules -----

  /**
   * One bookable time-of-day bucket of one expert on one date. The slot
   * counts are `real`: the backend sets them to `maxAppointments / 3`, a
   * JavaScript division that does not round.
   */
  datatype Schedule = Schedule(
    id: string, expertId: string, date: string, timeSlot: string,
    availableSlots: real, maxSlots: real)

  datatype SchedulePatch = SchedulePatch(
    id: Option<string>, expertId: Option<string>, date: Option<string>, timeSlot: Option<string>,
    availableSlots: Option<real>, maxSlots: Option<real>)

  function ScheduleKey(s: Schedule): string { s.id }

  function MergeSchedule(s: Schedule, p: SchedulePatch): Schedule
  {
    Schedule(Pick(p.id, s.id), Pick(p.expertId, s.expertId), Pick(p.date, s.date),
             Pick(p.timeSlot, s.timeSlot), Pick(p.availableSlots, s.availableSlots),
             Pick(p.maxSlots, s.maxSlots))
  }

  // ----- appointments -----

  /** A status label other than the two the backend itself writes. */
  type OtherLabel = s: string | s != "pending" && s != "confirmed" witness "cancelled"

  /**
   * The backend writes 'pending' and 'confirmed'; a patch may write any other
   * label, and each label has exactly one representation.
   */
  datatype Status = Pending | Confirmed | OtherStatus(name: OtherLabel)

  datatype Appointment = Appointment(
    id: string, patientId: string, patientName: string, expertId: string, expertName: string,
    departmentId: string, departmentName: string, scheduleId: string, appointmentDate: string,
    timeSlot: string, status: Status, createTime: string, confirmTime: Option<string>, notes: string)

  /** An appointment without id, status and creation time, as `createAppointment` receives it. */
  datatype AppointmentDraft = AppointmentDraft(
    patientId: string, patientName: string, expertId: string, expertName: string,
    departmentId: string, departmentName: string, scheduleId: string, appointmentDate: string,
    timeSlot: string, confirmTime: Option<string>, notes: string)

  datatype AppointmentPatch = AppointmentPatch(
    id: Option<string>, patientId: Option<string>, patientName: Option<string>,
    expertId: Option<string>, expertName: Option<string>, departmentId: Option<string>,
    departmentName: Option<string>, scheduleId: Option<string>, appointmentDate: Option<string>,
    timeSlot: Option<string>, status: Option<Status>, createTime: Option<string>,
    confirmTime: Option<string>, notes: Option<string>)

  function AppointmentKey(a: Appointment): string { a.id }

  function MergeAppointment(a: Appointment, p: AppointmentPatch): Appointment
  {
    Appointment(
      Pick(p.id, a.id), Pick(p.patientId, a.patientId), Pick(p.patientName, a.patientName),
      Pick(p.expertId, a.expertId), Pick(p.expertName, a.expertName),
      Pick(p.departmentId, a.departmentId), Pick(p.departmentName, a.departmentName),
      Pick(p.scheduleId, a.scheduleId), Pick(p.appointmentDate, a.appointmentDate),
      Pick(p.timeSlot, a.timeSlot), Pick(p.status, a.status), Pick(p.createTime, a.createTime),
      if p.confirmTime.Some? then p.confirmTime else a.confirmTime, Pick(p.notes, a.notes))
  }

  // ----- settings -----

  datatype Settings = Settings(
    id: string, appointmentRange: int, requireConfirmation: bool, maxDailyAppointments: int)

  datatype SettingsPatch = SettingsPatch(
    id: Option<string>, appointmentRange: Option<int>, requireConfirmation: Option<bool>,
    maxDailyAppointments: Option<int>)

  function MergeSettings(s: Settings, p: SettingsPatch): Settings
  {
    Settings(Pick(p.id, s.id), Pick(p.appointmentRange, s.appointmentRange),
             Pick(p.requireConfirmation, s.requireConfirmation),
             Pick(p.maxDailyAppointments, s.maxDailyAppointments))
  }

  // ----- laws of the spread merge -----

  const NoDepartmentChange := DepartmentPatch(None, None, None, None)
  const NoExpertChange := ExpertPatch(None, None, None, None, None, None, None)
  const NoScheduleChange := SchedulePatch(None, None, None, None, None, None)
  const NoAppointmentChange :=
    AppointmentPatch(None, None, None, None, None, None, None, None, None, None, None, None, None, None)
  const NoSettingsChange := SettingsPatch(None, None, None, None)

  /**
   * A merge keeps every field the patch leaves out, takes every field it
   * carries, does nothing for an empty patch, and applying the same patch
   * twice is the same as applying it once.
   */
  lemma MergeDepartmentLaws(d: Department, p: DepartmentPatch)
    ensures MergeDepartment(d, NoDepartmentChange) == d
    ensures MergeDepartment(MergeDepartment(d, p), p) == MergeDepartment(d, p)
    ensures var r := MergeDepartment(d, p);
      && (p.id.None? ==> r.id == d.id) && (p.id.Some? ==> r.id == p.id.value)
      && (p.name.None? ==> r.name == d.name) && (p.name.Some? ==> r.name == p.name.value)
      && (p.specialties.None? ==> r.specialties == d.specialties)
      && (p.specialties.Some? ==> r.specialties == p.specialties.value)
      && (p.description.None? ==> r.description == d.description)
      && (p.description.Some? ==> r.description == p.description.value)
  {
  }

  lemma MergeExpertLaws(e: Expert, p: ExpertPatch)
    ensures MergeExpert(e, NoExpertChange) == e
    ensures MergeExpert(MergeExpert(e, p), p) == MergeExpert(e, p)
    ensures var r := MergeExpert(e, p);
      && (p.id.None? ==> r.id == e.id) && (p.id.Some? ==> r.id == p.id.value)
      && (p.name.None? ==> r.name == e.name) && (p.name.Some? ==> r.name == p.name.value)
      && (p.departmentId.None? ==> r.departmentId == e.departmentId)
      && (p.departmentId.Some? ==> r.departmentId == p.departmentId.value)
      && (p.title.None? ==> r.title == e.title) && (p.title.Some? ==> r.title == p.title.value)
      && (p.specialty.None? ==> r.specialty == e.specialty)
      && (p.specialty.Some? ==> r.specialty == p.specialty.value)
      && (p.maxAppointments.None? ==> r.maxAppointments == e.maxAppointments)
      && (p.maxAppointments.Some? ==> r.maxAppointments == p.maxAppointments.value)
      && (p.description.None? ==> r.description == e.description)
      && (p.description.Some? ==> r.description == p.description.value)
  {
  }

  lemma MergeScheduleLaws(s: Schedule, p: SchedulePatch)
    ensures MergeSchedule(s, NoScheduleChange) == s
    ensures MergeSchedule(MergeSchedule(s, p), p) == MergeSchedule(s, p)
    ensures p.id.None? ==> MergeSchedule(s, p).id == s.id
    ensures p.availableSlots.None? ==> MergeSchedule(s, p).availableSlots == s.availableSlots
    ensures p.availableSlots.Some? ==> MergeSchedule(s, p).availableSlots == p.availableSlots.value
  {
  }

  lemma MergeAppointmentLaws(a: Appointment, p: AppointmentPatch)
    ensures MergeAppointment(a, NoAppointmentChange) == a
    ensures MergeAppointment(MergeAppointment(a, p), p) == MergeAppointment(a, p)
    ensures p.id.None? ==> MergeAppointment(a, p).id == a.id
    ensures p.status.Some? ==> MergeAppointment(a, p).status == p.status.value
    ensures p.status.None? ==> MergeAppointment(a, p).status == a.status
  {
  }

  lemma MergeSettingsLaws(s: Settings, p: SettingsPatch)
    ensures MergeSettings(s, NoSettingsChange) == s
    ensures MergeSettings(MergeSettings(s, p), p) == MergeSettings(s, p)
    ensures p.requireConfirmation.Some? ==> MergeSettings(s, p).requireConfirmation == p.requireConfirmation.value
    ensures p.requireConfirmation.None? ==> MergeSettings(s, p).requireConfirmation == s.requireConfirmation
  {
  }
}
