/**
 * The in-memory mock backend: one store holding the five module-level
 * collections, with one method per API call of `departmentAPI`,
 * `expertAPI`, `scheduleAPI`, `appointmentAPI` and `settingsAPI`. Every call
 * runs to completion before the next (the simulated latency is left out),
 * a new id and the current time are parameters, and each method's
 * `modifies` clause names the only collections it may change.
 */
module MockApi {
  import opened Records
  import opened Tables
  import opened Ledger

  class Store {
    var departments: seq<Department>
    var experts: seq<Expert>
    var schedules: seq<Schedule>
    var appointments: seq<Appointment>
    var settings: Settings

    /** The store as the seed generator leaves it. */
    constructor (departments: seq<Department>, experts: seq<Expert>, schedules: seq<Schedule>,
                 appointments: seq<Appointment>, settings: Settings)
      ensures this.departments == departments && this.experts == experts && this.schedules == schedules
      ensures this.appointments == appointments && this.settings == settings
    {
      this.departments := departments;
      this.experts := experts;
      this.schedules := schedules;
      this.appointments := appointments;
      this.settings := settings;
    }

    // ----- departmentAPI -----

    method GetDepartments() returns (r: seq<Department>)
      ensures r == departments
    {
      r := departments;
    }

    /** The first department with this id, if any. */
    method GetDepartment(id: string) returns (r: Option<Department>)
      ensures r.None? <==> forall i :: 0 <= i < |departments| ==> departments[i].id != id
      ensures var k := IndexOf(departments, DepartmentKey, id); k != -1 ==> r == Some(departments[k])
    {
      IndexOfSpec(departments, DepartmentKey, id);
      var k := IndexOf(departments, DepartmentKey, id);
      r := if k == -1 then None else Some(departments[k]);
    }

    method CreateDepartment(draft: DepartmentDraft, newId: string) returns (d: Department)
      modifies this`departments
      ensures d == DepartmentWithId(draft, newId)
      ensures departments == old(departments) + [d]
    {
      d := DepartmentWithId(draft, newId);
      departments := departments + [d];
    }

    /** Replaces the first department with this id by its merge with the patch. */
    method UpdateDepartment(id: string, patch: DepartmentPatch) returns (r: Option<Department>)
      modifies this`departments
      ensures var k := IndexOf(old(departments), DepartmentKey, id);
        if k == -1 then r == None && departments == old(departments)
        else r == Some(MergeDepartment(old(departments)[k], patch)) && departments == old(departments)[k := r.value]
    {
      var k := IndexOf(departments, DepartmentKey, id);
      if k != -1 {
        departments := departments[k := MergeDepartment(departments[k], patch)];
        r := Some(departments[k]);
      } else {
        r := None;
      }
    }

    /** Splices out the first department with this id; says whether there was one. */
    method DeleteDepartment(id: string) returns (found: bool)
      modifies this`departments
      ensures found <==> exists i :: 0 <= i < |old(departments)| && old(departments)[i].id == id
      ensures found ==> |departments| == |old(departments)| - 1
      ensures departments == RemoveFirstWithId(old(departments), DepartmentKey, id)
    {
      IndexOfSpec(departments, DepartmentKey, id);
      var k := IndexOf(departments, DepartmentKey, id);
      if k != -1 {
        departments := RemoveAt(departments, k);
        found := true;
      } else {
        found := false;
      }
    }

    // ----- expertAPI -----

    method GetExperts() returns (r: seq<Expert>)
      ensures r == experts
    {
      r := experts;
    }

    method GetExpert(id: string) returns (r: Option<Expert>)
      ensures r.None? <==> forall i :: 0 <= i < |experts| ==> experts[i].id != id
      ensures var k := IndexOf(experts, ExpertKey, id); k != -1 ==> r == Some(experts[k])
    {
      IndexOfSpec(experts, ExpertKey, id);
      var k := IndexOf(experts, ExpertKey, id);
      r := if k == -1 then None else Some(experts[k]);
    }

    method GetExpertsByDepartment(departmentId: string) returns (r: seq<Expert>)
      ensures r == ExpertsIn(experts, departmentId)
    {
      r := ExpertsIn(experts, departmentId);
    }

    method CreateExpert(draft: ExpertDraft, newId: string) returns (e: Expert)
      modifies this`experts
      ensures e == ExpertWithId(draft, newId)
      ensures experts == old(experts) + [e]
    {
      e := ExpertWithId(draft, newId);
      experts := experts + [e];
    }

    method UpdateExpert(id: string, patch: ExpertPatch) returns (r: Option<Expert>)
      modifies this`experts
      ensures var k := IndexOf(old(experts), ExpertKey, id);
        if k == -1 then r == None && experts == old(experts)
        else r == Some(MergeExpert(old(experts)[k], patch)) && experts == old(experts)[k := r.value]
    {
      var k := IndexOf(experts, ExpertKey, id);
      if k != -1 {
        experts := experts[k := MergeExpert(experts[k], patch)];
        r := Some(experts[k]);
      } else {
        r := None;
      }
    }

    /**
     * Splices out the first expert with this id and then, for each schedule
     * and each appointment of that expert, splices out the first record with
     * that record's id. With unique ids this leaves no expert, schedule or
     * appointment of the expert and keeps every other record in order.
     */
    method DeleteExpert(id: string) returns (found: bool)
      modifies this`experts, this`schedules, this`appointments
      ensures found <==> exists i :: 0 <= i < |old(experts)| && old(experts)[i].id == id
      ensures !found ==> experts == old(experts) && schedules == old(schedules) && appointments == old(appointments)
      ensures found ==> experts == RemoveFirstWithId(old(experts), ExpertKey, id)
      ensures found ==> schedules == CascadeSchedules(old(schedules), id)
      ensures found ==> appointments == CascadeAppointments(old(appointments), id)
      ensures found && UniqueIds(old(experts), ExpertKey) ==> experts == ExpertsWithout(old(experts), id)
      ensures found && UniqueIds(old(schedules), ScheduleKey) && UniqueIds(old(appointments), AppointmentKey) ==>
        schedules == SchedulesWithout(old(schedules), id) && appointments == AppointmentsWithout(old(appointments), id)
    {
      IndexOfSpec(experts, ExpertKey, id);
      var k := IndexOf(experts, ExpertKey, id);
      if k == -1 {
        return false;
      }
      experts := RemoveAt(experts, k);
      SpliceSchedulesOf(id);
      SpliceAppointmentsOf(id);
      found := true;
      DeletionWithUniqueIds(old(experts), old(schedules), old(appointments), id);
    }

    /** The schedule half of the cascade: each schedule of the expert is spliced out by its id. */
    method SpliceSchedulesOf(expertId: string)
      modifies this`schedules
      ensures schedules == CascadeSchedules(old(schedules), expertId)
    {
      var doomed := SchedulesOf(schedules, expertId);
      for i := 0 to |doomed|
        invariant RemoveEach(schedules, ScheduleKey, doomed[i..]) == CascadeSchedules(old(schedules), expertId)
      {
        assert doomed[i..][1..] == doomed[i + 1..];
        var j := IndexOf(schedules, ScheduleKey, doomed[i].id);
        if j != -1 {
          schedules := RemoveAt(schedules, j);
        }
      }
      assert doomed[|doomed|..] == [];
    }

    /** The appointment half of the cascade: each appointment with the expert is spliced out by its id. */
    method SpliceAppointmentsOf(expertId: string)
      modifies this`appointments
      ensures appointments == CascadeAppointments(old(appointments), expertId)
    {
      var doomed := AppointmentsOf(appointments, expertId);
      for i := 0 to |doomed|
        invariant RemoveEach(appointments, AppointmentKey, doomed[i..]) == CascadeAppointments(old(appointments), expertId)
      {
        assert doomed[i..][1..] == doomed[i + 1..];
        var j := IndexOf(appointments, AppointmentKey, doomed[i].id);
        if j != -1 {
          appointments := RemoveAt(appointments, j);
        }
      }
      assert doomed[|doomed|..] == [];
    }

    // ----- scheduleAPI -----

    method GetSchedules() returns (r: seq<Schedule>)
      ensures r == schedules
    {
      r := schedules;
    }

    method GetSchedulesByExpert(expertId: string) returns (r: seq<Schedule>)
      ensures r == SchedulesOf(schedules, expertId)
    {
      r := SchedulesOf(schedules, expertId);
    }

    method GetSchedulesByDate(date: string) returns (r: seq<Schedule>)
      ensures r == SchedulesOn(schedules, date)
    {
      r := SchedulesOn(schedules, date);
    }

    method GetSchedulesByExpertAndDate(expertId: string, date: string) returns (r: seq<Schedule>)
      ensures r == SchedulesOfOn(schedules, expertId, date)
    {
      r := SchedulesOfOn(schedules, expertId, date);
    }

    /** Replaces the first schedule with this id by its merge with the patch (slot counts included). */
    method UpdateSchedule(id: string, patch: SchedulePatch) returns (r: Option<Schedule>)
      modifies this`schedules
      ensures var k := IndexOf(old(schedules), ScheduleKey, id);
        if k == -1 then r == None && schedules == old(schedules)
        else r == Some(MergeSchedule(old(schedules)[k], patch)) && schedules == old(schedules)[k := r.value]
    {
      var k := IndexOf(schedules, ScheduleKey, id);
      if k != -1 {
        schedules := schedules[k := MergeSchedule(schedules[k], patch)];
        r := Some(schedules[k]);
      } else {
        r := None;
      }
    }

    /**
     * For each target expert in table order and each time-of-day bucket,
     * appends a schedule unless one for that (expert, date, bucket) exists;
     * returns exactly what it appended.
     */
    method GenerateSchedules(date: string, expertIds: Option<seq<string>>) returns (added: seq<Schedule>)
      modifies this`schedules
      ensures schedules == AddForExperts(old(schedules), Targets(experts, expertIds), date, TimeSlots)
      ensures schedules == old(schedules) + added
    {
      added := GenerateForExperts(Targets(experts, expertIds), date, TimeSlots);
    }

    /** The outer pass of the generator: every target expert in order, each over the buckets `slots`. */
    method GenerateForExperts(targets: seq<Expert>, date: string, slots: seq<string>) returns (added: seq<Schedule>)
      modifies this`schedules
      ensures schedules == AddForExperts(old(schedules), targets, date, slots)
      ensures schedules == old(schedules) + added
    {
      ghost var goal := AddForExperts(schedules, targets, date, slots);
      ghost var start := schedules;
      added := [];
      assert targets[0..] == targets;
      for i := 0 to |targets|
        invariant AddForExperts(schedules, targets[i..], date, slots) == goal
        invariant schedules == start + added
      {
        var more := GenerateNext(targets, date, slots, i, goal);
        assert start + (added + more) == (start + added) + more;
        added := added + more;
      }
      assert targets[|targets|..] == [];
    }

    /** The generator's pass for the `i`-th target expert, moving the expert pass on by one. */
    method GenerateNext(targets: seq<Expert>, date: string, slots: seq<string>, i: nat, ghost goal: seq<Schedule>)
      returns (more: seq<Schedule>)
      requires i < |targets|
      requires AddForExperts(schedules, targets[i..], date, slots) == goal
      modifies this`schedules
      ensures AddForExperts(schedules, targets[i + 1..], date, slots) == goal
      ensures schedules == old(schedules) + more
    {
      AddForExpertsStep(schedules, targets, date, slots, i);
      more := GenerateForExpert(targets[i], date, slots);
    }

    /** The inner pass of the generator: the buckets `slots` of one expert on one date. */
    method GenerateForExpert(e: Expert, date: string, slots: seq<string>) returns (added: seq<Schedule>)
      modifies this`schedules
      ensures schedules == AddSlots(old(schedules), e, date, slots)
      ensures schedules == old(schedules) + added
    {
      ghost var start := schedules;
      added := [];
      for j := 0 to |slots|
        invariant AddSlots(schedules, e, date, slots[j..]) == AddSlots(start, e, date, slots)
        invariant schedules == start + added
      {
        var slot := slots[j];
        AddSlotsStep(schedules, e, date, slots, j);
        var present := HasSlot(schedules, e.id, date, slot);
        if !present {
          var s := NewSchedule(e, date, slot);
          assert start + (added + [s]) == (start + added) + [s];
          schedules := schedules + [s];
          added := added + [s];
        }
      }
      assert slots[|slots|..] == [];
    }

    // ----- appointmentAPI -----

    method GetAppointments() returns (r: seq<Appointment>)
      ensures r == appointments
    {
      r := appointments;
    }

    method GetAppointmentsByPatient(patientId: string) returns (r: seq<Appointment>)
      ensures r == AppointmentsOfPatient(appointments, patientId)
    {
      r := AppointmentsOfPatient(appointments, patientId);
    }

    method GetAppointmentsByExpert(expertId: string) returns (r: seq<Appointment>)
      ensures r == AppointmentsOf(appointments, expertId)
    {
      r := AppointmentsOf(appointments, expertId);
    }

    method GetAppointmentsByDate(date: string) returns (r: seq<Appointment>)
      ensures r == AppointmentsOn(appointments, date)
    {
      r := AppointmentsOn(appointments, date);
    }

    /**
     * Appends the new appointment, pending when confirmation is required and
     * confirmed otherwise, and takes one slot from the first schedule with
     * the draft's schedule id, with no check that a slot is left.
     */
    method CreateAppointment(draft: AppointmentDraft, newId: string, now: string) returns (a: Appointment)
      modifies this`schedules, this`appointments
      ensures a == NewAppointment(draft, newId, now, settings.requireConfirmation)
      ensures a.status == Pending <==> settings.requireConfirmation
      ensures appointments == old(appointments) + [a]
      ensures schedules == AdjustSlots(old(schedules), draft.scheduleId, -1.0)
    {
      a := NewAppointment(draft, newId, now, settings.requireConfirmation);
      MoveSlots(draft.scheduleId, -1.0);
      appointments := appointments + [a];
    }

    /** `availableSlots += delta` on the first schedule with this id, when there is one. */
    method MoveSlots(scheduleId: string, delta: real)
      modifies this`schedules
      ensures schedules == AdjustSlots(old(schedules), scheduleId, delta)
    {
      var k := IndexOf(schedules, ScheduleKey, scheduleId);
      if k != -1 {
        schedules := schedules[k := schedules[k].(availableSlots := schedules[k].availableSlots + delta)];
      }
    }

    method UpdateAppointment(id: string, patch: AppointmentPatch) returns (r: Option<Appointment>)
      modifies this`appointments
      ensures var k := IndexOf(old(appointments), AppointmentKey, id);
        if k == -1 then r == None && appointments == old(appointments)
        else r == Some(MergeAppointment(old(appointments)[k], patch)) && appointments == old(appointments)[k := r.value]
    {
      var k := IndexOf(appointments, AppointmentKey, id);
      if k != -1 {
        appointments := appointments[k := MergeAppointment(appointments[k], patch)];
        r := Some(appointments[k]);
      } else {
        r := None;
      }
    }

    /**
     * Splices out the first appointment with this id and gives one slot back
     * to the first schedule with that appointment's schedule id.
     */
    method DeleteAppointment(id: string) returns (found: bool)
      modifies this`schedules, this`appointments
      ensures found <==> exists i :: 0 <= i < |old(appointments)| && old(appointments)[i].id == id
      ensures !found ==> appointments == old(appointments) && schedules == old(schedules)
      ensures var k := IndexOf(old(appointments), AppointmentKey, id);
        k != -1 ==>
          && appointments == RemoveAt(old(appointments), k)
          && schedules == AdjustSlots(old(schedules), old(appointments)[k].scheduleId, 1.0)
    {
      IndexOfSpec(appointments, AppointmentKey, id);
      var k := IndexOf(appointments, AppointmentKey, id);
      if k == -1 {
        return false;
      }
      var appointment := appointments[k];
      MoveSlots(appointment.scheduleId, 1.0);
      appointments := RemoveAt(appointments, k);
      found := true;
    }

    /** Marks the first appointment with this id confirmed and stamps the confirmation time. */
    method ConfirmAppointment(id: string, now: string) returns (r: Option<Appointment>)
      modifies this`appointments
      ensures var k := IndexOf(old(appointments), AppointmentKey, id);
        if k == -1 then r == None && appointments == old(appointments)
        else
          && r == Some(old(appointments)[k].(status := Confirmed, confirmTime := Some(now)))
          && appointments == old(appointments)[k := r.value]
    {
      var k := IndexOf(appointments, AppointmentKey, id);
      if k != -1 {
        appointments := appointments[k := appointments[k].(status := Confirmed, confirmTime := Some(now))];
        r := Some(appointments[k]);
      } else {
        r := None;
      }
    }

    // ----- settingsAPI -----

    method GetSettings() returns (r: Settings)
      ensures r == settings
    {
      r := settings;
    }

    method UpdateSettings(patch: SettingsPatch) returns (r: Settings)
      modifies this`settings
      ensures settings == MergeSettings(old(settings), patch) && r == settings
    {
      settings := MergeSettings(settings, patch);
      r := settings;
    }
  }

  /**
   * Booking and then cancelling with a fresh id, seen from a caller of the
   * store: the cancellation finds the new appointment, and every schedule
   * and the appointment list are as before.
   */
  method CreateThenDeleteRestores(store: Store, draft: AppointmentDraft, newId: string, now: string)
    returns (found: bool)
    requires forall i :: 0 <= i < |store.appointments| ==> store.appointments[i].id != newId
    modifies store`schedules, store`appointments
    ensures found
    ensures store.schedules == old(store.schedules) && store.appointments == old(store.appointments)
  {
    ghost var schedules0, appointments0 := store.schedules, store.appointments;
    BookThenCancelRestores(schedules0, appointments0, draft, newId, now, store.settings.requireConfirmation);
    var a := store.CreateAppointment(draft, newId, now);
    found := store.DeleteAppointment(newId);
  }

  /** Generating twice for the same date and experts: the second call appends and returns nothing. */
  method GenerateTwiceAddsNothing(store: Store, date: string, expertIds: Option<seq<string>>)
    returns (second: seq<Schedule>)
    modifies store`schedules
    ensures second == []
    ensures store.schedules == AddForExperts(old(store.schedules), Targets(old(store.experts), expertIds), date, TimeSlots)
  {
    var first := store.GenerateSchedules(date, expertIds);
    GenerationIdempotent(old(store.schedules), Targets(store.experts, expertIds), date, TimeSlots);
    second := store.GenerateSchedules(date, expertIds);
  }
}
