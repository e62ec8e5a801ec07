/**
 * What the mock backend's operations do to its tables, as functions of the
 * tables before the call, and the properties they have: slot accounting by
 * booking and cancelling, schedule generation, and the cascade when an
 * expert is deleted.
 */
module Ledger {
  import opened Records
  import opened Tables

  // ----- slot accounting -----

  /** Adds `delta` to `availableSlots` of the first schedule whose id is `scheduleId`, if any. */
  function AdjustSlots(schedules: seq<Schedule>, scheduleId: string, delta: real): seq<Schedule>
  {
    var k := IndexOf(schedules, ScheduleKey, scheduleId);
    if k == -1 then schedules
    else schedules[k := schedules[k].(availableSlots := schedules[k].availableSlots + delta)]
  }

  /**
   * A slot change keeps the table's length; changes nothing when no
   * schedule has the id; otherwise changes only the first schedule with the
   * id, and only its `availableSlots`, by exactly `delta`. There is no
   * bound: the count may go below zero or above `maxSlots`.
   */
  lemma AdjustSlotsSpec(schedules: seq<Schedule>, scheduleId: string, delta: real)
    ensures var r := AdjustSlots(schedules, scheduleId, delta);
      var k := IndexOf(schedules, ScheduleKey, scheduleId);
      && |r| == |schedules|
      && (k == -1 ==> r == schedules)
      && (forall i :: 0 <= i < |r| && i != k ==> r[i] == schedules[i])
      && (forall i :: 0 <= i < |r| ==> r[i].(availableSlots := schedules[i].availableSlots) == schedules[i])
      && (k != -1 ==> r[k].availableSlots == schedules[k].availableSlots + delta)
  {
  }

  /** Adjusting the slots leaves every id where it was, so the same schedule is found again. */
  lemma AdjustSlotsKeepsIndex(schedules: seq<Schedule>, scheduleId: string, delta: real, id: string)
    ensures IndexOf(AdjustSlots(schedules, scheduleId, delta), ScheduleKey, id) == IndexOf(schedules, ScheduleKey, id)
  {
    IndexOfSameKeys(AdjustSlots(schedules, scheduleId, delta), schedules, ScheduleKey, id);
  }

  /** Taking a slot and giving it back to the same schedule id restores every schedule. */
  lemma AdjustSlotsInverse(schedules: seq<Schedule>, scheduleId: string, delta: real)
    ensures AdjustSlots(AdjustSlots(schedules, scheduleId, -delta), scheduleId, delta) == schedules
  {
    var k := IndexOf(schedules, ScheduleKey, scheduleId);
    var once := AdjustSlots(schedules, scheduleId, -delta);
    AdjustSlotsKeepsIndex(schedules, scheduleId, -delta, scheduleId);
    assert IndexOf(once, ScheduleKey, scheduleId) == k;
    if k != -1 {
      assert once == schedules[k := schedules[k].(availableSlots := schedules[k].availableSlots - delta)];
      assert AdjustSlots(once, scheduleId, delta) == once[k := once[k].(availableSlots := once[k].availableSlots + delta)];
      TakeThenGiveBack(schedules, k, delta);
    }
  }

  /** Moving the count at position `k` down by `delta` and back up restores the table. */
  lemma TakeThenGiveBack(schedules: seq<Schedule>, k: nat, delta: real)
    requires k < |schedules|
    ensures var once := schedules[k := schedules[k].(availableSlots := schedules[k].availableSlots - delta)];
      once[k := once[k].(availableSlots := once[k].availableSlots + delta)] == schedules
  {
  }

  /**
   * Every schedule's available count is a whole number. Whole numbers of
   * moderate size are exact in the backend's floating-point counters, so on
   * such tables the exact arithmetic here agrees with the backend's.
   */
  predicate WholeCounts(schedules: seq<Schedule>)
  {
    forall i :: 0 <= i < |schedules| ==> schedules[i].availableSlots.Floor as real == schedules[i].availableSlots
  }

  /** A whole-number slot change keeps whole counts whole. */
  lemma AdjustSlotsKeepsWholeCounts(schedules: seq<Schedule>, scheduleId: string, delta: int)
    requires WholeCounts(schedules)
    ensures WholeCounts(AdjustSlots(schedules, scheduleId, delta as real))
  {
    var r := AdjustSlots(schedules, scheduleId, delta as real);
    AdjustSlotsSpec(schedules, scheduleId, delta as real);
    forall i | 0 <= i < |r| ensures r[i].availableSlots.Floor as real == r[i].availableSlots {
      var c := schedules[i].availableSlots;
      if r[i].availableSlots != c {
        assert r[i].availableSlots == (c.Floor + delta) as real;
      }
    }
  }

  /** A generated count is a whole number exactly when the expert's daily maximum is a multiple of 3. */
  lemma WholeCapacity(e: Expert)
    ensures SlotCapacity(e).Floor as real == SlotCapacity(e) <==> e.maxAppointments % 3 == 0
  {
    var m := e.maxAppointments;
    var c := SlotCapacity(e);
    if m % 3 == 0 {
      assert c == (m / 3) as real;
    } else {
      assert 3 * (m / 3) < m < 3 * (m / 3 + 1);
      assert (m / 3) as real < c < (m / 3 + 1) as real;
    }
  }

  /** The status a new appointment gets: pending while confirmation is required, else confirmed. */
  function InitialStatus(requireConfirmation: bool): (st: Status)
    ensures st == Pending <==> requireConfirmation
    ensures st == Confirmed <==> !requireConfirmation
  {
    if requireConfirmation then Pending else Confirmed
  }

  /** The appointment `createAppointment` stores: the draft, a new id, the status, the creation time. */
  function NewAppointment(draft: AppointmentDraft, id: string, now: string, requireConfirmation: bool): (a: Appointment)
    ensures a.id == id && a.createTime == now && a.scheduleId == draft.scheduleId
    ensures a.status == InitialStatus(requireConfirmation)
    ensures AppointmentDraft(a.patientId, a.patientName, a.expertId, a.expertName, a.departmentId,
                             a.departmentName, a.scheduleId, a.appointmentDate, a.timeSlot,
                             a.confirmTime, a.notes) == draft
  {
    Appointment(id, draft.patientId, draft.patientName, draft.expertId, draft.expertName,
                draft.departmentId, draft.departmentName, draft.scheduleId, draft.appointmentDate,
                draft.timeSlot, InitialStatus(requireConfirmation), now, draft.confirmTime, draft.notes)
  }

  /**
   * Round trip of booking and cancelling: creating an appointment with an id
   * that no appointment has yet, then deleting that id, finds the new
   * appointment at the end, and restores both the appointment list and every
   * schedule's slot count.
   */
  lemma {:induction false} BookThenCancelRestores(
    schedules: seq<Schedule>, appointments: seq<Appointment>, draft: AppointmentDraft,
    id: string, now: string, requireConfirmation: bool)
    requires forall i :: 0 <= i < |appointments| ==> appointments[i].id != id
    ensures var booked := appointments + [NewAppointment(draft, id, now, requireConfirmation)];
      var k := IndexOf(booked, AppointmentKey, id);
      && k == |appointments|
      && RemoveAt(booked, k) == appointments
      && AdjustSlots(AdjustSlots(schedules, draft.scheduleId, -1.0), booked[k].scheduleId, 1.0) == schedules
  {
    var booked := appointments + [NewAppointment(draft, id, now, requireConfirmation)];
    assert forall i :: 0 <= i < |appointments| ==> booked[i] == appointments[i];
    assert booked[|appointments|].id == id;
    IndexOfSpec(booked, AppointmentKey, id);
    assert IndexOf(booked, AppointmentKey, id) == |appointments|;
    assert RemoveAt(booked, |appointments|) == appointments;
    AdjustSlotsInverse(schedules, draft.scheduleId, 1.0);
  }

  /**
   * Nothing stops a booking on a schedule with no slots left: booking the
   * only schedule when its count is 0 leaves it at -1.
   */
  lemma BookingHasNoCapacityCheck(s: Schedule)
    requires s.availableSlots == 0.0
    ensures AdjustSlots([s], s.id, -1.0)[0].availableSlots == -1.0
  {
    assert IndexOf([s], ScheduleKey, s.id) == 0;
  }

  // ----- schedule generation -----

  /** The three time-of-day buckets, in the order the generator visits them. */
  const TimeSlots: seq<string> := ["morning", "afternoon", "evening"]

  /** The id of a generated schedule: `sched-<expertId>-<date>-<slot>`. */
  function GeneratedId(expertId: string, date: string, slot: string): string
  {
    "sched-" + expertId + "-" + date + "-" + slot
  }

  /** Each bucket gets a third of the expert's daily maximum, unrounded. */
  function SlotCapacity(e: Expert): (c: real)
    ensures 3.0 * c == e.maxAppointments as real
  {
    e.maxAppointments as real / 3.0
  }

  function NewSchedule(e: Expert, date: string, slot: string): (s: Schedule)
    ensures s.id == GeneratedId(e.id, date, slot)
    ensures s.expertId == e.id && s.date == date && s.timeSlot == slot
    ensures s.availableSlots == s.maxSlots == SlotCapacity(e)
  {
    var c := SlotCapacity(e);
    Schedule(GeneratedId(e.id, date, slot), e.id, date, slot, c, c)
  }

  /** Some schedule of `schedules` is for this (expert, date, time slot) triple. */
  predicate HasSlot(schedules: seq<Schedule>, expertId: string, date: string, slot: string)
  {
    exists i :: 0 <= i < |schedules| && schedules[i].expertId == expertId && schedules[i].date == date
                                     && schedules[i].timeSlot == slot
  }

  /**
   * Every schedule after position `from` was, when appended, for a triple
   * that no earlier schedule had: the generator never duplicates a triple.
   */
  ghost predicate FreshFrom(r: seq<Schedule>, from: nat)
  {
    forall j :: from <= j < |r| ==> !HasSlot(r[..j], r[j].expertId, r[j].date, r[j].timeSlot)
  }

  /** Every schedule after position `from` is `NewSchedule(e, date, slot)` for some target `e` and bucket. */
  ghost predicate MadeFor(r: seq<Schedule>, from: nat, targets: seq<Expert>, date: string, slots: seq<string>)
  {
    forall j :: from <= j < |r| ==>
      r[j].timeSlot in slots && exists e :: e in targets && r[j] == NewSchedule(e, date, r[j].timeSlot)
  }

  /** One step of the generator: append the schedule for (e, date, slot) unless that triple exists. */
  function AddIfMissing(schedules: seq<Schedule>, e: Expert, date: string, slot: string): seq<Schedule>
  {
    if HasSlot(schedules, e.id, date, slot) then schedules else schedules + [NewSchedule(e, date, slot)]
  }

  /**
   * One generator step leaves the table unchanged exactly when the triple
   * exists, and otherwise appends just its new schedule; either way the
   * triple exists afterwards, the old table is a prefix, and nothing
   * appended duplicates a triple.
   */
  lemma AddIfMissingSpec(schedules: seq<Schedule>, e: Expert, date: string, slot: string)
    ensures var r := AddIfMissing(schedules, e, date, slot);
      && (r == schedules <==> HasSlot(schedules, e.id, date, slot))
      && (!HasSlot(schedules, e.id, date, slot) ==> r == schedules + [NewSchedule(e, date, slot)])
      && HasSlot(r, e.id, date, slot)
      && |schedules| <= |r| && r[..|schedules|] == schedules && FreshFrom(r, |schedules|)
  {
    var r := AddIfMissing(schedules, e, date, slot);
    if !HasSlot(schedules, e.id, date, slot) {
      assert r[|schedules|].expertId == e.id;
      assert r[..|schedules|] == schedules;
    }
  }

  /** Whatever is appended to a table, the triples it had are still there. */
  lemma HasSlotExtends(s: seq<Schedule>, r: seq<Schedule>, expertId: string, date: string, slot: string)
    requires |s| <= |r| && r[..|s|] == s
    requires HasSlot(s, expertId, date, slot)
    ensures HasSlot(r, expertId, date, slot)
  {
    var i :| 0 <= i < |s| && s[i].expertId == expertId && s[i].date == date && s[i].timeSlot == slot;
    assert r[i] == s[i];
  }

  /** Two appending passes, each free of duplicated triples, make one such pass. */
  lemma FreshFromChain(a: seq<Schedule>, b: seq<Schedule>, c: seq<Schedule>)
    requires |a| <= |b| <= |c| && b[..|a|] == a && c[..|b|] == b
    requires FreshFrom(b, |a|) && FreshFrom(c, |b|)
    ensures c[..|a|] == a && FreshFrom(c, |a|)
  {
    assert c[..|a|] == b[..|a|];
    forall j | |a| <= j < |b|
      ensures !HasSlot(c[..j], c[j].expertId, c[j].date, c[j].timeSlot)
    {
      assert c[..j] == b[..j];
      assert c[j] == b[j];
    }
  }

  /** The generator's pass over the buckets `slots` of one expert. */
  function AddSlots(schedules: seq<Schedule>, e: Expert, date: string, slots: seq<string>): seq<Schedule>
    decreases |slots|
  {
    if slots == [] then schedules
    else AddSlots(AddIfMissing(schedules, e, date, slots[0]), e, date, slots[1..])
  }

  /**
   * The bucket pass only appends; each schedule it appends is expert `e`'s
   * for one of the buckets, on `date`, for a triple not yet present; and
   * afterwards every bucket exists for `e` on `date`.
   */
  lemma {:induction false} AddSlotsSpec(schedules: seq<Schedule>, e: Expert, date: string, slots: seq<string>)
    ensures var r := AddSlots(schedules, e, date, slots);
      && |schedules| <= |r| && r[..|schedules|] == schedules
      && FreshFrom(r, |schedules|)
      && (forall j :: |schedules| <= j < |r| ==> r[j].timeSlot in slots && r[j] == NewSchedule(e, date, r[j].timeSlot))
      && (forall slot :: slot in slots ==> HasSlot(r, e.id, date, slot))
    decreases |slots|
  {
    if slots != [] {
      var s1 := AddIfMissing(schedules, e, date, slots[0]);
      AddIfMissingSpec(schedules, e, date, slots[0]);
      var r := AddSlots(s1, e, date, slots[1..]);
      AddSlotsSpec(s1, e, date, slots[1..]);
      FreshFromChain(schedules, s1, r);
      AddSlotsMadeFor(schedules, s1, r, e, date, slots);
      HasSlotExtends(s1, r, e.id, date, slots[0]);
    }
  }

  /** The bucket pass only appends schedules of expert `e` for buckets it visits. */
  lemma AddSlotsMadeFor(schedules: seq<Schedule>, s1: seq<Schedule>, r: seq<Schedule>, e: Expert, date: string,
                        slots: seq<string>)
    requires slots != [] && s1 == AddIfMissing(schedules, e, date, slots[0])
    requires |s1| <= |r| && r[..|s1|] == s1
    requires forall j :: |s1| <= j < |r| ==> r[j].timeSlot in slots[1..] && r[j] == NewSchedule(e, date, r[j].timeSlot)
    ensures forall j :: |schedules| <= j < |r| ==> r[j].timeSlot in slots && r[j] == NewSchedule(e, date, r[j].timeSlot)
  {
    forall j | |schedules| <= j < |r|
      ensures r[j].timeSlot in slots && r[j] == NewSchedule(e, date, r[j].timeSlot)
    {
      if j < |s1| {
        assert r[j] == s1[j];
      } else {
        assert r[j].timeSlot in slots[1..];
      }
    }
  }

  /** The generator's pass over the target experts, in order, each over every bucket of `slots`. */
  function AddForExperts(schedules: seq<Schedule>, targets: seq<Expert>, date: string, slots: seq<string>): seq<Schedule>
    decreases |targets|
  {
    if targets == [] then schedules
    else AddForExperts(AddSlots(schedules, targets[0], date, slots), targets[1..], date, slots)
  }

  /**
   * Generation only appends; it never appends a schedule whose (expert,
   * date, time slot) triple is already present; every schedule it appends
   * is `NewSchedule(e, date, slot)` for a target expert `e` and a bucket;
   * and afterwards every target expert has every bucket on `date`.
   */
  lemma {:induction false} AddForExpertsSpec(schedules: seq<Schedule>, targets: seq<Expert>, date: string, slots: seq<string>)
    ensures var r := AddForExperts(schedules, targets, date, slots);
      && |schedules| <= |r| && r[..|schedules|] == schedules
      && FreshFrom(r, |schedules|)
      && MadeFor(r, |schedules|, targets, date, slots)
      && (forall e, slot :: e in targets && slot in slots ==> HasSlot(r, e.id, date, slot))
    decreases |targets|
  {
    if targets != [] {
      var s1 := AddSlots(schedules, targets[0], date, slots);
      var r := AddForExperts(s1, targets[1..], date, slots);
      AddSlotsSpec(schedules, targets[0], date, slots);
      AddForExpertsSpec(s1, targets[1..], date, slots);
      FreshFromChain(schedules, s1, r);
      AddForExpertsMadeFor(schedules, s1, r, targets, date, slots);
      AddForExpertsCovers(s1, r, targets, date, slots);
    }
  }

  /** The expert pass only appends schedules of target experts. */
  lemma AddForExpertsMadeFor(schedules: seq<Schedule>, s1: seq<Schedule>, r: seq<Schedule>, targets: seq<Expert>,
                             date: string, slots: seq<string>)
    requires targets != [] && |schedules| <= |s1| <= |r| && r[..|s1|] == s1
    requires forall j :: |schedules| <= j < |s1| ==>
      s1[j].timeSlot in slots && s1[j] == NewSchedule(targets[0], date, s1[j].timeSlot)
    requires MadeFor(r, |s1|, targets[1..], date, slots)
    ensures MadeFor(r, |schedules|, targets, date, slots)
  {
    forall j | |schedules| <= j < |r|
      ensures r[j].timeSlot in slots && exists e :: e in targets && r[j] == NewSchedule(e, date, r[j].timeSlot)
    {
      if j < |s1| {
        assert r[j] == s1[j];
        assert targets[0] in targets;
      } else {
        var e :| e in targets[1..] && r[j] == NewSchedule(e, date, r[j].timeSlot);
        assert e in targets;
      }
    }
  }

  /** After the expert pass, every target expert has every bucket. */
  lemma AddForExpertsCovers(s1: seq<Schedule>, r: seq<Schedule>, targets: seq<Expert>, date: string, slots: seq<string>)
    requires targets != [] && |s1| <= |r| && r[..|s1|] == s1
    requires forall slot :: slot in slots ==> HasSlot(s1, targets[0].id, date, slot)
    requires forall e, slot :: e in targets[1..] && slot in slots ==> HasSlot(r, e.id, date, slot)
    ensures forall e, slot :: e in targets && slot in slots ==> HasSlot(r, e.id, date, slot)
  {
    forall e, slot | e in targets && slot in slots ensures HasSlot(r, e.id, date, slot) {
      if e == targets[0] {
        HasSlotExtends(s1, r, e.id, date, slot);
      } else {
        assert e in targets[1..];
      }
    }
  }

  /** Unfolds the bucket pass at position `j` of the bucket list. */
  lemma AddSlotsStep(schedules: seq<Schedule>, e: Expert, date: string, slots: seq<string>, j: nat)
    requires j < |slots|
    ensures AddSlots(schedules, e, date, slots[j..])
         == AddSlots(AddIfMissing(schedules, e, date, slots[j]), e, date, slots[j + 1..])
  {
    assert slots[j..][1..] == slots[j + 1..];
  }

  /** Unfolds the expert pass at position `i` of the target list. */
  lemma AddForExpertsStep(schedules: seq<Schedule>, targets: seq<Expert>, date: string, slots: seq<string>, i: nat)
    requires i < |targets|
    ensures AddForExperts(schedules, targets[i..], date, slots)
         == AddForExperts(AddSlots(schedules, targets[i], date, slots), targets[i + 1..], date, slots)
  {
    assert targets[i..][1..] == targets[i + 1..];
  }

  /** The experts the generator visits: all of them, or those whose id is listed, in table order. */
  function Targets(experts: seq<Expert>, expertIds: Option<seq<string>>): (r: seq<Expert>)
    ensures expertIds.None? ==> r == experts
    ensures expertIds.Some? ==> forall e :: multiset(r)[e] == if e.id in expertIds.value then multiset(experts)[e] else 0
  {
    if expertIds.None? then experts else Filter(experts, (e: Expert) => e.id in expertIds.value)
  }

  /** No two schedules of the table are for the same (expert, date, time slot) triple. */
  ghost predicate DistinctTriples(schedules: seq<Schedule>)
  {
    forall i, j :: 0 <= i < j < |schedules| ==>
      !(schedules[i].expertId == schedules[j].expertId && schedules[i].date == schedules[j].date
        && schedules[i].timeSlot == schedules[j].timeSlot)
  }

  /** Generation keeps a table free of duplicate triples. */
  lemma GenerationKeepsTriplesDistinct(schedules: seq<Schedule>, targets: seq<Expert>, date: string, slots: seq<string>)
    requires DistinctTriples(schedules)
    ensures DistinctTriples(AddForExperts(schedules, targets, date, slots))
  {
    var r := AddForExperts(schedules, targets, date, slots);
    AddForExpertsSpec(schedules, targets, date, slots);
    forall i, j | 0 <= i < j < |r|
      ensures !(r[i].expertId == r[j].expertId && r[i].date == r[j].date && r[i].timeSlot == r[j].timeSlot)
    {
      if j < |schedules| {
        assert r[i] == schedules[i] && r[j] == schedules[j];
      } else {
        assert r[..j][i] == r[i];
        assert !HasSlot(r[..j], r[j].expertId, r[j].date, r[j].timeSlot);
      }
    }
  }

  /** A pass over buckets that all exist already appends nothing. */
  lemma {:induction false} AddSlotsCovered(schedules: seq<Schedule>, e: Expert, date: string, slots: seq<string>)
    requires forall slot :: slot in slots ==> HasSlot(schedules, e.id, date, slot)
    ensures AddSlots(schedules, e, date, slots) == schedules
    decreases |slots|
  {
    if slots != [] {
      assert slots[0] in slots;
      AddSlotsCovered(schedules, e, date, slots[1..]);
    }
  }

  /** A pass over experts whose buckets all exist already appends nothing. */
  lemma {:induction false} AddForExpertsCovered(schedules: seq<Schedule>, targets: seq<Expert>, date: string, slots: seq<string>)
    requires forall e, slot :: e in targets && slot in slots ==> HasSlot(schedules, e.id, date, slot)
    ensures AddForExperts(schedules, targets, date, slots) == schedules
    decreases |targets|
  {
    if targets != [] {
      assert targets[0] in targets;
      AddSlotsCovered(schedules, targets[0], date, slots);
      AddForExpertsCovered(schedules, targets[1..], date, slots);
    }
  }

  /** Generating twice for the same date and experts adds nothing the second time. */
  lemma GenerationIdempotent(schedules: seq<Schedule>, targets: seq<Expert>, date: string, slots: seq<string>)
    ensures var once := AddForExperts(schedules, targets, date, slots);
      AddForExperts(once, targets, date, slots) == once
  {
    AddForExpertsSpec(schedules, targets, date, slots);
    AddForExpertsCovered(AddForExperts(schedules, targets, date, slots), targets, date, slots);
  }

  // ----- queries -----

  /** The experts of one department (`getExpertsByDepartment`). */
  function ExpertsIn(experts: seq<Expert>, departmentId: string): (r: seq<Expert>)
    ensures forall e :: multiset(r)[e] == if e.departmentId == departmentId then multiset(experts)[e] else 0
  {
    Filter(experts, (e: Expert) => e.departmentId == departmentId)
  }

  /** The schedules of one expert (`getSchedulesByExpert`, and the victims of `deleteExpert`). */
  function SchedulesOf(schedules: seq<Schedule>, expertId: string): (r: seq<Schedule>)
    ensures forall s :: multiset(r)[s] == if s.expertId == expertId then multiset(schedules)[s] else 0
  {
    Filter(schedules, (s: Schedule) => s.expertId == expertId)
  }

  /** The schedules on one date (`getSchedulesByDate`). */
  function SchedulesOn(schedules: seq<Schedule>, date: string): (r: seq<Schedule>)
    ensures forall s :: multiset(r)[s] == if s.date == date then multiset(schedules)[s] else 0
  {
    Filter(schedules, (s: Schedule) => s.date == date)
  }

  /** The schedules of one expert on one date (`getSchedulesByExpertAndDate`). */
  function SchedulesOfOn(schedules: seq<Schedule>, expertId: string, date: string): (r: seq<Schedule>)
    ensures forall s :: multiset(r)[s] == if s.expertId == expertId && s.date == date then multiset(schedules)[s] else 0
  {
    Filter(schedules, (s: Schedule) => s.expertId == expertId && s.date == date)
  }

  /** The appointments of one patient (`getAppointmentsByPatient`). */
  function AppointmentsOfPatient(appointments: seq<Appointment>, patientId: string): (r: seq<Appointment>)
    ensures forall a :: multiset(r)[a] == if a.patientId == patientId then multiset(appointments)[a] else 0
  {
    Filter(appointments, (a: Appointment) => a.patientId == patientId)
  }

  /** The appointments with one expert (`getAppointmentsByExpert`, and the victims of `deleteExpert`). */
  function AppointmentsOf(appointments: seq<Appointment>, expertId: string): (r: seq<Appointment>)
    ensures forall a :: multiset(r)[a] == if a.expertId == expertId then multiset(appointments)[a] else 0
  {
    Filter(appointments, (a: Appointment) => a.expertId == expertId)
  }

  /** The appointments on one date (`getAppointmentsByDate`). */
  function AppointmentsOn(appointments: seq<Appointment>, date: string): (r: seq<Appointment>)
    ensures forall a :: multiset(r)[a] == if a.appointmentDate == date then multiset(appointments)[a] else 0
  {
    Filter(appointments, (a: Appointment) => a.appointmentDate == date)
  }

  // ----- deleting an expert -----

  /** What deleting an expert is meant to leave of the expert table: every expert with another id. */
  function ExpertsWithout(experts: seq<Expert>, expertId: string): (r: seq<Expert>)
    ensures forall e :: multiset(r)[e] == if e.id == expertId then 0 else multiset(experts)[e]
  {
    Filter(experts, (e: Expert) => e.id != expertId)
  }

  /** With unique ids, splicing out the found expert leaves no expert with that id. */
  lemma ExpertRemovalWithUniqueIds(experts: seq<Expert>, expertId: string)
    requires UniqueIds(experts, ExpertKey)
    ensures RemoveFirstWithId(experts, ExpertKey, expertId) == ExpertsWithout(experts, expertId)
  {
    RemoveFirstWithUniqueId(experts, ExpertKey, expertId, (e: Expert) => e.id != expertId);
  }

  /**
   * The schedules left by `deleteExpert` as written: each schedule of the
   * expert is looked up again by its id, and the first schedule with that id
   * is spliced out.
   */
  function CascadeSchedules(schedules: seq<Schedule>, expertId: string): (r: seq<Schedule>)
    ensures |schedules| - |SchedulesOf(schedules, expertId)| <= |r| <= |schedules|
    ensures multiset(r) <= multiset(schedules)
  {
    RemoveEach(schedules, ScheduleKey, SchedulesOf(schedules, expertId))
  }

  /** The appointments left by `deleteExpert` as written, in the same way. */
  function CascadeAppointments(appointments: seq<Appointment>, expertId: string): (r: seq<Appointment>)
    ensures |appointments| - |AppointmentsOf(appointments, expertId)| <= |r| <= |appointments|
    ensures multiset(r) <= multiset(appointments)
  {
    RemoveEach(appointments, AppointmentKey, AppointmentsOf(appointments, expertId))
  }

  /** What deleting an expert is meant to leave: exactly the schedules of other experts, in order. */
  function SchedulesWithout(schedules: seq<Schedule>, expertId: string): (r: seq<Schedule>)
    ensures forall s :: multiset(r)[s] == if s.expertId == expertId then 0 else multiset(schedules)[s]
  {
    Filter(schedules, (s: Schedule) => s.expertId != expertId)
  }

  /** What deleting an expert is meant to leave: exactly the appointments with other experts. */
  function AppointmentsWithout(appointments: seq<Appointment>, expertId: string): (r: seq<Appointment>)
    ensures forall a :: multiset(r)[a] == if a.expertId == expertId then 0 else multiset(appointments)[a]
  {
    Filter(appointments, (a: Appointment) => a.expertId != expertId)
  }

  /**
   * With unique ids the cascade as written removes exactly the expert's
   * schedules and appointments and keeps every other record in order.
   */
  lemma CascadeWithUniqueIds(schedules: seq<Schedule>, appointments: seq<Appointment>, expertId: string)
    requires UniqueIds(schedules, ScheduleKey) && UniqueIds(appointments, AppointmentKey)
    ensures CascadeSchedules(schedules, expertId) == SchedulesWithout(schedules, expertId)
    ensures CascadeAppointments(appointments, expertId) == AppointmentsWithout(appointments, expertId)
  {
    RemoveEachOfFilter(schedules,  ScheduleKey, (s: Schedule) => s.expertId == expertId, (s: Schedule) => s.expertId != expertId);
    RemoveEachOfFilter(appointments, AppointmentKey, (a: Appointment) => a.expertId == expertId, (a: Appointment) => a.expertId != expertId);
  }

  /** What deleting an expert leaves when ids are unique, for each table under its own condition. */
  lemma DeletionWithUniqueIds(experts: seq<Expert>, schedules: seq<Schedule>, appointments: seq<Appointment>,
                              expertId: string)
    ensures UniqueIds(experts, ExpertKey) ==>
      RemoveFirstWithId(experts, ExpertKey, expertId) == ExpertsWithout(experts, expertId)
    ensures UniqueIds(schedules, ScheduleKey) && UniqueIds(appointments, AppointmentKey) ==>
      && CascadeSchedules(schedules, expertId) == SchedulesWithout(schedules, expertId)
      && CascadeAppointments(appointments, expertId) == AppointmentsWithout(appointments, expertId)
  {
    if UniqueIds(experts, ExpertKey) {
      ExpertRemovalWithUniqueIds(experts, expertId);
    }
    if UniqueIds(schedules, ScheduleKey) && UniqueIds(appointments, AppointmentKey) {
      CascadeWithUniqueIds(schedules, appointments, expertId);
    }
  }

  /**
   * With two schedules sharing an id, the cascade as written removes the
   * wrong one: deleting expert "e1" splices out the "e2" schedule that comes
   * first with the shared id and leaves the "e1" schedule in place.
   */
  lemma CascadeRemovesWrongScheduleOnSharedId()
    ensures var other := Schedule("sched-e1-d-morning", "e2", "d", "morning", 3.0, 3.0);
      var own := Schedule("sched-e1-d-morning", "e1", "d", "morning", 3.0, 3.0);
      && CascadeSchedules([other, own], "e1") == [own]
      && SchedulesWithout([other, own], "e1") == [other]
  {
    var other := Schedule("sched-e1-d-morning", "e2", "d", "morning", 3.0, 3.0);
    var own := Schedule("sched-e1-d-morning", "e1", "d", "morning", 3.0, 3.0);
    var s := [other, own];
    assert s[1..] == [own] && [own][1..] == [];
    assert Filter(s, (x: Schedule) => x.expertId == "e1") == [own];
    assert SchedulesOf(s, "e1") == [own];
    assert IndexOf(s, ScheduleKey, own.id) == 0;
    assert RemoveFirstWithId(s, ScheduleKey, own.id) == [own];
    assert Filter(s, (x: Schedule) => x.expertId != "e1") == [other];
  }
}
