/** The appointment service as one object that owns the store. Each update
    operation is a method that reads the stored record, decides, and writes
    the store back; it is proved to do exactly what the matching function of
    `Transitions` describes. The query operations are functions of the store. */
module Service {
  import opened Appointments
  import opened Text
  import opened Uuid
  import opened StableMap
  import opened Queries
  import Transitions

  class AppointmentService {
    /** `appointmentStorage`: appointment id to appointment. */
    var storage: Store

    /** Every record sits under its own id, and every id has the UUID layout. */
    ghost predicate Valid()
      reads this
    {
      Transitions.WellFormed(storage)
    }

    constructor ()
      ensures Valid() && storage == map[]
    {
      storage := map[];
    }

    /** `scheduleAppointment(payload)`; `now` is the host clock and `freshId`
        the UUID the generator returns. */
    method ScheduleAppointment(payload: Payload, now: Nat64, freshId: string) returns (r: Result<Appointment>)
      requires Valid() && IsValidUuid(freshId)
      modifies this
      ensures Valid()
      ensures r == Transitions.Schedule(old(storage), payload, now, freshId).result
      ensures storage == Transitions.Schedule(old(storage), payload, now, freshId).store
    {
      if Transitions.IsInvalidPayload(payload, now) {
        return Err(MissingFields);
      }
      var appointment := Appointment(freshId, payload.patientName, payload.doctorName,
                                     payload.appointmentDate, true, false, "", Some(now), None);
      Transitions.ScheduleKeepsWellFormed(storage, payload, now, freshId);
      storage := storage[appointment.id := appointment];
      return Ok(appointment);
    }

    /** `cancelAppointment(id)`. */
    method CancelAppointment(id: string) returns (r: Result<Appointment>)
      requires Valid()
      modifies this
      ensures Valid()
      ensures r == Transitions.Cancel(old(storage), id).result
      ensures storage == Transitions.Cancel(old(storage), id).store
    {
      if id !in storage {
        return Err(NotFound);
      }
      var appointment := storage[id];
      if !appointment.isScheduled {
        return Err(AlreadyCanceled);
      }
      var canceled := appointment.(isScheduled := false);
      Transitions.UpdateKeepsWellFormed(storage, id, canceled);
      storage := storage[id := canceled];
      return Ok(canceled);
    }

    /** `sendReminder(id)`; the notification itself is not part of the model. */
    method SendReminder(id: string) returns (r: Result<Appointment>)
      requires Valid()
      modifies this
      ensures Valid()
      ensures r == Transitions.SendReminder(old(storage), id).result
      ensures storage == Transitions.SendReminder(old(storage), id).store
    {
      if id !in storage {
        return Err(NotFound);
      }
      var appointment := storage[id];
      if !appointment.isScheduled || appointment.reminderSent {
        return Err(ReminderNotApplicable);
      }
      var reminded := appointment.(reminderSent := true);
      Transitions.UpdateKeepsWellFormed(storage, id, reminded);
      storage := storage[id := reminded];
      return Ok(reminded);
    }

    /** `getAppointments()`: every stored record, in key order. */
    function GetAppointments(): (r: seq<Appointment>)
      reads this
      ensures |r| == |storage|
      ensures forall a :: a in r <==> a in storage.Values
    {
      ValuesOf(storage)
    }

    /** `getAppointment(id)`. */
    function GetAppointment(id: string): (r: Result<Appointment>)
      reads this
      ensures r.Ok? <==> id in storage
      ensures r.Ok? ==> r.value == storage[id]
      ensures r.Err? ==> r.error == NotFound
    {
      Transitions.Get(storage, id)
    }

    /** `updateAppointment(id, payload)` with the host clock at `now`. */
    method UpdateAppointment(id: string, payload: Payload, now: Nat64) returns (r: Result<Appointment>)
      requires Valid()
      modifies this
      ensures Valid()
      ensures r == Transitions.UpdateAppointment(old(storage), id, payload, now).result
      ensures storage == Transitions.UpdateAppointment(old(storage), id, payload, now).store
    {
      if id !in storage {
        return Err(NotFound);
      }
      var existing := storage[id];
      if Transitions.IsInvalidPayload(payload, now) {
        return Err(MissingFields);
      }
      var updated := existing.(patientName := payload.patientName, doctorName := payload.doctorName,
                               appointmentDate := payload.appointmentDate, updatedAt := Some(now));
      Transitions.UpdateKeepsWellFormed(storage, id, updated);
      storage := storage[id := updated];
      return Ok(updated);
    }

    /** `deleteAppointment(id)`. */
    method DeleteAppointment(id: string) returns (r: Result<Option<Appointment>>)
      requires Valid()
      modifies this
      ensures Valid()
      ensures r == Transitions.Delete(old(storage), id).result
      ensures storage == Transitions.Delete(old(storage), id).store
    {
      if !IsValidUuid(id) {
        return Err(InvalidId);
      }
      var deleted := if id in storage then Some(storage[id]) else None;
      storage := storage - {id};
      if deleted.None? {
        return Err(NotFound);
      }
      return Ok(deleted);
    }

    /** `updateMedicalRecord(id, newRecord)` with the host clock at `now`. */
    method UpdateMedicalRecord(id: string, newRecord: string, now: Nat64) returns (r: Result<Appointment>)
      requires Valid()
      modifies this
      ensures Valid()
      ensures r == Transitions.UpdateMedicalRecord(old(storage), id, newRecord, now).result
      ensures storage == Transitions.UpdateMedicalRecord(old(storage), id, newRecord, now).store
    {
      if id !in storage {
        return Err(NotFound);
      }
      var updated := storage[id].(medicalRecord := newRecord, updatedAt := Some(now));
      Transitions.UpdateKeepsWellFormed(storage, id, updated);
      storage := storage[id := updated];
      return Ok(updated);
    }

    /** `getUpcomingAppointments(daysAhead)` with the host clock at `now`. */
    function GetUpcomingAppointments(now: Nat64, daysAhead: Nat64): (r: seq<Appointment>)
      reads this
      ensures IsSubsequence(r, GetAppointments())
      ensures forall a :: multiset(r)[a] == if IsUpcoming(a, now, daysAhead) then multiset(GetAppointments())[a] else 0
      ensures forall a :: a in r <==>
        a in storage.Values && a.isScheduled && now < a.appointmentDate < now + daysAhead * NanosPerDay
    {
      Upcoming(GetAppointments(), now, daysAhead)
    }

    /** `getCanceledAppointments()`. */
    function GetCanceledAppointments(): (r: seq<Appointment>)
      reads this
      ensures IsSubsequence(r, GetAppointments())
      ensures forall a :: multiset(r)[a] == if !a.isScheduled then multiset(GetAppointments())[a] else 0
      ensures forall a :: a in r <==> a in storage.Values && !a.isScheduled
    {
      Canceled(GetAppointments())
    }

    /** `searchAppointments(query)`. */
    function SearchAppointments(query: string): (r: seq<Appointment>)
      reads this
      ensures IsSubsequence(r, GetAppointments())
      ensures forall a :: multiset(r)[a] == if MatchesQuery(a, ToLower(query)) then multiset(GetAppointments())[a] else 0
      ensures forall a :: a in r <==> a in storage.Values && MatchesQuery(a, ToLower(query))
    {
      Search(GetAppointments(), query)
    }

    /** `completeAppointment(id)`. */
    method CompleteAppointment(id: string) returns (r: Result<Appointment>)
      requires Valid()
      modifies this
      ensures Valid()
      ensures r == Transitions.Complete(old(storage), id).result
      ensures storage == Transitions.Complete(old(storage), id).store
    {
      if id !in storage {
        return Err(NotFound);
      }
      var appointment := storage[id];
      if !appointment.isScheduled {
        return Err(NotScheduled);
      }
      var completed := appointment.(isScheduled := false);
      Transitions.UpdateKeepsWellFormed(storage, id, completed);
      storage := storage[id := completed];
      return Ok(completed);
    }
  }
}
