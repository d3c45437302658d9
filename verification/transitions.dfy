/** Each operation of the appointment service as a function from the store
    before the call to the result and the store after it. The methods of
    `Service.AppointmentService` are proved to compute exactly these, and the
    lemmas below state what the service promises across calls. */
module Transitions {
  import opened Appointments
  import opened Text
  import opened Uuid

  /** What one operation returns, together with the store it leaves. */
  datatype Outcome<T> = Outcome(result: Result<T>, store: Store)

  /** The store invariant every operation keeps: each record sits under its
      own id, and that id has the UUID layout. */
  predicate WellFormed(m: Store) {
    forall k | k in m :: m[k].id == k && IsValidUuid(k)
  }

  /** `after` is `before` with the record under `id` set to `a` and every
      other key holding what it held. */
  predicate Replaces(before: Store, after: Store, id: string, a: Appointment) {
    && after.Keys == before.Keys + {id}
    && after[id] == a
    && forall k | k in before && k != id :: after[k] == before[k]
  }

  /** A map update replaces one key and keeps the others. */
  lemma ReplacesByUpdate(m: Store, id: string, a: Appointment)
    ensures Replaces(m, m[id := a], id, a)
  {
  }

  /** Rewriting a stored record without changing its id keeps the store
      invariant. */
  lemma UpdateKeepsWellFormed(m: Store, id: string, a: Appointment)
    requires id in m && a.id == m[id].id
    ensures WellFormed(m) ==> WellFormed(m[id := a])
  {
  }

  /** `isInvalidPaylaod(payload)` with the host clock at `now`: a blank
      doctor or patient name, or a date already past. A date equal to `now`
      is accepted. */
  predicate IsInvalidPayload(p: Payload, now: Nat64)
    ensures IsInvalidPayload(p, now) <==>
      || (forall i | 0 <= i < |p.doctorName| :: IsWhitespace(p.doctorName[i]))
      || (forall i | 0 <= i < |p.patientName| :: IsWhitespace(p.patientName[i]))
      || p.appointmentDate < now
  {
    IsBlank(p.doctorName) || IsBlank(p.patientName) || now > p.appointmentDate
  }

  /** `scheduleAppointment(payload)` at time `now`, with `freshId` the id the
      UUID generator hands out. The insert overwrites whatever sits under
      `freshId`. */
  function Schedule(m: Store, p: Payload, now: Nat64, freshId: string): (o: Outcome<Appointment>)
    ensures o.result.Err? <==> IsInvalidPayload(p, now)
    ensures o.result.Err? ==> o.result.error == MissingFields && o.store == m
    ensures o.result.Ok? ==>
      var a := o.result.value;
      && a.id == freshId
      && a.patientName == p.patientName && a.doctorName == p.doctorName
      && a.appointmentDate == p.appointmentDate
      && a.isScheduled && !a.reminderSent && a.medicalRecord == ""
      && a.createdAt == Some(now) && a.updatedAt == None
      && Replaces(m, o.store, freshId, a)
  {
    if IsInvalidPayload(p, now) then Outcome(Err(MissingFields), m)
    else
      var a := Appointment(freshId, p.patientName, p.doctorName, p.appointmentDate,
                           true, false, "", Some(now), None);
      ReplacesByUpdate(m, freshId, a);
      Outcome(Ok(a), m[freshId := a])
  }

  /** `cancelAppointment(id)`: only `isScheduled` changes; `updatedAt` is
      left as it was. */
  function Cancel(m: Store, id: string): (o: Outcome<Appointment>)
    ensures id !in m ==> o == Outcome(Err(NotFound), m)
    ensures id in m && !m[id].isScheduled ==> o == Outcome(Err(AlreadyCanceled), m)
    ensures id in m && m[id].isScheduled ==>
      o.result.Ok? && o.result.value == m[id].(isScheduled := false)
      && Replaces(m, o.store, id, o.result.value)
    ensures WellFormed(m) ==> WellFormed(o.store)
  {
    if id !in m then Outcome(Err(NotFound), m)
    else if !m[id].isScheduled then Outcome(Err(AlreadyCanceled), m)
    else
      var canceled := m[id].(isScheduled := false);
      ReplacesByUpdate(m, id, canceled);
      UpdateKeepsWellFormed(m, id, canceled);
      Outcome(Ok(canceled), m[id := canceled])
  }

  /** `completeAppointment(id)`: the same transition as a cancel, with its
      own message when the record is not scheduled. */
  function Complete(m: Store, id: string): (o: Outcome<Appointment>)
    ensures id !in m ==> o == Outcome(Err(NotFound), m)
    ensures id in m && !m[id].isScheduled ==> o == Outcome(Err(NotScheduled), m)
    ensures id in m && m[id].isScheduled ==>
      o.result.Ok? && o.result.value == m[id].(isScheduled := false)
      && Replaces(m, o.store, id, o.result.value)
    ensures WellFormed(m) ==> WellFormed(o.store)
  {
    if id !in m then Outcome(Err(NotFound), m)
    else if !m[id].isScheduled then Outcome(Err(NotScheduled), m)
    else
      var completed := m[id].(isScheduled := false);
      ReplacesByUpdate(m, id, completed);
      UpdateKeepsWellFormed(m, id, completed);
      Outcome(Ok(completed), m[id := completed])
  }

  /** `sendReminder(id)`: applicable only to a scheduled record whose reminder
      has not gone out; only `reminderSent` changes. */
  function SendReminder(m: Store, id: string): (o: Outcome<Appointment>)
    ensures o.result.Ok? <==> id in m && m[id].isScheduled && !m[id].reminderSent
    ensures id !in m ==> o == Outcome(Err(NotFound), m)
    ensures id in m && (!m[id].isScheduled || m[id].reminderSent) ==>
      o == Outcome(Err(ReminderNotApplicable), m)
    ensures o.result.Ok? ==>
      o.result.value == m[id].(reminderSent := true) && Replaces(m, o.store, id, o.result.value)
    ensures WellFormed(m) ==> WellFormed(o.store)
  {
    if id !in m then Outcome(Err(NotFound), m)
    else if !m[id].isScheduled || m[id].reminderSent then Outcome(Err(ReminderNotApplicable), m)
    else
      var reminded := m[id].(reminderSent := true);
      ReplacesByUpdate(m, id, reminded);
      UpdateKeepsWellFormed(m, id, reminded);
      Outcome(Ok(reminded), m[id := reminded])
  }

  /** `updateAppointment(id, payload)` at time `now`: a missing id is reported
      whatever the payload; then the payload is validated as for scheduling;
      then the three payload fields replace the stored ones and `updatedAt`
      becomes `now`. */
  function UpdateAppointment(m: Store, id: string, p: Payload, now: Nat64): (o: Outcome<Appointment>)
    ensures id !in m ==> o == Outcome(Err(NotFound), m)
    ensures id in m && IsInvalidPayload(p, now) ==> o == Outcome(Err(MissingFields), m)
    ensures id in m && !IsInvalidPayload(p, now) ==>
      o.result.Ok? && Replaces(m, o.store, id, o.result.value)
    ensures o.result.Ok? ==>
      var a := o.result.value;
      && a.patientName == p.patientName && a.doctorName == p.doctorName
      && a.appointmentDate == p.appointmentDate && a.updatedAt == Some(now)
    ensures o.result.Ok? ==>
      var a := o.result.value;
      && a.id == m[id].id && a.isScheduled == m[id].isScheduled
      && a.reminderSent == m[id].reminderSent && a.medicalRecord == m[id].medicalRecord
      && a.createdAt == m[id].createdAt
    ensures WellFormed(m) ==> WellFormed(o.store)
  {
    if id !in m then Outcome(Err(NotFound), m)
    else if IsInvalidPayload(p, now) then Outcome(Err(MissingFields), m)
    else
      var updated := m[id].(patientName := p.patientName, doctorName := p.doctorName,
                            appointmentDate := p.appointmentDate, updatedAt := Some(now));
      ReplacesByUpdate(m, id, updated);
      UpdateKeepsWellFormed(m, id, updated);
      Outcome(Ok(updated), m[id := updated])
  }

  /** `updateMedicalRecord(id, newRecord)` at time `now`: any text, the empty
      one included, replaces the record's notes and `updatedAt` becomes
      `now`. */
  function UpdateMedicalRecord(m: Store, id: string, newRecord: string, now: Nat64): (o: Outcome<Appointment>)
    ensures id !in m ==> o == Outcome(Err(NotFound), m)
    ensures id in m ==>
      o.result.Ok? && o.result.value == m[id].(medicalRecord := newRecord, updatedAt := Some(now))
      && Replaces(m, o.store, id, o.result.value)
    ensures WellFormed(m) ==> WellFormed(o.store)
  {
    if id !in m then Outcome(Err(NotFound), m)
    else
      var updated := m[id].(medicalRecord := newRecord, updatedAt := Some(now));
      ReplacesByUpdate(m, id, updated);
      UpdateKeepsWellFormed(m, id, updated);
      Outcome(Ok(updated), m[id := updated])
  }

  /** `deleteAppointment(id)`: an id without the UUID layout is refused before
      the store is touched; otherwise the record is removed and returned. */
  function Delete(m: Store, id: string): (o: Outcome<Option<Appointment>>)
    ensures !IsValidUuid(id) ==> o == Outcome(Err(InvalidId), m)
    ensures IsValidUuid(id) && id !in m ==> o == Outcome(Err(NotFound), m)
    ensures IsValidUuid(id) && id in m ==>
      && o.result == Ok(Some(m[id]))
      && o.store.Keys == m.Keys - {id}
      && forall k | k in o.store :: o.store[k] == m[k]
    ensures WellFormed(m) ==> WellFormed(o.store)
  {
    if !IsValidUuid(id) then Outcome(Err(InvalidId), m)
    else if id !in m then Outcome(Err(NotFound), m)
    else Outcome(Ok(Some(m[id])), m - {id})
  }

  /** `getAppointment(id)`. */
  function Get(m: Store, id: string): (r: Result<Appointment>)
    ensures r.Ok? <==> id in m
    ensures r.Ok? ==> r.value == m[id]
    ensures r.Err? ==> r.error == NotFound
  {
    if id in m then Ok(m[id]) else Err(NotFound)
  }

  // ---------------------------------------------------------------------
  // Properties across calls

  /** Scheduling under a UUID keeps the store invariant. */
  lemma ScheduleKeepsWellFormed(m: Store, p: Payload, now: Nat64, freshId: string)
    requires WellFormed(m) && IsValidUuid(freshId)
    ensures WellFormed(Schedule(m, p, now, freshId).store)
  {
  }

  /** A scheduled record is read back unchanged. */
  lemma ScheduleThenGet(m: Store, p: Payload, now: Nat64, freshId: string)
    requires !IsInvalidPayload(p, now)
    ensures Get(Schedule(m, p, now, freshId).store, freshId) == Schedule(m, p, now, freshId).result
  {
  }

  /** With an unused id, a successful schedule adds exactly one record. */
  lemma ScheduleAddsOne(m: Store, p: Payload, now: Nat64, freshId: string)
    requires freshId !in m && !IsInvalidPayload(p, now)
    ensures |Schedule(m, p, now, freshId).store| == |m| + 1
  {
    assert Schedule(m, p, now, freshId).store.Keys == m.Keys + {freshId};
  }

  /** A second cancel of the same id never succeeds. */
  lemma CancelTwiceFails(m: Store, id: string)
    ensures Cancel(Cancel(m, id).store, id).result.Err?
  {
  }

  /** Neither a cancel nor a complete succeeds on a record the other has
      closed. */
  lemma CompleteAfterCancelFails(m: Store, id: string)
    ensures Complete(Cancel(m, id).store, id).result.Err?
    ensures Cancel(Complete(m, id).store, id).result.Err?
  {
  }

  /** Cancel and complete leave the same store and succeed on the same
      records with the same value; only their messages differ. */
  lemma CancelCompleteSameEffect(m: Store, id: string)
    ensures Cancel(m, id).store == Complete(m, id).store
    ensures Cancel(m, id).result.Ok? <==> Complete(m, id).result.Ok?
    ensures Cancel(m, id).result.Ok? ==> Cancel(m, id).result == Complete(m, id).result
  {
  }

  /** A reminder goes out at most once per record. */
  lemma ReminderTwiceFails(m: Store, id: string)
    ensures SendReminder(SendReminder(m, id).store, id).result.Err?
  {
  }

  /** After a successful delete the id is not found. */
  lemma DeleteThenGet(m: Store, id: string)
    requires Delete(m, id).result.Ok?
    ensures Get(Delete(m, id).store, id) == Err(NotFound)
  {
  }

  /** In a well-formed store every record can be deleted by its id. */
  lemma DeleteStoredSucceeds(m: Store, id: string)
    requires WellFormed(m) && id in m
    ensures Delete(m, id).result == Ok(Some(m[id]))
  {
  }

  /** No operation other than a schedule over an existing id changes a
      record's creation time. */
  lemma CreatedAtStable(m: Store, id: string, p: Payload, text: string, now: Nat64, k: string)
    requires k in m
    ensures k in Cancel(m, id).store && Cancel(m, id).store[k].createdAt == m[k].createdAt
    ensures k in Complete(m, id).store && Complete(m, id).store[k].createdAt == m[k].createdAt
    ensures k in SendReminder(m, id).store && SendReminder(m, id).store[k].createdAt == m[k].createdAt
    ensures k in UpdateAppointment(m, id, p, now).store
    ensures UpdateAppointment(m, id, p, now).store[k].createdAt == m[k].createdAt
    ensures k in UpdateMedicalRecord(m, id, text, now).store
    ensures UpdateMedicalRecord(m, id, text, now).store[k].createdAt == m[k].createdAt
  {
  }
}
