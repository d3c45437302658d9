/** Runs of several operations, from an empty store or a given one, and what
    the queries see afterwards. */
module Scenarios {
  import opened Appointments
  import opened Text
  import opened StableMap
  import opened Queries
  import opened Transitions

  /** Schedule for Alice with Dr. Lee, cancel, cancel again: the first cancel
      succeeds and the second reports the record as already canceled. */
  lemma ScheduleCancelCancel(now: Nat64, tomorrow: Nat64, id: string)
    requires now < tomorrow
    ensures
      var s := Schedule(map[], Payload("Alice", "Dr. Lee", tomorrow), now, id);
      var c := Cancel(s.store, id);
      && s.result.Ok? && s.result.value.isScheduled
      && c.result.Ok? && !c.result.value.isScheduled
      && Cancel(c.store, id) == Outcome(Err(AlreadyCanceled), c.store)
  {
    assert !IsWhitespace("Alice"[0]) && !IsWhitespace("Dr. Lee"[0]);
  }

  /** A blank patient name is refused and the empty store stays empty. */
  lemma BlankPatientRefused(now: Nat64, date: Nat64, doctor: string, id: string)
    ensures Schedule(map[], Payload("", doctor, date), now, id) == Outcome(Err(MissingFields), map[])
  {
  }

  /** A reminder for an id that is not stored reports it as not found. */
  lemma ReminderForMissingId(m: Store, id: string)
    requires id !in m
    ensures SendReminder(m, id).result == Err(NotFound)
  {
  }

  /** Two appointments scheduled under distinct unused ids are both listed
      afterwards, and the listing grows by two; from the empty store it holds
      exactly these two. */
  lemma TwoSchedulesListed(m: Store, p1: Payload, p2: Payload, now: Nat64, id1: string, id2: string)
    requires id1 != id2 && id1 !in m && id2 !in m
    requires !IsInvalidPayload(p1, now) && !IsInvalidPayload(p2, now)
    ensures
      var s1 := Schedule(m, p1, now, id1);
      var s2 := Schedule(s1.store, p2, now, id2);
      var all := ValuesOf(s2.store);
      |all| == |m| + 2 && s1.result.value in all && s2.result.value in all
  {
    var s1 := Schedule(m, p1, now, id1);
    var s2 := Schedule(s1.store, p2, now, id2);
    ScheduleAddsOne(m, p1, now, id1);
    ScheduleAddsOne(s1.store, p2, now, id2);
    assert s2.store[id1] == s1.result.value;
    ListsStored(s2.store, id1);
    ListsStored(s2.store, id2);
  }

  /** A record a cancel closes is listed among the canceled ones afterwards
      and no longer among the upcoming ones. */
  lemma CanceledRecordListed(m: Store, id: string, now: Nat64, daysAhead: Nat64)
    requires Cancel(m, id).result.Ok?
    ensures
      var o := Cancel(m, id);
      && o.result.value in Canceled(ValuesOf(o.store))
      && o.result.value !in Upcoming(ValuesOf(o.store), now, daysAhead)
  {
    var o := Cancel(m, id);
    assert o.store[id] == o.result.value;
  }

  /** A record a schedule stores is found by its patient's name. */
  lemma ScheduledRecordFound(m: Store, p: Payload, now: Nat64, id: string)
    requires !IsInvalidPayload(p, now)
    ensures
      var o := Schedule(m, p, now, id);
      o.result.value in Search(ValuesOf(o.store), p.patientName)
  {
    var o := Schedule(m, p, now, id);
    ListsStored(o.store, id);
    SearchFindsPatientName(ValuesOf(o.store), o.result.value);
  }
}
