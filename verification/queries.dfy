/** The read-side filters of the service over a listing of the store's
    values: name search, the upcoming window and the canceled records. */
module Queries {
  import opened Appointments
  import opened Text

  /** One day in nanoseconds, the unit of the upcoming window. */
  const NanosPerDay: nat := 86_400_000_000_000

  /** `sub` is `s` with some elements left out and the rest kept in order. */
  predicate IsSubsequence(sub: seq<Appointment>, s: seq<Appointment>)
    decreases |s|
  {
    sub == [] ||
    (s != [] && ((sub[0] == s[0] && IsSubsequence(sub[1..], s[1..])) || IsSubsequence(sub, s[1..])))
  }

  /** `Array.prototype.filter`: the elements of `s` that `keep` accepts, in
      their order and with their multiplicity. */
  function Filter(s: seq<Appointment>, keep: Appointment -> bool): (r: seq<Appointment>)
    ensures |r| <= |s|
    ensures IsSubsequence(r, s)
    ensures forall a :: multiset(r)[a] == if keep(a) then multiset(s)[a] else 0
    ensures forall a :: a in r <==> a in s && keep(a)
  {
    if s == [] then []
    else
      var rest := Filter(s[1..], keep);
      assert s == [s[0]] + s[1..];
      if keep(s[0]) then [s[0]] + rest else rest
  }

  /** A filter that accepts every element returns its input. */
  lemma {:induction false} FilterKeepsAll(s: seq<Appointment>, keep: Appointment -> bool)
    requires forall a | a in s :: keep(a)
    ensures Filter(s, keep) == s
  {
    if s != [] {
      FilterKeepsAll(s[1..], keep);
    }
  }

  /** A filter that accepts more keeps a superset, in the same order. */
  lemma {:induction false} FilterMonotone(s: seq<Appointment>, keep: Appointment -> bool, wider: Appointment -> bool)
    requires forall a | a in s :: keep(a) ==> wider(a)
    ensures IsSubsequence(Filter(s, keep), Filter(s, wider))
  {
    if s != [] {
      FilterMonotone(s[1..], keep, wider);
      var r, w := Filter(s[1..], keep), Filter(s[1..], wider);
      if keep(s[0]) {
        assert ([s[0]] + r)[1..] == r;
      } else if wider(s[0]) {
        SubsequenceOfTail(r, w, s[0]);
      }
    }
  }

  /** A subsequence of `w` is a subsequence of `[x] + w`. */
  lemma SubsequenceOfTail(r: seq<Appointment>, w: seq<Appointment>, x: Appointment)
    requires IsSubsequence(r, w)
    ensures IsSubsequence(r, [x] + w)
  {
    assert ([x] + w)[1..] == w;
  }

  /** `lowerQuery` occurs in the lower-cased patient or doctor name. */
  predicate MatchesQuery(a: Appointment, lowerQuery: string) {
    Includes(ToLower(a.patientName), lowerQuery) || Includes(ToLower(a.doctorName), lowerQuery)
  }

  /** `searchAppointments(query)`: case-insensitive substring search on the
      patient and doctor names. */
  function Search(values: seq<Appointment>, query: string): (r: seq<Appointment>)
    ensures IsSubsequence(r, values)
    ensures forall a :: multiset(r)[a] == if MatchesQuery(a, ToLower(query)) then multiset(values)[a] else 0
    ensures forall a :: a in r <==> a in values && MatchesQuery(a, ToLower(query))
  {
    var lowerQuery := ToLower(query);
    Filter(values, a => MatchesQuery(a, lowerQuery))
  }

  /** The empty query matches every record. */
  lemma SearchEmptyQuery(values: seq<Appointment>)
    ensures Search(values, "") == values
  {
    forall a | a in values ensures MatchesQuery(a, "") {
      assert OccursAt(ToLower(a.patientName), "", 0);
    }
    FilterKeepsAll(values, a => MatchesQuery(a, ToLower("")));
  }

  /** The case of the query does not matter. */
  lemma SearchIgnoresQueryCase(values: seq<Appointment>, query: string)
    ensures Search(values, query) == Search(values, ToLower(query))
  {
    ToLowerIdempotent(query);
  }

  /** A record is found by its own patient name, whatever its case. */
  lemma SearchFindsPatientName(values: seq<Appointment>, a: Appointment)
    requires a in values
    ensures a in Search(values, a.patientName)
  {
    var name := ToLower(a.patientName);
    assert name[0..|name|] == name;
    assert OccursAt(name, name, 0);
  }

  /** Searching "sm" finds a patient named "John Smith". */
  lemma SearchFindsSubstring(values: seq<Appointment>, a: Appointment)
    requires a in values && a.patientName == "John Smith"
    ensures a in Search(values, "sm")
  {
    var name, query := ToLower(a.patientName), ToLower("sm");
    assert a.patientName[5] == 'S' && a.patientName[6] == 'm';
    assert name[5] as int == 'S' as int + 32 && name[6] == 'm';
    assert query == "sm" by {
      assert |query| == 2 && query[0] == 's' && query[1] == 'm';
    }
    assert name[5..7] == query;
    assert OccursAt(name, query, 5);
  }

  /** The window test of `getUpcomingAppointments`: scheduled, after `now`
      and before `now` plus `daysAhead` days, both bounds strict. The sum is
      a BigInt in the service, so it is not bounded here either. */
  predicate IsUpcoming(a: Appointment, now: Nat64, daysAhead: Nat64) {
    a.isScheduled && a.appointmentDate > now && a.appointmentDate < daysAhead * NanosPerDay + now
  }

  /** `getUpcomingAppointments(daysAhead)` at time `now`. */
  function Upcoming(values: seq<Appointment>, now: Nat64, daysAhead: Nat64): (r: seq<Appointment>)
    ensures IsSubsequence(r, values)
    ensures forall a :: multiset(r)[a] == if IsUpcoming(a, now, daysAhead) then multiset(values)[a] else 0
    ensures forall a :: a in r <==>
      a in values && a.isScheduled && now < a.appointmentDate < now + daysAhead * NanosPerDay
  {
    Filter(values, a => IsUpcoming(a, now, daysAhead))
  }

  /** Neither end of the window is included. */
  lemma UpcomingExcludesBounds(values: seq<Appointment>, now: Nat64, daysAhead: Nat64, a: Appointment)
    requires a.appointmentDate == now || a.appointmentDate == now + daysAhead * NanosPerDay
    ensures a !in Upcoming(values, now, daysAhead)
  {
  }

  /** A zero-day window is empty. */
  lemma UpcomingZeroDays(values: seq<Appointment>, now: Nat64)
    ensures Upcoming(values, now, 0) == []
  {
  }

  /** A wider window keeps every record of a narrower one, in order. */
  lemma UpcomingMonotone(values: seq<Appointment>, now: Nat64, days: Nat64, moreDays: Nat64)
    requires days <= moreDays
    ensures IsSubsequence(Upcoming(values, now, days), Upcoming(values, now, moreDays))
  {
    FilterMonotone(values, a => IsUpcoming(a, now, days), a => IsUpcoming(a, now, moreDays));
  }

  /** `getCanceledAppointments()`: every record that is no longer scheduled,
      canceled and completed alike. */
  function Canceled(values: seq<Appointment>): (r: seq<Appointment>)
    ensures IsSubsequence(r, values)
    ensures forall a :: multiset(r)[a] == if !a.isScheduled then multiset(values)[a] else 0
    ensures forall a :: a in r <==> a in values && !a.isScheduled
  {
    Filter(values, (a: Appointment) => !a.isScheduled)
  }

  /** No record is both upcoming and canceled. */
  lemma UpcomingCanceledDisjoint(values: seq<Appointment>, now: Nat64, daysAhead: Nat64)
    ensures forall a :: !(a in Upcoming(values, now, daysAhead) && a in Canceled(values))
  {
  }
}
