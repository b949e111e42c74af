/** Recurring events and their weekly occurrences. Instants are whole
    minutes on a naive local clock; day `d` starts at minute `d * 1440` and
    its weekday is `d % 7`, day 0 being a Monday. */
module Occurrence {
  import opened Wrappers
  import opened ConfigParse

  const MINUTES_PER_DAY := 1440

  /** `dt.date()` */
  function DateOf(t: int): int
  {
    t / MINUTES_PER_DAY
  }

  /** An instant lies within its own day. */
  lemma DayStart(t: int)
    ensures DateOf(t) * MINUTES_PER_DAY <= t < DateOf(t) * MINUTES_PER_DAY + MINUTES_PER_DAY
  {
  }

  /** The last date a `datetime` can hold, 9999-12-31, counted from
      0001-01-01 (a Monday) as day 0. */
  const MAX_DATE := 3652058

  /** A `timedelta` holds at most 999999999 days either way. */
  const MAX_DELTA_DAYS := 999999999

  /** `t` is a minute from 0001-01-01 00:00 to 9999-12-31 23:59. */
  predicate InDatetimeRange(t: int)
  {
    0 <= t < (MAX_DATE + 1) * MINUTES_PER_DAY
  }

  /** `timedelta(minutes=m)` does not raise `OverflowError`: the whole days
      of `m`, rounded down, stay within `MAX_DELTA_DAYS`. */
  predicate InTimedeltaRange(m: int)
  {
    -MAX_DELTA_DAYS * MINUTES_PER_DAY <= m < (MAX_DELTA_DAYS + 1) * MINUTES_PER_DAY
  }

  /** `t + timedelta(minutes=m)` does not raise `OverflowError`. */
  predicate AddOk(t: int, m: int)
  {
    InTimedeltaRange(m) && InDatetimeRange(t + m)
  }

  /** `t - timedelta(minutes=m)` does not raise `OverflowError`. */
  predicate SubOk(t: int, m: int)
  {
    InTimedeltaRange(m) && InDatetimeRange(t - m)
  }

  /** `d.weekday()`, 0 = Monday .. 6 = Sunday. */
  function Weekday(date: int): (w: int)
    ensures 0 <= w < 7
  {
    date % 7
  }

  function MinuteOfDay(st: TimeOfDay): int
  {
    st.hour * 60 + st.minute
  }

  /** `datetime.combine(d, start_t)` */
  function Combine(date: int, st: TimeOfDay): (t: int)
    requires ValidTime(st)
    ensures DateOf(t) == date
    ensures t - date * MINUTES_PER_DAY == MinuteOfDay(st)
  {
    date * MINUTES_PER_DAY + MinuteOfDay(st)
  }

  /** An instant is determined by its date and its minute of the day. */
  lemma CombineMonotone(d1: int, d2: int, st: TimeOfDay)
    requires ValidTime(st) && d1 < d2
    ensures Combine(d1, st) < Combine(d2, st)
  {
  }

  /** The stored form of an event (the `Event` dataclass). */
  datatype Event = Event(
    name: string,
    weekdays: seq<int>,
    startHHMM: string,
    durationMin: int,
    preReminders: seq<int>,
    mentionRoleId: Option<int>)

  /** `t` is a start of an event held on `weekdays` at `st`. */
  predicate IsOccurrence(weekdays: seq<int>, st: TimeOfDay, t: int)
    requires ValidTime(st)
  {
    Weekday(DateOf(t)) in weekdays && t == Combine(DateOf(t), st)
  }

  /** Some entry of the list is a real weekday. */
  predicate HasValidWeekday(weekdays: seq<int>)
  {
    exists w :: w in weekdays && 0 <= w < 7
  }

  /** `occurrence_start_on_date`: no occurrence when the date's weekday is
      not listed; otherwise the date at the start time, or the `ValueError`
      of a start time that does not parse. */
  function OccurrenceStartOnDate(ev: Event, date: int): (r: Result<Option<int>, ConfigError>)
  {
    if Weekday(date) !in ev.weekdays then Success(None)
    else
      match ParseTimeHHMM(ev.startHHMM)
      case Failure(e) => Failure(e)
      case Success(st) => Success(Some(Combine(date, st)))
  }

  /** `None` exactly off the event's weekdays; otherwise the occurrence on
      that date, which is the event's only start on that date. */
  lemma OccurrenceOnDate(ev: Event, date: int)
    ensures OccurrenceStartOnDate(ev, date) == Success(None) <==> Weekday(date) !in ev.weekdays
    ensures OccurrenceStartOnDate(ev, date).Failure? <==>
              Weekday(date) in ev.weekdays && ParseTimeHHMM(ev.startHHMM).Failure?
    ensures OccurrenceStartOnDate(ev, date).Success? && OccurrenceStartOnDate(ev, date).value.Some? ==>
              var st := ParseTimeHHMM(ev.startHHMM).value;
              var t := OccurrenceStartOnDate(ev, date).value.value;
              && ParseTimeHHMM(ev.startHHMM).Success?
              && DateOf(t) == date && IsOccurrence(ev.weekdays, st, t)
              && forall u :: DateOf(u) == date && IsOccurrence(ev.weekdays, st, u) ==> u == t
  {
  }

  /** Days `today .. today + n - 1` hold no start at or after `ref`. */
  predicate NoneFromRef(weekdays: seq<int>, st: TimeOfDay, today: int, ref: int, n: int)
    requires ValidTime(st)
  {
    forall d :: today <= d < today + n ==> Weekday(d) !in weekdays || Combine(d, st) < ref
  }

  /** `Event.next_occurrence_start`: the start time must parse; then the first
      start at or after `ref` among the dates `today .. today + 7`, and, when no
      listed weekday is a real one, the start time a week after `today`. */
  method NextOccurrenceStart(ev: Event, ref: int) returns (r: Result<int, ConfigError>)
    ensures r.Failure? <==> ParseTimeHHMM(ev.startHHMM).Failure?
    ensures r.Success? && HasValidWeekday(ev.weekdays) ==>
              var st := ParseTimeHHMM(ev.startHHMM).value;
              && ref <= r.value
              && IsOccurrence(ev.weekdays, st, r.value)
              && DateOf(ref) <= DateOf(r.value) <= DateOf(ref) + 7
              && forall t :: ref <= t < r.value ==> !IsOccurrence(ev.weekdays, st, t)
    ensures r.Success? && !HasValidWeekday(ev.weekdays) ==>
              r.value == Combine(DateOf(ref) + 7, ParseTimeHHMM(ev.startHHMM).value)
  {
    var parsed := ParseTimeHHMM(ev.startHHMM);
    if parsed.Failure? {
      return Failure(parsed.error);
    }
    var t := FirstStartFrom(ev.weekdays, parsed.value, ref);
    return Success(t);
  }

  /** The scan of `next_occurrence_start` once the start time has parsed. */
  method FirstStartFrom(weekdays: seq<int>, st: TimeOfDay, ref: int) returns (t: int)
    requires ValidTime(st)
    ensures HasValidWeekday(weekdays) ==>
              && ref <= t
              && IsOccurrence(weekdays, st, t)
              && DateOf(ref) <= DateOf(t) <= DateOf(ref) + 7
              && forall u :: ref <= u < t ==> !IsOccurrence(weekdays, st, u)
    ensures !HasValidWeekday(weekdays) ==> t == Combine(DateOf(ref) + 7, st)
  {
    var today := DateOf(ref);
    for addDays := 0 to 8
      invariant NoneFromRef(weekdays, st, today, ref, addDays)
    {
      var d := today + addDays;
      if Weekday(d) in weekdays {
        var dt := Combine(d, st);
        if dt >= ref {
          Earliest(weekdays, st, today, ref, addDays);
          return dt;
        }
      }
      NoneFromRefStep(weekdays, st, today, ref, addDays);
    }
    NoCandidateMeansNoWeekday(weekdays, st, today, ref);
    return Combine(today + 7, st);
  }

  /** A fruitless day extends the fruitless stretch by one. */
  lemma NoneFromRefStep(weekdays: seq<int>, st: TimeOfDay, today: int, ref: int, n: int)
    requires ValidTime(st) && NoneFromRef(weekdays, st, today, ref, n)
    requires Weekday(today + n) !in weekdays || Combine(today + n, st) < ref
    ensures NoneFromRef(weekdays, st, today, ref, n + 1)
  {
  }

  /** A candidate found on day `today + n` (`n <= 7`) after `n` fruitless
      days is the earliest start at or after `ref`, and its weekday is a
      real one. */
  lemma Earliest(weekdays: seq<int>, st: TimeOfDay, today: int, ref: int, n: nat)
    requires ValidTime(st) && today == DateOf(ref) && n < 8
    requires NoneFromRef(weekdays, st, today, ref, n)
    requires Weekday(today + n) in weekdays && Combine(today + n, st) >= ref
    ensures HasValidWeekday(weekdays)
    ensures IsOccurrence(weekdays, st, Combine(today + n, st))
    ensures today <= DateOf(Combine(today + n, st)) <= today + 7
    ensures forall t :: ref <= t < Combine(today + n, st) ==> !IsOccurrence(weekdays, st, t)
  {
    assert Weekday(today + n) in weekdays && 0 <= Weekday(today + n) < 7;
    forall t | ref <= t && IsOccurrence(weekdays, st, t)
      ensures Combine(today + n, st) <= t
    {
      var d := DateOf(t);
      assert today <= d;
      assert Weekday(d) in weekdays && t == Combine(d, st);
      assert d >= today + n;
      if d > today + n {
        CombineMonotone(today + n, d, st);
      }
    }
  }

  /** Eight fruitless days mean that no listed weekday is a real one: every
      weekday comes round within a week, and a second time on day 7. */
  lemma NoCandidateMeansNoWeekday(weekdays: seq<int>, st: TimeOfDay, today: int, ref: int)
    requires ValidTime(st) && today == DateOf(ref)
    requires NoneFromRef(weekdays, st, today, ref, 8)
    ensures !HasValidWeekday(weekdays)
  {
    forall w | w in weekdays
      ensures !(0 <= w < 7)
    {
      var k := (w - today) % 7;
      var d := if k == 0 then today + 7 else today + k;
      assert today <= d < today + 8;
      assert Combine(d, st) >= ref;
      assert Weekday(d) !in weekdays;
      assert 0 <= w < 7 ==> Weekday(d) == w;
    }
  }
}
