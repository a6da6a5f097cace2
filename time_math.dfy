/** Minute differences between a departure time and "now", as each of the
    three implementations computes them.  "now" is a fixed number of
    seconds since midnight; a departure time is a minute of the same day. */
module TimeMath {
  import opened Departures

  /** Which implementation's clock arithmetic is meant. */
  datatype Runtime = CSharp | Python | JavaScript

  /** Seconds from `now` to the start of minute `minute` of today
      (negative once that minute has begun). */
  function SecondsUntil(minute: nat, now: int): int
  {
    60 * minute - now
  }

  /** s / 60 rounded to the nearest integer, halves away from zero
      (Math.Round with MidpointRounding.AwayFromZero). */
  function RoundAwayFromZero(s: int): (r: int)
    ensures s >= 0 ==> -30 <= s - 60 * r < 30
    ensures s < 0 ==> -30 < s - 60 * r <= 30
  {
    if s >= 0 then (s + 30) / 60 else -((30 - s) / 60)
  }

  /** s / 60 rounded to the nearest integer, halves upward (Math.round). */
  function RoundHalfUp(s: int): (r: int)
    ensures -30 <= s - 60 * r < 30
  {
    (s + 30) / 60
  }

  function Clamp(m: int): (r: int)
    ensures r >= 0
    ensures m >= 0 ==> r == m
    ensures m < 0 ==> r == 0
  {
    if m >= 0 then m else 0
  }

  /** GetMinutesDifference: the time of day is placed on today's date and
      the difference to now is rounded to whole minutes, halves away from
      zero; with negativeToZero a negative result becomes 0. */
  function CsMinutesDifference(time: string, now: int, negativeToZero: bool): (r: int)
    requires ClockMinutes(time).Some?
    ensures var s := SecondsUntil(ClockMinutes(time).value, now);
      if negativeToZero then
        r >= 0 && (r == 0 <==> s < 30) && (r > 0 ==> -30 <= s - 60 * r < 30)
      else
        (s >= 0 ==> -30 <= s - 60 * r < 30) && (s < 0 ==> -30 < s - 60 * r <= 30)
  {
    var diff := RoundAwayFromZero(SecondsUntil(ClockMinutes(time).value, now));
    if negativeToZero then Clamp(diff) else diff
  }

  /** _get_minutes_difference: now's hour and minute are replaced by the
      departure's, keeping now's seconds, so the difference is a whole
      number of minutes: the exact difference rounded up. */
  function PyMinutesDifference(time: string, now: int, negativeToZero: bool): (r: int)
    requires ClockMinutes(time).Some?
    ensures var s := SecondsUntil(ClockMinutes(time).value, now);
      if negativeToZero then
        r >= 0 && (r == 0 <==> s <= 0) && (r > 0 ==> 0 <= 60 * r - s < 60)
      else
        0 <= 60 * r - s < 60
  {
    var diff := ClockMinutes(time).value - now / 60;
    if negativeToZero then Clamp(diff) else diff
  }

  /** getMinutesDifference: the time is set to HH:MM:00 today and the
      difference is rounded to whole minutes, halves upward. */
  function JsMinutesDifference(time: string, now: int, negativeToZero: bool): (r: int)
    requires ClockMinutes(time).Some?
    ensures var s := SecondsUntil(ClockMinutes(time).value, now);
      if negativeToZero then
        r >= 0 && (r == 0 <==> s < 30) && (r > 0 ==> -30 <= s - 60 * r < 30)
      else
        -30 <= s - 60 * r < 30
  {
    var diff := RoundHalfUp(SecondsUntil(ClockMinutes(time).value, now));
    if negativeToZero then Clamp(diff) else diff
  }

  function MinutesDifference(rt: Runtime, time: string, now: int, negativeToZero: bool): int
    requires ClockMinutes(time).Some?
  {
    match rt
    case CSharp => CsMinutesDifference(time, now, negativeToZero)
    case Python => PyMinutesDifference(time, now, negativeToZero)
    case JavaScript => JsMinutesDifference(time, now, negativeToZero)
  }

  /** Signed minutes until a departure leaves (negative: already left). */
  function Minutes(rt: Runtime, d: Departure, now: int): int
  {
    MinutesDifference(rt, EffectiveTime(d), now, false)
  }

  /** The countdown shown for a departure: its minutes, floored at zero. */
  function Countdown(rt: Runtime, d: Departure, now: int): int
  {
    MinutesDifference(rt, EffectiveTime(d), now, true)
  }

  /** The countdown is the signed minute difference clamped at zero, in
      every runtime. */
  lemma CountdownIsClamped(rt: Runtime, d: Departure, now: int)
    ensures Countdown(rt, d, now) == Clamp(Minutes(rt, d, now))
  {
  }

  /** The departure filter: not yet left, and leaving within the hour. */
  predicate InWindow(minutes: int)
  {
    0 <= minutes < 60
  }

  /** The C# filter, stated in seconds: a departure is kept exactly when it
      is at most 29 seconds past and less than 59 minutes 30 seconds away. */
  lemma CsWindowInSeconds(d: Departure, now: int)
    ensures InWindow(Minutes(CSharp, d, now))
        <==> -30 < SecondsUntil(DepartureMinute(d), now) < 3570
  {
  }

  /** The Python filter, stated in seconds: kept exactly when the departure
      minute started less than a minute ago and is at most 59 minutes away. */
  lemma PyWindowInSeconds(d: Departure, now: int)
    ensures InWindow(Minutes(Python, d, now))
        <==> -60 < SecondsUntil(DepartureMinute(d), now) <= 3540
  {
  }

  /** The JavaScript filter, stated in seconds: kept exactly when the
      departure is at most 30 seconds past and less than 59 minutes 30
      seconds away; unlike C#, exactly 30 seconds past is still kept. */
  lemma JsWindowInSeconds(d: Departure, now: int)
    ensures InWindow(Minutes(JavaScript, d, now))
        <==> -30 <= SecondsUntil(DepartureMinute(d), now) < 3570
  {
  }
}
