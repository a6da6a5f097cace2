/** Departure records as a departure board delivers them, the time of day
    they carry, and the remote departure-board source the engine polls. */
module Departures {

  datatype Option<+T> = None | Some(value: T)

  /** Every field of a departure that the engine reads.  `shortName` is the
      board's `sname` field, read only by the Python variant.  `rtTime` is
      None when the board carries no realtime estimate: null in C#, a
      missing key or None in Python, null or undefined in JavaScript. */
  datatype DepartureRecord = DepartureRecord(
    name: string,
    shortName: string,
    vehicleType: string,
    time: string,
    date: string,
    journeyId: string,
    direction: string,
    rtTime: Option<string>,
    fgColor: string,
    bgColor: string)

  /** The time a departure is expected to leave: the realtime estimate
      whenever the board has one (an empty string counts as one), otherwise
      the timetable time. */
  function EffectiveTime(d: DepartureRecord): (t: string)
    ensures d.rtTime.Some? ==> t == d.rtTime.value
    ensures d.rtTime.None? ==> t == d.time
  {
    if d.rtTime.Some? then d.rtTime.value else d.time
  }

  predicate IsDigit(c: char) { '0' <= c <= '9' }

  function DigitValue(c: char): (n: nat)
    requires IsDigit(c)
    ensures n < 10
  {
    (c as int - '0' as int) as nat
  }

  function DigitChar(n: nat): (c: char)
    requires n < 10
    ensures IsDigit(c) && DigitValue(c) == n
  {
    ('0' as int + n) as char
  }

  /** The minute of the day that an "HH:MM" string names, or None when the
      string is not two digits of hour, a colon and two digits of minute. */
  function ClockMinutes(s: string): (r: Option<nat>)
    ensures r.Some? ==> r.value < 1440
  {
    if |s| == 5 && IsDigit(s[0]) && IsDigit(s[1]) && s[2] == ':' && IsDigit(s[3]) && IsDigit(s[4]) then
      var h := 10 * DigitValue(s[0]) + DigitValue(s[1]);
      var m := 10 * DigitValue(s[3]) + DigitValue(s[4]);
      if h < 24 && m < 60 then Some(60 * h + m) else None
    else
      None
  }

  /** A minute of the day written as "HH:MM" (the "HH:mm" format). */
  function FormatClock(minute: nat): (s: string)
    requires minute < 1440
  {
    var h := minute / 60;
    var m := minute % 60;
    [DigitChar(h / 10), DigitChar(h % 10), ':', DigitChar(m / 10), DigitChar(m % 10)]
  }

  /** Formatting a minute of the day and parsing it back gives that minute. */
  lemma FormatThenParse(minute: nat)
    requires minute < 1440
    ensures ClockMinutes(FormatClock(minute)) == Some(minute)
  {
    var s := FormatClock(minute);
    var h, m := minute / 60, minute % 60;
    assert DigitValue(s[0]) == h / 10 && DigitValue(s[1]) == h % 10;
    assert DigitValue(s[3]) == m / 10 && DigitValue(s[4]) == m % 10;
    assert 10 * (h / 10) + h % 10 == h;
    assert 10 * (m / 10) + m % 10 == m;
  }

  /** Every string that parses as a time of day is the formatting of the
      minute it names: "HH:MM" has exactly one spelling. */
  lemma ParseThenFormat(s: string)
    requires ClockMinutes(s).Some?
    ensures FormatClock(ClockMinutes(s).value) == s
  {
    var h := 10 * DigitValue(s[0]) + DigitValue(s[1]);
    var m := 10 * DigitValue(s[3]) + DigitValue(s[4]);
    var minute := 60 * h + m;
    assert minute / 60 == h && minute % 60 == m;
    assert h / 10 == DigitValue(s[0]) && h % 10 == DigitValue(s[1]);
    assert m / 10 == DigitValue(s[3]) && m % 10 == DigitValue(s[4]);
    var t := FormatClock(minute);
    assert DigitValue(t[0]) == DigitValue(s[0]) && DigitValue(t[1]) == DigitValue(s[1]);
    assert DigitValue(t[3]) == DigitValue(s[3]) && DigitValue(t[4]) == DigitValue(s[4]);
    DigitValueInjective(t[0], s[0]);
    DigitValueInjective(t[1], s[1]);
    DigitValueInjective(t[3], s[3]);
    DigitValueInjective(t[4], s[4]);
    assert t == s;
  }

  lemma DigitValueInjective(a: char, b: char)
    requires IsDigit(a) && IsDigit(b) && DigitValue(a) == DigitValue(b)
    ensures a == b
  {
  }

  /** A departure whose effective time is a well-formed "HH:MM".  All three
      implementations parse that time; a departure with any other time makes
      them throw (C#, Python) or compute with NaN (JavaScript), which this
      model does not follow. */
  type Departure = d: DepartureRecord | ClockMinutes(EffectiveTime(d)).Some?
    witness DepartureRecord("", "", "", "00:00", "", "", "", None, "", "")

  /** The minute of the day a departure is expected to leave. */
  function DepartureMinute(d: Departure): (m: nat)
    ensures m < 1440
    ensures FormatClock(m) == EffectiveTime(d)
  {
    ParseThenFormat(EffectiveTime(d));
    ClockMinutes(EffectiveTime(d)).value
  }

  /** One request to the departure board: stop, date and time of day. */
  datatype Query = Query(stationId: string, date: string, time: string)

  /** The remote departure board.  The first argument is how many fetches
      this request has made before (the board may answer differently each
      time); None stands for a request that failed or whose answer carried
      no list of departures. */
  type Source = (nat, Query) -> Option<seq<Departure>>

  /** What the C# and Python variants make of an answer: a failure is an
      empty batch. */
  function Batch(answer: Option<seq<Departure>>): (ds: seq<Departure>)
    ensures answer.None? ==> ds == []
    ensures answer.Some? ==> ds == answer.value
  {
    if answer.Some? then answer.value else []
  }
}
