/** The JavaScript variant: getStation's chain of fillBins callbacks, each
    handing the next fetch's answer to the next, and processDepartures.  The bins live under string keys on an
    Array, whose length those keys never change, and each bin's "sort"
    keeps insertion order. */
module JsApi {
  import opened Departures
  import opened TimeMath
  import opened Text
  import opened Sorting
  import opened Binning
  import opened Polling
  import opened Display

  /** The first fetch plus one re-fetch per attempt. */
  const MaxFetches := MaxAttempts + 1

  /** The request getStation makes: the given date and time as the first
      cursor, later fetches asking for the advanced cursor, JavaScript
      arithmetic. */
  function JsRequest(source: Source, stationId: string, date: string, time: string, now: int): (r: Request)
    ensures r.followCursor && r.rt == JavaScript
    ensures r.start == Cursor(date, time)
  {
    Request(source, stationId, Cursor(date, time), true, JavaScript, now)
  }

  /** The answer to fetch number n (counting from 0). */
  function Answer(r: Request, n: nat): Option<seq<Departure>>
  {
    var at := QueryCursor(r, After(r, n));
    r.source(n, Query(r.stationId, at.date, at.time))
  }

  /** The first fetch from k on that fails (its error handler ends the
      chain), or MaxFetches when none of them fails. */
  function FirstFailure(r: Request, k: nat): (f: nat)
    requires k <= MaxFetches
    ensures k <= f <= MaxFetches
    ensures forall j :: k <= j < f ==> Answer(r, j).Some?
    ensures f < MaxFetches ==> Answer(r, f).None?
    decreases MaxFetches - k
  {
    if k == MaxFetches then k
    else if Answer(r, k).None? then k
    else FirstFailure(r, k + 1)
  }

  /** A property name that is an array index: the canonical decimal
      spelling of an integer below 2^32 - 1. */
  predicate IsArrayIndex(k: string)
  {
    && |k| > 0
    && (forall i :: 0 <= i < |k| ==> IsDigit(k[i]))
    && (k[0] == '0' ==> |k| == 1)
    && DecimalValue(k) < 0xFFFF_FFFF
  }

  /** The length of an Array whose own properties are `keys`: one more
      than its largest array index, 0 when it has none. */
  function ArrayLength(keys: seq<string>): (n: nat)
    ensures (forall i :: 0 <= i < |keys| ==> !IsArrayIndex(keys[i])) ==> n == 0
    ensures forall i :: 0 <= i < |keys| && IsArrayIndex(keys[i]) ==> DecimalValue(keys[i]) < n
  {
    if keys == [] then 0
    else
      var rest := ArrayLength(keys[..|keys| - 1]);
      var last := keys[|keys| - 1];
      assert forall i :: 0 <= i < |keys| - 1 ==> keys[i] == keys[..|keys| - 1][i];
      if IsArrayIndex(last) && DecimalValue(last) + 1 > rest then DecimalValue(last) + 1 else rest
  }

  /** allBinsHaveAtleastTwoItems as written: false while the Array's length
      is 0, otherwise whether every bin holds two departures or more. */
  ghost predicate JsComplete(b: Bins)
  {
    ArrayLength(b.keys) != 0 && forall k :: k in b.entries ==> |b.entries[k]| >= 2
  }

  method AllBinsHaveAtleastTwoItems(departureBins: BinStore) returns (complete: bool)
    requires departureBins.Valid()
    ensures complete == JsComplete(departureBins.Value())
  {
    var keys := departureBins.keys;
    if ArrayLength(keys) == 0 {
      return false;
    }
    var i := 0;
    while i < |keys|
      invariant 0 <= i <= |keys|
      invariant forall j :: 0 <= j < i ==> |departureBins.bins[keys[j]]| >= 2
    {
      if |departureBins.bins[keys[i]]| < 2 {
        return false;
      }
      i := i + 1;
    }
    assert forall k :: k in departureBins.bins ==> exists j :: 0 <= j < |keys| && keys[j] == k;
    return true;
  }

  /** A property name holding a comma is not an array index. */
  lemma CommaKeyIsNotIndex(k: string)
    requires ',' in k
    ensures !IsArrayIndex(k)
  {
  }

  /** Every bin key is a line name, a comma and a direction, so the Array
      keeps length 0 and allBinsHaveAtleastTwoItems is false for every
      store the loop can build. */
  lemma NeverComplete(b: Bins, rt: Runtime, now: int)
    requires StoreInvariant(b, rt, now)
    ensures ArrayLength(b.keys) == 0
    ensures !JsComplete(b)
  {
    forall i | 0 <= i < |b.keys| ensures !IsArrayIndex(b.keys[i]) {
      var k := b.keys[i];
      assert k in b.entries;
      var e := b.entries[k][0];
      assert e in b.entries[k];
      assert FiledUnderKey(b);
      assert BinKey(e) == k;
      assert k[|e.name|] == ',';
      CommaKeyIsNotIndex(k);
    }
  }

  /** The chain's check is false after every number of fetches. */
  lemma NeverCompleteAfter(r: Request, n: nat)
    ensures !JsComplete(After(r, n).bins)
  {
    AfterInvariant(r, n);
    NeverComplete(After(r, n).bins, r.rt, r.now);
  }

  /** parseInt of a name token; None stands for NaN (no token, or none
      starting with a digit). */
  function ParsedNumber(number: Option<string>): Option<nat>
  {
    match number
    case None => None
    case Some(t) => ParseInt(t)
  }

  function BinNumber(p: (string, seq<Departure>)): Option<nat>
  {
    if |p.1| > 0 then ParsedNumber(SecondToken(p.1[0].name)) else None
  }

  /** The comparator's order: a > b between numbers; NaN is ordered
      against nothing. */
  predicate NumberLess(a: Option<nat>, b: Option<nat>)
  {
    a.Some? && b.Some? && a.value < b.value
  }

  lemma NumberLessIsStrictOrder()
    ensures StrictOrder(NumberLess)
  {
  }

  /** NaN is "equal" to every number while numbers are ordered among
      themselves, so the comparator is no weak order and the order of the
      result is not determined by it. */
  lemma NumberLessIsNotWeak()
    ensures !WeakOrder(NumberLess)
  {
    assert NumberLess(Some(1), Some(2)) && !NumberLess(Some(1), None) && !NumberLess(None, Some(2));
  }

  /** sortedResult: the shown bins ordered by the parsed number of their
      first name's second token. */
  function Ordered(b: Bins): (rows: seq<(string, seq<Departure>)>)
    requires KeysMatch(b)
    ensures |rows| == |Kept(b, NameNotLoc)|
    ensures forall p :: p in rows <==> p in Kept(b, NameNotLoc)
  {
    NumberLessIsStrictOrder();
    var rows := SortByKey(Kept(b, NameNotLoc), BinNumber, NumberLess);
    assert forall p :: p in rows <==> p in multiset(Kept(b, NameNotLoc));
    rows
  }

  /** The countdowns as processDepartures computes them: the bin's sort
      has a comparator that returns nothing, so the bin stays in insertion
      order and its first two entries are shown. */
  function InsertionCountdowns(bin: seq<Departure>, now: int): (c: Countdowns)
    requires |bin| > 0
    ensures c.nextMin == Countdown(JavaScript, bin[0], now) && c.nextMin >= 0
    ensures c.nextNextMin.Some? <==> |bin| >= 2
    ensures c.nextNextMin.Some? ==> c.nextNextMin.value == Countdown(JavaScript, bin[1], now) && c.nextNextMin.value >= 0
  {
    if |bin| == 1 then Countdowns(Countdown(JavaScript, bin[0], now), None)
    else Countdowns(Countdown(JavaScript, bin[0], now), Some(Countdown(JavaScript, bin[1], now)))
  }

  /** The record of one bin: the second name token as the number, the
      destination cut before any " via ", fgColor as it is, bgColor with the
      accent fallback, and the countdowns in insertion order. */
  function Record(p: (string, seq<Departure>), now: int): (info: VehicleInfo)
    requires |p.1| > 0
    ensures info.number == SecondToken(p.1[0].name)
    ensures info.destination == StripVia(p.1[0].direction)
    ensures info.foregroundColor == p.1[0].fgColor
    ensures info.backgroundColor == BackgroundOrBlack(p.1[0].bgColor)
    ensures info.countdowns == InsertionCountdowns(p.1, now)
  {
    var value := p.1[0];
    VehicleInfo(SecondToken(value.name), StripVia(value.direction), value.fgColor, BackgroundOrBlack(value.bgColor),
      InsertionCountdowns(p.1, now))
  }

  /** What processDepartures hands to the callback: a record per ordered
      bin. */
  function View(b: Bins, now: int): (infos: seq<VehicleInfo>)
    requires KeysMatch(b)
  {
    var rows := Ordered(b);
    seq(|rows|, i requires 0 <= i < |rows| => Record(rows[i], now))
  }

  /** The records of the ordered bins, pushed one by one. */
  method AppendRecords(rows: seq<(string, seq<Departure>)>, now: int) returns (infos: seq<VehicleInfo>)
    requires forall i :: 0 <= i < |rows| ==> |rows[i].1| > 0
    ensures infos == seq(|rows|, i requires 0 <= i < |rows| => Record(rows[i], now))
  {
    infos := [];
    for i := 0 to |rows|
      invariant |infos| == i
      invariant forall k :: 0 <= k < i ==> infos[k] == Record(rows[k], now)
    {
      if |rows[i].1| > 0 {
        infos := infos + [Record(rows[i], now)];
      }
    }
  }

  /** processDepartures: filter, order, then one record per bin. */
  method ProcessDepartures(departures: BinStore, now: int) returns (vehicleInfos: seq<VehicleInfo>)
    requires departures.Valid()
    ensures vehicleInfos == View(departures.Value(), now)
  {
    var b := departures.Value();
    vehicleInfos := AppendRecords(Ordered(b), now);
  }

  /** What the chain of a request delivers and the queries it sends, from
      fetch k on: when fetch f is the first of them to fail, nothing and
      the first f + 1 queries; when none fails, the records of the store
      after six fetches and all six queries. */
  ghost function Outcome(r: Request, k: nat): (Option<seq<VehicleInfo>>, seq<Query>)
    requires k <= MaxFetches
  {
    var f := FirstFailure(r, k);
    if f < MaxFetches then (None, After(r, f + 1).queries)
    else
      AfterInvariant(r, MaxFetches);
      (Some(View(After(r, MaxFetches).bins, r.now)), After(r, MaxFetches).queries)
  }

  /** The chain delivers records exactly when none of its fetches fails;
      it sends one query per fetch up to the first failure, each asking
      for the cursor after the fetches before it. */
  lemma OutcomeMeaning(r: Request)
    requires r.followCursor
    ensures var f, out := FirstFailure(r, 0), Outcome(r, 0);
      && (out.0.Some? <==> f == MaxFetches)
      && |out.1| == (if f < MaxFetches then f + 1 else MaxFetches)
      && forall i :: 0 <= i < |out.1| ==>
           out.1[i] == Query(r.stationId, After(r, i).cursor.date, After(r, i).cursor.time)
  {
    var f, out := FirstFailure(r, 0), Outcome(r, 0);
    var n := if f < MaxFetches then f + 1 else MaxFetches;
    assert out.1 == After(r, n).queries;
    forall i | 0 <= i < |out.1|
      ensures out.1[i] == Query(r.stationId, After(r, i).cursor.date, After(r, i).cursor.time)
    {
      QueryRule(r, n, i);
    }
  }

  /** Fetch n asks for the cursor after n fetches: its answer is the
      board's answer to that query, and the query joins the log. */
  lemma FetchStep(r: Request, n: nat, q: Query, answer: Option<seq<Departure>>)
    requires r.followCursor
    requires q == Query(r.stationId, After(r, n).cursor.date, After(r, n).cursor.time)
    requires answer == r.source(n, q)
    ensures Answer(r, n) == answer
    ensures After(r, n + 1).queries == After(r, n).queries + [q]
  {
  }

  /** An answered fetch moves the cursor to the answer's last departure
      and places the answer in the bins, which are then never complete. */
  lemma AnsweredStep(r: Request, n: nat, departures: seq<Departure>)
    requires Answer(r, n) == Some(departures)
    ensures After(r, n + 1).bins == PlaceAll(After(r, n).bins, departures, r.rt, r.now)
    ensures After(r, n + 1).cursor == Advance(After(r, n).cursor, departures)
    ensures !JsComplete(After(r, n + 1).bins)
  {
    NeverCompleteAfter(r, n + 1);
  }

  /** A chain whose fetch n fails delivers nothing. */
  lemma FailedChain(r: Request, n: nat)
    requires n < MaxFetches && Answer(r, n).None?
    ensures Outcome(r, n) == (None, After(r, n + 1).queries)
  {
  }

  /** An answered fetch hands the outcome of the chain on to the next. */
  lemma AnsweredChain(r: Request, n: nat)
    requires n < MaxFetches && Answer(r, n).Some?
    ensures Outcome(r, n) == Outcome(r, n + 1)
  {
  }

  /** The re-fetch after fetch k asks for the advanced cursor; the outcome
      from fetch k on is the outcome from the re-fetch on, which ends the
      chain when it fails. */
  lemma Refetched(r: Request, k: nat, q: Query, result: Option<seq<Departure>>)
    requires r.followCursor && k < MaxAttempts
    requires q == Query(r.stationId, After(r, k + 1).cursor.date, After(r, k + 1).cursor.time)
    requires result == r.source(k + 1, q)
    ensures result.None? ==> Outcome(r, k + 1) == (None, After(r, k + 1).queries + [q])
    ensures result.Some? ==> FillArgs(r, k + 1) == (After(r, k + 1).bins, After(r, k + 1).cursor, After(r, k + 1).queries + [q], result)
  {
    FetchStep(r, k + 1, q, result);
    if result.None? {
      FailedChain(r, k + 1);
    }
  }

  /** What fillBins is called with after fetch number k: the store and
      the cursor after the fetches before it, the queries sent so far and
      the answer. */
  ghost function FillArgs(r: Request, k: nat): (Bins, Cursor, seq<Query>, Option<seq<Departure>>)
  {
    (After(r, k).bins, After(r, k).cursor, After(r, k + 1).queries, Answer(r, k))
  }

  /** fillBins, called with the answer to fetch number `attempts`: move the
      cursor to the answer's last departure and place the answer in the
      bins; then, unless the bins are complete or five re-fetches have
      been made, re-fetch; otherwise deliver the records.  The closure
      variables attempts, lastDate and lastTime are parameters here. */
  method FillBins(ghost r: Request, source: Source, stationId: string, now: int, departureBins: BinStore,
                  attempts: nat, lastDate: string, lastTime: string, queries: seq<Query>, departures: seq<Departure>)
    returns (vehicleInfos: Option<seq<VehicleInfo>>, allQueries: seq<Query>)
    requires r == JsRequest(source, stationId, r.start.date, r.start.time, now)
    requires attempts <= MaxAttempts && departureBins.Valid()
    requires FillArgs(r, attempts) == (departureBins.Value(), Cursor(lastDate, lastTime), queries, Some(departures))
    modifies departureBins
    ensures (vehicleInfos, allQueries) == Outcome(r, attempts)
    decreases MaxAttempts - attempts, 1
  {
    AnsweredStep(r, attempts, departures);
    var newDate, newTime := lastDate, lastTime;
    if |departures| > 0 {
      var lastDeparture := departures[|departures| - 1];
      newDate := lastDeparture.date;
      newTime := EffectiveTime(lastDeparture);
    }
    departureBins.PlaceDeparturesInBins(departures, JavaScript, now);
    var complete := AllBinsHaveAtleastTwoItems(departureBins);
    if !complete && attempts < MaxAttempts {
      AnsweredChain(r, attempts);
      vehicleInfos, allQueries := Refetch(r, source, stationId, now, departureBins, attempts, newDate, newTime, queries);
    } else {
      var infos := ProcessDepartures(departureBins, now);
      return Some(infos), queries;
    }
  }

  /** The re-fetch inside fillBins: fetch number attempts + 1 asks for the
      advanced cursor; a failed one ends the chain with nothing delivered,
      an answered one is handed to fillBins again. */
  method Refetch(ghost r: Request, source: Source, stationId: string, now: int, departureBins: BinStore,
                 attempts: nat, lastDate: string, lastTime: string, queries: seq<Query>)
    returns (vehicleInfos: Option<seq<VehicleInfo>>, allQueries: seq<Query>)
    requires r == JsRequest(source, stationId, r.start.date, r.start.time, now)
    requires attempts < MaxAttempts && departureBins.Valid()
    requires After(r, attempts + 1) == PollState(departureBins.Value(), Cursor(lastDate, lastTime), queries)
    modifies departureBins
    ensures (vehicleInfos, allQueries) == Outcome(r, attempts + 1)
    decreases MaxAttempts - attempts, 0
  {
    var query := Query(stationId, lastDate, lastTime);
    var result := source(attempts + 1, query);
    Refetched(r, attempts, query, result);
    if result.None? {
      return None, queries + [query];
    }
    vehicleInfos, allQueries :=
      FillBins(r, source, stationId, now, departureBins, attempts + 1, lastDate, lastTime, queries + [query], result.value);
  }

  /** getStation: a fresh store, the first fetch for the given date and
      time, and its answer handed to fillBins. */
  method GetStation(source: Source, stationId: string, date: string, time: string, now: int)
    returns (vehicleInfos: Option<seq<VehicleInfo>>, queries: seq<Query>)
    ensures (vehicleInfos, queries) == Outcome(JsRequest(source, stationId, date, time, now), 0)
  {
    ghost var r := JsRequest(source, stationId, date, time, now);
    var departureBins := new BinStore();
    var query := Query(stationId, date, time);
    var result := source(0, query);
    FetchStep(r, 0, query, result);
    assert After(r, 0) == PollState(NoBins, Cursor(date, time), []);
    assert After(r, 1).queries == [query];
    assert departureBins.Value() == NoBins;
    if result.None? {
      FailedChain(r, 0);
      return None, [query];
    }
    vehicleInfos, queries := FillBins(r, source, stationId, now, departureBins, 0, date, time, [query], result.value);
  }

  /** getDepartures: the UTC date and the UTC "HH:MM" of the clock as the
      first cursor (toISOString), while minute differences are taken
      against local time. */
  method GetDepartures(source: Source, stationId: string, utcDate: string, utcMinute: nat, now: int)
    returns (vehicleInfos: Option<seq<VehicleInfo>>, queries: seq<Query>)
    requires utcMinute < 1440
    ensures (vehicleInfos, queries) == Outcome(JsRequest(source, stationId, utcDate, FormatClock(utcMinute), now), 0)
  {
    vehicleInfos, queries := GetStation(source, stationId, utcDate, FormatClock(utcMinute), now);
  }

  /** The records of the view are those of the ordered bins, in order. */
  lemma ViewRecords(b: Bins, now: int)
    requires KeysMatch(b)
    ensures |View(b, now)| == |Ordered(b)|
    ensures forall i :: 0 <= i < |Ordered(b)| ==> |Ordered(b)[i].1| > 0 && View(b, now)[i] == Record(Ordered(b)[i], now)
  {
    forall i | 0 <= i < |Ordered(b)| ensures |Ordered(b)[i].1| > 0 {
      assert Ordered(b)[i] in Ordered(b);
    }
  }

  /** processDepartures emits exactly one record per shown bin (a bin whose
      first departure's name is not "LOC"), each built from its own bin. */
  lemma ViewOneRecordPerBin(b: Bins, now: int)
    requires KeysMatch(b)
    ensures var kept, infos := Kept(b, NameNotLoc), View(b, now);
      && |infos| == |kept|
      && (forall i :: 0 <= i < |infos| ==> exists p :: p in kept && infos[i] == Record(p, now))
      && (forall p :: p in kept ==> Record(p, now) in infos)
  {
    ViewRecordsAreOfKept(b, now);
    KeptBinsHaveRecords(b, now);
  }

  lemma ViewRecordsAreOfKept(b: Bins, now: int)
    requires KeysMatch(b)
    ensures var kept, infos := Kept(b, NameNotLoc), View(b, now);
      && |infos| == |kept|
      && forall i :: 0 <= i < |infos| ==> exists p :: p in kept && infos[i] == Record(p, now)
  {
    var rows := Ordered(b);
    ViewRecords(b, now);
    var infos := View(b, now);
    forall i | 0 <= i < |infos| ensures exists p :: p in Kept(b, NameNotLoc) && infos[i] == Record(p, now) {
      assert rows[i] in rows;
    }
  }

  lemma KeptBinsHaveRecords(b: Bins, now: int)
    requires KeysMatch(b)
    ensures forall p :: p in Kept(b, NameNotLoc) ==> Record(p, now) in View(b, now)
  {
    var rows := Ordered(b);
    ViewRecords(b, now);
    var infos := View(b, now);
    forall p | p in Kept(b, NameNotLoc) ensures Record(p, now) in infos {
      assert p in rows;
      var i :| 0 <= i < |rows| && rows[i] == p;
      assert infos[i] == Record(p, now);
    }
  }

  /** When every shown bin's number parses (no NaN reaches the
      comparator), every record's number parses and the records come in
      non-decreasing order of it, in the stable order the model sorts by.
      The comparator answers -1 both ways for equal numbers, so the
      language itself leaves the order to the engine. */
  lemma ViewOrderedByNumber(b: Bins, now: int)
    requires KeysMatch(b)
    requires forall p :: p in Kept(b, NameNotLoc) ==> BinNumber(p).Some?
    ensures var infos := View(b, now);
      && (forall i :: 0 <= i < |infos| ==> ParsedNumber(infos[i].number).Some?)
      && forall i, j :: 0 <= i < j < |infos| ==>
           ParsedNumber(infos[i].number).value <= ParsedNumber(infos[j].number).value
  {
    NumberLessIsStrictOrder();
    var rows := Ordered(b);
    assert rows == SortByKey(Kept(b, NameNotLoc), BinNumber, NumberLess);
    ViewRecords(b, now);
    var infos := View(b, now);
    forall i | 0 <= i < |infos| ensures ParsedNumber(infos[i].number) == BinNumber(rows[i]) && BinNumber(rows[i]).Some? {
      assert rows[i] in rows;
    }
    forall i, j | 0 <= i < j < |infos|
      ensures ParsedNumber(infos[i].number).value <= ParsedNumber(infos[j].number).value
    {
      assert !NumberLess(BinNumber(rows[j]), BinNumber(rows[i]));
    }
  }

  /** Two journeys of one line and direction, both in the window, share a
      bin in the order they were fetched. */
  lemma TwoInOneBin(d1: Departure, d2: Departure, rt: Runtime, now: int)
    requires Accepts(rt, now, d1) && Accepts(rt, now, d2)
    requires BinKey(d1) == BinKey(d2) && d1.journeyId != d2.journeyId
    ensures var b := PlaceAll(NoBins, [d1, d2], rt, now);
      BinKey(d1) in b.entries && b.entries[BinKey(d1)] == [d1, d2]
  {
    var key := BinKey(d1);
    assert [d1][..0] == [];
    assert PlaceAll(NoBins, [], rt, now) == NoBins;
    var one := PlaceAll(NoBins, [d1], rt, now);
    assert one == Place(NoBins, d1, rt, now);
    assert one.entries[key] == [d1];
    assert !HasJourney([d1], d2.journeyId);
    assert [d1, d2][..1] == [d1];
    assert PlaceAll(NoBins, [d1, d2], rt, now) == Place(one, d2, rt, now);
  }

  /** Journey j1 of line 16 at 00:10 and journey j2 at 00:05. */
  const Later: Departure := DepartureRecord("Buss 16", "16", "BUS", "00:10", "2024-01-01", "j1", "Centrum", None, "#ffffff", "#00abe5")
  const Sooner: Departure := DepartureRecord("Buss 16", "16", "BUS", "00:05", "2024-01-01", "j2", "Centrum", None, "#ffffff", "#00abe5")

  /** Fetched in the order Later, Sooner at midnight, the two land in one
      bin in that order, and its record shows 10 as the next countdown and
      5 as the one after. */
  lemma CountdownsCanDecrease()
    ensures var b := PlaceAll(NoBins, [Later, Sooner], JavaScript, 0);
      && BinKey(Later) in b.entries && b.entries[BinKey(Later)] == [Later, Sooner]
      && InsertionCountdowns([Later, Sooner], 0) == Countdowns(10, Some(5))
  {
    assert ClockMinutes("00:10") == Some(10);
    assert ClockMinutes("00:05") == Some(5);
    assert Minutes(JavaScript, Later, 0) == 10;
    assert Minutes(JavaScript, Sooner, 0) == 5;
    TwoInOneBin(Later, Sooner, JavaScript, 0);
  }
}
