/** The Python variant: _get_station polls the board (always for the first
    date and time), and _process_departures turns the bins into display
    records ordered by the number in the line's short name. */
module PyApi {
  import opened Departures
  import opened TimeMath
  import opened Text
  import opened Sorting
  import opened Binning
  import opened Polling
  import opened Display

  /** The request _get_station makes: the given date and time as the first
      cursor, every fetch asking for them, Python arithmetic. */
  function PyRequest(source: Source, stationId: string, date: string, time: string, now: int): (r: Request)
    ensures !r.followCursor && r.rt == Python
    ensures r.start == Cursor(date, time)
  {
    Request(source, stationId, Cursor(date, time), false, Python, now)
  }

  /** The number a short name stands for when sorting: its decimal digits
      read as one integer (int(re.sub("[^0-9]", "", sname))). */
  function LineValue(d: Departure): nat
  {
    DecimalValue(Digits(d.shortName))
  }

  function BinValue(p: (string, seq<Departure>)): int
  {
    if |p.1| > 0 then LineValue(p.1[0]) else 0
  }

  /** sorted_result: the shown bins ordered by LineValue, or None where
      int('') raises: there are two bins or more to compare and one of
      their short names has no digit. */
  function Ordered(b: Bins): (rows: Option<seq<(string, seq<Departure>)>>)
    requires KeysMatch(b)
  {
    var kept := Kept(b, NameNotLoc);
    if |kept| >= 2 && exists p :: p in kept && Digits(p.1[0].shortName) == [] then None
    else
      IntLessIsWeakOrder();
      Some(SortByKey(kept, BinValue, IntLess))
  }

  /** The record of one bin: sname as the number, the destination cut
      before any " via ", fgColor as it is, bgColor with the accent
      fallback, and the sorted countdowns. */
  function Record(p: (string, seq<Departure>), now: int): (info: VehicleInfo)
    requires |p.1| > 0
    ensures info.number == Some(p.1[0].shortName)
    ensures info.destination == StripVia(p.1[0].direction)
    ensures info.foregroundColor == p.1[0].fgColor
    ensures info.backgroundColor == BackgroundOrBlack(p.1[0].bgColor)
    ensures info.countdowns == SortedCountdowns(Python, p.1, now)
  {
    var value := p.1[0];
    VehicleInfo(Some(value.shortName), StripVia(value.direction), value.fgColor, BackgroundOrBlack(value.bgColor),
      SortedCountdowns(Python, p.1, now))
  }

  lemma OrderedRowsNonEmpty(b: Bins)
    requires KeysMatch(b)
    ensures Ordered(b).Some? ==> forall p :: p in Ordered(b).value ==> |p.1| > 0
  {
    if Ordered(b).Some? {
      IntLessIsWeakOrder();
      forall p | p in Ordered(b).value ensures |p.1| > 0 {
        assert p in multiset(Kept(b, NameNotLoc));
      }
    }
  }

  /** What _process_departures returns: a record per ordered bin, or None
      where it raises. */
  function View(b: Bins, now: int): (infos: Option<seq<VehicleInfo>>)
    requires KeysMatch(b)
  {
    match Ordered(b)
    case None => None
    case Some(rows) =>
      OrderedRowsNonEmpty(b);
      Some(seq(|rows|, i requires 0 <= i < |rows| => Record(rows[i], now)))
  }

  /** The records of the ordered bins, appended one by one. */
  method AppendRecords(rows: seq<(string, seq<Departure>)>, now: int) returns (infos: seq<VehicleInfo>)
    requires forall i :: 0 <= i < |rows| ==> |rows[i].1| > 0
    ensures infos == seq(|rows|, i requires 0 <= i < |rows| => Record(rows[i], now))
  {
    infos := [];
    for i := 0 to |rows|
      invariant |infos| == i
      invariant forall k :: 0 <= k < i ==> infos[k] == Record(rows[k], now)
    {
      if |rows[i].1| > 0 {
        infos := infos + [Record(rows[i], now)];
      }
    }
  }

  /** _process_departures: filter, order, then one record per bin. */
  method ProcessDepartures(departures: BinStore, now: int) returns (vehicleInfos: Option<seq<VehicleInfo>>)
    requires departures.Valid()
    ensures vehicleInfos == View(departures.Value(), now)
  {
    var b := departures.Value();
    var sortedResult := Ordered(b);
    if sortedResult.None? {
      return None;
    }
    OrderedRowsNonEmpty(b);
    var infos := AppendRecords(sortedResult.value, now);
    vehicleInfos := Some(infos);
  }

  /** _get_station: fetch, record the last departure's date and time,
      place the batch, while some bin holds fewer than two departures and
      fewer than five attempts have been made; then project. */
  method GetStation(source: Source, stationId: string, date: string, time: string, now: int)
    returns (vehicleInfos: Option<seq<VehicleInfo>>, queries: seq<Query>)
    ensures var r := PyRequest(source, stationId, date, time, now);
      && queries == After(r, Attempts(r)).queries
      && KeysMatch(After(r, Attempts(r)).bins)
      && vehicleInfos == View(After(r, Attempts(r)).bins, now)
  {
    ghost var r := PyRequest(source, stationId, date, time, now);
    var departureBins := new BinStore();
    queries := [];
    var attempts := 0;
    var lastDate := date;
    var lastTime := time;
    var complete := departureBins.AllBinsHaveAtleastTwoItems();
    while !complete && attempts < MaxAttempts
      invariant 0 <= attempts <= MaxAttempts
      invariant departureBins.Valid()
      invariant After(r, attempts) == PollState(departureBins.Value(), Cursor(lastDate, lastTime), queries)
      invariant complete == AllComplete(departureBins.Value())
      invariant IncompleteBefore(r, attempts)
      decreases MaxAttempts - attempts
    {
      IncompleteBeforeNext(r, attempts);
      ghost var before := PollState(departureBins.Value(), Cursor(lastDate, lastTime), queries);
      var query := Query(stationId, date, time);
      var result := Batch(source(attempts, query));
      if |result| > 0 {
        lastDate := result[|result| - 1].date;
        lastTime := EffectiveTime(result[|result| - 1]);
      }
      departureBins.PlaceDeparturesInBins(result, Python, now);
      queries := queries + [query];
      StepIs(r, before, attempts, query, result);
      assert Cursor(lastDate, lastTime) == Advance(before.cursor, result);
      attempts := attempts + 1;
      complete := departureBins.AllBinsHaveAtleastTwoItems();
    }
    LoopStopsAt(r, attempts);
    vehicleInfos := ProcessDepartures(departureBins, now);
  }

  /** get_departures: the current date and "HH:MM" as the first cursor. */
  method GetDepartures(source: Source, stationId: string, today: string, now: int)
    returns (vehicleInfos: Option<seq<VehicleInfo>>, queries: seq<Query>)
    requires 0 <= now < 86400
    ensures var r := PyRequest(source, stationId, today, FormatClock(now / 60), now);
      && queries == After(r, Attempts(r)).queries
      && KeysMatch(After(r, Attempts(r)).bins)
      && vehicleInfos == View(After(r, Attempts(r)).bins, now)
  {
    vehicleInfos, queries := GetStation(source, stationId, today, FormatClock(now / 60), now);
  }

  /** Every fetch asks for the first date and time: the cursor that
      the loop records is never sent. */
  lemma QueriesNeverAdvance(source: Source, stationId: string, date: string, time: string, now: int, n: nat)
    ensures var r := PyRequest(source, stationId, date, time, now);
      forall k :: 0 <= k < n ==> After(r, n).queries[k] == Query(stationId, date, time)
  {
    var r := PyRequest(source, stationId, date, time, now);
    forall k | 0 <= k < n ensures After(r, n).queries[k] == Query(stationId, date, time) {
      QueryRule(r, n, k);
    }
  }

  /** The records of the view are those of the ordered bins, in order. */
  lemma ViewRecords(b: Bins, now: int)
    requires KeysMatch(b) && Ordered(b).Some?
    ensures forall p :: p in Ordered(b).value ==> |p.1| > 0
    ensures View(b, now).Some? && |View(b, now).value| == |Ordered(b).value|
    ensures forall i :: 0 <= i < |Ordered(b).value| ==> View(b, now).value[i] == Record(Ordered(b).value[i], now)
  {
    OrderedRowsNonEmpty(b);
  }

  /** _process_departures raises exactly when two bins or more are shown
      and one of their short names holds no digit. */
  lemma ViewFailsIff(b: Bins, now: int)
    requires KeysMatch(b)
    ensures var kept := Kept(b, NameNotLoc);
      View(b, now).None? <==> |kept| >= 2 && exists p :: p in kept && Digits(p.1[0].shortName) == []
  {
  }

  /** Otherwise it emits exactly one record per shown bin (a bin whose
      first departure's name is not "LOC"), each built from its own bin. */
  lemma ViewOneRecordPerBin(b: Bins, now: int)
    requires KeysMatch(b) && View(b, now).Some?
    ensures var kept, infos := Kept(b, NameNotLoc), View(b, now).value;
      && |infos| == |kept|
      && (forall i :: 0 <= i < |infos| ==> exists p :: p in kept && infos[i] == Record(p, now))
      && (forall p :: p in kept ==> Record(p, now) in infos)
  {
    ViewRecordsAreOfKept(b, now);
    KeptBinsHaveRecords(b, now);
  }

  /** The ordered bins are a permutation of the shown ones. */
  lemma OrderedIsKept(b: Bins)
    requires KeysMatch(b) && Ordered(b).Some?
    ensures multiset(Ordered(b).value) == multiset(Kept(b, NameNotLoc))
  {
    IntLessIsWeakOrder();
    assert Ordered(b).value == SortByKey(Kept(b, NameNotLoc), BinValue, IntLess);
  }

  lemma ViewRecordsAreOfKept(b: Bins, now: int)
    requires KeysMatch(b) && View(b, now).Some?
    ensures var kept, infos := Kept(b, NameNotLoc), View(b, now).value;
      && |infos| == |kept|
      && forall i :: 0 <= i < |infos| ==> exists p :: p in kept && infos[i] == Record(p, now)
  {
    var kept := Kept(b, NameNotLoc);
    var sorted := Ordered(b).value;
    OrderedIsKept(b);
    assert |sorted| == |multiset(kept)|;
    ViewRecords(b, now);
    var infos := View(b, now).value;
    forall i | 0 <= i < |infos| ensures exists p :: p in kept && infos[i] == Record(p, now) {
      assert sorted[i] in multiset(kept);
    }
  }

  lemma KeptBinsHaveRecords(b: Bins, now: int)
    requires KeysMatch(b) && View(b, now).Some?
    ensures forall p :: p in Kept(b, NameNotLoc) ==> Record(p, now) in View(b, now).value
  {
    var sorted := Ordered(b).value;
    OrderedIsKept(b);
    ViewRecords(b, now);
    var infos := View(b, now).value;
    forall p | p in Kept(b, NameNotLoc) ensures Record(p, now) in infos {
      assert p in multiset(sorted);
      var i :| 0 <= i < |sorted| && sorted[i] == p;
      assert infos[i] == Record(p, now);
    }
  }

  /** The records come in non-decreasing order of the number in their short
      names. */
  lemma ViewOrderedByNumber(b: Bins, now: int)
    requires KeysMatch(b) && View(b, now).Some?
    ensures var infos := View(b, now).value;
      forall i, j :: 0 <= i < j < |infos| ==>
        DecimalValue(Digits(infos[i].number.value)) <= DecimalValue(Digits(infos[j].number.value))
  {
    IntLessIsWeakOrder();
    var sorted := Ordered(b).value;
    assert sorted == SortByKey(Kept(b, NameNotLoc), BinValue, IntLess);
    ViewRecords(b, now);
    var infos := View(b, now).value;
    forall i, j | 0 <= i < j < |infos|
      ensures DecimalValue(Digits(infos[i].number.value)) <= DecimalValue(Digits(infos[j].number.value))
    {
      assert !IntLess(BinValue(sorted[j]), BinValue(sorted[i]));
      assert infos[i].number.value == sorted[i].1[0].shortName;
      assert infos[j].number.value == sorted[j].1[0].shortName;
    }
  }
}
