/** The C# variant: GetStation polls the board with a cursor that follows
    the last departure returned, and GetVehicleInfos turns the bins into
    display records ordered by line number. */
module CsApi {
  import opened Departures
  import opened TimeMath
  import opened Text
  import opened Sorting
  import opened Binning
  import opened Polling
  import opened Display

  /** The request GetVehicleInfos makes: today's date and the current
      "HH:mm" as the first cursor, the cursor followed, C# arithmetic. */
  function CsRequest(source: Source, stationId: string, today: string, now: int): (r: Request)
    requires 0 <= now < 86400
    ensures r.followCursor && r.rt == CSharp
    ensures ClockMinutes(r.start.time) == Some(now / 60)
  {
    FormatThenParse(now / 60);
    Request(source, stationId, Cursor(today, FormatClock(now / 60)), true, CSharp, now)
  }

  /** GetStation(stationId, DateTime): fetch, advance the cursor, place the
      batch, while some bin holds fewer than two departures and fewer than
      five attempts have been made. */
  method GetStation(source: Source, stationId: string, today: string, now: int)
    returns (departureBins: BinStore, queries: seq<Query>)
    requires 0 <= now < 86400
    ensures fresh(departureBins) && departureBins.Valid()
    ensures var r := CsRequest(source, stationId, today, now);
      && departureBins.Value() == After(r, Attempts(r)).bins
      && queries == After(r, Attempts(r)).queries
  {
    ghost var r := CsRequest(source, stationId, today, now);
    departureBins := new BinStore();
    queries := [];
    var attempts := 0;
    var lastDate := today;
    var lastTime := FormatClock(now / 60);
    var complete := departureBins.AllBinsHaveAtleastTwoItems();
    while !complete && attempts < MaxAttempts
      invariant 0 <= attempts <= MaxAttempts
      invariant departureBins.Valid()
      invariant After(r, attempts) == PollState(departureBins.Value(), Cursor(lastDate, lastTime), queries)
      invariant complete == AllComplete(departureBins.Value())
      invariant IncompleteBefore(r, attempts)
      decreases MaxAttempts - attempts
    {
      IncompleteBeforeNext(r, attempts);
      ghost var before := PollState(departureBins.Value(), Cursor(lastDate, lastTime), queries);
      var query := Query(stationId, lastDate, lastTime);
      var result := Batch(source(attempts, query));
      if |result| > 0 {
        lastDate := result[|result| - 1].date;
        lastTime := EffectiveTime(result[|result| - 1]);
      }
      departureBins.PlaceDeparturesInBins(result, CSharp, now);
      queries := queries + [query];
      StepIs(r, before, attempts, query, result);
      assert Cursor(lastDate, lastTime) == Advance(before.cursor, result);
      attempts := attempts + 1;
      complete := departureBins.AllBinsHaveAtleastTwoItems();
    }
    LoopStopsAt(r, attempts);
  }

  /** The C# filter: a bin is shown unless its first departure has type
      "LOC" (a walk). */
  predicate NotWalking(d: Departure)
  {
    d.vehicleType != "LOC"
  }

  /** Each shown bin labelled with the second token of its first
      departure's name (Name.Split(' ')[1]), or None when some name has no
      second token, where the C# code throws. */
  function Numbered(ps: seq<(string, seq<Departure>)>): (rows: Option<seq<(string, seq<Departure>)>>)
    requires forall p :: p in ps ==> |p.1| > 0
    ensures rows.None? <==> exists p :: p in ps && ' ' !in p.1[0].name
    ensures rows.Some? ==> |rows.value| == |ps|
    ensures rows.Some? ==> forall i :: 0 <= i < |ps| ==>
      rows.value[i].1 == ps[i].1 && Some(rows.value[i].0) == SecondToken(ps[i].1[0].name)
  {
    if ps == [] then Some([])
    else
      var first := SecondToken(ps[0].1[0].name);
      var rest := Numbered(ps[1..]);
      assert forall p :: p in ps <==> p == ps[0] || p in ps[1..];
      if first.None? || rest.None? then None
      else Some([(first.value, ps[0].1)] + rest.value)
  }

  function RowNumber(row: (string, seq<Departure>)): string
  {
    row.0
  }

  lemma OrdinalWeakOrder()
    ensures WeakOrder(OrdinalLess)
  {
    forall a ensures !OrdinalLess(a, a) {
      OrdinalIrreflexive(a);
    }
    forall a, b, c | OrdinalLess(a, b) && OrdinalLess(b, c) ensures OrdinalLess(a, c) {
      OrdinalTransitive(a, b, c);
    }
    forall a, b, c | OrdinalLess(a, c) ensures OrdinalLess(a, b) || OrdinalLess(b, c) {
      if !OrdinalLess(a, b) {
        if a == b {
        } else {
          OrdinalTotal(a, b);
          OrdinalTransitive(b, a, c);
        }
      }
    }
  }

  /** orderedResult: the shown bins ordered by their number token (ordinal
      order, equal tokens in dictionary order), or None where C# throws. */
  function Ordered(b: Bins): (rows: Option<seq<(string, seq<Departure>)>>)
    requires KeysMatch(b)
  {
    match Numbered(Kept(b, NotWalking))
    case None => None
    case Some(rows) =>
      OrdinalWeakOrder();
      Some(SortByKey(rows, RowNumber, OrdinalLess))
  }

  /** The record of one bin: its number, the destination cut before any
      " via ", the colours swapped with the accent fallback, and the sorted
      countdowns. */
  function Record(row: (string, seq<Departure>), now: int): (info: VehicleInfo)
    requires |row.1| > 0
    ensures info.number == Some(row.0)
    ensures info.destination == StripVia(row.1[0].direction)
    ensures info.backgroundColor == row.1[0].fgColor
    ensures info.foregroundColor == BackgroundOrBlack(row.1[0].bgColor)
    ensures info.countdowns == SortedCountdowns(CSharp, row.1, now)
  {
    var value := row.1[0];
    VehicleInfo(Some(row.0), StripVia(value.direction), BackgroundOrBlack(value.bgColor), value.fgColor,
      SortedCountdowns(CSharp, row.1, now))
  }

  /** What GetVehicleInfos returns for the bins: a record per ordered row,
      or None when the code throws. */
  function View(b: Bins, now: int): (infos: Option<seq<VehicleInfo>>)
    requires KeysMatch(b)
  {
    match Ordered(b)
    case None => None
    case Some(rows) =>
      OrderedRowsNonEmpty(b);
      Some(seq(|rows|, i requires 0 <= i < |rows| => Record(rows[i], now)))
  }

  lemma OrderedRowsNonEmpty(b: Bins)
    requires KeysMatch(b)
    ensures Ordered(b).Some? ==> forall row :: row in Ordered(b).value ==> |row.1| > 0
  {
    var kept := Kept(b, NotWalking);
    var numbered := Numbered(kept);
    if numbered.Some? {
      OrdinalWeakOrder();
      var rows := numbered.value;
      forall row | row in SortByKey(rows, RowNumber, OrdinalLess) ensures |row.1| > 0 {
        assert row in multiset(rows);
        var i :| 0 <= i < |rows| && rows[i] == row;
        assert kept[i] in kept;
      }
    }
  }

  /** The records of the ordered rows, appended one by one. */
  method AppendRecords(rows: seq<(string, seq<Departure>)>, now: int) returns (infos: seq<VehicleInfo>)
    requires forall i :: 0 <= i < |rows| ==> |rows[i].1| > 0
    ensures infos == seq(|rows|, i requires 0 <= i < |rows| => Record(rows[i], now))
  {
    infos := [];
    for i := 0 to |rows|
      invariant |infos| == i
      invariant forall k :: 0 <= k < i ==> infos[k] == Record(rows[k], now)
    {
      if |rows[i].1| > 0 {
        infos := infos + [Record(rows[i], now)];
      }
    }
  }

  /** GetVehicleInfos: poll, then one record per ordered bin. */
  method GetVehicleInfos(source: Source, stationId: string, today: string, now: int)
    returns (vehicleInfos: Option<seq<VehicleInfo>>, queries: seq<Query>)
    requires 0 <= now < 86400
    ensures var r := CsRequest(source, stationId, today, now);
      && queries == After(r, Attempts(r)).queries
      && KeysMatch(After(r, Attempts(r)).bins)
      && vehicleInfos == View(After(r, Attempts(r)).bins, now)
  {
    var result;
    result, queries := GetStation(source, stationId, today, now);
    var b := result.Value();
    var orderedResult := Ordered(b);
    if orderedResult.None? {
      return None, queries;
    }
    OrderedRowsNonEmpty(b);
    var infos := AppendRecords(orderedResult.value, now);
    vehicleInfos := Some(infos);
  }

  /** Membership in the rows of bins labelled by Numbered. */
  lemma {:induction false} NumberedMembers(ps: seq<(string, seq<Departure>)>)
    requires forall p :: p in ps ==> |p.1| > 0
    requires Numbered(ps).Some?
    ensures forall row :: row in Numbered(ps).value <==>
      exists p :: p in ps && row.1 == p.1 && Some(row.0) == SecondToken(p.1[0].name)
  {
    var rows := Numbered(ps).value;
    forall row ensures row in rows <==> exists p :: p in ps && row.1 == p.1 && Some(row.0) == SecondToken(p.1[0].name) {
      if row in rows {
        var i :| 0 <= i < |rows| && rows[i] == row;
        assert ps[i] in ps;
      }
      if p :| p in ps && row.1 == p.1 && Some(row.0) == SecondToken(p.1[0].name) {
        var i :| 0 <= i < |ps| && ps[i] == p;
        assert rows[i] == row;
      }
    }
  }

  /** The records of the view are those of the ordered rows, in order. */
  lemma ViewRecords(b: Bins, now: int)
    requires KeysMatch(b) && Ordered(b).Some?
    ensures forall row :: row in Ordered(b).value ==> |row.1| > 0
    ensures View(b, now).Some? && |View(b, now).value| == |Ordered(b).value|
    ensures forall i :: 0 <= i < |Ordered(b).value| ==> View(b, now).value[i] == Record(Ordered(b).value[i], now)
  {
    OrderedRowsNonEmpty(b);
  }

  /** GetVehicleInfos throws exactly when a shown bin's first name has no
      second token. */
  lemma ViewFailsIff(b: Bins, now: int)
    requires KeysMatch(b)
    ensures View(b, now).None? <==> exists p :: p in Kept(b, NotWalking) && ' ' !in p.1[0].name
  {
  }

  /** The ordered rows are a permutation of the numbered shown bins. */
  lemma OrderedIsNumbered(b: Bins)
    requires KeysMatch(b) && Ordered(b).Some?
    ensures Numbered(Kept(b, NotWalking)).Some?
    ensures multiset(Ordered(b).value) == multiset(Numbered(Kept(b, NotWalking)).value)
  {
    OrdinalWeakOrder();
    assert Ordered(b).value == SortByKey(Numbered(Kept(b, NotWalking)).value, RowNumber, OrdinalLess);
  }

  /** Otherwise it emits one record per shown bin (a bin of the store
      whose first departure is not of type "LOC"), each built from one of
      those bins ... */
  lemma ViewRecordsFromKept(b: Bins, now: int)
    requires KeysMatch(b) && View(b, now).Some?
    ensures var kept, infos := Kept(b, NotWalking), View(b, now).value;
      && |infos| == |kept|
      && forall i :: 0 <= i < |infos| ==> exists p :: p in kept && infos[i] == Record((SecondToken(p.1[0].name).value, p.1), now)
  {
    var kept := Kept(b, NotWalking);
    var sorted := Ordered(b).value;
    OrderedIsNumbered(b);
    ViewRecords(b, now);
    var infos := View(b, now).value;
    forall i | 0 <= i < |infos|
      ensures exists p :: p in kept && infos[i] == Record((SecondToken(p.1[0].name).value, p.1), now)
    {
      OrderedRowIsNumberedBin(b, sorted[i]);
      var p :| p in kept && sorted[i].1 == p.1 && Some(sorted[i].0) == SecondToken(p.1[0].name);
      assert infos[i] == Record(sorted[i], now);
    }
  }

  /** Every ordered row is a shown bin labelled with its number token. */
  lemma OrderedRowIsNumberedBin(b: Bins, row: (string, seq<Departure>))
    requires KeysMatch(b) && Ordered(b).Some? && row in Ordered(b).value
    ensures exists p :: p in Kept(b, NotWalking) && row.1 == p.1 && Some(row.0) == SecondToken(p.1[0].name)
  {
    OrderedIsNumbered(b);
    assert row in multiset(Numbered(Kept(b, NotWalking)).value);
    NumberedMembers(Kept(b, NotWalking));
  }

  /** ... and every shown bin has its record. */
  lemma KeptBinsHaveRecords(b: Bins, now: int)
    requires KeysMatch(b) && View(b, now).Some?
    ensures var kept, infos := Kept(b, NotWalking), View(b, now).value;
      forall p :: p in kept ==> Record((SecondToken(p.1[0].name).value, p.1), now) in infos
  {
    var kept := Kept(b, NotWalking);
    var rows := Numbered(kept).value;
    var sorted := Ordered(b).value;
    OrderedIsNumbered(b);
    ViewRecords(b, now);
    NumberedMembers(kept);
    var infos := View(b, now).value;
    forall p | p in kept
      ensures Record((SecondToken(p.1[0].name).value, p.1), now) in infos
    {
      var row := (SecondToken(p.1[0].name).value, p.1);
      assert row in rows;
      assert row in multiset(sorted);
      var i :| 0 <= i < |sorted| && sorted[i] == row;
      assert infos[i] == Record(row, now);
    }
  }

  /** The records come in ordinal order of their numbers. */
  lemma ViewOrderedByNumber(b: Bins, now: int)
    requires KeysMatch(b) && View(b, now).Some?
    ensures var infos := View(b, now).value;
      forall i, j :: 0 <= i < j < |infos| ==> !OrdinalLess(infos[j].number.value, infos[i].number.value)
  {
    OrdinalWeakOrder();
    var rows := Numbered(Kept(b, NotWalking)).value;
    var sorted := Ordered(b).value;
    assert sorted == SortByKey(rows, RowNumber, OrdinalLess);
    ViewRecords(b, now);
    var infos := View(b, now).value;
    forall i, j | 0 <= i < j < |infos| ensures !OrdinalLess(infos[j].number.value, infos[i].number.value) {
      assert infos[i].number.value == RowNumber(sorted[i]);
      assert infos[j].number.value == RowNumber(sorted[j]);
    }
  }

  /** Bins with the same number keep their dictionary order (OrderBy is a
      stable sort). */
  lemma TiesKeepDictionaryOrder(b: Bins, number: string)
    requires KeysMatch(b)
    requires Numbered(Kept(b, NotWalking)).Some?
    ensures Equivalents(Ordered(b).value, number, RowNumber, OrdinalLess)
         == Equivalents(Numbered(Kept(b, NotWalking)).value, number, RowNumber, OrdinalLess)
  {
    OrdinalWeakOrder();
    SortByKeyStable(Numbered(Kept(b, NotWalking)).value, number, RowNumber, OrdinalLess);
  }
}
