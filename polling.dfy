/** The polling loop shared by the C# and Python variants, as a function of
    the number of fetches made: fetch a board, advance the (date, time)
    cursor to the last departure returned, place the batch in the bins,
    and stop once every bin holds two departures or after five attempts. */
module Polling {
  import opened Departures
  import opened TimeMath
  import opened Binning
  import opened Text

  /** The attempt ceiling of the C# and Python loops. */
  const MaxAttempts := 5

  /** The (date, time of day) a board is asked for. */
  datatype Cursor = Cursor(date: string, time: string)

  /** The cursor after a batch: the date and effective time of its last
      departure, or the cursor as it was when the batch is empty. */
  function Advance(c: Cursor, batch: seq<Departure>): (r: Cursor)
    ensures batch == [] ==> r == c
    ensures batch != [] ==> r.date == batch[|batch| - 1].date
    ensures batch != [] ==> r.time == EffectiveTime(batch[|batch| - 1])
  {
    if batch == [] then c
    else
      var last := batch[|batch| - 1];
      Cursor(last.date, EffectiveTime(last))
  }

  /** One request: the board, the stop, the initial cursor, whether later
      fetches ask for the advanced cursor (C#) or always for the initial
      one (Python), whose clock arithmetic, and the fixed "now". */
  datatype Request = Request(
    source: Source,
    stationId: string,
    start: Cursor,
    followCursor: bool,
    rt: Runtime,
    now: int)

  /** What the loop holds between fetches: the bins, the cursor
      (lastDate, lastTime) and the queries sent so far. */
  datatype PollState = PollState(bins: Bins, cursor: Cursor, queries: seq<Query>)

  /** The cursor fetch number n asks for. */
  function QueryCursor(r: Request, st: PollState): Cursor
  {
    if r.followCursor then st.cursor else r.start
  }

  /** Fetch number n (counting from 0) and what it does to the state; a
      failed fetch is an empty batch. */
  function Step(r: Request, st: PollState, n: nat): (next: PollState)
    ensures |next.queries| == |st.queries| + 1
  {
    var at := QueryCursor(r, st);
    var q := Query(r.stationId, at.date, at.time);
    var batch := Batch(r.source(n, q));
    PollState(PlaceAll(st.bins, batch, r.rt, r.now), Advance(st.cursor, batch), st.queries + [q])
  }

  /** Fetch n sends the query for its cursor and places the batch the
      board answers with. */
  lemma StepIs(r: Request, st: PollState, n: nat, q: Query, batch: seq<Departure>)
    requires q == Query(r.stationId, QueryCursor(r, st).date, QueryCursor(r, st).time)
    requires batch == Batch(r.source(n, q))
    ensures Step(r, st, n) == PollState(PlaceAll(st.bins, batch, r.rt, r.now), Advance(st.cursor, batch), st.queries + [q])
  {
  }

  /** The state after n fetches. */
  function After(r: Request, n: nat): (st: PollState)
    ensures |st.queries| == n
  {
    if n == 0 then PollState(NoBins, r.start, []) else Step(r, After(r, n - 1), n - 1)
  }

  /** The first number of fetches from k on after which the loop stops. */
  ghost function StopAt(r: Request, k: nat): nat
    decreases MaxAttempts - k
  {
    if k >= MaxAttempts || AllComplete(After(r, k).bins) then k else StopAt(r, k + 1)
  }

  /** How many fetches the loop makes. */
  ghost function Attempts(r: Request): nat
  {
    StopAt(r, 0)
  }

  /** None of the first n states has every bin complete. */
  ghost predicate IncompleteBefore(r: Request, n: nat)
  {
    forall j :: 0 <= j < n ==> !AllComplete(After(r, j).bins)
  }

  lemma IncompleteBeforeNext(r: Request, n: nat)
    requires IncompleteBefore(r, n) && !AllComplete(After(r, n).bins)
    ensures IncompleteBefore(r, n + 1)
  {
  }

  /** The loop that has gone on for n fetches, and stops there, makes n
      fetches. */
  lemma LoopStopsAt(r: Request, n: nat)
    requires n <= MaxAttempts && IncompleteBefore(r, n)
    requires n == MaxAttempts || AllComplete(After(r, n).bins)
    ensures Attempts(r) == n
  {
    StopAtIs(r, 0, n);
  }

  lemma {:induction false} StopAtIs(r: Request, k: nat, n: nat)
    requires k <= n <= MaxAttempts
    requires forall j :: k <= j < n ==> !AllComplete(After(r, j).bins)
    requires n == MaxAttempts || AllComplete(After(r, n).bins)
    ensures StopAt(r, k) == n
    decreases n - k
  {
    if k < n {
      StopAtIs(r, k + 1, n);
    }
  }

  lemma {:induction false} StopAtBounds(r: Request, k: nat)
    requires k <= MaxAttempts
    ensures k <= StopAt(r, k) <= MaxAttempts
    ensures forall j :: k <= j < StopAt(r, k) ==> !AllComplete(After(r, j).bins)
    ensures StopAt(r, k) < MaxAttempts ==> AllComplete(After(r, StopAt(r, k)).bins)
    decreases MaxAttempts - k
  {
    if k < MaxAttempts && !AllComplete(After(r, k).bins) {
      StopAtBounds(r, k + 1);
    }
  }

  /** The loop makes at least one and at most five fetches; it goes on
      while some bin holds fewer than two departures and stops at the
      first fetch after which every bin holds two or more. */
  lemma AttemptsBounds(r: Request)
    ensures 1 <= Attempts(r) <= MaxAttempts
    ensures forall k :: 0 <= k < Attempts(r) ==> !AllComplete(After(r, k).bins)
    ensures Attempts(r) < MaxAttempts ==> AllComplete(After(r, Attempts(r)).bins)
  {
    StopAtBounds(r, 0);
    assert !AllComplete(After(r, 0).bins);
  }

  /** Across fetches the store keeps its invariant (every departure in the
      window, filed under its key, no bin empty, no journey twice in a bin)
      and only grows. */
  lemma {:induction false} AfterInvariant(r: Request, n: nat)
    ensures StoreInvariant(After(r, n).bins, r.rt, r.now)
    ensures forall k :: 0 <= k <= n ==> Extends(After(r, k).bins, After(r, n).bins)
  {
    if n > 0 {
      var prev := After(r, n - 1);
      AfterInvariant(r, n - 1);
      var at := QueryCursor(r, prev);
      var batch := Batch(r.source(n - 1, Query(r.stationId, at.date, at.time)));
      PlaceAllPreserves(prev.bins, batch, r.rt, r.now);
      forall k | 0 <= k <= n
        ensures Extends(After(r, k).bins, After(r, n).bins)
      {
        if k < n {
          ExtendsTransitive(After(r, k).bins, prev.bins, After(r, n).bins);
        }
      }
    }
  }

  /** A fetch that fails still counts: the bins and the cursor stay as they
      were and one more query has been sent. */
  lemma FailedFetchConsumesAttempt(r: Request, n: nat)
    requires var at := QueryCursor(r, After(r, n));
      r.source(n, Query(r.stationId, at.date, at.time)).None?
    ensures After(r, n + 1).bins == After(r, n).bins
    ensures After(r, n + 1).cursor == After(r, n).cursor
    ensures |After(r, n + 1).queries| == |After(r, n).queries| + 1
  {
  }

  /** A later state extends the query log of an earlier one. */
  lemma {:induction false} QueriesExtend(r: Request, k: nat, n: nat)
    requires k <= n
    ensures After(r, k).queries == After(r, n).queries[..k]
    decreases n - k
  {
    if k < n {
      QueriesExtend(r, k, n - 1);
      assert After(r, n).queries[..n - 1] == After(r, n - 1).queries;
    }
  }

  /** Fetch number k (counting from 0) asks for the cursor reached after k
      fetches when the cursor is followed, and for the initial cursor
      otherwise. */
  lemma QueryRule(r: Request, n: nat, k: nat)
    requires k < n
    ensures var at := QueryCursor(r, After(r, k));
      After(r, n).queries[k] == Query(r.stationId, at.date, at.time)
  {
    QueriesExtend(r, k + 1, n);
    assert After(r, n).queries[k] == After(r, k + 1).queries[k];
  }

  /** A fetch that returns no departures leaves the cursor where it was. */
  lemma CursorAfterEmpty(r: Request, n: nat)
    requires var at := QueryCursor(r, After(r, n));
      Batch(r.source(n, Query(r.stationId, at.date, at.time))) == []
    ensures After(r, n + 1).cursor == After(r, n).cursor
  {
  }

  /** Chronological order of cursors, for dates written yyyy-MM-dd and
      times written HH:MM (ordinal order of such strings is time order). */
  predicate CursorLeq(a: Cursor, b: Cursor)
  {
    OrdinalLess(a.date, b.date) || (a.date == b.date && !OrdinalLess(b.time, a.time))
  }

  /** The board never answers with a departure earlier than the cursor it
      was asked for. */
  ghost predicate AnswersFromCursor(source: Source)
  {
    forall k: nat, q: Query :: source(k, q).Some? ==>
      forall i :: 0 <= i < |source(k, q).value| ==>
        CursorLeq(Cursor(q.date, q.time), Cursor(source(k, q).value[i].date, EffectiveTime(source(k, q).value[i])))
  }

  lemma CursorLeqTransitive(a: Cursor, b: Cursor, c: Cursor)
    requires CursorLeq(a, b) && CursorLeq(b, c)
    ensures CursorLeq(a, c)
  {
    if OrdinalLess(a.date, b.date) && OrdinalLess(b.date, c.date) {
      OrdinalTransitive(a.date, b.date, c.date);
    } else if a.date == b.date && b.date == c.date {
      if OrdinalLess(c.time, a.time) {
        if c.time == b.time {
        } else {
          OrdinalTotal(b.time, c.time);
          OrdinalTransitive(b.time, c.time, a.time);
        }
      }
    }
  }

  lemma CursorLeqReflexive(a: Cursor)
    ensures CursorLeq(a, a)
  {
    OrdinalIrreflexive(a.time);
  }

  /** When later fetches ask for the advanced cursor and the board never
      answers with departures before the cursor asked for, the cursor never
      moves backwards. */
  lemma {:induction false} CursorMonotone(r: Request, k: nat, n: nat)
    requires r.followCursor && AnswersFromCursor(r.source)
    requires k <= n
    ensures CursorLeq(After(r, k).cursor, After(r, n).cursor)
    decreases n - k
  {
    if k == n {
      CursorLeqReflexive(After(r, k).cursor);
    } else {
      CursorMonotone(r, k, n - 1);
      var prev := After(r, n - 1);
      var q := Query(r.stationId, prev.cursor.date, prev.cursor.time);
      var answer := r.source(n - 1, q);
      if answer.Some? && answer.value != [] {
        var ds := answer.value;
        assert CursorLeq(Cursor(q.date, q.time), Cursor(ds[|ds| - 1].date, EffectiveTime(ds[|ds| - 1])));
        CursorLeqTransitive(After(r, k).cursor, prev.cursor, After(r, n).cursor);
      }
    }
  }
}
