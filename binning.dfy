/** The bin store: departures grouped by line name and direction, each
    group in arrival order and without two entries of the same journey,
    and only departures that leave within the coming hour. */
module Binning {
  import opened Departures
  import opened TimeMath

  /** The dictionary of bins: its keys in insertion order (the order the
      bins are enumerated in) and the list of departures under each key. */
  datatype Bins = Bins(keys: seq<string>, entries: map<string, seq<Departure>>)

  const NoBins := Bins([], map[])

  /** The key a departure is filed under: line name, a comma, direction. */
  function BinKey(d: Departure): string
  {
    d.name + "," + d.direction
  }

  /** The window filter: the departure has not left yet and leaves in less
      than 60 minutes, by the signed minute difference. */
  predicate Accepts(rt: Runtime, now: int, d: Departure)
  {
    InWindow(Minutes(rt, d, now))
  }

  predicate HasJourney(bin: seq<Departure>, journeyId: string)
  {
    exists e <- bin :: e.journeyId == journeyId
  }

  /** What PlaceDeparturesInBins does with one departure: ignore it outside
      the window; otherwise create its bin when missing and append it unless
      the bin already holds its journey. */
  function Place(b: Bins, d: Departure, rt: Runtime, now: int): Bins
  {
    if !Accepts(rt, now, d) then b
    else
      var key := BinKey(d);
      var created := if key in b.entries then b else Bins(b.keys + [key], b.entries[key := []]);
      if HasJourney(created.entries[key], d.journeyId) then created
      else Bins(created.keys, created.entries[key := created.entries[key] + [d]])
  }

  /** The departures of a batch placed one after the other. */
  function PlaceAll(b: Bins, ds: seq<Departure>, rt: Runtime, now: int): Bins
  {
    if ds == [] then b
    else Place(PlaceAll(b, ds[..|ds| - 1], rt, now), ds[|ds| - 1], rt, now)
  }

  ghost predicate Distinct(keys: seq<string>)
  {
    forall i, j :: 0 <= i < j < |keys| ==> keys[i] != keys[j]
  }

  /** The key order lists every key of the dictionary exactly once. */
  ghost predicate KeysMatch(b: Bins)
  {
    && (forall k :: k in b.entries <==> k in b.keys)
    && Distinct(b.keys)
  }

  ghost predicate NonEmptyBins(b: Bins)
  {
    forall k :: k in b.entries ==> |b.entries[k]| > 0
  }

  ghost predicate FiledUnderKey(b: Bins)
  {
    forall k, e :: k in b.entries && e in b.entries[k] ==> BinKey(e) == k
  }

  ghost predicate AllInWindow(b: Bins, rt: Runtime, now: int)
  {
    forall k, e :: k in b.entries && e in b.entries[k] ==> Accepts(rt, now, e)
  }

  ghost predicate UniqueJourneys(b: Bins)
  {
    forall k, i, j :: k in b.entries && 0 <= i < j < |b.entries[k]| ==>
      b.entries[k][i].journeyId != b.entries[k][j].journeyId
  }

  /** What the store guarantees at every point of a request. */
  ghost predicate StoreInvariant(b: Bins, rt: Runtime, now: int)
  {
    && KeysMatch(b)
    && NonEmptyBins(b)
    && FiledUnderKey(b)
    && AllInWindow(b, rt, now)
    && UniqueJourneys(b)
  }

  /** c grew out of b: b's keys come first in c in the same order, and each
      of b's bins is a prefix of the bin with that key in c. */
  ghost predicate Extends(b: Bins, c: Bins)
  {
    && b.keys <= c.keys
    && forall k :: k in b.entries ==> k in c.entries && b.entries[k] <= c.entries[k]
  }

  /** Every bin has at least two departures (and there is at least one
      bin). */
  ghost predicate AllComplete(b: Bins)
  {
    b.keys != [] && forall k :: k in b.entries ==> |b.entries[k]| >= 2
  }

  lemma ExtendsTransitive(a: Bins, b: Bins, c: Bins)
    requires Extends(a, b) && Extends(b, c)
    ensures Extends(a, c)
  {
  }

  /** Placing one departure files it under exactly its own key, as the last
      entry of that bin, when it is in the window and its journey is new
      to the bin; every other bin is left as it was. */
  lemma PlaceEffect(b: Bins, d: Departure, rt: Runtime, now: int)
    requires KeysMatch(b)
    ensures var r := Place(b, d, rt, now);
      var key := BinKey(d);
      var before := if key in b.entries then b.entries[key] else [];
      && (!Accepts(rt, now, d) ==> r == b)
      && (Accepts(rt, now, d) ==>
            && key in r.entries
            && r.entries[key] == (if HasJourney(before, d.journeyId) then before else before + [d])
            && r.keys == (if key in b.entries then b.keys else b.keys + [key]))
      && (forall k :: k != key ==> (k in r.entries <==> k in b.entries))
      && (forall k :: k != key && k in b.entries ==> r.entries[k] == b.entries[k])
  {
  }

  /** Placing one departure never puts a journey twice into a bin. */
  lemma PlaceUnique(b: Bins, d: Departure, rt: Runtime, now: int)
    requires KeysMatch(b) && UniqueJourneys(b)
    ensures UniqueJourneys(Place(b, d, rt, now))
  {
    var r := Place(b, d, rt, now);
    if Accepts(rt, now, d) {
      var key := BinKey(d);
      var before := if key in b.entries then b.entries[key] else [];
      PlaceEffect(b, d, rt, now);
      forall k, i, j | k in r.entries && 0 <= i < j < |r.entries[k]|
        ensures r.entries[k][i].journeyId != r.entries[k][j].journeyId
      {
        if k == key && r.entries[key] != before && j == |before| {
          assert r.entries[k][i] in before;
          assert r.entries[k][j] == d;
        }
      }
    }
  }

  /** Placing one departure keeps every entry in the window, filed under
      its own key, and no bin empty. */
  lemma PlaceFiled(b: Bins, d: Departure, rt: Runtime, now: int)
    requires StoreInvariant(b, rt, now)
    ensures var r := Place(b, d, rt, now);
      NonEmptyBins(r) && FiledUnderKey(r) && AllInWindow(r, rt, now)
  {
    if Accepts(rt, now, d) {
      var key := BinKey(d);
      var before := if key in b.entries then b.entries[key] else [];
      PlaceEffect(b, d, rt, now);
      assert forall e :: e in Place(b, d, rt, now).entries[key] ==> e in before || e == d;
    }
  }

  /** Placing one departure keeps the store invariant and only grows the
      store. */
  lemma PlacePreserves(b: Bins, d: Departure, rt: Runtime, now: int)
    requires StoreInvariant(b, rt, now)
    ensures StoreInvariant(Place(b, d, rt, now), rt, now)
    ensures Extends(b, Place(b, d, rt, now))
  {
    PlaceKeysMatch(b, d, rt, now);
    PlaceUnique(b, d, rt, now);
    PlaceFiled(b, d, rt, now);
    PlaceEffect(b, d, rt, now);
  }

  /** Placing a whole batch keeps the store invariant and only grows the
      store: bins are never removed or reordered and entries are only ever
      appended. */
  lemma {:induction false} PlaceAllPreserves(b: Bins, ds: seq<Departure>, rt: Runtime, now: int)
    requires StoreInvariant(b, rt, now)
    ensures StoreInvariant(PlaceAll(b, ds, rt, now), rt, now)
    ensures Extends(b, PlaceAll(b, ds, rt, now))
  {
    if ds != [] {
      var mid := PlaceAll(b, ds[..|ds| - 1], rt, now);
      PlaceAllPreserves(b, ds[..|ds| - 1], rt, now);
      PlacePreserves(mid, ds[|ds| - 1], rt, now);
      ExtendsTransitive(b, mid, PlaceAll(b, ds, rt, now));
    }
  }

  /** After a batch, every departure of it that the window accepts has its
      journey in the bin of its key. */
  lemma {:induction false} PlaceAllFilesAccepted(b: Bins, ds: seq<Departure>, rt: Runtime, now: int)
    requires StoreInvariant(b, rt, now)
    ensures var r := PlaceAll(b, ds, rt, now);
      forall d :: d in ds && Accepts(rt, now, d) ==>
        BinKey(d) in r.entries && HasJourney(r.entries[BinKey(d)], d.journeyId)
  {
    if ds != [] {
      var init := ds[..|ds| - 1];
      var last := ds[|ds| - 1];
      var mid := PlaceAll(b, init, rt, now);
      var r := PlaceAll(b, ds, rt, now);
      PlaceAllFilesAccepted(b, init, rt, now);
      PlaceAllPreserves(b, init, rt, now);
      PlacePreserves(mid, last, rt, now);
      PlaceEffect(mid, last, rt, now);
      forall d | d in ds && Accepts(rt, now, d)
        ensures BinKey(d) in r.entries && HasJourney(r.entries[BinKey(d)], d.journeyId)
      {
        if d != last {
          assert d in init by {
            var i :| 0 <= i < |ds| && ds[i] == d;
            assert i < |ds| - 1 && init[i] == d;
          }
          var e :| e in mid.entries[BinKey(d)] && e.journeyId == d.journeyId;
          assert mid.entries[BinKey(d)] <= r.entries[BinKey(d)];
          assert e in r.entries[BinKey(d)];
        }
      }
    }
  }

  /** Placing one departure keeps the key order in step with the
      dictionary. */
  lemma PlaceKeysMatch(b: Bins, d: Departure, rt: Runtime, now: int)
    requires KeysMatch(b)
    ensures KeysMatch(Place(b, d, rt, now))
  {
    PlaceEffect(b, d, rt, now);
    if Accepts(rt, now, d) && BinKey(d) !in b.entries {
      assert BinKey(d) !in b.keys;
    }
  }

  /** Placing one departure adds no entry but that departure. */
  lemma PlaceOrigin(b: Bins, d: Departure, rt: Runtime, now: int)
    requires KeysMatch(b)
    ensures var r := Place(b, d, rt, now);
      forall k, e :: k in r.entries && e in r.entries[k] ==>
        (k in b.entries && e in b.entries[k]) || e == d
  {
    PlaceEffect(b, d, rt, now);
  }

  /** A batch adds nothing but its own departures: every entry of the
      result was in the store before or is a departure of the batch. */
  lemma {:induction false} PlaceAllOnlyAddsBatch(b: Bins, ds: seq<Departure>, rt: Runtime, now: int)
    requires KeysMatch(b)
    ensures var r := PlaceAll(b, ds, rt, now);
      && KeysMatch(r)
      && forall k, e :: k in r.entries && e in r.entries[k] ==>
           (k in b.entries && e in b.entries[k]) || e in ds
  {
    if ds != [] {
      var init := ds[..|ds| - 1];
      var last := ds[|ds| - 1];
      var mid := PlaceAll(b, init, rt, now);
      var r := PlaceAll(b, ds, rt, now);
      PlaceAllOnlyAddsBatch(b, init, rt, now);
      PlaceKeysMatch(mid, last, rt, now);
      PlaceOrigin(mid, last, rt, now);
      assert forall e :: e in init ==> e in ds;
      forall k, e | k in r.entries && e in r.entries[k]
        ensures (k in b.entries && e in b.entries[k]) || e in ds
      {
        if e != last {
          assert k in mid.entries && e in mid.entries[k];
        }
      }
    }
  }

  /** The bins as (key, departures) pairs in enumeration order. */
  function Pairs(b: Bins): (ps: seq<(string, seq<Departure>)>)
    requires forall k :: k in b.keys ==> k in b.entries
    ensures |ps| == |b.keys|
    ensures forall i :: 0 <= i < |ps| ==> ps[i] == (b.keys[i], b.entries[b.keys[i]])
  {
    seq(|b.keys|, i requires 0 <= i < |b.keys| => (b.keys[i], b.entries[b.keys[i]]))
  }

  /** The C# Dictionary<string, List<Departure>> (and the Python dict and
      the JavaScript Array used as a dictionary) that a request fills. */
  class BinStore {
    var keys: seq<string>
    var bins: map<string, seq<Departure>>

    ghost predicate Valid()
      reads this
    {
      KeysMatch(Bins(keys, bins))
    }

    function Value(): Bins
      reads this
    {
      Bins(keys, bins)
    }

    constructor ()
      ensures Valid() && Value() == NoBins
    {
      keys := [];
      bins := map[];
    }

    /** PlaceDeparturesInBins: every departure of the batch in turn. */
    method PlaceDeparturesInBins(departures: seq<Departure>, rt: Runtime, now: int)
      requires Valid()
      modifies this
      ensures Valid()
      ensures Value() == PlaceAll(old(Value()), departures, rt, now)
    {
      for i := 0 to |departures|
        invariant Valid()
        invariant Value() == PlaceAll(old(Value()), departures[..i], rt, now)
      {
        var departure := departures[i];
        ghost var before := Value();
        PlaceKeysMatch(before, departure, rt, now);
        var key := BinKey(departure);
        var minutesFromNow := MinutesDifference(rt, EffectiveTime(departure), now, false);
        if minutesFromNow >= 0 && minutesFromNow < 60 {
          if key !in bins {
            assert key !in keys;
            keys := keys + [key];
            bins := bins[key := []];
          }
          if !HasJourney(bins[key], departure.journeyId) {
            bins := bins[key := bins[key] + [departure]];
          }
        }
        assert Value() == Place(before, departure, rt, now);
        assert PlaceAll(old(Value()), departures[..i + 1], rt, now) == Place(before, departure, rt, now) by {
          assert departures[..i + 1][..i] == departures[..i];
        }
      }
      assert departures[..|departures|] == departures;
    }

    /** AllBinsHaveAtleastTwoItems: false for an empty dictionary, else
        whether every bin holds two departures or more. */
    method AllBinsHaveAtleastTwoItems() returns (complete: bool)
      requires Valid()
      ensures complete == AllComplete(Value())
    {
      if |keys| == 0 {
        return false;
      }
      var i := 0;
      while i < |keys|
        invariant 0 <= i <= |keys|
        invariant forall j :: 0 <= j < i ==> |bins[keys[j]]| >= 2
      {
        if |bins[keys[i]]| < 2 {
          return false;
        }
        i := i + 1;
      }
      assert forall k :: k in bins ==> exists j :: 0 <= j < |keys| && keys[j] == k;
      return true;
    }
  }
}
