/** The display record every variant builds per bin, and the pieces of it
    that C#, Python and JavaScript compute alike: the colour fallback and
    the countdowns of a bin ordered by minutes. */
module Display {
  import opened Departures
  import opened TimeMath
  import opened Sorting
  import opened Binning

  /** The board's accent colour, which the display does not show. */
  const Accent := "#00abe5"
  const Black := "#000000"

  /** A colour with the accent colour replaced by black. */
  function BackgroundOrBlack(c: string): (r: string)
    ensures r != Accent
    ensures c != Accent ==> r == c
    ensures c == Accent ==> r == Black
  {
    if c != Accent then c else Black
  }

  /** The minutes to the next departure of a bin and, for a bin of two or
      more, to the one after. */
  datatype Countdowns = Countdowns(nextMin: int, nextNextMin: Option<int>)

  /** One line of the display.  `number` is None only where the JavaScript
      variant reads a second name token that does not exist (undefined). */
  datatype VehicleInfo = VehicleInfo(
    number: Option<string>,
    destination: string,
    foregroundColor: string,
    backgroundColor: string,
    countdowns: Countdowns)

  /** The non-empty bins whose first departure passes `shown`, in
      enumeration order. */
  function Shown(ps: seq<(string, seq<Departure>)>, shown: Departure -> bool): (r: seq<(string, seq<Departure>)>)
    ensures |r| <= |ps|
    ensures forall p :: p in r <==> p in ps && |p.1| > 0 && shown(p.1[0])
  {
    if ps == [] then []
    else
      var rest := Shown(ps[1..], shown);
      assert forall p :: p in ps <==> p == ps[0] || p in ps[1..];
      if |ps[0].1| > 0 && shown(ps[0].1[0]) then [ps[0]] + rest else rest
  }

  /** Filtering distributes over concatenation: with the membership Shown
      ensures for one pair, this fixes Shown as the order-preserving filter. */
  lemma {:induction false} ShownAppend(a: seq<(string, seq<Departure>)>, b: seq<(string, seq<Departure>)>, shown: Departure -> bool)
    ensures Shown(a + b, shown) == Shown(a, shown) + Shown(b, shown)
  {
    if a != [] {
      assert (a + b)[0] == a[0];
      assert (a + b)[1..] == a[1..] + b;
      ShownAppend(a[1..], b, shown);
    } else {
      assert a + b == b;
    }
  }

  /** The position in ps that the i-th result of Shown comes from. */
  function Origin(ps: seq<(string, seq<Departure>)>, shown: Departure -> bool, i: nat): (k: nat)
    requires i < |Shown(ps, shown)|
    ensures k < |ps|
  {
    var rest := Shown(ps[1..], shown);
    if |ps[0].1| > 0 && shown(ps[0].1[0]) then
      assert Shown(ps, shown) == [ps[0]] + rest;
      if i == 0 then 0 else 1 + Origin(ps[1..], shown, i - 1)
    else
      1 + Origin(ps[1..], shown, i)
  }

  /** The i-th result of Shown is the pair at its origin. */
  lemma {:induction false} OriginIsAt(ps: seq<(string, seq<Departure>)>, shown: Departure -> bool, i: nat)
    requires i < |Shown(ps, shown)|
    ensures ps[Origin(ps, shown, i)] == Shown(ps, shown)[i]
  {
    var tail := ps[1..];
    if |ps[0].1| > 0 && shown(ps[0].1[0]) {
      assert Shown(ps, shown) == [ps[0]] + Shown(tail, shown);
      if i > 0 {
        OriginIsAt(tail, shown, i - 1);
      }
    } else {
      assert Shown(ps, shown) == Shown(tail, shown);
      OriginIsAt(tail, shown, i);
    }
  }

  /** Shown keeps the order of what it keeps: later results come from later
      positions of ps. */
  lemma {:induction false} ShownKeepsOrder(ps: seq<(string, seq<Departure>)>, shown: Departure -> bool, i: nat, j: nat)
    requires i < j < |Shown(ps, shown)|
    ensures Origin(ps, shown, i) < Origin(ps, shown, j)
  {
    assert ps != [];
    var tail := ps[1..];
    if |ps[0].1| > 0 && shown(ps[0].1[0]) {
      assert Shown(ps, shown) == [ps[0]] + Shown(tail, shown);
      if i > 0 {
        ShownKeepsOrder(ps[1..], shown, i - 1, j - 1);
      }
      OriginOfShownHead(ps, shown, i, j);
    } else {
      assert Shown(ps, shown) == Shown(tail, shown);
      ShownKeepsOrder(ps[1..], shown, i, j);
      OriginOfSkippedHead(ps, shown, i, j);
    }
  }

  /** The step of ShownKeepsOrder when ps's first pair is shown. */
  lemma OriginOfShownHead(ps: seq<(string, seq<Departure>)>, shown: Departure -> bool, i: nat, j: nat)
    requires i < j < |Shown(ps, shown)| && |ps[0].1| > 0 && shown(ps[0].1[0])
    requires |Shown(ps[1..], shown)| == |Shown(ps, shown)| - 1
    requires i > 0 ==> Origin(ps[1..], shown, i - 1) < Origin(ps[1..], shown, j - 1)
    ensures Origin(ps, shown, i) < Origin(ps, shown, j)
  {
  }

  /** The step of ShownKeepsOrder when ps's first pair is not shown. */
  lemma OriginOfSkippedHead(ps: seq<(string, seq<Departure>)>, shown: Departure -> bool, i: nat, j: nat)
    requires i < j < |Shown(ps, shown)| && !(|ps[0].1| > 0 && shown(ps[0].1[0]))
    requires |Shown(ps[1..], shown)| == |Shown(ps, shown)|
    requires Origin(ps[1..], shown, i) < Origin(ps[1..], shown, j)
    ensures Origin(ps, shown, i) < Origin(ps, shown, j)
  {
  }

  /** The bins of a store that a projection shows, in enumeration order:
      those whose first departure passes `shown`. */
  function Kept(b: Bins, shown: Departure -> bool): (ps: seq<(string, seq<Departure>)>)
    requires KeysMatch(b)
    ensures forall p :: p in ps <==>
      p.0 in b.entries && p.1 == b.entries[p.0] && |p.1| > 0 && shown(p.1[0])
  {
    var all := Pairs(b);
    assert forall p :: p in all <==> p.0 in b.entries && p.1 == b.entries[p.0] by {
      forall p ensures p in all <==> p.0 in b.entries && p.1 == b.entries[p.0] {
        if p.0 in b.entries && p.1 == b.entries[p.0] {
          var i :| 0 <= i < |b.keys| && b.keys[i] == p.0;
          assert all[i] == p;
        }
      }
    }
    Shown(all, shown)
  }

  /** Kept lists the shown bins in the order of their keys, so each at most
      once. */
  lemma KeptInKeyOrder(b: Bins, shown: Departure -> bool, i: nat, j: nat)
    requires KeysMatch(b) && i < j < |Kept(b, shown)|
    ensures var ps := Kept(b, shown);
      exists ki, kj :: 0 <= ki < kj < |b.keys| && b.keys[ki] == ps[i].0 && b.keys[kj] == ps[j].0
  {
    var all := Pairs(b);
    ShownKeepsOrder(all, shown, i, j);
    OriginIsAt(all, shown, i);
    OriginIsAt(all, shown, j);
    assert all[Origin(all, shown, i)].0 == b.keys[Origin(all, shown, i)];
  }

  /** The Python and JavaScript filter: a bin is shown unless its first
      departure's name is "LOC". */
  predicate NameNotLoc(d: Departure)
  {
    d.name != "LOC"
  }

  predicate IntLess(a: int, b: int)
  {
    a < b
  }

  lemma IntLessIsWeakOrder()
    ensures WeakOrder(IntLess)
  {
  }

  /** A bin ordered by signed minutes, equal minutes in bin order (OrderBy
      and sorted with a key are stable). */
  function ByMinutes(rt: Runtime, bin: seq<Departure>, now: int): (ordered: seq<Departure>)
    ensures |ordered| == |bin|
    ensures multiset(ordered) == multiset(bin)
    ensures forall i, j :: 0 <= i < j < |ordered| ==> Minutes(rt, ordered[i], now) <= Minutes(rt, ordered[j], now)
  {
    IntLessIsWeakOrder();
    var key := (d: Departure) => Minutes(rt, d, now);
    var ordered := SortByKey(bin, key, IntLess);
    assert forall i, j :: 0 <= i < j < |ordered| ==> !IntLess(key(ordered[j]), key(ordered[i]));
    ordered
  }

  /** The countdowns of the C# and Python variants: a bin of one shows its
      departure only; a longer bin is ordered by minutes and shows its first
      two. */
  function SortedCountdowns(rt: Runtime, bin: seq<Departure>, now: int): Countdowns
    requires |bin| > 0
  {
    if |bin| == 1 then Countdowns(Countdown(rt, bin[0], now), None)
    else
      var ordered := ByMinutes(rt, bin, now);
      Countdowns(Countdown(rt, ordered[0], now), Some(Countdown(rt, ordered[1], now)))
  }

  lemma {:induction false} TwiceInMultiset(s: seq<Departure>, i: nat, j: nat)
    requires i < j < |s| && s[i] == s[j]
    ensures multiset(s)[s[i]] >= 2
  {
    assert s == s[..j] + s[j..];
    assert s[i] in s[..j];
    assert s[j] in s[j..];
  }

  lemma {:induction false} LaterCopy(s: seq<Departure>, x: Departure)
    requires |s| > 0 && s[0] == x && multiset(s)[x] >= 2
    ensures exists p :: 1 <= p < |s| && s[p] == x
  {
    assert s == [s[0]] + s[1..];
    assert multiset(s) == multiset{s[0]} + multiset(s[1..]);
    assert x in s[1..];
    var p :| 0 <= p < |s[1..]| && s[1..][p] == x;
    assert s[p + 1] == x;
  }

  /** A value the sequence holds twice sits at some index other than i. */
  lemma OtherCopy(s: seq<Departure>, i: nat)
    requires i < |s| && multiset(s)[s[i]] >= 2
    ensures exists j :: 0 <= j < |s| && j != i && s[j] == s[i]
  {
    var x := s[i];
    var rest := s[..i] + s[i + 1..];
    assert s == s[..i] + [x] + s[i + 1..];
    assert multiset(s) == multiset(rest) + multiset{x};
    assert x in rest;
    var p :| 0 <= p < |rest| && rest[p] == x;
    if p < i {
      assert s[p] == x;
    } else {
      assert s[p + 1] == x;
    }
  }

  /** Every entry of the bin but the one at index i counts down at least
      v minutes. */
  predicate AllButOneAtLeast(rt: Runtime, bin: seq<Departure>, now: int, i: nat, v: int)
  {
    forall j :: 0 <= j < |bin| && j != i ==> v <= Countdown(rt, bin[j], now)
  }

  lemma CountdownMonotone(rt: Runtime, a: Departure, b: Departure, now: int)
    requires Minutes(rt, a, now) <= Minutes(rt, b, now)
    ensures Countdown(rt, a, now) <= Countdown(rt, b, now)
  {
    CountdownIsClamped(rt, a, now);
    CountdownIsClamped(rt, b, now);
  }

  /** The first departure of the ordered bin leaves no later than any. */
  lemma FirstIsEarliest(rt: Runtime, bin: seq<Departure>, now: int, j: nat)
    requires j < |bin|
    ensures Minutes(rt, ByMinutes(rt, bin, now)[0], now) <= Minutes(rt, bin[j], now)
  {
    var ordered := ByMinutes(rt, bin, now);
    assert bin[j] in multiset(ordered);
    var p :| 0 <= p < |ordered| && ordered[p] == bin[j];
  }

  /** The second departure of the ordered bin leaves no later than any
      entry other than the one the ordering put first. */
  lemma SecondIsEarliestOfRest(rt: Runtime, bin: seq<Departure>, now: int, i0: nat, j: nat)
    requires |bin| >= 2 && i0 < |bin| && j < |bin| && j != i0
    requires bin[i0] == ByMinutes(rt, bin, now)[0]
    ensures Minutes(rt, ByMinutes(rt, bin, now)[1], now) <= Minutes(rt, bin[j], now)
  {
    var ordered := ByMinutes(rt, bin, now);
    var first := ordered[0];
    var p: nat;
    if bin[j] != first {
      assert bin[j] in multiset(ordered);
      p :| 0 <= p < |ordered| && ordered[p] == bin[j];
    } else {
      if j < i0 {
        TwiceInMultiset(bin, j, i0);
      } else {
        TwiceInMultiset(bin, i0, j);
      }
      LaterCopy(ordered, first);
      p :| 1 <= p < |ordered| && ordered[p] == first;
    }
    assert p >= 1;
  }

  /** The countdowns of a sorted bin: the next one is the smallest
      countdown of the bin and is never negative; the one after is shown
      exactly for bins of two or more, is not smaller, and every entry but
      one counts down at least that long. */
  lemma {:induction false} SortedCountdownsOrder(rt: Runtime, bin: seq<Departure>, now: int)
    requires |bin| > 0
    ensures var c := SortedCountdowns(rt, bin, now);
      && 0 <= c.nextMin
      && (forall j :: 0 <= j < |bin| ==> c.nextMin <= Countdown(rt, bin[j], now))
      && (exists j :: 0 <= j < |bin| && c.nextMin == Countdown(rt, bin[j], now))
      && (c.nextNextMin.Some? <==> |bin| >= 2)
      && (c.nextNextMin.Some? ==>
            && c.nextMin <= c.nextNextMin.value
            && exists i0, i1 :: 0 <= i0 < |bin| && 0 <= i1 < |bin| && i0 != i1
                 && c.nextMin == Countdown(rt, bin[i0], now)
                 && c.nextNextMin.value == Countdown(rt, bin[i1], now)
                 && AllButOneAtLeast(rt, bin, now, i0, c.nextNextMin.value))
  {
    var c := SortedCountdowns(rt, bin, now);
    if |bin| == 1 {
      assert c.nextMin == Countdown(rt, bin[0], now);
    } else {
      var ordered := ByMinutes(rt, bin, now);
      var first, second := ordered[0], ordered[1];
      assert first in multiset(bin) && second in multiset(bin);
      var i0 :| 0 <= i0 < |bin| && bin[i0] == first;
      var i1: nat;
      if second == first {
        TwiceInMultiset(ordered, 0, 1);
        assert multiset(bin)[bin[i0]] >= 2;
        OtherCopy(bin, i0);
        i1 :| 0 <= i1 < |bin| && i1 != i0 && bin[i1] == second;
      } else {
        i1 :| 0 <= i1 < |bin| && bin[i1] == second;
      }
      forall j | 0 <= j < |bin|
        ensures c.nextMin <= Countdown(rt, bin[j], now)
      {
        FirstIsEarliest(rt, bin, now, j);
        CountdownMonotone(rt, first, bin[j], now);
      }
      forall j | 0 <= j < |bin| && j != i0
        ensures c.nextNextMin.value <= Countdown(rt, bin[j], now)
      {
        SecondIsEarliestOfRest(rt, bin, now, i0, j);
        CountdownMonotone(rt, second, bin[j], now);
      }
      CountdownMonotone(rt, first, second, now);
      assert c.nextMin == Countdown(rt, bin[i0], now);
      assert c.nextNextMin.value == Countdown(rt, bin[i1], now);
      assert AllButOneAtLeast(rt, bin, now, i0, c.nextNextMin.value);
    }
  }
}
