/** String operations the projection uses: splitting a line name on
    spaces, finding " via " in a direction, ordinal string order, and the
    two ways the scripts read a line number out of text. */
module Text {
  import opened Departures

  /** s split at every occurrence of sep; consecutive separators give empty
      parts (String.Split(' ') and String.prototype.split(' ')). */
  function Split(s: string, sep: char): (parts: seq<string>)
    ensures |parts| >= 1
    ensures forall i :: 0 <= i < |parts| ==> sep !in parts[i]
  {
    if s == [] then [""]
    else
      var rest := Split(s[1..], sep);
      if s[0] == sep then [""] + rest
      else [[s[0]] + rest[0]] + rest[1..]
  }

  /** The parts joined with sep between consecutive parts. */
  function Join(parts: seq<string>, sep: char): string
    requires |parts| >= 1
  {
    if |parts| == 1 then parts[0] else parts[0] + [sep] + Join(parts[1..], sep)
  }

  /** Splitting loses nothing: joining the parts gives back the string. */
  lemma {:induction false} JoinSplit(s: string, sep: char)
    ensures Join(Split(s, sep), sep) == s
  {
    if s != [] {
      var rest := Split(s[1..], sep);
      JoinSplit(s[1..], sep);
      if s[0] == sep {
        assert Split(s, sep) == [""] + rest;
        assert ([""] + rest)[1..] == rest;
      } else {
        var parts := Split(s, sep);
        assert parts == [[s[0]] + rest[0]] + rest[1..];
        if |rest| == 1 {
          assert Join(parts, sep) == [s[0]] + rest[0];
        } else {
          assert parts[1..] == rest[1..];
          assert Join(parts, sep) == [s[0]] + rest[0] + [sep] + Join(rest[1..], sep);
          assert Join(rest, sep) == rest[0] + [sep] + Join(rest[1..], sep);
        }
      }
    }
  }

  /** Splitting is the inverse of joining parts that do not contain the
      separator. */
  lemma {:induction false} SplitJoin(parts: seq<string>, sep: char)
    requires |parts| >= 1
    requires forall i :: 0 <= i < |parts| ==> sep !in parts[i]
    ensures Split(Join(parts, sep), sep) == parts
    decreases |parts|, |parts[0]|
  {
    if |parts| == 1 {
      SplitNoSeparator(parts[0], sep);
    } else if parts[0] == [] {
      SplitJoin(parts[1..], sep);
      SplitJoinEmptyHead(parts, sep);
    } else {
      var shorter := [parts[0][1..]] + parts[1..];
      assert forall i :: 0 <= i < |shorter| ==> sep !in shorter[i] by {
        forall i | 0 <= i < |shorter| ensures sep !in shorter[i] {
          if i == 0 {
            assert sep !in parts[0];
          } else {
            assert shorter[i] == parts[i];
          }
        }
      }
      SplitJoin(shorter, sep);
      SplitJoinLongerHead(parts, sep);
    }
  }

  /** The step of SplitJoin for an empty first part. */
  lemma SplitJoinEmptyHead(parts: seq<string>, sep: char)
    requires |parts| >= 2 && parts[0] == []
    requires Split(Join(parts[1..], sep), sep) == parts[1..]
    ensures Split(Join(parts, sep), sep) == parts
  {
    var tail := parts[1..];
    assert Join(parts, sep) == [sep] + Join(tail, sep);
    assert ([sep] + Join(tail, sep))[1..] == Join(tail, sep);
    assert parts == [""] + tail;
  }

  /** The step of SplitJoin for a first part that does not start with the
      separator. */
  lemma SplitJoinLongerHead(parts: seq<string>, sep: char)
    requires |parts| >= 2 && parts[0] != [] && parts[0][0] != sep
    requires var shorter := [parts[0][1..]] + parts[1..];
      Split(Join(shorter, sep), sep) == shorter
    ensures Split(Join(parts, sep), sep) == parts
  {
    var shorter := [parts[0][1..]] + parts[1..];
    assert shorter[1..] == parts[1..];
    var j := Join(parts, sep);
    assert j == [parts[0][0]] + Join(shorter, sep);
    assert j[1..] == Join(shorter, sep);
    var rest := Split(j[1..], sep);
    assert Split(j, sep) == [[j[0]] + rest[0]] + rest[1..];
    assert [j[0]] + rest[0] == parts[0];
    assert parts == [parts[0]] + parts[1..];
  }

  lemma {:induction false} SplitNoSeparator(s: string, sep: char)
    requires sep !in s
    ensures Split(s, sep) == [s]
  {
    if s != [] {
      SplitNoSeparator(s[1..], sep);
      assert [s[0]] + s[1..] == s;
    }
  }

  /** The second space-separated token of a line name ("Buss 16" gives
      "16"), or None when the name has no space. */
  function SecondToken(name: string): (t: Option<string>)
    ensures t.Some? <==> ' ' in name
    ensures t.Some? ==> ' ' !in t.value
  {
    var parts := Split(name, ' ');
    SplitHasSeparator(name, ' ');
    if |parts| >= 2 then Some(parts[1]) else None
  }

  /** The second token is the text after the first space of the name, up
      to the next space or the end. */
  lemma SecondTokenAfterFirstSpace(name: string, i: nat)
    requires i < |name| && name[i] == ' ' && ' ' !in name[..i]
    ensures var t := SecondToken(name);
      && t.Some?
      && t.value <= name[i + 1..]
      && ' ' !in t.value
      && (i + 1 + |t.value| == |name| || name[i + 1 + |t.value|] == ' ')
  {
    SplitAtFirst(name, ' ', i);
    SplitHead(name[i + 1..], ' ');
  }

  /** The part of s before the first separator: a prefix of s that ends at
      the end of s or at a separator. */
  predicate SplitHeadReaches(s: string, sep: char)
  {
    var h := Split(s, sep)[0];
    h <= s && (|h| == |s| || s[|h|] == sep)
  }

  lemma {:induction false} SplitHead(s: string, sep: char)
    ensures SplitHeadReaches(s, sep)
  {
    if s != [] && s[0] != sep {
      SplitHead(s[1..], sep);
      var rest := Split(s[1..], sep);
      assert Split(s, sep)[0] == [s[0]] + rest[0];
      assert s == [s[0]] + s[1..];
    }
  }

  /** Splitting at the first separator: the text before it, then the parts
      of the text after it. */
  lemma {:induction false} SplitAtFirst(s: string, sep: char, i: nat)
    requires i < |s| && s[i] == sep && sep !in s[..i]
    ensures Split(s, sep) == [s[..i]] + Split(s[i + 1..], sep)
  {
    if i > 0 {
      assert s[0] == s[..i][0];
      assert s[1..][..i - 1] == s[1..i];
      assert s[1..][i - 1 + 1..] == s[i + 1..];
      SplitAtFirst(s[1..], sep, i - 1);
      assert [s[0]] + s[1..i] == s[..i];
    }
  }

  /** A string splits into more than one part exactly when it holds the
      separator. */
  lemma {:induction false} SplitHasSeparator(s: string, sep: char)
    ensures |Split(s, sep)| >= 2 <==> sep in s
  {
    if sep !in s {
      SplitNoSeparator(s, sep);
    } else if s[0] != sep {
      SplitHasSeparator(s[1..], sep);
    }
  }

  /** pattern occurs in s starting at index i. */
  predicate OccursAt(s: string, pattern: string, i: nat)
  {
    i + |pattern| <= |s| && s[i..i + |pattern|] == pattern
  }

  /** The index of the first occurrence of pattern in s at or after from. */
  function IndexOfFrom(s: string, pattern: string, from: nat): (r: Option<nat>)
    requires from <= |s|
    ensures r.Some? ==> from <= r.value <= |s| && OccursAt(s, pattern, r.value)
    ensures r.Some? ==> forall j :: from <= j < r.value ==> !OccursAt(s, pattern, j)
    ensures r.None? ==> forall j :: from <= j <= |s| ==> !OccursAt(s, pattern, j)
    decreases |s| - from
  {
    if OccursAt(s, pattern, from) then Some(from)
    else if from == |s| then None
    else IndexOfFrom(s, pattern, from + 1)
  }

  /** The index of the first occurrence of pattern in s (IndexOf, find,
      indexOf), or None when there is none (-1 in the sources). */
  function IndexOf(s: string, pattern: string): (r: Option<nat>)
    ensures r.Some? ==> OccursAt(s, pattern, r.value)
    ensures r.Some? ==> forall j :: 0 <= j < r.value ==> !OccursAt(s, pattern, j)
    ensures r.None? ==> forall j :: 0 <= j <= |s| ==> !OccursAt(s, pattern, j)
  {
    IndexOfFrom(s, pattern, 0)
  }

  const Via := " via "

  /** The destination shown for a direction: the direction cut before the
      first " via ", or all of it when it has none. */
  function StripVia(direction: string): (dest: string)
    ensures dest <= direction
    ensures forall j :: 0 <= j < |dest| ==> !OccursAt(direction, Via, j)
    ensures dest == direction || OccursAt(direction, Via, |dest|)
    ensures dest != direction <==> exists j :: 0 <= j <= |direction| && OccursAt(direction, Via, j)
  {
    match IndexOf(direction, Via)
    case Some(i) => direction[..i]
    case None => direction
  }

  /** Ordinal (code-point by code-point) string order: a proper prefix
      comes first, otherwise the first differing character decides. */
  predicate OrdinalLess(a: string, b: string)
  {
    if a == [] then b != []
    else if b == [] then false
    else if a[0] != b[0] then a[0] < b[0]
    else OrdinalLess(a[1..], b[1..])
  }

  lemma {:induction false} OrdinalIrreflexive(a: string)
    ensures !OrdinalLess(a, a)
  {
    if a != [] {
      OrdinalIrreflexive(a[1..]);
    }
  }

  lemma {:induction false} OrdinalTransitive(a: string, b: string, c: string)
    requires OrdinalLess(a, b) && OrdinalLess(b, c)
    ensures OrdinalLess(a, c)
  {
    if a != [] && b != [] && c != [] && a[0] == b[0] && b[0] == c[0] {
      OrdinalTransitive(a[1..], b[1..], c[1..]);
    }
  }

  lemma {:induction false} OrdinalTotal(a: string, b: string)
    requires a != b
    ensures OrdinalLess(a, b) || OrdinalLess(b, a)
  {
    if a != [] && b != [] && a[0] == b[0] {
      assert a == [a[0]] + a[1..] && b == [b[0]] + b[1..];
      OrdinalTotal(a[1..], b[1..]);
    }
  }

  /** The characters of s that are ASCII digits, in order
      (re.sub("[^0-9]", "", s)). */
  function Digits(s: string): (ds: string)
    ensures |ds| <= |s|
    ensures forall i :: 0 <= i < |ds| ==> IsDigit(ds[i])
    ensures ds == [] <==> forall i :: 0 <= i < |s| ==> !IsDigit(s[i])
    ensures |s| == 1 ==> ds == (if IsDigit(s[0]) then s else [])
  {
    if s == [] then []
    else if IsDigit(s[0]) then [s[0]] + Digits(s[1..])
    else
      assert forall i :: 1 <= i < |s| ==> s[i] == s[1..][i - 1];
      Digits(s[1..])
  }

  /** Keeping the digits distributes over concatenation; with the
      one-character case of Digits this fixes Digits as the order-preserving
      filter of the digit characters. */
  lemma {:induction false} DigitsAppend(a: string, b: string)
    ensures Digits(a + b) == Digits(a) + Digits(b)
  {
    if a != [] {
      assert (a + b)[0] == a[0];
      assert (a + b)[1..] == a[1..] + b;
      DigitsAppend(a[1..], b);
    } else {
      assert a + b == b;
    }
  }

  /** The number a string of decimal digits denotes. */
  function DecimalValue(ds: string): nat
    requires forall i :: 0 <= i < |ds| ==> IsDigit(ds[i])
  {
    if ds == [] then 0
    else 10 * DecimalValue(ds[..|ds| - 1]) + DigitValue(ds[|ds| - 1])
  }

  /** The longest prefix of s made of decimal digits. */
  function LeadingDigits(s: string): (ds: string)
    ensures ds <= s
    ensures forall i :: 0 <= i < |ds| ==> IsDigit(ds[i])
    ensures |ds| < |s| ==> !IsDigit(s[|ds|])
  {
    if s != [] && IsDigit(s[0]) then [s[0]] + LeadingDigits(s[1..]) else []
  }

  /** parseInt of a token: the value of its leading decimal digits, or
      None (NaN) when it does not start with a digit. */
  function ParseInt(s: string): (n: Option<nat>)
    ensures n.None? <==> (s == [] || !IsDigit(s[0]))
  {
    var ds := LeadingDigits(s);
    if ds == [] then None else Some(DecimalValue(ds))
  }

  /** The decimal spelling of k, without leading zeros. */
  function Decimal(k: nat): (ds: string)
    ensures ds != [] && forall i :: 0 <= i < |ds| ==> IsDigit(ds[i])
  {
    if k < 10 then [DigitChar(k)] else Decimal(k / 10) + [DigitChar(k % 10)]
  }

  /** Reading a decimal spelling gives back its number. */
  lemma {:induction false} DecimalValueOfDecimal(k: nat)
    ensures DecimalValue(Decimal(k)) == k
  {
    var ds := Decimal(k);
    if k < 10 {
      assert ds[..|ds| - 1] == [];
    } else {
      DecimalValueOfDecimal(k / 10);
      assert ds[..|ds| - 1] == Decimal(k / 10);
    }
  }

  /** The leading digits of digits followed by a non-digit (or nothing) are
      those digits. */
  lemma {:induction false} LeadingDigitsOf(ds: string, rest: string)
    requires forall i :: 0 <= i < |ds| ==> IsDigit(ds[i])
    requires rest == [] || !IsDigit(rest[0])
    ensures LeadingDigits(ds + rest) == ds
  {
    if ds == [] {
      assert ds + rest == rest;
    } else {
      assert (ds + rest)[0] == ds[0];
      assert (ds + rest)[1..] == ds[1..] + rest;
      LeadingDigitsOf(ds[1..], rest);
      assert ds == [ds[0]] + ds[1..];
    }
  }

  /** parseInt of a token that starts with digits is the number those
      digits denote; what follows the first non-digit is ignored. */
  lemma ParseIntOfDigits(ds: string, rest: string)
    requires ds != [] && forall i :: 0 <= i < |ds| ==> IsDigit(ds[i])
    requires rest == [] || !IsDigit(rest[0])
    ensures ParseInt(ds + rest) == Some(DecimalValue(ds))
  {
    LeadingDigitsOf(ds, rest);
  }

  /** parseInt reads back every number written in decimal. */
  lemma ParseIntOfDecimal(k: nat)
    ensures ParseInt(Decimal(k)) == Some(k)
  {
    DecimalValueOfDecimal(k);
    assert Decimal(k) + [] == Decimal(k);
    ParseIntOfDigits(Decimal(k), []);
  }
}
