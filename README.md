# Departure aggregation of the Västtrafik departure-board client

This project models the part of the Västtrafik client that gathers departures
for one stop and turns them into display lines. The repository has three
versions of it: C# (`cs/VasttrafikApi.cs`), Python (`py/vasttrafik_api.py`)
and JavaScript (`js/vasttrafik_api.js`). Each version has four parts, and the
model has them all:

- **Effective time and minute difference.** A departure leaves at its
  realtime time if it has one, otherwise at its timetable time. The minute
  difference to "now" is rounded as each runtime rounds it, and can be
  clamped at zero. The three versions round differently: C# rounds half away
  from zero, Python rounds up (its `replace` keeps now's seconds) and
  JavaScript rounds halves up.
- **Bin store.** A dictionary keyed by `name + "," + direction`. It accepts
  only departures 0 to 59 minutes away and never holds one journey twice in a
  bin. It is the class `Binning.BinStore`, with a map plus the order in which
  keys were inserted. `PlaceDeparturesInBins` updates it in place.
- **Polling loop.** Fetch a board, move the (date, time) cursor to the last
  departure returned, and place the batch. Stop when every bin holds two
  departures or when the attempt ceiling is reached. The loops are methods,
  proved against `Polling.After`, which gives the state after n fetches as a
  function.
- **Projection.** Drop walking bins, order the rest by line number, and build
  one `VehicleInfo` per bin. A record holds the number, the destination cut
  before " via ", two colours with the accent-colour fallback, and one or two
  countdowns.

"Now" is a fixed number of seconds since midnight. The departure board is a
function `Source` from (number of earlier fetches, query) to an optional
batch. `None` is a failed request: C# and Python treat it as an empty batch,
while in JavaScript it ends the callback chain and nothing is delivered.
Every method also returns the list of queries it sent, so the cursor
behaviour can be stated.

Where the versions differ, the model follows each version's code:

- Only C# swaps the colours. Its `BackgroundColor` is the departure's
  foreground colour, and its `ForegroundColor` is the departure's background
  colour with the fallback.
- C# drops bins whose first departure has type "LOC". Python and JavaScript
  drop bins whose first departure is *named* "LOC".
- C# orders lines by the second word of the name, as strings. Python orders
  by the integer formed from the digits of `sname`. JavaScript orders by
  `parseInt` of the second word, and a `NaN` is comparable to nothing.
- C# throws when a shown bin's name has no second word. Python throws
  (`int('')`) when two or more bins are shown and one `sname` has no digit.
  The model returns `None` for both.
- Python never sends the advanced cursor, and JavaScript fetches six times
  (see Findings).
- An empty realtime string counts as a realtime time in all three.
- JavaScript's `getDepartures` starts from the UTC date and time
  (`toISOString`), while its minute differences use local time. The model
  takes both as inputs.
- The cursor only moves forward under an assumption that the source itself
  does not guarantee: that the board never answers with a departure earlier
  than the one it was asked for (`Polling.AnswersFromCursor`).

## Model

| member | source | states |
|---|---|---|
| Departures.EffectiveTime | cs/VasttrafikApi.cs:99-102 | the realtime time whenever there is one (an empty string counts), otherwise the timetable time |
| Departures.ClockMinutes | js/vasttrafik_api.js:146 | a parsed "HH:MM" names a minute of the day (below 1440) |
| Departures.FormatThenParse | cs/VasttrafikApi.cs:80-81 | the "HH:mm" text of a minute of the day parses back to that minute |
| Departures.ParseThenFormat | cs/VasttrafikApi.cs:66 | a time that parses has exactly one spelling, the formatting of its minute |
| Departures.DepartureMinute | cs/VasttrafikApi.cs:66 | a departure's minute is below 1440 and formats back to its effective time |
| Departures.Batch | cs/VasttrafikApi.cs:164-167 | a failed request is an empty batch; an answer is its own batch |
| TimeMath.RoundAwayFromZero | cs/VasttrafikApi.cs:67 | the result is within half a minute of s seconds, halves going away from zero |
| TimeMath.RoundHalfUp | js/vasttrafik_api.js:148 | the result is within half a minute of s seconds, halves going up |
| TimeMath.Clamp | cs/VasttrafikApi.cs:69-72 | non-negative; the value itself when non-negative, else 0 |
| TimeMath.CsMinutesDifference | cs/VasttrafikApi.cs:64-73 | signed: the nearest whole minute, halves away from zero; clamped: 0 exactly when less than 30 s remain, else the rounded value |
| TimeMath.PyMinutesDifference | py/vasttrafik_api.py:132-141 | signed: the difference rounded up to a whole minute; clamped: 0 exactly when the minute has started |
| TimeMath.JsMinutesDifference | js/vasttrafik_api.js:144-154 | signed: the nearest whole minute, halves upward; clamped: 0 exactly when less than 30 s remain |
| TimeMath.CountdownIsClamped | cs/VasttrafikApi.cs:69-72 | in every runtime the shown countdown is the signed difference clamped at 0 |
| TimeMath.CsWindowInSeconds | cs/VasttrafikApi.cs:126-127 | a departure is kept exactly when it is under 30 s past and under 59 min 30 s away |
| TimeMath.PyWindowInSeconds | py/vasttrafik_api.py:122-123 | a departure is kept exactly when its minute began less than 60 s ago and it is at most 59 min away |
| TimeMath.JsWindowInSeconds | js/vasttrafik_api.js:129-130 | a departure is kept exactly when it is at most 30 s past and under 59 min 30 s away |
| Text.Split | cs/VasttrafikApi.cs:28 | at least one part, and no part contains the separator |
| Text.JoinSplit | cs/VasttrafikApi.cs:35 | joining the parts of a split restores the string |
| Text.SplitJoin | cs/VasttrafikApi.cs:35 | splitting a join of separator-free parts gives the parts back |
| Text.SplitNoSeparator | cs/VasttrafikApi.cs:35 | a string without the separator splits into itself |
| Text.SplitHasSeparator | cs/VasttrafikApi.cs:35 | there is a second part exactly when the separator occurs |
| Text.SecondToken | js/vasttrafik_api.js:22 | the second word exists exactly when the name has a space, and contains no space |
| Text.SecondTokenAfterFirstSpace | js/vasttrafik_api.js:22 | the second word is the text after the first space, up to the next space or the end |
| Text.IndexOfFrom | cs/VasttrafikApi.cs:38 | the first occurrence at or after `from`, or none at all |
| Text.IndexOf | py/vasttrafik_api.py:162-163 | the first occurrence of the pattern, or None exactly when it never occurs |
| Text.StripVia | cs/VasttrafikApi.cs:36-40 | a prefix of the direction ending at the first " via ", and the whole direction exactly when " via " does not occur |
| Text.OrdinalIrreflexive | cs/VasttrafikApi.cs:28 | string order is irreflexive |
| Text.OrdinalTransitive | cs/VasttrafikApi.cs:28 | string order is transitive |
| Text.OrdinalTotal | cs/VasttrafikApi.cs:28 | distinct strings are comparable |
| Text.Digits | py/vasttrafik_api.py:152 | only digits, empty exactly when the string has none; a single character is kept exactly when it is a digit |
| Text.DigitsAppend | py/vasttrafik_api.py:152 | keeping the digits of a concatenation is concatenating the digits kept of each part, so the digits keep their order |
| Text.LeadingDigits | js/vasttrafik_api.js:14 | the longest digit-only prefix |
| Text.ParseInt | js/vasttrafik_api.js:14 | NaN exactly when the text is empty or does not start with a digit |
| Text.ParseIntOfDigits | js/vasttrafik_api.js:14 | a token of digits followed by a non-digit or nothing parses to the number the digits denote |
| Text.DecimalValueOfDecimal | js/vasttrafik_api.js:14 | the value read from the decimal spelling of a number is that number |
| Text.ParseIntOfDecimal | js/vasttrafik_api.js:14 | parseInt reads back every number written in decimal |
| Sorting.InsertByKey | cs/VasttrafikApi.cs:52 | inserting into a sorted sequence keeps it sorted and adds exactly that element |
| Sorting.SortByKey | cs/VasttrafikApi.cs:28 | the result is a permutation of the input, sorted by key |
| Sorting.EquivalentsCons | cs/VasttrafikApi.cs:28 | the elements equivalent to k in a sequence with a new front element |
| Sorting.InsertEquivalents | cs/VasttrafikApi.cs:52 | insertion puts a new element after every element equivalent to it |
| Sorting.SortByKeyStable | cs/VasttrafikApi.cs:28 | sorting keeps the relative order of elements with equivalent keys (OrderBy is stable) |
| Binning.PlaceEffect | cs/VasttrafikApi.cs:122-139 | a departure outside the window changes nothing; otherwise its bin (created if missing, key appended) gains it at the end unless it already holds its journey; other bins are untouched |
| Binning.PlacePreserves | cs/VasttrafikApi.cs:130-139 | placing one departure keeps every entry in the window, filed under its own key, no bin empty, no journey twice in a bin, and only grows the store |
| Binning.PlaceKeysMatch | cs/VasttrafikApi.cs:130-133 | placing one departure keeps the key list and the map in step: the keys are those of the map, each listed once |
| Binning.PlaceUnique | cs/VasttrafikApi.cs:134-138 | placing one departure never puts a journey twice in a bin |
| Binning.PlaceFiled | cs/VasttrafikApi.cs:122-138 | placing one departure keeps every bin non-empty, every entry filed under its own key and inside the window |
| Binning.PlaceOrigin | cs/VasttrafikApi.cs:130-138 | placing one departure adds no entry but that departure |
| Binning.PlaceAllPreserves | cs/VasttrafikApi.cs:118-142 | a whole batch keeps the store invariant; bins are never removed or reordered and are only appended to |
| Binning.PlaceAllFilesAccepted | py/vasttrafik_api.py:116-130 | every departure of the batch inside the window has its journey in the bin of its key |
| Binning.PlaceAllOnlyAddsBatch | js/vasttrafik_api.js:122-141 | the store holds nothing but earlier entries and departures of the batch |
| Binning.ExtendsTransitive | cs/VasttrafikApi.cs:83-94 | growth of the store composes across fetches |
| Binning.Pairs | js/vasttrafik_api.js:11 | the bins as (key, bin) pairs, one per key, in the order the keys were first filed |
| Binning.BinStore.constructor | cs/VasttrafikApi.cs:77 | a new store is empty |
| Binning.BinStore.PlaceDeparturesInBins | cs/VasttrafikApi.cs:118-142 | the store afterwards is the old one with the batch placed in order |
| Binning.BinStore.AllBinsHaveAtleastTwoItems | cs/VasttrafikApi.cs:104-116 | false for an empty store; otherwise true exactly when every bin holds two or more |
| Polling.Advance | cs/VasttrafikApi.cs:88-92 | an empty batch keeps the cursor; otherwise it moves to the last departure's date and effective time |
| Polling.Step | cs/VasttrafikApi.cs:85-93 | every fetch sends one more query |
| Polling.After | cs/VasttrafikApi.cs:83-94 | after n fetches, n queries have been sent |
| Polling.LoopStopsAt | cs/VasttrafikApi.cs:83 | a loop that stops after n fetches with no complete state before is the loop of `Attempts` |
| Polling.StopAtIs | cs/VasttrafikApi.cs:83 | the stopping fetch is the first complete state, or the ceiling |
| Polling.StopAtBounds | cs/VasttrafikApi.cs:83 | the stopping fetch is bounded by the ceiling and follows only incomplete states |
| Polling.AttemptsBounds | cs/VasttrafikApi.cs:83-94 | between 1 and 5 fetches; the loop goes on while some bin has fewer than two entries and stops at the first complete state |
| Polling.AfterInvariant | cs/VasttrafikApi.cs:83-94 | the store invariant holds after every fetch, and each state extends all earlier ones |
| Polling.FailedFetchConsumesAttempt | cs/VasttrafikApi.cs:164-167 | a failed fetch leaves bins and cursor as they were and still sends a query |
| Polling.QueriesExtend | cs/VasttrafikApi.cs:87 | the query log of an earlier state is a prefix of a later one's |
| Polling.QueryRule | cs/VasttrafikApi.cs:87 | fetch k asks for the cursor reached after k fetches (or the first cursor where it is not followed) |
| Polling.CursorAfterEmpty | cs/VasttrafikApi.cs:88-92 | a fetch returning no departures leaves the cursor unchanged |
| Polling.CursorLeqTransitive | cs/VasttrafikApi.cs:90-91 | chronological order of cursors is transitive |
| Polling.CursorLeqReflexive | cs/VasttrafikApi.cs:90-91 | chronological order of cursors is reflexive |
| Polling.CursorMonotone | cs/VasttrafikApi.cs:87-92 | when the board never answers before the cursor asked for, the cursor never moves back |
| Display.BackgroundOrBlack | py/vasttrafik_api.py:167 | never the accent colour; the colour itself unless it is "#00abe5", which becomes "#000000" |
| Display.Shown | py/vasttrafik_api.py:151 | exactly the non-empty pairs whose first departure passes the filter |
| Display.ShownAppend | py/vasttrafik_api.py:151 | filtering a concatenation is concatenating the filtered parts, so the filter keeps order and multiplicity |
| Display.ShownKeepsOrder | py/vasttrafik_api.py:151 | later results come from later positions of the input |
| Display.Kept | cs/VasttrafikApi.cs:28 | exactly the bins of the store whose first departure passes the filter |
| Display.KeptInKeyOrder | cs/VasttrafikApi.cs:28 | the kept bins come in the order of their keys, so each at most once |
| Display.IntLessIsWeakOrder | py/vasttrafik_api.py:176 | integer order is a weak order |
| Display.ByMinutes | cs/VasttrafikApi.cs:52 | a permutation of the bin in non-decreasing signed minutes |
| Display.CountdownMonotone | cs/VasttrafikApi.cs:54-55 | clamping keeps the order of minutes |
| Display.FirstIsEarliest | cs/VasttrafikApi.cs:54 | the first departure of the ordered bin is no later than any |
| Display.SecondIsEarliestOfRest | cs/VasttrafikApi.cs:55 | the second is no later than any but the first |
| Display.SortedCountdownsOrder | cs/VasttrafikApi.cs:46-56 | nextMin is the bin's smallest countdown and is at least 0; nextNextMin exists exactly for bins of two or more, is at least nextMin, is the countdown of an entry other than the one nextMin is the countdown of, and every entry but that one counts down at least that long |
| CsApi.CsRequest | cs/VasttrafikApi.cs:24 | the first cursor is today and the current minute, followed later, with C# arithmetic |
| CsApi.GetStation | cs/VasttrafikApi.cs:75-97 | the store and queries are those of `After` at `Attempts` fetches, asking each time for the advanced cursor |
| CsApi.Numbered | cs/VasttrafikApi.cs:28 | None exactly when some shown name has no second word; otherwise each bin labelled with that word |
| CsApi.NumberedMembers | cs/VasttrafikApi.cs:35 | the labelled rows are exactly the shown bins with their second word |
| CsApi.OrdinalWeakOrder | cs/VasttrafikApi.cs:28 | string order is a weak order |
| CsApi.Record | cs/VasttrafikApi.cs:34-56 | number, destination cut at " via ", swapped colours with the fallback, and countdowns of the bin ordered by minutes |
| CsApi.OrderedRowsNonEmpty | cs/VasttrafikApi.cs:32 | every ordered row has a departure |
| CsApi.AppendRecords | cs/VasttrafikApi.cs:30-59 | the records of the rows, in order |
| CsApi.GetVehicleInfos | cs/VasttrafikApi.cs:22-62 | the result is the view of the polled store, or None where the code throws |
| CsApi.ViewRecords | cs/VasttrafikApi.cs:30-57 | one record per ordered row, in order |
| CsApi.ViewFailsIff | cs/VasttrafikApi.cs:28 | the projection throws exactly when a shown bin's name has no second word |
| CsApi.OrderedIsNumbered | cs/VasttrafikApi.cs:28 | the ordered rows are a permutation of the shown bins labelled with their second word |
| CsApi.OrderedRowIsNumberedBin | cs/VasttrafikApi.cs:28-35 | every ordered row is a shown bin with its second word as the number |
| CsApi.ViewRecordsFromKept | cs/VasttrafikApi.cs:28-57 | as many records as bins not of type "LOC", each built from one of them |
| CsApi.KeptBinsHaveRecords | cs/VasttrafikApi.cs:28-57 | every bin not of type "LOC" has its record |
| CsApi.ViewOrderedByNumber | cs/VasttrafikApi.cs:28 | records come in string order of their numbers |
| CsApi.TiesKeepDictionaryOrder | cs/VasttrafikApi.cs:28 | bins with the same number keep their dictionary order |
| PyApi.PyRequest | py/vasttrafik_api.py:50-60 | the given date and time as the first cursor, never followed, with Python arithmetic |
| PyApi.Record | py/vasttrafik_api.py:157-179 | number is sname, destination cut at " via ", fgColor copied, bgColor with the fallback, countdowns ordered by minutes |
| PyApi.OrderedRowsNonEmpty | py/vasttrafik_api.py:156 | every ordered bin has a departure |
| PyApi.AppendRecords | py/vasttrafik_api.py:154-181 | the records of the rows, in order |
| PyApi.ProcessDepartures | py/vasttrafik_api.py:143-183 | the result is the view of the store |
| PyApi.GetStation | py/vasttrafik_api.py:50-72 | the view and queries of `After` at `Attempts` fetches, every fetch asking for the first date and time |
| PyApi.GetDepartures | py/vasttrafik_api.py:43-48 | the same, starting from today and the current "HH:MM" |
| PyApi.QueriesNeverAdvance | py/vasttrafik_api.py:60 | every query sent asks for the first date and time |
| PyApi.ViewRecords | py/vasttrafik_api.py:154-181 | one record per ordered bin, in order |
| PyApi.ViewFailsIff | py/vasttrafik_api.py:152 | the projection raises exactly when two or more bins are shown and one sname has no digit |
| PyApi.ViewOneRecordPerBin | py/vasttrafik_api.py:151-181 | as many records as bins not named "LOC", each from one of them, and each such bin has its record |
| PyApi.OrderedIsKept | py/vasttrafik_api.py:151-152 | the sorted bins are a permutation of the bins not named "LOC" |
| PyApi.ViewRecordsAreOfKept | py/vasttrafik_api.py:151-181 | as many records as bins not named "LOC", each built from one of them |
| PyApi.KeptBinsHaveRecords | py/vasttrafik_api.py:151-181 | every bin not named "LOC" has its record |
| PyApi.ViewOrderedByNumber | py/vasttrafik_api.py:152 | records come in non-decreasing order of the number in their sname |
| JsApi.JsRequest | js/vasttrafik_api.js:50-77 | the given date and time as the first cursor, followed later, with JavaScript arithmetic |
| JsApi.FirstFailure | js/vasttrafik_api.js:96-102 | the first failing fetch, every earlier one answered, or 6 when none fails |
| JsApi.ArrayLength | js/vasttrafik_api.js:111 | 0 when no property name is an array index; otherwise above every index |
| JsApi.AllBinsHaveAtleastTwoItems | js/vasttrafik_api.js:110-120 | false while the Array's length is 0; otherwise whether every bin holds two or more |
| JsApi.CommaKeyIsNotIndex | js/vasttrafik_api.js:125 | a name containing a comma is not an array index |
| JsApi.NeverComplete | js/vasttrafik_api.js:110-112 | for every store the chain builds the length is 0 and the check is false |
| JsApi.NumberLessIsStrictOrder | js/vasttrafik_api.js:14 | the number comparison is a strict order |
| JsApi.NumberLessIsNotWeak | js/vasttrafik_api.js:14 | with NaN it is not a weak order, so ties do not fix the result's order |
| JsApi.Ordered | js/vasttrafik_api.js:13-14 | a permutation of the bins not named "LOC" |
| JsApi.InsertionCountdowns | js/vasttrafik_api.js:33-41 | nextMin from the first inserted entry, nextNextMin from the second exactly when there is one, both at least 0 |
| JsApi.Record | js/vasttrafik_api.js:19-41 | the second word as the number, destination cut at " via ", fgColor copied, bgColor with the fallback, countdowns in insertion order |
| JsApi.AppendRecords | js/vasttrafik_api.js:16-45 | the records of the rows, in order |
| JsApi.ProcessDepartures | js/vasttrafik_api.js:6-48 | the result is the view of the store |
| JsApi.OutcomeMeaning | js/vasttrafik_api.js:57-102 | the chain delivers records exactly when no fetch fails; it sends one query per fetch up to and including the first failure (6 when none fails), each asking for the cursor after the fetches before it |
| JsApi.NeverCompleteAfter | js/vasttrafik_api.js:110-112 | after any number of fetches the completeness check is false |
| JsApi.AnsweredStep | js/vasttrafik_api.js:58-65 | an answered fetch places its departures and moves the cursor to the last one, and the store is still not complete |
| JsApi.FillBins | js/vasttrafik_api.js:57-75 | given the state after the fetches before and the answer to fetch k, returns the outcome of the chain from fetch k on |
| JsApi.Refetch | js/vasttrafik_api.js:67-71 | given the state after fetch k, returns the outcome of the chain from the re-fetch k+1 on |
| JsApi.GetStation | js/vasttrafik_api.js:50-78 | the records and queries are the outcome of the whole chain: nothing after a failed fetch; otherwise the view of the store after 6 fetches |
| JsApi.GetDepartures | js/vasttrafik_api.js:157-164 | the same, starting from the UTC date and "HH:MM" |
| JsApi.ViewRecords | js/vasttrafik_api.js:16-45 | one record per ordered bin, in order |
| JsApi.ViewOneRecordPerBin | js/vasttrafik_api.js:13-45 | as many records as bins not named "LOC", each from one of them, and each such bin has its record |
| JsApi.ViewRecordsAreOfKept | js/vasttrafik_api.js:13-45 | as many records as bins not named "LOC", each built from one of them |
| JsApi.KeptBinsHaveRecords | js/vasttrafik_api.js:13-45 | every bin not named "LOC" has its record |
| JsApi.ViewOrderedByNumber | js/vasttrafik_api.js:14 | when every shown bin's second word parses to a number, the records of the model's stable sort come in non-decreasing order of it |
| JsApi.TwoInOneBin | js/vasttrafik_api.js:132-139 | two journeys of one line and direction in the window share a bin in fetch order |
| JsApi.CountdownsCanDecrease | js/vasttrafik_api.js:38-41 | a bin fetched as 00:10 then 00:05 shows 10 and then 5 at midnight |

## Left out

- HTTP transport, XML and JSON deserialisation, OAuth tokens and the API key are not modelled. The board is the `Source` parameter, and a failure is `None`.
- The clock is one fixed `now` in whole seconds. The source re-reads it on every call and has sub-second precision.
- Floating-point minute arithmetic is replaced by integer seconds with each runtime's rounding rule.
- C# compares numbers with the culture-sensitive default comparer. The model uses ordinal order. The same holds for the destination cut (cs/VasttrafikApi.cs:37-38): C# tests with the ordinal `Contains(" via ")` but cuts at the culture-sensitive `IndexOf(" via ")`, and the two can disagree on text with ignorable characters (a soft hyphen inside " via "). Text.StripVia uses one ordinal search for both.
- The C# countdowns are strings (`ToString`). The model keeps them as integers.
- Times are modelled only in the two-digit "HH:MM" spelling (the `Departure` subset type). The sources also read other spellings such as "9:05", and JavaScript reads "24:00" as the next midnight; the model drops those, and text that is no time at all.
- A JSON board with a single departure object instead of a list is not modelled.
- The JavaScript chain's asynchronous callbacks are modelled as synchronous recursion: `FillBins` calls `Refetch`, which calls `FillBins` with the next answer. The closure variables are parameters. A failed request ends the chain silently, which the model shows as `None`.
- PyApi.Ordered: the Python comparator returns -1 for equal numbers and is no consistent order. The model uses a stable sort, so only the order between different numbers is claimed.
- JsApi.Ordered: the JavaScript comparator `parseInt(a) > parseInt(b) ? 1 : -1` never returns 0. It answers -1 in both directions for two bins with the same number (the two directions of one line, the normal case) and for a bin against itself, and `NaN` is incomparable to everything. So the comparator is not consistent even without a `NaN`, and ECMAScript leaves the order of the result implementation-defined. The model's stable sort by `NumberLess` is the order engines produce in practice, not one the language guarantees. With a `NaN` present, V8's TimSort can put even the numbered lines out of numeric order: keys 2, NaN, 1, 3 come out as 1, 3, NaN, 2, where the model gives 1, 2, NaN, 3.
- JsApi.ViewOrderedByNumber: claims numeric order only when no shown bin's number is `NaN`, and then only for the model's stable `NumberLess` sort. That is what engines produce in practice, not what ECMAScript guarantees for this comparator. With a `NaN` it promises nothing about the order.
- Text.ParseInt: models `parseInt` on decimal digits only. It does not model leading whitespace, a sign (so no negative results), the "0x" prefix that switches to base 16 ("0x1A" gives 26), or the loss of precision of very long numbers. The second word of a line name is split on spaces, and real line numbers are unsigned decimals. Its own contract states only when the result is `NaN`. The value is stated by Text.ParseIntOfDigits and Text.ParseIntOfDecimal.
- Text.SecondToken: its own contract states when the word exists and that it has no space. Where it sits in the name is stated by Text.SecondTokenAfterFirstSpace.
- Text.Digits: its own contract states what it keeps for one character. Order and multiplicity over longer strings are stated by Text.DigitsAppend.
- Display.Shown: its own contract states membership and a length bound. Order and multiplicity are stated by Display.ShownAppend and Display.ShownKeepsOrder.
- Display.Kept: its own contract states membership. The order of the bins is stated by Display.KeptInKeyOrder.
- Binning.Pairs: Python 2's `dict` enumerates in hash order, not insertion order. The model uses insertion order, which C#'s `Dictionary` (without removals) and JavaScript's `for-in` over non-index keys follow. For the Python variant only order-free facts are claimed: membership, permutation, and the non-decreasing numbers of the sorted result.
- Logging and the departure fields the engine never reads are left out.

## Findings

| source | as written | input that shows it | evidently intended | confidence | as-written member | corrected member |
|---|---|---|---|---|---|---|
| js/vasttrafik_api.js:110-112 | `departureBins` is an Array used as a dictionary, and its keys "name,direction" are not array indexes, so `departureBins.length` stays 0 and the check is always false | any board that answers: even when the first fetch fills every bin with two journeys, the chain fetches 6 times | stop as soon as every bin holds two departures, as the C# and Python loops do | not executed | JsApi.NeverComplete | Polling.AttemptsBounds |
| py/vasttrafik_api.py:60 | every fetch passes the original `date` and `time`; `last_date`/`last_time` are updated but never sent | a board whose first answer holds no departure in the window: all five fetches ask for the same time | ask for the advanced cursor, as the C# loop does | not executed | PyApi.QueriesNeverAdvance | Polling.QueryRule |
| js/vasttrafik_api.js:38 | the comparator given to the bin's `sort` returns nothing, so the bin keeps insertion order | a bin fetched as 00:10 then 00:05, at midnight, shows nextMin 10 and nextNextMin 5 | order the bin by minutes, as C# and Python do, so that nextMin <= nextNextMin | not executed | JsApi.CountdownsCanDecrease | Display.SortedCountdownsOrder |
