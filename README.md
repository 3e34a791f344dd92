# googlemap-timeline: the timeline extraction, in Dafny

The application loads a Google Maps location-history export, a JSON array of
timeline items, and shows one day of it on a map. This project models the part
of `src/app/page.tsx` that turns the decoded JSON into day entries and what the
page derives from them:

- `extractEntries` builds up to three points for each item: the activity start,
  the activity end and the visit place.
- It dates each item from `startTime ?? endTime`.
- It drops items without a date or without points, and sorts the rest by date
  string with a stable comparator sort.
- `parseGeo` recognises `geo:<lat>,<lng>` with a case-insensitive, unanchored,
  greedy regular expression, then applies `parseFloat` to both captures. It is
  rejected when either capture is not a number.
- `buildTimeInfo` produces the time range text, the duration and its text.
  `formatDuration` prints whole minutes as hours and minutes.
- `activityLabelFromType` looks up the lower-cased activity type in a table of
  nine modes.
- `normalizePoint` and `areSamePoint` handle coordinates.
- The selection logic covers the points of the selected day, the visit and
  activity counts, the map centre, the focused point, the highlighted dates,
  and the date chosen after loading.

Modules, one file each:

- `Wrappers`: `Option`.
- `Digits`: digit strings and their values.
- `Geo`:
  - the regular expression as a leftmost, greedy match;
  - `parseFloat` on the capture alphabet;
  - `parseGeo`;
  - the print/parse round trip, and reading a numeral off the front of a
    longer text.
- `Format`:
  - instants as `dayjs` yields them;
  - the `HH:mm` and `YYYY-MM-DD` texts;
  - `formatDuration`, with a reader that inverts it;
  - `buildTimeInfo`.
- `Labels`: `activityLabelFromType`, intended and as written.
- `Points`: coordinates, `MapPoint`, `normalizePoint`, `areSamePoint`, counting
  by kind.
- `DateOrder`: JavaScript `<` on strings, and the entry comparator.
- `Sorting`:
  - the in-place stable sort of entries by date on an array;
  - the stable insertion sort as a function;
  - the proof that stable sorted orders agree.
- `Timeline`:
  - the input document;
  - each item's points and entry;
  - the kept entries;
  - `extractEntries` as a method.
- `Selection`: `filteredPoints`, the counts, `center`, the focused point,
  `availableDates`, and the first date.
- `Chronology`: on four-digit years, string order of day texts is calendar
  order, so the entry dates of items sort and match by calendar day.
- `Example`: the document with one visit item.

`extractEntries` is imperative in the source. `Timeline.BuildPoints` pushes the
points one at a time. `Timeline.CollectEntries` loops over the items.
`Timeline.ExtractEntries` copies the kept entries into an array, and
`Sorting.SortByDateInPlace` sorts that array in place with adjacent swaps. JavaScript's
`Array.prototype.sort` is stable, and `Sorting.SortedStableUnique` shows that
every stable sort produces the same sequence, so the choice of algorithm does
not matter.

Two behaviours of the code are easy to misread; the model follows the code in
both:

- Entries that share a date are not merged into one group. Each kept item stays
  its own entry, and entries of one date keep their input order.
  `filteredPoints` concatenates the points of all entries of the selected day.
- The date comes from `startTime ?? endTime`. A `startTime` that is present but
  empty gives no date; it does not fall back to `endTime`. A `startTime` that
  `dayjs` cannot read gives the date `Invalid Date`; it does not fall back
  either (`Timeline.DateIgnoresEndWhenStartPresent`).

## Model

| member | source | states |
|---|---|---|
| Geo.FindMatch | src/app/page.tsx:372 | a match found from index i starts at or after i, is `geo:` in any case, a run of `[0-9.+-]`, a comma and a run of `[0-9.+-]`, and its second run cannot be extended |
| Geo.FindMatchLeftmost | src/app/page.tsx:372 | no occurrence of the pattern starts before the match found; when none is found, no occurrence exists at or after i |
| Geo.MatchAtComplete | src/app/page.tsx:372 | wherever the pattern occurs, a match starts there, and its first run ends at the comma of that occurrence (greedy runs) |
| Geo.ScanNumber | src/app/page.tsx:374-375 | `parseFloat` finds no number exactly when the text does not start with an optional sign and then a digit, or a point and a digit; the numeral read has digit-only parts |
| Geo.ParseNumber | src/app/page.tsx:374-376 | the result is NaN (none) exactly when the text has no numeric prefix |
| Geo.ParseGeo | src/app/page.tsx:370-371 | a value that is not a string gives no point |
| Geo.ParseGeoText | src/app/page.tsx:372-377 | a point is returned only when the string contains an occurrence of the pattern |
| Geo.NoMatchNoPoint | src/app/page.tsx:372-373 | a string with no occurrence of the pattern gives no point |
| Geo.ParseGeoTextCharacterized | src/app/page.tsx:372-377 | a point is returned exactly when there is a match and both of its captures start with a number |
| Geo.FalsyGivesNoPoint | src/app/page.tsx:325-326 | a falsy present value (the empty string, or a falsy non-string such as `0` or `false`) gives no point, so testing truthiness before `parseGeo` changes nothing |
| Geo.FractionIsRatio | src/app/page.tsx:374-375 | the fraction digits denote their integer value over 10 to the number of digits |
| Geo.ScanShow | src/app/page.tsx:374-375 | reading a printed decimal numeral gives back that numeral |
| Geo.ParseShow | src/app/page.tsx:374-375 | `parseFloat` of a printed decimal numeral is its value |
| Geo.ScanUnsignedPrefix | src/app/page.tsx:374-375 | digits with or without a point, followed by text that does not start with a digit (nor, after a pointless numeral, with a point and a digit), read back as exactly those digits |
| Geo.ParsePrefix | src/app/page.tsx:374-375 | `parseFloat` of a numeral followed by text that cannot continue it is the numeral's value, with or without a leading `+` on a non-negative numeral; a leading point (`.5`) and a trailing bare point (`5.`) are read |
| Geo.ParseGeoShow | src/app/page.tsx:370-377 | `geo:` + printed latitude + `,` + printed longitude parses to exactly that pair |
| Digits.NatToString | src/app/page.tsx:436-438 | the decimal rendering has no leading zero and reads back to the number |
| Format.Pad2 | src/app/page.tsx:410-411 | two digits that read back to the number |
| Format.YearText | src/app/page.tsx:321 | the `YYYY` digits read back to the year, and there are four of them below 10000 |
| Format.ClockText | src/app/page.tsx:410-411 | `HH:mm` has five characters with `:` in the middle, and an invalid date prints `Invalid Date` |
| Format.ClockTextFields | src/app/page.tsx:410-411 | the two fields of `HH:mm` read back to the hour and the minute |
| Format.DayText | src/app/page.tsx:320-322 | `YYYY-MM-DD` has ten characters with dashes at 4 and 7, and an invalid date prints `Invalid Date` |
| Format.DayTextFields | src/app/page.tsx:320-322 | the three fields of `YYYY-MM-DD` read back to year, month and day |
| Format.FormatDuration | src/app/page.tsx:431-433 | the text is `1分未満` exactly when the whole minutes are not positive |
| Format.HoursAndMinutes | src/app/page.tsx:434-438 | a positive number of minutes never prints as `1分未満` |
| Format.ReadHoursAndMinutes | src/app/page.tsx:434-438 | the text for a positive number of minutes reads back to that number |
| Format.DurationShape | src/app/page.tsx:434-438 | the text for a positive number of minutes shows at least one part, never a zero part, minutes below 60, and hours × 60 + minutes is the total |
| Format.ReadFormatDuration | src/app/page.tsx:431-439 | the duration text reads back to `floor(ms / 60000)`, and to 0 below a minute |
| Format.FormatDurationByMinutes | src/app/page.tsx:432 | durations with the same whole minutes print the same text |
| Format.Parsed | src/app/page.tsx:405-406 | a timestamp is parsed exactly when it is present and non-empty |
| Format.BuildTimeInfo | src/app/page.tsx:404-429 | start and end texts pass through; the range is present iff the start is valid; the duration is present iff both are valid, and is then non-negative and at least end − start; the duration text is present iff the duration is |
| Format.TimeRangeShape | src/app/page.tsx:408-413 | the range starts with the start clock; it carries ` - ` and the end clock exactly when the end is valid, and otherwise is the start clock alone |
| Format.DurationMeaning | src/app/page.tsx:415-420 | the duration is max(end − start, 0), and its text reads back to its whole minutes |
| Labels.Lower | src/app/page.tsx:443 | lowering keeps the length and maps each character |
| Labels.LowerIdempotent | src/app/page.tsx:443 | lowering twice is lowering once |
| Labels.ActivityLabel | src/app/page.tsx:441-456 | no label exactly for a missing or empty type; the table label when the lower-cased type is a key; otherwise the type unchanged |
| Labels.ActivityLabelNonEmpty | src/app/page.tsx:444-455 | a present label is never empty |
| Labels.ActivityLabelIgnoresCase | src/app/page.tsx:443-455 | spellings of a mode that differ only in case get the same label |
| Labels.ActivityLabelOfKey | src/app/page.tsx:443-455 | every casing of a table key gets that key's label |
| Labels.ActivityLabelExamples | src/app/page.tsx:444-455 | `WALKING` is 徒歩, `In Passenger Vehicle` is 車, and `skiing` stays `skiing` |
| Labels.ActivityLabelAsWritten | src/app/page.tsx:441-456 | as written: no label exactly for a missing or empty type |
| Labels.AsWrittenAgrees | src/app/page.tsx:441-456 | the code as written and the intended lookup agree on every type whose lower case is not an inherited member name |
| Labels.AsWrittenConstructor | src/app/page.tsx:455 | the type `Constructor` gets the inherited `constructor` function as its label, where the type itself was intended |
| DateOrder.BelowTransitive | src/app/page.tsx:365 | string `<` is transitive |
| DateOrder.BelowTotal | src/app/page.tsx:365 | two different strings are ordered one way or the other |
| DateOrder.BelowFirstDifference | src/app/page.tsx:365 | string `<` holds exactly when the first string is a proper prefix of the second or has the smaller character where they first differ |
| DateOrder.Compare | src/app/page.tsx:365 | the comparator is 0, negative or positive exactly when the dates are equal, below or above |
| DateOrder.CompareAntisymmetric | src/app/page.tsx:365 | swapping the arguments negates the comparator |
| Points.NormalizePoint | src/app/page.tsx:380-392 | a tuple gives itself, `{lat, lng}` with numbers gives `[lat, lng]`, and anything else gives `[0, 0]` |
| Points.NormalizeAgrees | src/app/page.tsx:380-392 | both shapes of one position normalise alike, and normalising is idempotent |
| Points.NormalizeFallback | src/app/page.tsx:391 | a value that is neither shape, or lacks a numeric field, gives `[0, 0]` |
| Points.SamePoint | src/app/page.tsx:394-402 | two points are the same exactly when each coordinate differs by less than 1e-9 either way |
| Points.SamePointReflexiveSymmetric | src/app/page.tsx:394-402 | every point is the same as itself, and sameness is symmetric |
| Points.SamePointNotTransitive | src/app/page.tsx:394-402 | the 1e-9 tolerance does not make sameness transitive |
| Points.CountKind | src/app/page.tsx:66-69 | the count of one kind is at most the number of points, zero exactly when no point has that kind, and all of them exactly when every point has it |
| Points.CountKindsTotal | src/app/page.tsx:65-71 | visits and activities together are all the points |
| Sorting.WithDate | src/app/page.tsx:365 | the entries of one date are entries of the sequence with that date |
| Sorting.SwapByDate | src/app/page.tsx:365 | swapping two neighbours of different dates keeps each date's entries in order |
| Sorting.InsertStep | src/app/page.tsx:365 | one swap of the inner loop keeps the insertion invariant and each date's order |
| Sorting.SortByDateInPlace | src/app/page.tsx:365 | the array ends sorted by date and is a permutation of what it held, with each date's entries in their old order (stable) |
| Sorting.Insert | src/app/page.tsx:365 | inserting adds exactly the one entry |
| Sorting.SortByDate | src/app/page.tsx:365 | the stable insertion sort is a permutation of its input |
| Sorting.InsertSorted | src/app/page.tsx:365 | inserting into a sorted sequence keeps it sorted |
| Sorting.InsertByDate | src/app/page.tsx:365 | insertion puts the new entry before all entries of its own date |
| Sorting.SortByDateCorrect | src/app/page.tsx:365 | the functional sort is sorted and stable |
| Sorting.SortedFirstIsLeast | src/app/page.tsx:365 | in a sorted sequence no date is below the first |
| Sorting.SortedStableUnique | src/app/page.tsx:365 | two sorted sequences whose entries of each date agree in order are equal, so every stable sort gives one result |
| Timeline.GeoOf | src/app/page.tsx:325-327 | an absent field gives no position; a present one gives what `parseGeo` gives |
| Timeline.DateSource | src/app/page.tsx:319 | `startTime ?? endTime`: the start time whenever it is present, the end time otherwise |
| Timeline.EntryDate | src/app/page.tsx:319-322 | there is a date exactly when `startTime ?? endTime` is a non-empty string; the date is never empty and is the `YYYY-MM-DD` text of that source's instant |
| Timeline.DateIgnoresEndWhenStartPresent | src/app/page.tsx:319-322 | with a start time present, an empty one gives no date, and an unreadable one gives `Invalid Date`, never the end's day |
| Timeline.VisitLabel | src/app/page.tsx:352 | `name ?? address`: the name when present, the address otherwise, and nothing without a visit |
| Timeline.Assemble | src/app/page.tsx:325-357 | at most three points |
| Timeline.PointsOf | src/app/page.tsx:325-357 | at most three points, and none exactly when no start, end or place parses |
| Timeline.AssembleCounts | src/app/page.tsx:325-357 | one point per parsed source; the start and end points are activities and the place point is a visit |
| Timeline.AssembleOrder | src/app/page.tsx:325-357 | activity points come before the visit point; the start point comes first, the end point next (first when there is no start), the place point last, each with its own coordinates |
| Timeline.AssembleFields | src/app/page.tsx:328-355 | every point has the item's time fields; activity points are labelled `activityLabel ?? 移動` and carry the raw type; the visit point has the visit's label and no type |
| Timeline.AssembleThree | src/app/page.tsx:325-357 | all three sources parsed give activity, activity, visit |
| Timeline.PointsOfItem | src/app/page.tsx:316-357 | an item's points: one per parsed source, in order, sharing the item's `buildTimeInfo`, activities labelled from the type and the visit labelled `name ?? address` |
| Timeline.ActivityAndVisit | src/app/page.tsx:325-357 | an item with both an activity and a visit keeps all three points |
| Timeline.BuildPoints | src/app/page.tsx:318-357 | the pushes produce exactly the item's points |
| Timeline.PushedInOrder | src/app/page.tsx:325-357 | the three conditional pushes, in order, give the item's points |
| Timeline.ItemEntry | src/app/page.tsx:359-360 | an item gives an entry exactly when it has a date and points, and the entry holds them |
| Timeline.ExtractItem | src/app/page.tsx:311-360 | the item callback returns the item's entry |
| Timeline.Kept | src/app/page.tsx:310-362 | no more entries than items |
| Timeline.KeptValid | src/app/page.tsx:359-362 | every kept entry has a non-empty date and points, and comes from some input item |
| Timeline.KeptAppend | src/app/page.tsx:310-362 | keeping works item by item, so splitting the input splits the output |
| Timeline.CollectEntries | src/app/page.tsx:310-362 | the map-and-filter loop returns the kept entries in input order |
| Timeline.Extract | src/app/page.tsx:307-368 | a non-array gives no entries; otherwise the entries are a permutation of the kept ones |
| Timeline.ExtractEntries | src/app/page.tsx:307-368 | the result is the specification's, sorted by date, every entry with a date and points, and each date's entries in input order |
| Timeline.ExtractProperties | src/app/page.tsx:359-365 | the extracted entries are sorted, all valid, and stably ordered relative to the kept ones |
| Selection.FlattenAppend | src/app/page.tsx:62 | flattening distributes over concatenation |
| Selection.PointsOn | src/app/page.tsx:60-62 | the one-pass filter and flatten equals flattening the entries of that date |
| Selection.FilteredPoints | src/app/page.tsx:57-63 | no points without a selected day; otherwise the in-order points of exactly the entries of that day |
| Selection.PointsOnMembers | src/app/page.tsx:60-62 | a point is shown for a day exactly when some entry of that day holds it |
| Selection.PointsOnAppend | src/app/page.tsx:60-62 | the day view of a concatenation is the concatenation of the day views |
| Selection.KeptDayPoints | src/app/page.tsx:57-63 | the day view of the kept entries is the points of that day's items in input order |
| Selection.DayViewOfExtract | src/app/page.tsx:57-63 | sorting leaves each day's view as it was: the points of the input items of that day, in input order |
| Selection.VisitCount | src/app/page.tsx:66 | at most the points shown; zero exactly when all are activities, all exactly when all are visits |
| Selection.ActivityCount | src/app/page.tsx:67-69 | at most the points shown; zero exactly when all are visits, all exactly when all are activities |
| Selection.CountsAddUp | src/app/page.tsx:65-71 | the visit count and the activity count add up to the number of points shown |
| Selection.Center | src/app/page.tsx:73-77 | the first point normalised, or (35.68, 139.76) when there is none |
| Selection.FocusPoint | src/app/page.tsx:79-86 | a focus exactly when there are points, and it is the map centre |
| Selection.CenterOfDay | src/app/page.tsx:73-77 | on extracted data the centre is the first point of that day's first item with points |
| Selection.AvailableDates | src/app/page.tsx:30-33 | the dates of exactly the entries |
| Selection.AvailableIffPoints | src/app/page.tsx:30-38 | on valid entries a day is highlighted exactly when selecting it shows points |
| Selection.FirstDate | src/app/page.tsx:110 | the first non-empty date, which some entry has; none exactly when every date is empty |
| Selection.FirstDateIsEarliest | src/app/page.tsx:108-111 | after a load, a date is picked exactly when some entry was extracted, and no extracted date is below it |
| Chronology.DigitsBelow | src/app/page.tsx:365 | on digit strings of one length, string order is numeric order |
| Chronology.DayTextOrder | src/app/page.tsx:365 | for years of four digits, one day text is below another exactly when its day is earlier in the calendar |
| Chronology.DayTextSame | src/app/page.tsx:59-61 | for years of four digits, two moments have the same day text exactly when they fall on the same calendar day |
| Chronology.EntryDateInvalid | src/app/page.tsx:319-322 | a non-empty date source that `dayjs` cannot read dates the item `Invalid Date` |
| Chronology.EntryDateFields | src/app/page.tsx:319-322 | a readable date source with a four-digit year dates the item `YYYY-MM-DD` with that source's own year, month and day |
| Chronology.EntryDateSameDay | src/app/page.tsx:319-322 | two items with readable date sources share a date exactly when their sources fall on the same calendar day |
| Chronology.EntryDateOrder | src/app/page.tsx:365 | the comparator puts the item of the earlier calendar day first |
| Example.PlaceParses | src/app/page.tsx:370-377 | `geo:35.0,139.0` parses to (35.0, 139.0) |
| Example.StopsAtSecondPoint | src/app/page.tsx:374-375 | `parseFloat("1.2.3")` is 1.2 |
| Example.ReadsPlusAndPoint | src/app/page.tsx:374-375 | `parseFloat("+.5")` is 0.5 |
| Example.IgnoresBarePoint | src/app/page.tsx:374-375 | `parseFloat("-3.")` is -3 |
| Example.StopsAtSign | src/app/page.tsx:374-375 | `parseFloat("7-1")` is 7 |
| Example.SingleVisitDocument | src/app/page.tsx:307-368 | one visit item dated 1 May 2024 at `geo:35.0,139.0` named `Home` gives exactly the entry `2024-05-01` holding that one visit point labelled `Home` |

## Left out

- Parsing timestamps with `dayjs`, and local time zones. A timestamp is given
  as its text together with what `dayjs` reads from it: invalid, or an instant
  with its local calendar day and clock. `format` of an invalid date prints
  `Invalid Date`. Nothing checks that the calendar fields and the instant agree.
- A year above 9999 prints with all its digits; years are `nat`, so negative
  years are not modelled. `Chronology` speaks only of four-digit years.
- Floating point. Coordinates and parsed numbers are exact reals. JavaScript's
  `-0` equals 0 here. `areSamePoint`'s `1e-9` is an exact tolerance.
  `parseFloat` is modelled on the characters the regular expression can capture
  (`[0-9.+-]`); exponents, `Infinity` and whitespace cannot occur there.
- String `<` compares characters as code points. JavaScript compares UTF-16
  code units. The two orders differ only above U+FFFF, and dates are ASCII.
- Labels.Lower: `toLowerCase` is modelled on ASCII capitals and the Kelvin sign
  only. These are the only characters whose lower case can turn a string into
  one of the ASCII table keys or out of one. Other characters keep their case.
- The JSON input is a datatype. Item fields that are absent, `null` or
  `undefined` are `None` alike. An `activity`, `visit` or `topCandidate` that is
  not an object reads as absent. A `placeLocation` or `start` that is not a
  string is `NonText`, with its truthiness. `startTime`, `endTime`,
  `topCandidate.type`, `name` and `address` are taken to be strings when
  present. The code does not check this, and other values are not modelled:
  `dayjs` would read a number time as milliseconds since the epoch and might
  read other values too; a truthy non-string type would throw in
  `toLowerCase`; a non-string name or address would become the label.
- Timeline.ActivityPoint labels activity points with the corrected
  Labels.ActivityLabel, so for the types `constructor` and `__proto__` (in any
  casing) its label is the type itself, where page.tsx:316 and page.tsx:331
  would give the inherited member (see Findings).
- The React component: state, effects, the date picker and its
  `HighlightedDay` styling, the date and point-count labels, the point list, and
  `focusOnPoint`. The selection logic is modelled as functions of the entries
  and the selected day.
- In `handleFile`, reading the file with `FileReader`, `JSON.parse`, the status
  messages, and the `dayjs(firstDate)` that turns the picked date back into a
  selected day.
- `src/app/LeafletMap.tsx` (map markers, polyline, animation) and
  `src/app/layout.tsx` are not part of this model.

## Findings

| source | as written | input that shows it | evidently intended | confidence | as-written member | corrected member |
|---|---|---|---|---|---|---|
| src/app/page.tsx:444-455 | `map[key] ?? raw` looks the lower-cased type up on a plain object literal, so inherited members (`constructor`, `__proto__`) are found too, and `??` keeps them | activity type `Constructor` (any casing of `constructor` or `__proto__`) | a type that is not a table key is shown unchanged (`Constructor`) | not executed | Labels.ActivityLabelAsWritten, Labels.AsWrittenConstructor | Labels.ActivityLabel |
