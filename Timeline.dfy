/** `extractEntries`: from the decoded location-history array to the list of
    dated entries, each with the points one item yields, sorted by date. */
module Timeline {
  import opened Wrappers
  import opened Geo
  import opened Format
  import opened Labels
  import opened Points
  import opened DateOrder
  import opened Sorting

  /** An entry of the result: a date and the points of one item. */
  type DayEntry = Entry<MapPoint>

  // ---------------------------------------------------------------------------
  // The decoded input

  /** `item.activity`: its `start` and `end` geo values and `topCandidate.type`. */
  datatype RawActivity = RawActivity(start: Option<Field>, end: Option<Field>, topType: Option<string>)

  /** `item.visit.topCandidate`: `placeLocation`, `name` and `address`. */
  datatype RawVisit = RawVisit(placeLocation: Option<Field>, name: Option<string>, address: Option<string>)

  /** One element of the input array. `None` stands for a missing, `null` or
      `undefined` member (and, for `activity` and `visit`, for any value whose
      members are all missing). */
  datatype RawItem = RawItem(
    startTime: Option<Stamp>,
    endTime: Option<Stamp>,
    activity: Option<RawActivity>,
    visit: Option<RawVisit>)

  /** The decoded JSON document: an array of items, or any other value. */
  datatype Document = Items(items: seq<RawItem>) | NotAnArray

  /** The label of an activity point whose type has no label. */
  const MovementLabel := "移動"

  // ---------------------------------------------------------------------------
  // One item

  /** `if (x?.field) { const coords = parseGeo(x.field); ... }`: the truthiness
      test in front changes nothing, since falsy values never parse. */
  function GeoOf(f: Option<Field>): (r: Option<(real, real)>)
    ensures f.None? ==> r.None?
    ensures f.Some? ==> r == ParseGeo(f.value)
  {
    if f.Some? && Truthy(f.value) then ParseGeo(f.value)
    else if f.Some? then FalsyGivesNoPoint(f.value); None
    else None
  }

  /** `startTime ?? endTime`: the end time only when the start time is missing. */
  function DateSource(item: RawItem): (r: Option<Stamp>)
    ensures item.startTime.Some? ==> r == item.startTime
    ensures item.startTime.None? ==> r == item.endTime
  {
    if item.startTime.Some? then item.startTime else item.endTime
  }

  /** The date of an item: its date source formatted as `YYYY-MM-DD`, when that
      source is a non-empty string. */
  function EntryDate(item: RawItem): (r: Option<string>)
    ensures r.Some? <==> DateSource(item).Some? && DateSource(item).value.text != ""
    ensures r.Some? ==> r.value != "" && r.value == DayText(DateSource(item).value.moment)
  {
    var source := DateSource(item);
    if source.Some? && source.value.text != "" then
      var day := DayText(source.value.moment);
      DayTextNonEmpty(source.value.moment);
      Some(day)
    else None
  }

  lemma DayTextNonEmpty(m: Moment)
    ensures DayText(m) != ""
  {
  }

  /** `act?.topCandidate?.type`. */
  function TypeOf(item: RawItem): Option<string> {
    if item.activity.Some? then item.activity.value.topType else None
  }

  /** `visit.topCandidate.name ?? visit.topCandidate.address`. */
  function VisitLabel(item: RawItem): (r: Option<string>)
    ensures item.visit.None? ==> r.None?
    ensures item.visit.Some? && item.visit.value.name.Some? ==> r == item.visit.value.name
    ensures item.visit.Some? && item.visit.value.name.None? ==> r == item.visit.value.address
  {
    if item.visit.Some? then
      if item.visit.value.name.Some? then item.visit.value.name else item.visit.value.address
    else None
  }

  /** `buildTimeInfo(startTime, endTime)`, shared by all points of the item. */
  function TimeOf(item: RawItem): TimeInfo {
    BuildTimeInfo(item.startTime, item.endTime)
  }

  function ActivityPoint(coords: (real, real), activityType: Option<string>, time: TimeInfo): MapPoint {
    MapPoint(Tuple(coords.0, coords.1), Activity,
             Some(ActivityLabel(activityType).GetOr(MovementLabel)), activityType, time)
  }

  function VisitPoint(coords: (real, real), visitLabel: Option<string>, time: TimeInfo): MapPoint {
    MapPoint(Tuple(coords.0, coords.1), Visit, visitLabel, None, time)
  }

  function StartGeo(item: RawItem): Option<(real, real)> {
    if item.activity.Some? then GeoOf(item.activity.value.start) else None
  }

  function EndGeo(item: RawItem): Option<(real, real)> {
    if item.activity.Some? then GeoOf(item.activity.value.end) else None
  }

  function VisitGeo(item: RawItem): Option<(real, real)> {
    if item.visit.Some? then GeoOf(item.visit.value.placeLocation) else None
  }

  /** The points pushed for the parsed start, end and place positions: an
      activity point for each of the first two, a visit point for the third. */
  function Assemble(start: Option<(real, real)>, end: Option<(real, real)>, place: Option<(real, real)>,
                    activityType: Option<string>, visitLabel: Option<string>, time: TimeInfo): (r: seq<MapPoint>)
    ensures |r| <= 3
  {
    (if start.Some? then [ActivityPoint(start.value, activityType, time)] else [])
    + (if end.Some? then [ActivityPoint(end.value, activityType, time)] else [])
    + (if place.Some? then [VisitPoint(place.value, visitLabel, time)] else [])
  }

  /** The points of one item, in the order they are pushed: the activity's
      start, its end, then the visit's place; each one present exactly when
      its geo value parses. */
  function PointsOf(item: RawItem): (r: seq<MapPoint>)
    ensures |r| <= 3
    ensures r == [] <==> StartGeo(item).None? && EndGeo(item).None? && VisitGeo(item).None?
  {
    Assemble(StartGeo(item), EndGeo(item), VisitGeo(item), TypeOf(item), VisitLabel(item), TimeOf(item))
  }

  /** The callback of `data.map` followed by the `filter`: an entry when the
      item has a date and at least one point. */
  function ItemEntry(item: RawItem): (r: Option<DayEntry>)
    ensures r.Some? <==> EntryDate(item).Some? && |PointsOf(item)| > 0
    ensures r.Some? ==> r.value.date == EntryDate(item).value && r.value.points == PointsOf(item)
  {
    var date := EntryDate(item);
    var points := PointsOf(item);
    if date.None? || date.value == "" || |points| == 0 then None
    else Some(Entry(date.value, points))
  }

  /** `points.push(...)` for each of the three sources in turn. */
  method BuildPoints(item: RawItem) returns (points: seq<MapPoint>)
    ensures points == PointsOf(item)
  {
    var activityType := TypeOf(item);
    var time := TimeOf(item);
    points := [];
    if item.activity.Some? && item.activity.value.start.Some? && Truthy(item.activity.value.start.value) {
      var coords := ParseGeo(item.activity.value.start.value);
      if coords.Some? {
        points := points + [ActivityPoint(coords.value, activityType, time)];
      }
    }
    ghost var afterStart := points;
    if item.activity.Some? && item.activity.value.end.Some? && Truthy(item.activity.value.end.value) {
      var coords := ParseGeo(item.activity.value.end.value);
      if coords.Some? {
        points := points + [ActivityPoint(coords.value, activityType, time)];
      }
    }
    ghost var afterEnd := points;
    if item.visit.Some? && item.visit.value.placeLocation.Some? && Truthy(item.visit.value.placeLocation.value) {
      var coords := ParseGeo(item.visit.value.placeLocation.value);
      if coords.Some? {
        points := points + [VisitPoint(coords.value, VisitLabel(item), time)];
      }
    }
    PushedInOrder(item, afterStart, afterEnd, points);
  }

  /** The three pushes, one source each, build `PointsOf`. */
  lemma PushedInOrder(item: RawItem, afterStart: seq<MapPoint>, afterEnd: seq<MapPoint>, points: seq<MapPoint>)
    requires StartGeo(item).Some? ==> afterStart == [ActivityPoint(StartGeo(item).value, TypeOf(item), TimeOf(item))]
    requires StartGeo(item).None? ==> afterStart == []
    requires EndGeo(item).Some? ==> afterEnd == afterStart + [ActivityPoint(EndGeo(item).value, TypeOf(item), TimeOf(item))]
    requires EndGeo(item).None? ==> afterEnd == afterStart
    requires VisitGeo(item).Some? ==> points == afterEnd + [VisitPoint(VisitGeo(item).value, VisitLabel(item), TimeOf(item))]
    requires VisitGeo(item).None? ==> points == afterEnd
    ensures points == PointsOf(item)
  {
  }

  /** The `map` callback and the `filter` for one item. */
  method ExtractItem(item: RawItem) returns (entry: Option<DayEntry>)
    ensures entry == ItemEntry(item)
  {
    var date := EntryDate(item);
    var points := BuildPoints(item);
    if date.None? || date.value == "" || |points| == 0 {
      entry := None;
    } else {
      entry := Some(Entry(date.value, points));
    }
  }

  // ---------------------------------------------------------------------------
  // Properties of one item

  function Count(b: bool): nat {
    if b then 1 else 0
  }

  /** Each source gives at most one point and is dropped on its own when it
      does not parse; there are as many activity points as parsed activity
      positions and as many visit points as parsed places. */
  lemma AssembleCounts(start: Option<(real, real)>, end: Option<(real, real)>, place: Option<(real, real)>,
                       activityType: Option<string>, visitLabel: Option<string>, time: TimeInfo)
    ensures var r := Assemble(start, end, place, activityType, visitLabel, time);
      |r| == Count(start.Some?) + Count(end.Some?) + Count(place.Some?)
      && CountKind(r, Activity) == Count(start.Some?) + Count(end.Some?)
      && CountKind(r, Visit) == Count(place.Some?)
  {
    var a := if start.Some? then [ActivityPoint(start.value, activityType, time)] else [];
    var b := if end.Some? then [ActivityPoint(end.value, activityType, time)] else [];
    var c := if place.Some? then [VisitPoint(place.value, visitLabel, time)] else [];
    CountKindAppend(a, b, Activity);
    CountKindAppend(a + b, c, Activity);
    CountKindAppend(a, b, Visit);
    CountKindAppend(a + b, c, Visit);
  }

  /** The activity points come first, the visit point last; the start point
      is the first point and the end point follows it (or is first when there
      is no start point). */
  lemma AssembleOrder(start: Option<(real, real)>, end: Option<(real, real)>, place: Option<(real, real)>,
                      activityType: Option<string>, visitLabel: Option<string>, time: TimeInfo)
    ensures var r := Assemble(start, end, place, activityType, visitLabel, time);
      (forall i, j | 0 <= i < j < |r| :: r[i].kind == Visit ==> r[j].kind == Visit)
      && (start.Some? ==> r[0] == ActivityPoint(start.value, activityType, time))
      && (end.Some? ==> r[Count(start.Some?)] == ActivityPoint(end.value, activityType, time))
      && (place.Some? ==> r[|r| - 1] == VisitPoint(place.value, visitLabel, time))
  {
  }

  /** Every point carries the shared time fields; activity points carry the
      type's label, or the movement label when it has none, and the raw type;
      the visit point carries the visit's label and no type. */
  lemma AssembleFields(start: Option<(real, real)>, end: Option<(real, real)>, place: Option<(real, real)>,
                       activityType: Option<string>, visitLabel: Option<string>, time: TimeInfo)
    ensures var r := Assemble(start, end, place, activityType, visitLabel, time);
      forall p | p in r ::
        p.time == time
        && (p.kind == Activity ==>
              p.labelText == Some(ActivityLabel(activityType).GetOr(MovementLabel)) && p.activityType == activityType)
        && (p.kind == Visit ==> p.labelText == visitLabel && p.activityType.None?)
  {
  }

  /** The points of an item: one per parsed source, activity points before
      the visit point, all with the item's time fields and their labels. */
  lemma PointsOfItem(item: RawItem)
    ensures var r := PointsOf(item);
      |r| == Count(StartGeo(item).Some?) + Count(EndGeo(item).Some?) + Count(VisitGeo(item).Some?)
      && CountKind(r, Visit) == Count(VisitGeo(item).Some?)
      && (forall i, j | 0 <= i < j < |r| :: r[i].kind == Visit ==> r[j].kind == Visit)
      && (forall p | p in r :: p.time == BuildTimeInfo(item.startTime, item.endTime))
      && (forall p | p in r && p.kind == Activity ::
            p.labelText == Some(ActivityLabel(TypeOf(item)).GetOr(MovementLabel)))
      && (forall p | p in r && p.kind == Visit :: p.labelText == VisitLabel(item))
  {
    AssembleCounts(StartGeo(item), EndGeo(item), VisitGeo(item), TypeOf(item), VisitLabel(item), TimeOf(item));
    AssembleOrder(StartGeo(item), EndGeo(item), VisitGeo(item), TypeOf(item), VisitLabel(item), TimeOf(item));
    AssembleFields(StartGeo(item), EndGeo(item), VisitGeo(item), TypeOf(item), VisitLabel(item), TimeOf(item));
  }

  /** An item with both an activity and a visit keeps all three points. */
  lemma ActivityAndVisit(item: RawItem)
    requires StartGeo(item).Some? && EndGeo(item).Some? && VisitGeo(item).Some?
    ensures |PointsOf(item)| == 3
    ensures PointsOf(item)[0].kind == Activity && PointsOf(item)[1].kind == Activity
    ensures PointsOf(item)[2].kind == Visit
  {
    AssembleThree(StartGeo(item).value, EndGeo(item).value, VisitGeo(item).value,
                  TypeOf(item), VisitLabel(item), TimeOf(item));
  }

  lemma AssembleThree(start: (real, real), end: (real, real), place: (real, real),
                      activityType: Option<string>, visitLabel: Option<string>, time: TimeInfo)
    ensures var r := Assemble(Some(start), Some(end), Some(place), activityType, visitLabel, time);
      |r| == 3 && r[0].kind == Activity && r[1].kind == Activity && r[2].kind == Visit
  {
  }

  /** The date comes from the start time whenever one is present, even when it
      is empty (so the item has no date) or not a valid date (so its date is
      "Invalid Date"); the end time is not consulted then. */
  lemma DateIgnoresEndWhenStartPresent(item: RawItem)
    requires item.startTime.Some?
    ensures item.startTime.value.text == "" ==> EntryDate(item).None?
    ensures item.startTime.value.text != "" && item.startTime.value.moment.Invalid? ==>
      EntryDate(item) == Some(InvalidDate)
  {
  }

  // ---------------------------------------------------------------------------
  // The kept entries

  /** `data.map(...).filter(...)`: the entries of the items that have one, in
      input order. */
  function Kept(items: seq<RawItem>): (r: seq<DayEntry>)
    ensures |r| <= |items|
  {
    if items == [] then []
    else
      var last := ItemEntry(items[|items| - 1]);
      Kept(items[..|items| - 1]) + (if last.Some? then [last.value] else [])
  }

  predicate ValidEntry(e: DayEntry) {
    e.date != "" && |e.points| > 0
  }

  /** Every kept entry has a date and points, and comes from some item. */
  lemma {:induction false} KeptValid(items: seq<RawItem>)
    ensures forall e | e in Kept(items) :: ValidEntry(e)
    ensures forall e | e in Kept(items) :: exists i | 0 <= i < |items| :: ItemEntry(items[i]) == Some(e)
  {
    if items != [] {
      var init := items[..|items| - 1];
      KeptValid(init);
      forall e | e in Kept(items)
        ensures ValidEntry(e) && exists i | 0 <= i < |items| :: ItemEntry(items[i]) == Some(e)
      {
        if e in Kept(init) {
          var i :| 0 <= i < |init| && ItemEntry(init[i]) == Some(e);
          assert items[i] == init[i];
        } else {
          assert ItemEntry(items[|items| - 1]) == Some(e);
        }
      }
    }
  }

  lemma {:induction false} KeptAppend(a: seq<RawItem>, b: seq<RawItem>)
    ensures Kept(a + b) == Kept(a) + Kept(b)
    decreases |b|
  {
    if b == [] {
      assert a + b == a;
    } else {
      var b0 := b[..|b| - 1];
      assert (a + b)[..|a + b| - 1] == a + b0;
      assert (a + b)[|a + b| - 1] == b[|b| - 1];
      KeptAppend(a, b0);
    }
  }

  // ---------------------------------------------------------------------------
  // extractEntries

  /** What `extractEntries` returns. */
  function Extract(doc: Document): (r: seq<DayEntry>)
    ensures doc.NotAnArray? ==> r == []
    ensures doc.Items? ==> multiset(r) == multiset(Kept(doc.items))
  {
    if doc.NotAnArray? then [] else SortByDate(Kept(doc.items))
  }

  /** The `map` over the items followed by the `filter`, collecting the
      entries one item at a time. */
  method CollectEntries(items: seq<RawItem>) returns (kept: seq<DayEntry>)
    ensures kept == Kept(items)
  {
    kept := [];
    var i := 0;
    while i < |items|
      invariant 0 <= i <= |items|
      invariant kept == Kept(items[..i])
    {
      var entry := ExtractItem(items[i]);
      KeptStep(items, i);
      if entry.Some? {
        kept := kept + [entry.value];
      }
      i := i + 1;
    }
    assert items[..|items|] == items;
  }

  lemma KeptStep(items: seq<RawItem>, i: nat)
    requires i < |items|
    ensures Kept(items[..i + 1]) == Kept(items[..i]) + (if ItemEntry(items[i]).Some? then [ItemEntry(items[i]).value] else [])
  {
    assert items[..i + 1][..i] == items[..i];
  }

  /** `extractEntries`: the entries collected from the items, copied into an
      array and sorted there. */
  method ExtractEntries(doc: Document) returns (entries: seq<DayEntry>)
    ensures entries == Extract(doc)
    ensures SortedByDate(entries)
    ensures forall e | e in entries :: ValidEntry(e)
    ensures doc.Items? ==> SameByDate(entries, Kept(doc.items))
  {
    if doc.NotAnArray? {
      return [];
    }
    var kept := CollectEntries(doc.items);
    var a := new DayEntry[|kept|](k requires 0 <= k < |kept| => kept[k]);
    assert a[..] == kept;
    SortByDateInPlace(a);
    entries := a[..];
    SortByDateCorrect(kept);
    SortedStableUnique(entries, SortByDate(kept));
    ExtractProperties(doc);
  }

  /** The properties of the returned list, stated on the function: sorted,
      entries with a date and points only, and a stable reordering of the
      kept entries. */
  lemma ExtractProperties(doc: Document)
    ensures SortedByDate(Extract(doc))
    ensures forall e | e in Extract(doc) :: ValidEntry(e)
    ensures doc.Items? ==> SameByDate(Extract(doc), Kept(doc.items))
  {
    if doc.Items? {
      SortByDateCorrect(Kept(doc.items));
      KeptValid(doc.items);
      forall e | e in Extract(doc)
        ensures ValidEntry(e)
      {
        assert e in multiset(Extract(doc));
      }
    }
  }
}
