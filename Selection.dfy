/** What the page derives from the extracted entries for the selected day:
    the points shown (`filteredPoints`), the visit and activity counts, the
    map centre, the focused point, the highlighted dates and the date picked
    after loading. */
module Selection {
  import opened Wrappers
  import opened Format
  import opened Points
  import opened DateOrder
  import opened Sorting
  import opened Timeline

  /** `flatMap((e) => e.points)`. */
  function Flatten(es: seq<DayEntry>): seq<MapPoint> {
    if es == [] then [] else es[0].points + Flatten(es[1..])
  }

  lemma {:induction false} FlattenAppend(a: seq<DayEntry>, b: seq<DayEntry>)
    ensures Flatten(a + b) == Flatten(a) + Flatten(b)
    decreases |a|
  {
    if a == [] {
      assert a + b == b;
    } else {
      assert (a + b)[1..] == a[1..] + b;
      FlattenAppend(a[1..], b);
    }
  }

  /** `entries.filter((e) => e.date === day).flatMap((e) => e.points)`, in one
      pass: the points of the entries of that day, in entry order. */
  function PointsOn(entries: seq<DayEntry>, day: string): (r: seq<MapPoint>)
    ensures r == Flatten(WithDate(entries, day))
  {
    if entries == [] then []
    else
      var head := if entries[0].date == day then [entries[0]] else [];
      FlattenAppend(head, WithDate(entries[1..], day));
      assert Flatten(head) == (if entries[0].date == day then entries[0].points else []) by {
        if head != [] {
          assert head[1..] == [];
        }
      }
      (if entries[0].date == day then entries[0].points else []) + PointsOn(entries[1..], day)
  }

  /** `filteredPoints`: nothing without a selected date, otherwise the points
      of the entries whose date is the selected day's `YYYY-MM-DD`. */
  function FilteredPoints(entries: seq<DayEntry>, selected: Option<Moment>): (r: seq<MapPoint>)
    ensures selected.None? ==> r == []
    ensures selected.Some? ==> r == Flatten(WithDate(entries, DayText(selected.value)))
  {
    if selected.None? then [] else PointsOn(entries, DayText(selected.value))
  }

  /** A point is shown for a day exactly when some entry of that day has it. */
  lemma {:induction false} PointsOnMembers(entries: seq<DayEntry>, day: string, p: MapPoint)
    ensures p in PointsOn(entries, day) <==> exists e | e in entries :: e.date == day && p in e.points
    decreases |entries|
  {
    if entries != [] {
      PointsOnMembers(entries[1..], day, p);
      if p in PointsOn(entries[1..], day) {
        var e :| e in entries[1..] && e.date == day && p in e.points;
        assert e in entries;
      }
      if exists e | e in entries :: e.date == day && p in e.points {
        var e :| e in entries && e.date == day && p in e.points;
        if e != entries[0] {
          assert e in entries[1..];
        }
      }
    }
  }

  lemma PointsOnAppend(a: seq<DayEntry>, b: seq<DayEntry>, day: string)
    ensures PointsOn(a + b, day) == PointsOn(a, day) + PointsOn(b, day)
  {
    WithDateAppend(a, b, day);
    FlattenAppend(WithDate(a, day), WithDate(b, day));
  }

  // ---------------------------------------------------------------------------
  // The day view of the extracted entries

  /** The points of the input items dated `day`, item by item in input order. */
  function DayPoints(items: seq<RawItem>, day: string): seq<MapPoint> {
    if items == [] then []
    else
      var last := items[|items| - 1];
      DayPoints(items[..|items| - 1], day) + (if EntryDate(last) == Some(day) then PointsOf(last) else [])
  }

  /** What one item adds to the day view. */
  lemma ItemDayPoints(item: RawItem, day: string)
    ensures PointsOn(if ItemEntry(item).Some? then [ItemEntry(item).value] else [], day)
      == (if EntryDate(item) == Some(day) then PointsOf(item) else [])
  {
    var tail := if ItemEntry(item).Some? then [ItemEntry(item).value] else [];
    if ItemEntry(item).Some? {
      assert tail[1..] == [];
    }
  }

  lemma {:induction false} KeptDayPoints(items: seq<RawItem>, day: string)
    ensures PointsOn(Kept(items), day) == DayPoints(items, day)
    decreases |items|
  {
    if items != [] {
      var init, last := items[..|items| - 1], items[|items| - 1];
      var tail := if ItemEntry(last).Some? then [ItemEntry(last).value] else [];
      assert Kept(items) == Kept(init) + tail;
      KeptDayPoints(init, day);
      PointsOnAppend(Kept(init), tail, day);
      ItemDayPoints(last, day);
    }
  }

  /** Sorting leaves the day view as it was: the points shown for a day are
      those of the input items of that day, in input order. */
  lemma DayViewOfExtract(doc: Document, day: string)
    requires doc.Items?
    ensures PointsOn(Extract(doc), day) == DayPoints(doc.items, day)
  {
    ExtractProperties(doc);
    assert WithDate(Extract(doc), day) == WithDate(Kept(doc.items), day);
    KeptDayPoints(doc.items, day);
  }

  // ---------------------------------------------------------------------------
  // Counts, centre and focus

  /** `visitCount`: no more than the points shown; none exactly when every
      point is an activity, all exactly when none is. */
  function VisitCount(points: seq<MapPoint>): (r: nat)
    ensures r <= |points|
    ensures r == 0 <==> forall p | p in points :: p.kind == Activity
    ensures r == |points| <==> forall p | p in points :: p.kind == Visit
  {
    CountKind(points, Visit)
  }

  /** `activityCount`, likewise for activities. */
  function ActivityCount(points: seq<MapPoint>): (r: nat)
    ensures r <= |points|
    ensures r == 0 <==> forall p | p in points :: p.kind == Visit
    ensures r == |points| <==> forall p | p in points :: p.kind == Activity
  {
    CountKind(points, Activity)
  }

  /** The two counts shown add up to the number of points. */
  lemma CountsAddUp(points: seq<MapPoint>)
    ensures VisitCount(points) + ActivityCount(points) == |points|
  {
    CountKindsTotal(points);
  }

  /** The map centre used when there is no point: Tokyo. */
  const DefaultCenter: (real, real) := (35.68, 139.76)

  /** `center`: the first point, normalised, or the default centre. */
  function Center(points: seq<MapPoint>): (r: (real, real))
    ensures points != [] ==> r == NormalizePoint(points[0].coords)
    ensures points == [] ==> r == DefaultCenter
  {
    if |points| > 0 then NormalizePoint(points[0].coords) else DefaultCenter
  }

  /** The point focused when the filtered points change: the first one, or none. */
  function FocusPoint(points: seq<MapPoint>): (r: Option<(real, real)>)
    ensures r.Some? <==> points != []
    ensures r.Some? ==> r.value == Center(points)
  {
    if |points| > 0 then Some(NormalizePoint(points[0].coords))
    else None
  }

  /** The centre of a day of extracted data is the first point of the first
      input item of that day that has points. */
  lemma CenterOfDay(doc: Document, day: string)
    requires doc.Items? && DayPoints(doc.items, day) != []
    ensures Center(PointsOn(Extract(doc), day)) == NormalizePoint(DayPoints(doc.items, day)[0].coords)
  {
    DayViewOfExtract(doc, day);
  }

  // ---------------------------------------------------------------------------
  // Dates

  /** `availableDates`: the set of entry dates. */
  function AvailableDates(entries: seq<DayEntry>): (r: set<string>)
    ensures forall e | e in entries :: e.date in r
    ensures forall d | d in r :: exists e | e in entries :: e.date == d
  {
    set e | e in entries :: e.date
  }

  /** A date is highlighted exactly when choosing it shows points. */
  lemma AvailableIffPoints(entries: seq<DayEntry>, day: string)
    requires forall e | e in entries :: ValidEntry(e)
    ensures day in AvailableDates(entries) <==> PointsOn(entries, day) != []
  {
    if day in AvailableDates(entries) {
      var e :| e in entries && e.date == day;
      var p := e.points[0];
      PointsOnMembers(entries, day, p);
    }
    if PointsOn(entries, day) != [] {
      PointsOnMembers(entries, day, PointsOn(entries, day)[0]);
    }
  }

  /** `extracted.find((e) => e.date)?.date`: the first non-empty date. */
  function FirstDate(entries: seq<DayEntry>): (r: Option<string>)
    ensures r.Some? ==> r.value != "" && exists e | e in entries :: e.date == r.value
    ensures r.None? ==> forall e | e in entries :: e.date == ""
  {
    if entries == [] then None
    else if entries[0].date != "" then Some(entries[0].date)
    else
      var r := FirstDate(entries[1..]);
      assert forall e | e in entries[1..] :: e in entries;
      r
  }

  /** After loading, the date picked is the earliest date of the data, and
      there is one exactly when some entry was extracted. */
  lemma FirstDateIsEarliest(doc: Document)
    ensures FirstDate(Extract(doc)).Some? <==> Extract(doc) != []
    ensures FirstDate(Extract(doc)).Some? ==>
      forall e | e in Extract(doc) :: NotBelow(e.date, FirstDate(Extract(doc)).value)
  {
    var es := Extract(doc);
    ExtractProperties(doc);
    if es != [] {
      assert ValidEntry(es[0]);
      forall e | e in es
        ensures NotBelow(e.date, es[0].date)
      {
        var k :| 0 <= k < |es| && es[k] == e;
        SortedFirstIsLeast(es, k);
      }
    }
  }
}
