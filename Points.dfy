/** The points shown on the map: their coordinates, `normalizePoint` and
    `areSamePoint`. */
module Points {
  import opened Wrappers
  import opened Format

  /** A Leaflet `LatLngExpression`: a `[lat, lng]` array, an object whose `lat`
      and `lng` may or may not be numbers (`None` for any other value), or
      anything else. */
  datatype Coords =
    | Tuple(first: real, second: real)
    | LatLng(lat: Option<real>, lng: Option<real>)
    | Other

  /** The `type` of a point. */
  datatype Kind = Visit | Activity

  /** A `MapPoint` as the extraction builds it: coordinates, kind, label, the
      raw activity type (activities only) and the item's time fields. */
  datatype MapPoint = MapPoint(
    coords: Coords,
    kind: Kind,
    labelText: Option<string>,
    activityType: Option<string>,
    time: TimeInfo)

  /** The number of points of one kind (`points.filter(p => p.type === k).length`). */
  function CountKind(points: seq<MapPoint>, k: Kind): (n: nat)
    ensures n <= |points|
    ensures n == 0 <==> forall p | p in points :: p.kind != k
    ensures n == |points| <==> forall p | p in points :: p.kind == k
  {
    if points == [] then 0
    else
      assert forall p | p in points :: p == points[0] || p in points[1..];
      (if points[0].kind == k then 1 else 0) + CountKind(points[1..], k)
  }

  lemma {:induction false} CountKindAppend(a: seq<MapPoint>, b: seq<MapPoint>, k: Kind)
    ensures CountKind(a + b, k) == CountKind(a, k) + CountKind(b, k)
    decreases |a|
  {
    if a == [] {
      assert a + b == b;
    } else {
      assert (a + b)[1..] == a[1..] + b;
      CountKindAppend(a[1..], b, k);
    }
  }

  /** Every point is a visit or an activity, so the two counts add up to all points. */
  lemma {:induction false} CountKindsTotal(points: seq<MapPoint>)
    ensures CountKind(points, Visit) + CountKind(points, Activity) == |points|
    decreases |points|
  {
    if points != [] {
      CountKindsTotal(points[1..]);
    }
  }

  /** The fallback position of `normalizePoint`. */
  const Origin: (real, real) := (0.0, 0.0)

  /** `normalizePoint`: the pair named by a coordinate value, `[0, 0]` when it
      names none. */
  function NormalizePoint(c: Coords): (r: (real, real))
    ensures c.Tuple? ==> r == (c.first, c.second)
    ensures c.LatLng? && c.lat.Some? && c.lng.Some? ==> r == (c.lat.value, c.lng.value)
    ensures !c.Tuple? && !(c.LatLng? && c.lat.Some? && c.lng.Some?) ==> r == Origin
  {
    match c
    case Tuple(a, b) => (a, b)
    case LatLng(lat, lng) => if lat.Some? && lng.Some? then (lat.value, lng.value) else Origin
    case Other => Origin
  }

  /** The array form and the object form of one position normalise alike,
      and normalising a normalised pair changes nothing. */
  lemma NormalizeAgrees(lat: real, lng: real, c: Coords)
    ensures NormalizePoint(Tuple(lat, lng)) == NormalizePoint(LatLng(Some(lat), Some(lng)))
    ensures var p := NormalizePoint(c); NormalizePoint(Tuple(p.0, p.1)) == p
  {
  }

  /** An object missing a numeric `lat` or `lng` falls back to the origin. */
  lemma NormalizeFallback(c: Coords)
    requires c.Other? || (c.LatLng? && (c.lat.None? || c.lng.None?))
    ensures NormalizePoint(c) == Origin
  {
  }

  /** The tolerance of `areSamePoint`, `1e-9`, read as an exact real. */
  const Tolerance: real := 0.000000001

  function Abs(x: real): (r: real)
    ensures r >= 0.0 && (r == x || r == -x)
  {
    if x < 0.0 then -x else x
  }

  /** `areSamePoint`: both coordinates closer than the tolerance. */
  predicate SamePoint(a: (real, real), b: (real, real))
    ensures SamePoint(a, b) <==>
      -Tolerance < a.0 - b.0 < Tolerance && -Tolerance < a.1 - b.1 < Tolerance
  {
    Abs(a.0 - b.0) < Tolerance && Abs(a.1 - b.1) < Tolerance
  }

  /** `areSamePoint` is reflexive and symmetric. */
  lemma SamePointReflexiveSymmetric(a: (real, real), b: (real, real))
    ensures SamePoint(a, a)
    ensures SamePoint(a, b) <==> SamePoint(b, a)
  {
    assert Abs(a.0 - b.0) == Abs(b.0 - a.0);
    assert Abs(a.1 - b.1) == Abs(b.1 - a.1);
  }

  /** `areSamePoint` is not transitive: closeness does not chain. */
  lemma SamePointNotTransitive()
    ensures var a, b, c := (0.0, 0.0), (0.0000000006, 0.0), (0.0000000012, 0.0);
      SamePoint(a, b) && SamePoint(b, c) && !SamePoint(a, c)
  {
  }
}
