/** Geo extraction: `parseGeo`, which reads a coordinate pair out of a
    `geo:<lat>,<lng>` string with the pattern `/geo:([0-9.+-]+),([0-9.+-]+)/i`
    and converts both captures the way `parseFloat` does. */
module Geo {
  import opened Wrappers
  import opened Digits

  /** A JSON value where a geo string is expected: a string, or any other
      value (number, object, boolean, null), with its JavaScript truthiness. */
  datatype Field = Text(s: string) | NonText(truthy: bool)

  predicate Truthy(f: Field) {
    match f
    case Text(s) => s != ""
    case NonText(t) => t
  }

  // ---------------------------------------------------------------------------
  // The regular expression

  /** The character class `[0-9.+-]`. */
  predicate IsGeoChar(c: char) {
    IsDigit(c) || c == '.' || c == '+' || c == '-'
  }

  predicate AllGeoChars(s: string) {
    forall i | 0 <= i < |s| :: IsGeoChar(s[i])
  }

  /** The literal `geo:` at index `i`, matched ignoring case. */
  predicate GeoTagAt(s: string, i: nat) {
    i + 4 <= |s|
    && (s[i] == 'g' || s[i] == 'G')
    && (s[i + 1] == 'e' || s[i + 1] == 'E')
    && (s[i + 2] == 'o' || s[i + 2] == 'O')
    && s[i + 3] == ':'
  }

  /** The pattern matches `s[start..stop]` with its comma at index `comma`:
      `geo:`, one or more class characters, `,`, one or more class characters. */
  predicate PatternAt(s: string, start: nat, comma: nat, stop: nat) {
    && GeoTagAt(s, start)
    && start + 4 < comma && comma + 1 < stop <= |s|
    && AllGeoChars(s[start + 4..comma])
    && s[comma] == ','
    && AllGeoChars(s[comma + 1..stop])
  }

  /** A successful match: where it starts, where its comma is and where it ends. */
  datatype Match = Match(start: nat, comma: nat, stop: nat)

  /** Length of the longest run of class characters in `s` from index `i`. */
  function GeoRun(s: string, i: nat): (n: nat)
    requires i <= |s|
    ensures i + n <= |s|
    ensures AllGeoChars(s[i..i + n])
    ensures i + n == |s| || !IsGeoChar(s[i + n])
    decreases |s| - i
  {
    if i < |s| && IsGeoChar(s[i]) then
      var n := GeoRun(s, i + 1);
      assert s[i..i + 1 + n] == [s[i]] + s[i + 1..i + 1 + n];
      1 + n
    else 0
  }

  lemma {:induction false} GeoRunExact(s: string, i: nat, m: nat)
    requires i + m <= |s|
    requires AllGeoChars(s[i..i + m])
    requires i + m == |s| || !IsGeoChar(s[i + m])
    ensures GeoRun(s, i) == m
    decreases m
  {
    if m > 0 {
      assert s[i] == s[i..i + m][0];
      assert s[i + 1..i + m] == s[i..i + m][1..];
      GeoRunExact(s, i + 1, m - 1);
    }
  }

  /** The pattern tried at index `i`, each `+` taking as many characters as it can. */
  function MatchAt(s: string, i: nat): (m: Option<Match>)
    ensures m.Some? ==> m.value.start == i && PatternAt(s, i, m.value.comma, m.value.stop)
    ensures m.Some? ==> m.value.stop == |s| || !IsGeoChar(s[m.value.stop])
  {
    if !GeoTagAt(s, i) then None
    else
      var comma := i + 4 + GeoRun(s, i + 4);
      if comma == i + 4 || comma >= |s| || s[comma] != ',' then None
      else
        var stop := comma + 1 + GeoRun(s, comma + 1);
        if stop == comma + 1 then None else Some(Match(i, comma, stop))
  }

  /** Whenever the pattern can match at `i`, `MatchAt` finds a match there; the
      greedy first group leaves no other place for the comma. */
  lemma MatchAtComplete(s: string, i: nat, comma: nat, stop: nat)
    requires PatternAt(s, i, comma, stop)
    ensures MatchAt(s, i).Some? && MatchAt(s, i).value.comma == comma
  {
    GeoRunExact(s, i + 4, comma - (i + 4));
    assert s[comma + 1] == s[comma + 1..stop][0];
  }

  /** The first match at an index from `i` on, as `RegExp.prototype.exec` scans. */
  function FindMatch(s: string, i: nat): (m: Option<Match>)
    requires i <= |s|
    ensures m.Some? ==> i <= m.value.start && PatternAt(s, m.value.start, m.value.comma, m.value.stop)
    ensures m.Some? ==> m.value.stop == |s| || !IsGeoChar(s[m.value.stop])
    decreases |s| - i
  {
    if i == |s| then None
    else
      match MatchAt(s, i)
      case Some(m) => Some(m)
      case None => FindMatch(s, i + 1)
  }

  /** `FindMatch` fails exactly when the pattern matches nowhere from `i` on, and
      otherwise finds the leftmost match. */
  lemma {:induction false} FindMatchLeftmost(s: string, i: nat)
    requires i <= |s|
    ensures FindMatch(s, i).None? ==>
      forall start, comma, stop | i <= start :: !PatternAt(s, start, comma, stop)
    ensures FindMatch(s, i).Some? ==>
      forall start, comma, stop | i <= start < FindMatch(s, i).value.start :: !PatternAt(s, start, comma, stop)
    decreases |s| - i
  {
    if i < |s| {
      FindMatchLeftmost(s, i + 1);
      if MatchAt(s, i).None? {
        forall comma, stop | PatternAt(s, i, comma, stop) ensures false {
          MatchAtComplete(s, i, comma, stop);
        }
      }
    }
  }

  // ---------------------------------------------------------------------------
  // parseFloat on a capture

  predicate IsSign(c: char) {
    c == '+' || c == '-'
  }

  /** Begins with a digit, or with a point followed by a digit. */
  predicate StartsUnsigned(s: string) {
    (|s| > 0 && IsDigit(s[0])) || (|s| > 1 && s[0] == '.' && IsDigit(s[1]))
  }

  /** Begins with a numeral `parseFloat` accepts: an optional sign, then a
      digit, or a point followed by a digit. */
  predicate StartsNumeral(s: string) {
    if |s| > 0 && IsSign(s[0]) then StartsUnsigned(s[1..]) else StartsUnsigned(s)
  }

  /** A decimal numeral as `parseFloat` reads it: a sign, the digits before
      the point and the digits after it (either run may be empty, not both). */
  datatype Numeral = Numeral(negative: bool, whole: string, fraction: string)

  predicate DecimalDigits(n: Numeral) {
    AllDigits(n.whole) && AllDigits(n.fraction)
  }

  /** The value of the digits after a decimal point. */
  function FractionValue(s: string): (r: real)
    requires AllDigits(s)
    ensures 0.0 <= r < 1.0
  {
    if s == [] then 0.0 else (DigitValue(s[0]) as real + FractionValue(s[1..])) / 10.0
  }

  function Magnitude(n: Numeral): (r: real)
    requires DecimalDigits(n)
    ensures r >= 0.0
  {
    DigitsValue(n.whole) as real + FractionValue(n.fraction)
  }

  /** The number a numeral denotes (JavaScript's `-0` is identified with 0). */
  function Value(n: Numeral): real
    requires DecimalDigits(n)
  {
    if n.negative then -Magnitude(n) else Magnitude(n)
  }

  /** `parseFloat` after the sign: a run of digits and, after a point, another
      run of digits, stopping at the first character that does not fit; when
      no digit was read there is no number (NaN). */
  function ScanUnsigned(s: string): (r: Option<(string, string)>)
    ensures r.None? <==> !StartsUnsigned(s)
    ensures r.Some? ==> AllDigits(r.value.0) && AllDigits(r.value.1)
  {
    var w := DigitRun(s, 0);
    if w < |s| && s[w] == '.' then
      var f := DigitRun(s, w + 1);
      if w + f == 0 then None else Some((s[..w], s[w + 1..w + 1 + f]))
    else if w == 0 then None
    else Some((s[..w], ""))
  }

  /** The numeral `parseFloat` reads from a string of class characters (where
      whitespace, exponents and `Infinity` cannot occur): an optional sign,
      then the unsigned part. */
  function ScanNumber(s: string): (r: Option<Numeral>)
    ensures r.None? <==> !StartsNumeral(s)
    ensures r.Some? ==> DecimalDigits(r.value)
  {
    if |s| > 0 && IsSign(s[0]) then
      match ScanUnsigned(s[1..])
      case None => None
      case Some(p) => Some(Numeral(s[0] == '-', p.0, p.1))
    else
      match ScanUnsigned(s)
      case None => None
      case Some(p) => Some(Numeral(false, p.0, p.1))
  }

  /** `parseFloat`: the value of the numeral read, or NaN (`None`). */
  function ParseNumber(s: string): (r: Option<real>)
    ensures r.None? <==> !StartsNumeral(s)
  {
    match ScanNumber(s)
    case None => None
    case Some(n) => Some(Value(n))
  }

  // ---------------------------------------------------------------------------
  // parseGeo

  /** `parseGeo` on a string: the leftmost match's two captures, both of which must parse. */
  function ParseGeoText(s: string): (r: Option<(real, real)>)
    ensures r.Some? ==> exists start, comma, stop :: PatternAt(s, start, comma, stop)
  {
    match FindMatch(s, 0)
    case None => None
    case Some(m) =>
      var lat := ParseNumber(s[m.start + 4..m.comma]);
      var lng := ParseNumber(s[m.comma + 1..m.stop]);
      if lat.None? || lng.None? then None else Some((lat.value, lng.value))
  }

  /** `parseGeo`: anything that is not a string gives no point. */
  function ParseGeo(f: Field): (r: Option<(real, real)>)
    ensures f.NonText? ==> r.None?
  {
    match f
    case Text(s) => ParseGeoText(s)
    case NonText(_) => None
  }

  /** A string with no substring that the pattern matches gives no point. */
  lemma NoMatchNoPoint(s: string)
    requires forall start, comma, stop :: !PatternAt(s, start, comma, stop)
    ensures ParseGeoText(s).None?
  {
  }

  /** A point is produced exactly when the pattern matches somewhere and both
      captures of the leftmost match start with a numeral. */
  lemma ParseGeoTextCharacterized(s: string)
    ensures ParseGeoText(s).Some? <==>
      FindMatch(s, 0).Some?
      && StartsNumeral(s[FindMatch(s, 0).value.start + 4..FindMatch(s, 0).value.comma])
      && StartsNumeral(s[FindMatch(s, 0).value.comma + 1..FindMatch(s, 0).value.stop])
  {
  }

  /** The empty string and falsy values never give a point, so the source's
      truthiness test in front of each `parseGeo` call changes nothing. */
  lemma FalsyGivesNoPoint(f: Field)
    requires !Truthy(f)
    ensures ParseGeo(f).None?
  {
  }

  // ---------------------------------------------------------------------------
  // Canonical decimals round-trip

  /** A numeral as a printer writes it: at least one integer digit. */
  predicate WellFormed(n: Numeral) {
    |n.whole| > 0 && DecimalDigits(n)
  }

  /** The numeral without its sign. */
  function Unsigned(n: Numeral): string {
    if n.fraction == [] then n.whole else n.whole + ("." + n.fraction)
  }

  function Show(n: Numeral): string {
    if n.negative then "-" + Unsigned(n) else Unsigned(n)
  }

  /** One step of the fraction recurrence, as arithmetic on reals. */
  lemma FractionRatioStep(v: real, d: nat, rest: nat, p: nat, total: nat, pp: nat)
    requires p > 0 && pp == 10 * p && total == d * p + rest
    requires v == (d as real + rest as real / p as real) / 10.0
    ensures v == total as real / pp as real
  {
    var pr := p as real;
    assert total as real == d as real * pr + rest as real;
    assert d as real + rest as real / pr == (d as real * pr + rest as real) / pr;
  }

  /** The digits after the point denote their integer value over 10^k. */
  lemma {:induction false} FractionIsRatio(s: string)
    requires AllDigits(s)
    ensures FractionValue(s) == DigitsValue(s) as real / Pow10(|s|) as real
    decreases |s|
  {
    if s != [] {
      FractionIsRatio(s[1..]);
      DigitsValueFront(s);
      FractionRatioStep(FractionValue(s), DigitValue(s[0]), DigitsValue(s[1..]),
                        Pow10(|s| - 1), DigitsValue(s), Pow10(|s|));
    }
  }

  /** Integer digits alone are read back whole. */
  lemma ScanWholeShow(w: string)
    requires |w| > 0 && AllDigits(w)
    ensures ScanUnsigned(w) == Some((w, ""))
  {
    assert w + [] == w;
    DigitRunWhole(w, []);
    assert w[..|w|] == w;
  }

  /** The runs of digits on either side of the point in `w.f`. */
  lemma RunsOfPointed(s: string, w: string, f: string)
    requires s == w + (['.'] + f)
    requires |w| > 0 && AllDigits(w) && |f| > 0 && AllDigits(f)
    ensures DigitRun(s, 0) == |w| && |w| < |s| && s[|w|] == '.'
    ensures DigitRun(s, |w| + 1) == |f|
  {
    var r := ['.'] + f;
    DigitRunWhole(w, r);
    DigitRunShift(w, r, 1);
    DigitRunShift(['.'], f, 0);
    assert f + [] == f;
    DigitRunWhole(f, []);
  }

  lemma PointedSlices(s: string, w: string, f: string)
    requires s == w + (['.'] + f)
    ensures s[..|w|] == w && s[|w| + 1..|w| + 1 + |f|] == f
  {
  }

  /** `ScanUnsigned` once the two digit runs around the point are known. */
  lemma ScanUnsignedRuns(s: string, w: nat, f: nat)
    requires w < |s| && DigitRun(s, 0) == w && s[w] == '.'
    requires DigitRun(s, w + 1) == f && w + f > 0
    ensures ScanUnsigned(s) == Some((s[..w], s[w + 1..w + 1 + f]))
  {
  }

  /** Integer and fraction digits around a point are read back as they are. */
  lemma ScanPointedShow(s: string, w: string, f: string)
    requires s == w + (['.'] + f)
    requires |w| > 0 && AllDigits(w) && |f| > 0 && AllDigits(f)
    ensures ScanUnsigned(s) == Some((w, f))
  {
    RunsOfPointed(s, w, f);
    ScanUnsignedRuns(s, |w|, |f|);
    PointedSlices(s, w, f);
  }

  /** The unsigned part of a printed numeral is read back as printed. */
  lemma ScanUnsignedShow(n: Numeral)
    requires WellFormed(n)
    ensures ScanUnsigned(Unsigned(n)) == Some((n.whole, n.fraction))
  {
    if n.fraction == [] {
      ScanWholeShow(n.whole);
    } else {
      ScanPointedShow(Unsigned(n), n.whole, n.fraction);
    }
  }

  /** `parseFloat` reads a printed numeral back as exactly that numeral. */
  lemma ScanShow(n: Numeral)
    requires WellFormed(n)
    ensures ScanNumber(Show(n)) == Some(n)
  {
    ScanUnsignedShow(n);
    var u := Unsigned(n);
    assert u[0] == n.whole[0];
    if n.negative {
      assert ("-" + u)[1..] == u;
    }
  }

  /** `parseFloat` reads a printed numeral back to its value. */
  lemma ParseShow(n: Numeral)
    requires WellFormed(n)
    ensures ParseNumber(Show(n)) == Some(Value(n))
  {
    ScanShow(n);
  }

  // ---------------------------------------------------------------------------
  // Prefixes: `parseFloat` reads the longest numeral and ignores the rest

  /** A numeral with digits on at least one side of the point, as
      `parseFloat` also accepts `.5` and `5.`. */
  predicate Readable(n: Numeral) {
    DecimalDigits(n) && |n.whole| + |n.fraction| > 0
  }

  /** `r` cannot continue the printed numeral `n`: it does not start with a
      digit, nor, when `n` has no point, with a point and a digit. */
  predicate Stops(n: Numeral, r: string) {
    r == [] || (!IsDigit(r[0]) && (n.fraction == [] && r[0] == '.' ==> |r| == 1 || !IsDigit(r[1])))
  }

  /** Integer digits followed by text that cannot continue them. */
  lemma ScanWholePrefix(s: string, w: string, r: string)
    requires s == w + r && |w| > 0 && AllDigits(w)
    requires r == [] || (!IsDigit(r[0]) && (r[0] == '.' ==> |r| == 1 || !IsDigit(r[1])))
    ensures ScanUnsigned(s) == Some((w, ""))
  {
    DigitRunWhole(w, r);
    if |r| > 0 && r[0] == '.' {
      DigitRunShift(w, r, 1);
      assert DigitRun(r, 1) == 0;
      ScanUnsignedRuns(s, |w|, 0);
    }
    assert s[..|w|] == w;
  }

  /** Digits, a point and digits, followed by text that starts with no digit. */
  lemma ScanPointedPrefix(s: string, w: string, t: string, q: string, f: string, r: string)
    requires s == w + t && t == ['.'] + q && q == f + r
    requires AllDigits(w) && AllDigits(f) && |w| + |f| > 0
    requires r == [] || !IsDigit(r[0])
    ensures ScanUnsigned(s) == Some((w, f))
  {
    PointedRuns(s, w, t, q, f, r);
    PointedPrefixSlices(s, w, t, q, f, r);
    ScanUnsignedRuns(s, |w|, |f|);
  }

  /** The digit runs on either side of a point in `w.f` followed by a
      non-digit. */
  lemma PointedRuns(s: string, w: string, t: string, q: string, f: string, r: string)
    requires s == w + t && t == ['.'] + q && q == f + r && AllDigits(w) && AllDigits(f)
    requires r == [] || !IsDigit(r[0])
    ensures DigitRun(s, 0) == |w| && |w| < |s| && s[|w|] == '.'
    ensures DigitRun(s, |w| + 1) == |f|
  {
    RunOfWhole(s, w, t);
    RunAfterPrefix(s, w, t, 1);
    PastPoint(t, q);
    RunOfWhole(q, f, r);
  }

  /** The run after a leading point is the run of what follows it. */
  lemma PastPoint(t: string, q: string)
    requires t == ['.'] + q
    ensures DigitRun(t, 1) == DigitRun(q, 0)
  {
    RunAfterPrefix(t, ['.'], q, 0);
  }

  lemma PointedPrefixSlices(s: string, w: string, t: string, q: string, f: string, r: string)
    requires s == w + t && t == ['.'] + q && q == f + r
    ensures s[..|w|] == w && s[|w| + 1..|w| + 1 + |f|] == f
  {
    assert s[|w| + 1..] == q;
  }

  /** The unsigned part is read up to where the numeral stops. */
  lemma ScanUnsignedPrefix(n: Numeral, r: string)
    requires Readable(n) && Stops(n, r)
    ensures ScanUnsigned(Unsigned(n) + r) == Some((n.whole, n.fraction))
  {
    if n.fraction == [] {
      ScanWholePrefix(Unsigned(n) + r, n.whole, r);
    } else {
      var q := n.fraction + r;
      assert Unsigned(n) + r == n.whole + (['.'] + q);
      ScanPointedPrefix(Unsigned(n) + r, n.whole, ['.'] + q, q, n.fraction, r);
    }
  }

  /** `parseFloat` of a numeral followed by text that cannot continue it is
      the numeral's value; a non-negative numeral may carry a `+`. */
  lemma ParsePrefix(n: Numeral, r: string)
    requires Readable(n) && Stops(n, r)
    ensures ScanNumber(Show(n) + r) == Some(n)
    ensures ParseNumber(Show(n) + r) == Some(Value(n))
    ensures !n.negative ==> ScanNumber("+" + (Unsigned(n) + r)) == Some(n)
    ensures !n.negative ==> ParseNumber("+" + (Unsigned(n) + r)) == Some(Value(n))
  {
    var u := Unsigned(n) + r;
    ScanUnsignedPrefix(n, r);
    if n.negative {
      assert Show(n) + r == "-" + u;
      ScanSigned("-" + u, '-', u, n.whole, n.fraction);
      ParseOfScan("-" + u, n);
    } else {
      assert Show(n) + r == u;
      UnsignedStart(n, u, r);
      ScanPlain(u, n.whole, n.fraction);
      ScanSigned("+" + u, '+', u, n.whole, n.fraction);
      ParseOfScan(u, n);
      ParseOfScan("+" + u, n);
    }
  }

  lemma UnsignedStart(n: Numeral, u: string, r: string)
    requires Readable(n) && u == Unsigned(n) + r
    ensures |u| > 0 && !IsSign(u[0])
  {
    assert u[0] == Unsigned(n)[0];
  }

  /** A sign, then an unsigned part that reads as `w.f`. */
  lemma ScanSigned(s: string, c: char, u: string, w: string, f: string)
    requires s == [c] + u && IsSign(c) && ScanUnsigned(u) == Some((w, f))
    ensures ScanNumber(s) == Some(Numeral(c == '-', w, f))
  {
    assert s[1..] == u;
  }

  /** No sign, and an unsigned part that reads as `w.f`. */
  lemma ScanPlain(u: string, w: string, f: string)
    requires |u| > 0 && !IsSign(u[0]) && ScanUnsigned(u) == Some((w, f))
    ensures ScanNumber(u) == Some(Numeral(false, w, f))
  {
  }

  lemma ParseOfScan(s: string, n: Numeral)
    requires ScanNumber(s) == Some(n)
    ensures ParseNumber(s) == Some(Value(n))
  {
  }

  lemma ShowGeoChars(n: Numeral)
    requires WellFormed(n)
    ensures AllGeoChars(Show(n)) && |Show(n)| > 0
  {
  }

  /** A run is unaffected by what stands before the index it starts at. */
  lemma {:induction false} GeoRunShift(p: string, q: string, i: nat)
    requires i <= |q|
    ensures GeoRun(p + q, |p| + i) == GeoRun(q, i)
    decreases |q| - i
  {
    if i < |q| {
      assert (p + q)[|p| + i] == q[i];
      GeoRunShift(p, q, i + 1);
    }
  }

  /** A string of class characters followed by a non-class character is one whole run. */
  lemma GeoRunWhole(a: string, r: string)
    requires AllGeoChars(a)
    requires r == [] || !IsGeoChar(r[0])
    ensures GeoRun(a + r, 0) == |a|
  {
    assert (a + r)[0..|a|] == a;
    GeoRunExact(a + r, 0, |a|);
  }

  /** Where both runs are known, `FindMatch` from 0 finds the match that starts at 0. */
  lemma MatchFromRuns(s: string, m1: nat, m2: nat)
    requires GeoTagAt(s, 0) && m1 > 0 && m2 > 0 && 4 + m1 < |s| && s[4 + m1] == ','
    requires GeoRun(s, 4) == m1 && GeoRun(s, 5 + m1) == m2
    ensures FindMatch(s, 0) == Some(Match(0, 4 + m1, 5 + m1 + m2))
  {
    assert MatchAt(s, 0) == Some(Match(0, 4 + m1, 5 + m1 + m2));
  }

  /** The run after the tag of `tag + (a + ("," + b))` is `a`. */
  lemma FirstRunOfPrinted(s: string, tag: string, a: string, r: string)
    requires s == tag + (a + r) && |tag| == 4
    requires AllGeoChars(a) && r != [] && r[0] == ','
    ensures GeoRun(s, 4) == |a|
  {
    GeoRunShift(tag, a + r, 0);
    GeoRunWhole(a, r);
  }

  /** The run after the comma of `tag + (a + ("," + b))` is `b`. */
  lemma SecondRunOfPrinted(s: string, tag: string, a: string, b: string)
    requires s == tag + (a + ([','] + b)) && |tag| == 4
    requires AllGeoChars(b)
    ensures GeoRun(s, 5 + |a|) == |b|
  {
    var r := [','] + b;
    GeoRunShift(tag, a + r, |a| + 1);
    GeoRunShift(a, r, 1);
    GeoRunShift([','], b, 0);
    assert b + [] == b;
    GeoRunWhole(b, []);
  }

  lemma RunsOfPrinted(s: string, tag: string, a: string, b: string)
    requires s == tag + (a + ([','] + b))
    requires |tag| == 4 && GeoTagAt(tag, 0)
    requires |a| > 0 && |b| > 0 && AllGeoChars(a) && AllGeoChars(b)
    ensures GeoTagAt(s, 0) && 4 + |a| < |s| && s[4 + |a|] == ','
    ensures GeoRun(s, 4) == |a| && GeoRun(s, 5 + |a|) == |b|
  {
    FirstRunOfPrinted(s, tag, a, [','] + b);
    SecondRunOfPrinted(s, tag, a, b);
    assert s[0] == tag[0] && s[1] == tag[1] && s[2] == tag[2] && s[3] == tag[3];
  }

  lemma MatchPrinted(s: string, tag: string, a: string, b: string)
    requires s == tag + (a + ([','] + b))
    requires |tag| == 4 && GeoTagAt(tag, 0)
    requires |a| > 0 && |b| > 0 && AllGeoChars(a) && AllGeoChars(b)
    ensures FindMatch(s, 0) == Some(Match(0, 4 + |a|, 5 + |a| + |b|))
  {
    RunsOfPrinted(s, tag, a, b);
    MatchFromRuns(s, |a|, |b|);
  }

  lemma PrintedSlices(s: string, a: string, b: string)
    requires s == "geo:" + (a + ("," + b))
    ensures |s| == 5 + |a| + |b|
    ensures s[4..4 + |a|] == a && s[5 + |a|..5 + |a| + |b|] == b
  {
  }

  /** `ParseGeoText` once the leftmost match and the values of its captures are known. */
  lemma ParseGeoCaptures(s: string, a: string, b: string, x: real, y: real)
    requires FindMatch(s, 0) == Some(Match(0, 4 + |a|, 5 + |a| + |b|))
    requires s[4..4 + |a|] == a && s[5 + |a|..5 + |a| + |b|] == b
    requires ParseNumber(a) == Some(x) && ParseNumber(b) == Some(y)
    ensures ParseGeoText(s) == Some((x, y))
  {
    var m := FindMatch(s, 0).value;
    assert s[m.start + 4..m.comma] == a;
    assert s[m.comma + 1..m.stop] == b;
  }

  /** Round trip: a geo string printed from two canonical decimals parses back
      to exactly those two values. */
  lemma ParseGeoShow(s: string, lat: Numeral, lng: Numeral)
    requires WellFormed(lat) && WellFormed(lng)
    requires s == "geo:" + (Show(lat) + ("," + Show(lng)))
    ensures ParseGeoText(s) == Some((Value(lat), Value(lng)))
  {
    var a, b := Show(lat), Show(lng);
    ShowGeoChars(lat);
    ShowGeoChars(lng);
    MatchPrinted(s, "geo:", a, b);
    PrintedSlices(s, a, b);
    ParseShow(lat);
    ParseShow(lng);
    ParseGeoCaptures(s, a, b, Value(lat), Value(lng));
  }
}
