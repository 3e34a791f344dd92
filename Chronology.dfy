/** Why sorting the `YYYY-MM-DD` keys as strings sorts the days: for years
    of four digits, string order on day texts is calendar order, and two day
    texts are equal exactly on the same calendar day. */
module Chronology {
  import opened Wrappers
  import opened Digits
  import opened DateOrder
  import opened Format
  import opened Timeline

  /** The calendar day of `a` comes before that of `b`. */
  predicate EarlierDay(a: Moment, b: Moment)
    requires a.Valid? && b.Valid?
  {
    a.year < b.year
    || (a.year == b.year && (a.month < b.month || (a.month == b.month && a.day < b.day)))
  }

  predicate SameDay(a: Moment, b: Moment)
    requires a.Valid? && b.Valid?
  {
    a.year == b.year && a.month == b.month && a.day == b.day
  }

  /** Comparing two strings that start with parts of one length compares the
      parts first, then what follows. */
  lemma {:induction false} BelowAppend(a: string, b: string, c: string, d: string)
    requires |a| == |b|
    ensures Below(a + c, b + d) <==> Below(a, b) || (a == b && Below(c, d))
    decreases |a|
  {
    if a == [] {
      assert a + c == c && b + d == d;
    } else {
      assert (a + c)[0] == a[0] && (b + d)[0] == b[0];
      assert (a + c)[1..] == a[1..] + c && (b + d)[1..] == b[1..] + d;
      BelowAppend(a[1..], b[1..], c, d);
      assert a == [a[0]] + a[1..] && b == [b[0]] + b[1..];
    }
  }

  lemma {:induction false} MulAtLeast(k: nat, p: nat)
    requires k >= 1
    ensures k * p >= p
    decreases k
  {
    if k > 1 {
      MulAtLeast(k - 1, p);
      assert k * p == (k - 1) * p + p;
    }
  }

  /** Place value: a smaller leading digit wins whatever follows. */
  lemma PlaceValue(x: nat, y: nat, p: nat, ra: nat, rb: nat)
    requires ra < p && rb < p
    ensures x * p + ra < y * p + rb <==> x < y || (x == y && ra < rb)
  {
    if x < y {
      assert y * p == x * p + (y - x) * p;
      MulAtLeast(y - x, p);
    } else if y < x {
      assert x * p == y * p + (x - y) * p;
      MulAtLeast(x - y, p);
    }
  }

  /** On digit strings of one length, string order is numeric order. */
  lemma {:induction false} DigitsBelow(a: string, b: string)
    requires AllDigits(a) && AllDigits(b) && |a| == |b|
    ensures Below(a, b) <==> DigitsValue(a) < DigitsValue(b)
    decreases |a|
  {
    if a != [] {
      assert AllDigits(a[1..]) && AllDigits(b[1..]);
      DigitsValueFront(a);
      DigitsValueFront(b);
      DigitsValueBound(a[1..]);
      DigitsValueBound(b[1..]);
      DigitsBelow(a[1..], b[1..]);
      PlaceValue(DigitValue(a[0]), DigitValue(b[0]), Pow10(|a| - 1),
                 DigitsValue(a[1..]), DigitsValue(b[1..]));
    }
  }

  /** On digit strings of one length, equal strings are equal numbers. */
  lemma DigitsEqual(a: string, b: string)
    requires AllDigits(a) && AllDigits(b) && |a| == |b|
    ensures a == b <==> DigitsValue(a) == DigitsValue(b)
  {
    if a != b {
      BelowTotal(a, b);
      DigitsBelow(a, b);
      DigitsBelow(b, a);
    }
  }

  /** Comparing two `YYYY-MM-DD` texts field by field. */
  lemma DayTextBelow(y1: string, m1: string, d1: string, y2: string, m2: string, d2: string)
    requires |y1| == |y2| && |m1| == |m2|
    ensures Below(y1 + (['-'] + (m1 + (['-'] + d1))), y2 + (['-'] + (m2 + (['-'] + d2))))
      <==> Below(y1, y2) || (y1 == y2 && (Below(m1, m2) || (m1 == m2 && Below(d1, d2))))
  {
    BelowAppend(y1, y2, ['-'] + (m1 + (['-'] + d1)), ['-'] + (m2 + (['-'] + d2)));
    BelowAppend(['-'], ['-'], m1 + (['-'] + d1), m2 + (['-'] + d2));
    BelowAppend(m1, m2, ['-'] + d1, ['-'] + d2);
    BelowAppend(['-'], ['-'], d1, d2);
    BelowIrreflexive(['-']);
  }

  /** The entry comparator orders days chronologically. */
  lemma DayTextOrder(a: Moment, b: Moment)
    requires a.Valid? && b.Valid? && a.year < 10000 && b.year < 10000
    ensures Below(DayText(a), DayText(b)) <==> EarlierDay(a, b)
  {
    var y1, m1, d1 := YearText(a.year), Pad2(a.month), Pad2(a.day);
    var y2, m2, d2 := YearText(b.year), Pad2(b.month), Pad2(b.day);
    DayTextBelow(y1, m1, d1, y2, m2, d2);
    DigitsBelow(y1, y2);
    DigitsEqual(y1, y2);
    DigitsBelow(m1, m2);
    DigitsEqual(m1, m2);
    DigitsBelow(d1, d2);
  }

  /** Two moments share a day text exactly when they fall on the same day. */
  lemma DayTextSame(a: Moment, b: Moment)
    requires a.Valid? && b.Valid? && a.year < 10000 && b.year < 10000
    ensures DayText(a) == DayText(b) <==> SameDay(a, b)
  {
    var y1, m1, d1 := YearText(a.year), Pad2(a.month), Pad2(a.day);
    var y2, m2, d2 := YearText(b.year), Pad2(b.month), Pad2(b.day);
    DayTextSlices(DayText(a), y1, m1, d1);
    DayTextSlices(DayText(b), y2, m2, d2);
    DigitsEqual(y1, y2);
    DigitsEqual(m1, m2);
    DigitsEqual(d1, d2);
  }

  // ---------------------------------------------------------------------------
  // Entry dates

  /** The item's date source is a non-empty text naming a valid instant of a
      year below 10000. */
  predicate ReadableSource(item: RawItem) {
    DateSource(item).Some? && DateSource(item).value.text != ""
    && DateSource(item).value.moment.Valid? && DateSource(item).value.moment.year < 10000
  }

  /** A date source that `dayjs` cannot read dates the item `Invalid Date`. */
  lemma EntryDateInvalid(item: RawItem)
    requires DateSource(item).Some? && DateSource(item).value.text != ""
    requires DateSource(item).value.moment.Invalid?
    ensures EntryDate(item) == Some(InvalidDate)
  {
  }

  /** A readable date source dates the item with its own year, month and day. */
  lemma EntryDateFields(item: RawItem)
    requires ReadableSource(item)
    ensures EntryDate(item).Some?
    ensures var d, m := EntryDate(item).value, DateSource(item).value.moment;
      |d| == 10 && d[4] == '-' && d[7] == '-'
      && AllDigits(d[..4]) && AllDigits(d[5..7]) && AllDigits(d[8..])
      && DigitsValue(d[..4]) == m.year && DigitsValue(d[5..7]) == m.month && DigitsValue(d[8..]) == m.day
  {
    DayTextFields(DateSource(item).value.moment);
  }

  /** Two items with readable date sources share an entry date exactly when
      their sources fall on the same calendar day. */
  lemma EntryDateSameDay(a: RawItem, b: RawItem)
    requires ReadableSource(a) && ReadableSource(b)
    ensures EntryDate(a) == EntryDate(b) <==> SameDay(DateSource(a).value.moment, DateSource(b).value.moment)
  {
    DayTextSame(DateSource(a).value.moment, DateSource(b).value.moment);
  }

  /** The entry comparator puts the item of the earlier calendar day first. */
  lemma EntryDateOrder(a: RawItem, b: RawItem)
    requires ReadableSource(a) && ReadableSource(b)
    ensures EntryDate(a).Some? && EntryDate(b).Some?
    ensures Below(EntryDate(a).value, EntryDate(b).value)
      <==> EarlierDay(DateSource(a).value.moment, DateSource(b).value.moment)
  {
    DayTextOrder(DateSource(a).value.moment, DateSource(b).value.moment);
  }
}
