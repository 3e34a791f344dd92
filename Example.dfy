/** A worked document: one visit item becomes one day entry holding one
    visit point with the parsed place, its name as label and the item's time
    fields. */
module Example {
  import opened Wrappers
  import opened Digits
  import opened Geo
  import opened Format
  import opened Points
  import opened Sorting
  import opened Timeline

  const Place := "geo:35.0,139.0"

  /** A numeral with a zero fraction denotes its whole part. */
  lemma ZeroFraction(w: string, n: nat)
    requires AllDigits(w) && DigitsValue(w) == n
    ensures Value(Numeral(false, w, "0")) == n as real
  {
    assert "0"[1..] == [];
    assert FractionValue("0") == 0.0;
  }

  lemma WholeDigits()
    ensures AllDigits("35") && DigitsValue("35") == 35
    ensures AllDigits("139") && DigitsValue("139") == 139
  {
    assert "35"[..1] == "3" && "3"[..0] == [];
    assert "139"[..2] == "13" && "13"[..1] == "1" && "1"[..0] == [];
  }

  lemma PlaceIsPrinted()
    ensures Place == "geo:" + (Show(Numeral(false, "35", "0")) + ("," + Show(Numeral(false, "139", "0"))))
  {
    assert Show(Numeral(false, "35", "0")) == "35.0";
    assert Show(Numeral(false, "139", "0")) == "139.0";
  }

  /** The place text is the canonical printing of 35.0 and 139.0. */
  lemma PlaceParses()
    ensures ParseGeoText(Place) == Some((35.0, 139.0))
  {
    var lat := Numeral(false, "35", "0");
    var lng := Numeral(false, "139", "0");
    WholeDigits();
    PlaceIsPrinted();
    ParseGeoShow(Place, lat, lng);
    ZeroFraction("35", 35);
    ZeroFraction("139", 139);
  }

  /** `parseFloat` stops at a second point: `1.2.3` is 1.2. */
  lemma StopsAtSecondPoint()
    ensures ParseNumber("1.2.3") == Some(1.2)
  {
    var n := Numeral(false, "1", "2");
    OneTwoPrinted();
    ParsePrefix(n, ".3");
    OneTwoValue();
  }

  lemma OneTwoPrinted()
    ensures Show(Numeral(false, "1", "2")) + ".3" == "1.2.3"
  {
  }

  lemma OneTwoValue()
    ensures Value(Numeral(false, "1", "2")) == 1.2
  {
    assert "1"[..0] == [] && "2"[1..] == [];
    assert DigitsValue("1") == 1;
    assert FractionValue("2") == 0.2;
  }

  /** A leading `+` and a leading point are read: `+.5` is 0.5. */
  lemma ReadsPlusAndPoint()
    ensures ParseNumber("+.5") == Some(0.5)
  {
    var n := Numeral(false, "", "5");
    HalfPrinted();
    ParsePrefix(n, "");
    HalfValue();
  }

  lemma HalfPrinted()
    ensures "+" + (Unsigned(Numeral(false, "", "5")) + "") == "+.5"
  {
  }

  lemma HalfValue()
    ensures Value(Numeral(false, "", "5")) == 0.5
  {
    assert "5"[1..] == [];
    assert FractionValue("5") == 0.5;
  }

  /** A bare trailing point is ignored: `-3.` is -3. */
  lemma IgnoresBarePoint()
    ensures ParseNumber("-3.") == Some(-3.0)
  {
    var n := Numeral(true, "3", "");
    assert Show(n) + "." == "-3.";
    ParsePrefix(n, ".");
    assert "3"[..0] == [];
  }

  /** A sign after the digits ends the numeral: `7-1` is 7. */
  lemma StopsAtSign()
    ensures ParseNumber("7-1") == Some(7.0)
  {
    var n := Numeral(false, "7", "");
    assert Show(n) + "-1" == "7-1";
    ParsePrefix(n, "-1");
    assert "7"[..0] == [];
  }

  lemma DayOfExample(m: Moment)
    requires m.Valid? && m.year == 2024 && m.month == 5 && m.day == 1
    ensures DayText(m) == "2024-05-01"
  {
    assert Pad2(20) == "20" && Pad2(24) == "24" && Pad2(5) == "05" && Pad2(1) == "01";
  }

  function VisitItem(text: string, m: Moment): RawItem {
    RawItem(Some(Stamp(text, m)), None, None, Some(RawVisit(Some(Text(Place)), Some("Home"), None)))
  }

  /** The item keeps one point, the visit's, under the day of its start. */
  lemma VisitItemEntry(text: string, m: Moment)
    requires text != "" && m.Valid? && m.year == 2024 && m.month == 5 && m.day == 1
    ensures ItemEntry(VisitItem(text, m))
      == Some(Entry("2024-05-01", [VisitPoint((35.0, 139.0), Some("Home"), TimeOf(VisitItem(text, m)))]))
  {
    var item := VisitItem(text, m);
    PlaceParses();
    DayOfExample(m);
    assert VisitGeo(item) == Some((35.0, 139.0));
    assert PointsOf(item) == [VisitPoint((35.0, 139.0), Some("Home"), TimeOf(item))];
  }

  /** A document of a single item keeps that item's entry, if any. */
  lemma SingleItemDocument(item: RawItem)
    ensures Extract(Items([item])) == if ItemEntry(item).Some? then [ItemEntry(item).value] else []
  {
    assert [item][..0] == [];
    if ItemEntry(item).Some? {
      var e := ItemEntry(item).value;
      assert Kept([item]) == [e];
      assert SortByDate([e]) == Insert(e, []);
    }
  }

  /** `{"startTime": …, "visit": {"topCandidate": {"placeLocation": "geo:35.0,139.0", "name": "Home"}}}`
      with a start time on 1 May 2024 gives exactly the entry `2024-05-01`
      with the single point (35.0, 139.0) labelled "Home". */
  lemma SingleVisitDocument(text: string, m: Moment)
    requires text != "" && m.Valid? && m.year == 2024 && m.month == 5 && m.day == 1
    ensures Extract(Items([VisitItem(text, m)]))
      == [Entry("2024-05-01", [VisitPoint((35.0, 139.0), Some("Home"), BuildTimeInfo(Some(Stamp(text, m)), None))])]
  {
    VisitItemEntry(text, m);
    SingleItemDocument(VisitItem(text, m));
  }
}
