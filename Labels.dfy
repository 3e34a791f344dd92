/** `activityLabelFromType`: the Japanese label for an activity type, looked
    up case-insensitively in a fixed table of nine modes. */
module Labels {
  import opened Wrappers

  /** `toLowerCase`, as far as it decides whether a key is in the table: ASCII
      capitals become small letters and the Kelvin sign becomes `k`. Every other
      character that `toLowerCase` changes stays outside ASCII, and all table
      keys are ASCII, so the characters modelled as unchanged here cannot turn
      a key into a table key or out of one. */
  function LowerChar(c: char): (r: char)
    ensures 'A' <= c <= 'Z' ==> r as int == c as int + 32
    ensures r != c ==> ('A' <= c <= 'Z' || c == '\U{212A}')
  {
    if 'A' <= c <= 'Z' then (c as int + 32) as char
    else if c == '\U{212A}' then 'k'
    else c
  }

  function Lower(s: string): (r: string)
    ensures |r| == |s|
    ensures forall i | 0 <= i < |s| :: r[i] == LowerChar(s[i])
  {
    seq(|s|, i requires 0 <= i < |s| => LowerChar(s[i]))
  }

  /** Lowering twice changes nothing more. */
  lemma LowerIdempotent(s: string)
    ensures Lower(Lower(s)) == Lower(s)
  {
    assert forall i | 0 <= i < |s| :: LowerChar(LowerChar(s[i])) == LowerChar(s[i]);
  }

  /** The table, with its own keys only. */
  const ModeLabels: map<string, string> := map[
    "walking" := "徒歩",
    "in subway" := "地下鉄",
    "in passenger vehicle" := "車",
    "in bus" := "バス",
    "in train" := "電車",
    "cycling" := "自転車",
    "motorcycling" := "バイク",
    "flying" := "飛行機",
    "unknown" := "不明"
  ]

  /** `activityLabelFromType` as evidently intended: no label for a missing or
      empty type, the table label for a type whose lower-case form is a key,
      and the type itself otherwise. */
  function ActivityLabel(raw: Option<string>): (r: Option<string>)
    ensures r.None? <==> raw.None? || raw.value == ""
    ensures r.Some? && Lower(raw.value) in ModeLabels ==> r.value == ModeLabels[Lower(raw.value)]
    ensures r.Some? && Lower(raw.value) !in ModeLabels ==> r.value == raw.value
  {
    if raw.None? || raw.value == "" then None
    else
      var key := Lower(raw.value);
      if key in ModeLabels then Some(ModeLabels[key]) else Some(raw.value)
  }

  /** Every label in the table is a non-empty string. */
  lemma TableLabelsNonEmpty(key: string)
    requires key in ModeLabels
    ensures ModeLabels[key] != ""
  {
  }

  /** A present label is never empty. */
  lemma ActivityLabelNonEmpty(raw: Option<string>)
    requires ActivityLabel(raw).Some?
    ensures ActivityLabel(raw).value != ""
  {
    if Lower(raw.value) in ModeLabels {
      TableLabelsNonEmpty(Lower(raw.value));
    }
  }

  /** Types that differ only in case get the same label when they name a mode. */
  lemma ActivityLabelIgnoresCase(a: string, b: string)
    requires a != "" && b != "" && Lower(a) == Lower(b) && Lower(a) in ModeLabels
    ensures ActivityLabel(Some(a)) == ActivityLabel(Some(b))
  {
  }

  /** The label of a type that is already lower case and a key is looked up
      directly, and so is any casing of it. */
  lemma ActivityLabelOfKey(raw: string)
    requires Lower(raw) in ModeLabels
    ensures raw != "" && ActivityLabel(Some(raw)) == Some(ModeLabels[Lower(raw)])
  {
    assert Lower(raw) != "";
  }

  /** The concrete labels: the upper-case and the mixed-case spellings the
      export uses. */
  lemma ActivityLabelExamples()
    ensures ActivityLabel(Some("WALKING")) == Some("徒歩")
    ensures ActivityLabel(Some("In Passenger Vehicle")) == Some("車")
    ensures ActivityLabel(Some("skiing")) == Some("skiing")
  {
    assert Lower("WALKING") == "walking";
    assert Lower("In Passenger Vehicle") == "in passenger vehicle";
    assert Lower("skiing") == "skiing";
  }

  // ---------------------------------------------------------------------------
  // The lookup as written

  /** What `map[key]` can produce on a plain object literal: one of its own
      string values, or a member every object inherits (a function or the
      prototype object, named here by its key). */
  datatype LabelValue = Label(text: string) | Inherited(key: string)

  /** The members of `Object.prototype` whose names are all lower case, so that
      a lower-cased key can reach them. */
  const InheritedKeys: set<string> := {"constructor", "__proto__"}

  /** `activityLabelFromType` as written: the lookup `map[key]` also finds
      inherited members, and `??` keeps them since they are not null. */
  function ActivityLabelAsWritten(raw: Option<string>): (r: Option<LabelValue>)
    ensures r.None? <==> raw.None? || raw.value == ""
  {
    if raw.None? || raw.value == "" then None
    else
      var key := Lower(raw.value);
      if key in ModeLabels then Some(Label(ModeLabels[key]))
      else if key in InheritedKeys then Some(Inherited(key))
      else Some(Label(raw.value))
  }

  /** The two agree on every type whose lower-case form is not an inherited name. */
  lemma AsWrittenAgrees(raw: Option<string>)
    requires raw.None? || Lower(raw.value) !in InheritedKeys
    ensures ActivityLabelAsWritten(raw) ==
      (if ActivityLabel(raw).Some? then Some(Label(ActivityLabel(raw).value)) else None)
  {
  }

  /** The counterexample: the type "Constructor" gets the inherited constructor
      function as its label, where the type itself was intended. */
  lemma AsWrittenConstructor()
    ensures ActivityLabelAsWritten(Some("Constructor")) == Some(Inherited("constructor"))
    ensures ActivityLabel(Some("Constructor")) == Some("Constructor")
  {
    assert Lower("Constructor") == "constructor";
  }
}
