/** The decision logic of the Streamlit front end (app.py): the checks of
    `validate_form_data`, the colour of the overall-score badge and the
    "Sections with Content" figure. Rendering is not modelled. */
module App {
  import opened Text
  import opened OrderedDict
  import opened Options
  import Scoring
  import Quality

  // ---------------------------------------------------------------------
  // validate_form_data

  /** `form_data.get(key)`: the form holds the text inputs by key. */
  function Lookup(form: Dict<string>, key: string): (r: Option<string>)
    ensures r.Some? <==> HasKey(form, key)
    ensures r.Some? ==> r.value == Get(form, key)
  {
    if HasKey(form, key) then Some(Get(form, key)) else None
  }

  /** `form_data.get(key)` is truthy: present and not the empty string. */
  predicate Given(form: Dict<string>, key: string) {
    Lookup(form, key).Some? && Lookup(form, key).value != ""
  }

  /** A required text field with its minimum stripped length, in the
      order the check visits them. */
  const TextFields: seq<(string, nat)> :=
    [("project_title", 5), ("project_description", 20),
     ("business_objectives", 15), ("stakeholders", 10)]

  /** The test `not field_value or len(field_value.strip()) < min_length`, negated. */
  predicate FieldOk(form: Dict<string>, field: (string, nat)) {
    Given(form, field.0) && |Strip(Lookup(form, field.0).value)| >= field.1
  }

  /** With a positive minimum the truthiness test adds nothing: a field
      passes exactly when it is present and long enough once stripped. */
  lemma FieldOkByLength(form: Dict<string>, field: (string, nat))
    requires field.1 > 0
    ensures FieldOk(form, field) <==> HasKey(form, field.0) && |Strip(Get(form, field.0))| >= field.1
  {
    if HasKey(form, field.0) && Get(form, field.0) == "" {
      assert |Strip(Get(form, field.0))| == 0;
    }
  }

  /** Python's `str.title()` on ASCII, continuing after a letter when
      `afterLetter`: a letter is upper-cased at the start of a run of letters
      and lower-cased inside one; everything else is kept. */
  function TitleFrom(s: string, afterLetter: bool): (r: string)
    ensures |r| == |s|
    ensures forall i {:trigger r[i]} :: 0 <= i < |s| ==>
              r[i] == if (if i == 0 then afterLetter else IsAlpha(s[i - 1]))
                      then LowerChar(s[i]) else UpperChar(s[i])
    decreases |s|
  {
    if s == [] then []
    else
      var rest := TitleFrom(s[1..], IsAlpha(s[0]));
      var c := if afterLetter then LowerChar(s[0]) else UpperChar(s[0]);
      assert forall i :: 1 <= i < |s| ==> s[1..][i - 1] == s[i];
      [c] + rest
  }

  /** `str.title()` */
  function TitleCase(s: string): (r: string)
    ensures |r| == |s|
    ensures forall i {:trigger r[i]} :: 0 <= i < |s| ==> IsAlpha(r[i]) == IsAlpha(s[i])
    ensures forall i {:trigger r[i]} :: 0 <= i < |s| && !IsAlpha(s[i]) ==> r[i] == s[i]
    ensures forall i {:trigger r[i]} :: 0 <= i < |s| && IsAlpha(s[i]) ==>
              (IsUpper(r[i]) <==> i == 0 || !IsAlpha(s[i - 1]))
  {
    TitleFrom(s, false)
  }

  /** Title-casing a title-cased string changes nothing. */
  lemma TitleCaseIdempotent(s: string)
    ensures TitleCase(TitleCase(s)) == TitleCase(s)
  {
    var t := TitleCase(s);
    var u := TitleCase(t);
    forall i | 0 <= i < |s| ensures u[i] == t[i] {
      var start := i == 0 || !IsAlpha(t[i - 1]);
      assert u[i] == if start then UpperChar(t[i]) else LowerChar(t[i]);
      if IsAlpha(s[i]) {
        assert IsUpper(t[i]) <==> start;
      }
    }
  }

  /** `field.replace('_', ' ').title()`: "project_title" reads "Project Title". */
  function Label(field: string): (r: string)
    ensures |r| == |field|
    ensures forall i {:trigger r[i]} :: 0 <= i < |field| ==> (r[i] == ' ' <==> field[i] == '_' || field[i] == ' ')
  {
    TitleCase(ReplaceChar(field, '_', ' '))
  }

  /** Why the form is refused: no domain, or a text field too short. */
  datatype FormIssue = NoDomain | TooShort(field: (string, nat))

  /** The text of `st.error` for each issue. */
  function Message(issue: FormIssue): string {
    match issue
    case NoDomain => "Please select a business domain"
    case TooShort(field) =>
      "Please provide a valid " + Label(field.0) + " (minimum " + NatToString(field.1) + " characters)"
  }

  /** The position of the first `false`, if any. */
  function FirstFalse(bs: seq<bool>): (r: Option<nat>)
    ensures r.None? <==> forall i :: 0 <= i < |bs| ==> bs[i]
    ensures r.Some? ==> r.value < |bs| && !bs[r.value] && forall j :: 0 <= j < r.value ==> bs[j]
    decreases |bs|
  {
    if bs == [] then None
    else if !bs[0] then Some(0)
    else
      var rest := FirstFalse(bs[1..]);
      assert forall i :: 1 <= i < |bs| ==> bs[1..][i - 1] == bs[i];
      if rest.None? then None else Some(rest.value + 1)
  }

  /** Whether each field passes. */
  function FieldResults(form: Dict<string>, fields: seq<(string, nat)>): (r: seq<bool>)
    ensures |r| == |fields|
    ensures forall i {:trigger r[i]} :: 0 <= i < |fields| ==> r[i] == FieldOk(form, fields[i])
  {
    seq(|fields|, i requires 0 <= i < |fields| => FieldOk(form, fields[i]))
  }

  /** The position of the first field that fails, or None when all pass. */
  function FirstFailing(form: Dict<string>, fields: seq<(string, nat)>): (r: Option<nat>)
    ensures r.None? <==> forall i :: 0 <= i < |fields| ==> FieldOk(form, fields[i])
    ensures r.Some? ==> r.value < |fields| && !FieldOk(form, fields[r.value])
                        && forall j :: 0 <= j < r.value ==> FieldOk(form, fields[j])
  {
    var oks := FieldResults(form, fields);
    var first := FirstFalse(oks);
    if first.None? then
      assert forall i :: 0 <= i < |fields| ==> FieldOk(form, fields[i]) by {
        forall i | 0 <= i < |fields| ensures FieldOk(form, fields[i]) {
          assert oks[i];
        }
      }
      first
    else
      var i := first.value;
      assert !FieldOk(form, fields[i]) by { assert !oks[i]; }
      assert forall j :: 0 <= j < i ==> FieldOk(form, fields[j]) by {
        forall j | 0 <= j < i ensures FieldOk(form, fields[j]) {
          assert oks[j];
        }
      }
      first
  }

  /** The issue `validate_form_data` reports, or None when it returns True. */
  function FormCheck(form: Dict<string>, fields: seq<(string, nat)>): (r: Option<FormIssue>)
    ensures r.None? <==> Given(form, "domain") && forall i :: 0 <= i < |fields| ==> FieldOk(form, fields[i])
    ensures r == Some(NoDomain) <==> !Given(form, "domain")
    ensures r.Some? && r.value.TooShort? ==>
              exists i :: 0 <= i < |fields| && r.value.field == fields[i]
                          && !FieldOk(form, fields[i])
                          && forall j :: 0 <= j < i ==> FieldOk(form, fields[j])
  {
    if !Given(form, "domain") then Some(NoDomain)
    else
      var first := FirstFailing(form, fields);
      if first.None? then None else Some(TooShort(fields[first.value]))
  }

  /** The loop of `validate_form_data` over the text fields, stopping at the
      first failure. */
  method CheckFields(form: Dict<string>, fields: seq<(string, nat)>) returns (failing: Option<nat>)
    ensures failing == FirstFailing(form, fields)
  {
    for i := 0 to |fields|
      invariant forall j :: 0 <= j < i ==> FieldOk(form, fields[j])
    {
      if !FieldOk(form, fields[i]) {
        FirstFailureReported(form, fields, i);
        return Some(i);
      }
    }
    return None;
  }

  /** The field that fails after all earlier ones pass is the one reported. */
  lemma FirstFailureReported(form: Dict<string>, fields: seq<(string, nat)>, i: nat)
    requires i < |fields| && !FieldOk(form, fields[i])
    requires forall j :: 0 <= j < i ==> FieldOk(form, fields[j])
    ensures FirstFailing(form, fields) == Some(i)
  {
  }

  /** `validate_form_data`: the domain first, then the text fields in order;
      `error` is the message shown when it returns False. */
  method ValidateFormData(form: Dict<string>) returns (ok: bool, error: Option<string>)
    ensures ok <==> FormCheck(form, TextFields).None?
    ensures error == if ok then None else Some(Message(FormCheck(form, TextFields).value))
  {
    if !Given(form, "domain") {
      return false, Some(Message(NoDomain));
    }
    var failing := CheckFields(form, TextFields);
    if failing.None? {
      return true, None;
    }
    return false, Some(Message(TooShort(TextFields[failing.value])));
  }

  // ---------------------------------------------------------------------
  // display_validation_results

  /** The coloured dot shown beside the overall score. */
  datatype Badge = Green | Yellow | Red

  function ScoreBadge(score: real): (b: Badge)
    ensures b == Green <==> score >= 0.8
    ensures b == Yellow <==> 0.6 <= score < 0.8
    ensures b == Red <==> score < 0.6
  {
    if score >= 0.8 then Green else if score >= 0.6 then Yellow else Red
  }

  function Rank(b: Badge): nat {
    match b
    case Red => 0
    case Yellow => 1
    case Green => 2
  }

  /** A higher score never shows a worse badge. */
  lemma BadgeMonotone(s: real, t: real)
    requires s <= t
    ensures Rank(ScoreBadge(s)) <= Rank(ScoreBadge(t))
  {
  }

  /** The badge agrees with the pass mark of the validation service at its
      ends: a green score passes, a red one fails. The yellow band is split
      by the pass mark: below 0.7 it fails, from 0.7 on it passes. */
  lemma BadgeAgreesWithPassMark(score: real)
    ensures ScoreBadge(score) == Green ==> Scoring.Passes(score)
    ensures ScoreBadge(score) == Red ==> !Scoring.Passes(score)
    ensures 0.6 <= score < 0.7 ==> ScoreBadge(score) == Yellow && !Scoring.Passes(score)
    ensures 0.7 <= score < 0.8 ==> ScoreBadge(score) == Yellow && Scoring.Passes(score)
  {
  }

  /** How many of the values are positive. */
  function PositiveCount(vs: seq<nat>): (n: nat)
    ensures n <= |vs|
    decreases |vs|
  {
    if vs == [] then 0 else PositiveCount(vs[..|vs| - 1]) + (if vs[|vs| - 1] > 0 then 1 else 0)
  }

  /** "Sections with Content": the recorded word counts that are positive. */
  function SectionsWithContent(counts: Dict<nat>): (n: nat)
    ensures n <= |counts|
  {
    PositiveCount(Values(counts))
  }

  /** A string has a word exactly when it is not blank. */
  lemma WordsIffNotBlank(s: string)
    ensures WordCount(s) > 0 <==> Strip(s) != ""
  {
    if Strip(s) == "" {
      WordsOfBlank(s);
    } else {
      var k :| 0 <= k < |s| && !IsSpace(s[k]);
      WordsOfNonBlank(s, k);
    }
  }

  /** With unique section names, the sections with content are exactly the
      non-blank sections, the count the structure score divides. */
  lemma {:induction false} SectionsWithContentAreNonBlank(sections: Dict<string>)
    requires UniqueKeys(sections)
    ensures SectionsWithContent(Quality.WordCounts(sections)) == Quality.NonBlankCount(Values(sections))
    decreases |sections|
  {
    if sections != [] {
      var init := sections[..|sections| - 1];
      SectionsWithContentAreNonBlank(init);
      ContentStep(sections);
      NonBlankStep(sections);
      WordsIffNotBlank(sections[|sections| - 1].1);
    }
  }

  /** The last section adds one to the sections with content exactly when
      it has a word. */
  lemma ContentStep(sections: Dict<string>)
    requires sections != [] && UniqueKeys(sections)
    ensures var e := sections[|sections| - 1];
            SectionsWithContent(Quality.WordCounts(sections))
            == SectionsWithContent(Quality.WordCounts(sections[..|sections| - 1])) + (if WordCount(e.1) > 0 then 1 else 0)
  {
    var e := sections[|sections| - 1];
    WordCountsStep(sections);
    if e.1 != "" {
      var cs := Values(Quality.WordCounts(sections));
      assert cs[..|cs| - 1] == Values(Quality.WordCounts(sections[..|sections| - 1]));
    } else {
      WordsOfBlank(e.1);
    }
  }

  /** The last section adds one to the non-blank count exactly when it is
      not blank. */
  lemma NonBlankStep(sections: Dict<string>)
    requires sections != []
    ensures Quality.NonBlankCount(Values(sections))
            == Quality.NonBlankCount(Values(sections[..|sections| - 1])) + (if Strip(sections[|sections| - 1].1) != "" then 1 else 0)
  {
    var vs := Values(sections);
    assert vs[..|vs| - 1] == Values(sections[..|sections| - 1]);
  }

  /** A section with a name not seen before appends its count, or nothing
      when it is empty. */
  lemma WordCountsStep(sections: Dict<string>)
    requires sections != [] && UniqueKeys(sections)
    ensures var e := sections[|sections| - 1];
            var counts := Quality.WordCounts(sections[..|sections| - 1]);
            Values(Quality.WordCounts(sections)) == if e.1 == "" then Values(counts) else Values(counts) + [WordCount(e.1)]
  {
    var init := sections[..|sections| - 1];
    var e := sections[|sections| - 1];
    if e.1 != "" {
      var counts := Quality.WordCounts(init);
      assert !HasKey(init, e.0) by {
        forall j | 0 <= j < |init| ensures Keys(init)[j] != e.0 {
          assert init[j] == sections[j];
        }
      }
      Quality.ValuesAppend(counts, e.0, WordCount(e.1));
    }
  }
}
