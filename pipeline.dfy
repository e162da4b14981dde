/** What the section parser guarantees to the scorers that read its result:
    the parse (services/ai_service.py) feeds the completeness and structure
    scores (services/validation_service.py). */
module Pipeline {
  import opened Text
  import opened OrderedDict
  import Config
  import opened SectionParser
  import Scoring
  import Quality

  /** A placeholder has no leading or trailing whitespace and at least 63
      characters, so the completeness scorer never finds it thin. */
  lemma PlaceholderNeverThin(name: string)
    ensures |Strip(Placeholder(name))| >= 63
    ensures !Scoring.Thin(Placeholder(name))
  {
    var p := Placeholder(name);
    assert p[0] == '[' && p[|p| - 1] == ']';
    StripNoOp(p);
  }

  /** The sections the scan stores before reconciliation. */
  function Scanned(text: string): Dict<string> {
    Close(ScanLines(Split(text, '\n')))
  }

  /** A required name is a key of the parse: it was stored by the scan, or it
      maps to its placeholder. */
  lemma RequiredKeyOfParse(text: string, n: string)
    requires n in Config.BrdSections
    ensures HasKey(Parse(text), n)
    ensures !HasKey(Scanned(text), n) ==> Get(Parse(text), n) == Placeholder(n)
  {
    ReconcileKeyOf(Scanned(text), Config.BrdSections, n);
    if !HasKey(Scanned(text), n) {
      ReconcileFillsAbsent(Scanned(text), Config.BrdSections, n);
    }
  }

  /** After parsing, the completeness scorer never finds a required section
      missing, whatever the text. */
  lemma ParseHasNoMissingSection(text: string)
    ensures Scoring.MissingSections(Parse(text), Config.BrdSections) == []
  {
    var d := Parse(text);
    Scoring.MissingSectionMembers(d, Config.BrdSections);
    var missing := Scoring.MissingSections(d, Config.BrdSections);
    if missing != [] {
      var n := missing[0];
      assert n in missing;
      RequiredKeyOfParse(text, n);
      assert false;
    }
  }

  /** A required section that the text did not supply is complete: its
      placeholder is long enough, so only sections the text wrote can be thin. */
  lemma ThinSectionsWereWritten(text: string, n: string)
    requires n in Scoring.ThinSections(Parse(text), Config.BrdSections)
    ensures HasKey(Scanned(text), n)
  {
    Scoring.ThinSectionMembers(Parse(text), Config.BrdSections);
    RequiredKeyOfParse(text, n);
    if !HasKey(Scanned(text), n) {
      PlaceholderNeverThin(n);
      assert false;
    }
  }

  /** A text without letters, the empty text included, scans to nothing. */
  lemma LetterlessScansNothing(text: string)
    requires forall i :: 0 <= i < |text| ==> !IsAlpha(text[i])
    ensures Scanned(text) == []
  {
    var lines := Split(text, '\n');
    forall l | l in lines ensures !IsSectionHeader(Strip(l)) {
      SplitChars(text, '\n');
      StripChars(l);
      var t := Strip(l);
      forall i | 0 <= i < |t| ensures !IsAlpha(t[i]) {
        assert t[i] in l;
        var j :| 0 <= j < |text| && text[j] == t[i];
      }
      NoLetterNoHeader(t);
    }
    ScanNoHeader(lines);
  }

  /** Values that are all non-blank are all counted. */
  lemma {:induction false} AllNonBlank(vs: seq<string>)
    requires forall i :: 0 <= i < |vs| ==> Strip(vs[i]) != ""
    ensures Quality.NonBlankCount(vs) == |vs|
    decreases |vs|
  {
    if vs != [] {
      AllNonBlank(vs[..|vs| - 1]);
    }
  }

  /** When the scan stores nothing, no required section is thin. */
  lemma NothingScannedNothingThin(text: string)
    requires Scanned(text) == []
    ensures Scoring.ThinSections(Parse(text), Config.BrdSections) == []
  {
    var thin := Scoring.ThinSections(Parse(text), Config.BrdSections);
    if thin != [] {
      assert thin[0] in thin;
      ThinSectionsWereWritten(text, thin[0]);
      assert false;
    }
  }

  /** For a text without letters no required section is thin or missing. */
  lemma LetterlessTextComplete(text: string)
    requires forall i :: 0 <= i < |text| ==> !IsAlpha(text[i])
    ensures Scoring.CompletenessScore(Parse(text), Config.BrdSections) == 1.0
  {
    LetterlessScansNothing(text);
    ParseHasNoMissingSection(text);
    NothingScannedNothingThin(text);
    Scoring.CompletenessFull(Parse(text), Config.BrdSections);
  }

  /** For a text without letters every value is a non-blank placeholder. */
  lemma LetterlessTextStructured(text: string)
    requires forall i :: 0 <= i < |text| ==> !IsAlpha(text[i])
    ensures Quality.Structure(Parse(text), Config.BrdSections) == 1.0
  {
    LetterlessTextGivesPlaceholders(text);
    PlaceholdersAllCount(Config.BrdSections);
  }

  /** A dictionary of placeholders has only non-blank values. */
  lemma PlaceholdersAllCount(names: seq<string>)
    ensures Quality.NonBlankCount(Values(FromKeys(names, Placeholder))) == |names|
  {
    var vs := Values(FromKeys(names, Placeholder));
    forall i | 0 <= i < |vs| ensures Strip(vs[i]) != "" {
      assert vs[i] == Placeholder(names[i]);
      PlaceholderNeverThin(names[i]);
    }
    AllNonBlank(vs);
  }

  /** For a text without letters, the empty text included, every required
      section is a complete placeholder: the completeness score is 1.0, and
      so is the structure score. */
  lemma LetterlessTextScores(text: string)
    requires forall i :: 0 <= i < |text| ==> !IsAlpha(text[i])
    ensures Scoring.CompletenessScore(Parse(text), Config.BrdSections) == 1.0
    ensures Quality.Structure(Parse(text), Config.BrdSections) == 1.0
  {
    LetterlessTextComplete(text);
    LetterlessTextStructured(text);
  }
}
