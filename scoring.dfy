/** The scores of the validation service (services/validation_service.py) as
    functions of the sections, the domain and the configuration tables. */
module Scoring {
  import opened Text
  import opened OrderedDict

  /** `" ".join(brd_sections.values()).lower()` */
  function AllContent(sections: Dict<string>): string {
    Lower(Join(Values(sections), " "))
  }

  /** Whether `term`, lower-cased, occurs in `content`. */
  predicate Mentions(content: string, term: string) {
    Contains(content, Lower(term))
  }

  /** The terms of `terms` that `content` mentions, in order. */
  function Found(terms: seq<string>, content: string): (r: seq<string>)
    ensures |r| <= |terms|
    decreases |terms|
  {
    if terms == [] then []
    else
      var init := terms[..|terms| - 1];
      var t := terms[|terms| - 1];
      Found(init, content) + (if Mentions(content, t) then [t] else [])
  }

  /** The terms of `terms` that `content` does not mention, in order. */
  function Missing(terms: seq<string>, content: string): (r: seq<string>)
    ensures |r| <= |terms|
    decreases |terms|
  {
    if terms == [] then []
    else
      var init := terms[..|terms| - 1];
      var t := terms[|terms| - 1];
      Missing(init, content) + (if Mentions(content, t) then [] else [t])
  }

  /** The found terms are the terms that occur in the content. */
  lemma {:induction false} FoundMembers(terms: seq<string>, content: string)
    ensures forall t :: t in Found(terms, content) <==> t in terms && Occurs(Lower(t), content)
    decreases |terms|
  {
    if terms != [] {
      var init := terms[..|terms| - 1];
      FoundMembers(init, content);
      assert terms == init + [terms[|terms| - 1]];
    }
  }

  /** The missing terms are the terms that do not occur in the content. */
  lemma {:induction false} MissingMembers(terms: seq<string>, content: string)
    ensures forall t :: t in Missing(terms, content) <==> t in terms && !Occurs(Lower(t), content)
    decreases |terms|
  {
    if terms != [] {
      var init := terms[..|terms| - 1];
      MissingMembers(init, content);
      assert terms == init + [terms[|terms| - 1]];
    }
  }

  /** Every term is either found or missing. */
  lemma {:induction false} FoundPlusMissing(terms: seq<string>, content: string)
    ensures |Found(terms, content)| + |Missing(terms, content)| == |terms|
    decreases |terms|
  {
    if terms != [] {
      FoundPlusMissing(terms[..|terms| - 1], content);
    }
  }

  /** `len(found) / len(required) if required else 0` */
  function KeywordRatio(keywords: seq<string>, content: string): (s: real)
    ensures 0.0 <= s <= 1.0
    ensures keywords == [] ==> s == 0.0
  {
    if keywords == [] then 0.0
    else
      RatioBounds(|Found(keywords, content)|, |keywords|);
      |Found(keywords, content)| as real / |keywords| as real
  }

  /** A quotient of naturals with the numerator at most the denominator is in [0, 1]. */
  lemma RatioBounds(a: nat, b: nat)
    requires 0 < b && a <= b
    ensures 0.0 <= a as real / b as real <= 1.0
  {
    assert a as real / b as real * b as real == a as real;
  }

  /** A quotient of naturals is 1 exactly when they are equal. */
  lemma RatioIsOne(a: nat, b: nat)
    requires 0 < b && a <= b
    ensures (a as real / b as real == 1.0) <==> a == b
  {
    if a as real / b as real == 1.0 {
      assert a as real == (a as real / b as real) * b as real;
    }
  }

  /** The keyword ratio is 1 exactly when the list is non-empty and no keyword
      is missing. */
  lemma KeywordRatioFull(keywords: seq<string>, content: string)
    ensures KeywordRatio(keywords, content) == 1.0 <==> keywords != [] && Missing(keywords, content) == []
  {
    FoundPlusMissing(keywords, content);
    if keywords != [] {
      RatioIsOne(|Found(keywords, content)|, |keywords|);
    }
  }

  /** `_validate_compliance_keywords`: 0.5 for a domain that is not a key of
      the (case-sensitive) table, otherwise the ratio of the domain's keywords
      found in the content. */
  function ComplianceScore(table: map<string, seq<string>>, sections: Dict<string>, domain: string): (s: real)
    ensures 0.0 <= s <= 1.0
    ensures domain !in table ==> s == 0.5
    ensures domain in table && table[domain] == [] ==> s == 0.0
  {
    if domain !in table then 0.5 else KeywordRatio(table[domain], AllContent(sections))
  }

  /** The keywords of a known domain that the content lacks; empty for an
      unknown domain, for which nothing is computed. */
  function MissingKeywords(table: map<string, seq<string>>, sections: Dict<string>, domain: string): seq<string> {
    if domain !in table then [] else Missing(table[domain], AllContent(sections))
  }

  /** `_get_domain_terminology`: the vocabulary is chosen ignoring case. */
  function DomainTerminology(domain: string): (terms: seq<string>)
    ensures Lower(domain) == "pharma" ==> |terms| == 13
    ensures Lower(domain) == "finance" ==> |terms| == 12
    ensures Lower(domain) != "pharma" && Lower(domain) != "finance" ==> |terms| == 4
  {
    if Lower(domain) == "pharma" then
      ["clinical trial", "adverse event", "fda", "hipaa", "gxp",
       "investigational", "pharmacovigilance", "regulatory", "validation",
       "protocol", "informed consent", "data integrity", "audit trail"]
    else if Lower(domain) == "finance" then
      ["credit risk", "basel iii", "probability of default", "loss given default",
       "collateral", "regulatory", "compliance", "risk assessment",
       "capital adequacy", "stress testing", "audit", "governance"]
    else
      ["business", "requirements", "stakeholders", "compliance"]
  }

  function Min(a: real, b: real): real {
    if a <= b then a else b
  }

  /** `min(len(found) / min(5, len(terms)), 1.0)` */
  function TermRatio(terms: seq<string>, content: string): (s: real)
    requires terms != []
    ensures 0.0 <= s <= 1.0
  {
    var expected := if |terms| < 5 then |terms| else 5;
    Min(|Found(terms, content)| as real / expected as real, 1.0)
  }

  /** Finding five terms is enough for the full score. */
  lemma FiveTermsSaturate(terms: seq<string>, content: string)
    requires terms != [] && |Found(terms, content)| >= 5
    ensures TermRatio(terms, content) == 1.0
  {
    var expected := if |terms| < 5 then |terms| else 5;
    var f := |Found(terms, content)| as real;
    assert expected as real <= f;
    assert f / expected as real >= 1.0 by {
      assert f / expected as real * expected as real == f;
    }
  }

  /** A vocabulary shorter than five is saturated only when every term is found. */
  lemma ShortVocabularySaturation(terms: seq<string>, content: string)
    requires 0 < |terms| < 5
    ensures TermRatio(terms, content) == 1.0 <==> Missing(terms, content) == []
  {
    FoundPlusMissing(terms, content);
    var f := |Found(terms, content)|;
    RatioBounds(f, |terms|);
    RatioIsOne(f, |terms|);
    assert TermRatio(terms, content) == f as real / |terms| as real;
  }

  /** `_validate_domain_terminology` */
  function TerminologyScore(sections: Dict<string>, domain: string): (s: real)
    ensures 0.0 <= s <= 1.0
  {
    TermRatio(DomainTerminology(domain), AllContent(sections))
  }

  /** `not v or len(v.strip()) < 50` */
  predicate Thin(v: string) {
    v == "" || |Strip(v)| < 50
  }

  /** The required names that are not keys, in order. */
  function MissingSections(sections: Dict<string>, required: seq<string>): (r: seq<string>)
    decreases |required|
  {
    if required == [] then []
    else
      var init := required[..|required| - 1];
      var n := required[|required| - 1];
      MissingSections(sections, init) + (if HasKey(sections, n) then [] else [n])
  }

  /** The required names that are keys with a thin value, in order. */
  function ThinSections(sections: Dict<string>, required: seq<string>): (r: seq<string>)
    decreases |required|
  {
    if required == [] then []
    else
      var init := required[..|required| - 1];
      var n := required[|required| - 1];
      ThinSections(sections, init) + (if HasKey(sections, n) && Thin(Get(sections, n)) then [n] else [])
  }

  /** The missing sections are the required names that are not keys. */
  lemma {:induction false} MissingSectionMembers(sections: Dict<string>, required: seq<string>)
    ensures forall n :: n in MissingSections(sections, required) <==> n in required && !HasKey(sections, n)
    decreases |required|
  {
    if required != [] {
      var init := required[..|required| - 1];
      MissingSectionMembers(sections, init);
      assert required == init + [required[|required| - 1]];
    }
  }

  /** The thin sections are the required keys whose value is empty or short. */
  lemma {:induction false} ThinSectionMembers(sections: Dict<string>, required: seq<string>)
    ensures forall n :: n in ThinSections(sections, required) <==>
      n in required && HasKey(sections, n) && Thin(Get(sections, n))
    decreases |required|
  {
    if required != [] {
      var init := required[..|required| - 1];
      ThinSectionMembers(sections, init);
      assert required == init + [required[|required| - 1]];
    }
  }

  /** Every required name is counted at most once, as missing or as thin. */
  lemma {:induction false} IncompleteBound(sections: Dict<string>, required: seq<string>)
    ensures |MissingSections(sections, required)| + |ThinSections(sections, required)| <= |required|
    decreases |required|
  {
    if required != [] {
      IncompleteBound(sections, required[..|required| - 1]);
    }
  }

  /** `_validate_section_completeness`: the share of required sections that are
      present and not thin. */
  function CompletenessScore(sections: Dict<string>, required: seq<string>): (s: real)
    requires required != []
    ensures 0.0 <= s <= 1.0
  {
    IncompleteBound(sections, required);
    var complete := |required| - |MissingSections(sections, required)| - |ThinSections(sections, required)|;
    RatioBounds(complete, |required|);
    complete as real / |required| as real
  }

  /** Completeness is full exactly when no required section is missing or thin. */
  lemma CompletenessFull(sections: Dict<string>, required: seq<string>)
    requires required != []
    ensures CompletenessScore(sections, required) == 1.0 <==>
      MissingSections(sections, required) == [] && ThinSections(sections, required) == []
  {
    IncompleteBound(sections, required);
    RatioIsOne(|required| - |MissingSections(sections, required)| - |ThinSections(sections, required)|, |required|);
  }

  /** `calculate_overall_score`: the weighted sum 0.4/0.3/0.3. */
  function OverallScore(compliance: real, terminology: real, completeness: real): real {
    compliance * 0.4 + terminology * 0.3 + completeness * 0.3
  }

  /** A result passes at an overall score of at least 0.7. */
  predicate Passes(overall: real) {
    overall >= 0.7
  }

  /** The overall score of three scores in [0, 1] is in [0, 1], and it is
      monotone in each of them. */
  lemma OverallBounds(c: real, t: real, m: real, c': real, t': real, m': real)
    requires 0.0 <= c <= c' <= 1.0 && 0.0 <= t <= t' <= 1.0 && 0.0 <= m <= m' <= 1.0
    ensures 0.0 <= OverallScore(c, t, m) <= OverallScore(c', t', m') <= 1.0
  {
  }

  /** Without any compliance keyword a document cannot pass. */
  lemma NoComplianceFails(t: real, m: real)
    requires t <= 1.0 && m <= 1.0
    ensures !Passes(OverallScore(0.0, t, m))
  {
  }

  /** A document for a domain without a keyword table passes when its
      terminology and completeness are full. */
  lemma UnknownDomainCanPass(table: map<string, seq<string>>, sections: Dict<string>, domain: string)
    requires domain !in table
    ensures Passes(OverallScore(ComplianceScore(table, sections, domain), 1.0, 1.0))
  {
  }

  /** The first recommendation for a weak compliance score. */
  function ComplianceMessage(domain: string): string {
    "Consider adding more compliance references for " + domain + " domain"
  }

  const KeywordAdvicePrefix: string := "Include these compliance keywords: "

  /** The compliance recommendations: a general one, then at most three missing keywords. */
  function ComplianceAdvice(domain: string, compliance: real, missingKeywords: seq<string>): (r: seq<string>)
    ensures compliance >= 0.8 ==> r == []
    ensures compliance < 0.8 ==> r != [] && r[0] == ComplianceMessage(domain)
    ensures compliance < 0.8 && missingKeywords != [] ==>
      |r| == 2 && r[1] == KeywordAdvicePrefix + Join(Take(missingKeywords, 3), ", ")
    ensures missingKeywords == [] ==> |r| <= 1
  {
    if compliance < 0.8 then
      [ComplianceMessage(domain)]
      + (if missingKeywords != [] then [KeywordAdvicePrefix + Join(Take(missingKeywords, 3), ", ")] else [])
    else []
  }

  function TerminologyMessage(domain: string): string {
    "Include more " + domain + "-specific terminology for better domain alignment"
  }

  function TerminologyAdvice(domain: string, terminology: real): (r: seq<string>)
    ensures r == [] <==> terminology >= 0.7
  {
    if terminology < 0.7 then [TerminologyMessage(domain)] else []
  }

  const SectionAdvicePrefix: string := "Add content for missing sections: "
  const ContentAdvice: string := "Ensure each section has comprehensive content (minimum 50 words)"

  /** The completeness recommendations: the incomplete sections, then a general one. */
  function CompletenessAdvice(completeness: real, missingSections: seq<string>): (r: seq<string>)
    ensures completeness >= 0.8 ==> r == []
    ensures completeness < 0.8 ==> r != [] && r[|r| - 1] == ContentAdvice
    ensures completeness < 0.8 && missingSections != [] ==>
      |r| == 2 && r[0] == SectionAdvicePrefix + Join(missingSections, ", ")
    ensures missingSections == [] ==> |r| <= 1
  {
    if completeness < 0.8 then
      (if missingSections != [] then [SectionAdvicePrefix + Join(missingSections, ", ")] else [])
      + [ContentAdvice]
    else []
  }

  /** The recommendations `_generate_recommendations` appends, in order. */
  function Recommendations(domain: string, compliance: real, terminology: real, completeness: real,
                           missingKeywords: seq<string>, missingSections: seq<string>): seq<string>
  {
    ComplianceAdvice(domain, compliance, missingKeywords)
    + TerminologyAdvice(domain, terminology)
    + CompletenessAdvice(completeness, missingSections)
  }

  /** Strong scores earn no recommendation, and there are never more than five. */
  lemma RecommendationsBounds(domain: string, c: real, t: real, m: real, kws: seq<string>, secs: seq<string>)
    ensures |Recommendations(domain, c, t, m, kws, secs)| <= 5
    ensures c >= 0.8 && t >= 0.7 && m >= 0.8 ==> Recommendations(domain, c, t, m, kws, secs) == []
    ensures kws == [] && secs == [] ==> |Recommendations(domain, c, t, m, kws, secs)| <= 3
  {
  }

  /** The warning for a non-empty section of fewer than 30 words. */
  function BriefWarning(name: string, words: nat): string {
    "Section '" + name + "' appears to be too brief (" + NatToString(words) + " words)"
  }

  /** Whether a section earns the brevity warning. */
  predicate WarnedBrief(content: string) {
    content != "" && WordCount(content) < 30
  }

  /** The brevity warnings for the sections, in dictionary order. */
  function BriefWarnings(sections: Dict<string>): (r: seq<string>)
    ensures |r| <= |sections|
    decreases |sections|
  {
    if sections == [] then []
    else
      var init := sections[..|sections| - 1];
      var e := sections[|sections| - 1];
      BriefWarnings(init) + (if WarnedBrief(e.1) then [BriefWarning(e.0, WordCount(e.1))] else [])
  }

  /** Every non-empty section of fewer than 30 words gets the warning that
      carries its own name and word count. */
  lemma {:induction false} BriefSectionWarned(sections: Dict<string>, i: nat)
    requires i < |sections| && WarnedBrief(sections[i].1)
    ensures BriefWarning(sections[i].0, WordCount(sections[i].1)) in BriefWarnings(sections)
    decreases |sections|
  {
    if i < |sections| - 1 {
      var init := sections[..|sections| - 1];
      assert init[i] == sections[i];
      BriefSectionWarned(init, i);
    }
  }

  /** Without a brief non-empty section there is no warning. */
  lemma {:induction false} NoBriefNoWarnings(sections: Dict<string>)
    requires forall i :: 0 <= i < |sections| ==> !WarnedBrief(sections[i].1)
    ensures BriefWarnings(sections) == []
    decreases |sections|
  {
    if sections != [] {
      var init := sections[..|sections| - 1];
      assert forall i :: 0 <= i < |init| ==> init[i] == sections[i];
      NoBriefNoWarnings(init);
    }
  }

  /** What `validate_brd_content` returns, field by field. */
  datatype Verdict = Verdict(
    isValid: bool,
    compliance: real,
    terminology: real,
    completeness: real,
    overall: real,
    missingKeywords: seq<string>,
    missingSections: seq<string>,
    recommendations: seq<string>,
    warnings: seq<string>)

  /** `validate_brd_content` as written: the scorers run before
      `_generate_recommendations` installs `_current_result`, so their
      write-backs never happen and both missing lists stay empty. */
  function Validate(table: map<string, seq<string>>, required: seq<string>, sections: Dict<string>, domain: string): (v: Verdict)
    requires required != []
    ensures v.missingKeywords == [] && v.missingSections == []
    ensures v.isValid <==> Passes(v.overall)
  {
    var c := ComplianceScore(table, sections, domain);
    var t := TerminologyScore(sections, domain);
    var m := CompletenessScore(sections, required);
    var o := OverallScore(c, t, m);
    Verdict(Passes(o), c, t, m, o, [], [], Recommendations(domain, c, t, m, [], []), BriefWarnings(sections))
  }

  /** What the recommendations evidently mean to use: the scorers' missing
      keywords and the missing sections followed by the thin ones. */
  function ValidateIntended(table: map<string, seq<string>>, required: seq<string>, sections: Dict<string>, domain: string): (v: Verdict)
    requires required != []
    ensures v.missingKeywords == MissingKeywords(table, sections, domain)
    ensures v.missingSections == MissingSections(sections, required) + ThinSections(sections, required)
  {
    var c := ComplianceScore(table, sections, domain);
    var t := TerminologyScore(sections, domain);
    var m := CompletenessScore(sections, required);
    var o := OverallScore(c, t, m);
    var kws := MissingKeywords(table, sections, domain);
    var secs := MissingSections(sections, required) + ThinSections(sections, required);
    Verdict(Passes(o), c, t, m, o, kws, secs, Recommendations(domain, c, t, m, kws, secs), BriefWarnings(sections))
  }

  /** A string that differs from `p` at a position inside `p` does not start with `p`. */
  lemma DiffersAt(s: string, p: string, i: nat)
    requires i < |p| && i < |s| && s[i] != p[i]
    ensures !StartsWith(s, p)
  {
    if |p| <= |s| {
      assert s[..|p|][i] == s[i];
    }
  }

  /** Whether a recommendation lists missing keywords or sections. */
  predicate ListsMissing(r: string) {
    StartsWith(r, KeywordAdvicePrefix) || StartsWith(r, SectionAdvicePrefix)
  }

  lemma ComplianceMessageListsNothing(domain: string)
    ensures !ListsMissing(ComplianceMessage(domain))
  {
    var r := ComplianceMessage(domain);
    assert r[33] == 'e' && KeywordAdvicePrefix[33] == ':' && SectionAdvicePrefix[33] == ' ';
    DiffersAt(r, KeywordAdvicePrefix, 33);
    DiffersAt(r, SectionAdvicePrefix, 33);
  }

  lemma TerminologyMessageListsNothing(domain: string)
    ensures !ListsMissing(TerminologyMessage(domain))
  {
    var r := TerminologyMessage(domain);
    var lead := "Include more ";
    assert r == lead + (domain + "-specific terminology for better domain alignment");
    assert lead[8] == 'm' && KeywordAdvicePrefix[8] == 't' && SectionAdvicePrefix[0] == 'A';
    DiffersAt(r, KeywordAdvicePrefix, 8);
    DiffersAt(r, SectionAdvicePrefix, 0);
  }

  lemma ContentAdviceListsNothing()
    ensures !ListsMissing(ContentAdvice)
  {
    assert ContentAdvice[33] == 's' && KeywordAdvicePrefix[33] == ':' && SectionAdvicePrefix[33] == ' ';
    DiffersAt(ContentAdvice, KeywordAdvicePrefix, 33);
    DiffersAt(ContentAdvice, SectionAdvicePrefix, 33);
  }

  /** Without missing lists, every recommendation is one of the three general ones. */
  lemma GeneralAdviceOnly(domain: string, c: real, t: real, m: real)
    ensures forall r :: r in Recommendations(domain, c, t, m, [], []) ==>
      r == ComplianceMessage(domain) || r == TerminologyMessage(domain) || r == ContentAdvice
  {
    var a := ComplianceAdvice(domain, c, []);
    var b := TerminologyAdvice(domain, t);
    var d := CompletenessAdvice(m, []);
    assert forall r :: r in a ==> r == ComplianceMessage(domain);
    assert forall r :: r in b ==> r == TerminologyMessage(domain);
    assert forall r :: r in d ==> r == ContentAdvice;
    assert Recommendations(domain, c, t, m, [], []) == a + b + d;
  }

  /** As written, validation never names a missing keyword or a missing section. */
  lemma ValidateNeverListsMissing(table: map<string, seq<string>>, required: seq<string>, sections: Dict<string>, domain: string)
    requires required != []
    ensures forall r :: r in Validate(table, required, sections, domain).recommendations ==> !ListsMissing(r)
  {
    var v := Validate(table, required, sections, domain);
    GeneralAdviceOnly(domain, v.compliance, v.terminology, v.completeness);
    ComplianceMessageListsNothing(domain);
    TerminologyMessageListsNothing(domain);
    ContentAdviceListsNothing();
  }

  /** With the missing lists passed on, a weak compliance score with missing
      keywords names up to three of them, and weak completeness with an
      incomplete section names them all. */
  lemma IntendedListsMissing(table: map<string, seq<string>>, required: seq<string>, sections: Dict<string>, domain: string)
    requires required != []
    ensures var v := ValidateIntended(table, required, sections, domain);
      v.compliance < 0.8 && v.missingKeywords != [] ==>
        v.recommendations[1] == KeywordAdvicePrefix + Join(Take(v.missingKeywords, 3), ", ")
    ensures var v := ValidateIntended(table, required, sections, domain);
      v.completeness < 0.8 && v.missingSections != [] ==>
        SectionAdvicePrefix + Join(v.missingSections, ", ") in v.recommendations
  {
    var v := ValidateIntended(table, required, sections, domain);
    var a := ComplianceAdvice(domain, v.compliance, v.missingKeywords);
    var b := TerminologyAdvice(domain, v.terminology);
    var d := CompletenessAdvice(v.completeness, v.missingSections);
    assert v.recommendations == a + b + d;
    if v.completeness < 0.8 && v.missingSections != [] {
      assert v.recommendations[|a| + |b|] == d[0];
    }
  }
}
