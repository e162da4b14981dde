/** The validation service (services/validation_service.py): a result object
    the service fills in, and the service with its configuration and its
    `_current_result` slot. */
module Validation {
  import opened Text
  import opened OrderedDict
  import Config
  import opened Scoring
  import opened Quality
  import opened Report

  /** `ValidationResult`: mutable fields that the service and the caller update. */
  class ValidationResult {
    var isValid: bool
    var complianceScore: real
    var terminologyScore: real
    var completenessScore: real
    var overallScore: real
    var missingKeywords: seq<string>
    var missingSections: seq<string>
    var recommendations: seq<string>
    var warnings: seq<string>

    /** The fields as one value. */
    function View(): Verdict
      reads this
    {
      Verdict(isValid, complianceScore, terminologyScore, completenessScore, overallScore,
              missingKeywords, missingSections, recommendations, warnings)
    }

    /** A fresh result is valid, with zero scores and empty lists. */
    constructor ()
      ensures View() == Verdict(true, 0.0, 0.0, 0.0, 0.0, [], [], [], [])
    {
      isValid := true;
      complianceScore := 0.0;
      terminologyScore := 0.0;
      completenessScore := 0.0;
      overallScore := 0.0;
      missingKeywords := [];
      missingSections := [];
      recommendations := [];
      warnings := [];
    }

    /** `calculate_overall_score`: stores the weighted score and the verdict
        derived from it, and returns the score. */
    method CalculateOverallScore() returns (overall: real)
      modifies this`overallScore, this`isValid
      ensures overall == OverallScore(complianceScore, terminologyScore, completenessScore)
      ensures overallScore == overall && isValid == Passes(overall)
    {
      overallScore := complianceScore * 0.4 + terminologyScore * 0.3 + completenessScore * 0.3;
      isValid := overallScore >= 0.7;
      overall := overallScore;
    }
  }

  /** The keyword loop of `_validate_compliance_keywords`. */
  method PartitionKeywords(keywords: seq<string>, content: string) returns (found: seq<string>, missing: seq<string>)
    ensures found == Found(keywords, content)
    ensures missing == Missing(keywords, content)
  {
    found, missing := [], [];
    for i := 0 to |keywords|
      invariant found == Found(keywords[..i], content)
      invariant missing == Missing(keywords[..i], content)
    {
      assert keywords[..i + 1][..i] == keywords[..i];
      if Contains(content, Lower(keywords[i])) {
        found := found + [keywords[i]];
      } else {
        missing := missing + [keywords[i]];
      }
    }
    assert keywords[..|keywords|] == keywords;
  }

  /** The term loop of `_validate_domain_terminology`. */
  method FindTerms(terms: seq<string>, content: string) returns (found: seq<string>)
    ensures found == Found(terms, content)
  {
    found := [];
    for i := 0 to |terms|
      invariant found == Found(terms[..i], content)
    {
      assert terms[..i + 1][..i] == terms[..i];
      if Contains(content, Lower(terms[i])) {
        found := found + [terms[i]];
      }
    }
    assert terms[..|terms|] == terms;
  }

  /** The section loop of `_validate_section_completeness`. */
  method ClassifySections(sections: Dict<string>, required: seq<string>) returns (missing: seq<string>, empty: seq<string>)
    ensures missing == MissingSections(sections, required)
    ensures empty == ThinSections(sections, required)
  {
    missing, empty := [], [];
    for i := 0 to |required|
      invariant missing == MissingSections(sections, required[..i])
      invariant empty == ThinSections(sections, required[..i])
    {
      assert required[..i + 1][..i] == required[..i];
      var name := required[i];
      if !HasKey(sections, name) {
        missing := missing + [name];
      } else if Get(sections, name) == "" || |Strip(Get(sections, name))| < 50 {
        empty := empty + [name];
      }
    }
    assert required[..|required|] == required;
  }

  class ValidationService {
    const complianceKeywords: map<string, seq<string>>
    const requiredSections: seq<string>
    /** `_current_result`: set only while `_generate_recommendations` runs. */
    var currentResult: ValidationResult?

    /** There is at least one required section to score against. */
    predicate Configured() {
      requiredSections != []
    }

    /** Between calls the service holds no result. */
    predicate Valid()
      reads this
    {
      Configured() && currentResult == null
    }

    /** The result `_current_result` refers to, if any. */
    function Installed(): set<ValidationResult>
      reads this
    {
      if currentResult == null then {} else {currentResult}
    }

    /** The service reads the application's configuration tables. */
    constructor ()
      ensures complianceKeywords == Config.ComplianceKeywords && requiredSections == Config.BrdSections
      ensures Valid()
    {
      complianceKeywords := Config.ComplianceKeywords;
      requiredSections := Config.BrdSections;
      currentResult := null;
    }

    /** `_validate_compliance_keywords`: the score, and the missing keywords
        stored into `_current_result` when one is installed and the domain is known. */
    method ValidateComplianceKeywords(sections: Dict<string>, domain: string) returns (score: real)
      modifies Installed()`missingKeywords
      ensures score == ComplianceScore(complianceKeywords, sections, domain)
      ensures currentResult != null && domain in complianceKeywords ==>
        currentResult.missingKeywords == Missing(complianceKeywords[domain], AllContent(sections))
      ensures currentResult != null && domain !in complianceKeywords ==>
        currentResult.missingKeywords == old(currentResult.missingKeywords)
    {
      if domain !in complianceKeywords {
        return 0.5;
      }
      var requiredKeywords := complianceKeywords[domain];
      var allContent := AllContent(sections);
      var found, missing := PartitionKeywords(requiredKeywords, allContent);
      score := if requiredKeywords != [] then |found| as real / |requiredKeywords| as real else 0.0;
      if currentResult != null {
        currentResult.missingKeywords := missing;
      }
    }

    /** `_validate_domain_terminology` */
    method ValidateDomainTerminology(sections: Dict<string>, domain: string) returns (score: real)
      ensures score == TerminologyScore(sections, domain)
    {
      var terminology := DomainTerminology(domain);
      var found := FindTerms(terminology, AllContent(sections));
      var expected := if 5 < |terminology| then 5 else |terminology|;
      score := Scoring.Min(|found| as real / expected as real, 1.0);
    }

    /** `_validate_section_completeness`: the score, and the missing then the
        thin sections stored into `_current_result` when one is installed. */
    method ValidateSectionCompleteness(sections: Dict<string>) returns (score: real)
      requires Configured()
      modifies Installed()`missingSections
      ensures score == CompletenessScore(sections, requiredSections)
      ensures currentResult != null ==>
        currentResult.missingSections == MissingSections(sections, requiredSections) + ThinSections(sections, requiredSections)
    {
      var missing, empty := ClassifySections(sections, requiredSections);
      var total := |requiredSections|;
      var complete := total - |missing| - |empty|;
      score := complete as real / total as real;
      if currentResult != null {
        currentResult.missingSections := missing + empty;
      }
    }

    /** `_generate_recommendations`: appends the recommendations for the
        scores and lists held by `result`, then a warning per brief section;
        `_current_result` is set for the duration and cleared at the end. */
    method GenerateRecommendations(result: ValidationResult, sections: Dict<string>, domain: string)
      modifies this`currentResult, result`recommendations, result`warnings
      ensures currentResult == null
      ensures result.recommendations == old(result.recommendations) + Recommendations(domain,
        result.complianceScore, result.terminologyScore, result.completenessScore,
        result.missingKeywords, result.missingSections)
      ensures result.warnings == old(result.warnings) + BriefWarnings(sections)
    {
      currentResult := result;
      var recommendations := result.recommendations;
      recommendations := recommendations + ComplianceAdvice(domain, result.complianceScore, result.missingKeywords);
      recommendations := recommendations + TerminologyAdvice(domain, result.terminologyScore);
      recommendations := recommendations + CompletenessAdvice(result.completenessScore, result.missingSections);
      AppendThree(result.recommendations, ComplianceAdvice(domain, result.complianceScore, result.missingKeywords),
        TerminologyAdvice(domain, result.terminologyScore), CompletenessAdvice(result.completenessScore, result.missingSections));
      result.recommendations := recommendations;
      var warnings := BriefSectionWarnings(sections);
      result.warnings := result.warnings + warnings;
      currentResult := null;
    }

    /** `validate_brd_content`: a new result holding the three scores, the
        recommendations, the warnings and the overall verdict. */
    method ValidateBrdContent(sections: Dict<string>, domain: string) returns (result: ValidationResult)
      requires Valid()
      modifies this
      ensures Valid()
      ensures fresh(result)
      ensures result.View() == Validate(complianceKeywords, requiredSections, sections, domain)
    {
      result := new ValidationResult();
      ScoreSections(result, sections, domain);
      ghost var c, t, m := result.complianceScore, result.terminologyScore, result.completenessScore;
      GenerateRecommendations(result, sections, domain);
      assert result.recommendations == Recommendations(domain, c, t, m, [], []);
      assert result.warnings == BriefWarnings(sections);
      var overall := result.CalculateOverallScore();
      ValidateFields(complianceKeywords, requiredSections, sections, domain, c, t, m);
    }

    /** The three scoring steps of `validate_brd_content`, each stored in the
        result. No result is installed, so the scorers write nothing back. */
    method ScoreSections(result: ValidationResult, sections: Dict<string>, domain: string)
      requires Valid()
      modifies result`complianceScore, result`terminologyScore, result`completenessScore
      ensures result.View() == old(result.View()).(
        compliance := ComplianceScore(complianceKeywords, sections, domain),
        terminology := TerminologyScore(sections, domain),
        completeness := CompletenessScore(sections, requiredSections))
    {
      result.complianceScore := ValidateComplianceKeywords(sections, domain);
      result.terminologyScore := ValidateDomainTerminology(sections, domain);
      result.completenessScore := ValidateSectionCompleteness(sections);
    }

    /** `check_document_quality` */
    method CheckDocumentQuality(sections: Dict<string>) returns (metrics: QualityMetrics)
      requires Configured()
      ensures metrics == Metrics(sections, requiredSections)
    {
      var totalWords: nat := 0;
      var counts: Dict<nat> := [];
      var issues: seq<string> := [];
      for i := 0 to |sections|
        invariant totalWords == TotalWords(sections[..i])
        invariant counts == WordCounts(sections[..i])
        invariant issues == Issues(sections[..i])
      {
        QualityStep(sections, i);
        var (name, content) := sections[i];
        if content != "" {
          var wordCount := WordCount(content);
          counts := Put(counts, name, wordCount);
          totalWords := totalWords + wordCount;
          var found := SectionQualityIssues(name, content, wordCount);
          issues := issues + found;
        } else {
          assert WordCount(content) == 0;
        }
      }
      assert sections[..|sections|] == sections;
      var readability := 0.0;
      if totalWords > 0 {
        readability := Scoring.Min(totalWords as real / 500.0, 1.0);
      }
      var actual := NonBlankCount(Values(sections));
      metrics := QualityMetrics(totalWords, counts, readability, actual as real / |requiredSections| as real, issues);
    }

    /** `generate_validation_report`: the summary lines, then the numbered
        recommendations, the warnings and the quality issues, joined by newlines. */
    method GenerateValidationReport(result: ValidationResult, metrics: QualityMetrics, fmt: real -> string) returns (report: string)
      ensures report == ReportText(result.View(), metrics, fmt)
    {
      var lines := Summary(result.View(), metrics, fmt);
      ghost var summary := lines;
      if result.recommendations != [] {
        var numbered := NumberLines(result.recommendations);
        lines := lines + (["RECOMMENDATIONS:"] + numbered + [""]);
      }
      assert lines == summary + RecommendationBlock(result.recommendations);
      ghost var afterRecommendations := lines;
      if result.warnings != [] {
        var bulleted := BulletLines(result.warnings);
        lines := lines + (["WARNINGS:"] + bulleted + [""]);
      }
      assert lines == afterRecommendations + WarningBlock(result.warnings);
      ghost var afterWarnings := lines;
      if metrics.issues != [] {
        var bulleted := BulletLines(metrics.issues);
        lines := lines + (["CONTENT QUALITY ISSUES:"] + bulleted);
      }
      assert lines == afterWarnings + IssueBlock(metrics.issues);
      report := Join(lines, "\n");
    }
  }

  /** The numbering loop of `generate_validation_report`. */
  method NumberLines(recs: seq<string>) returns (lines: seq<string>)
    ensures lines == Numbered(recs, 1)
  {
    lines := [];
    for i := 0 to |recs|
      invariant lines == Numbered(recs[..i], 1)
    {
      NumberedNext(recs, i);
      lines := lines + ["  " + NatToString(i + 1) + ". " + recs[i]];
    }
    assert recs[..|recs|] == recs;
  }

  /** The bullet loops of `generate_validation_report`. */
  method BulletLines(items: seq<string>) returns (lines: seq<string>)
    ensures lines == Bulleted(items)
  {
    lines := [];
    for i := 0 to |items|
      invariant lines == Bulleted(items[..i])
    {
      BulletedNext(items, i);
      lines := lines + [Bullet + items[i]];
    }
    assert items[..|items|] == items;
  }

  /** The two checks of the quality loop for one non-empty section. */
  method SectionQualityIssues(name: string, content: string, wordCount: nat) returns (issues: seq<string>)
    requires content != "" && wordCount == WordCount(content)
    ensures issues == SectionIssues(name, content)
  {
    issues := [];
    if wordCount < 20 {
      issues := issues + [BriefIssue(name)];
    }
    var sentences := Split(content, '.');
    if SentenceWords(sentences) as real / |sentences| as real > 30.0 {
      issues := issues + [LongSentenceIssue(name)];
    }
  }

  /** One more section extends each of the three folds of the quality loop. */
  lemma QualityStep(sections: Dict<string>, i: nat)
    requires i < |sections|
    ensures TotalWords(sections[..i + 1]) == TotalWords(sections[..i]) + WordCount(sections[i].1)
    ensures WordCounts(sections[..i + 1]) == if sections[i].1 == "" then WordCounts(sections[..i])
      else Put(WordCounts(sections[..i]), sections[i].0, WordCount(sections[i].1))
    ensures Issues(sections[..i + 1]) == Issues(sections[..i]) + SectionIssues(sections[i].0, sections[i].1)
  {
    assert sections[..i + 1][..i] == sections[..i];
  }

  /** The warning loop of `_generate_recommendations`. */
  method BriefSectionWarnings(sections: Dict<string>) returns (warnings: seq<string>)
    ensures warnings == BriefWarnings(sections)
  {
    warnings := [];
    for i := 0 to |sections|
      invariant warnings == BriefWarnings(sections[..i])
    {
      assert sections[..i + 1][..i] == sections[..i];
      var (name, content) := sections[i];
      if content != "" {
        var wordCount := WordCount(content);
        if wordCount < 30 {
          warnings := warnings + [BriefWarning(name, wordCount)];
        }
      }
    }
    assert sections[..|sections|] == sections;
  }

  /** `Validate` field by field, for given scores. */
  lemma ValidateFields(table: map<string, seq<string>>, required: seq<string>, sections: Dict<string>, domain: string,
                       c: real, t: real, m: real)
    requires required != []
    requires c == ComplianceScore(table, sections, domain)
    requires t == TerminologyScore(sections, domain)
    requires m == CompletenessScore(sections, required)
    ensures Validate(table, required, sections, domain) ==
      Verdict(Passes(OverallScore(c, t, m)), c, t, m, OverallScore(c, t, m), [], [],
              Recommendations(domain, c, t, m, [], []), BriefWarnings(sections))
  {
  }

  lemma AppendThree<T>(xs: seq<T>, a: seq<T>, b: seq<T>, c: seq<T>)
    ensures xs + a + b + c == xs + (a + b + c)
  {
  }

  lemma NumberedNext(recs: seq<string>, i: nat)
    requires i < |recs|
    ensures Numbered(recs[..i + 1], 1) == Numbered(recs[..i], 1) + ["  " + NatToString(i + 1) + ". " + recs[i]]
  {
    var l, r := Numbered(recs[..i + 1], 1), Numbered(recs[..i], 1) + ["  " + NatToString(i + 1) + ". " + recs[i]];
    forall j | 0 <= j < i + 1 ensures l[j] == r[j] {
      assert recs[..i + 1][j] == recs[j];
    }
  }

  lemma BulletedNext(items: seq<string>, i: nat)
    requires i < |items|
    ensures Bulleted(items[..i + 1]) == Bulleted(items[..i]) + [Bullet + items[i]]
  {
    var l, r := Bulleted(items[..i + 1]), Bulleted(items[..i]) + [Bullet + items[i]];
    forall j | 0 <= j < i + 1 ensures l[j] == r[j] {
      assert items[..i + 1][j] == items[j];
    }
  }
}
