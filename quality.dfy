/** The document quality metrics of `check_document_quality`
    (services/validation_service.py) as functions of the sections. */
module Quality {
  import opened Text
  import opened OrderedDict
  import Scoring

  /** The metrics dictionary, one field per key. */
  datatype QualityMetrics = QualityMetrics(
    totalWordCount: nat,
    sectionWordCounts: Dict<nat>,
    readability: real,
    structure: real,
    issues: seq<string>)

  /** `sum(len(s.split()) for s in sentences)` */
  function SentenceWords(sentences: seq<string>): (n: nat)
    decreases |sentences|
  {
    if sentences == [] then 0
    else SentenceWords(sentences[..|sentences| - 1]) + WordCount(sentences[|sentences| - 1])
  }

  /** The average number of words per `.`-separated fragment exceeds 30. */
  predicate LongSentences(content: string) {
    var sentences := Split(content, '.');
    SentenceWords(sentences) as real / |sentences| as real > 30.0
  }

  /** The average test on whole numbers: more than 30 words per fragment. */
  lemma LongSentencesByCount(content: string)
    ensures LongSentences(content) <==> SentenceWords(Split(content, '.')) > 30 * |Split(content, '.')|
  {
    var sentences := Split(content, '.');
    AverageAbove(SentenceWords(sentences), |sentences|, 30);
  }

  /** An average of `w` over `n` exceeds `bound` exactly when `w > bound * n`. */
  lemma AverageAbove(w: nat, n: nat, bound: nat)
    requires n > 0
    ensures w as real / n as real > bound as real <==> w > bound * n
  {
    var q := w as real / n as real;
    assert q * n as real == w as real;
    if q > bound as real {
      assert q * n as real > bound as real * n as real;
    } else {
      assert q * n as real <= bound as real * n as real;
    }
  }

  function BriefIssue(name: string): string {
    "Section '" + name + "' is too brief"
  }

  function LongSentenceIssue(name: string): string {
    "Section '" + name + "' has very long sentences"
  }

  /** A non-empty section of fewer than 20 words is too brief. */
  predicate TooBrief(content: string) {
    content != "" && WordCount(content) < 20
  }

  /** The issues for one section; an empty section has none. */
  function SectionIssues(name: string, content: string): (r: seq<string>)
    ensures content == "" ==> r == []
    ensures |r| <= 2
    ensures BriefIssue(name) in r <== TooBrief(content)
  {
    if content == "" then []
    else
      (if WordCount(content) < 20 then [BriefIssue(name)] else [])
      + (if LongSentences(content) then [LongSentenceIssue(name)] else [])
  }

  /** `section_word_counts`: the word count of every non-empty section. */
  function WordCounts(sections: Dict<string>): (r: Dict<nat>)
    ensures forall k :: HasKey(r, k) ==> HasKey(sections, k)
    ensures UniqueKeys(r)
    decreases |sections|
  {
    if sections == [] then []
    else
      var init := sections[..|sections| - 1];
      var e := sections[|sections| - 1];
      var counts := WordCounts(init);
      if e.1 == "" then
        forall k | HasKey(counts, k) ensures HasKey(sections, k) {
          KeyIsPrefixKey(sections, k);
        }
        counts
      else
        var r := Put(counts, e.0, WordCount(e.1));
        forall k | HasKey(r, k) ensures HasKey(sections, k) {
          if k == e.0 {
            KeyAt(sections, |sections| - 1);
          } else {
            PutOtherKey(counts, e.0, WordCount(e.1), k);
            KeyIsPrefixKey(sections, k);
          }
        }
        r
  }

  /** A key of all but the last entry is a key of the whole. */
  lemma KeyIsPrefixKey(d: Dict<string>, k: string)
    requires d != [] && HasKey(d[..|d| - 1], k)
    ensures HasKey(d, k)
  {
    var i := IndexOf(d[..|d| - 1], k);
    KeyAt(d, i);
  }

  /** `total_words` */
  function TotalWords(sections: Dict<string>): nat
    decreases |sections|
  {
    if sections == [] then 0
    else TotalWords(sections[..|sections| - 1]) + WordCount(sections[|sections| - 1].1)
  }

  /** `content_quality_issues`, in dictionary order. */
  function Issues(sections: Dict<string>): seq<string>
    decreases |sections|
  {
    if sections == [] then []
    else
      var e := sections[|sections| - 1];
      Issues(sections[..|sections| - 1]) + SectionIssues(e.0, e.1)
  }

  /** `min(total_words / 500, 1.0)`, and 0.0 for a document without words. */
  function Readability(totalWords: nat): (s: real)
    ensures 0.0 <= s <= 1.0
    ensures s == 1.0 <==> totalWords >= 500
    ensures totalWords > 0 <==> s > 0.0
  {
    if totalWords > 0 then
      var q := totalWords as real / 500.0;
      assert q * 500.0 == totalWords as real;
      Scoring.Min(q, 1.0)
    else 0.0
  }

  /** The number of values with a non-whitespace character. */
  function NonBlankCount(values: seq<string>): (n: nat)
    ensures n <= |values|
    decreases |values|
  {
    if values == [] then 0
    else NonBlankCount(values[..|values| - 1]) + (if Strip(values[|values| - 1]) != "" then 1 else 0)
  }

  /** How a quotient of naturals compares with 1. */
  lemma Quotient(a: nat, b: nat)
    requires b > 0
    ensures a as real / b as real >= 0.0
    ensures a as real / b as real > 1.0 <==> a > b
    ensures a as real / b as real == 1.0 <==> a == b
  {
    var q := a as real / b as real;
    assert q * b as real == a as real;
    if q > 1.0 {
      assert q * b as real > b as real;
    } else if q < 1.0 {
      assert q * b as real < b as real;
    }
  }

  /** `actual_sections / expected_sections`: not capped at 1. */
  function Structure(sections: Dict<string>, required: seq<string>): (s: real)
    requires required != []
    ensures s >= 0.0
    ensures s > 1.0 <==> NonBlankCount(Values(sections)) > |required|
    ensures s == 1.0 <==> NonBlankCount(Values(sections)) == |required|
  {
    Quotient(NonBlankCount(Values(sections)), |required|);
    NonBlankCount(Values(sections)) as real / |required| as real
  }

  /** `check_document_quality` */
  function Metrics(sections: Dict<string>, required: seq<string>): QualityMetrics
    requires required != []
  {
    QualityMetrics(TotalWords(sections), WordCounts(sections), Readability(TotalWords(sections)),
                   Structure(sections, required), Issues(sections))
  }

  function Sum(ns: seq<nat>): nat
    decreases |ns|
  {
    if ns == [] then 0 else Sum(ns[..|ns| - 1]) + ns[|ns| - 1]
  }

  /** Appending a fresh key appends its value. */
  lemma ValuesAppend<V>(d: Dict<V>, k: string, v: V)
    ensures Values(d + [(k, v)]) == Values(d) + [v]
  {
  }

  /** With unique section names the total is the sum of the recorded counts
      (empty sections add no word and no entry). */
  lemma {:induction false} TotalIsSumOfCounts(sections: Dict<string>)
    requires UniqueKeys(sections)
    ensures TotalWords(sections) == Sum(Values(WordCounts(sections)))
    decreases |sections|
  {
    if sections != [] {
      var init := sections[..|sections| - 1];
      var e := sections[|sections| - 1];
      TotalIsSumOfCounts(init);
      if e.1 == "" {
        assert WordCount(e.1) == 0 by { WordsOfBlank(e.1); }
      } else {
        var counts := WordCounts(init);
        assert !HasKey(init, e.0) by {
          forall j | 0 <= j < |init| ensures Keys(init)[j] != e.0 {
            assert init[j] == sections[j];
          }
        }
        ValuesAppend(counts, e.0, WordCount(e.1));
        var vs := Values(counts) + [WordCount(e.1)];
        assert vs[..|vs| - 1] == Values(counts);
      }
    }
  }

  /** Every section flagged too brief also earns the validation warning, with
      its own name and word count, since that threshold (30 words) is higher. */
  lemma BriefSectionsAreWarned(sections: Dict<string>, i: nat)
    requires i < |sections| && TooBrief(sections[i].1)
    ensures Scoring.BriefWarning(sections[i].0, WordCount(sections[i].1)) in Scoring.BriefWarnings(sections)
  {
    Scoring.BriefSectionWarned(sections, i);
  }

  /** A section of 20 to 29 words is warned about but not flagged too brief. */
  lemma WarnedButNotBrief(content: string)
    requires 20 <= WordCount(content) < 30
    ensures Scoring.WarnedBrief(content) && !TooBrief(content)
  {
  }
}
