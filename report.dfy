/** The text of `generate_validation_report` (services/validation_service.py).
    Numbers printed with two decimals go through `fmt`, which stands for
    Python's `:.2f` formatting. */
module Report {
  import opened Text
  import opened Scoring
  import opened Quality

  const Bullet: string := "  \U{2022} "

  /** `f"  {i}. {rec}"` for every recommendation, numbered from `first`. */
  function Numbered(recs: seq<string>, first: nat): (r: seq<string>)
    ensures |r| == |recs|
    ensures forall i {:trigger r[i]} :: 0 <= i < |recs| ==> r[i] == "  " + NatToString(first + i) + ". " + recs[i]
    decreases |recs|
  {
    if recs == [] then [] else ["  " + NatToString(first) + ". " + recs[0]] + Numbered(recs[1..], first + 1)
  }

  /** `f"  • {item}"` for every item. */
  function Bulleted(items: seq<string>): (r: seq<string>)
    ensures |r| == |items|
    ensures forall i {:trigger r[i]} :: 0 <= i < |items| ==> r[i] == Bullet + items[i]
  {
    seq(|items|, i requires 0 <= i < |items| => Bullet + items[i])
  }

  function Status(isValid: bool): string {
    if isValid then "PASSED" else "FAILED"
  }

  const Title := "=== BRD VALIDATION REPORT ==="

  /** The fourteen lines every report starts with, the title line first. */
  function Summary(v: Verdict, m: QualityMetrics, fmt: real -> string): (r: seq<string>)
    ensures |r| == 14 && r[0] == Title + "\n"
  {
    [ Title + "\n",
      "Overall Status: " + Status(v.isValid),
      "Overall Score: " + fmt(v.overall) + "/1.00",
      "",
      "DETAILED SCORES:",
      "  Compliance Score: " + fmt(v.compliance) + "/1.00",
      "  Terminology Score: " + fmt(v.terminology) + "/1.00",
      "  Completeness Score: " + fmt(v.completeness) + "/1.00",
      "",
      "QUALITY METRICS:",
      "  Total Word Count: " + NatToString(m.totalWordCount),
      "  Readability Score: " + fmt(m.readability) + "/1.00",
      "  Structure Score: " + fmt(m.structure) + "/1.00",
      "" ]
  }

  function RecommendationBlock(recs: seq<string>): (r: seq<string>)
    ensures recs == [] ==> r == []
    ensures recs != [] ==> |r| == |recs| + 2
  {
    if recs == [] then [] else ["RECOMMENDATIONS:"] + Numbered(recs, 1) + [""]
  }

  function WarningBlock(warnings: seq<string>): (r: seq<string>)
    ensures warnings == [] ==> r == []
    ensures warnings != [] ==> |r| == |warnings| + 2
  {
    if warnings == [] then [] else ["WARNINGS:"] + Bulleted(warnings) + [""]
  }

  /** The last block has no blank line after it. */
  function IssueBlock(issues: seq<string>): (r: seq<string>)
    ensures issues == [] ==> r == []
    ensures issues != [] ==> |r| == |issues| + 1
  {
    if issues == [] then [] else ["CONTENT QUALITY ISSUES:"] + Bulleted(issues)
  }

  /** `report_lines`, in order. */
  function ReportLines(v: Verdict, m: QualityMetrics, fmt: real -> string): seq<string> {
    Summary(v, m, fmt) + RecommendationBlock(v.recommendations) + WarningBlock(v.warnings) + IssueBlock(m.issues)
  }

  /** `"\n".join(report_lines)` */
  function ReportText(v: Verdict, m: QualityMetrics, fmt: real -> string): string {
    Join(ReportLines(v, m, fmt), "\n")
  }

  /** The report always has the fourteen summary lines, then one block per
      non-empty list: a heading, its items and (except for the last block) a
      blank line. */
  lemma ReportLength(v: Verdict, m: QualityMetrics, fmt: real -> string)
    ensures |ReportLines(v, m, fmt)| ==
      14 + (if v.recommendations == [] then 0 else |v.recommendations| + 2)
         + (if v.warnings == [] then 0 else |v.warnings| + 2)
         + (if m.issues == [] then 0 else |m.issues| + 1)
  {
  }

  /** The second line says PASSED exactly for a valid result. */
  lemma StatusLine(v: Verdict, m: QualityMetrics, fmt: real -> string)
    ensures ReportLines(v, m, fmt)[1] == "Overall Status: PASSED" <==> v.isValid
  {
    var lead := "Overall Status: ";
    assert ReportLines(v, m, fmt)[1] == lead + Status(v.isValid);
    if !v.isValid {
      assert (lead + "FAILED")[|lead|] != (lead + "PASSED")[|lead|];
    }
  }

  /** Recommendations follow the summary, numbered from 1 in their order. */
  lemma RecommendationLines(v: Verdict, m: QualityMetrics, fmt: real -> string)
    requires v.recommendations != []
    ensures ReportLines(v, m, fmt)[14] == "RECOMMENDATIONS:"
    ensures forall i :: 0 <= i < |v.recommendations| ==>
      ReportLines(v, m, fmt)[15 + i] == "  " + NatToString(i + 1) + ". " + v.recommendations[i]
  {
    var s := Summary(v, m, fmt);
    var b := RecommendationBlock(v.recommendations);
    var rest := WarningBlock(v.warnings) + IssueBlock(m.issues);
    assert ReportLines(v, m, fmt) == s + b + rest;
    forall i | 0 <= i < |v.recommendations|
      ensures ReportLines(v, m, fmt)[15 + i] == "  " + NatToString(i + 1) + ". " + v.recommendations[i]
    {
      assert b[1 + i] == Numbered(v.recommendations, 1)[i];
    }
  }

  /** Splitting the report text at newlines gives back its lines, except that
      the title line carries its own newline and so yields an extra empty line. */
  lemma ReportSplitsIntoLines(v: Verdict, m: QualityMetrics, fmt: real -> string)
    requires forall l :: l in ReportLines(v, m, fmt)[1..] ==> '\n' !in l
    ensures Split(ReportText(v, m, fmt), '\n') == [Title, ""] + ReportLines(v, m, fmt)[1..]
  {
    var lines := ReportLines(v, m, fmt);
    assert lines[0] == Summary(v, m, fmt)[0];
    assert '\n' !in Title;
    TitledSplit(Title, lines);
  }

  /** Lines without newlines, the first of which ends in one, split back into
      the lines with an empty line after the first. */
  lemma TitledSplit(title: string, lines: seq<string>)
    requires |lines| >= 2 && lines[0] == title + "\n" && '\n' !in title
    requires forall l :: l in lines[1..] ==> '\n' !in l
    ensures Split(Join(lines, "\n"), '\n') == [title, ""] + lines[1..]
  {
    var parts := [title, ""] + lines[1..];
    assert forall p :: p in parts ==> '\n' !in p;
    assert Join(lines, "\n") == Join(parts, "\n") by {
      JoinFirst(lines, "\n");
      JoinFirst(parts, "\n");
      JoinFirst(parts[1..], "\n");
      assert parts[1..][1..] == lines[1..];
    }
    SplitJoin(parts, '\n');
  }

  /** Joining peels off the first part. */
  lemma JoinFirst(parts: seq<string>, sep: string)
    requires |parts| >= 2
    ensures Join(parts, sep) == parts[0] + sep + Join(parts[1..], sep)
  {
  }
}
